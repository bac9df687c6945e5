/** sh.c:265-493 as code: a cursor moved along the line, trees whose words are spans of it, and
    nulterminate writing NULs into the line. */
module ShellParser {
  import opened Shell

  /** `q` and `eq`: where a word starts and where it ends. */
  datatype Span = Span(q: nat, eq: nat)

  /** A maximal run of word characters. */
  ghost predicate SpanOk(text: string, sp: Span) {
    && sp.q < sp.eq <= |text|
    && (forall i :: sp.q <= i < sp.eq ==> IsPlain(text[i]))
    && (sp.eq < |text| ==> !IsPlain(text[sp.eq]))
  }

  ghost function TextOf(text: string, sp: Span): (w: string)
    requires SpanOk(text, sp)
  {
    text[sp.q..sp.eq]
  }

  ghost predicate SpansOk(text: string, sps: seq<Span>) {
    forall i :: 0 <= i < |sps| ==> SpanOk(text, sps[i])
  }

  ghost predicate RdSpansOk(text: string, rds: seq<Rd<Span>>) {
    forall i :: 0 <= i < |rds| ==> SpanOk(text, rds[i].file)
  }

  ghost predicate CmdOk(text: string, c: Cmd<Span>) {
    match c
    case Exec(argv) => SpansOk(text, argv)
    case Redir(x, f, _, _) => CmdOk(text, x) && SpanOk(text, f)
    case Pipe(l, r) => CmdOk(text, l) && CmdOk(text, r)
    case List(l, r) => CmdOk(text, l) && CmdOk(text, r)
    case Back(x) => CmdOk(text, x)
  }

  ghost function TextsOf(text: string, sps: seq<Span>): (ws: seq<string>)
    requires SpansOk(text, sps)
  {
    seq(|sps|, i requires 0 <= i < |sps| => TextOf(text, sps[i]))
  }

  ghost function RdTexts(text: string, rds: seq<Rd<Span>>): (r: seq<Rd<string>>)
    requires RdSpansOk(text, rds)
  {
    seq(|rds|, i requires 0 <= i < |rds| => Rd(TextOf(text, rds[i].file), rds[i].mode, rds[i].fd))
  }

  /** The tree with its words read off the line. */
  ghost function Strings(text: string, c: Cmd<Span>): (r: Cmd<string>)
    requires CmdOk(text, c)
  {
    match c
    case Exec(argv) => Exec(TextsOf(text, argv))
    case Redir(x, f, mode, fd) => Redir(Strings(text, x), TextOf(text, f), mode, fd)
    case Pipe(l, r) => Pipe(Strings(text, l), Strings(text, r))
    case List(l, r) => List(Strings(text, l), Strings(text, r))
    case Back(x) => Back(Strings(text, x))
  }

  lemma {:induction false} StringsWrap(text: string, c: Cmd<Span>, rds: seq<Rd<Span>>)
    requires CmdOk(text, c) && RdSpansOk(text, rds)
    ensures CmdOk(text, Wrap(c, rds)) && Strings(text, Wrap(c, rds)) == Wrap(Strings(text, c), RdTexts(text, rds))
    decreases |rds|
  {
    if |rds| > 0 {
      var n := |rds| - 1;
      StringsWrap(text, c, rds[..n]);
      assert RdTexts(text, rds)[..n] == RdTexts(text, rds[..n]);
    }
  }

  /** The character peek looks at decides what the next token is. */
  lemma PeekToken(text: string, pos: nat)
    requires pos <= |text| && Skip(text, pos) == pos
    ensures pos == |text| <==> Lex(text, pos) == []
    ensures pos < |text| ==> Lex(text, pos)[0] == TokAt(text, pos) && Lex(text, pos)[1..] == Lex(text, TokEnd(text, pos))
  {
  }

  ghost predicate Same(text: string, r: Option<Cmd<Span>>, g: Res<Cmd<string>>, rest: seq<Tok>) {
    if r.None? then g.Bad? else CmdOk(text, r.value) && g == Ok(Strings(text, r.value), rest)
  }

  lemma RedirStep(ts: seq<Tok>, word: bool)
    requires StartsRedir(ts) && (word <==> |ts| > 1 && ts[1].Word?)
    ensures forall rds :: Redirs(rds, ts) == if word then Redirs(rds + [RdOf(ts[0], ts[1].w)], ts[2..]) else Bad
    ensures |ts| > 1 ==> ts[1..][1..] == ts[2..] && ts[1..][0] == ts[1]
  {
  }

  class Parser {
    const text: string
    var pos: nat

    ghost predicate Valid()
      reads this
    {
      pos <= |text|
    }

    /** The tokens not yet consumed. */
    ghost function Rest(): (ts: seq<Tok>)
      requires Valid()
      reads this
    {
      Lex(text, pos)
    }

    constructor (line: string)
      ensures Valid() && text == line && pos == 0
    {
      text := line;
      pos := 0;
    }

    method SkipSpace()
      requires Valid()
      modifies this
      ensures Valid() && pos == Skip(text, old(pos)) == Skip(text, pos) && Rest() == old(Rest())
    {
      while pos < |text| && IsSpace(text[pos])
        invariant Valid() && Skip(text, pos) == Skip(text, old(pos)) && Lex(text, pos) == Lex(text, old(pos))
        decreases |text| - pos
      {
        LexSkips(text, pos);
        pos := pos + 1;
      }
    }

    method Peek(toks: string) returns (b: bool)
      requires Valid()
      modifies this
      ensures Valid() && pos == Skip(text, pos) && Rest() == old(Rest())
      ensures b <==> pos < |text| && text[pos] in toks
    {
      SkipSpace();
      b := pos < |text| && text[pos] in toks;
    }

    /** peek for symbols other than `>`. */
    method PeekSymbol(syms: string) returns (b: bool)
      requires Valid() && forall c :: c in syms ==> IsSymbol(c) && c != '>'
      modifies this
      ensures Valid() && Rest() == old(Rest()) && (b <==> Starts(Rest(), syms))
    {
      b := Peek(syms);
      PeekToken(text, pos);
    }

    method PeekRedir() returns (b: bool)
      requires Valid()
      modifies this
      ensures Valid() && Rest() == old(Rest()) && (b <==> StartsRedir(Rest()))
    {
      b := Peek("<>");
      PeekToken(text, pos);
    }

    method ReadWord()
      requires Valid()
      modifies this
      ensures Valid() && pos == WordEnd(text, old(pos))
    {
      while pos < |text| && IsPlain(text[pos])
        invariant old(pos) <= pos <= |text| && WordEnd(text, pos) == WordEnd(text, old(pos))
        decreases |text| - pos
      {
        pos := pos + 1;
      }
    }

    /** The token at the cursor. */
    method ReadToken() returns (ret: char, sp: Span)
      requires pos < |text| && !IsSpace(text[pos])
      modifies this
      ensures Valid() && pos == TokEnd(text, old(pos)) && sp == Span(old(pos), pos)
      ensures var t := TokAt(text, old(pos));
              match t
              case Word(w) => ret == 'a' && SpanOk(text, sp) && TextOf(text, sp) == w
              case Sym(c) => ret == c && ret != 'a' && ret != '+' && ret != '\0'
              case Append => ret == '+'
    {
      var q := pos;
      if text[pos] == '>' {
        ret := '>';
        pos := pos + 1;
        if pos < |text| && text[pos] == '>' {
          ret := '+';
          pos := pos + 1;
        }
      } else if IsSymbol(text[pos]) {
        ret := text[pos];
        pos := pos + 1;
      } else {
        ret := 'a';
        ReadWord();
      }
      sp := Span(q, pos);
    }

    /** gettoken: NUL at the end, `+` for `>>`, `a` for a word, else the symbol. */
    method GetToken() returns (ret: char, sp: Span)
      requires Valid()
      modifies this
      ensures Valid()
      ensures old(Rest()) == [] ==> ret == '\0' && Rest() == []
      ensures old(Rest()) != [] ==> Rest() == old(Rest())[1..]
      ensures old(Rest()) != [] && old(Rest())[0].Word? ==> ret == 'a' && SpanOk(text, sp) && TextOf(text, sp) == old(Rest())[0].w
      ensures old(Rest()) != [] && old(Rest())[0].Sym? ==> ret == old(Rest())[0].c && ret != 'a' && ret != '+' && ret != '\0'
      ensures old(Rest()) != [] && old(Rest())[0] == Append ==> ret == '+'
    {
      hide TokAt, TokEnd, Lex;
      SkipSpace();
      PeekToken(text, pos);
      sp := Span(pos, pos);
      if pos == |text| {
        ret := '\0';
      } else {
        ret, sp := ReadToken();
      }
      SkipSpace();
    }

    /** parseredirs, collecting the redirections after `rds0`. */
    method ParseRedirs(rds0: seq<Rd<Span>>) returns (r: Option<seq<Rd<Span>>>)
      requires Valid() && RdSpansOk(text, rds0)
      modifies this
      ensures Valid()
      ensures r.None? ==> Redirs(RdTexts(text, rds0), old(Rest())).Bad?
      ensures r.Some? ==> RdSpansOk(text, r.value)
      ensures r.Some? ==> Redirs(RdTexts(text, rds0), old(Rest())) == Ok(RdTexts(text, r.value), Rest())
    {
      hide Lex, IsSymbol;
      var rds := rds0;
      var more := PeekRedir();
      while more
        invariant Valid() && RdSpansOk(text, rds) && (more <==> StartsRedir(Rest()))
        invariant Redirs(RdTexts(text, rds0), old(Rest())) == Redirs(RdTexts(text, rds), Rest())
        decreases |Rest()|
      {
        ghost var ts := Rest();
        var tok, sp := GetToken();
        var kind;
        kind, sp := GetToken();
        RedirStep(ts, kind == 'a');
        if kind != 'a' {
          return None;
        }
        var x := if tok == '<' then Rd(sp, O_RDONLY, 0) else Rd(sp, O_WRITE, 1);
        assert RdTexts(text, rds + [x]) == RdTexts(text, rds) + [RdOf(ts[0], ts[1].w)];
        rds := rds + [x];
        more := PeekRedir();
      }
      return Some(rds);
    }

    /** parseexec's loop. The arguments of the one execcmd are gathered in `argv`. */
    method ParseArgs(rds0: seq<Rd<Span>>) returns (r: Option<Cmd<Span>>)
      requires Valid() && RdSpansOk(text, rds0)
      modifies this
      ensures Valid() && Same(text, r, Args([], RdTexts(text, rds0), old(Rest())), Rest())
    {
      hide Lex, IsSymbol, Redirs;
      Symbols();
      var argv: seq<Span>, rds := [], rds0;
      assert TextsOf(text, argv) == [];
      var stop := PeekSymbol("|)&;");
      while !stop
        invariant Valid() && SpansOk(text, argv) && RdSpansOk(text, rds) && (stop <==> Starts(Rest(), "|)&;"))
        invariant Args([], RdTexts(text, rds0), old(Rest())) == Args(TextsOf(text, argv), RdTexts(text, rds), Rest())
        decreases |Rest()|
      {
        ghost var ts := Rest();
        var tok, sp := GetToken();
        if tok == '\0' {
          break;
        }
        if tok != 'a' {
          return None;
        }
        argv := argv + [sp];
        assert TextsOf(text, argv) == TextsOf(text, argv[..|argv| - 1]) + [TextOf(text, sp)];
        assert argv[..|argv| - 1] + [sp] == argv;
        if |argv| >= MAXARGS {
          return None;
        }
        var rs := ParseRedirs(rds);
        if rs.None? {
          return None;
        }
        rds := rs.value;
        stop := PeekSymbol("|)&;");
      }
      StringsWrap(text, Exec(argv), rds);
      return Some(Wrap(Exec(argv), rds));
    }

    method ParsePipe() returns (r: Option<Cmd<Span>>)
      requires Valid()
      modifies this
      ensures Valid() && Same(text, r, PipeG(old(Rest())), Rest())
      decreases |Rest()|, 2
    {
      hide Lex, Args, Redirs, LineG, BlockG, ExecG, IsSymbol;
      Symbols();
      r := ParseExec();
      if r.None? {
        return;
      }
      var more := PeekSymbol("|");
      if more {
        var tok, sp := GetToken();
        var right := ParsePipe();
        r := if right.None? then None else Some(Pipe(r.value, right.value));
      }
    }

    method ParseLine() returns (r: Option<Cmd<Span>>)
      requires Valid()
      modifies this
      ensures Valid() && Same(text, r, LineG(old(Rest())), Rest())
      decreases |Rest()|, 3
    {
      hide Lex, Args, Redirs, PipeG, BlockG, ExecG, IsSymbol;
      Symbols();
      r := ParsePipe();
      if r.None? {
        return;
      }
      ghost var x := PipeG(old(Rest()));
      var more := PeekSymbol("&");
      while more
        invariant Valid() && r.Some? && CmdOk(text, r.value) && (more <==> Starts(Rest(), "&"))
        invariant Backs(x.val, x.rest) == Backs(Strings(text, r.value), Rest())
        decreases |Rest()|
      {
        var tok, sp := GetToken();
        r := Some(Back(r.value));
        more := PeekSymbol("&");
      }
      more := PeekSymbol(";");
      if more {
        var tok, sp := GetToken();
        var right := ParseLine();
        r := if right.None? then None else Some(List(r.value, right.value));
      }
    }

    method ParseBlock() returns (r: Option<Cmd<Span>>)
      requires Valid() && Starts(Rest(), "(")
      modifies this
      ensures Valid() && Same(text, r, BlockG(old(Rest())), Rest())
      decreases |Rest()|, 0
    {
      hide Lex, Args, Redirs, LineG, PipeG, ExecG, IsSymbol, CmdOk;
      Symbols();
      var tok, sp := GetToken();
      var c := ParseLine();
      if c.None? {
        return None;
      }
      var close := PeekSymbol(")");
      if !close {
        return None;
      }
      tok, sp := GetToken();
      var rs := ParseRedirs([]);
      assert RdTexts(text, []) == [];
      if rs.None? {
        return None;
      }
      StringsWrap(text, c.value, rs.value);
      return Some(Wrap(c.value, rs.value));
    }

    method ParseExec() returns (r: Option<Cmd<Span>>)
      requires Valid()
      modifies this
      ensures Valid() && Same(text, r, ExecG(old(Rest())), Rest())
      decreases |Rest()|, 1
    {
      hide Lex, Args, Redirs, LineG, PipeG, IsSymbol, Starts, CmdOk;
      Symbols();
      var open := PeekSymbol("(");
      if open {
        r := ParseBlock();
        return;
      }
      var rs := ParseRedirs([]);
      assert RdTexts(text, []) == [];
      if rs.None? {
        return None;
      }
      r := ParseArgs(rs.value);
    }
  }

  // ---- nulterminate ----

  /** Where nulterminate writes: the end of every word of the tree. */
  ghost function Ends(c: Cmd<Span>): (r: set<nat>) {
    match c
    case Exec(argv) => set i | 0 <= i < |argv| :: argv[i].eq
    case Redir(x, f, _, _) => Ends(x) + {f.eq}
    case Pipe(l, r) => Ends(l) + Ends(r)
    case List(l, r) => Ends(l) + Ends(r)
    case Back(x) => Ends(x)
  }

  method NulTerminate(buf: array<char>, c: Cmd<Span>, ghost text: string)
    requires CmdOk(text, c) && buf.Length == |text| + 1
    modifies buf
    ensures forall i :: 0 <= i < buf.Length ==> buf[i] == if i in Ends(c) then '\0' else old(buf[i])
    decreases c
  {
    match c {
      case Exec(argv) =>
        var k := 0;
        while k < |argv|
          invariant 0 <= k <= |argv|
          invariant forall i :: 0 <= i < buf.Length ==>
                      buf[i] == if exists j :: 0 <= j < k && argv[j].eq == i then '\0' else old(buf[i])
        {
          buf[argv[k].eq] := '\0';
          k := k + 1;
        }
      case Redir(x, f, _, _) =>
        NulTerminate(buf, x, text);
        buf[f.eq] := '\0';
      case Pipe(l, r) =>
        NulTerminate(buf, l, text);
        NulTerminate(buf, r, text);
      case List(l, r) =>
        NulTerminate(buf, l, text);
        NulTerminate(buf, r, text);
      case Back(x) =>
        NulTerminate(buf, x, text);
    }
  }

  /** The C string that starts at `q`. */
  function CString(b: string, q: nat): (w: string)
    requires q <= |b|
    decreases |b| - q
  {
    if q < |b| && b[q] != '\0' then [b[q]] + CString(b, q + 1) else ""
  }

  /** The tree with every word read as the C string its pointer points to. */
  ghost function ReadBack(b: string, c: Cmd<Span>): (r: Cmd<string>)
  {
    match c
    case Exec(argv) => Exec(seq(|argv|, i requires 0 <= i < |argv| => if argv[i].q <= |b| then CString(b, argv[i].q) else ""))
    case Redir(x, f, mode, fd) => Redir(ReadBack(b, x), if f.q <= |b| then CString(b, f.q) else "", mode, fd)
    case Pipe(l, r) => Pipe(ReadBack(b, l), ReadBack(b, r))
    case List(l, r) => List(ReadBack(b, l), ReadBack(b, r))
    case Back(x) => Back(ReadBack(b, x))
  }

  /** The line with its terminator, and NULs written at `ends`. */
  ghost function Terminated(text: string, ends: set<nat>): (b: string) {
    seq(|text| + 1, i requires 0 <= i <= |text| => if i in ends || i == |text| then '\0' else text[i])
  }

  /** Word ends are never inside a word. */
  ghost predicate Outside(text: string, ends: set<nat>) {
    forall e :: e in ends ==> e == |text| || (e < |text| && !IsPlain(text[e]))
  }

  lemma {:induction false} EndsOutside(text: string, c: Cmd<Span>)
    requires CmdOk(text, c)
    ensures Outside(text, Ends(c))
    decreases c
  {
    match c
    case Exec(_) =>
    case Redir(x, _, _, _) => EndsOutside(text, x);
    case Pipe(l, r) => EndsOutside(text, l); EndsOutside(text, r);
    case List(l, r) => EndsOutside(text, l); EndsOutside(text, r);
    case Back(x) => EndsOutside(text, x);
  }

  lemma {:induction false} SpanReadsBack(text: string, ends: set<nat>, sp: Span, q: nat)
    requires SpanOk(text, sp) && sp.q <= q <= sp.eq && Outside(text, ends) && sp.eq in ends && '\0' !in text
    ensures CString(Terminated(text, ends), q) == text[q..sp.eq]
    decreases sp.eq - q
  {
    var b := Terminated(text, ends);
    if q < sp.eq {
      assert q !in ends && b[q] == text[q];
      SpanReadsBack(text, ends, sp, q + 1);
      assert text[q..sp.eq] == [text[q]] + text[q + 1..sp.eq];
    } else {
      assert b[q] == '\0';
    }
  }

  lemma {:induction false} TreeReadsBack(text: string, ends: set<nat>, c: Cmd<Span>)
    requires CmdOk(text, c) && Outside(text, ends) && Ends(c) <= ends && '\0' !in text
    ensures ReadBack(Terminated(text, ends), c) == Strings(text, c)
    decreases c
  {
    var b := Terminated(text, ends);
    match c
    case Exec(argv) =>
      forall i | 0 <= i < |argv| ensures CString(b, argv[i].q) == TextOf(text, argv[i]) {
        assert argv[i].eq in Ends(c);
        SpanReadsBack(text, ends, argv[i], argv[i].q);
      }
    case Redir(x, f, _, _) =>
      TreeReadsBack(text, ends, x);
      SpanReadsBack(text, ends, f, f.q);
    case Pipe(l, r) => TreeReadsBack(text, ends, l); TreeReadsBack(text, ends, r);
    case List(l, r) => TreeReadsBack(text, ends, l); TreeReadsBack(text, ends, r);
    case Back(x) => TreeReadsBack(text, ends, x);
  }

  /** parsecmd on a NUL-terminated line: it accepts what the grammar accepts, and afterwards every
      argv and file pointer of the tree reads back as its word. */
  method ParseCmd(buf: array<char>) returns (r: Option<Cmd<Span>>)
    requires buf.Length > 0 && buf[buf.Length - 1] == '\0' && '\0' !in buf[..buf.Length - 1]
    modifies buf
    ensures r.None? <==> Shell.ParseLine(old(buf[..buf.Length - 1])).None?
    ensures r.None? ==> buf[..] == old(buf[..])
    ensures r.Some? ==> Shell.ParseLine(old(buf[..buf.Length - 1])) == Some(ReadBack(buf[..], r.value))
  {
    hide Lex, LineG, CmdOk, Strings, Ends, ReadBack;
    var line := buf[..buf.Length - 1];
    var p := new Parser(line);
    r := p.ParseLine();
    if r.None? {
      return;
    }
    var more := p.Peek("");
    PeekToken(line, p.pos);
    if p.pos != |line| {
      return None;
    }
    NulTerminate(buf, r.value, line);
    EndsOutside(line, r.value);
    TreeReadsBack(line, Ends(r.value), r.value);
    assert buf[..] == Terminated(line, Ends(r.value));
  }
}
