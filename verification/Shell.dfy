/** sh.c:260-493: the shell's lexer and recursive-descent parser. A command line is the sequence
    of its characters before the NUL. */
module Shell {
  const MAXARGS := 10
  const O_RDONLY := 0
  const O_WRITE := 0x201   // O_WRONLY|O_CREATE

  datatype Option<T> = None | Some(value: T)

  /** `struct cmd`; words are strings in the grammar and spans of the line in the code. */
  datatype Cmd<T> =
    | Exec(argv: seq<T>)
    | Redir(cmd: Cmd<T>, file: T, mode: nat, fd: nat)
    | Pipe(left: Cmd<T>, right: Cmd<T>)
    | List(left: Cmd<T>, right: Cmd<T>)
    | Back(cmd: Cmd<T>)

  datatype Rd<T> = Rd(file: T, mode: nat, fd: nat)

  // ---- tokens ----

  /** What gettoken returns: a symbol, `>>`, or a word. */
  datatype Tok = Sym(c: char) | Append | Word(w: string)

  predicate IsSpace(c: char) {
    c == ' ' || c == '\t' || c == '\r' || c == '\n' || c == '\U{000B}'
  }

  predicate IsSymbol(c: char) {
    c == '<' || c == '|' || c == '>' || c == '&' || c == ';' || c == '(' || c == ')'
  }

  predicate IsPlain(c: char) {
    !IsSpace(c) && !IsSymbol(c)
  }

  /** Past white space. */
  function Skip(text: string, pos: nat): (r: nat)
    requires pos <= |text|
    ensures pos <= r <= |text| && (r < |text| ==> !IsSpace(text[r])) && forall i :: pos <= i < r ==> IsSpace(text[i])
    decreases |text| - pos
  {
    if pos < |text| && IsSpace(text[pos]) then Skip(text, pos + 1) else pos
  }

  /** Past the characters of a word. */
  function WordEnd(text: string, pos: nat): (r: nat)
    requires pos <= |text|
    ensures pos <= r <= |text| && (r < |text| ==> !IsPlain(text[r])) && forall i :: pos <= i < r ==> IsPlain(text[i])
    decreases |text| - pos
  {
    if pos < |text| && IsPlain(text[pos]) then WordEnd(text, pos + 1) else pos
  }

  function TokEnd(text: string, s: nat): (r: nat)
    requires s < |text| && !IsSpace(text[s])
    ensures s < r <= |text|
  {
    if text[s] == '>' && s + 1 < |text| && text[s + 1] == '>' then s + 2
    else if IsSymbol(text[s]) then s + 1
    else WordEnd(text, s)
  }

  function TokAt(text: string, s: nat): (r: Tok)
    requires s < |text| && !IsSpace(text[s])
  {
    if text[s] == '>' && s + 1 < |text| && text[s + 1] == '>' then Append
    else if IsSymbol(text[s]) then Sym(text[s])
    else Word(text[s..WordEnd(text, s)])
  }

  /** The tokens from `pos` on. */
  function Lex(text: string, pos: nat): (ts: seq<Tok>)
    requires pos <= |text|
    decreases |text| - pos
  {
    var s := Skip(text, pos);
    if s == |text| then [] else [TokAt(text, s)] + Lex(text, TokEnd(text, s))
  }

  // ---- the grammar ----

  datatype Res<T> = Ok(val: T, rest: seq<Tok>) | Bad

  predicate Starts(ts: seq<Tok>, syms: string) {
    |ts| > 0 && ts[0].Sym? && ts[0].c in syms
  }

  predicate StartsRedir(ts: seq<Tok>) {
    Starts(ts, "<>") || (|ts| > 0 && ts[0] == Append)
  }

  function RdOf(t: Tok, w: string): (r: Rd<string>) {
    if t == Sym('<') then Rd(w, O_RDONLY, 0) else Rd(w, O_WRITE, 1)
  }

  /** parseredirs: `rds` so far. */
  function Redirs(rds: seq<Rd<string>>, ts: seq<Tok>): (r: Res<seq<Rd<string>>>)
    ensures r.Ok? ==> |r.rest| <= |ts|
    decreases |ts|
  {
    if !StartsRedir(ts) then Ok(rds, ts)
    else if |ts| > 1 && ts[1].Word? then Redirs(rds + [RdOf(ts[0], ts[1].w)], ts[2..])
    else Bad
  }

  function Wrap<T>(cmd: Cmd<T>, rds: seq<Rd<T>>): (r: Cmd<T>)
    decreases |rds|
  {
    if |rds| == 0 then cmd
    else
      var x := rds[|rds| - 1];
      Redir(Wrap(cmd, rds[..|rds| - 1]), x.file, x.mode, x.fd)
  }

  /** parseexec's loop: arguments and redirections so far. */
  function Args(argv: seq<string>, rds: seq<Rd<string>>, ts: seq<Tok>): (r: Res<Cmd<string>>)
    ensures r.Ok? ==> |r.rest| <= |ts|
    decreases |ts|
  {
    if |ts| == 0 || Starts(ts, "|)&;") then Ok(Wrap(Exec(argv), rds), ts)
    else if !ts[0].Word? || |argv| + 1 >= MAXARGS then Bad
    else
      var rs := Redirs(rds, ts[1..]);
      if rs.Bad? then Bad else Args(argv + [ts[0].w], rs.val, rs.rest)
  }

  function PipeG(ts: seq<Tok>): (r: Res<Cmd<string>>)
    ensures r.Ok? ==> |r.rest| <= |ts|
    decreases |ts|, 2
  {
    var x := ExecG(ts);
    if x.Ok? && Starts(x.rest, "|") then
      var y := PipeG(x.rest[1..]);
      if y.Bad? then Bad else Ok(Pipe(x.val, y.val), y.rest)
    else x
  }

  /** parseline's loop over `&`. */
  function Backs(c: Cmd<string>, ts: seq<Tok>): (r: Res<Cmd<string>>)
    ensures r.Ok? && |r.rest| <= |ts|
    decreases |ts|
  {
    if Starts(ts, "&") then Backs(Back(c), ts[1..]) else Ok(c, ts)
  }

  function LineG(ts: seq<Tok>): (r: Res<Cmd<string>>)
    ensures r.Ok? ==> |r.rest| <= |ts|
    decreases |ts|, 3
  {
    var x := PipeG(ts);
    if x.Bad? then Bad
    else
      var b := Backs(x.val, x.rest);
      if Starts(b.rest, ";") then
        var y := LineG(b.rest[1..]);
        if y.Bad? then Bad else Ok(List(b.val, y.val), y.rest)
      else b
  }

  function BlockG(ts: seq<Tok>): (r: Res<Cmd<string>>)
    requires Starts(ts, "(")
    ensures r.Ok? ==> |r.rest| <= |ts|
    decreases |ts|, 0
  {
    var l := LineG(ts[1..]);
    if l.Bad? || !Starts(l.rest, ")") then Bad
    else
      var rs := Redirs([], l.rest[1..]);
      if rs.Bad? then Bad else Ok(Wrap(l.val, rs.val), rs.rest)
  }

  function ExecG(ts: seq<Tok>): (r: Res<Cmd<string>>)
    ensures r.Ok? ==> |r.rest| <= |ts|
    decreases |ts|, 1
  {
    if Starts(ts, "(") then BlockG(ts)
    else
      var rs := Redirs([], ts);
      if rs.Bad? then Bad else Args([], rs.val, rs.rest)
  }

  /** parsecmd: the whole line must be used up. */
  function ParseLine(text: string): (r: Option<Cmd<string>>) {
    var l := LineG(Lex(text, 0));
    if l.Ok? && l.rest == [] then Some(l.val) else None
  }

  // ---- printing ----

  predicate WordOk(w: string) {
    |w| > 0 && forall i :: 0 <= i < |w| ==> IsPlain(w[i])
  }

  predicate RedirOk(mode: nat, fd: nat) {
    (mode == O_RDONLY && fd == 0) || (mode == O_WRITE && fd == 1)
  }

  /** The trees the parser can build: at most nine arguments, plain words, the two redirections. */
  predicate Printable(c: Cmd<string>) {
    match c
    case Exec(argv) => |argv| < MAXARGS && forall i :: 0 <= i < |argv| ==> WordOk(argv[i])
    case Redir(x, f, mode, fd) => Printable(x) && WordOk(f) && RedirOk(mode, fd)
    case Pipe(l, r) => Printable(l) && Printable(r)
    case List(l, r) => Printable(l) && Printable(r)
    case Back(x) => Printable(x)
  }

  /** Precedence: what binds loosest first. */
  function Rank(c: Cmd<string>): (r: nat) {
    match c
    case List(_, _) => 0
    case Back(_) => 1
    case Pipe(_, _) => 2
    case _ => 3
  }

  function Op(mode: nat): (t: Tok) {
    if mode == O_RDONLY then Sym('<') else Sym('>')
  }

  function Words(argv: seq<string>): (ts: seq<Tok>) {
    seq(|argv|, i requires 0 <= i < |argv| => Word(argv[i]))
  }

  function Bare(c: Cmd<string>): (ts: seq<Tok>)
    decreases c, 0
  {
    match c
    case Exec(argv) => Words(argv)
    case Redir(x, f, mode, fd) => Show(x, 3) + [Op(mode), Word(f)]
    case Pipe(l, r) => Show(l, 3) + [Sym('|')] + Show(r, 2)
    case Back(x) => Show(x, 1) + [Sym('&')]
    case List(l, r) => Show(l, 1) + [Sym(';')] + Show(r, 0)
  }

  /** A tree where something of precedence `lvl` or tighter is expected: parentheses only where
      they are needed. */
  function Show(c: Cmd<string>, lvl: nat): (ts: seq<Tok>)
    decreases c, 1
  {
    if Rank(c) < lvl then [Sym('(')] + Bare(c) + [Sym(')')] else Bare(c)
  }

  function TokText(t: Tok): (s: string) {
    match t
    case Sym(c) => [c]
    case Append => ">>"
    case Word(w) => w
  }

  function Render(ts: seq<Tok>): (s: string) {
    if |ts| == 0 then "" else TokText(ts[0]) + " " + Render(ts[1..])
  }

  function Print(c: Cmd<string>): (s: string) {
    Render(Show(c, 0))
  }

  // ---- the parser reads back what is printed ----

  function RdToks(rds: seq<Rd<string>>): (ts: seq<Tok>) {
    if |rds| == 0 then [] else [Op(rds[0].mode), Word(rds[0].file)] + RdToks(rds[1..])
  }

  predicate RdsOk(rds: seq<Rd<string>>) {
    forall i :: 0 <= i < |rds| ==> RedirOk(rds[i].mode, rds[i].fd) && WordOk(rds[i].file)
  }

  lemma {:induction false} RdToksSnoc(rds: seq<Rd<string>>, x: Rd<string>)
    ensures RdToks(rds + [x]) == RdToks(rds) + [Op(x.mode), Word(x.file)]
    decreases |rds|
  {
    if |rds| > 0 {
      RdToksSnoc(rds[1..], x);
      assert (rds + [x])[1..] == rds[1..] + [x];
    } else {
      assert rds + [x] == [x];
    }
  }

  lemma {:induction false} RedirsReadBack(acc: seq<Rd<string>>, rds: seq<Rd<string>>, rest: seq<Tok>)
    requires RdsOk(rds) && !StartsRedir(rest)
    ensures Redirs(acc, RdToks(rds) + rest) == Ok(acc + rds, rest)
    decreases |rds|
  {
    var ts := RdToks(rds) + rest;
    if |rds| == 0 {
      assert ts == rest && acc + rds == acc;
    } else {
      assert ts[0] == Op(rds[0].mode) && ts[1] == Word(rds[0].file) && ts[2..] == RdToks(rds[1..]) + rest;
      assert RdOf(ts[0], ts[1].w) == rds[0];
      RedirsReadBack(acc + [rds[0]], rds[1..], rest);
      assert acc + [rds[0]] + rds[1..] == acc + rds;
    }
  }

  predicate EndsExec(rest: seq<Tok>) {
    |rest| == 0 || Starts(rest, "|)&;")
  }

  lemma {:induction false} ArgsReadBack(argv0: seq<string>, argv: seq<string>, rds: seq<Rd<string>>, rest: seq<Tok>)
    requires |argv| > 0 && |argv0| + |argv| < MAXARGS && RdsOk(rds) && EndsExec(rest)
    ensures Args(argv0, [], Words(argv) + RdToks(rds) + rest) == Ok(Wrap(Exec(argv0 + argv), rds), rest)
    decreases |argv|
  {
    var ts := Words(argv) + RdToks(rds) + rest;
    var more := Words(argv[1..]) + RdToks(rds) + rest;
    assert ts[0] == Word(argv[0]) && ts[1..] == more;
    if |argv| == 1 {
      assert more == RdToks(rds) + rest;
      RedirsReadBack([], rds, rest);
      assert [] + rds == rds && argv0 + argv == argv0 + [argv[0]];
    } else {
      assert more[0] == Word(argv[1]);
      ArgsReadBack(argv0 + [argv[0]], argv[1..], rds, rest);
      assert argv0 + [argv[0]] + argv[1..] == argv0 + argv;
    }
  }

  lemma SimpleReadBack(argv: seq<string>, rds: seq<Rd<string>>, rest: seq<Tok>)
    requires |argv| < MAXARGS && RdsOk(rds) && EndsExec(rest)
    ensures ExecG(Words(argv) + RdToks(rds) + rest) == Ok(Wrap(Exec(argv), rds), rest)
  {
    var ts := Words(argv) + RdToks(rds) + rest;
    if |argv| == 0 {
      assert ts == RdToks(rds) + rest;
      RedirsReadBack([], rds, rest);
      assert [] + rds == rds;
      assert !Starts(ts, "(");
    } else {
      assert ts[0] == Word(argv[0]);
      ArgsReadBack([], argv, rds, rest);
      assert [] + argv == argv;
    }
  }

  function Nodes(c: Cmd<string>): (n: nat)
    ensures n > 0
  {
    match c
    case Exec(_) => 1
    case Redir(x, _, _, _) => 1 + Nodes(x)
    case Pipe(l, r) => 1 + Nodes(l) + Nodes(r)
    case List(l, r) => 1 + Nodes(l) + Nodes(r)
    case Back(x) => 1 + Nodes(x)
  }

  /** The command under a chain of redirections, and the chain. */
  function Core(c: Cmd<string>): (r: Cmd<string>)
    ensures !r.Redir? && Nodes(r) <= Nodes(c) && (c.Redir? ==> Nodes(r) < Nodes(c)) && (!c.Redir? ==> r == c)
  {
    if c.Redir? then Core(c.cmd) else c
  }

  function Chain(c: Cmd<string>): (r: seq<Rd<string>>) {
    if c.Redir? then Chain(c.cmd) + [Rd(c.file, c.mode, c.fd)] else []
  }

  lemma {:induction false} ShowChain(c: Cmd<string>)
    requires Printable(c)
    ensures Show(c, 3) == Show(Core(c), 3) + RdToks(Chain(c)) && Wrap(Core(c), Chain(c)) == c
    ensures RdsOk(Chain(c)) && Printable(Core(c))
    decreases c
  {
    if c.Redir? {
      ShowChain(c.cmd);
      var x := Rd(c.file, c.mode, c.fd);
      RdToksSnoc(Chain(c.cmd), x);
      assert Show(Core(c), 3) + RdToks(Chain(c)) == Show(Core(c), 3) + RdToks(Chain(c.cmd)) + [Op(c.mode), Word(c.file)];
      assert Chain(c)[..|Chain(c)| - 1] == Chain(c.cmd);
    } else {
      assert Show(c, 3) + [] == Show(c, 3);
    }
  }

  lemma ShowExec(x: Cmd<string>)
    requires x.Exec? && Printable(x)
    ensures Show(x, 3) == Words(x.argv) && |x.argv| < MAXARGS
  {
  }

  lemma ShowBlock(x: Cmd<string>)
    requires !x.Exec? && !x.Redir?
    ensures Show(x, 3) == [Sym('(')] + Show(x, 0) + [Sym(')')]
  {
  }

  lemma ShowParts(c: Cmd<string>)
    requires Printable(c)
    ensures c.Pipe? ==> Show(c, 2) == Show(c.left, 3) + [Sym('|')] + Show(c.right, 2) && Printable(c.left) && Printable(c.right)
    ensures !c.Pipe? ==> Show(c, 2) == Show(c, 3)
    ensures c.Back? ==> Show(c, 1) == Show(c.cmd, 1) + [Sym('&')] && Printable(c.cmd)
    ensures !c.Back? ==> Show(c, 1) == Show(c, 2)
    ensures c.List? ==> Show(c, 0) == Show(c.left, 1) + [Sym(';')] + Show(c.right, 0) && Printable(c.left) && Printable(c.right)
    ensures !c.List? ==> Show(c, 0) == Show(c, 1)
  {
  }

  lemma {:induction false} PipeReadBack(c: Cmd<string>, rest: seq<Tok>)
    requires Printable(c) && (|rest| == 0 || Starts(rest, ")&;"))
    ensures PipeG(Show(c, 2) + rest) == Ok(c, rest)
    decreases Nodes(c), (Rank(c) + 2) % 4
  {
    hide LineG, BlockG, ExecG, Args, Redirs, Show, Bare, Printable;
    ShowParts(c);
    if c.Pipe? {
      var tail := [Sym('|')] + (Show(c.right, 2) + rest);
      assert Show(c, 2) + rest == Show(c.left, 3) + tail && tail[1..] == Show(c.right, 2) + rest;
      ExecReadBack(c.left, tail);
      PipeReadBack(c.right, rest);
    } else {
      ExecReadBack(c, rest);
    }
  }

  /** parseline before its test for `;`. */
  function BackG(ts: seq<Tok>): (r: Res<Cmd<string>>) {
    var x := PipeG(ts);
    if x.Bad? then Bad else Backs(x.val, x.rest)
  }

  lemma {:induction false} BackReadBack(c: Cmd<string>, rest: seq<Tok>)
    requires Printable(c) && (|rest| == 0 || Starts(rest, ")&;"))
    ensures BackG(Show(c, 1) + rest) == Backs(c, rest)
    decreases Nodes(c), (Rank(c) + 3) % 4
  {
    hide LineG, PipeG, BlockG, ExecG, Args, Redirs, Show, Bare, Printable;
    ShowParts(c);
    if c.Back? {
      var tail := [Sym('&')] + rest;
      assert Show(c, 1) + rest == Show(c.cmd, 1) + tail && tail[1..] == rest;
      BackReadBack(c.cmd, tail);
    } else {
      PipeReadBack(c, rest);
    }
  }

  lemma {:induction false} LineReadBack(c: Cmd<string>, rest: seq<Tok>)
    requires Printable(c) && (|rest| == 0 || Starts(rest, ")"))
    ensures LineG(Show(c, 0) + rest) == Ok(c, rest)
    decreases Nodes(c), Rank(c) % 4
  {
    hide PipeG, BlockG, ExecG, Args, Redirs, Show, Bare, Printable;
    ShowParts(c);
    if c.List? {
      var tail := [Sym(';')] + (Show(c.right, 0) + rest);
      assert Show(c, 0) + rest == Show(c.left, 1) + tail && tail[1..] == Show(c.right, 0) + rest;
      BackReadBack(c.left, tail);
      LineReadBack(c.right, rest);
    } else {
      BackReadBack(c, rest);
    }
  }

  lemma {:induction false} ExecReadBack(c: Cmd<string>, rest: seq<Tok>)
    requires Printable(c) && EndsExec(rest)
    ensures ExecG(Show(c, 3) + rest) == Ok(c, rest)
    decreases Nodes(c), (Rank(c) + 1) % 4
  {
    hide LineG, PipeG, Args, Redirs, Show, Bare, RdToks, Wrap, Chain, Printable, Nodes;
    ShowChain(c);
    var (x, rds) := (Core(c), Chain(c));
    assert Show(c, 3) + rest == Show(x, 3) + RdToks(rds) + rest;
    if x.Exec? {
      ShowExec(x);
      SimpleReadBack(x.argv, rds, rest);
    } else {
      var tail := [Sym(')')] + (RdToks(rds) + rest);
      ShowBlock(x);
      assert tail[0] == Sym(')') && tail[1..] == RdToks(rds) + rest;
      LineReadBack(x, tail);
      RedirsReadBack([], rds, rest);
      assert [] + rds == rds;
      var ts := [Sym('(')] + (Show(x, 0) + tail);
      assert Show(x, 3) + RdToks(rds) + rest == ts;
      assert ts[0] == Sym('(') && ts[1..] == Show(x, 0) + tail;
    }
  }

  predicate TokOk(t: Tok) {
    match t
    case Sym(c) => IsSymbol(c)
    case Append => true
    case Word(w) => WordOk(w)
  }

  predicate TokensOk(ts: seq<Tok>) {
    forall i :: 0 <= i < |ts| ==> TokOk(ts[i])
  }

  lemma LexEnd(text: string)
    ensures Lex(text, |text|) == []
  {
  }

  lemma CharKinds()
    ensures IsSpace(' ') && !IsSymbol(' ') && IsSymbol('>') && forall c :: IsSpace(c) ==> !IsSymbol(c)
  {
  }

  lemma LexSkips(text: string, pos: nat)
    requires pos < |text| && IsSpace(text[pos])
    ensures Lex(text, pos) == Lex(text, pos + 1)
  {
  }

  lemma {:induction false} WordEndAt(text: string, pos: nat, end: nat)
    requires pos <= end <= |text| && (forall i :: pos <= i < end ==> IsPlain(text[i]))
    requires end < |text| ==> !IsPlain(text[end])
    ensures WordEnd(text, pos) == end
    decreases end - pos
  {
    if pos < end {
      WordEndAt(text, pos + 1, end);
    }
  }

  /** A token followed by a space is lexed as itself. */
  lemma TokReadBack(text: string, pos: nat, t: Tok)
    requires TokOk(t) && pos + |TokText(t)| < |text| && text[pos..pos + |TokText(t)|] == TokText(t)
    requires text[pos + |TokText(t)|] == ' '
    ensures Lex(text, pos) == [t] + Lex(text, pos + |TokText(t)| + 1)
  {
    hide IsSpace, IsSymbol;
    CharKinds();
    var w, end := TokText(t), pos + |TokText(t)|;
    forall i | pos <= i < end ensures text[i] == w[i - pos] {
      assert text[pos..end][i - pos] == text[i];
    }
    if t.Word? {
      WordEndAt(text, pos, end);
    }
    assert Skip(text, pos) == pos && TokAt(text, pos) == t && TokEnd(text, pos) == end;
    LexSkips(text, end);
  }

  lemma {:induction false} LexRender(pre: string, ts: seq<Tok>)
    requires TokensOk(ts)
    ensures Lex(pre + Render(ts), |pre|) == ts
    decreases |ts|
  {
    hide Lex, IsPlain, IsSymbol;
    var text := pre + Render(ts);
    if |ts| == 0 {
      LexEnd(text);
    } else {
      var w := TokText(ts[0]);
      var pre' := pre + w + " ";
      assert text == pre' + Render(ts[1..]);
      assert text[|pre|..|pre| + |w|] == w;
      TokReadBack(text, |pre|, ts[0]);
      LexRender(pre', ts[1..]);
    }
  }

  lemma TokensOkJoin(a: seq<Tok>, b: seq<Tok>, c: seq<Tok>)
    requires TokensOk(a) && TokensOk(b) && TokensOk(c)
    ensures TokensOk(a + b) && TokensOk(a + b + c)
  {
  }

  lemma SymOk(c: char)
    requires IsSymbol(c)
    ensures TokensOk([Sym(c)])
  {
  }

  lemma BareSimpleOk(c: Cmd<string>)
    requires Printable(c)
    ensures c.Exec? ==> TokensOk(Bare(c))
    ensures c.Redir? ==> TokensOk([Op(c.mode), Word(c.file)]) && Bare(c) == Show(c.cmd, 3) + [Op(c.mode), Word(c.file)]
  {
  }

  lemma Symbols()
    ensures IsSymbol('(') && IsSymbol(')') && IsSymbol('|') && IsSymbol('&') && IsSymbol(';')
  {
  }

  lemma {:induction false} ShowOk(c: Cmd<string>, lvl: nat)
    requires Printable(c)
    ensures TokensOk(Show(c, lvl)) && TokensOk(Bare(c))
    decreases c
  {
    hide TokensOk, IsSymbol;
    assert IsSymbol('(') && IsSymbol(')') && IsSymbol('|') && IsSymbol('&') && IsSymbol(';') by {
      Symbols();
    }
    BareSimpleOk(c);
    match c {
      case Exec(_) =>
      case Redir(x, f, mode, _) =>
        ShowOk(x, 3);
        TokensOkJoin(Show(x, 3), [Op(mode), Word(f)], [Op(mode), Word(f)]);
      case Pipe(l, r) =>
        ShowOk(l, 3);
        ShowOk(r, 2);
        SymOk('|');
        TokensOkJoin(Show(l, 3), [Sym('|')], Show(r, 2));
      case Back(x) =>
        ShowOk(x, 1);
        SymOk('&');
        TokensOkJoin(Show(x, 1), [Sym('&')], [Sym('&')]);
      case List(l, r) =>
        ShowOk(l, 1);
        ShowOk(r, 0);
        SymOk(';');
        TokensOkJoin(Show(l, 1), [Sym(';')], Show(r, 0));
    }
    SymOk('(');
    SymOk(')');
    TokensOkJoin([Sym('(')], Bare(c), [Sym(')')]);
  }

  /** Printing a command and parsing the text gives the command back. */
  lemma RoundTrip(c: Cmd<string>)
    requires Printable(c)
    ensures ParseLine(Print(c)) == Some(c)
  {
    hide Lex, Show, Render, LineG;
    ShowOk(c, 0);
    LexRender("", Show(c, 0));
    assert "" + Print(c) == Print(c) && Show(c, 0) + [] == Show(c, 0);
    LineReadBack(c, []);
  }

  // ---- what the parser builds can be printed ----

  lemma {:induction false} LexOk(text: string, pos: nat)
    requires pos <= |text|
    ensures TokensOk(Lex(text, pos))
    decreases |text| - pos
  {
    var s := Skip(text, pos);
    if s < |text| {
      LexOk(text, TokEnd(text, s));
    }
  }

  lemma {:induction false} WrapOk(c: Cmd<string>, rds: seq<Rd<string>>)
    requires Printable(c) && RdsOk(rds)
    ensures Printable(Wrap(c, rds))
    decreases |rds|
  {
    if |rds| > 0 {
      WrapOk(c, rds[..|rds| - 1]);
    }
  }

  lemma {:induction false} RedirsOk(rds: seq<Rd<string>>, ts: seq<Tok>)
    requires RdsOk(rds) && TokensOk(ts)
    ensures Redirs(rds, ts).Ok? ==> RdsOk(Redirs(rds, ts).val) && TokensOk(Redirs(rds, ts).rest)
    decreases |ts|
  {
    if StartsRedir(ts) && |ts| > 1 && ts[1].Word? {
      assert TokOk(ts[1]);
      RedirsOk(rds + [RdOf(ts[0], ts[1].w)], ts[2..]);
    }
  }

  lemma {:induction false} ArgsOk(argv: seq<string>, rds: seq<Rd<string>>, ts: seq<Tok>)
    requires Printable(Exec(argv)) && RdsOk(rds) && TokensOk(ts)
    ensures Args(argv, rds, ts).Ok? ==> Printable(Args(argv, rds, ts).val) && TokensOk(Args(argv, rds, ts).rest)
    decreases |ts|
  {
    WrapOk(Exec(argv), rds);
    if |ts| > 0 && ts[0].Word? && |argv| + 1 < MAXARGS {
      assert TokOk(ts[0]);
      RedirsOk(rds, ts[1..]);
      var rs := Redirs(rds, ts[1..]);
      if rs.Ok? {
        ArgsOk(argv + [ts[0].w], rs.val, rs.rest);
      }
    }
  }

  lemma EmptyExecOk()
    ensures Printable(Exec([]))
  {
  }

  lemma {:induction false} PipeOk(ts: seq<Tok>)
    requires TokensOk(ts)
    ensures PipeG(ts).Ok? ==> Printable(PipeG(ts).val) && TokensOk(PipeG(ts).rest)
    decreases |ts|, 2
  {
    hide ExecG, BlockG, LineG;
    ExecOk(ts);
    var x := ExecG(ts);
    if x.Ok? && Starts(x.rest, "|") {
      PipeOk(x.rest[1..]);
    }
  }

  lemma {:induction false} BacksOk(c: Cmd<string>, ts: seq<Tok>)
    requires Printable(c) && TokensOk(ts)
    ensures Printable(Backs(c, ts).val) && TokensOk(Backs(c, ts).rest)
    decreases |ts|
  {
    if Starts(ts, "&") {
      BacksOk(Back(c), ts[1..]);
    }
  }

  lemma {:induction false} LineOk(ts: seq<Tok>)
    requires TokensOk(ts)
    ensures LineG(ts).Ok? ==> Printable(LineG(ts).val) && TokensOk(LineG(ts).rest)
    decreases |ts|, 3
  {
    hide PipeG, ExecG, BlockG;
    PipeOk(ts);
    var x := PipeG(ts);
    if x.Ok? {
      BacksOk(x.val, x.rest);
      var b := Backs(x.val, x.rest);
      if Starts(b.rest, ";") {
        LineOk(b.rest[1..]);
      }
    }
  }

  lemma {:induction false} ExecOk(ts: seq<Tok>)
    requires TokensOk(ts)
    ensures ExecG(ts).Ok? ==> Printable(ExecG(ts).val) && TokensOk(ExecG(ts).rest)
    decreases |ts|, 1
  {
    hide Printable, Args, Redirs, PipeG, LineG, Wrap;
    if Starts(ts, "(") {
      LineOk(ts[1..]);
      var l := LineG(ts[1..]);
      if l.Ok? && Starts(l.rest, ")") {
        RedirsOk([], l.rest[1..]);
        var rs := Redirs([], l.rest[1..]);
        if rs.Ok? {
          WrapOk(l.val, rs.val);
        }
      }
    } else {
      RedirsOk([], ts);
      var rs := Redirs([], ts);
      if rs.Ok? {
        EmptyExecOk();
        ArgsOk([], rs.val, rs.rest);
      }
    }
  }

  /** Any line that parses, parses to a command that prints to a line parsing the same; so the
      commands the parser builds are exactly the printable ones. */
  lemma PrintNormalises(text: string)
    ensures ParseLine(text).Some? ==> Printable(ParseLine(text).value)
    ensures ParseLine(text).Some? ==> ParseLine(Print(ParseLine(text).value)) == ParseLine(text)
  {
    hide Lex, Print, LineG;
    LexOk(text, 0);
    LineOk(Lex(text, 0));
    if ParseLine(text).Some? {
      RoundTrip(ParseLine(text).value);
    }
  }
}
