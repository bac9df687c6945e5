/** grep.c:66-106: the regular expression matcher, against what the patterns denote. A C string
    is the sequence of its characters before the NUL. */
module Regex {
  // ---- what a pattern denotes ----

  /** One character, or any number of them; `.` stands for every character. */
  datatype Item = One(c: char) | Star(c: char)

  /** The items in order, and whether `$` ties the match to the end of the text. */
  datatype Pattern = Pattern(items: seq<Item>, atEnd: bool)

  predicate Fits(c: char, ch: char) {
    c == '.' || c == ch
  }

  predicate PieceOk(x: Item, w: string) {
    match x
    case One(c) => |w| == 1 && Fits(c, w[0])
    case Star(c) => forall i :: 0 <= i < |w| ==> Fits(c, w[i])
  }

  function Flat(pieces: seq<string>): (s: string) {
    if |pieces| == 0 then "" else pieces[0] + Flat(pieces[1..])
  }

  /** `s` is cut into `pieces`, one for each item. */
  predicate Cut(items: seq<Item>, pieces: seq<string>, s: string) {
    |pieces| == |items| && Flat(pieces) == s && forall i :: 0 <= i < |items| ==> PieceOk(items[i], pieces[i])
  }

  ghost predicate Denotes(items: seq<Item>, s: string) {
    exists pieces: seq<string> :: Cut(items, pieces, s)
  }

  /** How a pattern reads: `c*` is a star whatever `c` is, `$` is special only at the end, and
      every other character but `.` stands for itself. */
  function Parse(re: string): (p: Pattern) {
    if |re| == 0 then Pattern([], false)
    else if |re| > 1 && re[1] == '*' then
      var p := Parse(re[2..]);
      p.(items := [Star(re[0])] + p.items)
    else if re == "$" then Pattern([], true)
    else
      var p := Parse(re[1..]);
      p.(items := [One(re[0])] + p.items)
  }

  /** The first `n` characters of the text match. */
  ghost predicate MatchesTo(p: Pattern, text: string, n: nat) {
    n <= |text| && Denotes(p.items, text[..n]) && (p.atEnd ==> n == |text|)
  }

  ghost predicate MatchesHere(re: string, text: string) {
    exists n: nat :: MatchesTo(Parse(re), text, n)
  }

  ghost predicate MatchesFrom(re: string, text: string, k: nat) {
    k <= |text| && MatchesHere(re, text[k..])
  }

  /** `^` is special only at the start: the match must begin at the start of the text. */
  ghost predicate Matches(re: string, text: string) {
    if |re| > 0 && re[0] == '^' then MatchesHere(re[1..], text) else exists k: nat :: MatchesFrom(re, text, k)
  }

  // ---- the first item of a pattern ----

  lemma DenotesFirst(x: Item, items: seq<Item>, s: string, k: nat)
    requires k <= |s| && PieceOk(x, s[..k]) && Denotes(items, s[k..])
    ensures Denotes([x] + items, s)
  {
    var pieces: seq<string> :| Cut(items, pieces, s[k..]);
    var all := [s[..k]] + pieces;
    assert all[1..] == pieces && s[..k] + s[k..] == s;
    assert Cut([x] + items, all, s);
  }

  lemma DenotesSplit(x: Item, items: seq<Item>, s: string) returns (k: nat)
    requires Denotes([x] + items, s)
    ensures k <= |s| && PieceOk(x, s[..k]) && Denotes(items, s[k..])
  {
    var all: seq<string> :| Cut([x] + items, all, s);
    k := |all[0]|;
    assert s[..k] == all[0] && s[k..] == Flat(all[1..]);
    assert ([x] + items)[0] == x;
    forall i | 0 <= i < |items| ensures PieceOk(items[i], all[1..][i]) {
      assert ([x] + items)[i + 1] == items[i];
    }
    assert Cut(items, all[1..], s[k..]);
  }

  /** The item takes the first `k` characters and the rest of the pattern matches after them. */
  ghost predicate StartsWith(x: Item, p: Pattern, text: string, k: nat) {
    k <= |text| && PieceOk(x, text[..k]) && exists n: nat :: MatchesTo(p, text[k..], n)
  }

  lemma ItemForward(x: Item, p: Pattern, text: string, n: nat) returns (k: nat)
    requires MatchesTo(p.(items := [x] + p.items), text, n)
    ensures StartsWith(x, p, text, k)
  {
    k := DenotesSplit(x, p.items, text[..n]);
    assert text[..n][..k] == text[..k] && text[..n][k..] == text[k..][..n - k];
    assert MatchesTo(p, text[k..], n - k);
  }

  lemma ItemBackward(x: Item, p: Pattern, text: string, k: nat) returns (n: nat)
    requires StartsWith(x, p, text, k)
    ensures MatchesTo(p.(items := [x] + p.items), text, n)
  {
    var m: nat :| MatchesTo(p, text[k..], m);
    n := k + m;
    assert text[..n][..k] == text[..k] && text[..n][k..] == text[k..][..m];
    DenotesFirst(x, p.items, text[..n], k);
  }

  /** A pattern that starts with an item matches where the item and then the rest match. */
  lemma ItemMatches(x: Item, p: Pattern, text: string)
    ensures (exists n: nat :: MatchesTo(p.(items := [x] + p.items), text, n)) <==> exists k: nat :: StartsWith(x, p, text, k)
  {
    if n: nat :| MatchesTo(p.(items := [x] + p.items), text, n) {
      var k := ItemForward(x, p, text, n);
    }
    if k: nat :| StartsWith(x, p, text, k) {
      var n := ItemBackward(x, p, text, k);
    }
  }

  lemma EmptyMatches(text: string)
    ensures MatchesHere("", text)
  {
    assert Cut([], [], text[..0]);
    assert MatchesTo(Parse(""), text, 0);
  }

  lemma EndMatches(text: string)
    ensures MatchesHere("$", text) <==> text == ""
  {
    if n: nat :| MatchesTo(Parse("$"), text, n) {
      var pieces: seq<string> :| Cut([], pieces, text[..n]);
      assert text[..n] == "";
    }
    if text == "" {
      assert Cut([], [], text[..0]);
      assert MatchesTo(Parse("$"), text, 0);
    }
  }

  lemma OneMatches(re: string, text: string)
    requires |re| > 0 && !(|re| > 1 && re[1] == '*') && re != "$"
    ensures MatchesHere(re, text) <==> |text| > 0 && Fits(re[0], text[0]) && MatchesHere(re[1..], text[1..])
  {
    var x, p := One(re[0]), Parse(re[1..]);
    assert Parse(re) == p.(items := [x] + p.items);
    ItemMatches(x, p, text);
    if k: nat :| StartsWith(x, p, text, k) {
      assert k == 1 && text[..1][0] == text[0];
    }
    if |text| > 0 && Fits(re[0], text[0]) && MatchesHere(re[1..], text[1..]) {
      assert StartsWith(x, p, text, 1);
    }
  }

  /** After `k` characters that fit `c`, the rest of the pattern matches. */
  ghost predicate StarAt(c: char, re: string, text: string, k: nat) {
    k <= |text| && PieceOk(Star(c), text[..k]) && MatchesHere(re, text[k..])
  }

  lemma StarMatches(re: string, text: string)
    requires |re| > 1 && re[1] == '*'
    ensures MatchesHere(re, text) <==> exists k: nat :: StarAt(re[0], re[2..], text, k)
  {
    var x, p := Star(re[0]), Parse(re[2..]);
    assert Parse(re) == p.(items := [x] + p.items);
    ItemMatches(x, p, text);
    if k: nat :| StartsWith(x, p, text, k) {
      assert StarAt(re[0], re[2..], text, k);
    }
    if k: nat :| StarAt(re[0], re[2..], text, k) {
      assert StartsWith(x, p, text, k);
    }
  }

  // ---- the code ----

  lemma StarStops(c: char, re: string, text: string, k: nat)
    requires k <= |text| && !StarAt(c, re, text, k)
    requires k == |text| || !Fits(c, text[k])
    requires PieceOk(Star(c), text[..k]) && forall j :: 0 <= j < k ==> !StarAt(c, re, text, j)
    ensures forall j: nat :: !StarAt(c, re, text, j)
  {
    forall j: nat ensures !StarAt(c, re, text, j) {
      if j > k && j <= |text| {
        assert text[..j][k] == text[k];
      }
    }
  }

  /** matchstar: zero or more of `c`, then the pattern. */
  method MatchStar(c: char, re: string, text: string) returns (r: bool)
    ensures r <==> exists k: nat :: StarAt(c, re, text, k)
    decreases |re|, 1
  {
    var k := 0;
    while true
      invariant 0 <= k <= |text| && PieceOk(Star(c), text[..k])
      invariant forall j :: 0 <= j < k ==> !StarAt(c, re, text, j)
      decreases |text| - k
    {
      var here := MatchHere(re, text[k..]);
      if here {
        assert StarAt(c, re, text, k);
        return true;
      }
      if k == |text| || !(text[k] == c || c == '.') {
        StarStops(c, re, text, k);
        return false;
      }
      k := k + 1;
    }
  }

  /** matchhere: the pattern matches at the beginning of the text. */
  method MatchHere(re: string, text: string) returns (r: bool)
    ensures r <==> MatchesHere(re, text)
    decreases |re|, 0
  {
    if |re| == 0 {
      EmptyMatches(text);
      return true;
    }
    if |re| > 1 && re[1] == '*' {
      StarMatches(re, text);
      r := MatchStar(re[0], re[2..], text);
      return;
    }
    if re[0] == '$' && |re| == 1 {
      assert re == "$";
      EndMatches(text);
      return |text| == 0;
    }
    OneMatches(re, text);
    if |text| > 0 && (re[0] == '.' || re[0] == text[0]) {
      r := MatchHere(re[1..], text[1..]);
      return;
    }
    return false;
  }

  /** match: the pattern is found somewhere in the text, including its empty end. */
  method Match(re: string, text: string) returns (r: bool)
    ensures r <==> Matches(re, text)
  {
    if |re| > 0 && re[0] == '^' {
      r := MatchHere(re[1..], text);
      return;
    }
    var k := 0;
    while true
      invariant 0 <= k <= |text|
      invariant forall j :: 0 <= j < k ==> !MatchesFrom(re, text, j)
      decreases |text| - k
    {
      var here := MatchHere(re, text[k..]);
      if here {
        assert MatchesFrom(re, text, k);
        return true;
      }
      if k == |text| {
        return false;
      }
      k := k + 1;
    }
  }
}
