/** The regular-expression matcher (grep.c) against what its patterns mean. Patterns and
    lines are C strings, so neither holds a NUL. */
module Grep {
  datatype Item = One(c: char) | Star(c: char)

  /** A pattern: what to match in order, and whether it must end at the end of the line. */
  datatype Pattern = Pattern(items: seq<Item>, toEnd: bool)

  function Parse(re: string): Pattern
    decreases |re|
  {
    if re == "" then Pattern([], false)
    else if |re| >= 2 && re[1] == '*' then
      var p := Parse(re[2..]);
      Pattern([Star(re[0])] + p.items, p.toEnd)
    else if re == "$" then Pattern([], true)
    else
      var p := Parse(re[1..]);
      Pattern([One(re[0])] + p.items, p.toEnd)
  }

  function Write(p: Pattern): string
    decreases |p.items|
  {
    if p.items == [] then (if p.toEnd then "$" else "")
    else (match p.items[0]
          case One(c) => [c]
          case Star(c) => [c, '*']) + Write(p.(items := p.items[1..]))
  }

  /** Patterns that can be written down: a '*' only in front, no plain '$' at the end. */
  predicate Writable(p: Pattern) {
    && (forall i | 1 <= i < |p.items| :: p.items[i].c != '*')
    && (p.items != [] && !p.toEnd ==> p.items[|p.items| - 1] != One('$'))
  }

  /** The code reads a written pattern as it was meant. */
  lemma {:induction false} ParseWrite(p: Pattern)
    requires Writable(p)
    ensures Parse(Write(p)) == p
    decreases |p.items|
  {
    if p.items != [] {
      var q := p.(items := p.items[1..]);
      var re := Write(p);
      ParseWrite(q);
      assert p.items == [p.items[0]] + q.items;
      if p.items[0].Star? {
        assert re[2..] == Write(q);
      } else {
        assert re[1..] == Write(q);
        assert q.items != [] ==> Write(q)[0] == q.items[0].c == p.items[1].c;
      }
    }
  }

  // ----- meaning

  predicate CharOk(c: char, x: char) {
    c == '.' || c == x
  }

  predicate PieceOk(it: Item, w: string) {
    match it
    case One(c) => |w| == 1 && CharOk(c, w[0])
    case Star(c) => forall i | 0 <= i < |w| :: CharOk(c, w[i])
  }

  function Concat(pieces: seq<string>): string {
    if pieces == [] then "" else pieces[0] + Concat(pieces[1..])
  }

  predicate PiecesOk(items: seq<Item>, pieces: seq<string>) {
    |pieces| == |items| && forall i | 0 <= i < |items| :: PieceOk(items[i], pieces[i])
  }

  /** w can be cut into consecutive pieces, one for each item. */
  ghost predicate Means(items: seq<Item>, w: string) {
    exists pieces :: PiecesOk(items, pieces) && Concat(pieces) == w
  }

  /** A match that starts at the beginning of the text and takes n characters. */
  ghost predicate HereFor(p: Pattern, text: string, n: nat) {
    n <= |text| && Means(p.items, text[..n]) && (p.toEnd ==> n == |text|)
  }

  ghost predicate Here(p: Pattern, text: string) {
    exists n: nat :: HereFor(p, text, n)
  }

  /** Some substring matches: anywhere, or from the start after '^'. */
  ghost predicate Matches(re: string, text: string) {
    if re != "" && re[0] == '^' then Here(Parse(re[1..]), text)
    else exists i: nat :: i <= |text| && Here(Parse(re), text[i..])
  }

  // ----- one item at a time

  lemma MeansNil(w: string)
    ensures Means([], w) <==> w == ""
  {
    assert PiecesOk([], []) && Concat([]) == "";
  }

  lemma MeansCons(it: Item, rest: seq<Item>, w: string, k: nat)
    requires k <= |w| && PieceOk(it, w[..k]) && Means(rest, w[k..])
    ensures Means([it] + rest, w)
  {
    var pieces :| PiecesOk(rest, pieces) && Concat(pieces) == w[k..];
    var all := [w[..k]] + pieces;
    assert all[1..] == pieces;
    assert PiecesOk([it] + rest, all);
    assert Concat(all) == w[..k] + w[k..] == w;
  }

  lemma MeansHead(it: Item, rest: seq<Item>, w: string) returns (k: nat)
    requires Means([it] + rest, w)
    ensures k <= |w| && PieceOk(it, w[..k]) && Means(rest, w[k..])
  {
    var all: seq<string> :| PiecesOk([it] + rest, all) && Concat(all) == w;
    assert all[0] == all[0] && ([it] + rest)[0] == it;
    forall i | 0 <= i < |rest|
      ensures PieceOk(rest[i], all[1..][i])
    {
      assert ([it] + rest)[i + 1] == rest[i];
    }
    assert PiecesOk(rest, all[1..]);
    k := |all[0]|;
    assert w[..k] == all[0] && w[k..] == Concat(all[1..]);
  }

  /** A match of an item and a rest is a match of the rest after a piece for the item. */
  lemma HereSplit(it: Item, p: Pattern, text: string)
    ensures Here(Pattern([it] + p.items, p.toEnd), text) <==>
            exists k: nat :: k <= |text| && PieceOk(it, text[..k]) && Here(p, text[k..])
  {
    var q := Pattern([it] + p.items, p.toEnd);
    if n: nat :| HereFor(q, text, n) {
      var k := MeansHead(it, p.items, text[..n]);
      assert text[..n][..k] == text[..k] && text[..n][k..] == text[k..][..n - k];
      assert HereFor(p, text[k..], n - k);
    }
    if k: nat :| k <= |text| && PieceOk(it, text[..k]) && Here(p, text[k..]) {
      var m: nat :| HereFor(p, text[k..], m);
      var n := k + m;
      assert text[..n][..k] == text[..k] && text[..n][k..] == text[k..][..m];
      MeansCons(it, p.items, text[..n], k);
      assert HereFor(q, text, n);
    }
  }

  lemma HereEmpty(toEnd: bool, text: string)
    ensures Here(Pattern([], toEnd), text) <==> (toEnd ==> text == "")
  {
    var p := Pattern([], toEnd);
    MeansNil(text[..0]);
    if toEnd ==> text == "" {
      assert HereFor(p, text, 0);
    }
    if n: nat :| HereFor(p, text, n) {
      MeansNil(text[..n]);
    }
  }

  lemma HereOne(c: char, p: Pattern, text: string)
    ensures Here(Pattern([One(c)] + p.items, p.toEnd), text) <==> text != "" && CharOk(c, text[0]) && Here(p, text[1..])
  {
    HereSplit(One(c), p, text);
    if text != "" && CharOk(c, text[0]) && Here(p, text[1..]) {
      assert PieceOk(One(c), text[..1]);
    }
  }

  // ----- the code

  /** matchhere: the pattern matches at the beginning of the text. */
  method MatchHere(re: string, text: string) returns (b: bool)
    ensures b <==> Here(Parse(re), text)
    decreases |re|, 0
  {
    if re == "" {
      HereEmpty(false, text);
      return true;
    }
    if |re| >= 2 && re[1] == '*' {
      b := MatchStar(re[0], re[2..], text);
      return;
    }
    if re[0] == '$' && |re| == 1 {
      HereEmpty(true, text);
      return text == "";
    }
    HereOne(re[0], Parse(re[1..]), text);
    if text != "" && (re[0] == '.' || re[0] == text[0]) {
      b := MatchHere(re[1..], text[1..]);
      return;
    }
    return false;
  }

  /** matchstar: shortest first, so nothing shorter than the current run has matched. */
  method MatchStar(c: char, re: string, text: string) returns (b: bool)
    ensures var p := Parse(re);
            b <==> Here(Pattern([Star(c)] + p.items, p.toEnd), text)
    decreases |re|, 1
  {
    HereSplit(Star(c), Parse(re), text);
    var k := 0;
    while true
      invariant k <= |text| && PieceOk(Star(c), text[..k])
      invariant forall j: nat | j < k :: !Here(Parse(re), text[j..])
      decreases |text| - k
    {
      b := MatchHere(re, text[k..]);
      if b {
        return;
      }
      if k == |text| || !(text[k] == c || c == '.') {
        break;
      }
      k := k + 1;
    }
    forall j: nat | j <= |text| && PieceOk(Star(c), text[..j])
      ensures !Here(Parse(re), text[j..])
    {
      assert j > k ==> text[..j][k] == text[k];
    }
  }

  /** match: some substring of the text matches the pattern. */
  method Match(re: string, text: string) returns (b: bool)
    ensures b <==> Matches(re, text)
  {
    if re != "" && re[0] == '^' {
      b := MatchHere(re[1..], text);
      return;
    }
    var i := 0;
    while true
      invariant i <= |text|
      invariant forall j: nat | j < i :: !Here(Parse(re), text[j..])
      decreases |text| - i
    {
      b := MatchHere(re, text[i..]);
      if b {
        return;
      }
      if i == |text| {
        break;
      }
      i := i + 1;
    }
  }

  // ----- familiar patterns

  /** No character of re has a meaning of its own. */
  predicate Plain(re: string) {
    forall k | 0 <= k < |re| :: re[k] !in ".*^$"
  }

  lemma {:induction false} PlainHere(re: string, text: string)
    requires Plain(re)
    ensures Here(Parse(re), text) <==> re <= text
    ensures Here(Parse(re + "$"), text) <==> re == text
    decreases |re|
  {
    if re == "" {
      HereEmpty(false, text);
      HereEmpty(true, text);
      assert re + "$" == "$";
    } else {
      var end := re + "$";
      assert end[1..] == re[1..] + "$" && end[1] != '*';
      HereOne(re[0], Parse(re[1..]), text);
      HereOne(re[0], Parse(end[1..]), text);
      if text != "" {
        PlainHere(re[1..], text[1..]);
        assert text == [text[0]] + text[1..] && re == [re[0]] + re[1..];
      }
    }
  }

  /** A PLAIN PATTERN IS A SUBSTRING SEARCH. */
  lemma PlainIsSubstring(re: string, text: string)
    requires Plain(re)
    ensures Matches(re, text) <==> exists i: nat :: i <= |text| && re <= text[i..]
  {
    forall i: nat | i <= |text|
      ensures Here(Parse(re), text[i..]) <==> re <= text[i..]
    {
      PlainHere(re, text[i..]);
    }
  }

  /** Anchored at both ends, it is the whole line. */
  lemma PlainIsLine(re: string, text: string)
    requires Plain(re)
    ensures Matches("^" + re + "$", text) <==> text == re
  {
    assert ("^" + re + "$")[1..] == re + "$";
    PlainHere(re, text);
  }

  function Dots(n: nat): string {
    if n == 0 then "" else "." + Dots(n - 1)
  }

  lemma {:induction false} DotsHere(n: nat, text: string)
    ensures Here(Parse(Dots(n)), text) <==> |text| >= n
    decreases n
  {
    if n == 0 {
      HereEmpty(false, text);
    } else {
      var re := Dots(n);
      assert re[1..] == Dots(n - 1) && (n > 1 ==> re[1] == '.');
      HereOne('.', Parse(Dots(n - 1)), text);
      if text != "" {
        DotsHere(n - 1, text[1..]);
      }
    }
  }

  /** n dots match the lines of n characters or more. */
  lemma DotsAreLength(n: nat, text: string)
    ensures Matches(Dots(n), text) <==> |text| >= n
  {
    forall i: nat | i <= |text|
      ensures Here(Parse(Dots(n)), text[i..]) <==> |text| - i >= n
    {
      DotsHere(n, text[i..]);
    }
    assert text[0..] == text;
    if |text| >= n {
      assert Here(Parse(Dots(n)), text[0..]);
    }
  }

  /** c* anchored at both ends matches the lines of c's, and .* every line. */
  lemma StarIsRun(c: char, text: string)
    ensures Matches(['^', c, '*', '$'], text) <==> c == '.' || forall k | 0 <= k < |text| :: text[k] == c
  {
    var re := ['^', c, '*', '$'];
    assert re[1..] == [c, '*', '$'] && [c, '*', '$'][2..] == "$";
    assert Parse("$") == Pattern([], true) && [Star(c)] + [] == [Star(c)];
    assert Parse([c, '*', '$']) == Pattern([Star(c)], true);
    HereSplit(Star(c), Pattern([], true), text);
    forall k: nat | k <= |text|
      ensures Here(Pattern([], true), text[k..]) <==> k == |text|
    {
      HereEmpty(true, text[k..]);
    }
    assert text[..|text|] == text;
  }
}
