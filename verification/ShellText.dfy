/** The shell's lexer over a string (sh.c): tokens as spans of the string, and the round
    trip from a command to a string and back. */
module ShellText {
  import opened ShellSpec

  // ----- words seen through a function

  function MapSeq<T, U>(f: T -> U, s: seq<T>): (r: seq<U>)
    ensures |r| == |s| && forall i | 0 <= i < |s| :: r[i] == f(s[i])
  {
    seq(|s|, i requires 0 <= i < |s| => f(s[i]))
  }

  function MapRd<T, U>(f: T -> U, rd: Rd<T>): Rd<U> {
    Rd(f(rd.file), rd.mode, rd.fd)
  }

  function MapRds<T, U>(f: T -> U, rs: seq<Rd<T>>): (r: seq<Rd<U>>)
    ensures |r| == |rs| && forall i | 0 <= i < |rs| :: r[i] == MapRd(f, rs[i])
  {
    seq(|rs|, i requires 0 <= i < |rs| => MapRd(f, rs[i]))
  }

  function MapCmd<T, U>(f: T -> U, t: Cmd<T>): Cmd<U> {
    match t
    case Exec(argv) => Exec(MapSeq(f, argv))
    case Redir(c, rd) => Redir(MapCmd(f, c), MapRd(f, rd))
    case Pipe(l, r) => Pipe(MapCmd(f, l), MapCmd(f, r))
    case Seq(l, r) => Seq(MapCmd(f, l), MapCmd(f, r))
    case Back(c) => Back(MapCmd(f, c))
  }

  function MapTok<T, U>(f: T -> U, t: Tok<T>): Tok<U> {
    match t
    case Word(w) => Word(f(w))
    case Sym(c) => Sym(c)
  }

  function MapToks<T, U>(f: T -> U, ts: Toks<T>): Toks<U> {
    if ts.Nil? then Nil else Cons(MapTok(f, ts.head), MapToks(f, ts.tail))
  }

  function MapRes<T, U>(f: T -> U, r: Res<T>): Res<U> {
    match r
    case Ok(c, rest) => Ok(MapCmd(f, c), MapToks(f, rest))
    case Err(e) => Err(e)
  }

  function MapRdRes<T, U>(f: T -> U, r: RdRes<T>): RdRes<U> {
    match r
    case RdOk(rs, rest) => RdOk(MapRds(f, rs), MapToks(f, rest))
    case NoFile => NoFile
  }

  lemma {:induction false} WrapMap<T, U>(f: T -> U, c: Cmd<T>, rs: seq<Rd<T>>)
    ensures MapCmd(f, Wrap(c, rs)) == Wrap(MapCmd(f, c), MapRds(f, rs))
    decreases |rs|
  {
    if rs != [] {
      WrapMap(f, c, rs[..|rs| - 1]);
      assert MapRds(f, rs)[..|rs| - 1] == MapRds(f, rs[..|rs| - 1]);
    }
  }

  lemma IsMap<T, U>(f: T -> U, ts: Toks<T>, c: char)
    ensures Is(MapToks(f, ts), c) <==> Is(ts, c)
  {
  }

  lemma {:induction false} RedirsMap<T, U>(f: T -> U, rs: seq<Rd<T>>, ts: Toks<T>)
    ensures PRedirs(MapRds(f, rs), MapToks(f, ts)) == MapRdRes(f, PRedirs(rs, ts))
    decreases ts
  {
    if IsRd(ts) && ts.tail.Cons? && ts.tail.head.Word? {
      var rd := RdOf(ts.head.c, ts.tail.head.w);
      RedirsMap(f, rs + [rd], ts.tail.tail);
      assert MapRds(f, rs + [rd]) == MapRds(f, rs) + [MapRd(f, rd)];
    }
  }

  lemma {:induction false} ArgsMap<T, U>(f: T -> U, args: seq<T>, rs: seq<Rd<T>>, ts: Toks<T>)
    ensures PArgs(MapSeq(f, args), MapRds(f, rs), MapToks(f, ts)) == MapRes(f, PArgs(args, rs, ts))
    decreases Len(ts)
  {
    if ts.Nil? || IsEnd(ts) {
      WrapMap(f, Exec(args), rs);
    } else if ts.head.Word? && |args| + 1 < MAXARGS {
      RedirsMap(f, rs, ts.tail);
      var q := PRedirs(rs, ts.tail);
      if q.RdOk? {
        ArgsMap(f, args + [ts.head.w], q.rs, q.rest);
        assert MapSeq(f, args + [ts.head.w]) == MapSeq(f, args) + [f(ts.head.w)];
      }
    }
  }

  lemma {:induction false} ExecMap<T, U>(f: T -> U, ts: Toks<T>)
    ensures PExec(MapToks(f, ts)) == MapRes(f, PExec(ts))
    decreases Len(ts), 0
  {
    assert MapRds(f, []) == [] && MapSeq(f, []) == [];
    if Is(ts, '(') {
      LineMap(f, ts.tail);
      var l := PLine(ts.tail);
      if l.Ok? && Is(l.rest, ')') {
        RedirsMap(f, [], l.rest.tail);
        var q := PRedirs([], l.rest.tail);
        if q.RdOk? {
          WrapMap(f, l.cmd, q.rs);
        }
      }
    } else {
      RedirsMap(f, [], ts);
      var q := PRedirs([], ts);
      if q.RdOk? {
        ArgsMap(f, [], q.rs, q.rest);
      }
    }
  }

  lemma {:induction false} PipeMap<T, U>(f: T -> U, ts: Toks<T>)
    ensures PPipe(MapToks(f, ts)) == MapRes(f, PPipe(ts))
    decreases Len(ts), 1
  {
    ExecMap(f, ts);
    var e := PExec(ts);
    if e.Ok? && Is(e.rest, '|') {
      PipeMap(f, e.rest.tail);
    }
  }

  lemma {:induction false} BacksMap<T, U>(f: T -> U, c: Cmd<T>, ts: Toks<T>)
    ensures PBacks(MapCmd(f, c), MapToks(f, ts)) == MapRes(f, PBacks(c, ts))
    decreases ts
  {
    if Is(ts, '&') {
      BacksMap(f, Back(c), ts.tail);
    }
  }

  /** The parser does not look into words. */
  lemma {:induction false} LineMap<T, U>(f: T -> U, ts: Toks<T>)
    ensures PLine(MapToks(f, ts)) == MapRes(f, PLine(ts))
    decreases Len(ts), 2
  {
    PipeMap(f, ts);
    var p := PPipe(ts);
    if p.Ok? {
      BacksMap(f, p.cmd, p.rest);
      var b := PBacks(p.cmd, p.rest);
      IsMap(f, b.rest, ';');
      if Is(b.rest, ';') {
        LineMap(f, b.rest.tail);
        SemiMap(f, ts, p, b);
      }
    }
  }

  lemma SemiMap<T, U>(f: T -> U, ts: Toks<T>, p: Res<T>, b: Res<T>)
    requires p == PPipe(ts) && p.Ok? && PPipe(MapToks(f, ts)) == MapRes(f, p)
    requires b == PBacks(p.cmd, p.rest) && Is(b.rest, ';') && Is(MapToks(f, b.rest), ';')
    requires PBacks(MapCmd(f, p.cmd), MapToks(f, p.rest)) == MapRes(f, b)
    requires PLine(MapToks(f, b.rest.tail)) == MapRes(f, PLine(b.rest.tail))
    ensures PLine(MapToks(f, ts)) == MapRes(f, PLine(ts))
  {
    assert MapToks(f, b.rest).tail == MapToks(f, b.rest.tail);
  }

  // ----- tokens of a string

  /** The characters from q up to eq. */
  datatype Span = Span(q: nat, eq: nat)

  predicate Ws(c: char) {
    c == ' ' || c == '\t' || c == '\r' || c == '\n' || c == '\U{000B}'
  }

  predicate SymChar(c: char) {
    c == '<' || c == '|' || c == '>' || c == '&' || c == ';' || c == '(' || c == ')'
  }

  predicate WordChar(c: char) {
    !Ws(c) && !SymChar(c)
  }

  function SkipWs(s: string, i: nat): (j: nat)
    requires i <= |s|
    ensures i <= j <= |s| && (j < |s| ==> !Ws(s[j])) && forall k | i <= k < j :: Ws(s[k])
    decreases |s| - i
  {
    if i < |s| && Ws(s[i]) then SkipWs(s, i + 1) else i
  }

  function WordEnd(s: string, i: nat): (j: nat)
    requires i <= |s|
    ensures i <= j <= |s| && (j < |s| ==> !WordChar(s[j])) && forall k | i <= k < j :: WordChar(s[k])
    decreases |s| - i
  {
    if i < |s| && WordChar(s[i]) then WordEnd(s, i + 1) else i
  }

  predicate Append(s: string, i: nat) {
    i + 1 < |s| && s[i] == '>' && s[i + 1] == '>'
  }

  function TokEnd(s: string, i: nat): (j: nat)
    requires i < |s| && !Ws(s[i])
    ensures i < j <= |s|
  {
    if Append(s, i) then i + 2 else if SymChar(s[i]) then i + 1 else WordEnd(s, i)
  }

  function TokAt(s: string, i: nat): Tok<Span>
    requires i < |s| && !Ws(s[i])
  {
    if Append(s, i) then Sym('+') else if SymChar(s[i]) then Sym(s[i]) else Word(Span(i, WordEnd(s, i)))
  }

  function Lex(s: string, i: nat): Toks<Span>
    requires i <= |s|
    decreases |s| - i
  {
    var j := SkipWs(s, i);
    if j == |s| then Nil else Cons(TokAt(s, j), Lex(s, TokEnd(s, j)))
  }

  lemma LexSkip(s: string, i: nat)
    requires i <= |s|
    ensures Lex(s, SkipWs(s, i)) == Lex(s, i)
  {
    assert SkipWs(s, SkipWs(s, i)) == SkipWs(s, i);
  }

  /** The command whose words are the pieces of s. */
  function Text(s: string): Span -> string {
    (w: Span) => if w.q <= w.eq <= |s| then s[w.q..w.eq] else ""
  }

  // ----- what the tokens are

  const BLANKS := " \t\r\n\U{000B}"
  const OPERATORS := "<|>&;()"

  /** The characters of s from i on that are not blank. */
  function Ink(s: string, i: nat): string
    requires i <= |s|
    decreases |s| - i
  {
    if i == |s| then "" else (if s[i] in BLANKS then "" else [s[i]]) + Ink(s, i + 1)
  }

  /** The tokens written one after the other. */
  function Inked(s: string, ts: Toks<Span>): string {
    if ts.Nil? then "" else Spell(MapTok(Text(s), ts.head)) + Inked(s, ts.tail)
  }

  lemma {:induction false} InkSkip(s: string, i: nat, j: nat)
    requires i <= j <= |s| && forall k | i <= k < j :: s[k] in BLANKS
    ensures Ink(s, i) == Ink(s, j)
    decreases j - i
  {
    if i < j {
      InkSkip(s, i + 1, j);
    }
  }

  lemma {:induction false} InkRun(s: string, i: nat, j: nat)
    requires i <= j <= |s| && forall k | i <= k < j :: s[k] !in BLANKS
    ensures Ink(s, i) == s[i..j] + Ink(s, j)
    decreases j - i
  {
    if i < j {
      InkRun(s, i + 1, j);
      assert s[i..j] == [s[i]] + s[i + 1..j];
      assert [s[i]] + (s[i + 1..j] + Ink(s, j)) == s[i..j] + Ink(s, j);
    } else {
      assert s[i..j] + Ink(s, j) == Ink(s, j);
    }
  }

  /** NO CHARACTER IS LOST. The tokens of a line, written one after the other, are its
      characters that are not blank. */
  lemma {:induction false} LexKeepsInk(s: string, i: nat)
    requires i <= |s|
    ensures Inked(s, Lex(s, i)) == Ink(s, i)
    decreases |s| - i
  {
    var j := SkipWs(s, i);
    InkSkip(s, i, j);
    if j < |s| {
      var e := TokEnd(s, j);
      InkRun(s, j, e);
      assert Spell(MapTok(Text(s), TokAt(s, j))) == s[j..e];
      LexKeepsInk(s, e);
    }
  }

  /** A word is as long as it can be: up to a blank, an operator or the end of the line. */
  lemma {:induction false} TypedWord(s: string, i: nat, w: Span)
    requires i <= |s| && Typed(Lex(s, i), w)
    ensures i <= w.q < w.eq <= |s|
    ensures forall k | w.q <= k < w.eq :: s[k] !in BLANKS && s[k] !in OPERATORS
    ensures w.eq < |s| ==> s[w.eq] in BLANKS || s[w.eq] in OPERATORS
    decreases |s| - i
  {
    var j := SkipWs(s, i);
    if Lex(s, i).head != Word(w) {
      TypedWord(s, TokEnd(s, j), w);
    }
  }

  // ----- words in the result are words of the input

  predicate WordAt(s: string, w: Span) {
    && w.q < w.eq <= |s| && (forall k | w.q <= k < w.eq :: WordChar(s[k]))
    && (w.eq < |s| ==> !WordChar(s[w.eq]))
  }

  predicate AllWords(s: string, ts: Toks<Span>) {
    ts.Cons? ==> (ts.head.Word? ==> WordAt(s, ts.head.w)) && AllWords(s, ts.tail)
  }

  lemma {:induction false} LexWords(s: string, i: nat)
    requires i <= |s|
    ensures AllWords(s, Lex(s, i))
    decreases |s| - i
  {
    var j := SkipWs(s, i);
    if j < |s| {
      LexWords(s, TokEnd(s, j));
    }
  }

  predicate RdsIn(s: string, rs: seq<Rd<Span>>) {
    forall k | 0 <= k < |rs| :: WordAt(s, rs[k].file)
  }

  predicate ArgsIn(s: string, args: seq<Span>) {
    forall k | 0 <= k < |args| :: WordAt(s, args[k])
  }

  /** Every argument and file name of t is a word of s. */
  predicate WordsIn(s: string, t: Cmd<Span>) {
    match t
    case Exec(argv) => ArgsIn(s, argv)
    case Redir(c, rd) => WordsIn(s, c) && WordAt(s, rd.file)
    case Pipe(l, r) => WordsIn(s, l) && WordsIn(s, r)
    case Seq(l, r) => WordsIn(s, l) && WordsIn(s, r)
    case Back(c) => WordsIn(s, c)
  }

  lemma {:induction false} WrapWords(s: string, c: Cmd<Span>, rs: seq<Rd<Span>>)
    requires WordsIn(s, c) && RdsIn(s, rs)
    ensures WordsIn(s, Wrap(c, rs))
    decreases |rs|
  {
    if rs != [] {
      WrapWords(s, c, rs[..|rs| - 1]);
    }
  }

  lemma {:induction false} RedirsWords(s: string, rs: seq<Rd<Span>>, ts: Toks<Span>)
    requires RdsIn(s, rs) && AllWords(s, ts)
    ensures PRedirs(rs, ts).RdOk? ==> RdsIn(s, PRedirs(rs, ts).rs) && AllWords(s, PRedirs(rs, ts).rest)
    decreases ts
  {
    if IsRd(ts) && ts.tail.Cons? && ts.tail.head.Word? {
      RedirsWords(s, rs + [RdOf(ts.head.c, ts.tail.head.w)], ts.tail.tail);
    }
  }

  lemma {:induction false} ArgsWords(s: string, args: seq<Span>, rs: seq<Rd<Span>>, ts: Toks<Span>)
    requires ArgsIn(s, args) && RdsIn(s, rs) && AllWords(s, ts)
    ensures PArgs(args, rs, ts).Ok? ==> WordsIn(s, PArgs(args, rs, ts).cmd) && AllWords(s, PArgs(args, rs, ts).rest)
    decreases Len(ts)
  {
    if ts.Nil? || IsEnd(ts) {
      WrapWords(s, Exec(args), rs);
    } else if ts.head.Word? && |args| + 1 < MAXARGS {
      RedirsWords(s, rs, ts.tail);
      var q := PRedirs(rs, ts.tail);
      if q.RdOk? {
        ArgsWords(s, args + [ts.head.w], q.rs, q.rest);
      }
    }
  }

  lemma {:induction false} ExecWords(s: string, ts: Toks<Span>)
    requires AllWords(s, ts)
    ensures PExec(ts).Ok? ==> WordsIn(s, PExec(ts).cmd) && AllWords(s, PExec(ts).rest)
    decreases Len(ts), 0
  {
    if Is(ts, '(') {
      LineWords(s, ts.tail);
      var l := PLine(ts.tail);
      if l.Ok? && Is(l.rest, ')') {
        RedirsWords(s, [], l.rest.tail);
        var q := PRedirs([], l.rest.tail);
        if q.RdOk? {
          WrapWords(s, l.cmd, q.rs);
        }
      }
    } else {
      RedirsWords(s, [], ts);
      var q := PRedirs([], ts);
      if q.RdOk? {
        ArgsWords(s, [], q.rs, q.rest);
      }
    }
  }

  lemma {:induction false} PipeWords(s: string, ts: Toks<Span>)
    requires AllWords(s, ts)
    ensures PPipe(ts).Ok? ==> WordsIn(s, PPipe(ts).cmd) && AllWords(s, PPipe(ts).rest)
    decreases Len(ts), 1
  {
    ExecWords(s, ts);
    var e := PExec(ts);
    if e.Ok? && Is(e.rest, '|') {
      PipeWords(s, e.rest.tail);
    }
  }

  lemma {:induction false} BacksWords(s: string, c: Cmd<Span>, ts: Toks<Span>)
    requires WordsIn(s, c) && AllWords(s, ts)
    ensures WordsIn(s, PBacks(c, ts).cmd) && AllWords(s, PBacks(c, ts).rest)
    decreases ts
  {
    if Is(ts, '&') {
      BacksWords(s, Back(c), ts.tail);
    }
  }

  lemma {:induction false} LineWords(s: string, ts: Toks<Span>)
    requires AllWords(s, ts)
    ensures PLine(ts).Ok? ==> WordsIn(s, PLine(ts).cmd) && AllWords(s, PLine(ts).rest)
    decreases Len(ts), 2
  {
    PipeWords(s, ts);
    var p := PPipe(ts);
    if p.Ok? {
      BacksWords(s, p.cmd, p.rest);
      var b := PBacks(p.cmd, p.rest);
      if Is(b.rest, ';') {
        LineWords(s, b.rest.tail);
      }
    }
  }

  // ----- printing

  predicate GoodWord(w: string) {
    w != "" && forall k | 0 <= k < |w| :: WordChar(w[k])
  }

  predicate GoodTok(t: Tok<string>) {
    match t
    case Word(w) => GoodWord(w)
    case Sym(c) => SymChar(c) || c == '+'
  }

  predicate GoodToks(ts: Toks<string>) {
    ts.Cons? ==> GoodTok(ts.head) && GoodToks(ts.tail)
  }

  function Spell(t: Tok<string>): string {
    match t
    case Word(w) => w
    case Sym(c) => if c == '+' then ">>" else [c]
  }

  /** The tokens with a space after each. */
  function Render(ts: Toks<string>): string {
    if ts.Nil? then "" else Spell(ts.head) + " " + Render(ts.tail)
  }

  lemma {:induction false} WordEndAt(s: string, i: nat, j: nat)
    requires i <= j <= |s| && (forall k | i <= k < j :: WordChar(s[k])) && (j < |s| ==> !WordChar(s[j]))
    ensures WordEnd(s, i) == j
    decreases j - i
  {
    if i < j {
      WordEndAt(s, i + 1, j);
    }
  }

  /** A token spelled at i, with a space after it. */
  lemma TokenRead(s: string, i: nat, t: Tok<string>)
    requires GoodTok(t) && i + |Spell(t)| < |s| && s[i..i + |Spell(t)|] == Spell(t) && s[i + |Spell(t)|] == ' '
    ensures !Ws(s[i]) && MapTok(Text(s), TokAt(s, i)) == t && TokEnd(s, i) == i + |Spell(t)|
  {
    var w := Spell(t);
    assert forall k | 0 <= k < |w| :: s[i + k] == s[i..i + |w|][k] == w[k];
    assert s[i] == w[0];
    if t.Word? {
      forall k | i <= k < i + |w| ensures WordChar(s[k]) { assert s[k] == s[i + (k - i)]; }
      WordEndAt(s, i, i + |w|);
    } else if t.c == '+' {
      assert s[i + 1] == w[1];
    }
  }

  lemma SplitAt(s: string, i: nat, w: string, more: string)
    requires i <= |s| && s[i..] == w + " " + more
    ensures i + |w| < |s| && s[i..i + |w|] == w && s[i + |w|] == ' ' && s[i + |w| + 1..] == more
  {
    assert |s| - i == |w| + 1 + |more|;
    assert s[i..i + |w|] == s[i..][..|w|] && s[i + |w|] == s[i..][|w|] && s[i + |w| + 1..] == s[i..][|w| + 1..];
  }

  lemma LexAt(s: string, i: nat)
    requires i < |s| && !Ws(s[i])
    ensures Lex(s, i) == Cons(TokAt(s, i), Lex(s, TokEnd(s, i)))
  {
  }

  lemma LexSpace(s: string, i: nat)
    requires i < |s| && Ws(s[i])
    ensures Lex(s, i) == Lex(s, i + 1)
  {
    LexSkip(s, i);
    LexSkip(s, i + 1);
  }

  /** From i on, s is the tokens ts with a space after each. */
  predicate Spells(s: string, i: nat, ts: Toks<string>)
    decreases ts
  {
    if ts.Nil? then i == |s|
    else
      var e := i + |Spell(ts.head)|;
      e < |s| && s[i..e] == Spell(ts.head) && s[e] == ' ' && Spells(s, e + 1, ts.tail)
  }

  lemma {:induction false} RenderSpells(s: string, i: nat, ts: Toks<string>)
    requires i <= |s| && s[i..] == Render(ts)
    ensures Spells(s, i, ts)
    decreases ts
  {
    if ts.Cons? {
      var w, more := Spell(ts.head), Render(ts.tail);
      SplitAt(s, i, w, more);
      var e := i + |w|;
      RenderSpells(s, e + 1, ts.tail);
    }
  }

  /** A token in front, as the lexer sees it. */
  lemma LexStep(s: string, i: nat, e: nat, t: Tok<string>, rest: Toks<Span>)
    requires GoodTok(t) && e == i + |Spell(t)| < |s| && s[i..e] == Spell(t) && s[e] == ' ' && Lex(s, e + 1) == rest
    ensures Lex(s, i).Cons? && Lex(s, i).tail == rest && MapTok(Text(s), Lex(s, i).head) == t
  {
    TokenRead(s, i, t);
    LexAt(s, i);
    LexSpace(s, e);
  }

  lemma MapCons(s: string, ts: Toks<Span>, t: Tok<string>, more: Toks<string>)
    requires ts.Cons? && MapTok(Text(s), ts.head) == t && MapToks(Text(s), ts.tail) == more
    ensures MapToks(Text(s), ts) == Cons(t, more)
  {
  }

  /** The first token of a printed list, as it stands in the text. */
  lemma SpellsHead(s: string, i: nat, t: Tok<string>, more: Toks<string>)
    requires GoodToks(Cons(t, more)) && i <= |s| && Spells(s, i, Cons(t, more))
    ensures var e := i + |Spell(t)|;
            && e < |s| && s[i..e] == Spell(t) && s[e] == ' ' && Spells(s, e + 1, more)
            && GoodTok(t) && GoodToks(more)
  {
  }

  lemma LexCons(s: string, i: nat, e: nat, t: Tok<string>, more: Toks<string>)
    requires GoodTok(t) && e == i + |Spell(t)| < |s| && s[i..e] == Spell(t) && s[e] == ' '
    requires MapToks(Text(s), Lex(s, e + 1)) == more
    ensures MapToks(Text(s), Lex(s, i)) == Cons(t, more)
  {
    LexStep(s, i, e, t, Lex(s, e + 1));
    MapCons(s, Lex(s, i), t, more);
  }

  /** Lexing a printed token list gives it back. */
  lemma {:induction false} SpellsLex(s: string, i: nat, ts: Toks<string>)
    requires GoodToks(ts) && i <= |s| && Spells(s, i, ts)
    ensures MapToks(Text(s), Lex(s, i)) == ts
    decreases ts
  {
    match ts
    case Nil =>
    case Cons(t, more) =>
      SpellsHead(s, i, t, more);
      var e := i + |Spell(t)|;
      SpellsLex(s, e + 1, more);
      LexCons(s, i, e, t, more);
  }

  /** Every word of t can be typed as it is. */
  predicate WordsOk(t: Cmd<string>) {
    match t
    case Exec(argv) => forall k | 0 <= k < |argv| :: GoodWord(argv[k])
    case Redir(c, rd) => WordsOk(c) && GoodWord(rd.file)
    case Pipe(l, r) => WordsOk(l) && WordsOk(r)
    case Seq(l, r) => WordsOk(l) && WordsOk(r)
    case Back(c) => WordsOk(c)
  }

  lemma {:induction false} CoreOk(t: Cmd<string>)
    requires WordsOk(t)
    ensures WordsOk(Core(t)) && forall k | 0 <= k < |Rds(t)| :: GoodWord(Rds(t)[k].file)
  {
    if t.Redir? {
      CoreOk(t.cmd);
    }
  }

  lemma {:induction false} InnerOk(t: Cmd<string>)
    requires WordsOk(t)
    ensures WordsOk(Inner(t))
  {
    if t.Back? {
      InnerOk(t.cmd);
    }
  }

  lemma {:induction false} ItemToks(args: seq<string>, rs: seq<Rd<string>>, k: nat, l: nat, rest: Toks<string>)
    requires k <= |args| && l <= |rs| && GoodToks(rest)
    requires (forall j | 0 <= j < |args| :: GoodWord(args[j])) && forall j | 0 <= j < |rs| :: GoodWord(rs[j].file)
    ensures GoodToks(FlatItems(ItemsOf(args, rs, k, l), rest))
    decreases |args| - k, |rs| - l
  {
    if k < |args| {
      ItemToks(args, rs, k + 1, l, rest);
    } else if l < |rs| {
      ItemToks(args, rs, k, l + 1, rest);
    }
  }

  lemma {:induction false} AmpToks(n: nat, rest: Toks<string>)
    requires GoodToks(rest)
    ensures GoodToks(Amps(n, rest))
  {
    if n > 0 {
      AmpToks(n - 1, rest);
    }
  }

  lemma {:induction false} ExecToks(t: Cmd<string>, rest: Toks<string>)
    requires WordsOk(t) && GoodToks(rest)
    ensures GoodToks(FlatExec(FormExec(t), rest))
    decreases Size(t), if t.Exec? || t.Redir? then 0 else 3
  {
    CoreOk(t);
    var c := Core(t);
    if c.Exec? {
      ItemToks(c.argv, Rds(t), 0, 0, rest);
    } else {
      ItemToks([], Rds(t), 0, 0, rest);
      LineToks(c, Cons(Sym(')'), FlatItems(ItemsOf([], Rds(t), 0, 0), rest)));
    }
  }

  lemma {:induction false} PipeToks(t: Cmd<string>, rest: Toks<string>)
    requires WordsOk(t) && GoodToks(rest)
    ensures GoodToks(FlatPipe(FormPipe(t), rest))
    decreases Size(t), if t.Seq? || t.Back? then 4 else 1
  {
    if t.Pipe? {
      PipeToks(t.right, rest);
      ExecToks(t.left, Cons(Sym('|'), FlatPipe(FormPipe(t.right), rest)));
    } else {
      ExecToks(t, rest);
    }
  }

  lemma {:induction false} LineToks(t: Cmd<string>, rest: Toks<string>)
    requires WordsOk(t) && GoodToks(rest)
    ensures GoodToks(FlatLine(FormLine(t), rest))
    decreases Size(t), 2
  {
    if t.Seq? {
      LineToks(t.right, rest);
      var after := Cons(Sym(';'), FlatLine(FormLine(t.right), rest));
      AmpToks(Depth(t.left), after);
      InnerOk(t.left);
      PipeToks(Inner(t.left), Amps(Depth(t.left), after));
    } else {
      AmpToks(Depth(t), rest);
      InnerOk(t);
      PipeToks(Inner(t), Amps(Depth(t), rest));
    }
  }

  /** t as a line of text. */
  function Print(t: Cmd<string>): string {
    Render(FlatLine(FormLine(t), Nil))
  }

  /** ROUND TRIP. Parsing the printed line gives the tree back: its words are the pieces of
      the line that the parser points at. */
  lemma RoundTrip(t: Cmd<string>)
    requires Legal(t) && WordsOk(t)
    ensures var r := PCmd(Lex(Print(t), 0));
            r.Ok? && MapCmd(Text(Print(t)), r.cmd) == t
  {
    var us := FlatLine(FormLine(t), Nil);
    LineToks(t, Nil);
    PrintLexes(Print(t), us);
    PrintParse(t);
    ParsesAs(Print(t), us, t);
  }

  lemma PrintLexes(s: string, us: Toks<string>)
    requires s == Render(us) && GoodToks(us)
    ensures MapToks(Text(s), Lex(s, 0)) == us
  {
    assert s[0..] == s;
    RenderSpells(s, 0, us);
    SpellsLex(s, 0, us);
  }

  /** A line whose tokens, with words for spans, parse to t. */
  lemma ParsesAs(s: string, us: Toks<string>, t: Cmd<string>)
    requires MapToks(Text(s), Lex(s, 0)) == us && PCmd(us) == Ok(t, Nil)
    ensures PCmd(Lex(s, 0)).Ok? && MapCmd(Text(s), PCmd(Lex(s, 0)).cmd) == t
  {
    LineMap(Text(s), Lex(s, 0));
  }

  // ----- NUL-termination

  /** A word of t ends at e. */
  ghost predicate EndsAt(t: Cmd<Span>, e: nat) {
    exists w: Span :: IsWord(t, w) && w.eq == e
  }

  /** w is a word of a part of t. */
  predicate PartHas(t: Cmd<Span>, w: Span) {
    match t
    case Exec(argv) => w in argv
    case Redir(c, rd) => IsWord(c, w) || rd.file == w
    case Pipe(l, r) => IsWord(l, w) || IsWord(r, w)
    case Seq(l, r) => IsWord(l, w) || IsWord(r, w)
    case Back(c) => IsWord(c, w)
  }

  /** The words of a command are those of its parts. */
  lemma WordParts(t: Cmd<Span>, w: Span)
    ensures IsWord(t, w) <==> PartHas(t, w)
  {
    match t
    case Exec(argv) =>
      if w in argv {
        var k :| 0 <= k < |argv| && argv[k] == w;
        assert AsToks(argv)[k] == Word(w);
      }
    case Redir(c, rd) =>
      NamesJoin(Redirections(c), [rd], w);
      assert [rd][0] == rd;
    case Pipe(l, r) => NamesJoin(Redirections(l), Redirections(r), w);
    case Seq(l, r) => NamesJoin(Redirections(l), Redirections(r), w);
    case Back(c) =>
  }

  lemma NamesJoin(a: seq<Rd<Span>>, b: seq<Rd<Span>>, w: Span)
    ensures Names(a + b, w) <==> Names(a, w) || Names(b, w)
  {
    if k :| 0 <= k < |a| && a[k].file == w {
      assert (a + b)[k].file == w;
    }
    if k :| 0 <= k < |b| && b[k].file == w {
      assert (a + b)[|a| + k].file == w;
    }
  }

  ghost predicate PartEnds(t: Cmd<Span>, e: nat) {
    match t
    case Exec(argv) => exists k: nat :: k < |argv| && argv[k].eq == e
    case Redir(c, rd) => EndsAt(c, e) || rd.file.eq == e
    case Pipe(l, r) => EndsAt(l, e) || EndsAt(r, e)
    case Seq(l, r) => EndsAt(l, e) || EndsAt(r, e)
    case Back(c) => EndsAt(c, e)
  }

  lemma EndParts(t: Cmd<Span>, e: nat)
    ensures EndsAt(t, e) <==> PartEnds(t, e)
  {
    forall w: Span
      ensures IsWord(t, w) <==> PartHas(t, w)
    {
      WordParts(t, w);
    }
    if t.Exec? && PartEnds(t, e) {
      var k: nat :| k < |t.argv| && t.argv[k].eq == e;
      assert IsWord(t, t.argv[k]);
    } else if t.Redir? && t.rd.file.eq == e {
      assert IsWord(t, t.rd.file);
    }
  }

  lemma {:induction false} WordIn(s: string, t: Cmd<Span>, w: Span)
    requires WordsIn(s, t) && IsWord(t, w)
    ensures WordAt(s, w)
  {
    WordParts(t, w);
    match t
    case Exec(argv) =>
      var k :| 0 <= k < |argv| && argv[k] == w;
      assert WordAt(s, argv[k]);
    case Redir(c, rd) => if IsWord(c, w) { WordIn(s, c, w); }
    case Pipe(l, r) => if IsWord(l, w) { WordIn(s, l, w); } else { WordIn(s, r, w); }
    case Seq(l, r) => if IsWord(l, w) { WordIn(s, l, w); } else { WordIn(s, r, w); }
    case Back(c) => WordIn(s, c, w);
  }

  /** buf read as a C string from q on is w. */
  predicate Reads(buf: string, q: nat, w: string) {
    q + |w| < |buf| && buf[q..q + |w|] == w && buf[q + |w|] == '\0' && forall k | 0 <= k < |w| :: w[k] != '\0'
  }

  /** With a NUL at the end of every word and nowhere else, every word reads back exactly. */
  lemma ReadsBack(s: string, t: Cmd<Span>, buf: string, w: Span)
    requires WordsIn(s, t) && (forall k | 0 <= k < |s| :: s[k] != '\0')
    requires |buf| == |s| + 1 && forall k: nat | k <= |s| :: buf[k] == if EndsAt(t, k) || k == |s| then '\0' else s[k]
    requires IsWord(t, w)
    ensures Reads(buf, w.q, Text(s)(w))
  {
    WordIn(s, t, w);
    assert EndsAt(t, w.eq);
    forall k: nat | w.q <= k < w.eq
      ensures buf[k] == s[k]
    {
      if EndsAt(t, k) {
        var v: Span :| IsWord(t, v) && v.eq == k;
        WordIn(s, t, v);
      }
    }
    assert buf[w.q..w.eq] == s[w.q..w.eq];
  }
}
