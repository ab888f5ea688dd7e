/** The shell's grammar over tokens (sh.c): the recursive descent that the parser performs,
    the written forms of a command, and that the one reads exactly the others. */
module ShellSpec {
  const MAXARGS := 10
  const O_RDONLY := 0
  const O_WRONLY_CREATE := 0x201

  datatype List<X> = Nil | Cons(head: X, tail: List<X>)

  /** A word, or a symbol; '+' stands for ">>". */
  datatype Tok<T> = Word(w: T) | Sym(c: char)
  datatype Rd<T> = Rd(file: T, mode: nat, fd: nat)
  datatype Cmd<T> =
    | Exec(argv: seq<T>)
    | Redir(cmd: Cmd<T>, rd: Rd<T>)
    | Pipe(left: Cmd<T>, right: Cmd<T>)
    | Seq(left: Cmd<T>, right: Cmd<T>)
    | Back(cmd: Cmd<T>)

  type Toks<T> = List<Tok<T>>

  datatype Error = Syntax | MissingFile | TooManyArgs | MissingParen | Leftovers
  datatype Res<T> = Ok(cmd: Cmd<T>, rest: Toks<T>) | Err(e: Error)
  datatype RdRes<T> = RdOk(rs: seq<Rd<T>>, rest: Toks<T>) | NoFile

  function Len<X>(xs: List<X>): nat {
    if xs.Nil? then 0 else 1 + Len(xs.tail)
  }

  // ----- the parser on tokens

  /** peek: the next token is this symbol. */
  predicate Is<T>(ts: Toks<T>, c: char) {
    ts.Cons? && ts.head.Sym? && ts.head.c == c
  }

  predicate IsRd<T>(ts: Toks<T>) {
    Is(ts, '<') || Is(ts, '>') || Is(ts, '+')
  }

  predicate IsEnd<T>(ts: Toks<T>) {
    Is(ts, '|') || Is(ts, ')') || Is(ts, '&') || Is(ts, ';')
  }

  function RdOf<T>(c: char, file: T): Rd<T> {
    if c == '<' then Rd(file, O_RDONLY, 0) else Rd(file, O_WRONLY_CREATE, 1)
  }

  /** parseredirs: the redirections that come next, after those in rs. */
  function PRedirs<T>(rs: seq<Rd<T>>, ts: Toks<T>): (r: RdRes<T>)
    ensures r.RdOk? ==> Len(r.rest) <= Len(ts)
    decreases ts
  {
    if !IsRd(ts) then RdOk(rs, ts)
    else if ts.tail.Nil? || !ts.tail.head.Word? then NoFile
    else PRedirs(rs + [RdOf(ts.head.c, ts.tail.head.w)], ts.tail.tail)
  }

  /** Redirections around a command, the first innermost. */
  function Wrap<T>(c: Cmd<T>, rs: seq<Rd<T>>): Cmd<T> {
    if rs == [] then c else Redir(Wrap(c, rs[..|rs| - 1]), rs[|rs| - 1])
  }

  /** parseexec's loop, with the arguments and redirections so far. */
  function PArgs<T>(args: seq<T>, rs: seq<Rd<T>>, ts: Toks<T>): (r: Res<T>)
    ensures r.Ok? ==> Len(r.rest) <= Len(ts)
    decreases Len(ts)
  {
    if ts.Nil? || IsEnd(ts) then Ok(Wrap(Exec(args), rs), ts)
    else if !ts.head.Word? then Err(Syntax)
    else if |args| + 1 >= MAXARGS then Err(TooManyArgs)
    else
      match PRedirs(rs, ts.tail)
      case NoFile => Err(MissingFile)
      case RdOk(rs2, rest) => PArgs(args + [ts.head.w], rs2, rest)
  }

  /** parseexec, with parseblock. */
  function PExec<T>(ts: Toks<T>): (r: Res<T>)
    ensures r.Ok? ==> Len(r.rest) <= Len(ts)
    decreases Len(ts), 0
  {
    if Is(ts, '(') then
      match PLine(ts.tail)
      case Err(e) => Err(e)
      case Ok(c, rest) =>
        if !Is(rest, ')') then Err(MissingParen)
        else
          match PRedirs([], rest.tail)
          case NoFile => Err(MissingFile)
          case RdOk(rs, rest2) => Ok(Wrap(c, rs), rest2)
    else
      match PRedirs([], ts)
      case NoFile => Err(MissingFile)
      case RdOk(rs, rest) => PArgs([], rs, rest)
  }

  function PPipe<T>(ts: Toks<T>): (r: Res<T>)
    ensures r.Ok? ==> Len(r.rest) <= Len(ts)
    decreases Len(ts), 1
  {
    match PExec(ts)
    case Err(e) => Err(e)
    case Ok(c, rest) =>
      if !Is(rest, '|') then Ok(c, rest)
      else
        match PPipe(rest.tail)
        case Err(e) => Err(e)
        case Ok(c2, rest2) => Ok(Pipe(c, c2), rest2)
  }

  function PBacks<T>(c: Cmd<T>, ts: Toks<T>): (r: Res<T>)
    ensures r.Ok? && Len(r.rest) <= Len(ts)
    decreases ts
  {
    if Is(ts, '&') then PBacks(Back(c), ts.tail) else Ok(c, ts)
  }

  function PLine<T>(ts: Toks<T>): (r: Res<T>)
    ensures r.Ok? ==> Len(r.rest) <= Len(ts)
    decreases Len(ts), 2
  {
    match PPipe(ts)
    case Err(e) => Err(e)
    case Ok(c, rest) =>
      var b := PBacks(c, rest);
      if !Is(b.rest, ';') then b
      else
        match PLine(b.rest.tail)
        case Err(e) => Err(e)
        case Ok(c2, rest2) => Ok(Seq(b.cmd, c2), rest2)
  }

  function PCmd<T>(ts: Toks<T>): Res<T> {
    match PLine(ts)
    case Err(e) => Err(e)
    case Ok(c, rest) => if rest.Cons? then Err(Leftovers) else Ok(c, rest)
  }

  // ----- nothing typed is lost

  /** The command read from left to right: its arguments and its operators, without
      redirections and parentheses. */
  function Skeleton<T>(t: Cmd<T>): seq<Tok<T>> {
    match t
    case Exec(argv) => AsToks(argv)
    case Redir(c, _) => Skeleton(c)
    case Pipe(l, r) => Skeleton(l) + [Sym('|')] + Skeleton(r)
    case Seq(l, r) => Skeleton(l) + [Sym(';')] + Skeleton(r)
    case Back(c) => Skeleton(c) + [Sym('&')]
  }

  function AsToks<T>(args: seq<T>): seq<Tok<T>> {
    seq(|args|, k requires 0 <= k < |args| => Word(args[k]))
  }

  /** Its redirections from left to right, the innermost of one command first. */
  function Redirections<T>(t: Cmd<T>): seq<Rd<T>> {
    match t
    case Exec(_) => []
    case Redir(c, rd) => Redirections(c) + [rd]
    case Pipe(l, r) => Redirections(l) + Redirections(r)
    case Seq(l, r) => Redirections(l) + Redirections(r)
    case Back(c) => Redirections(c)
  }

  predicate RdToks<T>(ts: Toks<T>) {
    ts.Cons? && ts.head.Sym? && ts.head.c in "<>+" && ts.tail.Cons? && ts.tail.head.Word?
  }

  /** The tokens of a line without redirections and parentheses. */
  function Strip<T>(ts: Toks<T>): seq<Tok<T>> {
    if ts.Nil? then []
    else if RdToks(ts) then Strip(ts.tail.tail)
    else if ts.head.Sym? && ts.head.c in "()" then Strip(ts.tail)
    else [ts.head] + Strip(ts.tail)
  }

  /** The redirections of a line, as the symbols say: "<" opens descriptor 0 for reading, ">"
      and ">>" open descriptor 1 for writing, O_WRONLY|O_CREATE. */
  function Directed<T>(ts: Toks<T>): seq<Rd<T>> {
    if ts.Nil? then []
    else if RdToks(ts) then
      [if ts.head.c == '<' then Rd(ts.tail.head.w, 0, 0) else Rd(ts.tail.head.w, 0x1 + 0x200, 1)]
      + Directed(ts.tail.tail)
    else Directed(ts.tail)
  }

  lemma {:induction false} WrapKept<T>(c: Cmd<T>, rs: seq<Rd<T>>)
    ensures Skeleton(Wrap(c, rs)) == Skeleton(c) && Redirections(Wrap(c, rs)) == Redirections(c) + rs
    decreases |rs|
  {
    if rs != [] {
      WrapKept(c, rs[..|rs| - 1]);
      assert Redirections(c) + rs == Redirections(c) + rs[..|rs| - 1] + [rs[|rs| - 1]];
    }
  }

  lemma {:induction false} RedirsKept<T>(rs: seq<Rd<T>>, ts: Toks<T>)
    ensures var d := PRedirs(rs, ts);
            d.RdOk? ==> Strip(d.rest) == Strip(ts) && d.rs + Directed(d.rest) == rs + Directed(ts)
    decreases ts
  {
    if IsRd(ts) && ts.tail.Cons? && ts.tail.head.Word? {
      assert RdToks(ts);
      var rd := RdOf(ts.head.c, ts.tail.head.w);
      RedirsKept(rs + [rd], ts.tail.tail);
      assert rs + [rd] + Directed(ts.tail.tail) == rs + ([rd] + Directed(ts.tail.tail));
    }
  }

  lemma AsToksMore<T>(args: seq<T>, w: T)
    ensures AsToks(args + [w]) == AsToks(args) + [Word(w)]
  {
  }

  lemma {:induction false} ArgsKept<T>(args: seq<T>, rs: seq<Rd<T>>, ts: Toks<T>)
    ensures var r := PArgs(args, rs, ts);
            r.Ok? ==>
              && Skeleton(r.cmd) + Strip(r.rest) == AsToks(args) + Strip(ts)
              && Redirections(r.cmd) + Directed(r.rest) == rs + Directed(ts)
    decreases Len(ts)
  {
    if ts.Nil? || IsEnd(ts) {
      WrapKept(Exec(args), rs);
      assert Redirections(Exec(args)) + rs == rs;
    } else if ts.head.Word? && |args| + 1 < MAXARGS {
      RedirsKept(rs, ts.tail);
      var d := PRedirs(rs, ts.tail);
      if d.RdOk? {
        ArgsKept(args + [ts.head.w], d.rs, d.rest);
        AsToksMore(args, ts.head.w);
        assert AsToks(args) + [ts.head] + Strip(ts.tail) == AsToks(args) + ([ts.head] + Strip(ts.tail));
      }
    }
  }

  /** What a parser leaves, read after what it made, is what it was given. */
  ghost predicate Kept<T>(r: Res<T>, ts: Toks<T>) {
    r.Ok? ==> Skeleton(r.cmd) + Strip(r.rest) == Strip(ts) && Redirections(r.cmd) + Directed(r.rest) == Directed(ts)
  }

  lemma ParenStrip<T>(ts: Toks<T>, c: char)
    requires (c == '(' || c == ')') && Is(ts, c)
    ensures Strip(ts) == Strip(ts.tail) && Directed(ts) == Directed(ts.tail)
  {
  }

  lemma BlockRead<T>(ts: Toks<T>, c: Cmd<T>, mid: Toks<T>, rs: seq<Rd<T>>, rest: Toks<T>)
    requires Is(ts, '(') && Is(mid, ')') && Kept(Ok(c, mid), ts.tail)
    requires Strip(rest) == Strip(mid.tail) && rs + Directed(rest) == Directed(mid.tail)
    ensures Skeleton(c) + Strip(rest) == Strip(ts) && Redirections(c) + rs + Directed(rest) == Directed(ts)
  {
    ParenStrip(ts, '(');
    ParenStrip(mid, ')');
    var a, b := Redirections(c), Directed(rest);
    assert a + rs + b == a + (rs + b);
  }

  lemma {:induction false} BlockKept<T>(ts: Toks<T>)
    requires Is(ts, '(')
    ensures Kept(PExec(ts), ts)
    decreases Len(ts), 0
  {
    LineKept(ts.tail);
    var l := PLine(ts.tail);
    if l.Ok? && Is(l.rest, ')') {
      RedirsKept([], l.rest.tail);
      var d := PRedirs([], l.rest.tail);
      if d.RdOk? {
        WrapKept(l.cmd, d.rs);
        assert [] + Directed(l.rest.tail) == Directed(l.rest.tail);
        BlockRead(ts, l.cmd, l.rest, d.rs, d.rest);
      }
    }
  }

  lemma {:induction false} ExecKept<T>(ts: Toks<T>)
    ensures Kept(PExec(ts), ts)
    decreases Len(ts), 1
  {
    if Is(ts, '(') {
      BlockKept(ts);
    } else {
      RedirsKept([], ts);
      var d := PRedirs([], ts);
      if d.RdOk? {
        ArgsKept([], d.rs, d.rest);
        assert [] + Directed(ts) == Directed(ts);
        var none: seq<T> := [];
        assert AsToks(none) + Strip(d.rest) == Strip(d.rest);
      }
    }
  }

  /** Two parts with an operator between them. */
  lemma JoinKept<T>(l: Cmd<T>, r: Cmd<T>, t: Cmd<T>, c: char, ts: Toks<T>, mid: Toks<T>, rest: Toks<T>)
    requires (c == '|' && t == Pipe(l, r)) || (c == ';' && t == Seq(l, r))
    requires Is(mid, c) && Kept(Ok(l, mid), ts) && Kept(Ok(r, rest), mid.tail)
    ensures Kept(Ok(t, rest), ts)
  {
    assert Strip(mid) == [Sym(c)] + Strip(mid.tail) && Directed(mid) == Directed(mid.tail);
    assert Skeleton(l) + [Sym(c)] + Skeleton(r) + Strip(rest) == Skeleton(l) + ([Sym(c)] + (Skeleton(r) + Strip(rest)));
    assert Redirections(l) + Redirections(r) + Directed(rest) == Redirections(l) + (Redirections(r) + Directed(rest));
  }

  lemma {:induction false} PipeKept<T>(ts: Toks<T>)
    ensures Kept(PPipe(ts), ts)
    decreases Len(ts), 2
  {
    ExecKept(ts);
    var e := PExec(ts);
    if e.Ok? && Is(e.rest, '|') {
      PipeKept(e.rest.tail);
      var p := PPipe(e.rest.tail);
      if p.Ok? {
        JoinKept(e.cmd, p.cmd, Pipe(e.cmd, p.cmd), '|', ts, e.rest, p.rest);
      }
    }
  }

  lemma {:induction false} BacksKept<T>(c: Cmd<T>, rest: Toks<T>, ts: Toks<T>)
    requires Kept(Ok(c, rest), ts)
    ensures Kept(PBacks(c, rest), ts)
    decreases rest
  {
    if Is(rest, '&') {
      assert Strip(rest) == [Sym('&')] + Strip(rest.tail) && Directed(rest) == Directed(rest.tail);
      assert Skeleton(c) + [Sym('&')] + Strip(rest.tail) == Skeleton(c) + ([Sym('&')] + Strip(rest.tail));
      BacksKept(Back(c), rest.tail, ts);
    }
  }

  lemma {:induction false} LineKept<T>(ts: Toks<T>)
    ensures Kept(PLine(ts), ts)
    decreases Len(ts), 3
  {
    PipeKept(ts);
    var p := PPipe(ts);
    if p.Ok? {
      BacksKept(p.cmd, p.rest, ts);
      var b := PBacks(p.cmd, p.rest);
      if Is(b.rest, ';') {
        LineKept(b.rest.tail);
        var l := PLine(b.rest.tail);
        if l.Ok? {
          JoinKept(b.cmd, l.cmd, Seq(b.cmd, l.cmd), ';', ts, b.rest, l.rest);
        }
      }
    }
  }

  /** NOTHING TYPED IS LOST OR MOVED. The tree of a line that parses, read from left to right,
      is the line: its arguments and operators in order, and its redirections in order. */
  lemma LineIsTree<T>(ts: Toks<T>)
    ensures PCmd(ts).Ok? ==> Skeleton(PCmd(ts).cmd) == Strip(ts) && Redirections(PCmd(ts).cmd) == Directed(ts)
  {
    LineKept(ts);
  }

  // ----- words

  predicate Names<T(==)>(rs: seq<Rd<T>>, w: T) {
    exists k :: 0 <= k < |rs| && rs[k].file == w
  }

  /** The arguments and file names of a command. */
  predicate IsWord<T(==)>(t: Cmd<T>, w: T) {
    Word(w) in Skeleton(t) || Names(Redirections(t), w)
  }

  /** The words of a line. */
  predicate Typed<T(==)>(ts: Toks<T>, w: T) {
    ts.Cons? && (ts.head == Word(w) || Typed(ts.tail, w))
  }

  lemma NamesMore<T>(rd: Rd<T>, rs: seq<Rd<T>>, w: T)
    ensures Names([rd] + rs, w) <==> rd.file == w || Names(rs, w)
  {
    if Names(rs, w) {
      var k :| 0 <= k < |rs| && rs[k].file == w;
      assert ([rd] + rs)[k + 1].file == w;
    }
    if rd.file == w {
      assert ([rd] + rs)[0].file == w;
    }
  }

  lemma {:induction false} TypedParts<T>(ts: Toks<T>, w: T)
    requires Typed(ts, w)
    ensures Word(w) in Strip(ts) || Names(Directed(ts), w)
    decreases ts
  {
    if RdToks(ts) {
      NamesMore(Directed(ts)[0], Directed(ts.tail.tail), w);
      assert Directed(ts) == [Directed(ts)[0]] + Directed(ts.tail.tail);
      if ts.tail.head != Word(w) {
        TypedParts(ts.tail.tail, w);
      }
    } else if ts.head == Word(w) {
      assert Strip(ts)[0] == Word(w);
    } else {
      TypedParts(ts.tail, w);
    }
  }

  /** So every word of the line is an argument or a file name of the tree. */
  lemma WordsKept<T>(ts: Toks<T>, w: T)
    requires PCmd(ts).Ok? && Typed(ts, w)
    ensures IsWord(PCmd(ts).cmd, w)
  {
    LineIsTree(ts);
    TypedParts(ts, w);
  }

  // ----- what an error means

  /** The words from here on that are arguments of one simple command. */
  function CountArgs<T>(ts: Toks<T>): nat {
    if ts.Nil? then 0
    else if RdToks(ts) then CountArgs(ts.tail.tail)
    else if ts.head.Word? then 1 + CountArgs(ts.tail)
    else 0
  }

  /** The cause of an error at this place of the line: a redirection without a file; a
      parenthesis after a word, or a character that is no symbol; a simple command of ten words; a parenthesis. */
  predicate Here<T>(ts: Toks<T>, e: Error) {
    match e
    case MissingFile => ts.Cons? && ts.head.Sym? && ts.head.c in "<>+" && !(ts.tail.Cons? && ts.tail.head.Word?)
    case Syntax => ts.Cons? && if ts.head.Word? then Is(ts.tail, '(') else ts.head.c !in "<>+|)&;("
    case TooManyArgs => CountArgs(ts) >= 10
    case MissingParen => Is(ts, '(')
    case Leftovers => ts.Cons?
  }

  predicate Somewhere<T>(ts: Toks<T>, e: Error) {
    Here(ts, e) || (ts.Cons? && Somewhere(ts.tail, e))
  }

  /** Everything that goes wrong in a part goes wrong in the whole. */
  ghost predicate PartOf<T>(part: Toks<T>, whole: Toks<T>) {
    forall e | Somewhere(part, e) :: Somewhere(whole, e)
  }

  /** An error has its cause in the line, and what is left of a line is part of it. */
  ghost predicate Blames<T>(r: Res<T>, ts: Toks<T>) {
    && (r.Err? ==> r.e != Leftovers && Somewhere(ts, r.e))
    && (r.Ok? ==> PartOf(r.rest, ts))
  }

  lemma {:induction false} RedirsBlame<T>(rs: seq<Rd<T>>, ts: Toks<T>)
    ensures var d := PRedirs(rs, ts);
            if d.NoFile? then Somewhere(ts, MissingFile) && CountArgs(ts) == 0
            else CountArgs(d.rest) == CountArgs(ts) && !IsRd(d.rest) && PartOf(d.rest, ts)
    ensures var d := PRedirs(rs, ts); d.RdOk? && Is(d.rest, '(') ==> Is(ts, '(') || Somewhere(ts, Syntax)
    decreases ts
  {
    if IsRd(ts) && ts.tail.Cons? && ts.tail.head.Word? {
      RedirsBlame(rs + [RdOf(ts.head.c, ts.tail.head.w)], ts.tail.tail);
      assert PartOf(ts.tail.tail, ts.tail) && PartOf(ts.tail, ts);
    }
  }

  lemma {:induction false} ArgsBlame<T>(args: seq<T>, rs: seq<Rd<T>>, ts: Toks<T>, whole: Toks<T>)
    requires PartOf(ts, whole) && !IsRd(ts) && (Is(ts, '(') ==> Somewhere(whole, Syntax))
    requires |args| + CountArgs(ts) <= CountArgs(whole)
    ensures Blames(PArgs(args, rs, ts), whole)
    decreases Len(ts)
  {
    if ts.Cons? && !IsEnd(ts) {
      if !ts.head.Word? {
        assert Here(ts, Syntax) || Is(ts, '(');
      } else if |args| + 1 >= MAXARGS {
        assert Here(whole, TooManyArgs);
      } else {
        RedirsBlame(rs, ts.tail);
        assert PartOf(ts.tail, ts);
        var d := PRedirs(rs, ts.tail);
        if d.RdOk? {
          ArgsBlame(args + [ts.head.w], d.rs, d.rest, whole);
        }
      }
    }
  }

  lemma {:induction false} ExecBlame<T>(ts: Toks<T>)
    ensures Blames(PExec(ts), ts)
    decreases Len(ts), 0
  {
    if Is(ts, '(') {
      assert PartOf(ts.tail, ts) && Here(ts, MissingParen);
      LineBlame(ts.tail);
      var l := PLine(ts.tail);
      if l.Ok? && Is(l.rest, ')') {
        RedirsBlame([], l.rest.tail);
        assert PartOf(l.rest.tail, l.rest);
      }
    } else {
      RedirsBlame([], ts);
      var d := PRedirs([], ts);
      if d.RdOk? {
        ArgsBlame([], d.rs, d.rest, ts);
      }
    }
  }

  lemma {:induction false} PipeBlame<T>(ts: Toks<T>)
    ensures Blames(PPipe(ts), ts)
    decreases Len(ts), 1
  {
    ExecBlame(ts);
    var e := PExec(ts);
    if e.Ok? && Is(e.rest, '|') {
      assert PartOf(e.rest.tail, e.rest);
      PipeBlame(e.rest.tail);
    }
  }

  lemma {:induction false} BacksBlame<T>(c: Cmd<T>, ts: Toks<T>)
    ensures PartOf(PBacks(c, ts).rest, ts)
    decreases ts
  {
    if Is(ts, '&') {
      BacksBlame(Back(c), ts.tail);
      assert PartOf(ts.tail, ts);
    }
  }

  lemma {:induction false} LineBlame<T>(ts: Toks<T>)
    ensures Blames(PLine(ts), ts)
    decreases Len(ts), 2
  {
    PipeBlame(ts);
    var p := PPipe(ts);
    if p.Ok? {
      BacksBlame(p.cmd, p.rest);
      var b := PBacks(p.cmd, p.rest);
      if Is(b.rest, ';') {
        assert PartOf(b.rest.tail, b.rest);
        LineBlame(b.rest.tail);
      }
    }
  }

  lemma {:induction false} ArgsMany<T>(args: seq<T>, rs: seq<Rd<T>>, ts: Toks<T>)
    requires |args| < MAXARGS && !IsRd(ts)
    ensures PArgs(args, rs, ts) == Err(TooManyArgs) <==> |args| + CountArgs(ts) >= 10
    decreases Len(ts)
  {
    if ts.Cons? && ts.head.Word? && |args| + 1 < MAXARGS {
      RedirsBlame(rs, ts.tail);
      var d := PRedirs(rs, ts.tail);
      if d.RdOk? {
        ArgsMany(args + [ts.head.w], d.rs, d.rest);
      }
    }
  }

  /** TOO MANY ARGUMENTS are ten, counted up to the end of the simple command or to the first thing
      that is wrong with it. */
  lemma TooManyIff<T>(ts: Toks<T>)
    requires !Is(ts, '(')
    ensures PExec(ts) == Err(TooManyArgs) <==> CountArgs(ts) >= 10
  {
    RedirsBlame([], ts);
    var d := PRedirs([], ts);
    if d.RdOk? {
      ArgsMany([], d.rs, d.rest);
    }
  }

  /** AN ERROR NAMES ITS CAUSE: the line has what the message complains of. */
  lemma ErrorsMean<T>(ts: Toks<T>)
    ensures PCmd(ts).Err? ==> Somewhere(ts, PCmd(ts).e)
    ensures PCmd(ts).Err? && PCmd(ts).e == Leftovers ==> PLine(ts).Ok? && PLine(ts).rest.Cons?
  {
    LineBlame(ts);
  }

  // ----- written forms

  /** A word of a simple command, or a redirection with its symbol. */
  datatype Item<T> = Arg(w: T) | Io(c: char, file: T)

  datatype ExecForm<T> = Plain(items: List<Item<T>>) | Paren(line: LineForm<T>, ios: List<Item<T>>)
  datatype PipeForm<T> = Last(e: ExecForm<T>) | Bar(e: ExecForm<T>, p: PipeForm<T>)
  datatype LineForm<T> = End(p: PipeForm<T>, backs: nat) | Semi(p: PipeForm<T>, backs: nat, line: LineForm<T>)

  // the tokens of a form, in front of rest

  function FlatItems<T>(items: List<Item<T>>, rest: Toks<T>): Toks<T> {
    match items
    case Nil => rest
    case Cons(Arg(w), more) => Cons(Word(w), FlatItems(more, rest))
    case Cons(Io(c, f), more) => Cons(Sym(c), Cons(Word(f), FlatItems(more, rest)))
  }

  function Amps<T>(n: nat, rest: Toks<T>): Toks<T> {
    if n == 0 then rest else Cons(Sym('&'), Amps(n - 1, rest))
  }

  function FlatExec<T>(e: ExecForm<T>, rest: Toks<T>): Toks<T> {
    match e
    case Plain(items) => FlatItems(items, rest)
    case Paren(line, ios) => Cons(Sym('('), FlatLine(line, Cons(Sym(')'), FlatItems(ios, rest))))
  }

  function FlatPipe<T>(p: PipeForm<T>, rest: Toks<T>): Toks<T> {
    match p
    case Last(e) => FlatExec(e, rest)
    case Bar(e, more) => FlatExec(e, Cons(Sym('|'), FlatPipe(more, rest)))
  }

  function FlatLine<T>(x: LineForm<T>, rest: Toks<T>): Toks<T> {
    match x
    case End(p, n) => FlatPipe(p, Amps(n, rest))
    case Semi(p, n, more) => FlatPipe(p, Amps(n, Cons(Sym(';'), FlatLine(more, rest))))
  }

  // the command a form stands for

  function ArgsOf<T>(args: seq<T>, items: List<Item<T>>): seq<T>
    decreases items
  {
    match items
    case Nil => args
    case Cons(Arg(w), more) => ArgsOf(args + [w], more)
    case Cons(Io(c, f), more) => ArgsOf(args, more)
  }

  function RdsOf<T>(rs: seq<Rd<T>>, items: List<Item<T>>): seq<Rd<T>>
    decreases items
  {
    match items
    case Nil => rs
    case Cons(Arg(w), more) => RdsOf(rs, more)
    case Cons(Io(c, f), more) => RdsOf(rs + [RdOf(c, f)], more)
  }

  function Backs<T>(c: Cmd<T>, n: nat): Cmd<T>
    decreases n
  {
    if n == 0 then c else Backs(Back(c), n - 1)
  }

  function TreeExec<T>(e: ExecForm<T>): Cmd<T> {
    match e
    case Plain(items) => Wrap(Exec(ArgsOf([], items)), RdsOf([], items))
    case Paren(line, ios) => Wrap(TreeLine(line), RdsOf([], ios))
  }

  function TreePipe<T>(p: PipeForm<T>): Cmd<T> {
    match p
    case Last(e) => TreeExec(e)
    case Bar(e, more) => Pipe(TreeExec(e), TreePipe(more))
  }

  function TreeLine<T>(x: LineForm<T>): Cmd<T> {
    match x
    case End(p, n) => Backs(TreePipe(p), n)
    case Semi(p, n, more) => Seq(Backs(TreePipe(p), n), TreeLine(more))
  }

  // fewer than MAXARGS arguments, and only redirections after a block

  predicate GoodItem<T>(i: Item<T>, ioOnly: bool) {
    if i.Arg? then !ioOnly else i.c == '<' || i.c == '>' || i.c == '+'
  }

  predicate GoodItems<T>(items: List<Item<T>>, ioOnly: bool) {
    items.Cons? ==> GoodItem(items.head, ioOnly) && GoodItems(items.tail, ioOnly)
  }

  predicate GoodExec<T>(e: ExecForm<T>) {
    match e
    case Plain(items) => GoodItems(items, false) && |ArgsOf([], items)| < MAXARGS
    case Paren(line, ios) => GoodLine(line) && GoodItems(ios, true)
  }

  predicate GoodPipe<T>(p: PipeForm<T>) {
    GoodExec(p.e) && (p.Bar? ==> GoodPipe(p.p))
  }

  predicate GoodLine<T>(x: LineForm<T>) {
    GoodPipe(x.p) && (x.Semi? ==> GoodLine(x.line))
  }

  // ----- the parser reads a written form as what it stands for

  predicate EndsLine<T>(rest: Toks<T>) {
    rest.Nil? || Is(rest, ')')
  }

  predicate EndsBack<T>(rest: Toks<T>) {
    EndsLine(rest) || Is(rest, ';')
  }

  predicate EndsPipe<T>(rest: Toks<T>) {
    EndsBack(rest) || Is(rest, '&')
  }

  predicate EndsExec<T>(rest: Toks<T>) {
    EndsPipe(rest) || Is(rest, '|')
  }

  lemma {:induction false} RedirsFound<T>(rs: seq<Rd<T>>, ios: List<Item<T>>, rest: Toks<T>)
    requires GoodItems(ios, true) && !IsRd(rest)
    ensures PRedirs(rs, FlatItems(ios, rest)) == RdOk(RdsOf(rs, ios), rest)
    decreases ios
  {
    if ios.Cons? {
      RedirsFound(rs + [RdOf(ios.head.c, ios.head.file)], ios.tail, rest);
    }
  }

  /** parseexec from the front of a simple command, or from after a word. */
  function PItems<T>(args: seq<T>, rs: seq<Rd<T>>, ts: Toks<T>): Res<T> {
    match PRedirs(rs, ts)
    case NoFile => Err(MissingFile)
    case RdOk(rs2, rest) => PArgs(args, rs2, rest)
  }

  lemma {:induction false} ArgsGrow<T>(args: seq<T>, items: List<Item<T>>)
    ensures |ArgsOf(args, items)| >= |args|
    decreases items
  {
    match items
    case Nil =>
    case Cons(Arg(w), more) => ArgsGrow(args + [w], more);
    case Cons(Io(c, f), more) => ArgsGrow(args, more);
  }

  lemma {:induction false} ItemsFound<T>(args: seq<T>, rs: seq<Rd<T>>, items: List<Item<T>>, rest: Toks<T>)
    requires GoodItems(items, false) && |ArgsOf(args, items)| < MAXARGS && EndsExec(rest)
    ensures PItems(args, rs, FlatItems(items, rest)) == Ok(Wrap(Exec(ArgsOf(args, items)), RdsOf(rs, items)), rest)
    decreases items
  {
    match items
    case Nil =>
    case Cons(Arg(w), more) =>
      ArgsGrow(args + [w], more);
      ItemsFound(args + [w], rs, more, rest);
    case Cons(Io(c, f), more) => ItemsFound(args, rs + [RdOf(c, f)], more, rest);
  }

  lemma {:induction false} ExecFound<T>(e: ExecForm<T>, rest: Toks<T>)
    requires GoodExec(e) && EndsExec(rest)
    ensures PExec(FlatExec(e, rest)) == Ok(TreeExec(e), rest)
  {
    match e
    case Plain(items) =>
      ItemsFound([], [], items, rest);
      assert !Is(FlatItems(items, rest), '(');
    case Paren(line, ios) =>
      LineFound(line, Cons(Sym(')'), FlatItems(ios, rest)));
      RedirsFound([], ios, rest);
  }

  lemma {:induction false} PipeFound<T>(p: PipeForm<T>, rest: Toks<T>)
    requires GoodPipe(p) && EndsPipe(rest)
    ensures PPipe(FlatPipe(p, rest)) == Ok(TreePipe(p), rest)
  {
    match p
    case Last(e) => ExecFound(e, rest);
    case Bar(e, more) =>
      ExecFound(e, Cons(Sym('|'), FlatPipe(more, rest)));
      PipeFound(more, rest);
  }

  lemma {:induction false} BacksFound<T>(c: Cmd<T>, n: nat, rest: Toks<T>)
    requires EndsBack(rest)
    ensures PBacks(c, Amps(n, rest)) == Ok(Backs(c, n), rest) && EndsPipe(Amps(n, rest))
    decreases n
  {
    if n > 0 {
      BacksFound(Back(c), n - 1, rest);
    }
  }

  lemma {:induction false} LineFound<T>(x: LineForm<T>, rest: Toks<T>)
    requires GoodLine(x) && EndsLine(rest)
    ensures PLine(FlatLine(x, rest)) == Ok(TreeLine(x), rest)
  {
    var after := if x.Semi? then Cons(Sym(';'), FlatLine(x.line, rest)) else rest;
    BacksFound(TreePipe(x.p), x.backs, after);
    PipeFound(x.p, Amps(x.backs, after));
    if x.Semi? {
      LineFound(x.line, rest);
    }
  }

  // ----- what the parser accepts is a written form of what it returns

  lemma {:induction false} RedirsSound<T>(rs: seq<Rd<T>>, ts: Toks<T>) returns (ios: List<Item<T>>)
    requires PRedirs(rs, ts).RdOk?
    ensures GoodItems(ios, true) && !IsRd(PRedirs(rs, ts).rest)
    ensures ts == FlatItems(ios, PRedirs(rs, ts).rest) && RdsOf(rs, ios) == PRedirs(rs, ts).rs
    decreases ts
  {
    if IsRd(ts) {
      var more := RedirsSound(rs + [RdOf(ts.head.c, ts.tail.head.w)], ts.tail.tail);
      ios := Cons(Io(ts.head.c, ts.tail.head.w), more);
    } else {
      ios := Nil;
    }
  }

  function Join<X>(xs: List<X>, ys: List<X>): List<X> {
    if xs.Nil? then ys else Cons(xs.head, Join(xs.tail, ys))
  }

  /** Redirections in front of a simple command belong to it. */
  lemma {:induction false} JoinItems<T>(args: seq<T>, rs: seq<Rd<T>>, ios: List<Item<T>>, items: List<Item<T>>,
                                        rest: Toks<T>)
    requires GoodItems(ios, true) && GoodItems(items, false)
    ensures GoodItems(Join(ios, items), false)
    ensures FlatItems(Join(ios, items), rest) == FlatItems(ios, FlatItems(items, rest))
    ensures ArgsOf(args, Join(ios, items)) == ArgsOf(args, items)
    ensures RdsOf(rs, Join(ios, items)) == RdsOf(RdsOf(rs, ios), items)
    decreases ios
  {
    if ios.Cons? {
      JoinItems(args, rs + [RdOf(ios.head.c, ios.head.file)], ios.tail, items, rest);
    }
  }

  lemma {:induction false} ArgsSound<T>(args: seq<T>, rs: seq<Rd<T>>, ts: Toks<T>) returns (items: List<Item<T>>)
    requires PArgs(args, rs, ts).Ok? && |args| < MAXARGS
    ensures var r := PArgs(args, rs, ts);
            && GoodItems(items, false) && |ArgsOf(args, items)| < MAXARGS && EndsExec(r.rest)
            && ts == FlatItems(items, r.rest) && r.cmd == Wrap(Exec(ArgsOf(args, items)), RdsOf(rs, items))
    decreases Len(ts)
  {
    if ts.Nil? || IsEnd(ts) {
      items := Nil;
    } else {
      var ios := RedirsSound(rs, ts.tail);
      var q := PRedirs(rs, ts.tail);
      var more := ArgsSound(args + [ts.head.w], q.rs, q.rest);
      JoinItems(args + [ts.head.w], rs, ios, more, PArgs(args, rs, ts).rest);
      items := Cons(Arg(ts.head.w), Join(ios, more));
    }
  }

  lemma {:induction false} ExecSound<T>(ts: Toks<T>) returns (e: ExecForm<T>)
    requires PExec(ts).Ok?
    ensures GoodExec(e) && ts == FlatExec(e, PExec(ts).rest) && TreeExec(e) == PExec(ts).cmd
    decreases Len(ts), 0
  {
    if Is(ts, '(') {
      var l := PLine(ts.tail);
      var line := LineSound(ts.tail);
      var ios := RedirsSound([], l.rest.tail);
      e := Paren(line, ios);
    } else {
      var ios := RedirsSound([], ts);
      var q := PRedirs([], ts);
      var items := ArgsSound([], q.rs, q.rest);
      JoinItems([], [], ios, items, PExec(ts).rest);
      e := Plain(Join(ios, items));
    }
  }

  lemma {:induction false} PipeSound<T>(ts: Toks<T>) returns (p: PipeForm<T>)
    requires PPipe(ts).Ok?
    ensures GoodPipe(p) && ts == FlatPipe(p, PPipe(ts).rest) && TreePipe(p) == PPipe(ts).cmd
    decreases Len(ts), 1
  {
    var e := ExecSound(ts);
    var rest := PExec(ts).rest;
    if Is(rest, '|') {
      var more := PipeSound(rest.tail);
      p := Bar(e, more);
    } else {
      p := Last(e);
    }
  }

  lemma {:induction false} BacksSound<T>(c: Cmd<T>, ts: Toks<T>) returns (n: nat)
    ensures ts == Amps(n, PBacks(c, ts).rest) && PBacks(c, ts).cmd == Backs(c, n)
    decreases ts
  {
    if Is(ts, '&') {
      var m := BacksSound(Back(c), ts.tail);
      n := m + 1;
    } else {
      n := 0;
    }
  }

  lemma {:induction false} LineSound<T>(ts: Toks<T>) returns (x: LineForm<T>)
    requires PLine(ts).Ok?
    ensures GoodLine(x) && ts == FlatLine(x, PLine(ts).rest) && TreeLine(x) == PLine(ts).cmd
    decreases Len(ts), 2
  {
    var p := PipeSound(ts);
    var q := PPipe(ts);
    var n := BacksSound(q.cmd, q.rest);
    var rest := PBacks(q.cmd, q.rest).rest;
    if Is(rest, ';') {
      var more := LineSound(rest.tail);
      x := Semi(p, n, more);
    } else {
      x := End(p, n);
    }
  }

  /** THE PARSER IS THE GRAMMAR. A token list is accepted with tree t if and only if it is a
      written form of t. */
  lemma ParsesIff<T>(ts: Toks<T>, t: Cmd<T>)
    ensures PCmd(ts) == Ok(t, Nil) <==> exists x: LineForm<T> :: WritesAs(x, t, ts)
  {
    if PCmd(ts) == Ok(t, Nil) {
      var x := LineSound(ts);
      assert WritesAs(x, t, ts);
    }
    if x: LineForm<T> :| WritesAs(x, t, ts) {
      LineFound(x, Nil);
    }
  }

  ghost predicate WritesAs<T>(x: LineForm<T>, t: Cmd<T>, ts: Toks<T>) {
    GoodLine(x) && TreeLine(x) == t && FlatLine(x, Nil) == ts
  }

  // ----- every command has a written form

  function Size<T>(t: Cmd<T>): nat {
    match t
    case Exec(_) => 1
    case Redir(c, _) => 1 + Size(c)
    case Pipe(l, r) => 1 + Size(l) + Size(r)
    case Seq(l, r) => 1 + Size(l) + Size(r)
    case Back(c) => 1 + Size(c)
  }

  predicate LegalRd<T(==)>(rd: Rd<T>) {
    (rd.mode == 0 && rd.fd == 0) || (rd.mode == 0x1 + 0x200 && rd.fd == 1)
  }

  /** Commands the shell can run: fewer than MAXARGS arguments, the modes it knows. */
  predicate Legal<T(==)>(t: Cmd<T>) {
    match t
    case Exec(argv) => |argv| < 10
    case Redir(c, rd) => Legal(c) && LegalRd(rd)
    case Pipe(l, r) => Legal(l) && Legal(r)
    case Seq(l, r) => Legal(l) && Legal(r)
    case Back(c) => Legal(c)
  }

  /** The command inside its redirections, and those, the first innermost. */
  function Core<T>(t: Cmd<T>): (c: Cmd<T>)
    ensures !c.Redir? && Size(c) <= Size(t) && (t.Redir? ==> Size(c) < Size(t))
  {
    if t.Redir? then Core(t.cmd) else t
  }

  function Rds<T>(t: Cmd<T>): seq<Rd<T>> {
    if t.Redir? then Rds(t.cmd) + [t.rd] else []
  }

  lemma {:induction false} CoreWrap<T>(t: Cmd<T>)
    ensures t == Wrap(Core(t), Rds(t))
    ensures Legal(t) ==> Legal(Core(t)) && forall k | 0 <= k < |Rds(t)| :: LegalRd(Rds(t)[k])
  {
    if t.Redir? {
      CoreWrap(t.cmd);
      assert Rds(t)[..|Rds(t)| - 1] == Rds(t.cmd);
    }
  }

  function Inner<T>(t: Cmd<T>): (c: Cmd<T>)
    ensures !c.Back? && Size(c) <= Size(t) && (t.Back? ==> Size(c) < Size(t)) && (!t.Back? ==> c == t)
  {
    if t.Back? then Inner(t.cmd) else t
  }

  function Depth<T>(t: Cmd<T>): nat {
    if t.Back? then 1 + Depth(t.cmd) else 0
  }

  lemma {:induction false} BacksOut<T>(c: Cmd<T>, n: nat)
    ensures Backs(c, n + 1) == Back(Backs(c, n))
    decreases n
  {
    if n > 0 {
      BacksOut(Back(c), n - 1);
    }
  }

  lemma {:induction false} InnerBacks<T>(t: Cmd<T>)
    ensures t == Backs(Inner(t), Depth(t)) && (Legal(t) ==> Legal(Inner(t)))
  {
    if t.Back? {
      InnerBacks(t.cmd);
      BacksOut(Inner(t), Depth(t.cmd));
    }
  }

  /** Items for the arguments from k on and then the redirections from l on. */
  function ItemsOf<T>(args: seq<T>, rs: seq<Rd<T>>, k: nat, l: nat): List<Item<T>>
    requires k <= |args| && l <= |rs|
    decreases |args| - k, |rs| - l
  {
    if k < |args| then Cons(Arg(args[k]), ItemsOf(args, rs, k + 1, l))
    else if l < |rs| then Cons(Io(if rs[l].fd == 0 then '<' else '>', rs[l].file), ItemsOf(args, rs, k, l + 1))
    else Nil
  }

  lemma {:induction false} ItemsBack<T>(args: seq<T>, rs: seq<Rd<T>>, k: nat, l: nat)
    requires k <= |args| && l <= |rs| && forall j | 0 <= j < |rs| :: LegalRd(rs[j])
    ensures GoodItems(ItemsOf(args, rs, k, l), k == |args|)
    ensures ArgsOf(args[..k], ItemsOf(args, rs, k, l)) == args && RdsOf(rs[..l], ItemsOf(args, rs, k, l)) == rs
    decreases |args| - k, |rs| - l
  {
    if k < |args| {
      ItemsBack(args, rs, k + 1, l);
      assert args[..k] + [args[k]] == args[..k + 1];
      if k + 1 == |args| {
        Loosen(ItemsOf(args, rs, k + 1, l));
      }
    } else if l < |rs| {
      ItemsBack(args, rs, k, l + 1);
      assert rs[..l] + [rs[l]] == rs[..l + 1];
    } else {
      assert args[..k] == args && rs[..l] == rs;
    }
  }

  lemma {:induction false} Loosen<T>(items: List<Item<T>>)
    requires GoodItems(items, true)
    ensures GoodItems(items, false)
  {
    if items.Cons? {
      Loosen(items.tail);
    }
  }

  function FormExec<T>(t: Cmd<T>): ExecForm<T>
    decreases Size(t), if t.Exec? || t.Redir? then 0 else 3
  {
    var c := Core(t);
    if c.Exec? then Plain(ItemsOf(c.argv, Rds(t), 0, 0)) else Paren(FormLine(c), ItemsOf([], Rds(t), 0, 0))
  }

  function FormPipe<T>(t: Cmd<T>): PipeForm<T>
    decreases Size(t), if t.Seq? || t.Back? then 4 else 1
  {
    if t.Pipe? then Bar(FormExec(t.left), FormPipe(t.right)) else Last(FormExec(t))
  }

  /** t written with parentheses where they are needed. */
  function FormLine<T>(t: Cmd<T>): LineForm<T>
    decreases Size(t), 2
  {
    if t.Seq? then Semi(FormPipe(Inner(t.left)), Depth(t.left), FormLine(t.right))
    else End(FormPipe(Inner(t)), Depth(t))
  }

  lemma {:induction false} FormExecOk<T>(t: Cmd<T>)
    requires Legal(t)
    ensures GoodExec(FormExec(t)) && TreeExec(FormExec(t)) == t
    decreases Size(t), if t.Exec? || t.Redir? then 0 else 3
  {
    CoreWrap(t);
    var c := Core(t);
    if c.Exec? {
      ItemsBack(c.argv, Rds(t), 0, 0);
      if c.argv == [] {
        Loosen(ItemsOf(c.argv, Rds(t), 0, 0));
      }
    } else {
      FormLineOk(c);
      ItemsBack([], Rds(t), 0, 0);
    }
  }

  lemma {:induction false} FormPipeOk<T>(t: Cmd<T>)
    requires Legal(t)
    ensures GoodPipe(FormPipe(t)) && TreePipe(FormPipe(t)) == t
    decreases Size(t), if t.Seq? || t.Back? then 4 else 1
  {
    if t.Pipe? {
      FormExecOk(t.left);
      FormPipeOk(t.right);
    } else {
      FormExecOk(t);
    }
  }

  lemma {:induction false} FormLineOk<T>(t: Cmd<T>)
    requires Legal(t)
    ensures GoodLine(FormLine(t)) && TreeLine(FormLine(t)) == t
    decreases Size(t), 2
  {
    if t.Seq? {
      InnerBacks(t.left);
      FormPipeOk(Inner(t.left));
      FormLineOk(t.right);
    } else {
      InnerBacks(t);
      FormPipeOk(Inner(t));
    }
  }

  /** ROUND TRIP on tokens. */
  lemma PrintParse<T>(t: Cmd<T>)
    requires Legal(t)
    ensures PCmd(FlatLine(FormLine(t), Nil)) == Ok(t, Nil)
  {
    FormLineOk(t);
    LineFound(FormLine(t), Nil);
  }

  // ----- and nothing else is accepted

  lemma {:induction false} WrapLegal<T>(c: Cmd<T>, rs: seq<Rd<T>>)
    requires Legal(c) && forall k | 0 <= k < |rs| :: LegalRd(rs[k])
    ensures Legal(Wrap(c, rs))
    decreases |rs|
  {
    if rs != [] {
      WrapLegal(c, rs[..|rs| - 1]);
    }
  }

  lemma {:induction false} RdsLegal<T>(rs: seq<Rd<T>>, items: List<Item<T>>)
    requires forall k | 0 <= k < |rs| :: LegalRd(rs[k])
    ensures forall k | 0 <= k < |RdsOf(rs, items)| :: LegalRd(RdsOf(rs, items)[k])
    decreases items
  {
    match items
    case Nil =>
    case Cons(Arg(w), more) => RdsLegal(rs, more);
    case Cons(Io(c, f), more) =>
      assert LegalRd(RdOf(c, f));
      RdsLegal(rs + [RdOf(c, f)], more);
  }

  lemma {:induction false} ExecLegal<T>(e: ExecForm<T>)
    requires GoodExec(e)
    ensures Legal(TreeExec(e))
  {
    match e
    case Plain(items) =>
      RdsLegal([], items);
      WrapLegal(Exec(ArgsOf([], items)), RdsOf([], items));
    case Paren(line, ios) =>
      LineLegal(line);
      RdsLegal([], ios);
      WrapLegal(TreeLine(line), RdsOf([], ios));
  }

  lemma {:induction false} PipeLegal<T>(p: PipeForm<T>)
    requires GoodPipe(p)
    ensures Legal(TreePipe(p))
  {
    ExecLegal(p.e);
    if p.Bar? {
      PipeLegal(p.p);
    }
  }

  lemma {:induction false} BacksLegal<T>(c: Cmd<T>, n: nat)
    requires Legal(c)
    ensures Legal(Backs(c, n))
    decreases n
  {
    if n > 0 {
      BacksLegal(Back(c), n - 1);
    }
  }

  lemma {:induction false} LineLegal<T>(x: LineForm<T>)
    requires GoodLine(x)
    ensures Legal(TreeLine(x))
  {
    PipeLegal(x.p);
    BacksLegal(TreePipe(x.p), x.backs);
    if x.Semi? {
      LineLegal(x.line);
    }
  }

  /** The trees that come out of the parser are exactly the legal ones. */
  lemma LegalIff<T>(t: Cmd<T>)
    ensures Legal(t) <==> exists ts: Toks<T> :: PCmd(ts) == Ok(t, Nil)
  {
    if Legal(t) {
      PrintParse(t);
    }
    if ts: Toks<T> :| PCmd(ts) == Ok(t, Nil) {
      var x := LineSound(ts);
      LineLegal(x);
    }
  }
}
