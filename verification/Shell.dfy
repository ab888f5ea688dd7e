/** The shell's parser as it runs on a line of text (sh.c): gettoken and peek move an index,
    the parse functions build a tree of pointers into the line, and nulterminate cuts the
    line up in place. */
module Shell {
  import opened Wrappers
  import opened ShellSpec
  import opened ShellText

  /** A command and the index after it. */
  datatype Parsed = Got(cmd: Cmd<Span>, pos: nat) | Failed(e: Error)
  datatype Redirs = Rest(rs: seq<Rd<Span>>, pos: nat) | NoFileName

  /** r is what the grammar says about the tokens ts, up to the index. */
  ghost predicate Agrees(s: string, r: Parsed, spec: Res<Span>) {
    match spec
    case Ok(c, rest) => r.Got? && r.cmd == c && r.pos <= |s| && Lex(s, r.pos) == rest
    case Err(e) => r == Failed(e)
  }

  method Skip(s: string, i: nat) returns (j: nat)
    requires i <= |s|
    ensures j == SkipWs(s, i)
  {
    j := i;
    while j < |s| && Ws(s[j])
      invariant i <= j <= |s| && SkipWs(s, j) == SkipWs(s, i)
    {
      j := j + 1;
    }
  }

  /** gettoken: the next token, as the character that stands for it and its span, and the
      index of the token after it; '\0' at the end of the line. */
  method GetToken(s: string, i: nat) returns (ret: char, q: nat, eq: nat, next: nat)
    requires i <= |s|
    ensures next <= |s|
    ensures Lex(s, i).Nil? ==> ret == '\0' && Lex(s, next).Nil?
    ensures Lex(s, i).Cons? ==>
              && Lex(s, next) == Lex(s, i).tail
              && (Lex(s, i).head.Word? ==> ret == 'a' && Lex(s, i).head.w == Span(q, eq))
              && (Lex(s, i).head.Sym? ==> ret == Lex(s, i).head.c && ret != 'a' && ret != '\0')
  {
    var j := Skip(s, i);
    q := j;
    if j == |s| {
      ret := '\0';
    } else if s[j] == '>' {
      ret := '>';
      j := j + 1;
      if j < |s| && s[j] == '>' {
        ret := '+';
        j := j + 1;
      }
    } else if SymChar(s[j]) {
      ret := s[j];
      j := j + 1;
    } else {
      ret := 'a';
      while j < |s| && !Ws(s[j]) && !SymChar(s[j])
        invariant q <= j <= |s| && WordEnd(s, j) == WordEnd(s, q)
      {
        j := j + 1;
      }
    }
    eq := j;
    next := Skip(s, j);
    LexSkip(s, eq);
  }

  /** peek: does the next token start with one of these symbols? */
  method Peek(s: string, i: nat, toks: set<char>) returns (b: bool, next: nat)
    requires i <= |s|
    ensures next <= |s| && Lex(s, next) == Lex(s, i)
    ensures Lex(s, i).Cons? <==> next < |s|
    ensures next < |s| ==> !Ws(s[next]) && Lex(s, i).head == TokAt(s, next)
    ensures b <==> next < |s| && s[next] in toks
  {
    next := Skip(s, i);
    LexSkip(s, i);
    b := next < |s| && s[next] in toks;
  }

  /** One turn of parseredirs, at a redirection symbol. */
  method TakeRedir(s: string, i: nat, rs: seq<Rd<Span>>) returns (ok: bool, acc: seq<Rd<Span>>, next: nat)
    requires i <= |s| && IsRd(Lex(s, i))
    ensures !ok ==> PRedirs(rs, Lex(s, i)) == NoFile
    ensures ok ==>
              next <= |s| && PRedirs(acc, Lex(s, next)) == PRedirs(rs, Lex(s, i)) && Len(Lex(s, next)) < Len(Lex(s, i))
  {
    acc := rs;
    var tok, q, eq, pos := GetToken(s, i);
    var ret;
    ret, q, eq, next := GetToken(s, pos);
    if ret != 'a' {
      return false, acc, next;
    }
    return true, rs + [RdOf(tok, Span(q, eq))], next;
  }

  /** parseredirs. */
  method ParseRedirs(s: string, i: nat, rs: seq<Rd<Span>>) returns (r: Redirs)
    requires i <= |s|
    ensures match PRedirs(rs, Lex(s, i))
            case RdOk(rs', rest) => r.Rest? && r.rs == rs' && r.pos <= |s| && Lex(s, r.pos) == rest
            case NoFile => r == NoFileName
  {
    var acc := rs;
    var more, pos: nat := PeekRd(s, i);
    while more
      invariant pos <= |s| && PRedirs(acc, Lex(s, pos)) == PRedirs(rs, Lex(s, i))
      invariant more <==> IsRd(Lex(s, pos))
      decreases Len(Lex(s, pos))
    {
      var ok;
      ok, acc, pos := TakeRedir(s, pos, acc);
      if !ok {
        return NoFileName;
      }
      more, pos := PeekRd(s, pos);
    }
    return Rest(acc, pos);
  }

  method PeekRd(s: string, i: nat) returns (b: bool, next: nat)
    requires i <= |s|
    ensures next <= |s| && Lex(s, next) == Lex(s, i) && (b <==> IsRd(Lex(s, i)))
  {
    b, next := Peek(s, i, {'<', '>'});
  }

  method PeekEnd(s: string, i: nat) returns (b: bool, next: nat)
    requires i <= |s|
    ensures next <= |s| && Lex(s, next) == Lex(s, i) && (b <==> IsEnd(Lex(s, i))) && (next < |s| <==> Lex(s, i).Cons?)
  {
    b, next := Peek(s, i, {'|', ')', '&', ';'});
  }

  /** One turn of parseexec's loop, at the next token. */
  method TakeArg(s: string, i: nat, argv: seq<Span>, rs: seq<Rd<Span>>)
    returns (e: Option<Error>, argv': seq<Span>, rs': seq<Rd<Span>>, next: nat)
    requires i <= |s| && Lex(s, i).Cons? && !IsEnd(Lex(s, i))
    ensures e.Some? ==> PArgs(argv, rs, Lex(s, i)) == Err(e.value)
    ensures e.None? ==> next <= |s| && PArgs(argv', rs', Lex(s, next)) == PArgs(argv, rs, Lex(s, i))
    ensures e.None? ==> Len(Lex(s, next)) < Len(Lex(s, i))
  {
    argv', rs' := argv, rs;
    var tok, q, eq;
    tok, q, eq, next := GetToken(s, i);
    if tok != 'a' {
      return Some(Syntax), argv', rs', next;
    }
    if |argv| + 1 >= MAXARGS {
      return Some(TooManyArgs), argv', rs', next;
    }
    var d := ParseRedirs(s, next, rs);
    if d.NoFileName? {
      return Some(MissingFile), argv', rs', next;
    }
    return None, argv + [Span(q, eq)], d.rs, d.pos;
  }

  /** parseexec's loop, from after the redirections in front. */
  method ParseArgs(s: string, i: nat, first: seq<Rd<Span>>) returns (r: Parsed)
    requires i <= |s|
    ensures Agrees(s, r, PArgs([], first, Lex(s, i)))
  {
    var argv, rs := [], first;
    var stop, pos: nat := PeekEnd(s, i);
    while !stop
      invariant pos <= |s| && PArgs(argv, rs, Lex(s, pos)) == PArgs([], first, Lex(s, i))
      invariant (stop <==> IsEnd(Lex(s, pos))) && (pos < |s| <==> Lex(s, pos).Cons?)
      decreases Len(Lex(s, pos))
    {
      if pos == |s| {
        break;  // gettoken returns 0
      }
      var e;
      e, argv, rs, pos := TakeArg(s, pos, argv, rs);
      if e.Some? {
        return Failed(e.value);
      }
      stop, pos := PeekEnd(s, pos);
    }
    return Got(Wrap(Exec(argv), rs), pos);
  }

  /** parseexec. */
  method ParseExec(s: string, i: nat) returns (r: Parsed)
    requires i <= |s|
    ensures Agrees(s, r, PExec(Lex(s, i)))
    decreases Len(Lex(s, i)), 1
  {
    var block, pos := Peek(s, i, {'('});
    if block {
      r := ParseBlock(s, pos);
      return;
    }
    var d := ParseRedirs(s, pos, []);
    if d.NoFileName? {
      return Failed(MissingFile);
    }
    r := ParseArgs(s, d.pos, d.rs);
  }

  /** parseblock, at an opening parenthesis. */
  method ParseBlock(s: string, i: nat) returns (r: Parsed)
    requires i <= |s| && Is(Lex(s, i), '(')
    ensures Agrees(s, r, PExec(Lex(s, i)))
    decreases Len(Lex(s, i)), 0
  {
    var tok, q, eq, pos := GetToken(s, i);
    r := ParseLine(s, pos);
    if r.Failed? {
      return;
    }
    var close;
    close, pos := Peek(s, r.pos, {')'});
    if !close {
      return Failed(MissingParen);
    }
    tok, q, eq, pos := GetToken(s, pos);
    var d := ParseRedirs(s, pos, []);
    if d.NoFileName? {
      return Failed(MissingFile);
    }
    return Got(Wrap(r.cmd, d.rs), d.pos);
  }

  /** parsepipe. */
  method ParsePipe(s: string, i: nat) returns (r: Parsed)
    requires i <= |s|
    ensures Agrees(s, r, PPipe(Lex(s, i)))
    decreases Len(Lex(s, i)), 2
  {
    r := ParseExec(s, i);
    if r.Failed? {
      return;
    }
    var bar, pos := Peek(s, r.pos, {'|'});
    if bar {
      var tok, q, eq, next := GetToken(s, pos);
      var right := ParsePipe(s, next);
      if right.Failed? {
        return right;
      }
      return Got(Pipe(r.cmd, right.cmd), right.pos);
    }
  }

  /** parseline's loop over '&'. */
  method ParseBacks(s: string, c: Cmd<Span>, i: nat) returns (cmd: Cmd<Span>, pos: nat)
    requires i <= |s|
    ensures pos <= |s| && PBacks(c, Lex(s, i)) == Ok(cmd, Lex(s, pos))
  {
    cmd := c;
    var amp;
    amp, pos := Peek(s, i, {'&'});
    while amp
      invariant pos <= |s| && PBacks(cmd, Lex(s, pos)) == PBacks(c, Lex(s, i))
      invariant amp <==> Is(Lex(s, pos), '&')
      decreases Len(Lex(s, pos))
    {
      var tok, q, eq, next := GetToken(s, pos);
      cmd := Back(cmd);
      amp, pos := Peek(s, next, {'&'});
    }
  }

  /** parseline. */
  method ParseLine(s: string, i: nat) returns (r: Parsed)
    requires i <= |s|
    ensures Agrees(s, r, PLine(Lex(s, i)))
    decreases Len(Lex(s, i)), 3
  {
    r := ParsePipe(s, i);
    if r.Failed? {
      return;
    }
    var cmd, pos := ParseBacks(s, r.cmd, r.pos);
    var semi, at := Peek(s, pos, {';'});
    if semi {
      var tok, q, eq, next := GetToken(s, at);
      var right := ParseLine(s, next);
      if right.Failed? {
        return right;
      }
      return Got(Seq(cmd, right.cmd), right.pos);
    }
    return Got(cmd, pos);
  }

  /** nulterminate: a NUL after every argument and file name, and nothing else. */
  method Nulterminate(cmd: Cmd<Span>, buf: array<char>)
    requires Within(cmd, buf.Length)
    modifies buf
    ensures forall k: nat | k < buf.Length :: buf[k] == if EndsAt(cmd, k) then '\0' else old(buf[k])
  {
    PartsWithin(cmd, buf.Length);
    forall e: nat
      ensures EndsAt(cmd, e) <==> PartEnds(cmd, e)
    {
      EndParts(cmd, e);
    }
    match cmd
    case Exec(argv) => NulArgs(argv, buf);
    case Redir(c, rd) =>
      Nulterminate(c, buf);
      buf[rd.file.eq] := '\0';
    case Pipe(l, r) =>
      Nulterminate(l, buf);
      Nulterminate(r, buf);
    case Seq(l, r) =>
      Nulterminate(l, buf);
      Nulterminate(r, buf);
    case Back(c) => Nulterminate(c, buf);
  }

  ghost predicate Within(t: Cmd<Span>, n: nat) {
    forall e: nat | EndsAt(t, e) :: e < n
  }

  lemma PartsWithin(t: Cmd<Span>, n: nat)
    requires Within(t, n)
    ensures t.Exec? ==> forall j | 0 <= j < |t.argv| :: t.argv[j].eq < n
    ensures t.Redir? ==> Within(t.cmd, n) && t.rd.file.eq < n
    ensures t.Pipe? || t.Seq? ==> Within(t.left, n) && Within(t.right, n)
    ensures t.Back? ==> Within(t.cmd, n)
  {
    forall e: nat
      ensures PartEnds(t, e) ==> e < n
    {
      EndParts(t, e);
    }
    if t.Exec? {
      forall j | 0 <= j < |t.argv|
        ensures t.argv[j].eq < n
      {
        assert PartEnds(t, t.argv[j].eq);
      }
    } else if t.Redir? {
      assert PartEnds(t, t.rd.file.eq);
      assert forall e: nat :: EndsAt(t.cmd, e) ==> PartEnds(t, e);
    } else if t.Back? {
      assert forall e: nat :: EndsAt(t.cmd, e) ==> PartEnds(t, e);
    } else {
      assert forall e: nat :: EndsAt(t.left, e) ==> PartEnds(t, e);
      assert forall e: nat :: EndsAt(t.right, e) ==> PartEnds(t, e);
    }
  }

  /** nulterminate of a simple command. */
  method NulArgs(argv: seq<Span>, buf: array<char>)
    requires forall j | 0 <= j < |argv| :: argv[j].eq < buf.Length
    modifies buf
    ensures forall k: nat | k < buf.Length ::
              buf[k] == if exists j: nat :: j < |argv| && argv[j].eq == k then '\0' else old(buf[k])
  {
    var i := 0;
    while i < |argv|
      invariant 0 <= i <= |argv|
      invariant forall k: nat | k < buf.Length ::
                  buf[k] == if exists j: nat :: j < i && argv[j].eq == k then '\0' else old(buf[k])
    {
      buf[argv[i].eq] := '\0';
      i := i + 1;
    }
  }

  /** parsecmd: the tree that the grammar gives the line. Read from left to right the tree is
      the line, and every word of the line, read from the buffer as a C string at the place
      the tree points to, is that word. */
  method ParseCmd(s: string, buf: array<char>) returns (r: Parsed)
    requires buf.Length == |s| + 1 && buf[..|s|] == s && buf[|s|] == '\0' && forall k | 0 <= k < |s| :: s[k] != '\0'
    modifies buf
    ensures Agrees(s, r, PCmd(Lex(s, 0)))
    ensures r.Got? ==> Skeleton(r.cmd) == Strip(Lex(s, 0)) && Redirections(r.cmd) == Directed(Lex(s, 0))
    ensures r.Got? ==> forall w | Typed(Lex(s, 0), w) :: IsWord(r.cmd, w) && Reads(buf[..], w.q, Text(s)(w))
  {
    r := ParseLine(s, 0);
    if r.Failed? {
      return;
    }
    var b, pos := Peek(s, r.pos, {});
    if pos != |s| {
      return Failed(Leftovers);
    }
    Terminate(s, buf, r.cmd);
    LineIsTree(Lex(s, 0));
    forall w | Typed(Lex(s, 0), w)
      ensures IsWord(r.cmd, w) && Reads(buf[..], w.q, Text(s)(w))
    {
      WordsKept(Lex(s, 0), w);
    }
  }

  /** nulterminate on the tree of the whole line. */
  method Terminate(s: string, buf: array<char>, cmd: Cmd<Span>)
    requires buf.Length == |s| + 1 && buf[..|s|] == s && buf[|s|] == '\0' && forall k | 0 <= k < |s| :: s[k] != '\0'
    requires PCmd(Lex(s, 0)) == Ok(cmd, Nil)
    modifies buf
    ensures forall w | IsWord(cmd, w) :: Reads(buf[..], w.q, Text(s)(w))
  {
    LexWords(s, 0);
    LineWords(s, Lex(s, 0));
    forall e: nat | EndsAt(cmd, e)
      ensures e < buf.Length
    {
      var w: Span :| IsWord(cmd, w) && w.eq == e;
      WordIn(s, cmd, w);
    }
    Nulterminate(cmd, buf);
    forall w | IsWord(cmd, w)
      ensures Reads(buf[..], w.q, Text(s)(w))
    {
      ReadsBack(s, cmd, buf[..], w);
    }
  }
}
