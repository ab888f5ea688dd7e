/** Every file operation can be run: the step system of the log (log.c) has a run in which an
    idle file system goes through it, one log_write for each block it logs. */
module FileProgress {
  import opened Blocks
  import opened LogSpec
  import opened LogRuns
  import opened Crash
  import opened FileCrash
  import opened FileOps
  import opened FileRuns
  import LogTheorems
  import F = FileSpec

  ghost predicate Moves(y: Layout, part: seq<State>, i: nat) {
    i + 1 < |part| && Next(y, part[i], part[i + 1])
  }

  /** Steps one after the other. */
  ghost predicate Path(y: Layout, part: seq<State>) {
    |part| > 0 && forall i: nat | i + 1 < |part| :: Moves(y, part, i)
  }

  lemma PathSnoc(y: Layout, part: seq<State>, t: State)
    requires Path(y, part) && Next(y, part[|part| - 1], t)
    ensures Path(y, part + [t])
  {
    var more := part + [t];
    forall i: nat | i + 1 < |more|
      ensures Moves(y, more, i)
    {
      assert i + 1 < |part| ==> Moves(y, part, i);
    }
  }

  lemma PathCons(y: Layout, s: State, part: seq<State>)
    requires Path(y, part) && Next(y, s, part[0])
    ensures Path(y, [s] + part)
  {
    var more := [s] + part;
    forall i: nat | i + 1 < |more|
      ensures Moves(y, more, i)
    {
      if i > 0 {
        assert Moves(y, part, i - 1);
      }
    }
  }

  /** A run goes on along a path. */
  lemma RunJoin(y: Layout, init: Image, ss: seq<State>, part: seq<State>)
    requires IsRun(y, init, ss) && Path(y, part) && part[0] == ss[|ss| - 1]
    ensures IsRun(y, init, ss + part[1..])
  {
    var more := ss + part[1..];
    forall i | 0 <= i < |more| - 1
      ensures Next(y, more[i], more[i + 1])
    {
      if i < |ss| - 1 {
        assert Next(y, ss[i], ss[i + 1]);
      } else {
        assert Moves(y, part, i - (|ss| - 1));
      }
    }
  }

  /** Operation p alone is open and has logged n blocks since the list was empty. */
  ghost predicate Alone(y: Layout, s: State, p: nat, n: nat) {
    && s.active.Keys == {p} && s.tested == {} && s.phase.Idle? && !s.committing && s.outstanding == 1
    && |s.view| == y.nblocks && |s.active[p]| <= n && |s.lh| <= n
  }

  /** One log_write. */
  lemma LogOne(y: Layout, s: State, p: nat, n: nat, w: Write) returns (t: State, u: State)
    requires Alone(y, s, p, n) && n < y.maxop && n < y.logsize && n < y.size - 1 && y.Home(w.b) && |w.v| == y.words
    ensures Next(y, s, t) && Next(y, t, u) && t.active.Keys == {p} && Alone(y, u, p, n + 1)
    ensures u.view == s.view[w.b := w.v] && u.hist == s.hist + [Event(p, w)]
  {
    assert Enabled(y, s, LogTest(p));
    t := Do(y, s, LogTest(p));
    assert Enabled(y, t, LogAppend(p, w));
    u := Do(y, t, LogAppend(p, w));
    assert u.active.Keys == s.active.Keys;
    assert u.tested == {};
  }

  /** What image v has in the blocks bs, as log_writes of p. */
  function EventsFor(p: nat, bs: seq<nat>, v: Image): (evs: seq<Event>)
    requires forall k | 0 <= k < |bs| :: bs[k] < |v|
    ensures |evs| == |bs|
  {
    seq(|bs|, k requires 0 <= k < |bs| => Event(p, Write(bs[k], v[bs[k]])))
  }

  /** From s to t, p has logged the blocks of bs with v's contents. */
  ghost predicate Logs(s: State, t: State, p: nat, bs: seq<nat>, v: Image) {
    && |s.view| == |t.view| == |v| && (forall k | 0 <= k < |bs| :: bs[k] < |v|)
    && t.hist == s.hist + EventsFor(p, bs, v)
    && forall b: nat | b < |v| :: t.view[b] == if b in bs then v[b] else s.view[b]
  }

  lemma LogsMore(s: State, t: State, u: State, p: nat, bs: seq<nat>, b: nat, v: Image)
    requires Logs(s, t, p, bs, v) && b < |v| && |u.view| == |v|
    requires u.view == t.view[b := v[b]] && u.hist == t.hist + [Event(p, Write(b, v[b]))]
    ensures Logs(s, u, p, bs + [b], v)
  {
    assert EventsFor(p, bs + [b], v) == EventsFor(p, bs, v) + [Event(p, Write(b, v[b]))];
  }

  /** Operation p alone is open all the way. */
  ghost predicate Busy(part: seq<State>, p: nat) {
    forall k | 0 <= k < |part| :: part[k].active.Keys == {p}
  }

  /** The blocks bs, with the contents they have in v, can be logged by one operation. */
  ghost predicate Loggable(y: Layout, bs: seq<nat>, v: Image) {
    && |bs| <= y.maxop <= y.logsize && |bs| < y.size && |v| == y.nblocks
    && forall k | 0 <= k < |bs| :: y.Home(bs[k]) && bs[k] < |v| && |v[bs[k]]| == y.words
  }

  lemma PathTwo(y: Layout, part: seq<State>, t: State, u: State, p: nat)
    requires Path(y, part) && Busy(part, p) && Next(y, part[|part| - 1], t) && Next(y, t, u)
    requires t.active.Keys == u.active.Keys == {p}
    ensures Path(y, part + [t] + [u]) && Busy(part + [t] + [u], p)
  {
    PathSnoc(y, part, t);
    PathSnoc(y, part + [t], u);
  }

  /** The log_writes of the first n blocks. */
  lemma {:induction false} LogSome(y: Layout, s: State, p: nat, bs: seq<nat>, v: Image, n: nat)
    returns (part: seq<State>, last: State)
    requires Alone(y, s, p, 0) && Loggable(y, bs, v) && n <= |bs|
    ensures Path(y, part) && Busy(part, p) && part[0] == s && part[|part| - 1] == last
    ensures Alone(y, last, p, n) && Logs(s, last, p, bs[..n], v)
    decreases n
  {
    if n == 0 {
      part, last := [s], s;
    } else {
      var before, now := LogSome(y, s, p, bs, v, n - 1);
      var t;
      t, last := LogNext(y, s, now, p, bs, v, n - 1);
      PathTwo(y, before, t, last, p);
      part := before + [t] + [last];
      assert part[0] == before[0];
    }
  }

  /** The log_write of block n. */
  lemma LogNext(y: Layout, s: State, now: State, p: nat, bs: seq<nat>, v: Image, n: nat) returns (t: State, u: State)
    requires Loggable(y, bs, v) && n < |bs| && Alone(y, now, p, n) && Logs(s, now, p, bs[..n], v)
    ensures Next(y, now, t) && Next(y, t, u) && t.active.Keys == u.active.Keys == {p}
    ensures Alone(y, u, p, n + 1) && Logs(s, u, p, bs[..n + 1], v)
  {
    var b := bs[n];
    assert bs[..n + 1] == bs[..n] + [b];
    t, u := LogOne(y, now, p, n, Write(b, v[b]));
    LogsMore(s, now, u, p, bs[..n], b, v);
  }

  /** begin_op in an idle state. */
  lemma Begins(y: Layout, s: State, p: nat) returns (t: State)
    requires CountInv(s) && s.phase.Idle? && s.active == map[] && p !in s.used && |s.view| == y.nblocks
    requires y.maxop <= y.logsize
    ensures Next(y, s, t) && Alone(y, t, p, 0) && t.view == s.view && t.hist == s.hist
  {
    assert |s.active| == 0 && s.lh == [];
    assert Enabled(y, s, BeginOp(p));
    t := Do(y, s, BeginOp(p));
    assert t.active == map[p := {}];
  }

  /** end_op of the only operation. */
  lemma Ends(y: Layout, s: State, p: nat, n: nat) returns (t: State)
    requires Alone(y, s, p, n)
    ensures Next(y, s, t) && t.view == s.view && t.active == map[] && t.phase.Commit?
  {
    assert Enabled(y, s, EndOp(p));
    t := Do(y, s, EndOp(p));
    assert t.active.Keys == {};
  }

  /** One operation, from begin_op over its log_writes to end_op. */
  lemma PathOf(y: Layout, s: State, p: nat, bs: seq<nat>, v: Image) returns (mid: seq<State>, u: State)
    requires CountInv(s) && s.phase.Idle? && s.active == map[] && p !in s.used && |s.view| == y.nblocks
    requires Loggable(y, bs, v)
    ensures Path(y, [s] + (mid + [u])) && Busy(mid, p) && |mid| > 0 && Logs(s, mid[|mid| - 1], p, bs, v)
    ensures u.view == mid[|mid| - 1].view && u.active == map[] && u.phase.Commit?
  {
    var t := Begins(y, s, p);
    var last;
    mid, last := LogSome(y, t, p, bs, v, |bs|);
    assert bs[..|bs|] == bs;
    u := Ends(y, last, p, |bs|);
    PathSnoc(y, mid, u);
    PathCons(y, s, mid + [u]);
  }

  /** A group of a run is a group of any run that begins with it. */
  lemma SerialPrefix(vol: Volume, did: nat -> seq<FileOp>, ss: seq<State>, more: seq<State>, j: nat, i: nat)
    requires AllSerial(vol, did, ss) && |ss| <= |more| && more[..|ss|] == ss && i + 1 < |ss|
    requires Opened(more, j, i) && Closes(more, i)
    ensures exists ids, cuts :: Serial(vol, did, more, j, i, ids, cuts)
  {
    assert forall k | 0 <= k < |ss| :: more[k] == ss[k];
    assert Opened(ss, j, i) && Closes(ss, i);
    var ids, cuts :| Serial(vol, did, ss, j, i, ids, cuts);
    forall k | 0 <= k < |ids|
      ensures SerialAt(vol, did, more, ids, cuts, k)
    {
      assert SerialAt(vol, did, ss, ids, cuts, k);
    }
    assert Serial(vol, did, more, j, i, ids, cuts);
  }

  /** The log_writes of one operation, made from s to t, carry it out. */
  lemma LogsDone(vol: Volume, ops: seq<FileOp>, s: State, t: State, p: nat, bs: seq<nat>, v: Image, tt: F.Store)
    requires vol.Valid() && Logs(s, t, p, bs, v) && |v| == vol.g.size && bs != []
    requires Performs(vol.g, ops, vol.Read(s.view), tt, Listed(bs))
    requires |tt.blocks| == |tt.used| == vol.g.size && |tt.dinode| == vol.n && vol.Carries(v, tt, Listed(bs))
    requires forall b: nat | b < |v| && b !in bs :: v[b] == s.view[b]
    ensures LoggedBy(p, s, t) && DoneBetween(vol, ops, s, t) && t.view == v
  {
    assert Since(s, t) == EventsFor(p, bs, v);
    assert t.view == v;
    EventBlocks(p, bs, v);
  }

  lemma EventBlocks(p: nat, bs: seq<nat>, v: Image)
    requires forall k | 0 <= k < |bs| :: bs[k] < |v|
    ensures BlocksOf(EventsFor(p, bs, v)) == Listed(bs)
  {
    var evs := EventsFor(p, bs, v);
    forall b | b in Listed(bs)
      ensures b in BlocksOf(evs)
    {
      var k :| 0 <= k < |bs| && bs[k] == b;
      assert evs[k] in evs;
    }
  }

  /** Behind a run with operations in a row, one more group. */
  lemma NewGroup(vol: Volume, did: nat -> seq<FileOp>, ss: seq<State>, more: seq<State>, ids: seq<nat>, cuts: seq<nat>)
    requires AllSerial(vol, did, ss) && 0 < |ss| && |ss| + 1 < |more| && more[..|ss|] == ss
    requires more[|ss| - 1].active == map[] && more[|more| - 1].active == map[]
    requires forall k | |ss| <= k < |more| - 1 :: more[k].active != map[]
    requires Serial(vol, did, more, |ss| - 1, |more| - 2, ids, cuts)
    ensures AllSerial(vol, did, more)
  {
    forall j: nat, i: nat | Opened(more, j, i) && Closes(more, i)
      ensures exists ids, cuts :: Serial(vol, did, more, j, i, ids, cuts)
    {
      if i + 1 < |ss| {
        SerialPrefix(vol, did, ss, more, j, i);
      } else {
        LastGroup(ss, more, j, i);
      }
    }
  }

  lemma LastGroup(ss: seq<State>, more: seq<State>, j: nat, i: nat)
    requires 0 < |ss| && |ss| + 1 < |more| && more[..|ss|] == ss
    requires more[|ss| - 1].active == map[] && forall k | |ss| <= k < |more| - 1 :: more[k].active != map[]
    requires Opened(more, j, i) && Closes(more, i) && |ss| <= i + 1
    ensures j == |ss| - 1 && i == |more| - 2
  {
    assert i >= |ss|;
  }

  /** Nothing is going on, and p has never begun an operation. */
  predicate AtRest(s: State, p: nat) {
    s.phase.Idle? && s.active == map[] && p !in s.used
  }

  /** The run has gone on, still with operations in a row, to `last`, the commit of one more. */
  ghost predicate Continues(vol: Volume, init: Image, did: nat -> seq<FileOp>, ss: seq<State>, more: seq<State>,
                            last: State) {
    && IsRun(vol.y, init, more) && |ss| < |more| && more[..|ss|] == ss && AllSerial(vol, did, more)
    && more[|more| - 1] == last && last.active == map[] && last.phase.Commit?
  }

  /** EVERY OPERATION CAN BE RUN. From every idle moment of a run with operations in a row, and for
      every operation that logs at most MAXOPBLOCKS blocks, the run goes on with that operation,
      from begin_op to end_op, and is still one with operations in a row. */
  lemma OperationRuns(vol: Volume, init: Image, did: nat -> seq<FileOp>, ss: seq<State>, p: nat, bs: seq<nat>, v: Image,
                      tt: F.Store) returns (more: seq<State>, last: State)
    requires vol.Valid() && IsRun(vol.y, init, ss) && LogTheorems.Roomy(vol.y) && AllSerial(vol, did, ss)
    requires AtRest(ss[|ss| - 1], p) && bs != [] && Loggable(vol.y, bs, v) && |ss[|ss| - 1].view| == vol.g.size
    requires forall b: nat | b < |v| && b !in bs :: v[b] == ss[|ss| - 1].view[b]
    requires Performs(vol.g, did(p), vol.Read(ss[|ss| - 1].view), tt, Listed(bs))
    requires |tt.blocks| == |tt.used| == vol.g.size && |tt.dinode| == vol.n && vol.Carries(v, tt, Listed(bs))
    ensures Continues(vol, init, did, ss, more, last) && last.view == v
  {
    LogFacts(vol, init, ss, |ss| - 1);
    var s := ss[|ss| - 1];
    var mid;
    mid, last := PathOf(vol.y, s, p, bs, v);
    RunJoin(vol.y, init, ss, [s] + (mid + [last]));
    LogsDone(vol, did(p), s, mid[|mid| - 1], p, bs, v, tt);
    more := ss + (mid + [last]);
    assert ([s] + (mid + [last]))[1..] == mid + [last];
    GroupStates(ss, mid, last, more, p);
    InOneGroup(vol, did, ss, mid, last, more, p);
    NewGroup(vol, did, ss, more, [p], [|ss| - 1, |more| - 2]);
  }

  /** The states of a group in which p is open alone. */
  lemma GroupStates(ss: seq<State>, mid: seq<State>, u: State, more: seq<State>, p: nat)
    requires 0 < |ss| && 0 < |mid| && more == ss + (mid + [u]) && Busy(mid, p)
    ensures more[..|ss|] == ss && (forall k | |ss| <= k < |more| - 1 :: more[k].active != map[])
    ensures more[|more| - 1] == u && more[|ss| - 1] == ss[|ss| - 1] && more[|more| - 2] == mid[|mid| - 1]
  {
    forall k | |ss| <= k < |more| - 1
      ensures more[k].active != map[]
    {
      assert more[k] == mid[k - |ss|];
      assert more[k].active.Keys == {p};
    }
  }

  lemma InOneGroup(vol: Volume, did: nat -> seq<FileOp>, ss: seq<State>, mid: seq<State>, u: State, more: seq<State>,
                   p: nat)
    requires 0 < |ss| && 0 < |mid| && more == ss + (mid + [u]) && Busy(mid, p)
    requires LoggedBy(p, ss[|ss| - 1], mid[|mid| - 1]) && DoneBetween(vol, did(p), ss[|ss| - 1], mid[|mid| - 1])
    ensures Serial(vol, did, more, |ss| - 1, |more| - 2, [p], [|ss| - 1, |more| - 2])
  {
    GroupStates(ss, mid, u, more, p);
    OneGroup(vol, did, more, |ss| - 1, |more| - 2, p);
  }

  lemma OneGroup(vol: Volume, did: nat -> seq<FileOp>, more: seq<State>, i: nat, k: nat, p: nat)
    requires i < k < |more| && LoggedBy(p, more[i], more[k]) && DoneBetween(vol, did(p), more[i], more[k])
    ensures Serial(vol, did, more, i, k, [p], [i, k])
  {
    assert SerialAt(vol, did, more, [p], [i, k], 0);
  }

  /** SO CAN ONE THAT LOGS NOTHING, whatever it is: the run with its begin_op and end_op is still one
      with operations in a row, and the cache shows what it did. */
  lemma ReadingRuns(vol: Volume, init: Image, did: nat -> seq<FileOp>, ss: seq<State>, p: nat)
    returns (more: seq<State>, last: State)
    requires vol.Valid() && IsRun(vol.y, init, ss) && LogTheorems.Roomy(vol.y) && AllSerial(vol, did, ss)
    requires AtRest(ss[|ss| - 1], p) && vol.y.maxop <= vol.y.logsize
    ensures Continues(vol, init, did, ss, more, last) && last.view == ss[|ss| - 1].view
  {
    LogFacts(vol, init, ss, |ss| - 1);
    var s := ss[|ss| - 1];
    var mid;
    mid, last := PathOf(vol.y, s, p, [], s.view);
    RunJoin(vol.y, init, ss, [s] + (mid + [last]));
    more := ss + (mid + [last]);
    assert ([s] + (mid + [last]))[1..] == mid + [last];
    GroupStates(ss, mid, last, more, p);
    assert mid[|mid| - 1].hist == s.hist && mid[|mid| - 1].view == s.view;
    assert Serial(vol, did, more, |ss| - 1, |more| - 2, [], [|ss| - 1]);
    NewGroup(vol, did, ss, more, [], [|ss| - 1]);
  }

  // ----- the commit behind it

  /** A step of the commit. */
  lemma CommitStep(y: Layout, init: Image, ss: seq<State>) returns (t: State)
    requires LogTheorems.Roomy(y) && IsRun(y, init, ss) && ss[|ss| - 1].phase.Commit? && ss[|ss| - 1].active == map[]
    ensures Next(y, ss[|ss| - 1], t) && t.active == map[] && t.used == ss[|ss| - 1].used
    ensures Events(t) == Events(ss[|ss| - 1])
    ensures t.phase.Idle? || (t.phase.Commit? && CommitLeft(t) < CommitLeft(ss[|ss| - 1]))
  {
    LogTheorems.EverybodyGoesOn(y, init, ss, 0);
    var s := ss[|ss| - 1];
    var a := if s.phase.pc < CommitLen(s.lh) then CommitWrite else CommitDone;
    assert Enabled(y, s, a);
    t := Do(y, s, a);
  }

  function CommitLeft(s: State): nat {
    if s.phase.Commit? && s.phase.pc <= CommitLen(s.lh) then CommitLen(s.lh) - s.phase.pc else 0
  }

  lemma OneStep(y: Layout, init: Image, ss: seq<State>, t: State)
    requires IsRun(y, init, ss) && Next(y, ss[|ss| - 1], t)
    ensures IsRun(y, init, ss + [t])
  {
    var part := [ss[|ss| - 1], t];
    assert Path(y, part) by {
      assert Moves(y, part, 0);
    }
    RunJoin(y, init, ss, part);
    assert part[1..] == [t];
  }

  /** A step with no operation open closes no group. */
  lemma NoNewGroup(vol: Volume, did: nat -> seq<FileOp>, ss: seq<State>, t: State)
    requires AllSerial(vol, did, ss) && 0 < |ss| && ss[|ss| - 1].active == map[]
    ensures AllSerial(vol, did, ss + [t])
  {
    var more := ss + [t];
    forall j: nat, i: nat | Opened(more, j, i) && Closes(more, i)
      ensures exists ids, cuts :: Serial(vol, did, more, j, i, ids, cuts)
    {
      assert i != |ss| - 1 by {
        assert more[|ss| - 1] == ss[|ss| - 1];
      }
      SerialPrefix(vol, did, ss, more, j, i);
    }
  }

  /** The last states of two runs that show the same file system. */
  lemma SameShown(vol: Volume, init: Image, ss: seq<State>, more: seq<State>)
    requires vol.Valid() && LogTheorems.Roomy(vol.y) && IsRun(vol.y, init, ss) && IsRun(vol.y, init, more)
    requires !ss[|ss| - 1].phase.Recover? && !more[|more| - 1].phase.Recover?
    requires Events(more[|more| - 1]) == Events(ss[|ss| - 1])
    ensures |ss[|ss| - 1].view| == |more[|more| - 1].view| == vol.g.size
    ensures vol.Read(more[|more| - 1].view) == vol.Read(ss[|ss| - 1].view)
  {
    LogFacts(vol, init, ss, |ss| - 1);
    LogFacts(vol, init, more, |more| - 1);
    ReadSame(vol, ss[|ss| - 1].view, more[|more| - 1].view);
  }

  /** The run has gone on to `last`, in which nothing is going on, and shows what it did in s. */
  ghost predicate Settles(vol: Volume, init: Image, did: nat -> seq<FileOp>, ss: seq<State>, more: seq<State>,
                          s: State, last: State) {
    && vol.Valid() && IsRun(vol.y, init, more) && |ss| <= |more| && more[..|ss|] == ss && AllSerial(vol, did, more)
    && more[|more| - 1] == last && last.active == map[] && last.phase.Idle? && last.used == s.used
    && |last.view| == |s.view| == vol.g.size && vol.Read(last.view) == vol.Read(s.view)
  }

  /** THE COMMIT ENDS, and the file system that the cache shows stays what it is. */
  lemma {:induction false} CommitEnds(vol: Volume, init: Image, did: nat -> seq<FileOp>, ss: seq<State>, s: State)
    returns (more: seq<State>, last: State)
    requires vol.Valid() && IsRun(vol.y, init, ss) && LogTheorems.Roomy(vol.y) && AllSerial(vol, did, ss)
    requires ss[|ss| - 1] == s && s.phase.Commit? && s.active == map[]
    ensures Settles(vol, init, did, ss, more, s, last)
    decreases CommitLeft(s)
  {
    var t := CommitStep(vol.y, init, ss);
    OneStep(vol.y, init, ss, t);
    NoNewGroup(vol, did, ss, t);
    SameShown(vol, init, ss, ss + [t]);
    if t.phase.Idle? {
      more, last := ss + [t], t;
    } else {
      more, last := CommitEnds(vol, init, did, ss + [t], t);
      assert ss == (ss + [t])[..|ss|];
    }
  }
}
