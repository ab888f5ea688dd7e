/** What holds over every run of the log: durability, whole operations only, and
    space reservation (log.c). */
module LogTheorems {
  import opened Blocks
  import opened LogSpec
  import opened Crash
  import opened LogRuns
  import opened Products

  // ----- operations are all or nothing

  ghost predicate OpInv(s: State, p: nat) {
    && (Of(s.done, p) == [] || (Of(s.done, p) == Of(s.hist, p) && Of(s.cur, p) == [] && p !in s.active))
    && (Of(s.cur, p) == [] || Of(s.cur, p) == Of(s.hist, p))
    && (p in s.active ==> p in s.used && Of(s.cur, p) == Of(s.hist, p))
    && (p !in s.used ==> Of(s.hist, p) == [] && Of(s.cur, p) == [] && Of(s.done, p) == [])
  }

  lemma OpLogAppend(y: Layout, s: State, q: nat, w: Write, p: nat)
    requires Enabled(y, s, LogAppend(q, w)) && OpInv(s, p)
    ensures OpInv(Do(y, s, LogAppend(q, w)), p)
  {
    OfAppend(s.hist, [Event(q, w)], p);
    OfAppend(s.cur, [Event(q, w)], p);
  }

  lemma OpCommitWrite(y: Layout, s: State, p: nat)
    requires CountInv(s) && Enabled(y, s, CommitWrite) && OpInv(s, p)
    ensures OpInv(Do(y, s, CommitWrite), p)
  {
    OfAppend(s.done, s.cur, p);
  }

  lemma OpStep(y: Layout, s: State, a: Step, p: nat)
    requires CountInv(s) && Enabled(y, s, a) && OpInv(s, p)
    ensures OpInv(Do(y, s, a), p)
  {
    match a
    case LogAppend(q, w) => OpLogAppend(y, s, q, w, p);
    case CommitWrite => OpCommitWrite(y, s, p);
    case BeginOp(_) =>
    case LogTest(_) =>
    case EndOp(_) =>
    case CommitDone =>
    case CrashNow =>
    case RecoverWrite =>
    case RecoverDone =>
  }

  // ----- space

  /** Distinct blocks logged by the outstanding operations, added up. */
  ghost function Logged(m: map<nat, set<nat>>): nat
    decreases |m|
  {
    if m == map[] then 0
    else
      var p :| p in m;
      |m[p]| + Logged(m - {p})
  }

  lemma {:induction false} LoggedRemove(m: map<nat, set<nat>>, p: nat)
    requires p in m
    ensures Logged(m) == |m[p]| + Logged(m - {p})
    decreases |m|
  {
    var q :| q in m && Logged(m) == |m[q]| + Logged(m - {q});
    if q != p {
      LoggedRemove(m - {q}, p);
      LoggedRemove(m - {p}, q);
      assert m - {q} - {p} == m - {p} - {q};
    }
  }

  /** Each operation within its reservation, and the list plus what outstanding
      operations may still add within LOGSIZE. */
  ghost predicate SpaceInv(y: Layout, s: State) {
    && (forall p | p in s.active :: |s.active[p]| <= y.maxop && forall b | b in s.active[p] :: b in s.lh)
    && |s.lh| + s.outstanding * y.maxop - Logged(s.active) <= y.logsize
  }

  lemma LogAppendKeepsSpace(y: Layout, s: State, p: nat, w: Write)
    requires SpaceInv(y, s) && Enabled(y, s, LogAppend(p, w))
    ensures SpaceInv(y, Do(y, s, LogAppend(p, w)))
  {
    var t := Do(y, s, LogAppend(p, w));
    LoggedRemove(s.active, p);
    LoggedRemove(t.active, p);
    assert t.active - {p} == s.active - {p};
    if w.b in s.active[p] {
      assert s.active[p] + {w.b} == s.active[p];
    }
  }

  lemma BeginKeepsSpace(y: Layout, s: State, p: nat)
    requires SpaceInv(y, s) && p !in s.active && Enabled(y, s, BeginOp(p))
    ensures SpaceInv(y, Do(y, s, BeginOp(p)))
  {
    var t := Do(y, s, BeginOp(p));
    assert t.outstanding * y.maxop == (s.outstanding + 1) * y.maxop;
  }

  lemma EndKeepsSpace(y: Layout, s: State, p: nat)
    requires SpaceInv(y, s) && Enabled(y, s, EndOp(p))
    ensures SpaceInv(y, Do(y, s, EndOp(p)))
  {
    LoggedRemove(s.active, p);
    Multiples(s.outstanding, y.maxop);
  }

  lemma SpaceStep(y: Layout, s: State, a: Step)
    requires CountInv(s) && SpaceInv(y, s) && Enabled(y, s, a)
    ensures SpaceInv(y, Do(y, s, a))
  {
    match a
    case LogAppend(p, w) => LogAppendKeepsSpace(y, s, p, w);
    case BeginOp(p) => BeginKeepsSpace(y, s, p);
    case EndOp(p) => EndKeepsSpace(y, s, p);
    case LogTest(_) =>
    case CommitWrite =>
    case CommitDone =>
    case CrashNow =>
    case RecoverWrite =>
    case RecoverDone =>
  }

  // ----- room in the log region

  /** The list cannot outgrow the log region: the region is larger than LOGSIZE, or at most
      one operation is open at a time, or nothing can be logged at all. */
  predicate Roomy(y: Layout) {
    y.size > y.logsize || y.logsize < 2 * y.maxop || y.size < 2
  }

  /** In the last two cases the guard of log_write is what keeps the list short. */
  ghost predicate RoomInv(y: Layout, s: State) {
    y.size <= y.logsize ==> |s.lh| + |s.tested| < y.size && (y.size >= 2 ==> s.outstanding <= 1)
  }

  lemma RoomStep(y: Layout, s: State, a: Step)
    requires y.Valid() && Roomy(y) && CountInv(s) && RoomInv(y, s) && Enabled(y, s, a)
    ensures RoomInv(y, Do(y, s, a))
  {
    match a
    case BeginOp(p) =>
      if 2 <= y.size <= y.logsize {
        BeginRoom(y, s);
      }
    case LogTest(p) => TestRoom(y, s, p);
    case _ =>
  }

  lemma BeginRoom(y: Layout, s: State)
    requires CountInv(s) && y.logsize < 2 * y.maxop && !MustWait(y, s)
    ensures s.outstanding == 0
  {
    if s.outstanding >= 1 {
      TimesAtLeast(2, s.outstanding + 1, y.maxop);
    }
  }

  lemma TestRoom(y: Layout, s: State, p: nat)
    requires CountInv(s) && RoomInv(y, s) && Enabled(y, s, LogTest(p))
    ensures RoomInv(y, Do(y, s, LogTest(p)))
  {
    if y.size <= y.logsize && y.size >= 2 {
      assert s.active.Keys - {p} == {} by {
        assert |s.active.Keys - {p}| == 0;
      }
      assert s.tested == {};
    }
  }

  /** With reservations kept, an append fits the header and the region. */
  lemma AppendFits(y: Layout, s: State, p: nat, w: Write)
    requires y.Valid() && Roomy(y) && CountInv(s) && SpaceInv(y, s) && RoomInv(y, s) && Enabled(y, s, LogAppend(p, w))
    ensures |Absorb(s.lh, w.b)| <= y.logsize && |Absorb(s.lh, w.b)| < y.size
  {
    var t := Do(y, s, LogAppend(p, w));
    LogAppendKeepsSpace(y, s, p, w);
    LoggedBound(y, t.active);
    assert t.active.Keys == s.active.Keys;
    RoomStep(y, s, LogAppend(p, w));
  }

  lemma {:induction false} LoggedBound(y: Layout, m: map<nat, set<nat>>)
    requires forall p | p in m :: |m[p]| <= y.maxop
    ensures Logged(m) <= |m| * y.maxop
    decreases |m|
  {
    if m != map[] {
      var p :| p in m && Logged(m) == |m[p]| + Logged(m - {p});
      LoggedBound(y, m - {p});
      assert (m - {p}).Keys == m.Keys - {p};
      assert (|m| - 1) * y.maxop + y.maxop == |m| * y.maxop;
    }
  }

  // ----- every run

  /** What every run keeps, whatever the sizes. */
  ghost predicate Inv(y: Layout, s: State) {
    CountInv(s) && SpaceInv(y, s) && forall p :: OpInv(s, p)
  }

  lemma OpsStep(y: Layout, s: State, a: Step)
    requires CountInv(s) && Enabled(y, s, a) && forall p :: OpInv(s, p)
    ensures forall p :: OpInv(Do(y, s, a), p)
  {
    forall p
      ensures OpInv(Do(y, s, a), p)
    {
      OpStep(y, s, a, p);
    }
  }

  lemma StepKeepsInv(y: Layout, s: State, a: Step)
    requires Inv(y, s) && Enabled(y, s, a)
    ensures Inv(y, Do(y, s, a))
  {
    CountStep(y, s, a);
    OpsStep(y, s, a);
    SpaceStep(y, s, a);
  }

  lemma {:induction false} RunKeepsInv(y: Layout, init: Image, ss: seq<State>)
    requires IsRun(y, init, ss)
    ensures Inv(y, ss[|ss| - 1])
    decreases |ss|
  {
    var last := |ss| - 1;
    if last > 0 {
      RunKeepsInv(y, init, ss[..last]);
      assert Next(y, ss[last - 1], ss[last - 1 + 1]);
      var a :| Enabled(y, ss[last - 1], a) && ss[last] == Do(y, ss[last - 1], a);
      StepKeepsInv(y, ss[last - 1], a);
    }
  }

  /** What every run keeps on a disk with room. */
  ghost predicate DiskRoom(y: Layout, init: Image, s: State) {
    DiskInv(y, init, s) && RoomInv(y, s)
  }

  lemma DiskStep(y: Layout, init: Image, s: State, a: Step)
    requires y.Valid() && Roomy(y) && Inv(y, s) && DiskRoom(y, init, s) && Enabled(y, s, a)
    ensures DiskInv(y, init, Do(y, s, a))
  {
    match a
    case BeginOp(p) => QuietKeepsDisk(y, init, s, a);
    case LogTest(p) => QuietKeepsDisk(y, init, s, a);
    case LogAppend(p, w) =>
      AppendFits(y, s, p, w);
      LogAppendKeepsDisk(y, init, s, p, w);
    case EndOp(p) => EndKeepsDisk(y, init, s, p);
    case CommitWrite => CommitWriteKeepsDisk(y, init, s);
    case CommitDone => CommitDoneKeepsDisk(y, init, s);
    case CrashNow => CrashKeepsDisk(y, init, s);
    case RecoverWrite => RecoverWriteKeepsDisk(y, init, s);
    case RecoverDone => RecoverDoneKeepsDisk(y, init, s);
  }

  lemma StartDiskRoom(y: Layout, init: Image, s: State)
    requires Start(y, init, s)
    ensures DiskRoom(y, init, s)
  {
    StartDisk(y, init, s);
  }

  lemma NextDiskRoom(y: Layout, init: Image, s: State, t: State)
    requires y.Valid() && Roomy(y) && Inv(y, s) && DiskRoom(y, init, s) && Next(y, s, t)
    ensures DiskRoom(y, init, t)
  {
    var a :| Enabled(y, s, a) && t == Do(y, s, a);
    DiskStep(y, init, s, a);
    RoomStep(y, s, a);
  }

  lemma {:induction false} RunKeepsDisk(y: Layout, init: Image, ss: seq<State>)
    requires Roomy(y) && IsRun(y, init, ss)
    ensures DiskRoom(y, init, ss[|ss| - 1])
    decreases |ss|
  {
    var last := |ss| - 1;
    if last == 0 {
      StartDiskRoom(y, init, ss[0]);
    } else {
      var before, s := ss[..last], ss[last - 1];
      assert IsRun(y, init, before) && before[|before| - 1] == s;
      RunKeepsDisk(y, init, before);
      RunKeepsInv(y, init, before);
      assert Next(y, ss[last - 1], ss[last - 1 + 1]);
      NextDiskRoom(y, init, s, ss[last]);
    }
  }

  /** The disk can be recovered and then holds the initial state with the writes `done`
      applied in order, and `done` holds, for each operation, either every write it ever
      made or none; an operation still open has none. */
  ghost predicate Whole(y: Layout, init: Image, s: State) {
    && EventsFit(y, s.done) && DiskOk(y, s.disk) && |init| == y.nblocks
    && DurableIs(y, s.disk, Effect(y, init, s.done))
    && forall p: nat :: OpWhole(s, p)
  }

  ghost predicate OpWhole(s: State, p: nat) {
    (Of(s.done, p) == [] || Of(s.done, p) == Of(s.hist, p)) && (p in s.active ==> Of(s.done, p) == [])
  }

  /** EVERY OPERATION IS ALL OR NOTHING ACROSS CRASHES, at every moment of every run, if the
      list cannot outgrow the log region. */
  lemma AllOrNothing(y: Layout, init: Image, ss: seq<State>)
    requires Roomy(y) && IsRun(y, init, ss)
    ensures Whole(y, init, ss[|ss| - 1])
  {
    RunKeepsInv(y, init, ss);
    RunKeepsDisk(y, init, ss);
    var s := ss[|ss| - 1];
    forall p: nat
      ensures OpWhole(s, p)
    {
      assert OpInv(s, p);
    }
  }

  /** After a finished recovery the home blocks themselves hold that state, and so
      does the cache. */
  lemma RecoveredContents(y: Layout, init: Image, ss: seq<State>)
    requires Roomy(y) && IsRun(y, init, ss)
    ensures var s := ss[|ss| - 1];
            EventsFit(y, s.done + s.cur) && |init| == y.nblocks && |s.disk| == y.nblocks
    ensures var s := ss[|ss| - 1];
            // while up, the cache shows every write made since the crash
            && (!s.phase.Recover? ==> |s.view| == y.nblocks && SameHome(y, s.view, Effect(y, init, s.done + s.cur)))
            // with no operation open, everything the cache shows is on disk for good
            && (s.phase.Idle? && s.outstanding == 0 ==> s.cur == [] && SameHome(y, s.disk, s.view))
  {
    RunKeepsDisk(y, init, ss);
    var s := ss[|ss| - 1];
    if s.phase.Idle? && s.outstanding == 0 {
      assert s.active.Keys == {};
      assert s.active == map[];
    }
  }

  /** GROUP COMMIT. In every run, while a commit is in progress no operation is
      open and none is admitted, and end_op never finds `committing` set. */
  lemma GroupCommit(y: Layout, init: Image, ss: seq<State>)
    requires IsRun(y, init, ss)
    ensures var s := ss[|ss| - 1];
            && (s.committing <==> s.phase.Commit?)
            && (s.committing ==> s.outstanding == 0 && s.active == map[] && MustWait(y, s))
            && (s.outstanding > 0 ==> !s.committing)
  {
    RunKeepsInv(y, init, ss);
  }

  /** A process that must wait in begin_op has someone to wait for. */
  lemma WaitIsForSomeone(y: Layout, init: Image, ss: seq<State>)
    requires IsRun(y, init, ss) && y.maxop <= y.logsize
    ensures var s := ss[|ss| - 1];
            !s.phase.Recover? && MustWait(y, s) ==> s.committing || s.outstanding > 0
  {
    RunKeepsInv(y, init, ss);
    var s := ss[|ss| - 1];
    if s.phase.Idle? && s.outstanding == 0 {
      assert s.active.Keys == {};
      assert s.active == map[];
    }
  }

  // ----- admission

  /** k more operations can begin one after the other, with nothing in between. */
  ghost predicate CanBegin(y: Layout, s: State, k: nat)
    decreases k
  {
    k == 0 || exists p: nat :: Enabled(y, s, BeginOp(p)) && CanBegin(y, Do(y, s, BeginOp(p)), k - 1)
  }

  lemma {:induction false} Bound(ids: set<nat>) returns (n: nat)
    ensures forall i | i in ids :: i < n
    decreases |ids|
  {
    if ids == {} {
      n := 0;
    } else {
      var i :| i in ids;
      var rest := ids - {i};
      var m := Bound(rest);
      n := if m <= i then i + 1 else m;
      assert forall j | j in ids :: j == i || j in rest;
    }
  }

  lemma {:induction false} AdmittedFits(y: Layout, s: State, k: nat)
    requires s.phase.Idle? && !s.committing && k >= 1 && CanBegin(y, s, k)
    ensures |s.lh| + (s.outstanding + k) * y.maxop <= y.logsize
    decreases k
  {
    var p: nat :| Enabled(y, s, BeginOp(p)) && CanBegin(y, Do(y, s, BeginOp(p)), k - 1);
    if k > 1 {
      AdmittedFits(y, Do(y, s, BeginOp(p)), k - 1);
    }
  }

  lemma {:induction false} FittingAdmitted(y: Layout, s: State, k: nat)
    requires s.phase.Idle? && !s.committing && k >= 1
    requires |s.lh| + (s.outstanding + k) * y.maxop <= y.logsize
    ensures CanBegin(y, s, k)
    decreases k
  {
    TimesAtLeast(s.outstanding + 1, s.outstanding + k, y.maxop);
    var p := Bound(s.used);
    assert Enabled(y, s, BeginOp(p));
    var t := Do(y, s, BeginOp(p));
    if k > 1 {
      FittingAdmitted(y, t, k - 1);
    }
    assert CanBegin(y, t, k - 1);
  }

  lemma AdmitsFrom(y: Layout, s: State, k: nat)
    requires s.phase.Idle? && !s.committing && k >= 1
    ensures CanBegin(y, s, k) <==> |s.lh| + (s.outstanding + k) * y.maxop <= y.logsize
  {
    if CanBegin(y, s, k) {
      AdmittedFits(y, s, k);
    } else if |s.lh| + (s.outstanding + k) * y.maxop <= y.logsize {
      FittingAdmitted(y, s, k);
    }
  }

  lemma NoneAdmitted(y: Layout, s: State, k: nat)
    requires s.phase.Recover? || s.committing
    ensures k >= 1 ==> !CanBegin(y, s, k)
  {
  }

  /** ADMISSION. At every moment of every run, k more operations can begin in a row if and
      only if no commit or recovery is under way and the list, with MAXOPBLOCKS for each
      operation open by then, fits LOGSIZE. */
  lemma AdmitsIff(y: Layout, init: Image, ss: seq<State>, k: nat)
    requires IsRun(y, init, ss) && k >= 1
    ensures var s := ss[|ss| - 1];
            CanBegin(y, s, k) <==>
              !s.phase.Commit? && !s.phase.Recover? && |s.lh| + (s.outstanding + k) * y.maxop <= y.logsize
  {
    RunKeepsInv(y, init, ss);
    var s := ss[|ss| - 1];
    if s.phase.Idle? {
      AdmitsFrom(y, s, k);
    } else {
      NoneAdmitted(y, s, k);
    }
  }

  lemma DoneGrows(y: Layout, s: State, t: State)
    requires Next(y, s, t)
    ensures s.done <= t.done
  {
  }

  /** What has committed stays committed. */
  lemma {:induction false} CommittedStays(y: Layout, init: Image, ss: seq<State>, i: nat)
    requires IsRun(y, init, ss) && i < |ss|
    ensures ss[i].done <= ss[|ss| - 1].done
    decreases |ss|
  {
    if i < |ss| - 1 {
      var before := ss[..|ss| - 1];
      CommittedStays(y, init, before, i);
      assert Next(y, ss[|ss| - 2], ss[|ss| - 2 + 1]);
      DoneGrows(y, ss[|ss| - 2], ss[|ss| - 1]);
    }
  }

  lemma LoggedSlack(y: Layout, m: map<nat, set<nat>>, p: nat)
    requires p in m && |m[p]| < y.maxop && forall q | q in m :: |m[q]| <= y.maxop
    ensures Logged(m) < |m| * y.maxop
  {
    var rest := m - {p};
    LoggedRemove(m, p);
    assert |rest| == |m| - 1 by {
      assert rest.Keys == m.Keys - {p};
    }
    assert Logged(rest) <= |rest| * y.maxop by {
      LoggedBound(y, rest);
    }
    Multiples(|m|, y.maxop);
  }

  lemma ReservationLeft(y: Layout, s: State, p: nat)
    requires SpaceInv(y, s) && s.outstanding == |s.active| && HasReservation(y, s, p)
    ensures |s.lh| < y.logsize && s.outstanding >= 1
  {
    LoggedSlack(y, s.active, p);
  }

  /** SPACE RESERVATION. In every run the list plus the unused reservations of
      open operations stays within LOGSIZE, so when the log region is larger than
      LOGSIZE a log_write by an operation with reservation left never panics. */
  lemma ReservationHolds(y: Layout, init: Image, ss: seq<State>, p: nat)
    requires IsRun(y, init, ss)
    ensures var s := ss[|ss| - 1];
            && |s.lh| + s.outstanding * y.maxop - Logged(s.active) <= y.logsize
            && (y.size > y.logsize && HasReservation(y, s, p) ==> !TooBig(y, |s.lh|) && s.outstanding >= 1)
  {
    RunKeepsInv(y, init, ss);
    var s := ss[|ss| - 1];
    if HasReservation(y, s, p) {
      ReservationLeft(y, s, p);
    }
  }

  // ----- nobody is stuck

  /** What open operation p can do: end, or log another block while there is room. */
  ghost predicate OpGoesOn(y: Layout, s: State, p: nat) {
    p in s.active ==>
      if p in s.tested then
        forall w: Write | y.Home(w.b) && |w.v| == y.words && (w.b in s.active[p] || |s.active[p]| < y.maxop) ::
          Enabled(y, s, LogAppend(p, w))
      else
        && Enabled(y, s, EndOp(p))
        && (Enabled(y, s, LogTest(p)) <==> |s.lh| < y.logsize && |s.lh| < y.size - 1)
  }

  /** A commit, or a recovery, can make its next write, or is done. */
  ghost predicate WriterGoesOn(y: Layout, s: State) {
    match s.phase
    case Idle => true
    case Commit(pc, _, _) => if pc < CommitLen(s.lh) then Enabled(y, s, CommitWrite) else Enabled(y, s, CommitDone)
    case Recover(pc, base) =>
      DiskOk(y, base) && if pc < RecoverLen(y, base) then Enabled(y, s, RecoverWrite) else Enabled(y, s, RecoverDone)
  }

  lemma GoodIsOk(y: Layout, lh: seq<nat>)
    requires y.Valid() && GoodList(y, lh)
    ensures ListOk(y, lh)
  {
  }

  /** NOBODY IS STUCK. With room in the log region, at every moment of every run an open
      operation can go on, and a commit or a recovery can; a crash can always happen. */
  lemma EverybodyGoesOn(y: Layout, init: Image, ss: seq<State>, p: nat)
    requires Roomy(y) && IsRun(y, init, ss)
    ensures var s := ss[|ss| - 1];
            OpGoesOn(y, s, p) && WriterGoesOn(y, s) && Enabled(y, s, CrashNow)
  {
    RunKeepsDisk(y, init, ss);
    var s := ss[|ss| - 1];
    if !s.phase.Recover? {
      GoodIsOk(y, s.lh);
    }
    if p in s.active {
      OpCan(y, s, p);
    }
  }

  lemma OpCan(y: Layout, s: State, p: nat)
    requires CountInv(s) && p in s.active && ImageOk(y, s.view)
    ensures OpGoesOn(y, s, p)
  {
    assert s.active != map[];
  }
}
