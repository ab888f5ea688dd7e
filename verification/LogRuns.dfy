/** Every interleaving of begin_op / log_write / end_op, the commit's disk writes,
    crashes and restarted recoveries (log.c), as a step system. */
module LogRuns {
  import opened Blocks
  import opened LogSpec
  import opened Crash

  /** One `log_write` by operation `op`: block `w.b` now holds `w.v`. */
  datatype Event = Event(op: nat, w: Write)

  /** What the log is doing. `Commit` and `Recover` carry the number of disk writes
      already made and the disk on entry, `Commit` also what the cache showed then. */
  datatype Phase = Idle | Commit(pc: nat, base: Image, shown: Image) | Recover(pc: nat, base: Image)

  /** `active` maps each operation between begin_op and end_op to the set of blocks
      it has logged; `tested` are those inside log_write that have passed its tests,
      which run before the lock is taken. `hist` holds every log_write ever made, `done` those that
      reached disk with a header write, `cur` those of the transaction in memory. */
  datatype State = State(
    disk: Image, view: Image, lh: seq<nat>,
    outstanding: int, committing: bool, phase: Phase,
    active: map<nat, set<nat>>, tested: set<nat>, used: set<nat>,
    hist: seq<Event>, done: seq<Event>, cur: seq<Event>)

  datatype Step =
    | BeginOp(p: nat)
    | LogTest(p: nat)               // log_write up to acquire(&log.lock)
    | LogAppend(p: nat, w: Write)   // the rest, under the lock
    | EndOp(p: nat)
    | CommitWrite
    | CommitDone
    | CrashNow
    | RecoverWrite
    | RecoverDone

  /** `log_write`'s first test (log.c:218). */
  predicate TooBig(y: Layout, n: nat) {
    n >= y.logsize || n >= y.size - 1
  }

  /** The operation still has room for one more distinct block. */
  predicate HasReservation(y: Layout, s: State, p: nat) {
    p in s.active && |s.active[p]| < y.maxop
  }

  /** begin_op's wait condition (log.c:130-135). */
  predicate MustWait(y: Layout, s: State) {
    s.committing || |s.lh| + (s.outstanding + 1) * y.maxop > y.logsize
  }

  ghost predicate Enabled(y: Layout, s: State, a: Step) {
    match a
    case BeginOp(p) => !s.phase.Recover? && p !in s.used && !MustWait(y, s)
    case LogTest(p) =>
      // a panic stops the run
      !s.phase.Recover? && p in s.active && p !in s.tested && !TooBig(y, |s.lh|) && s.outstanding >= 1
    case LogAppend(p, w) =>
      // an operation logs at most maxop distinct blocks
      && !s.phase.Recover? && p in s.active && p in s.tested && y.Home(w.b) && |w.v| == y.words && |s.view| == y.nblocks
      && (w.b in s.active[p] || HasReservation(y, s, p))
    case EndOp(p) => !s.phase.Recover? && p in s.active && p !in s.tested && !s.committing
    case CommitWrite =>
      && s.phase.Commit? && y.Valid() && ImageOk(y, s.view) && ListOk(y, s.lh)
      && s.phase.pc < CommitLen(s.lh) && |s.disk| == y.nblocks
    case CommitDone => s.phase.Commit? && s.phase.pc == CommitLen(s.lh)
    case CrashNow => true
    case RecoverWrite =>
      && s.phase.Recover? && DiskOk(y, s.phase.base)
      && s.phase.pc < RecoverLen(y, s.phase.base)
      && |s.disk| == y.nblocks
    case RecoverDone =>
      && s.phase.Recover? && DiskOk(y, s.phase.base)
      && s.phase.pc == RecoverLen(y, s.phase.base)
  }

  /** Log absorption: a block already in the list is not added again. */
  function Absorb(lh: seq<nat>, b: nat): (r: seq<nat>)
    ensures b in r && forall x :: x in r <==> x in lh || x == b
    ensures Distinct(lh) ==> Distinct(r)
    ensures |lh| <= |r| <= |lh| + 1
  {
    if b in lh then lh else lh + [b]
  }

  ghost function Do(y: Layout, s: State, a: Step): State
    requires Enabled(y, s, a)
  {
    match a
    case BeginOp(p) =>
      s.(active := s.active[p := {}], used := s.used + {p}, outstanding := s.outstanding + 1)
    case LogTest(p) => s.(tested := s.tested + {p})
    case LogAppend(p, w) =>
      s.(tested := s.tested - {p}, view := s.view[w.b := w.v], lh := Absorb(s.lh, w.b),
          active := s.active[p := s.active[p] + {w.b}],
         hist := s.hist + [Event(p, w)], cur := s.cur + [Event(p, w)])
    case EndOp(p) =>
      var t := s.(active := s.active - {p}, outstanding := s.outstanding - 1);
      if t.outstanding == 0 then t.(committing := true, phase := Commit(0, s.disk, s.view)) else t
    case CommitWrite =>
      var w := CommitNext(y, s.view, s.lh, s.phase.pc);
      var t := s.(disk := s.disk[w.b := w.v], view := s.view[w.b := w.v],
                 phase := Commit(s.phase.pc + 1, s.phase.base, s.phase.shown));
      // the header write is the point at which the transaction commits
      if s.phase.pc == |s.lh| then t.(done := s.done + s.cur, cur := []) else t
    case CommitDone => s.(committing := false, phase := Idle, lh := [])
    case CrashNow =>
      s.(view := s.disk, lh := [], outstanding := 0, committing := false, phase := Recover(0, s.disk),
         active := map[], tested := {}, cur := [])
    case RecoverWrite =>
      var w := RecoverAt(y, s.phase.base, s.phase.pc);
      s.(disk := s.disk[w.b := w.v], phase := Recover(s.phase.pc + 1, s.phase.base))
    case RecoverDone => s.(phase := Idle, view := s.disk)
  }

  ghost predicate Next(y: Layout, s: State, t: State) {
    exists a :: Enabled(y, s, a) && t == Do(y, s, a)
  }

  /** Power-on with an arbitrary recoverable disk whose meaning is `init`. */
  ghost predicate Start(y: Layout, init: Image, s: State) {
    && DiskOk(y, s.disk) && ImageOk(y, init) && DurableIs(y, s.disk, init)
    && s == State(s.disk, s.disk, [], 0, false, Recover(0, s.disk), map[], {}, {}, [], [], [])
  }

  ghost predicate IsRun(y: Layout, init: Image, ss: seq<State>) {
    && |ss| > 0 && Start(y, init, ss[0])
    && forall i | 0 <= i < |ss| - 1 :: Next(y, ss[i], ss[i + 1])
  }

  // ----- the history

  function Writes(evs: seq<Event>): (ws: seq<Write>)
    ensures |ws| == |evs|
  {
    seq(|evs|, i requires 0 <= i < |evs| => evs[i].w)
  }

  predicate EventsFit(y: Layout, evs: seq<Event>) {
    forall i | 0 <= i < |evs| :: y.Home(evs[i].w.b) && |evs[i].w.v| == y.words
  }

  /** The state obtained from `init` by exactly the writes of `evs`, in order. */
  function Effect(y: Layout, init: Image, evs: seq<Event>): (r: Image)
    requires |init| == y.nblocks && EventsFit(y, evs)
    ensures |r| == y.nblocks
  {
    Apply(init, Writes(evs))
  }

  lemma EffectSnoc(y: Layout, init: Image, evs: seq<Event>, e: Event)
    requires |init| == y.nblocks && EventsFit(y, evs) && y.Home(e.w.b) && |e.w.v| == y.words
    ensures EventsFit(y, evs + [e])
    ensures Effect(y, init, evs + [e]) == Effect(y, init, evs)[e.w.b := e.w.v]
  {
    assert Writes(evs + [e]) == Writes(evs) + [e.w];
    ApplySnoc(init, Writes(evs), e.w);
  }

  /** The writes of one operation, in order. */
  function Of(evs: seq<Event>, p: nat): seq<Event>
    decreases |evs|
  {
    if evs == [] then []
    else
      var last := evs[|evs| - 1];
      Of(evs[..|evs| - 1], p) + if last.op == p then [last] else []
  }

  lemma {:induction false} OfAppend(a: seq<Event>, b: seq<Event>, p: nat)
    ensures Of(a + b, p) == Of(a, p) + Of(b, p)
    decreases |b|
  {
    if b == [] {
      assert a + b == a;
    } else {
      assert (a + b)[..|a + b| - 1] == a + b[..|b| - 1];
      OfAppend(a, b[..|b| - 1], p);
    }
  }

  // ----- invariant: who is doing what

  /** Open operations are counted, and a commit or a recovery has the log to itself. */
  ghost predicate CountInv(s: State) {
    && s.outstanding == |s.active| && s.tested <= s.active.Keys <= s.used
    && (s.committing <==> s.phase.Commit?) && (!s.phase.Idle? ==> s.active == map[])
    && (s.phase.Recover? ==> s.lh == [] && s.cur == [])
    && (s.active == map[] && s.phase.Idle? ==> s.lh == [])
  }

  lemma CountStep(y: Layout, s: State, a: Step)
    requires CountInv(s) && Enabled(y, s, a)
    ensures CountInv(Do(y, s, a))
  {
    match a
    case BeginOp(p) => assert Do(y, s, a).active.Keys == s.active.Keys + {p};
    case EndOp(p) => CountEnd(y, s, p);
    case LogAppend(p, w) => assert Do(y, s, a).active.Keys == s.active.Keys;
    case _ =>
  }

  lemma CountEnd(y: Layout, s: State, p: nat)
    requires CountInv(s) && Enabled(y, s, EndOp(p))
    ensures CountInv(Do(y, s, EndOp(p)))
  {
    var t := Do(y, s, EndOp(p));
    assert t.active.Keys == s.active.Keys - {p};
    assert t.active == map[] <==> t.active.Keys == {};
  }

  // ----- invariant: the disk

  /** Between recovery and the next crash. */
  ghost predicate UpOk(y: Layout, init: Image, s: State)
    requires |init| == y.nblocks && EventsFit(y, s.done + s.cur)
  {
    && ImageOk(y, s.view) && GoodList(y, s.lh)
    && SameHome(y, s.view, Effect(y, init, s.done + s.cur))
    && (forall i | 0 <= i < |s.cur| :: s.cur[i].w.b in s.lh)
  }

  ghost predicate PhaseOk(y: Layout, init: Image, s: State)
    requires ImageOk(y, init) && EventsFit(y, s.done + s.cur)
  {
    match s.phase
    case Idle => UpOk(y, init, s) && CommitEntry(y, s.disk, s.view, s.lh) && RegionSame(y, s.disk, s.view)
    case Commit(pc, base, shown) => UpOk(y, init, s) && CommitAtPc(y, s, pc, base, shown)
    case Recover(pc, base) => DiskOk(y, base) && pc <= RecoverLen(y, base) && s.disk == RecoverPrefix(y, base, pc)
  }

  /** pc writes into the commit of a transaction found with disk `base` and cache `shown`. */
  ghost predicate CommitAtPc(y: Layout, s: State, pc: nat, base: Image, shown: Image) {
    && CommitEntry(y, base, shown, s.lh) && RegionSame(y, base, shown) && pc <= CommitLen(s.lh)
    && s.disk == CommitPrefix(y, base, shown, s.lh, pc) && s.view == Shown(y, base, shown, s.lh, pc)
    && (pc > |s.lh| ==> s.cur == [])
  }

  ghost predicate DiskInv(y: Layout, init: Image, s: State) {
    && ImageOk(y, init) && EventsFit(y, s.done + s.cur)
    && EventsFit(y, s.done)
    && DiskOk(y, s.disk) && DurableIs(y, s.disk, Effect(y, init, s.done))
    && CountInv(s)
    && PhaseOk(y, init, s)
  }

  lemma StartDisk(y: Layout, init: Image, s: State)
    requires Start(y, init, s)
    ensures DiskInv(y, init, s)
  {
    assert s.done + s.cur == [];
    assert Writes([]) == [];
  }

  /** Steps that change neither the disk nor what the cache shows. */
  lemma QuietKeepsDisk(y: Layout, init: Image, s: State, a: Step)
    requires DiskInv(y, init, s) && Enabled(y, s, a) && (a.BeginOp? || a.LogTest?)
    ensures DiskInv(y, init, Do(y, s, a))
  {
    CountStep(y, s, a);
  }

  /** The list, with one more block that is not the log's. */
  lemma AbsorbGood(y: Layout, lh: seq<nat>, b: nat)
    requires GoodList(y, lh) && y.Home(b) && |Absorb(lh, b)| <= y.logsize && |Absorb(lh, b)| < y.size
    ensures GoodList(y, Absorb(lh, b))
  {
  }

  lemma AppendEntry(y: Layout, d: Image, view: Image, lh: seq<nat>, w: Write)
    requires CommitEntry(y, d, view, lh) && RegionSame(y, d, view) && y.Home(w.b) && |w.v| == y.words
    requires GoodList(y, Absorb(lh, w.b))
    ensures CommitEntry(y, d, view[w.b := w.v], Absorb(lh, w.b)) && RegionSame(y, d, view[w.b := w.v])
  {
  }

  lemma AppendUp(y: Layout, init: Image, s: State, t: State, e: Event)
    requires |init| == y.nblocks && EventsFit(y, s.done + s.cur) && UpOk(y, init, s) && y.Home(e.w.b)
    requires |e.w.v| == y.words
    requires t.view == s.view[e.w.b := e.w.v] && t.lh == Absorb(s.lh, e.w.b) && GoodList(y, t.lh)
    requires t.done == s.done && t.cur == s.cur + [e]
    ensures EventsFit(y, t.done + t.cur) && UpOk(y, init, t)
  {
    assert t.done + t.cur == (s.done + s.cur) + [e];
    EffectSnoc(y, init, s.done + s.cur, e);
  }

  /** An idle log, from its parts. */
  lemma IdleDisk(y: Layout, init: Image, t: State)
    requires ImageOk(y, init) && EventsFit(y, t.done + t.cur) && EventsFit(y, t.done) && CountInv(t) && t.phase == Idle
    requires DiskOk(y, t.disk) && DurableIs(y, t.disk, Effect(y, init, t.done))
    requires UpOk(y, init, t) && CommitEntry(y, t.disk, t.view, t.lh) && RegionSame(y, t.disk, t.view)
    ensures DiskInv(y, init, t)
  {
  }

  lemma LogAppendKeepsDisk(y: Layout, init: Image, s: State, p: nat, w: Write)
    requires DiskInv(y, init, s) && Enabled(y, s, LogAppend(p, w))
    requires |Absorb(s.lh, w.b)| <= y.logsize && |Absorb(s.lh, w.b)| < y.size
    ensures DiskInv(y, init, Do(y, s, LogAppend(p, w)))
  {
    var t := Do(y, s, LogAppend(p, w));
    assert s.phase == Idle;
    CountStep(y, s, LogAppend(p, w));
    AbsorbGood(y, s.lh, w.b);
    AppendEntry(y, s.disk, s.view, s.lh, w);
    AppendUp(y, init, s, t, Event(p, w));
    IdleDisk(y, init, t);
  }

  lemma EndKeepsDisk(y: Layout, init: Image, s: State, p: nat)
    requires DiskInv(y, init, s) && Enabled(y, s, EndOp(p))
    ensures DiskInv(y, init, Do(y, s, EndOp(p)))
  {
    CountStep(y, s, EndOp(p));
  }

  /** The meaning of the disk across one commit write, for a disk that means `e`
      and a cache that holds `f`. */
  lemma CommitPrefixMeans(y: Layout, d: Image, view: Image, lh: seq<nat>, k: nat, e: Image, f: Image)
    requires CommitEntry(y, d, view, lh) && k < CommitLen(lh)
    requires |e| == |f| == y.nblocks && SameHome(y, view, f)
    requires DiskOk(y, CommitPrefix(y, d, view, lh, k)) && DurableIs(y, CommitPrefix(y, d, view, lh, k), e)
    ensures DiskOk(y, CommitPrefix(y, d, view, lh, k + 1))
    ensures DurableIs(y, CommitPrefix(y, d, view, lh, k + 1), if k < |lh| then e else f)
  {
    CommitIsAtomic(y, d, view, lh, k);
    CommitIsAtomic(y, d, view, lh, k + 1);
    forall b | 0 <= b < y.nblocks && y.Home(b)
      ensures Durable(y, CommitPrefix(y, d, view, lh, k + 1), b) == (if k < |lh| then e else f)[b]
    {
      assert k < |lh| ==> Durable(y, CommitPrefix(y, d, view, lh, k), b) == d[b] == e[b];
      assert view[b] == f[b];
    }
  }

  /** The step makes the write of the specification, on the disk and in the cache. */
  lemma CommitWriteStep(y: Layout, s: State, pc: nat, base: Image, shown: Image)
    requires s.phase == Commit(pc, base, shown) && CommitAtPc(y, s, pc, base, shown) && Enabled(y, s, CommitWrite)
    ensures var t := Do(y, s, CommitWrite);
            && t.disk == CommitPrefix(y, base, shown, s.lh, pc + 1) && t.view == Shown(y, base, shown, s.lh, pc + 1)
  {
    NextIsAt(y, base, shown, s.lh, pc);
  }

  lemma CommitWriteDurable(y: Layout, init: Image, s: State)
    requires DiskInv(y, init, s) && Enabled(y, s, CommitWrite)
    ensures var t := Do(y, s, CommitWrite);
            && EventsFit(y, t.done) && DiskOk(y, t.disk) && DurableIs(y, t.disk, Effect(y, init, t.done))
  {
    var pc, base, shown := s.phase.pc, s.phase.base, s.phase.shown;
    CommitWriteStep(y, s, pc, base, shown);
    ShownHome(y, base, shown, s.lh, pc);
    CommitPrefixMeans(y, base, shown, s.lh, pc, Effect(y, init, s.done), Effect(y, init, s.done + s.cur));
    assert s.done + [] == s.done;
  }

  lemma UpSame(y: Layout, init: Image, s: State, t: State)
    requires |init| == y.nblocks && EventsFit(y, s.done + s.cur) && UpOk(y, init, s)
    requires ImageOk(y, t.view) && SameHome(y, t.view, s.view) && t.lh == s.lh
    requires t.done + t.cur == s.done + s.cur && (t.cur == s.cur || t.cur == [])
    ensures UpOk(y, init, t)
  {
  }

  lemma ShownSteady(y: Layout, d: Image, view: Image, lh: seq<nat>, k: nat)
    requires CommitEntry(y, d, view, lh) && k < CommitLen(lh)
    ensures ImageOk(y, Shown(y, d, view, lh, k + 1))
    ensures SameHome(y, Shown(y, d, view, lh, k + 1), Shown(y, d, view, lh, k))
  {
    AfterOk(view, y, d, view, lh, k + 1);
    ShownHome(y, d, view, lh, k);
    ShownHome(y, d, view, lh, k + 1);
  }

  lemma CommitWriteEvents(y: Layout, s: State)
    requires Enabled(y, s, CommitWrite)
    ensures var t := Do(y, s, CommitWrite);
            t.done + t.cur == s.done + s.cur && (t.cur == s.cur || t.cur == []) && t.lh == s.lh
  {
    assert (s.done + s.cur) + [] == s.done + s.cur;
  }

  lemma CommitWriteUp(y: Layout, init: Image, s: State)
    requires DiskInv(y, init, s) && Enabled(y, s, CommitWrite)
    ensures EventsFit(y, Do(y, s, CommitWrite).done + Do(y, s, CommitWrite).cur) && UpOk(y, init, Do(y, s, CommitWrite))
  {
    var t := Do(y, s, CommitWrite);
    CommitWriteEvents(y, s);
    CommitWriteStep(y, s, s.phase.pc, s.phase.base, s.phase.shown);
    ShownSteady(y, s.phase.base, s.phase.shown, s.lh, s.phase.pc);
    UpSame(y, init, s, t);
  }

  lemma CommitWritePhase(y: Layout, s: State, pc: nat, base: Image, shown: Image)
    requires s.phase == Commit(pc, base, shown) && CommitAtPc(y, s, pc, base, shown) && Enabled(y, s, CommitWrite)
    ensures CommitAtPc(y, Do(y, s, CommitWrite), pc + 1, base, shown)
  {
    CommitWriteStep(y, s, pc, base, shown);
  }

  lemma CommitWriteParts(y: Layout, init: Image, s: State)
    requires DiskInv(y, init, s) && Enabled(y, s, CommitWrite)
    ensures var t := Do(y, s, CommitWrite);
            EventsFit(y, t.done + t.cur) && PhaseOk(y, init, t)
  {
    CommitWriteUp(y, init, s);
    CommitWritePhase(y, s, s.phase.pc, s.phase.base, s.phase.shown);
  }

  lemma CommitWriteKeepsDisk(y: Layout, init: Image, s: State)
    requires DiskInv(y, init, s) && Enabled(y, s, CommitWrite)
    ensures DiskInv(y, init, Do(y, s, CommitWrite))
  {
    CountStep(y, s, CommitWrite);
    CommitWriteDurable(y, init, s);
    CommitWriteParts(y, init, s);
  }

  lemma CommitDoneKeepsDisk(y: Layout, init: Image, s: State)
    requires DiskInv(y, init, s) && Enabled(y, s, CommitDone)
    ensures DiskInv(y, init, Do(y, s, CommitDone))
  {
    var pc, base, shown := s.phase.pc, s.phase.base, s.phase.shown;
    CountStep(y, s, CommitDone);
    CommitIsAtomic(y, base, shown, s.lh, pc);
    ShownHome(y, base, shown, s.lh, pc);
    ShownRegion(y, base, shown, s.lh, pc);
    assert s.cur == [];
  }

  lemma CrashKeepsDisk(y: Layout, init: Image, s: State)
    requires DiskInv(y, init, s)
    ensures DiskInv(y, init, Do(y, s, CrashNow))
  {
    assert s.done + [] == s.done;
  }

  lemma RecoverPrefixStep(y: Layout, d: Image, k: nat, e: Image)
    requires DiskOk(y, d) && k < RecoverLen(y, d) && |e| == y.nblocks
    requires DiskOk(y, RecoverPrefix(y, d, k)) && DurableIs(y, RecoverPrefix(y, d, k), e)
    ensures DiskOk(y, RecoverPrefix(y, d, k + 1)) && DurableIs(y, RecoverPrefix(y, d, k + 1), e)
  {
    RecoveryIsAtomic(y, d, k);
    RecoveryIsAtomic(y, d, k + 1);
  }

  lemma RecoverWriteKeepsDisk(y: Layout, init: Image, s: State)
    requires DiskInv(y, init, s) && Enabled(y, s, RecoverWrite)
    ensures DiskInv(y, init, Do(y, s, RecoverWrite))
  {
    CountStep(y, s, RecoverWrite);
    RecoverPrefixStep(y, s.phase.base, s.phase.pc, Effect(y, init, s.done));
  }

  lemma RecoverDoneKeepsDisk(y: Layout, init: Image, s: State)
    requires DiskInv(y, init, s) && Enabled(y, s, RecoverDone)
    ensures DiskInv(y, init, Do(y, s, RecoverDone))
  {
    CountStep(y, s, RecoverDone);
    RecoveryIsAtomic(y, s.phase.base, s.phase.pc);
    assert s.done + s.cur == s.done;
  }
}
