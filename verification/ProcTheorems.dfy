/** What holds whenever ptable.lock is free, and in between, over every run (proc.c). */
module ProcTheorems {
  import opened Wrappers
  import opened Procs
  import opened ProcRuns
  import opened ProcTree

  ghost predicate BooksOk(s: State) {
    forall vm :: BookOk(s, vm)
  }

  ghost predicate Inv(s: State) {
    CpuInv(s) && TreeInv(s) && WaitInv(s) && BooksOk(s)
  }

  // ----- steps that leave the tree alone

  /** Slots agree for the tree, and nobody has gone to sleep in wait. */
  predicate StillSlot(q: Proc, r: Proc) {
    SameSlot(q, r) && (r.st == Sleeping && r.chan.OfProc? ==> q.st == Sleeping && r.chan == q.chan)
  }

  ghost predicate Still(s: State, t: State) {
    && |t.procs| == |s.procs| && t.init == s.init && t.nextpid == s.nextpid && t.stacks == s.stacks && t.vms == s.vms
    && forall p | 0 <= p < |s.procs| :: StillSlot(s.procs[p], t.procs[p])
  }

  lemma BooksFrame(s: State, t: State)
    requires BooksOk(s) && |t.procs| == |s.procs| && t.stacks == s.stacks && t.vms == s.vms && t.nextpid == s.nextpid
    requires forall p | 0 <= p < |s.procs| ::
               t.procs[p].stack == s.procs[p].stack && t.procs[p].pgdir == s.procs[p].pgdir
                 && t.procs[p].pid == s.procs[p].pid
    requires forall p | 0 <= p < |s.procs| && t.procs[p].st == Embryo :: s.procs[p].st == Embryo
    ensures BooksOk(t)
  {
    forall vm
      ensures BookOk(t, vm)
    {
      assert BookOk(s, vm);
      BookFrame(s, t, vm);
    }
  }

  lemma StillKeeps(s: State, t: State)
    requires Inv(s) && Still(s, t)
    ensures TreeInv(t) && WaitInv(t) && BooksOk(t)
  {
    TreeFrame(s, t);
    WaitFrame(s, t);
    BooksFrame(s, t);
  }

  lemma LockSteps(s: State, a: Step)
    requires Inv(s) && Enabled(s, a)
    requires a.SchedAcquire? || a.SchedRelease? || a.ProcAcquire? || a.ProcRelease?
    ensures Inv(Do(s, a))
  {
    var t := Do(s, a);
    assert t.procs == s.procs;
    StillKeeps(s, t);
    if a.SchedAcquire? {
      assert forall q: nat, d: nat :: OnCpu(t, q, d) <==> OnCpu(s, q, d);
    } else {
      CpuFrame(s, t);
    }
  }

  lemma StillSteps(s: State, a: Step)
    requires Enabled(s, a)
    requires (a.WakeupAll? || a.IntrWakeup? || a.Kill? || a.SchedPick? || a.SchedBack? || a.Yield? || a.Sleep?)
    ensures Still(s, Do(s, a))
  {
  }

  lemma WakeSteps(s: State, a: Step)
    requires Inv(s) && Enabled(s, a) && (a.WakeupAll? || a.IntrWakeup? || a.Kill?)
    ensures Inv(Do(s, a))
  {
    var t := Do(s, a);
    StillSteps(s, a);
    StillKeeps(s, t);
    CpuFrame(s, t);
  }

  lemma SwitchSteps(s: State, a: Step)
    requires Inv(s) && Enabled(s, a) && (a.SchedPick? || a.SchedBack? || a.Yield? || a.Sleep?)
    ensures Inv(Do(s, a))
  {
    var t := Do(s, a);
    StillSteps(s, a);
    StillKeeps(s, t);
    match a
    case SchedPick(c, p) => CpuPick(s, c, p);
    case SchedBack(c) => CpuBack(s, c);
    case Yield(p, c) => CpuLeave(s, t, p, c);
    case Sleep(p, c, _) => CpuLeave(s, t, p, c);
  }

  // ----- wait and exit

  lemma WaitSleepStep(s: State, p: nat, c: nat)
    requires Inv(s) && Enabled(s, WaitSleep(p, c))
    ensures Inv(Do(s, WaitSleep(p, c)))
  {
    var t := Do(s, WaitSleep(p, c));
    CpuLeave(s, t, p, c);
    TreeFrame(s, t);
    WaitSleepKeeps(s, p, c);
    BooksFrame(s, t);
  }

  lemma ReapStep(s: State, p: nat, k: nat)
    requires Inv(s) && Enabled(s, WaitReap(p, k))
    ensures Inv(Do(s, WaitReap(p, k)))
  {
    var t := Do(s, WaitReap(p, k));
    assert SlotOk(s, k);
    CpuFrame(s, t);
    TreeReap(s, p, k);
    WaitFrame(s, t);
    BookGone(s, t, false, k);
    BookGone(s, t, true, k);
  }

  lemma ExitStep(s: State, p: nat, c: nat)
    requires Inv(s) && Enabled(s, ExitNow(p, c))
    ensures Inv(Do(s, ExitNow(p, c)))
  {
    TreeExit(s, p, c);
    WaitExit(s, p, c);
    ExitCpuBooks(s, p, c);
  }

  lemma ExitCpuBooks(s: State, p: nat, c: nat)
    requires Inv(s) && Enabled(s, ExitNow(p, c))
    ensures CpuInv(Do(s, ExitNow(p, c))) && BooksOk(Do(s, ExitNow(p, c)))
  {
    var t := Do(s, ExitNow(p, c));
    forall q | 0 <= q < |s.procs|
      ensures ExitKeeps(s.procs[q], t.procs[q]) && (t.procs[q].st == Running <==> s.procs[q].st == Running && q != p)
    {
      ExitedAt(s.procs, p, s.init, q);
    }
    CpuLeave(s, t, p, c);
    BooksFrame(s, t);
  }

  /** What exit leaves in every slot. */
  predicate ExitKeeps(q: Proc, r: Proc) {
    r.stack == q.stack && r.pgdir == q.pgdir && r.pid == q.pid && (r.st == Embryo ==> q.st == Embryo)
  }

  // ----- fork

  lemma AllocStep(s: State, p: nat, np: nat)
    requires Inv(s) && Enabled(s, AllocSlot(p, np))
    ensures Inv(Do(s, AllocSlot(p, np)))
  {
    var t := Do(s, AllocSlot(p, np));
    CpuFrame(s, t);
    TreeAlloc(s, p, np);
    WaitFrame(s, t);
    BookAlloc(s, p, np, false);
    BookAlloc(s, p, np, true);
  }

  lemma MakerRuns(s: State, p: nat)
    requires TreeInv(s) && Makes(s, p)
    ensures s.procs[p].making.value != p && s.procs[s.procs[p].making.value].st == Embryo
  {
    assert SlotOk(s, p);
  }

  /** Every step of fork after the slot is taken: only the embryo and its maker change. */
  lemma ForkSteps(s: State, a: Step, p: nat)
    requires Inv(s) && Enabled(s, a)
    requires a == StackOk(p) || a == CopyOk(p) || a == MakeRunnable(p) || a == StackFail(p) || a == CopyFail(p)
    ensures Inv(Do(s, a))
  {
    var t := Do(s, a);
    MakerRuns(s, p);
    ForkFrame(s, a, p);
    CpuFrame(s, t);
    TreeMake(s, a, p);
    WaitFrame(s, t);
    ForkBooks(s, a, p);
  }

  lemma ForkBooks(s: State, a: Step, p: nat)
    requires TreeInv(s) && BooksOk(s) && Enabled(s, a)
    requires a == StackOk(p) || a == CopyOk(p) || a == MakeRunnable(p) || a == StackFail(p) || a == CopyFail(p)
    ensures BooksOk(Do(s, a))
  {
    MakerRuns(s, p);
    ForkFrame(s, a, p);
    if a == StackOk(p) || a == CopyOk(p) {
      ForkGets(s, a, p);
    } else if a == CopyFail(p) {
      ForkFails(s, p);
    } else {
      BooksFrame(s, Do(s, a));
    }
  }

  lemma ForkGets(s: State, a: Step, p: nat)
    requires TreeInv(s) && BooksOk(s) && Enabled(s, a) && (a == StackOk(p) || a == CopyOk(p))
    ensures BooksOk(Do(s, a))
  {
    var t, np, vm := Do(s, a), s.procs[p].making.value, a == CopyOk(p);
    assert BookOk(s, false) && BookOk(s, true);
    MakerRuns(s, p);
    BookMade(s, t, vm, np);
    BookFrame(s, t, !vm);
    assert vm || !vm;
  }

  lemma ForkFails(s: State, p: nat)
    requires TreeInv(s) && BooksOk(s) && Enabled(s, CopyFail(p))
    ensures BooksOk(Do(s, CopyFail(p)))
  {
    var t, np := Do(s, CopyFail(p)), s.procs[p].making.value;
    assert BookOk(s, false) && BookOk(s, true);
    MakerRuns(s, p);
    BookGone(s, t, false, np);
    BookFrame(s, t, true);
  }

  lemma ForkFrame(s: State, a: Step, p: nat)
    requires Makes(s, p) && Enabled(s, a) && s.procs[p].making.value != p
    requires s.procs[s.procs[p].making.value].st == Embryo
    requires a == StackOk(p) || a == CopyOk(p) || a == MakeRunnable(p) || a == StackFail(p) || a == CopyFail(p)
    ensures var t, np := Do(s, a), s.procs[p].making.value;
            && |t.procs| == |s.procs| && t.procs[np].st in {Embryo, Runnable, Unused}
               && t.procs[np].pid == s.procs[np].pid
            && t.procs[p] == s.procs[p].(making := t.procs[p].making)
            && forall q | 0 <= q < |s.procs| && q != p && q != np :: t.procs[q] == s.procs[q]
  {
  }

  lemma StartOk(s: State)
    requires Start(s)
    ensures Inv(s)
  {
    assert Holding(s, false, 1, s.init) && Holding(s, true, 1, s.init);
    forall p | 0 <= p < |s.procs|
      ensures SlotOk(s, p) && WaitOk(s, p)
    {
    }
  }

  lemma StepKeepsInv(s: State, a: Step)
    requires Inv(s) && Enabled(s, a)
    ensures Inv(Do(s, a))
  {
    match a
    case WaitSleep(p, c) => WaitSleepStep(s, p, c);
    case WaitReap(p, k) => ReapStep(s, p, k);
    case ExitNow(p, c) => ExitStep(s, p, c);
    case AllocSlot(p, np) => AllocStep(s, p, np);
    case StackFail(p) => ForkSteps(s, a, p);
    case StackOk(p) => ForkSteps(s, a, p);
    case CopyFail(p) => ForkSteps(s, a, p);
    case CopyOk(p) => ForkSteps(s, a, p);
    case MakeRunnable(p) => ForkSteps(s, a, p);
    case WakeupAll(_, _) => WakeSteps(s, a);
    case IntrWakeup(_, _) => WakeSteps(s, a);
    case Kill(_, _) => WakeSteps(s, a);
    case SchedPick(_, _) => SwitchSteps(s, a);
    case SchedBack(_) => SwitchSteps(s, a);
    case Yield(_, _) => SwitchSteps(s, a);
    case Sleep(_, _, _) => SwitchSteps(s, a);
    case SchedAcquire(_) => LockSteps(s, a);
    case SchedRelease(_) => LockSteps(s, a);
    case ProcAcquire(_) => LockSteps(s, a);
    case ProcRelease(_) => LockSteps(s, a);
  }

  lemma {:induction false} RunKeepsInv(ss: seq<State>)
    requires IsRun(ss)
    ensures Inv(ss[|ss| - 1])
    decreases |ss|
  {
    if |ss| == 1 {
      StartOk(ss[0]);
    } else {
      var before := ss[..|ss| - 1];
      RunKeepsInv(before);
      var s, t := ss[|ss| - 2], ss[|ss| - 1];
      assert Next(ss[|ss| - 2], ss[|ss| - 2 + 1]);
      var a :| Enabled(s, a) && t == Do(s, a);
      StepKeepsInv(s, a);
    }
  }

  /** SCHEDULER SAFETY. In every run, whenever ptable.lock is free, a process is
      RUNNING if and only if it is some CPU's process, and of one CPU only. */
  lemma RunningIffOnOneCpu(ss: seq<State>, p: nat)
    requires IsRun(ss) && ss[|ss| - 1].lock == Free && p < |ss[|ss| - 1].procs|
    ensures var s := ss[|ss| - 1];
            && (s.procs[p].st == Running <==> exists c: nat :: c < |s.cpus| && s.cpus[c] == Some(p))
            && forall c: nat, d: nat | c < |s.cpus| && d < |s.cpus| && s.cpus[c] == s.cpus[d] == Some(p) :: c == d
  {
    RunKeepsInv(ss);
    var s := ss[|ss| - 1];
    if s.procs[p].st == Running {
      var c: nat :| OnCpu(s, p, c);
    }
    if c: nat :| c < |s.cpus| && s.cpus[c] == Some(p) {
      assert OnCpu(s, p, c);
    }
    forall c: nat, d: nat | c < |s.cpus| && d < |s.cpus| && s.cpus[c] == s.cpus[d] == Some(p)
      ensures c == d
    {
      assert OnCpu(s, p, c) && OnCpu(s, p, d);
    }
  }

  ghost predicate ChildOf(s: State, p: nat, q: nat) {
    p < |s.procs| && q < |s.procs| && s.procs[p].parent == Some(q) && Alive(s.procs[q])
  }

  /** `anc` is a chain of live parents from p to init. */
  ghost predicate Ancestry(s: State, p: nat, anc: seq<nat>)
    decreases |anc|
  {
    && |anc| > 0 && anc[0] == p
    && if |anc| == 1 then p == s.init else ChildOf(s, p, anc[1]) && Ancestry(s, anc[1], anc[1..])
  }

  lemma {:induction false} ReachesInit(s: State, p: nat) returns (anc: seq<nat>)
    requires TreeInv(s) && p < |s.procs| && (Alive(s.procs[p]) || s.procs[p].st == Zombie)
    ensures Ancestry(s, p, anc)
    decreases s.procs[p].pid
  {
    assert SlotOk(s, p);
    if p == s.init {
      anc := [p];
    } else {
      var rest := ReachesInit(s, s.procs[p].parent.value);
      anc := [p] + rest;
      assert anc[1..] == rest;
    }
  }

  /** PARENTS FORM A TREE. In every run every process that has not been reaped has a
      chain of live parents up to init, and only live processes have children. */
  lemma TreeRootedAtInit(ss: seq<State>, p: nat)
    requires IsRun(ss) && p < |ss[|ss| - 1].procs|
    ensures var s := ss[|ss| - 1];
            && (Alive(s.procs[p]) || s.procs[p].st == Zombie ==> exists anc :: Ancestry(s, p, anc))
            && (!Alive(s.procs[p]) ==> forall k | 0 <= k < |s.procs| :: s.procs[k].parent != Some(p))
  {
    RunKeepsInv(ss);
    var s := ss[|ss| - 1];
    if Alive(s.procs[p]) || s.procs[p].st == Zombie {
      var anc := ReachesInit(s, p);
    }
    if !Alive(s.procs[p]) {
      forall k | 0 <= k < |s.procs|
        ensures s.procs[k].parent != Some(p)
      {
        if s.procs[k].parent == Some(p) {
          ChildlessUnlessAlive(s, p, k);
        }
      }
    }
  }

  /** NO ZOMBIE IS MISSED. In every run nobody sleeps in wait with a zombie child. */
  lemma NoSleeperHasZombie(ss: seq<State>, p: nat)
    requires IsRun(ss) && p < |ss[|ss| - 1].procs|
    ensures var s := ss[|ss| - 1];
            s.procs[p].st == Sleeping && s.procs[p].chan == OfProc(p) ==> !HasZombieChild(s.procs, p)
  {
    RunKeepsInv(ss);
    assert WaitOk(ss[|ss| - 1], p);
  }

  /** FREED EXACTLY ONCE. In every run a pid that got a kernel stack, or a page table, has
      either given it back exactly once and no slot holds it, or not at all and one does. */
  lemma FreedOnce(ss: seq<State>, vm: bool, x: nat)
    requires IsRun(ss)
    ensures var s := ss[|ss| - 1];
            var l := Book(s, vm);
            && multiset(l.freed)[x] <= 1
            && (x in l.made <==> x in l.freed || exists p: nat :: Holding(s, vm, x, p))
            && !(x in l.freed && exists p: nat :: Holding(s, vm, x, p))
  {
    RunKeepsInv(ss);
    assert BookOk(ss[|ss| - 1], vm);
    CountDistinct(Book(ss[|ss| - 1], vm).freed, x);
  }

  lemma {:induction false} CountDistinct(xs: seq<nat>, x: nat)
    requires forall i, j | 0 <= i < j < |xs| :: xs[i] != xs[j]
    ensures multiset(xs)[x] <= 1
    decreases |xs|
  {
    if xs != [] {
      var rest := xs[..|xs| - 1];
      CountDistinct(rest, x);
      assert xs == rest + [xs[|xs| - 1]];
      assert x == xs[|xs| - 1] ==> x !in rest;
    }
  }
}
