/** Who is woken, and by what; how a slot lives, and until when it is marked killed (proc.c). */
module ProcWakeups {
  import opened Wrappers
  import opened Procs
  import opened ProcRuns
  import opened ProcTree
  import ProcTheorems
  import Monitor

  // ----- wakeups

  /** Step a is a wakeup on the channel on which slot q sleeps, or kills q, or is the exit of a
      child of the process in that slot, or of a parent of zombies if that process is init. */
  ghost predicate Wakes(s: State, a: Step, q: nat)
    requires q < |s.procs|
  {
    match a
    case WakeupAll(_, x) => s.procs[q].chan == Other(x)
    case IntrWakeup(_, x) => s.procs[q].chan == Other(x)
    case Kill(_, k) => k == q
    case ExitNow(p, _) =>
      p < |s.procs| && s.procs[p].parent.Some?
      && (|| s.procs[q].chan == OfProc(s.procs[p].parent.value)
          || (s.procs[q].chan == OfProc(s.init) && HasZombieChild(s.procs, p)))
    case _ => false
  }

  /** fork touches no slot but its embryo and its maker. */
  lemma MakerNotAsleep(s: State, p: nat, q: nat)
    requires TreeInv(s) && Makes(s, p) && q < |s.procs| && s.procs[q].st == Sleeping
    ensures q != p && q != s.procs[p].making.value
  {
    assert SlotOk(s, p);
  }

  /** EXACT WAKEUPS. In every run a step makes a sleeper runnable if and only if it is a wakeup
      on its channel, a kill of it, or the exit it waits for; otherwise it goes on sleeping
      where it was. */
  lemma WokenIff(ss: seq<State>, a: Step, q: nat)
    requires IsRun(ss) && Enabled(ss[|ss| - 1], a) && q < |ss[|ss| - 1].procs|
    requires ss[|ss| - 1].procs[q].st == Sleeping
    ensures var s := ss[|ss| - 1];
            var r := Do(s, a).procs[q];
            if Wakes(s, a, q) then r.st == Runnable else r.st == Sleeping && r.chan == s.procs[q].chan
  {
    ProcTheorems.RunKeepsInv(ss);
    StepWakes(ss[|ss| - 1], a, q);
  }

  lemma StepWakes(s: State, a: Step, q: nat)
    requires TreeInv(s) && Enabled(s, a) && q < |s.procs| && s.procs[q].st == Sleeping
    ensures |Do(s, a).procs| == |s.procs|
    ensures var r := Do(s, a).procs[q];
            if Wakes(s, a, q) then r.st == Runnable else r.st == Sleeping && r.chan == s.procs[q].chan
  {
    if InFork(a) {
      ForkWakes(s, a, q);
    } else if a.ExitNow? {
      ExitField(s.procs, a.p, s.init, q);
    }
  }

  predicate InFork(a: Step) {
    a.StackFail? || a.StackOk? || a.CopyFail? || a.CopyOk? || a.MakeRunnable?
  }

  lemma ForkWakes(s: State, a: Step, q: nat)
    requires TreeInv(s) && Enabled(s, a) && q < |s.procs| && s.procs[q].st == Sleeping && InFork(a)
    ensures |Do(s, a).procs| == |s.procs| && Do(s, a).procs[q] == s.procs[q]
  {
    MakerNotAsleep(s, a.p, q);
  }

  /** A sleeper's children stay its children. */
  lemma ChildStays(s: State, a: Step, q: nat, k: nat)
    requires TreeInv(s) && Enabled(s, a) && q < |s.procs| && k < |s.procs|
    requires s.procs[q].st == Sleeping && s.procs[k].parent == Some(q)
    ensures |Do(s, a).procs| == |s.procs| && Do(s, a).procs[k].parent == Some(q)
  {
    if InFork(a) {
      ForkChild(s, a, q, k);
    } else if a.ExitNow? {
      ExitField(s.procs, a.p, s.init, k);
    }
  }

  lemma ForkChild(s: State, a: Step, q: nat, k: nat)
    requires TreeInv(s) && Enabled(s, a) && k < |s.procs| && InFork(a) && s.procs[k].parent == Some(q)
    ensures |Do(s, a).procs| == |s.procs| && Do(s, a).procs[k].parent == Some(q)
  {
    assert SlotOk(s, a.p) && SlotOk(s, s.procs[a.p].making.value);
  }

  /** Whoever sleeps in wait has a child. */
  ghost predicate KidInv(s: State) {
    forall q | 0 <= q < |s.procs| && s.procs[q].st == Sleeping && s.procs[q].chan == OfProc(q) :: HasChild(s.procs, q)
  }

  lemma KidStep(s: State, a: Step)
    requires TreeInv(s) && KidInv(s) && Enabled(s, a)
    ensures KidInv(Do(s, a))
  {
    var t := Do(s, a);
    forall q | 0 <= q < |t.procs| && t.procs[q].st == Sleeping && t.procs[q].chan == OfProc(q)
      ensures HasChild(t.procs, q)
    {
      SleptBefore(s, a, q);
      var k :| 0 <= k < |s.procs| && s.procs[k].parent == Some(q);
      if s.procs[q].st == Sleeping {
        ChildStays(s, a, q, k);
      }
      assert t.procs[k].parent == Some(q);
    }
  }

  /** A process asleep in wait slept there before, or has just gone to sleep with a child. */
  lemma SleptBefore(s: State, a: Step, q: nat)
    requires TreeInv(s) && KidInv(s) && Enabled(s, a) && q < |Do(s, a).procs|
    requires Do(s, a).procs[q].st == Sleeping && Do(s, a).procs[q].chan == OfProc(q)
    ensures |Do(s, a).procs| == |s.procs| && HasChild(s.procs, q)
    ensures s.procs[q].st == Sleeping || (a.WaitSleep? && a.p == q)
  {
    SameTable(s, a);
    if s.procs[q].st == Sleeping {
      StepWakes(s, a, q);
    } else {
      FellAsleep(s, a, q);
    }
  }

  lemma SameTable(s: State, a: Step)
    requires TreeInv(s) && Enabled(s, a)
    ensures |Do(s, a).procs| == |s.procs|
  {
    StepEdges(s, a, s.init);
  }

  lemma FellAsleep(s: State, a: Step, q: nat)
    requires TreeInv(s) && Enabled(s, a) && q < |s.procs| == |Do(s, a).procs| && s.procs[q].st != Sleeping
    requires Do(s, a).procs[q].st == Sleeping && Do(s, a).procs[q].chan == OfProc(q)
    ensures a.WaitSleep? && a.p == q
  {
    assert s.procs[q].st == Running by {
      StepEdges(s, a, q);
    }
    OneSleeps(s, a, q);
  }

  lemma OneSleeps(s: State, a: Step, q: nat)
    requires Enabled(s, a) && q < |s.procs| == |Do(s, a).procs| && s.procs[q].st == Running
    requires Do(s, a).procs[q].st == Sleeping
    ensures (a.Sleep? || a.WaitSleep?) && a.p == q
  {
    if a.ExitNow? {
      ExitField(s.procs, a.p, s.init, q);
    }
  }

  lemma {:induction false} RunKids(ss: seq<State>)
    requires IsRun(ss)
    ensures KidInv(ss[|ss| - 1])
    decreases |ss|
  {
    if |ss| == 1 {
      StartKids(ss[0]);
    } else {
      var before := ss[..|ss| - 1];
      RunBefore(ss);
      RunKids(before);
      assert before[|before| - 1] == ss[|ss| - 2];
      NextKids(ss[|ss| - 2], ss[|ss| - 1]);
    }
  }

  lemma StartKids(s: State)
    requires Start(s)
    ensures KidInv(s)
  {
  }

  lemma RunBefore(ss: seq<State>)
    requires IsRun(ss) && |ss| > 1
    ensures IsRun(ss[..|ss| - 1]) && TreeInv(ss[|ss| - 2]) && Next(ss[|ss| - 2], ss[|ss| - 1])
  {
    var before := ss[..|ss| - 1];
    assert before[|before| - 1] == ss[|ss| - 2];
    ProcTheorems.RunKeepsInv(before);
    assert Next(ss[|ss| - 2], ss[|ss| - 2 + 1]);
  }

  lemma NextKids(s: State, t: State)
    requires TreeInv(s) && KidInv(s) && Next(s, t)
    ensures KidInv(t)
  {
    var a :| Enabled(s, a) && t == Do(s, a);
    KidStep(s, a);
  }

  /** A WAITER HAS A CHILD that is alive, in every run: nobody sleeps in wait for nothing. */
  lemma WaiterHasChild(ss: seq<State>, q: nat)
    requires IsRun(ss) && q < |ss[|ss| - 1].procs|
    requires ss[|ss| - 1].procs[q].st == Sleeping && ss[|ss| - 1].procs[q].chan == OfProc(q)
    ensures var s := ss[|ss| - 1];
            exists k | 0 <= k < |s.procs| ::
              s.procs[k].parent == Some(q) && s.procs[k].st != Zombie && s.procs[k].st != Unused
  {
    RunKids(ss);
    ProcTheorems.RunKeepsInv(ss);
    ProcTheorems.NoSleeperHasZombie(ss, q);
    var s := ss[|ss| - 1];
    var k :| 0 <= k < |s.procs| && s.procs[k].parent == Some(q);
    assert SlotOk(s, k);
  }

  /** Slot q of the table is asleep on an ordinary channel exactly as the monitor has it. */
  ghost predicate SameSleepers(ps: seq<Proc>, pc: map<Monitor.Pid, Monitor.At>) {
    forall q, c: nat | q in pc ::
      q < |ps| && (pc[q] == Monitor.Asleep(c) <==> ps[q].st == Sleeping && ps[q].chan == Other(c))
  }

  /** The monitor's scan is the table's. */
  lemma ScanIsWake(ps: seq<Proc>, pc: map<Monitor.Pid, Monitor.At>, c: nat)
    requires SameSleepers(ps, pc)
    ensures SameSleepers(Wake(ps, Other(c)), Monitor.Scan(pc, c))
    ensures forall q | q in pc && pc[q] == Monitor.Asleep(c) ::
              Monitor.Scan(pc, c)[q] == Monitor.Awake && Wake(ps, Other(c))[q].st == Runnable
  {
    var qs, pd := Wake(ps, Other(c)), Monitor.Scan(pc, c);
    forall q, d: nat | q in pd
      ensures q < |qs| && (pd[q] == Monitor.Asleep(d) <==> qs[q].st == Sleeping && qs[q].chan == Other(d))
    {
      assert pc[q] == Monitor.Asleep(d) <==> ps[q].st == Sleeping && ps[q].chan == Other(d);
      assert pc[q] == Monitor.Asleep(c) <==> ps[q].st == Sleeping && ps[q].chan == Other(c);
    }
  }

  /** So are its way of falling asleep and its kill. */
  lemma SleepIsSleep(s: State, pc: map<Monitor.Pid, Monitor.At>, p: nat, c: nat, x: nat)
    requires SameSleepers(s.procs, pc) && p in pc && pc[p] == Monitor.SleepHolds(x) && Enabled(s, Sleep(p, c, x))
    ensures SameSleepers(Do(s, Sleep(p, c, x)).procs, pc[p := Monitor.Asleep(x)])
  {
    Slept(s.procs, pc, Do(s, Sleep(p, c, x)).procs, pc[p := Monitor.Asleep(x)], p);
  }

  lemma KillIsKill(s: State, pc: map<Monitor.Pid, Monitor.At>, p: nat, k: nat)
    requires SameSleepers(s.procs, pc) && k in pc && pc[k].Asleep? && Enabled(s, Kill(p, k))
    requires s.procs[k].st == Sleeping
    ensures SameSleepers(Do(s, Kill(p, k)).procs, pc[k := Monitor.Awake])
  {
    Slept(s.procs, pc, Do(s, Kill(p, k)).procs, pc[k := Monitor.Awake], k);
  }

  lemma Slept(ps: seq<Proc>, pc: map<Monitor.Pid, Monitor.At>, qs: seq<Proc>, pd: map<Monitor.Pid, Monitor.At>, p: nat)
    requires SameSleepers(ps, pc) && pd.Keys == pc.Keys && |qs| == |ps|
    requires forall q | q in pc && q != p :: pd[q] == pc[q] && q < |ps| && qs[q] == ps[q]
    requires p in pc && p < |ps|
    requires forall c: nat :: pd[p] == Monitor.Asleep(c) <==> qs[p].st == Sleeping && qs[p].chan == Other(c)
    ensures SameSleepers(qs, pd)
  {
    forall q, c: nat | q in pd
      ensures q < |qs| && (pd[q] == Monitor.Asleep(c) <==> qs[q].st == Sleeping && qs[q].chan == Other(c))
    {
      assert pc[q] == Monitor.Asleep(c) <==> ps[q].st == Sleeping && ps[q].chan == Other(c);
    }
  }

  // ----- the life of a slot

  predicate Edge(a: PState, b: PState) {
    || a == b || (a == Unused && b == Embryo) || (a == Embryo && (b == Unused || b == Runnable))
    || (a == Runnable && b == Running) || (a == Running && (b == Runnable || b == Sleeping || b == Zombie))
    || (a == Sleeping && b == Runnable) || (a == Zombie && b == Unused)
  }

  lemma MakerStates(s: State, p: nat)
    requires TreeInv(s) && Makes(s, p)
    ensures s.procs[s.procs[p].making.value].st == Embryo && s.procs[p].making.value != p
  {
    assert SlotOk(s, p);
  }

  /** Every step moves every slot along an edge of the life cycle, and only kill and wait
      touch the mark of a killed process: it stays until the slot is reaped. */
  lemma LifeCycle(ss: seq<State>, a: Step, q: nat)
    requires IsRun(ss) && Enabled(ss[|ss| - 1], a) && q < |ss[|ss| - 1].procs|
    ensures var s := ss[|ss| - 1];
            var r := Do(s, a).procs[q];
            && Edge(s.procs[q].st, r.st)
            && (r.killed <==> (s.procs[q].killed && !(a.WaitReap? && a.k == q)) || (a.Kill? && a.k == q))
  {
    ProcTheorems.RunKeepsInv(ss);
    StepEdges(ss[|ss| - 1], a, q);
  }

  /** Slot r is what step a makes of slot q, for the life cycle and the mark. */
  predicate Lives(s: State, a: Step, q: nat, r: Proc) {
    && q < |s.procs| && Edge(s.procs[q].st, r.st)
    && (r.killed <==> (s.procs[q].killed && !(a.WaitReap? && a.k == q)) || (a.Kill? && a.k == q))
    && (r.st == Unused || r.st == Embryo ==>
          s.procs[q].st == Unused || s.procs[q].st == Embryo || (a.WaitReap? && a.k == q))
  }

  lemma ForkEdges(s: State, a: Step, q: nat)
    requires TreeInv(s) && Enabled(s, a) && q < |s.procs| && InFork(a)
    ensures |Do(s, a).procs| == |s.procs| && Lives(s, a, q, Do(s, a).procs[q])
  {
    MakerStates(s, a.p);
  }

  lemma ExitEdges(s: State, p: nat, c: nat, q: nat)
    requires Enabled(s, ExitNow(p, c)) && q < |s.procs|
    ensures |Do(s, ExitNow(p, c)).procs| == |s.procs| && Lives(s, ExitNow(p, c), q, Do(s, ExitNow(p, c)).procs[q])
  {
    ExitField(s.procs, p, s.init, q);
  }

  lemma StepEdges(s: State, a: Step, q: nat)
    requires TreeInv(s) && Enabled(s, a) && q < |s.procs|
    ensures |Do(s, a).procs| == |s.procs| && Lives(s, a, q, Do(s, a).procs[q])
  {
    if InFork(a) {
      ForkEdges(s, a, q);
    } else if a.ExitNow? {
      ExitEdges(s, a.p, a.c, q);
    }
  }
}
