/** Whom wait waits for (proc.c): the run between going to sleep in wait and running again. */
module ProcWaits {
  import opened Wrappers
  import opened Procs
  import opened ProcRuns
  import opened ProcTree
  import opened ProcBirths
  import opened ProcWakeups
  import ProcTheorems

  /** p went to sleep in wait with step i of the run, and has not run since. */
  ghost predicate WaitsSince(steps: seq<Step>, p: nat, i: nat) {
    && i < |steps| && steps[i].WaitSleep? && steps[i].p == p
    && forall j | i < j < |steps| :: !Picks(steps[j], p)
  }

  predicate Picks(a: Step, p: nat) {
    a.SchedPick? && a.p == p
  }

  /** Runnable, or asleep where the exit of a child is heard. */
  predicate Hears(s: State, p: nat) {
    && p < |s.procs|
    && (s.procs[p].st == Runnable || (s.procs[p].st == Sleeping && s.procs[p].chan == OfProc(p)))
  }

  /** Only the scheduler takes a process out of Runnable. */
  lemma StaysRunnable(s: State, a: Step, p: nat)
    requires TreeInv(s) && Enabled(s, a) && p < |s.procs| && s.procs[p].st == Runnable && !Picks(a, p)
    ensures |Do(s, a).procs| == |s.procs| && Do(s, a).procs[p].st == Runnable
  {
    if InFork(a) {
      MakerStates(s, a.p);
    } else if a.ExitNow? {
      ExitField(s.procs, a.p, s.init, p);
    }
  }

  lemma HearsStep(s: State, a: Step, p: nat)
    requires TreeInv(s) && Enabled(s, a) && Hears(s, p) && !Picks(a, p)
    ensures Hears(Do(s, a), p)
  {
    if s.procs[p].st == Runnable {
      StaysRunnable(s, a, p);
    } else {
      StepWakes(s, a, p);
    }
  }

  lemma {:induction false} HearsSince(ss: seq<State>, steps: seq<Step>, p: nat, i: nat)
    requires IsTrace(ss, steps) && WaitsSince(steps, p, i)
    ensures Hears(ss[|steps|], p)
    decreases |steps|
  {
    var n := |steps|;
    TraceBefore(ss, steps);
    if i < n - 1 {
      var before := steps[..n - 1];
      assert forall j | i < j < n - 1 :: before[j] == steps[j];
      HearsSince(ss[..n], before, p, i);
      assert ss[..n][n - 1] == ss[n - 1];
      assert !Picks(steps[n - 1], p);
      HearsStep(ss[n - 1], steps[n - 1], p);
    }
  }

  /** NOBODY WAITS IN VAIN. In every run, a process that went to sleep in wait and has not run
      since is runnable, or has a child that is alive and none that is a zombie. */
  lemma WaiterIsOwed(ss: seq<State>, steps: seq<Step>, p: nat, i: nat)
    requires IsTrace(ss, steps) && WaitsSince(steps, p, i)
    ensures var s := ss[|steps|];
            && p < |s.procs|
            && (s.procs[p].st == Runnable
                || (&& s.procs[p].st == Sleeping
                    && (exists k | 0 <= k < |s.procs| ::
                          s.procs[k].parent == Some(p) && s.procs[k].st != Zombie && s.procs[k].st != Unused)
                    && forall k | 0 <= k < |s.procs| && s.procs[k].parent == Some(p) :: s.procs[k].st != Zombie))
  {
    HearsSince(ss, steps, p, i);
    TraceIsRun(ss, steps);
    if ss[|steps|].procs[p].st == Sleeping {
      WaiterHasChild(ss, p);
      ProcTheorems.NoSleeperHasZombie(ss, p);
    }
  }

  /** AN EXIT IS HEARD. In every run, a process that went to sleep in wait and has not run since
      is runnable after the exit of any of its children. */
  lemma ExitIsHeard(ss: seq<State>, steps: seq<Step>, p: nat, i: nat, k: nat, c: nat)
    requires IsTrace(ss, steps) && WaitsSince(steps, p, i)
    requires Enabled(ss[|steps|], ExitNow(k, c)) && ss[|steps|].procs[k].parent == Some(p)
    ensures var t := Do(ss[|steps|], ExitNow(k, c));
            p < |t.procs| && t.procs[p].st == Runnable && t.procs[k].st == Zombie && t.procs[k].parent == Some(p)
  {
    var s := ss[|steps|];
    HearsSince(ss, steps, p, i);
    TraceIsRun(ss, steps);
    ProcTheorems.RunKeepsInv(ss);
    if s.procs[p].st == Sleeping {
      StepWakes(s, ExitNow(k, c), p);
    } else {
      StaysRunnable(s, ExitNow(k, c), p);
    }
    ExitField(s.procs, k, s.init, k);
    assert SlotOk(s, k);
  }
}
