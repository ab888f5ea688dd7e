/** Who is born killed (proc.c): kill looks at pids and not at states, so it can mark a slot in
    which there is no process yet. */
module ProcBirths {
  import opened Wrappers
  import opened Procs
  import opened ProcRuns
  import opened ProcTree
  import opened ProcWakeups
  import ProcTheorems

  /** A run together with its steps. */
  ghost predicate IsTrace(ss: seq<State>, steps: seq<Step>) {
    && |ss| == |steps| + 1 && Start(ss[0])
    && forall i | 0 <= i < |steps| :: Took(ss[i], steps[i], ss[i + 1])
  }

  ghost predicate Took(s: State, a: Step, t: State) {
    Enabled(s, a) && t == Do(s, a)
  }

  /** The slot holds no process yet. */
  predicate Unborn(s: State, q: nat) {
    q < |s.procs| && (s.procs[q].st == Unused || s.procs[q].st == Embryo)
  }

  /** A kill that hits a slot with no process in it yet. Such a slot still has a pid: 0, or that of
      a fork that failed or is under way. */
  predicate Stray(s: State, a: Step) {
    a.Kill? && Unborn(s, a.k)
  }

  /** Step i is a kill that hits slot q, which holds no process from then until state n. */
  ghost predicate HitUnborn(ss: seq<State>, steps: seq<Step>, q: nat, n: nat, i: nat) {
    && i < |steps| && i < n < |ss| && steps[i].Kill? && steps[i].k == q
    && forall j | i <= j <= n :: Unborn(ss[j], q)
  }

  ghost predicate WasHit(ss: seq<State>, steps: seq<Step>, q: nat, n: nat) {
    exists i: nat :: HitUnborn(ss, steps, q, n, i)
  }

  /** With the last step of the run, slot q has become a process, and one that is killed. */
  ghost predicate BornKilled(ss: seq<State>, q: nat) {
    && |ss| > 1 && q < |ss[|ss| - 2].procs| && q < |ss[|ss| - 1].procs|
    && ss[|ss| - 2].procs[q].st == Embryo
    && ss[|ss| - 1].procs[q].st == Runnable && ss[|ss| - 1].procs[q].killed
  }

  lemma {:induction false} TraceIsRun(ss: seq<State>, steps: seq<Step>)
    requires IsTrace(ss, steps)
    ensures IsRun(ss)
  {
    forall i | 0 <= i < |ss| - 1
      ensures Next(ss[i], ss[i + 1])
    {
      assert Took(ss[i], steps[i], ss[i + 1]);
    }
  }

  lemma TraceBefore(ss: seq<State>, steps: seq<Step>)
    requires IsTrace(ss, steps) && |steps| > 0
    ensures IsTrace(ss[..|steps|], steps[..|steps| - 1])
    ensures TreeInv(ss[|steps| - 1]) && Took(ss[|steps| - 1], steps[|steps| - 1], ss[|steps|])
  {
    var n := |steps|;
    assert Took(ss[n - 1], steps[n - 1], ss[n - 1 + 1]);
    assert ss[..n][n - 1] == ss[n - 1];
    TraceIsRun(ss[..n], steps[..n - 1]);
    ProcTheorems.RunKeepsInv(ss[..n]);
  }

  /** A slot without a process is marked if and only if a kill hit it since it last had one. */
  lemma {:induction false} MarkedIff(ss: seq<State>, steps: seq<Step>, q: nat)
    requires IsTrace(ss, steps) && Unborn(ss[|steps|], q)
    ensures ss[|steps|].procs[q].killed <==> WasHit(ss, steps, q, |steps|)
    decreases |steps|
  {
    var n := |steps|;
    if n > 0 {
      TraceBefore(ss, steps);
      var s, a := ss[n - 1], steps[n - 1];
      assert |ss[n].procs| == |s.procs| by {
        SameTable(s, a);
      }
      StepEdges(s, a, q);
      if Unborn(s, q) {
        MarkedIff(ss[..n], steps[..n - 1], q);
        HitsBefore(ss, steps, q);
      }
    }
  }

  /** Which kills have hit the slot after one more step. */
  lemma HitsBefore(ss: seq<State>, steps: seq<Step>, q: nat)
    requires |ss| == |steps| + 1 && |steps| > 0
    requires Unborn(ss[|steps| - 1], q) && Unborn(ss[|steps|], q)
    ensures var n := |steps|;
            WasHit(ss, steps, q, n) <==>
              WasHit(ss[..n], steps[..n - 1], q, n - 1) || (steps[n - 1].Kill? && steps[n - 1].k == q)
  {
    var n, m := |steps|, |steps| - 1;
    OneShorter(ss, steps, q);
    if i: nat :| HitUnborn(ss, steps, q, n, i) && i < m {
      assert HitUnborn(ss, steps, q, m, i);
    }
    if i: nat :| HitUnborn(ss, steps, q, m, i) {
      assert HitUnborn(ss, steps, q, n, i);
    }
    if steps[m].Kill? && steps[m].k == q {
      assert HitUnborn(ss, steps, q, n, m);
    }
  }

  lemma OneShorter(ss: seq<State>, steps: seq<Step>, q: nat)
    requires |ss| == |steps| + 1 && |steps| > 0
    ensures var n := |steps|; WasHit(ss[..n], steps[..n - 1], q, n - 1) <==> WasHit(ss, steps, q, n - 1)
  {
    var m := |steps| - 1;
    var rs, done := ss[..m + 1], steps[..m];
    if i: nat :| HitUnborn(ss, steps, q, m, i) {
      assert HitUnborn(rs, done, q, m, i);
    }
    if i: nat :| HitUnborn(rs, done, q, m, i) {
      forall j | i <= j <= m
        ensures Unborn(ss[j], q)
      {
        assert Unborn(rs[j], q);
      }
      assert HitUnborn(ss, steps, q, m, i);
    }
  }

  /** BORN KILLED, AND WHY. In every run a process that has just become runnable is killed if and
      only if a kill hit its slot while there was no process in it: since boot, or since the
      process before it was reaped. */
  lemma BornKilledIff(ss: seq<State>, steps: seq<Step>, q: nat)
    requires IsTrace(ss, steps) && |steps| > 0 && q < |ss[|steps| - 1].procs|
    requires ss[|steps| - 1].procs[q].st == Embryo
    requires q < |ss[|steps|].procs| && ss[|steps|].procs[q].st == Runnable
    ensures BornKilled(ss, q) <==> WasHit(ss, steps, q, |steps| - 1)
  {
    var n := |steps|;
    TraceBefore(ss, steps);
    StepEdges(ss[n - 1], steps[n - 1], q);
    MarkedIff(ss[..n], steps[..n - 1], q);
    OneShorter(ss, steps, q);
  }

  // ----- the whole family of runs

  /** A run in which kills are stray only if `strays`. */
  ghost predicate IsTraceBut(strays: bool, ss: seq<State>, steps: seq<Step>) {
    IsTrace(ss, steps) && forall i | 0 <= i < |steps| && Stray(ss[i], steps[i]) :: strays
  }

  lemma NobodyBornKilled(ss: seq<State>, steps: seq<Step>, q: nat)
    requires IsTraceBut(false, ss, steps)
    ensures !BornKilled(ss, q)
  {
    if BornKilled(ss, q) {
      BornKilledIff(ss, steps, q);
    }
  }

  /** Two slots and one CPU after userinit. */
  function Boot(): State {
    State([Proc(Runnable, 1, None, NoChan, false, true, true, None),
           Proc(Unused, 0, None, NoChan, false, false, false, None)],
          [None], Free, 2, 0, Ledger({1}, []), Ledger({1}, []))
  }

  /** Boot until init has called kill(0). */
  lemma Killing() returns (s1: State, s2: State, s3: State)
    ensures Start(Boot())
    ensures Took(Boot(), SchedAcquire(0), s1) && Took(s1, SchedPick(0, 0), s2) && Took(s2, Kill(0, 1), s3)
    ensures |s2.procs| == 2 && s2.procs[0].pid == 1 && s2.procs[1].pid == 0 && s2.procs[1].st == Unused
    ensures s3 == State([Proc(Running, 1, None, NoChan, false, true, true, None),
                         Proc(Unused, 0, None, NoChan, true, false, false, None)],
                        [Some(0)], ByProc(0), 2, 0, Ledger({1}, []), Ledger({1}, []))
  {
    s1 := Do(Boot(), SchedAcquire(0));
    s2 := Do(s1, SchedPick(0, 0));
    s3 := Do(s2, Kill(0, 1));
  }

  /** init calls fork: a slot, a stack and a page table. */
  lemma Copying(s: State) returns (t1: State, t2: State, t3: State)
    requires |s.procs| == 2 && Holds(s, 0) && s.procs[0].making == None
    requires s.procs[1] == Proc(Unused, 0, None, NoChan, true, false, false, None)
    ensures Took(s, AllocSlot(0, 1), t1) && Took(t1, StackOk(0), t2) && Took(t2, CopyOk(0), t3)
    ensures t3.procs == [s.procs[0].(making := Some(1)),
                         Proc(Embryo, s.nextpid, Some(0), NoChan, true, true, true, None)]
    ensures t3.lock == Free
  {
    t1 := Do(s, AllocSlot(0, 1));
    assert t1.procs == [s.procs[0].(making := Some(1)),
                        Proc(Embryo, s.nextpid, None, NoChan, true, false, false, None)];
    t2 := Do(t1, StackOk(0));
    t3 := Do(t2, CopyOk(0));
  }

  /** fork makes it runnable. */
  lemma Forking(s: State) returns (t4: State, t5: State)
    requires |s.procs| == 2 && s.lock == Free && s.procs[0].st == Running && s.procs[0].making == Some(1)
    requires s.procs[1].st == Embryo && s.procs[1].pgdir && s.procs[1].killed
    ensures Took(s, ProcAcquire(0), t4) && Took(t4, MakeRunnable(0), t5)
    ensures t4.procs == s.procs && |t5.procs| == 2 && t5.procs[1].st == Runnable && t5.procs[1].killed
  {
    t4 := Do(s, ProcAcquire(0));
    t5 := Do(t4, MakeRunnable(0));
  }

  /** A run in which init, running, calls kill(0), and then fork: the process that fork makes is
      born killed. Nobody has pid 0; the unused slot that fork will take is the first that does. */
  lemma KillZero() returns (ss: seq<State>, steps: seq<Step>)
    ensures IsTraceBut(true, ss, steps) && BornKilled(ss, 1)
    ensures |ss| > 3 && steps[2] == Kill(0, 1) && |ss[2].procs| == 2
    ensures ss[2].procs[0].pid != 0 && ss[2].procs[1].pid == 0 && ss[2].procs[1].st == Unused
  {
    var s1, s2, s3 := Killing();
    var s4, s5, s6 := Copying(s3);
    var s7, s8 := Forking(s6);
    ss := [Boot(), s1, s2, s3, s4, s5, s6, s7, s8];
    steps := [SchedAcquire(0), SchedPick(0, 0), Kill(0, 1), AllocSlot(0, 1), StackOk(0), CopyOk(0), ProcAcquire(0),
              MakeRunnable(0)];
  }

  /** NOBODY IS BORN KILLED, in every run, if and only if no kill is given the pid of a slot that
      holds no process. */
  lemma NobodyBornKilledIff(strays: bool)
    ensures (forall ss, steps, q: nat :: IsTraceBut(strays, ss, steps) ==> !BornKilled(ss, q)) <==> !strays
  {
    if strays {
      var ss, steps := KillZero();
      assert IsTraceBut(strays, ss, steps) && BornKilled(ss, 1);
    } else {
      forall ss, steps, q: nat | IsTraceBut(strays, ss, steps)
        ensures !BornKilled(ss, q)
      {
        NobodyBornKilled(ss, steps, q);
      }
    }
  }
}
