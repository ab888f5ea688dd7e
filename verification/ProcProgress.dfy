/** Nobody is stuck: which steps the process table allows in every state it can reach (proc.c). */
module ProcProgress {
  import opened Wrappers
  import opened Procs
  import opened ProcRuns
  import opened ProcTree
  import ProcTheorems

  /** With the lock free, every running process and every idle CPU can take it. */
  ghost predicate FreeGoesOn(s: State) {
    s.lock == Free ==>
      && (forall p: nat | p < |s.procs| && s.procs[p].st == Running :: Enabled(s, ProcAcquire(p)))
      && forall c: nat | c < |s.cpus| && s.cpus[c] == None :: Enabled(s, SchedAcquire(c))
  }

  /** A scheduler with the lock can run any runnable process, or give the lock up. */
  ghost predicate SchedGoesOn(s: State, c: nat) {
    && (s.lock == BySched(c) ==>
          && Enabled(s, SchedRelease(c)) && (forall x: nat :: Enabled(s, IntrWakeup(c, x)))
          && forall p: nat | p < |s.procs| && s.procs[p].st == Runnable :: Enabled(s, SchedPick(c, p)))
    && (s.lock == Switched(c) ==> Enabled(s, SchedBack(c)))
  }

  /** A process with the lock, on its CPU c, can yield, sleep and wake. */
  ghost predicate HolderActs(s: State, p: nat, c: nat) {
    && p < |s.procs| && c < |s.cpus| && s.cpus[c] == Some(p)
    && Enabled(s, ProcRelease(p)) && Enabled(s, Yield(p, c))
    && forall x: nat :: Enabled(s, Sleep(p, c, x)) && Enabled(s, WakeupAll(p, x))
  }

  /** It can kill with a pid if and only if some slot has it, reap if and only if it has a zombie
      child, and begin a fork if and only if a slot is unused. */
  ghost predicate HolderScans(s: State, p: nat) {
    && (forall pid: nat ::
          CanKill(s, p, pid) <==> exists k | 0 <= k < |s.procs| :: s.procs[k].pid == pid)
    && ((exists k: nat :: Enabled(s, WaitReap(p, k))) <==> HasZombieChild(s.procs, p))
    && ((exists np: nat :: Enabled(s, AllocSlot(p, np))) <==>
          exists k | 0 <= k < |s.procs| :: s.procs[k].st == Unused)
  }

  ghost predicate CanKill(s: State, p: nat, pid: nat) {
    exists k: nat :: Enabled(s, Kill(p, k)) && s.procs[k].pid == pid
  }

  /** Outside fork it can also exit, kill, wait and begin a fork; inside, finish it. */
  ghost predicate HolderChanges(s: State, p: nat, c: nat)
    requires p < |s.procs|
  {
    match s.procs[p].making
    case None =>
      && (p != s.init ==> Enabled(s, ExitNow(p, c)))
      && (Enabled(s, WaitSleep(p, c)) <==>
            HasChild(s.procs, p) && !HasZombieChild(s.procs, p) && !s.procs[p].killed)
      && HolderScans(s, p)
    case Some(np) => np < |s.procs| && (s.procs[np].pgdir ==> Enabled(s, MakeRunnable(p)))
  }

  ghost predicate HolderGoesOn(s: State, p: nat, c: nat) {
    HolderActs(s, p, c) && HolderChanges(s, p, c)
  }

  /** A process inside fork can go on with its embryo, whether memory is found or not. */
  ghost predicate MakerGoesOn(s: State, p: nat, np: nat) {
    p < |s.procs| && s.procs[p].st == Running && s.procs[p].making == Some(np) ==>
      && np < |s.procs| && s.procs[np].st == Embryo
      && (!s.procs[np].stack ==> Enabled(s, StackOk(p)) && Enabled(s, StackFail(p)))
      && (s.procs[np].stack && !s.procs[np].pgdir ==> Enabled(s, CopyOk(p)) && Enabled(s, CopyFail(p)))
  }

  lemma HolderCan(s: State, p: nat, c: nat)
    requires TreeInv(s) && p < |s.procs| && s.lock == ByProc(p) && s.procs[p].st == Running && OnCpu(s, p, c)
    ensures HolderGoesOn(s, p, c)
  {
    HolderCanAct(s, p, c);
    HolderCanChange(s, p, c);
  }

  lemma HolderCanAct(s: State, p: nat, c: nat)
    requires p < |s.procs| && s.lock == ByProc(p) && s.procs[p].st == Running && OnCpu(s, p, c)
    ensures HolderActs(s, p, c)
  {
  }

  lemma HolderCanChange(s: State, p: nat, c: nat)
    requires TreeInv(s) && p < |s.procs| && s.lock == ByProc(p) && s.procs[p].st == Running && OnCpu(s, p, c)
    ensures HolderChanges(s, p, c)
  {
    assert SlotOk(s, p);
    if s.procs[p].making == None {
      HolderCanScan(s, p);
    }
  }

  lemma HolderCanScan(s: State, p: nat)
    requires Holds(s, p) && s.procs[p].making == None
    ensures HolderScans(s, p)
  {
    forall pid: nat
      ensures CanKill(s, p, pid) <==> exists k | 0 <= k < |s.procs| :: s.procs[k].pid == pid
    {
      if k :| 0 <= k < |s.procs| && s.procs[k].pid == pid {
        var j := FindPid(s.procs, pid, k);
        assert Enabled(s, Kill(p, j));
      }
    }
    if k :| 0 <= k < |s.procs| && s.procs[k].parent == Some(p) && s.procs[k].st == Zombie {
      var j := FindZombie(s.procs, p, k);
      assert Enabled(s, WaitReap(p, j));
    }
    if k :| 0 <= k < |s.procs| && s.procs[k].st == Unused {
      var j := FindUnused(s.procs, k);
      assert Enabled(s, AllocSlot(p, j));
    }
  }

  lemma {:induction false} FindPid(ps: seq<Proc>, pid: nat, k: nat) returns (j: nat)
    requires k < |ps| && ps[k].pid == pid
    ensures FirstWith(ps, pid, j)
    decreases k
  {
    if i :| 0 <= i < k && ps[i].pid == pid {
      j := FindPid(ps, pid, i);
    } else {
      j := k;
    }
  }

  lemma {:induction false} FindZombie(ps: seq<Proc>, p: nat, k: nat) returns (j: nat)
    requires k < |ps| && ps[k].parent == Some(p) && ps[k].st == Zombie
    ensures FirstZombie(ps, p, j)
    decreases k
  {
    if i :| 0 <= i < k && ps[i].parent == Some(p) && ps[i].st == Zombie {
      j := FindZombie(ps, p, i);
    } else {
      j := k;
    }
  }

  lemma {:induction false} FindUnused(ps: seq<Proc>, k: nat) returns (j: nat)
    requires k < |ps| && ps[k].st == Unused
    ensures FirstUnused(ps, j)
    decreases k
  {
    if i :| 0 <= i < k && ps[i].st == Unused {
      j := FindUnused(ps, i);
    } else {
      j := k;
    }
  }

  lemma FreeCan(s: State)
    ensures FreeGoesOn(s)
  {
  }

  lemma SchedCan(s: State, c: nat)
    requires CpuInv(s)
    ensures SchedGoesOn(s, c)
  {
  }

  lemma MakerCan(s: State, p: nat, np: nat)
    requires TreeInv(s)
    ensures MakerGoesOn(s, p, np)
  {
    if p < |s.procs| && s.procs[p].making == Some(np) {
      assert SlotOk(s, p);
    }
  }

  /** NOBODY IS STUCK. In every run, whoever has ptable.lock can go on, and with the lock free
      everybody who wants it can take it. */
  lemma EverybodyGoesOn(ss: seq<State>, p: nat, c: nat, np: nat)
    requires IsRun(ss)
    ensures var s := ss[|ss| - 1];
            && FreeGoesOn(s) && SchedGoesOn(s, c) && MakerGoesOn(s, p, np)
            && (s.lock == ByProc(p) ==> exists d: nat :: HolderGoesOn(s, p, d))
  {
    ProcTheorems.RunKeepsInv(ss);
    var s := ss[|ss| - 1];
    FreeCan(s);
    SchedCan(s, c);
    MakerCan(s, p, np);
    if s.lock == ByProc(p) {
      var d: nat :| OnCpu(s, p, d);
      HolderCan(s, p, d);
    }
  }
}
