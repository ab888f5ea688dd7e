/** Every interleaving of the process table's operations (proc.c). */
module ProcRuns {
  import opened Wrappers
  import opened Procs

  datatype Step =
    | SchedAcquire(c: nat)               // scheduler: acquire(&ptable.lock)
    | SchedRelease(c: nat)               // scheduler: release(&ptable.lock)
    | SchedPick(c: nat, p: nat)          // scheduler: c->proc = p, RUNNING, swtch
    | SchedBack(c: nat)                  // scheduler after swtch: c->proc = 0
    | ProcAcquire(p: nat)                // a running process takes ptable.lock
    | ProcRelease(p: nat)
    | Yield(p: nat, c: nat)              // RUNNABLE, swtch
    | Sleep(p: nat, c: nat, x: nat)      // SLEEPING on a channel other than a process
    | WaitSleep(p: nat, c: nat)          // wait: no zombie child, sleep on itself
    | WaitReap(p: nat, k: nat)           // wait: zombie child k, the first, is cleared
    | WakeupAll(p: nat, x: nat)          // wakeup(chan)
    | IntrWakeup(c: nat, x: nat)         // wakeup from an interrupt on an idle CPU
    | Kill(p: nat, k: nat)               // kill: slot k is the first with the pid
    | ExitNow(p: nat, c: nat)            // exit: ZOMBIE, swtch
    | AllocSlot(p: nat, np: nat)         // allocproc under the lock: np is the first unused slot
    | StackFail(p: nat)                  // no kernel stack: the slot is unused again
    | StackOk(p: nat)
    | CopyFail(p: nat)                   // copyuvm failed: stack freed, slot unused
    | CopyOk(p: nat)                     // page table copied, parent set
    | MakeRunnable(p: nat)               // fork's last step, under the lock

  ghost predicate RunsOn(s: State, p: nat, c: nat) {
    p < |s.procs| && c < |s.cpus| && s.procs[p].st == Running && s.cpus[c] == Some(p)
  }

  /** p holds ptable.lock and runs. */
  ghost predicate Holds(s: State, p: nat) {
    p < |s.procs| && s.lock == ByProc(p) && s.procs[p].st == Running
  }

  /** p runs without ptable.lock inside fork, with slot np an embryo. */
  ghost predicate Makes(s: State, p: nat) {
    p < |s.procs| && s.procs[p].st == Running && s.procs[p].making.Some? && s.procs[p].making.value < |s.procs|
  }

  ghost predicate Enabled(s: State, a: Step) {
    match a
    case SchedAcquire(c) => c < |s.cpus| && s.cpus[c] == None && s.lock == Free
    case SchedRelease(c) => s.lock == BySched(c)
    case SchedPick(c, p) => s.lock == BySched(c) && c < |s.cpus| && p < |s.procs| && s.procs[p].st == Runnable
    case SchedBack(c) => s.lock == Switched(c) && c < |s.cpus|
    case ProcAcquire(p) => p < |s.procs| && s.procs[p].st == Running && s.lock == Free
    case ProcRelease(p) => Holds(s, p)
    case Yield(p, c) => Holds(s, p) && RunsOn(s, p, c)
    case Sleep(p, c, x) => Holds(s, p) && RunsOn(s, p, c)
    case WaitSleep(p, c) =>
      && Holds(s, p) && RunsOn(s, p, c) && s.procs[p].making == None && !s.procs[p].killed
      && HasChild(s.procs, p) && !HasZombieChild(s.procs, p)
    case WaitReap(p, k) => Holds(s, p) && s.procs[p].making == None && FirstZombie(s.procs, p, k)
    case WakeupAll(p, x) => Holds(s, p)
    case IntrWakeup(c, x) => s.lock == BySched(c)
    case Kill(p, k) =>
      Holds(s, p) && s.procs[p].making == None && k < |s.procs| && FirstWith(s.procs, s.procs[k].pid, k)
    case ExitNow(p, c) => Holds(s, p) && RunsOn(s, p, c) && p != s.init && s.procs[p].making == None
                          && s.procs[p].parent.Some?
    case AllocSlot(p, np) => Holds(s, p) && s.procs[p].making == None && FirstUnused(s.procs, np)
    case StackFail(p) => Makes(s, p) && !s.procs[s.procs[p].making.value].stack
    case StackOk(p) => Makes(s, p) && !s.procs[s.procs[p].making.value].stack
    case CopyFail(p) => Makes(s, p) && s.procs[s.procs[p].making.value].stack && !s.procs[s.procs[p].making.value].pgdir
    case CopyOk(p) => Makes(s, p) && s.procs[s.procs[p].making.value].stack && !s.procs[s.procs[p].making.value].pgdir
    case MakeRunnable(p) => Makes(s, p) && Holds(s, p) && s.procs[s.procs[p].making.value].pgdir
  }

  function Made(l: Ledger, x: nat): Ledger {
    l.(made := l.made + {x})
  }

  function Freed(l: Ledger, x: nat): Ledger {
    l.(freed := l.freed + [x])
  }

  ghost function Do(s: State, a: Step): State
    requires Enabled(s, a)
  {
    match a
    case SchedAcquire(c) => s.(lock := BySched(c))
    case SchedRelease(c) => s.(lock := Free)
    case SchedPick(c, p) =>
      s.(cpus := s.cpus[c := Some(p)], procs := s.procs[p := s.procs[p].(st := Running, chan := NoChan)],
          lock := ByProc(p))
    case SchedBack(c) => s.(cpus := s.cpus[c := None], lock := BySched(c))
    case ProcAcquire(p) => s.(lock := ByProc(p))
    case ProcRelease(p) => s.(lock := Free)
    case Yield(p, c) => s.(procs := s.procs[p := s.procs[p].(st := Runnable)], lock := Switched(c))
    case Sleep(p, c, x) => s.(procs := s.procs[p := s.procs[p].(st := Sleeping, chan := Other(x))], lock := Switched(c))
    case WaitSleep(p, c) => s.(procs := s.procs[p := s.procs[p].(st := Sleeping, chan := OfProc(p))],
                              lock := Switched(c))
    case WaitReap(p, k) => s.(procs := s.procs[k := Cleared(s.procs[k])], lock := Free,
                             stacks := Freed(s.stacks, s.procs[k].pid), vms := Freed(s.vms, s.procs[k].pid))
    case WakeupAll(p, x) => s.(procs := Wake(s.procs, Other(x)))
    case IntrWakeup(c, x) => s.(procs := Wake(s.procs, Other(x)))
    case Kill(p, k) =>
      var st := if s.procs[k].st == Sleeping then Runnable else s.procs[k].st;
      s.(procs := s.procs[k := s.procs[k].(killed := true, st := st)])
    case ExitNow(p, c) => s.(procs := Exited(s.procs, p, s.init), lock := Switched(c))
    case AllocSlot(p, np) =>
      s.(procs := s.procs[np := s.procs[np].(st := Embryo, pid := s.nextpid)][p := s.procs[p].(making := Some(np))],
         nextpid := s.nextpid + 1, lock := Free)
    case StackFail(p) =>
      var np := s.procs[p].making.value;
      s.(procs := s.procs[np := s.procs[np].(st := Unused)][p := s.procs[p].(making := None)])
    case StackOk(p) =>
      var np := s.procs[p].making.value;
      s.(procs := s.procs[np := s.procs[np].(stack := true)], stacks := Made(s.stacks, s.procs[np].pid))
    case CopyFail(p) =>
      var np := s.procs[p].making.value;
      s.(procs := s.procs[np := s.procs[np].(st := Unused, stack := false)][p := s.procs[p].(making := None)],
         stacks := Freed(s.stacks, s.procs[np].pid))
    case CopyOk(p) =>
      var np := s.procs[p].making.value;
      s.(procs := s.procs[np := s.procs[np].(pgdir := true, parent := Some(p))], vms := Made(s.vms, s.procs[np].pid))
    case MakeRunnable(p) =>
      var np := s.procs[p].making.value;
      s.(procs := s.procs[np := s.procs[np].(st := Runnable)][p := s.procs[p].(making := None)], lock := Free)
  }

  /** After userinit: init alone, runnable; the CPUs idle. */
  ghost predicate Start(s: State) {
    && s.init < |s.procs| && s.lock == Free && s.nextpid == 2 && s.stacks == s.vms == Ledger({1}, [])
    && (forall c | 0 <= c < |s.cpus| :: s.cpus[c] == None)
    && s.procs[s.init] == Proc(Runnable, 1, None, NoChan, false, true, true, None)
    && forall p | 0 <= p < |s.procs| && p != s.init ::
         s.procs[p] == Proc(Unused, 0, None, NoChan, false, false, false, None)
  }

  ghost predicate Next(s: State, t: State) {
    exists a :: Enabled(s, a) && t == Do(s, a)
  }

  ghost predicate IsRun(ss: seq<State>) {
    && |ss| > 0 && Start(ss[0])
    && forall i | 0 <= i < |ss| - 1 :: Next(ss[i], ss[i + 1])
  }

  // ----- invariant: CPUs

  predicate OnCpu(s: State, p: nat, c: nat) {
    c < |s.cpus| && s.cpus[c] == Some(p) && s.lock != Switched(c)
  }

  /** RUNNING means on exactly one CPU; a CPU's process is RUNNING; the scheduler that
      has just been switched to still names a process that is not. */
  ghost predicate CpuInv(s: State) {
    && (forall p | 0 <= p < |s.procs| && s.procs[p].st == Running :: exists c: nat :: OnCpu(s, p, c))
    && (forall c: nat, p: nat | OnCpu(s, p, c) :: p < |s.procs| && s.procs[p].st == Running)
    && (forall c: nat, d: nat, p: nat | OnCpu(s, p, c) && OnCpu(s, p, d) :: c == d)
    && match s.lock
       case Free => true
       case ByProc(p) => p < |s.procs| && s.procs[p].st == Running
       case BySched(c) => c < |s.cpus| && s.cpus[c] == None
       case Switched(c) => c < |s.cpus| && s.cpus[c].Some?
  }

  /** A change of the table that makes nobody start or stop running. */
  lemma CpuFrame(s: State, t: State)
    requires CpuInv(s) && t.cpus == s.cpus && |t.procs| == |s.procs|
    requires forall p | 0 <= p < |s.procs| :: t.procs[p].st == Running <==> s.procs[p].st == Running
    requires t.lock == s.lock || (t.lock == Free && !s.lock.Switched?)
             || (t.lock.ByProc? && s.lock == Free && t.lock.p < |s.procs| && s.procs[t.lock.p].st == Running)
    ensures CpuInv(t)
  {
    forall p | 0 <= p < |t.procs| && t.procs[p].st == Running
      ensures exists c: nat :: OnCpu(t, p, c)
    {
      var c: nat :| OnCpu(s, p, c);
      assert OnCpu(t, p, c);
    }
    assert forall c: nat, p: nat | OnCpu(t, p, c) :: OnCpu(s, p, c);
  }

  /** The running process p leaves its CPU c. */
  lemma CpuLeave(s: State, t: State, p: nat, c: nat)
    requires CpuInv(s) && Holds(s, p) && RunsOn(s, p, c) && t.cpus == s.cpus && |t.procs| == |s.procs|
    requires t.lock == Switched(c)
    requires forall q | 0 <= q < |s.procs| :: t.procs[q].st == Running <==> s.procs[q].st == Running && q != p
    ensures CpuInv(t)
  {
    assert OnCpu(s, p, c);
    forall q | 0 <= q < |t.procs| && t.procs[q].st == Running
      ensures exists d: nat :: OnCpu(t, q, d)
    {
      var d: nat :| OnCpu(s, q, d);
      assert OnCpu(t, q, d);
    }
    assert forall d: nat, q: nat | OnCpu(t, q, d) :: OnCpu(s, q, d);
  }

  lemma CpuPick(s: State, c: nat, p: nat)
    requires CpuInv(s) && Enabled(s, SchedPick(c, p))
    ensures CpuInv(Do(s, SchedPick(c, p)))
  {
    var t := Do(s, SchedPick(c, p));
    assert OnCpu(t, p, c);
    forall q | 0 <= q < |t.procs| && t.procs[q].st == Running && q != p
      ensures exists d: nat :: OnCpu(t, q, d)
    {
      var d: nat :| OnCpu(s, q, d);
      assert OnCpu(t, q, d);
    }
    assert forall d: nat, q: nat | OnCpu(t, q, d) :: d == c || OnCpu(s, q, d);
  }

  lemma CpuBack(s: State, c: nat)
    requires CpuInv(s) && Enabled(s, SchedBack(c))
    ensures CpuInv(Do(s, SchedBack(c)))
  {
    var t := Do(s, SchedBack(c));
    forall q | 0 <= q < |t.procs| && t.procs[q].st == Running
      ensures exists d: nat :: OnCpu(t, q, d)
    {
      var d: nat :| OnCpu(s, q, d);
      assert OnCpu(t, q, d);
    }
    assert forall d: nat, q: nat | OnCpu(t, q, d) :: OnCpu(s, q, d);
  }
}
