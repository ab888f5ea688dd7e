/** The steps of the runs are what the scans of the code do (proc.c). */
module ProcCode {
  import opened Wrappers
  import opened Procs
  import opened ProcRuns
  import opened ProcTree

  /** p runs outside fork and has ptable.lock, and t is the table it sees. */
  ghost predicate Sees(s: State, p: nat, ps: seq<Proc>) {
    Holds(s, p) && s.procs[p].making == None && ps == s.procs
  }

  /** The scan of kill takes the step Kill of exactly one slot, or there is none for the pid. */
  method Kill(t: Table, pid: nat, ghost s: State, ghost p: nat) returns (found: bool)
    requires Sees(s, p, t.procs)
    modifies t
    ensures found <==> exists k: nat :: Enabled(s, Step.Kill(p, k)) && s.procs[k].pid == pid
    ensures forall k: nat | Enabled(s, Step.Kill(p, k)) && s.procs[k].pid == pid ::
              t.procs == Do(s, Step.Kill(p, k)).procs
    ensures !found ==> t.procs == s.procs
  {
    found := t.KillScan(pid);
  }

  lemma Reaps(s: State, p: nat, k: nat)
    requires Sees(s, p, s.procs)
    ensures Enabled(s, WaitReap(p, k)) <==> FirstZombie(s.procs, p, k)
    ensures Enabled(s, WaitReap(p, k)) ==> Do(s, WaitReap(p, k)).procs == s.procs[k := Cleared(s.procs[k])]
  {
  }

  /** At most one slot can be reaped, and whichever is first is. */
  lemma ReapsFirst(s: State, p: nat, found: Option<nat>, qs: seq<Proc>)
    requires Sees(s, p, s.procs) && (found.Some? <==> HasZombieChild(s.procs, p))
    requires found.Some? ==> exists k: nat :: FirstZombie(s.procs, p, k) && found.value == s.procs[k].pid
                                              && qs == s.procs[k := Cleared(s.procs[k])]
    ensures found.Some? <==> exists k: nat :: Enabled(s, WaitReap(p, k))
    ensures forall k: nat | Enabled(s, WaitReap(p, k)) ::
              found == Some(s.procs[k].pid) && qs == Do(s, WaitReap(p, k)).procs
  {
    if found.Some? {
      var k: nat :| FirstZombie(s.procs, p, k) && found.value == s.procs[k].pid
                    && qs == s.procs[k := Cleared(s.procs[k])];
      Reaps(s, p, k);
    }
    forall k: nat | Enabled(s, WaitReap(p, k))
      ensures found == Some(s.procs[k].pid) && qs == Do(s, WaitReap(p, k)).procs
    {
      Reaps(s, p, k);
      assert HasZombieChild(s.procs, p);
    }
  }

  lemma Waits(s: State, p: nat, c: nat)
    requires Sees(s, p, s.procs) && RunsOn(s, p, c)
    ensures Enabled(s, WaitSleep(p, c)) <==>
              !HasZombieChild(s.procs, p) && HasChild(s.procs, p) && !s.procs[p].killed
  {
  }

  /** The scan of wait takes the step WaitReap of exactly one slot, and returns its pid; or there
      is none, and wait takes the step WaitSleep if and only if it is possible. It then sleeps
      where the exit of any of its children wakes it. */
  method Wait(t: Table, p: nat, killed: bool, ghost s: State, ghost c: nat)
    returns (found: Option<nat>, sleeps: bool)
    requires Sees(s, p, t.procs) && RunsOn(s, p, c) && killed == s.procs[p].killed
    modifies t
    ensures found.Some? <==> exists k: nat :: Enabled(s, WaitReap(p, k))
    ensures forall k: nat | Enabled(s, WaitReap(p, k)) ::
              found == Some(s.procs[k].pid) && t.procs == Do(s, WaitReap(p, k)).procs
    ensures sleeps <==> Enabled(s, WaitSleep(p, c))
    ensures sleeps ==> t.procs == Do(s, WaitSleep(p, c)).procs && t.procs[p].st == Sleeping
    ensures sleeps ==> forall k: nat | k < |t.procs| && k != p && t.procs[k].parent == Some(p) ::
                         Exited(t.procs, k, s.init)[p].st == Runnable
    ensures found == None && !sleeps ==> t.procs == s.procs
  {
    var havekids;
    found, havekids := t.WaitScan(p);
    ReapsFirst(s, p, found, t.procs);
    Waits(s, p, c);
    sleeps := found == None && havekids && !killed;
    if sleeps {
      t.Sleep(p, OfProc(p));
      forall k: nat | k < |t.procs| && k != p && t.procs[k].parent == Some(p)
        ensures Exited(t.procs, k, s.init)[p].st == Runnable
      {
        ExitField(t.procs, k, s.init, p);
      }
    }
  }

  /** sleep on any other channel takes the step Sleep. */
  method Sleep(t: Table, p: nat, x: nat, ghost s: State, ghost c: nat)
    requires Holds(s, p) && RunsOn(s, p, c) && t.procs == s.procs
    modifies t
    ensures t.procs == Do(s, Step.Sleep(p, c, x)).procs
    ensures Wake(t.procs, Other(x))[p].st == Runnable
  {
    t.Sleep(p, Other(x));
  }

  /** The scan of allocproc takes the step AllocSlot of exactly one slot; `making` is the caller's
      own variable. */
  method Alloc(t: Table, nextpid: nat, ghost s: State, ghost p: nat) returns (np: Option<nat>)
    requires Sees(s, p, t.procs) && nextpid == s.nextpid
    modifies t
    ensures forall k: nat :: Enabled(s, AllocSlot(p, k)) <==> np == Some(k)
    ensures np.Some? ==>
              && p < |t.procs| && Enabled(s, AllocSlot(p, np.value))
              && Do(s, AllocSlot(p, np.value)).procs == t.procs[p := t.procs[p].(making := np)]
    ensures np == None ==> t.procs == s.procs
  {
    np := t.AllocScan(nextpid);
  }

  /** exit takes the step ExitNow. */
  method Exit(t: Table, p: nat, init: nat, ghost s: State, ghost c: nat)
    requires Sees(s, p, t.procs) && Enabled(s, ExitNow(p, c)) && init == s.init
    modifies t
    ensures t.procs == Do(s, ExitNow(p, c)).procs
  {
    t.Exit(p, init);
  }

  /** wakeup takes the step WakeupAll. */
  method Wakeup(t: Table, x: nat, ghost s: State, ghost p: nat)
    requires Holds(s, p) && t.procs == s.procs
    modifies t
    ensures t.procs == Do(s, WakeupAll(p, x)).procs
  {
    t.Wakeup1(Other(x));
  }
}
