/** Sleeping locks (sleeplock.c): a lock held across sleeps, built on a monitor. */
module SleepLocks {
  import opened Wrappers
  import opened Monitor

  const LK: Chan := 0  // sleep(lk, &lk->lk)

  // ----- the stretches of code under the spin lock

  /** acquiresleep: from taking the spin lock, or waking up, to sleeping or leaving. */
  function AcquireSeg(locked: bool): Segment<bool> {
    if locked then Segment(true, true, [], Some(LK), {}) else Segment(false, true, [], None, {})
  }

  /** releasesleep. */
  function ReleaseSeg(locked: bool): Segment<bool> {
    Segment(locked, false, [LK], None, {})
  }

  predicate LockCode(g: Segment<bool>) {
    g == AcquireSeg(g.before) || g == ReleaseSeg(g.before)
  }

  function LockProgram(): Program<bool> {
    Program(g => LockCode(g), (d, e) => false)
  }

  class SleepLock {
    var locked: bool
    var pid: nat
    ghost var holder: Option<nat>      // who has taken the lock and not given it back

    ghost predicate Valid()
      reads this
    {
      (locked <==> holder.Some?) && (locked ==> holder == Some(pid))
    }

    constructor ()
      ensures Valid() && !locked && pid == 0 && holder == None
    {
      locked, pid, holder := false, 0, None;
    }

    /** One round of `acquiresleep` under the spin lock: sleep, or take the lock. */
    method TryAcquire(me: nat) returns (got: bool, ghost g: Segment<bool>)
      requires Valid()
      modifies this
      ensures Valid() && (got <==> old(holder) == None) && holder == if got then Some(me) else old(holder)
      ensures got <==> !old(locked)
      ensures locked && pid == if got then me else old(pid)
      ensures LockProgram().code(g) && g == AcquireSeg(old(locked)) && g.after == locked && (got <==> g.sleepOn == None)
      ensures !got ==> g.sleepOn.Some? && g.sleepOn.value in ReleaseSeg(locked).woken
    {
      g := Segment(locked, locked, [], Some(LK), {});
      got := !locked;
      if got {
        locked := true;
        pid := me;
        holder := Some(me);
        g := Segment(g.before, locked, [], None, {});
      }
    }

    /** `releasesleep`. */
    method ReleaseSleep() returns (ghost g: Segment<bool>)
      modifies this
      ensures Valid() && holder == None && !locked && pid == 0
      ensures LockProgram().code(g) && g == ReleaseSeg(old(locked)) && g.after == locked
    {
      g := Segment(locked, false, [LK], None, {});
      locked := false;
      pid := 0;
      holder := None;
      assert LockCode(g);
    }

    /** `holdingsleep`. */
    method HoldingSleep(me: nat) returns (r: bool)
      requires Valid()
      ensures r <==> holder == Some(me)
    {
      r := locked && pid == me;
    }
  }

  /** In every run of acquiresleep and releasesleep, whoever sleeps while the spin lock is
      free, on whatever channel, sleeps while the lock is held. */
  lemma SleeperImpliesLocked(ss: seq<State<bool>>, p: Pid, c: Chan)
    requires IsRun(LockProgram(), ss)
    ensures var s := ss[|ss| - 1];
            s.lk == None && p in s.pc && Waiting(s.pc[p], c) ==> s.data
  {
    var held := (d: bool) => d;
    forall g | LockProgram().code(g)
      ensures Minds(g, held, LK) && (g.sleepOn.Some? ==> g.sleepOn.value == LK)
    {
      assert LockCode(g);
    }
    SleepsWhereCoded(LockProgram(), x => x == LK, ss, p, c);
    NoLostWakeup(LockProgram(), held, LK, ss, p);
  }
}
