/** The process table (proc.c): scheduling, sleeping, fork, exit and wait, as steps
    taken under ptable.lock by any number of processes and CPUs. */
module Procs {
  import opened Wrappers

  datatype PState = Unused | Embryo | Sleeping | Runnable | Running | Zombie

  /** Sleep channels: wait() sleeps on the process itself, everything else elsewhere. */
  datatype Chan = NoChan | OfProc(p: nat) | Other(x: nat)

  /** A slot. `making` is the slot a process has allocated inside fork and not yet
      made runnable; `stack` and `pgdir` say whether those are allocated. */
  datatype Proc = Proc(st: PState, pid: nat, parent: Option<nat>, chan: Chan, killed: bool,
                       stack: bool, pgdir: bool, making: Option<nat>)

  /** ptable.lock: `ByProc(p)` a process holds it; `BySched(c)` the scheduler of CPU c
      does; `Switched(c)` a process has just switched to that scheduler, which has
      yet to clear c->proc. */
  datatype Lock = Free | ByProc(p: nat) | BySched(c: nat) | Switched(c: nat)

  /** The pids that ever got one of a resource, and those that gave it back, in order. */
  datatype Ledger = Ledger(made: set<nat>, freed: seq<nat>)

  /** `stacks` is the ledger of kernel stacks, `vms` that of page tables. */
  datatype State = State(procs: seq<Proc>, cpus: seq<Option<nat>>, lock: Lock, nextpid: nat, init: nat,
                         stacks: Ledger, vms: Ledger)

  predicate Alive(q: Proc) {
    q.st == Sleeping || q.st == Runnable || q.st == Running
  }

  // ----- what the table scans compute

  function WakeOne(q: Proc, ch: Chan): Proc {
    if q.st == Sleeping && q.chan == ch then q.(st := Runnable) else q
  }

  /** wakeup1. */
  function Wake(ps: seq<Proc>, ch: Chan): (r: seq<Proc>)
    ensures |r| == |ps|
  {
    seq(|ps|, i requires 0 <= i < |ps| => WakeOne(ps[i], ch))
  }

  /** exit's loop: children of p go to init, which is woken for a zombie among them. */
  function Adopt(q: Proc, p: nat, init: nat): Proc {
    if q.parent == Some(p) then q.(parent := Some(init)) else q
  }

  predicate HasZombieChild(ps: seq<Proc>, p: nat) {
    exists k | 0 <= k < |ps| :: ps[k].parent == Some(p) && ps[k].st == Zombie
  }

  predicate HasChild(ps: seq<Proc>, p: nat) {
    exists k | 0 <= k < |ps| :: ps[k].parent == Some(p)
  }

  /** The slot that wait reaps, that kill marks, and that allocproc takes: the first there is. */
  predicate FirstZombie(ps: seq<Proc>, p: nat, k: nat) {
    && k < |ps| && ps[k].parent == Some(p) && ps[k].st == Zombie
    && forall i | 0 <= i < k :: !(ps[i].parent == Some(p) && ps[i].st == Zombie)
  }

  predicate FirstWith(ps: seq<Proc>, pid: nat, k: nat) {
    k < |ps| && ps[k].pid == pid && forall i | 0 <= i < k :: ps[i].pid != pid
  }

  predicate FirstUnused(ps: seq<Proc>, k: nat) {
    k < |ps| && ps[k].st == Unused && forall i | 0 <= i < k :: ps[i].st != Unused
  }

  function Orphan(ps: seq<Proc>, p: nat, init: nat): (r: seq<Proc>)
    ensures |r| == |ps|
  {
    var adopted := seq(|ps|, i requires 0 <= i < |ps| => Adopt(ps[i], p, init));
    if HasZombieChild(ps, p) then Wake(adopted, OfProc(init)) else adopted
  }

  /** The table after exit of p. */
  function Exited(ps: seq<Proc>, p: nat, init: nat): (r: seq<Proc>)
    requires p < |ps| && ps[p].parent.Some?
    ensures |r| == |ps|
  {
    var qs := Orphan(Wake(ps, OfProc(ps[p].parent.value)), p, init);
    qs[p := qs[p].(st := Zombie)]
  }

  /** A slot that wait has cleared. */
  function Cleared(q: Proc): Proc {
    q.(st := Unused, pid := 0, parent := None, killed := false, stack := false, pgdir := false)
  }

  /** The code of those scans. */
  class Table {
    var procs: seq<Proc>

    /** `wakeup1`. */
    method Wakeup1(ch: Chan)
      modifies this
      ensures |procs| == |old(procs)|
      ensures forall i | 0 <= i < |procs| ::
                if old(procs)[i].st == Sleeping && old(procs)[i].chan == ch
                then procs[i] == old(procs)[i].(st := Runnable) else procs[i] == old(procs)[i]
      ensures procs == Wake(old(procs), ch)
    {
      var k := 0;
      while k < |procs|
        invariant 0 <= k <= |procs| == |old(procs)|
        invariant forall i | 0 <= i < k :: procs[i] == WakeOne(old(procs)[i], ch)
        invariant forall i | k <= i < |procs| :: procs[i] == old(procs)[i]
      {
        if procs[k].st == Sleeping && procs[k].chan == ch {
          procs := procs[k := procs[k].(st := Runnable)];
        }
        k := k + 1;
      }
    }

    /** `sleep`, once ptable.lock is held, up to the switch. */
    method Sleep(p: nat, ch: Chan)
      requires p < |procs|
      modifies this
      ensures procs == old(procs)[p := old(procs)[p].(st := Sleeping, chan := ch)]
    {
      procs := procs[p := procs[p].(chan := ch)];
      procs := procs[p := procs[p].(st := Sleeping)];
    }

    /** exit from `wakeup1(curproc->parent)` to `curproc->state = ZOMBIE`. */
    method Exit(p: nat, init: nat)
      requires p < |procs| && procs[p].parent.Some?
      modifies this
      ensures procs == Exited(old(procs), p, init)
      // p is a zombie; its children are init's; the parent, and init for a zombie, are awake
      ensures |procs| == |old(procs)| && procs[p].st == Zombie
      ensures forall i | 0 <= i < |procs| ::
                procs[i] == old(procs)[i].(st := procs[i].st,
                                           parent := if old(procs)[i].parent == Some(p) then Some(init)
                                                     else old(procs)[i].parent)
      ensures forall i | 0 <= i < |procs| && i != p && procs[i].st != old(procs)[i].st ::
                old(procs)[i].st == Sleeping && procs[i].st == Runnable
      ensures forall i | 0 <= i < |procs| && i != p && old(procs)[i].st == Sleeping ::
                procs[i].st == Runnable <==>
                  || old(procs)[i].chan == OfProc(old(procs)[p].parent.value)
                  || (old(procs)[i].chan == OfProc(init) && HasZombieChild(old(procs), p))
    {
      Wakeup1(OfProc(procs[p].parent.value));
      ghost var ps := procs;
      ghost var woke := false;
      var k := 0;
      while k < |procs|
        invariant 0 <= k <= |procs| == |ps|
        invariant woke <==> exists i | 0 <= i < k :: ps[i].parent == Some(p) && ps[i].st == Zombie
        invariant forall i | 0 <= i < |ps| ::
                    procs[i] == Adopted(if i < k then Adopt(ps[i], p, init) else ps[i], init, woke)
      {
        if procs[k].parent == Some(p) {
          procs := procs[k := procs[k].(parent := Some(init))];
          if procs[k].st == Zombie {
            Wakeup1(OfProc(init));
            woke := true;
          }
        }
        k := k + 1;
      }
      assert procs == Orphan(ps, p, init);
      procs := procs[p := procs[p].(st := Zombie)];
      ExitFields(old(procs), p, init);
    }

    /** kill: the first slot with the pid is marked and, if asleep, made runnable. */
    method KillScan(pid: nat) returns (found: bool)
      modifies this
      ensures found <==> exists k | 0 <= k < |old(procs)| :: old(procs)[k].pid == pid
      ensures !found ==> procs == old(procs)
      ensures found ==> exists k | 0 <= k < |old(procs)| ::
                && old(procs)[k].pid == pid && (forall i | 0 <= i < k :: old(procs)[i].pid != pid)
                && procs == old(procs)[k := old(procs)[k].(killed := true,
                                                          st := if old(procs)[k].st == Sleeping then Runnable
                                                                else old(procs)[k].st)]
    {
      var k := 0;
      while k < |procs|
        invariant 0 <= k <= |procs| && procs == old(procs)
        invariant forall i | 0 <= i < k :: procs[i].pid != pid
      {
        if procs[k].pid == pid {
          procs := procs[k := procs[k].(killed := true)];
          if procs[k].st == Sleeping {
            procs := procs[k := procs[k].(st := Runnable)];
          }
          return true;
        }
        k := k + 1;
      }
      found := false;
    }

    /** wait's scan for process p: the first zombie child is cleared and its pid
        returned; otherwise the answer says whether there are children at all. */
    method WaitScan(p: nat) returns (found: Option<nat>, havekids: bool)
      modifies this
      ensures found.Some? <==> HasZombieChild(old(procs), p)
      ensures found.None? ==>
                procs == old(procs) && (havekids <==> HasChild(procs, p))
      ensures found.Some? ==> exists k | 0 <= k < |old(procs)| ::
                && old(procs)[k].parent == Some(p) && old(procs)[k].st == Zombie && found.value == old(procs)[k].pid
                && (forall i | 0 <= i < k :: !(old(procs)[i].parent == Some(p) && old(procs)[i].st == Zombie))
                && procs == old(procs)[k := old(procs)[k].(st := Unused, pid := 0, parent := None, killed := false,
                                                          stack := false, pgdir := false)]
      ensures found.Some? ==> exists k: nat ::
                && FirstZombie(old(procs), p, k) && found.value == old(procs)[k].pid
                && procs == old(procs)[k := Cleared(old(procs)[k])]
    {
      havekids := false;
      var k := 0;
      while k < |procs|
        invariant 0 <= k <= |procs| && procs == old(procs)
        invariant forall i | 0 <= i < k :: !(procs[i].parent == Some(p) && procs[i].st == Zombie)
        invariant havekids <==> exists i | 0 <= i < k :: procs[i].parent == Some(p)
      {
        if procs[k].parent == Some(p) {
          havekids := true;
          if procs[k].st == Zombie {
            found := Some(procs[k].pid);
            procs := procs[k := Cleared(procs[k])];
            assert FirstZombie(old(procs), p, k);
            return;
          }
        }
        k := k + 1;
      }
      found := None;
    }

    /** allocproc's scan: the first unused slot becomes an embryo. */
    method AllocScan(pid: nat) returns (np: Option<nat>)
      modifies this
      ensures np.None? <==> forall k | 0 <= k < |old(procs)| :: old(procs)[k].st != Unused
      ensures np.None? ==> procs == old(procs)
      ensures np.Some? ==>
                && np.value < |old(procs)| && old(procs)[np.value].st == Unused
                && (forall k | 0 <= k < np.value :: old(procs)[k].st != Unused)
                && procs == old(procs)[np.value := old(procs)[np.value].(st := Embryo, pid := pid)]
    {
      var k := 0;
      while k < |procs|
        invariant 0 <= k <= |procs| && procs == old(procs)
        invariant forall i | 0 <= i < k :: procs[i].st != Unused
      {
        if procs[k].st == Unused {
          procs := procs[k := procs[k].(st := Embryo, pid := pid)];
          return Some(k);
        }
        k := k + 1;
      }
      np := None;
    }
  }

  lemma WakeKeepsZombies(ps: seq<Proc>, p: nat, ch: Chan)
    ensures HasZombieChild(Wake(ps, ch), p) <==> HasZombieChild(ps, p)
  {
    if k :| 0 <= k < |ps| && ps[k].parent == Some(p) && ps[k].st == Zombie {
      assert Wake(ps, ch)[k] == ps[k];
    }
    if k :| 0 <= k < |ps| && Wake(ps, ch)[k].parent == Some(p) && Wake(ps, ch)[k].st == Zombie {
      assert ps[k].parent == Some(p) && ps[k].st == Zombie;
    }
  }

  /** What exit does, slot by slot. */
  lemma ExitFields(ps: seq<Proc>, p: nat, init: nat)
    requires p < |ps| && ps[p].parent.Some?
    ensures var rs := Exited(ps, p, init);
            && rs[p].st == Zombie
            && (forall i | 0 <= i < |ps| ::
                  rs[i] == ps[i].(st := rs[i].st,
                                  parent := if ps[i].parent == Some(p) then Some(init) else ps[i].parent))
            && (forall i | 0 <= i < |ps| && i != p ::
                  rs[i].st == if ps[i].st == Sleeping
                                 && (ps[i].chan == OfProc(ps[p].parent.value)
                                     || (ps[i].chan == OfProc(init) && HasZombieChild(ps, p)))
                              then Runnable else ps[i].st)
  {
    forall i | 0 <= i < |ps|
      ensures var r := Exited(ps, p, init)[i];
              && r == ps[i].(st := r.st, parent := if ps[i].parent == Some(p) then Some(init) else ps[i].parent)
              && (i != p ==>
                    r.st == if ps[i].st == Sleeping
                               && (ps[i].chan == OfProc(ps[p].parent.value)
                                   || (ps[i].chan == OfProc(init) && HasZombieChild(ps, p)))
                            then Runnable else ps[i].st)
    {
      ExitField(ps, p, init, i);
    }
  }

  lemma ExitField(ps: seq<Proc>, p: nat, init: nat, i: nat)
    requires p < |ps| && ps[p].parent.Some? && i < |ps|
    ensures var r := Exited(ps, p, init)[i];
            && r == ps[i].(st := r.st, parent := if ps[i].parent == Some(p) then Some(init) else ps[i].parent)
            && (i == p ==> r.st == Zombie)
            && (i != p ==>
                  r.st == if ps[i].st == Sleeping
                             && (ps[i].chan == OfProc(ps[p].parent.value)
                                 || (ps[i].chan == OfProc(init) && HasZombieChild(ps, p)))
                          then Runnable else ps[i].st)
  {
    WakeKeepsZombies(ps, p, OfProc(ps[p].parent.value));
  }

  /** How much of the adopting loop has reached slot i. */
  function Adopted(q: Proc, init: nat, woke: bool): Proc {
    if woke then WakeOne(q, OfProc(init)) else q
  }
}
