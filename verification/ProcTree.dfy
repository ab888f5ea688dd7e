/** Parents, zombies and resources over every run of the process table (proc.c). */
module ProcTree {
  import opened Wrappers
  import opened Procs
  import opened ProcRuns

  // ----- the parent tree

  ghost predicate ParentOk(s: State, p: nat)
    requires p < |s.procs|
  {
    var q := s.procs[p];
    && q.parent.Some? && q.parent.value < |s.procs|
    && Alive(s.procs[q.parent.value]) && s.procs[q.parent.value].pid < q.pid
  }

  /** A process in fork owns one embryo, younger than itself. */
  ghost predicate MakingOk(s: State, p: nat)
    requires p < |s.procs|
  {
    s.procs[p].making.Some? ==>
      && Alive(s.procs[p]) && s.procs[p].making.value < |s.procs|
      && s.procs[s.procs[p].making.value].st == Embryo && s.procs[p].pid < s.procs[s.procs[p].making.value].pid
  }

  ghost predicate SlotOk(s: State, p: nat)
    requires p < |s.procs|
  {
    var q := s.procs[p];
    && MakingOk(s, p)
    && match q.st
       case Unused => q.parent == None && !q.stack && !q.pgdir
       case Embryo =>
         && p != s.init && (q.pgdir ==> q.stack) && (q.pgdir <==> q.parent.Some?)
         && (q.parent.Some? ==> q.parent.value < |s.procs| && s.procs[q.parent.value].making == Some(p))
       case Zombie => p != s.init && q.stack && q.pgdir && ParentOk(s, p)
       case _ => q.stack && q.pgdir && if p == s.init then q.parent == None else ParentOk(s, p)
  }

  ghost predicate PidsOk(s: State) {
    && (forall p | 0 <= p < |s.procs| && s.procs[p].st != Unused :: 1 <= s.procs[p].pid < s.nextpid)
    && (forall p, q | 0 <= p < q < |s.procs| && s.procs[p].st != Unused && s.procs[q].st != Unused ::
          s.procs[p].pid != s.procs[q].pid)
    && (forall p, q | 0 <= p < q < |s.procs| && s.procs[p].making.Some? :: s.procs[p].making != s.procs[q].making)
  }

  ghost predicate TreeInv(s: State) {
    && s.init < |s.procs| && Alive(s.procs[s.init]) && s.procs[s.init].pid == 1
    && PidsOk(s)
    && forall p | 0 <= p < |s.procs| :: SlotOk(s, p)
  }

  /** Slots agree in everything the tree depends on. */
  predicate SameSlot(q: Proc, r: Proc) {
    && q.pid == r.pid && q.parent == r.parent && q.stack == r.stack && q.pgdir == r.pgdir && q.making == r.making
    && (Alive(q) <==> Alive(r)) && (!Alive(q) ==> q.st == r.st)
  }

  lemma TreeFrame(s: State, t: State)
    requires TreeInv(s) && |t.procs| == |s.procs| && t.init == s.init && t.nextpid == s.nextpid
    requires forall p | 0 <= p < |s.procs| :: SameSlot(s.procs[p], t.procs[p])
    ensures TreeInv(t)
  {
    forall p | 0 <= p < |t.procs|
      ensures SlotOk(t, p)
    {
      assert SlotOk(s, p);
    }
  }

  lemma AllocAt(s: State, p: nat, np: nat, i: nat)
    requires TreeInv(s) && Enabled(s, AllocSlot(p, np)) && i < |s.procs|
    ensures SlotOk(Do(s, AllocSlot(p, np)), i)
  {
    if i == p || i == np {
      assert SlotOk(s, p) && SlotOk(s, np);
    } else {
      AllocOther(s, p, np, i);
    }
  }

  lemma AllocOther(s: State, p: nat, np: nat, i: nat)
    requires TreeInv(s) && Enabled(s, AllocSlot(p, np)) && i < |s.procs| && i != p && i != np
    ensures SlotOk(Do(s, AllocSlot(p, np)), i)
  {
    assert SlotOk(s, i) && SlotOk(s, np);
  }

  lemma AllocPids(s: State, p: nat, np: nat)
    requires TreeInv(s) && Enabled(s, AllocSlot(p, np))
    ensures PidsOk(Do(s, AllocSlot(p, np)))
  {
    forall q | 0 <= q < |s.procs|
      ensures s.procs[q].making != Some(np)
    {
      assert SlotOk(s, q);
    }
  }

  lemma TreeAlloc(s: State, p: nat, np: nat)
    requires TreeInv(s) && Enabled(s, AllocSlot(p, np))
    ensures TreeInv(Do(s, AllocSlot(p, np)))
  {
    AllocPids(s, p, np);
    forall i | 0 <= i < |s.procs|
      ensures SlotOk(Do(s, AllocSlot(p, np)), i)
    {
      AllocAt(s, p, np, i);
    }
  }

  /** p's embryo becomes e, and stays p's embryo if `keep`. */
  function Put(s: State, p: nat, e: Proc, keep: bool): State
    requires p < |s.procs| && s.procs[p].making.Some? && s.procs[p].making.value < |s.procs|
  {
    var np := s.procs[p].making.value;
    s.(procs := s.procs[np := e][p := s.procs[p].(making := if keep then Some(np) else None)])
  }

  /** The states an embryo can go to: still an embryo, runnable, or unused again. */
  predicate EmbryoNext(q: Proc, e: Proc, p: nat, keep: bool) {
    && e.pid == q.pid && e.making == q.making
    && if keep then
         && e.st == Embryo && (e.pgdir ==> e.stack) && (e.pgdir <==> e.parent.Some?)
         && (e.parent.Some? ==> e.parent == Some(p))
       else if e.st == Runnable then e.stack && e.pgdir && e.parent == Some(p)
       else e.st == Unused && e.parent == None && !e.stack && !e.pgdir
  }

  lemma PutAt(s: State, p: nat, e: Proc, keep: bool, i: nat)
    requires Makes(s, p) && EmbryoNext(s.procs[s.procs[p].making.value], e, p, keep) && i < |s.procs|
    requires SlotOk(s, i) && SlotOk(s, p) && SlotOk(s, s.procs[p].making.value)
    requires i != p ==> s.procs[i].making != s.procs[p].making
    ensures SlotOk(Put(s, p, e, keep), i)
  {
  }

  lemma PutOk(s: State, p: nat, e: Proc, keep: bool)
    requires TreeInv(s) && Makes(s, p) && EmbryoNext(s.procs[s.procs[p].making.value], e, p, keep)
    ensures TreeInv(Put(s, p, e, keep))
  {
    var t := Put(s, p, e, keep);
    assert SlotOk(s, p) && SlotOk(s, s.procs[p].making.value);
    forall i | 0 <= i < |s.procs|
      ensures SlotOk(t, i)
    {
      PutAt(s, p, e, keep, i);
    }
    PutPids(s, p, e, keep);
  }

  lemma PutPids(s: State, p: nat, e: Proc, keep: bool)
    requires PidsOk(s) && Makes(s, p) && EmbryoNext(s.procs[s.procs[p].making.value], e, p, keep)
    requires s.procs[p].making.value != p && s.procs[s.procs[p].making.value].st == Embryo
    ensures PidsOk(Put(s, p, e, keep))
  {
    var t := Put(s, p, e, keep);
    forall q: nat | q < |s.procs|
      ensures PidKept(s.procs[q], t.procs[q])
    {
    }
    PidsFrame(s, t);
  }

  /** A slot keeps its pid, is not taken, and makes nothing new. */
  predicate PidKept(q: Proc, r: Proc) {
    r.pid == q.pid && (r.st != Unused ==> q.st != Unused) && (r.making == q.making || r.making == None)
  }

  lemma PidsFrame(s: State, t: State)
    requires PidsOk(s) && |t.procs| == |s.procs| && t.nextpid == s.nextpid
    requires forall q: nat | q < |s.procs| :: PidKept(s.procs[q], t.procs[q])
    ensures PidsOk(t)
  {
    forall q: nat | q < |s.procs|
      ensures t.procs[q].pid == s.procs[q].pid && (t.procs[q].st != Unused ==> s.procs[q].st != Unused)
      ensures t.procs[q].making == s.procs[q].making || t.procs[q].making == None
    {
      assert PidKept(s.procs[q], t.procs[q]);
    }
  }

  lemma TreeMake(s: State, a: Step, p: nat)
    requires TreeInv(s) && Enabled(s, a)
    requires a == StackOk(p) || a == CopyOk(p) || a == MakeRunnable(p) || a == StackFail(p) || a == CopyFail(p)
    ensures TreeInv(Do(s, a))
  {
    var np := s.procs[p].making.value;
    var q := s.procs[np];
    assert SlotOk(s, p) && SlotOk(s, np);
    var keep := a == StackOk(p) || a == CopyOk(p);
    var e := Do(s, a).procs[np];
    assert q.parent.Some? ==> q.parent == Some(p);
    PutOk(s, p, e, keep);
    assert Do(s, a).procs == Put(s, p, e, keep).procs;
    TreeFrame(Put(s, p, e, keep), Do(s, a));
  }

  /** Nobody is a child of a slot that is not alive. */
  lemma ChildlessUnlessAlive(s: State, p: nat, k: nat)
    requires TreeInv(s) && p < |s.procs| && k < |s.procs| && s.procs[k].parent == Some(p)
    ensures Alive(s.procs[p])
  {
    assert SlotOk(s, k) && SlotOk(s, p);
  }

  lemma TreeReap(s: State, p: nat, k: nat)
    requires TreeInv(s) && Enabled(s, WaitReap(p, k))
    ensures TreeInv(Do(s, WaitReap(p, k)))
  {
    var t := Do(s, WaitReap(p, k));
    assert SlotOk(s, k);
    forall i | 0 <= i < |t.procs|
      ensures SlotOk(t, i)
    {
      assert SlotOk(s, i);
    }
  }

  /** What exit of p does to slot i. */
  lemma ExitedAt(ps: seq<Proc>, p: nat, init: nat, i: nat)
    requires p < |ps| && i < |ps| && ps[p].parent.Some?
    ensures var q, r := ps[i], Exited(ps, p, init)[i];
            && r.pid == q.pid && r.stack == q.stack && r.pgdir == q.pgdir && r.making == q.making && r.chan == q.chan
            && r.parent == (if q.parent == Some(p) then Some(init) else q.parent)
            && (i == p ==> r.st == Zombie)
            && (i != p && q.st != Sleeping ==> r.st == q.st)
            && (i != p && q.st == Sleeping ==> r.st == Sleeping || r.st == Runnable)
            && (i != p && r.st == Sleeping ==> q.chan != OfProc(ps[p].parent.value))
            && (i != p && r.st == Sleeping && HasZombieChild(Wake(ps, OfProc(ps[p].parent.value)), p) ==>
                  q.chan != OfProc(init))
  {
  }

  /** A slot before and after exit of p, for the tree. */
  predicate LeftAs(q: Proc, r: Proc, p: nat, init: nat, self: bool) {
    && r.pid == q.pid && r.stack == q.stack && r.pgdir == q.pgdir && r.making == q.making
    && r.parent == (if q.parent == Some(p) then Some(init) else q.parent)
    && if self then r.st == Zombie else if q.st == Sleeping then r.st == Sleeping || r.st == Runnable else r.st == q.st
  }

  lemma TreeExit(s: State, p: nat, c: nat)
    requires TreeInv(s) && Enabled(s, ExitNow(p, c))
    ensures TreeInv(Do(s, ExitNow(p, c)))
  {
    var t := Do(s, ExitNow(p, c));
    forall i: nat | i < |t.procs|
      ensures LeftAs(s.procs[i], t.procs[i], p, s.init, i == p)
    {
      ExitedAt(s.procs, p, s.init, i);
    }
    TreeLeft(s, t, p);
  }

  lemma TreeLeft(s: State, t: State, p: nat)
    requires TreeInv(s) && p < |s.procs| && s.procs[p].st == Running && p != s.init && s.procs[p].making == None
    requires |t.procs| == |s.procs| && t.init == s.init && t.nextpid == s.nextpid
    requires forall i: nat | i < |s.procs| :: LeftAs(s.procs[i], t.procs[i], p, s.init, i == p)
    ensures TreeInv(t)
  {
    assert LeftAs(s.procs[s.init], t.procs[s.init], p, s.init, false);
    forall i: nat | i < |t.procs|
      ensures t.procs[i].pid == s.procs[i].pid && t.procs[i].making == s.procs[i].making
      ensures t.procs[i].st == Unused <==> s.procs[i].st == Unused
    {
      assert LeftAs(s.procs[i], t.procs[i], p, s.init, i == p);
    }
    forall i | 0 <= i < |t.procs|
      ensures SlotOk(t, i)
    {
      ExitSlot(s, t, p, i);
    }
  }

  lemma ExitSlot(s: State, t: State, p: nat, i: nat)
    requires TreeInv(s) && p < |s.procs| && s.procs[p].st == Running && p != s.init && s.procs[p].making == None
    requires |t.procs| == |s.procs| && t.init == s.init && i < |s.procs|
    requires forall j: nat | j < |s.procs| :: LeftAs(s.procs[j], t.procs[j], p, s.init, j == p)
    ensures SlotOk(t, i)
  {
    var q := s.procs[i];
    assert SlotOk(s, i) && SlotOk(s, p) && SlotOk(s, s.init);
    assert LeftAs(q, t.procs[i], p, s.init, i == p);
    assert LeftAs(s.procs[s.init], t.procs[s.init], p, s.init, false);
    if q.parent.Some? && q.parent.value < |s.procs| {
      assert LeftAs(s.procs[q.parent.value], t.procs[q.parent.value], p, s.init, q.parent.value == p);
    }
    if q.making.Some? && q.making.value < |s.procs| {
      assert LeftAs(s.procs[q.making.value], t.procs[q.making.value], p, s.init, q.making.value == p);
    }
  }

  // ----- wait

  /** Whoever sleeps in wait sleeps on itself and has no zombie child. */
  ghost predicate WaitOk(s: State, p: nat)
    requires p < |s.procs|
  {
    s.procs[p].st == Sleeping && s.procs[p].chan.OfProc? ==>
      s.procs[p].chan == OfProc(p) && !HasZombieChild(s.procs, p)
  }

  ghost predicate WaitInv(s: State) {
    forall p | 0 <= p < |s.procs| :: WaitOk(s, p)
  }

  /** No process starts a wait, no child changes parents and none becomes a zombie. */
  lemma WaitFrame(s: State, t: State)
    requires WaitInv(s) && |t.procs| == |s.procs|
    requires forall p | 0 <= p < |s.procs| && t.procs[p].st == Sleeping && t.procs[p].chan.OfProc? ::
               s.procs[p].st == Sleeping && t.procs[p].chan == s.procs[p].chan
    requires forall p | 0 <= p < |s.procs| && t.procs[p].st == Zombie ::
               s.procs[p].st == Zombie && t.procs[p].parent == s.procs[p].parent
    ensures WaitInv(t)
  {
    forall p | 0 <= p < |t.procs|
      ensures WaitOk(t, p)
    {
      assert WaitOk(s, p);
    }
  }

  lemma WaitSleepKeeps(s: State, p: nat, c: nat)
    requires WaitInv(s) && Enabled(s, WaitSleep(p, c))
    ensures WaitInv(Do(s, WaitSleep(p, c)))
  {
    var t := Do(s, WaitSleep(p, c));
    forall q | 0 <= q < |t.procs|
      ensures WaitOk(t, q)
    {
      assert WaitOk(s, q);
      if HasZombieChild(t.procs, q) {
        var k :| 0 <= k < |t.procs| && t.procs[k].parent == Some(q) && t.procs[k].st == Zombie;
        assert s.procs[k].parent == Some(q) && s.procs[k].st == Zombie;
        assert HasZombieChild(s.procs, q);
      }
    }
  }

  lemma WaitExit(s: State, p: nat, c: nat)
    requires TreeInv(s) && WaitInv(s) && Enabled(s, ExitNow(p, c))
    ensures WaitInv(Do(s, ExitNow(p, c)))
  {
    var t := Do(s, ExitNow(p, c));
    assert SlotOk(s, p);
    forall q | 0 <= q < |t.procs|
      ensures WaitOk(t, q)
    {
      ExitedAt(s.procs, p, s.init, q);
      assert WaitOk(s, q);
      if t.procs[q].st == Sleeping && t.procs[q].chan == OfProc(q) && HasZombieChild(t.procs, q) {
        var k :| 0 <= k < |t.procs| && t.procs[k].parent == Some(q) && t.procs[k].st == Zombie;
        ExitedAt(s.procs, p, s.init, k);
        ZombieStays(s.procs, OfProc(s.procs[p].parent.value), p, k);
      }
    }
  }

  lemma ZombieStays(ps: seq<Proc>, ch: Chan, p: nat, k: nat)
    requires k < |ps|
    ensures ps[k].parent == Some(p) && ps[k].st == Zombie ==> HasZombieChild(Wake(ps, ch), p)
  {
    if ps[k].parent == Some(p) && ps[k].st == Zombie {
      assert Wake(ps, ch)[k].parent == Some(p) && Wake(ps, ch)[k].st == Zombie;
    }
  }

  // ----- stacks and page tables

  /** Does the slot hold a page table, or a kernel stack? */
  predicate Has(q: Proc, vm: bool) {
    if vm then q.pgdir else q.stack
  }

  function Book(s: State, vm: bool): Ledger {
    if vm then s.vms else s.stacks
  }

  predicate Holding(s: State, vm: bool, x: nat, p: nat) {
    p < |s.procs| && Has(s.procs[p], vm) && s.procs[p].pid == x
  }

  /** A pid that got one still has it in some slot, or gave it back once. */
  ghost predicate BookOk(s: State, vm: bool) {
    var l := Book(s, vm);
    && (forall i, j | 0 <= i < j < |l.freed| :: l.freed[i] != l.freed[j])
    && (forall x | x in l.freed :: x in l.made && x < s.nextpid)
    && (forall p: nat, x: nat | Holding(s, vm, x, p) :: x in l.made && x !in l.freed)
    && (forall x | x in l.made :: x in l.freed || exists p: nat :: Holding(s, vm, x, p))
    && (forall p | 0 <= p < |s.procs| && s.procs[p].st == Embryo && !Has(s.procs[p], vm) :: s.procs[p].pid !in l.made)
    && (forall x | x in l.made :: x < s.nextpid)
  }

  lemma BookFrame(s: State, t: State, vm: bool)
    requires BookOk(s, vm) && |t.procs| == |s.procs| && Book(t, vm) == Book(s, vm) && t.nextpid == s.nextpid
    requires forall p | 0 <= p < |s.procs| ::
               Has(t.procs[p], vm) == Has(s.procs[p], vm) && t.procs[p].pid == s.procs[p].pid
    requires forall p | 0 <= p < |s.procs| && t.procs[p].st == Embryo :: s.procs[p].st == Embryo
    ensures BookOk(t, vm)
  {
    assert forall p: nat, x: nat :: Holding(t, vm, x, p) <==> Holding(s, vm, x, p);
  }

  /** Slot k gives its own back. */
  lemma BookGone(s: State, t: State, vm: bool, k: nat)
    requires BookOk(s, vm) && TreeInv(s) && k < |s.procs| && Has(s.procs[k], vm) && s.procs[k].st != Unused
    requires |t.procs| == |s.procs| && !Has(t.procs[k], vm) && t.procs[k].st == Unused
    requires forall p | 0 <= p < |s.procs| && p != k ::
               Has(t.procs[p], vm) == Has(s.procs[p], vm) && t.procs[p].pid == s.procs[p].pid
                 && t.procs[p].st == s.procs[p].st
    requires Book(t, vm) == Freed(Book(s, vm), s.procs[k].pid) && t.nextpid == s.nextpid
    ensures BookOk(t, vm)
  {
    var x, l, m := s.procs[k].pid, Book(s, vm), Book(t, vm);
    assert Holding(s, vm, x, k);
    forall p: nat, z: nat | Holding(t, vm, z, p)
      ensures z in m.made && z !in m.freed
    {
      assert Holding(s, vm, z, p) && SlotOk(s, p);
    }
    forall z | z in m.made
      ensures z in m.freed || exists p: nat :: Holding(t, vm, z, p)
    {
      if z !in l.freed && z != x {
        var p: nat :| Holding(s, vm, z, p);
        assert Holding(t, vm, z, p);
      }
    }
  }

  /** The embryo in slot np gets its own. */
  lemma BookMade(s: State, t: State, vm: bool, np: nat)
    requires BookOk(s, vm) && PidsOk(s) && np < |s.procs| && s.procs[np].st == Embryo && !Has(s.procs[np], vm)
    requires |t.procs| == |s.procs| && Has(t.procs[np], vm) && t.procs[np].st == Embryo
    requires t.procs[np].pid == s.procs[np].pid
    requires forall p | 0 <= p < |s.procs| && p != np :: t.procs[p] == s.procs[p]
    requires Book(t, vm) == Made(Book(s, vm), s.procs[np].pid) && t.nextpid == s.nextpid
    ensures BookOk(t, vm)
  {
    var x, l, m := s.procs[np].pid, Book(s, vm), Book(t, vm);
    assert Holding(t, vm, x, np);
    forall q: nat, z: nat | Holding(t, vm, z, q)
      ensures z in m.made && z !in m.freed
    {
      assert q != np ==> Holding(s, vm, z, q);
    }
    forall z | z in m.made
      ensures z in m.freed || exists q: nat :: Holding(t, vm, z, q)
    {
      if z != x && z !in l.freed {
        var q: nat :| Holding(s, vm, z, q);
        assert Holding(t, vm, z, q);
      }
    }
  }

  lemma BookAlloc(s: State, p: nat, np: nat, vm: bool)
    requires BookOk(s, vm) && TreeInv(s) && Enabled(s, AllocSlot(p, np))
    ensures BookOk(Do(s, AllocSlot(p, np)), vm)
  {
    assert SlotOk(s, np);
    AllocBook(s, Do(s, AllocSlot(p, np)), np, vm);
  }

  lemma AllocBook(s: State, t: State, np: nat, vm: bool)
    requires BookOk(s, vm) && |t.procs| == |s.procs| && np < |s.procs| && Book(t, vm) == Book(s, vm)
    requires t.nextpid == s.nextpid + 1 && t.procs[np].pid == s.nextpid
    requires !Has(s.procs[np], vm) && !Has(t.procs[np], vm)
    requires forall q | 0 <= q < |s.procs| && q != np ::
               Has(t.procs[q], vm) == Has(s.procs[q], vm) && t.procs[q].pid == s.procs[q].pid
               && t.procs[q].st == s.procs[q].st
    ensures BookOk(t, vm)
  {
    forall z: nat, q: nat
      ensures Holding(t, vm, z, q) <==> Holding(s, vm, z, q)
    {
    }
  }
}
