/** kalloc, kfree, walkpgdir, mappages and the operations on whole address spaces
    (vm.c, kalloc.c). Pages are numbered: page v is entry v % 1024 of directory
    entry v / 1024. */
module Vm {
  import opened Wrappers
  import opened VmSpec

  const PTE_WU := 6                    // PTE_W | PTE_U

  datatype Added = Done(mem: nat) | NoFrame | NoTable(mem: nat)

  /** PGROUNDUP(sz), counted in pages. */
  function PagesOf(sz: nat): (n: nat)
    ensures PGSIZE * n >= sz && (n > 0 ==> PGSIZE * (n - 1) < sz)
  {
    if sz == 0 then 0 else 1 + PagesOf(if sz <= PGSIZE then 0 else sz - PGSIZE)
  }

  function One(b: bool): nat {
    if b then 1 else 0
  }

  function ZeroPage(): (p: Page)
    ensures p.Bytes? && |p.b| == PGSIZE && forall k | 0 <= k < PGSIZE :: p.b[k] == 0
  {
    Bytes(seq(PGSIZE, k => 0))
  }

  ghost predicate SameMap(s: View, t: View, d: nat) {
    forall i: nat, j: nat | i < N && j < N :: Ent(t.pages, d, i, j) == Ent(s.pages, d, i, j)
  }

  /** From s to t, the frames from `first` up to p have gone to the free list. */
  ghost predicate Freeing(s: View, t: View, first: nat, p: nat) {
    && Inv(t) && t.own.Keys == s.own.Keys && first <= p && |t.free| == |s.free| + (p - first)
    && (forall f | f in s.own :: FreedAt(s, t, first, p, f)) && forall f: nat | first <= f < p :: f in t.free
  }

  ghost predicate FreedAt(s: View, t: View, first: nat, p: nat, f: nat) {
    f in s.own && f in t.own && if first <= f < p then t.own[f].Free? else t.own[f] == s.own[f]
  }

  lemma FreeingNext(s: View, t: View, first: nat, p: nat, next: nat)
    requires Freeing(s, t, first, p) && Used(s, p, Other) && next == p + 1
    ensures p in t.own && Freeing(s, Give(t, p), first, next)
  {
    assert FreedAt(s, t, first, p, p);
    GiveInv(t, p);
    var u := Give(t, p);
    forall f | f in s.own
      ensures FreedAt(s, u, first, next, f)
    {
      assert FreedAt(s, t, first, p, f);
    }
  }

  /** The frame that page (i, j) of d had in s is free in t. */
  predicate GaveBack(s: View, t: View, d: nat, i: nat, j: nat) {
    var e := Ent(s.pages, d, i, j);
    e.Map? ==> e.frame in t.own && t.own[e.frame].Free?
  }

  /** What a sweep of pages means for addresses. */
  lemma SweptPages(s: View, t: View, d: nat, newsz: nat, oldsz: nat)
    requires Inv(s) && d in s.live && newsz <= oldsz && Swept(s, t, d, PagesOf(newsz), PagesOf(oldsz))
    ensures forall i: nat, j: nat | i < U && j < N ::
              Ent(t.pages, d, i, j) ==
              if newsz <= 4096 * (N * i + j) < oldsz then Absent else Ent(s.pages, d, i, j)
    ensures forall i: nat, j: nat | i < U && j < N && newsz <= 4096 * (N * i + j) < oldsz :: GaveBack(s, t, d, i, j)
  {
    forall i: nat, j: nat | i < U && j < N
      ensures Ent(t.pages, d, i, j) ==
              if newsz <= 4096 * (N * i + j) < oldsz then Absent else Ent(s.pages, d, i, j)
      ensures newsz <= 4096 * (N * i + j) < oldsz ==> GaveBack(s, t, d, i, j)
    {
      assert Ent(t.pages, d, i, j) == SweptEnt(s, d, PagesOf(newsz), PagesOf(oldsz), i, j);
      assert UserOk(s, d, i, j);
      var e := Ent(s.pages, d, i, j);
      assert e.Map? ==> SweptAt(s, t, d, PagesOf(newsz), PagesOf(oldsz), e.frame);
    }
  }

  /** What a copy of pages means for addresses: every page that begins below sz has the
      contents and the flags of the original, in a frame that was free; no other is mapped. */
  lemma CopiedPage(s: View, t: View, src: nat, d: nat, sz: nat, i: nat, j: nat)
    requires Copied(s, t, src, d, PagesOf(sz)) && i < U && j < N
    ensures var e, o := Ent(t.pages, d, i, j), Ent(s.pages, src, i, j);
            if 4096 * (N * i + j) < sz
            then && e.Map? && o.Map? && e.flags == o.flags && e.frame in t.pages && o.frame in s.pages
                 && t.pages[e.frame] == s.pages[o.frame] && e.frame in s.own && s.own[e.frame].Free?
            else e == Absent
  {
    assert CopiedAt(s, t, src, d, PagesOf(sz), i, j);
  }

  class Vm {
    const end: nat                     // the first address behind the kernel
    var pages: map<nat, Page>
    var free: seq<nat>                 // kmem.freelist, top last
    ghost var own: map<nat, Use>
    ghost var live: set<nat>
    ghost var starved: nat             // calls of kalloc that found the list empty

    ghost function V(): View
      reads this
    {
      View(pages, free, own, live, end)
    }

    ghost predicate Valid()
      reads this
    {
      Inv(V())
    }

    /** Before kinit: no frame is free and none is in use. */
    constructor (frames: map<nat, Page>, e: nat)
      requires forall f | f in frames :: InMemory(f, e)
      ensures Valid() && pages == frames && free == [] && live == {} && end == e && starved == 0
      ensures own.Keys == frames.Keys && forall f | f in frames :: Used(V(), f, Other)
    {
      end := e;
      pages := frames;
      free := [];
      own := map f | f in frames :: Other;
      live := {};
      starved := 0;
    }

    /** freerange: the frames that lie wholly between the two addresses, from lo up to hi, become
        free. No kfree panics. */
    method Freerange(vstart: nat, vend: nat) returns (ghost lo: nat, ghost hi: nat)
      requires Valid() && KERNBASE <= vstart && vend < 0x1_0000_0000
      requires forall f: nat | vstart <= Address(f) && Address(f) + PGSIZE <= vend :: Used(V(), f, Other)
      modifies this`pages, this`free, this`own
      ensures Valid() && own.Keys == old(own.Keys) && lo <= hi && |free| == |old(free)| + (hi - lo)
      ensures forall f: nat :: lo <= f < hi <==> vstart <= Address(f) && Address(f) + PGSIZE <= vend
      ensures forall f | f in old(own) :: if lo <= f < hi then own[f].Free? else own[f] == old(own)[f]
      ensures forall f: nat | lo <= f < hi :: f in free
    {
      ghost var s := V();
      lo := PagesOf(vstart - KERNBASE);
      hi := lo;
      var p := Address(PagesOf(vstart - KERNBASE));
      while p + PGSIZE <= vend
        invariant lo <= hi && p == Address(hi) && Freeing(s, V(), lo, hi)
        invariant hi > lo ==> p <= vend
        decreases vend - p
      {
        hi := FreeOne(lo, p, hi, s);
        p := p + PGSIZE;
      }
      assert forall f | f in old(own) :: FreedAt(s, V(), lo, hi, f);
    }

    /** kinit1 and kinit2: the free list holds exactly the frames between the kernel and
        PHYSTOP, provided that the kernel ends in the first four megabytes. */
    method Kinit()
      requires Valid() && free == [] && KERNBASE <= end <= Address(1024)
      requires forall f: nat | InMemory(f, end) :: Used(V(), f, Other)
      modifies this`pages, this`free, this`own
      ensures Valid() && own.Keys == old(own.Keys)
      ensures forall f: nat :: InMemory(f, end) <==> f in free
      ensures forall f | f in own :: own[f].Free?
    {
      ghost var s := V();
      ghost var lo, hi := Freerange(end, Address(1024));
      ghost var t := V();
      StillOther(s, t, lo, hi);
      ghost var lo', hi' := Freerange(Address(1024), KERNBASE + PHYSTOP);
      BothFreed(s, t, V(), lo, hi, lo', hi');
      AllFree(V());
    }

    /** kinit1 leaves the frames of kinit2 alone. */
    lemma StillOther(s: View, t: View, lo: nat, hi: nat)
      requires KERNBASE <= s.end <= Address(1024) && t.own.Keys == s.own.Keys
      requires forall f: nat | InMemory(f, s.end) :: Used(s, f, Other)
      requires forall f: nat :: lo <= f < hi <==> s.end <= Address(f) && Address(f) + PGSIZE <= Address(1024)
      requires forall f | f in s.own :: if lo <= f < hi then t.own[f].Free? else t.own[f] == s.own[f]
      ensures forall f: nat | Address(1024) <= Address(f) && Address(f) + PGSIZE <= KERNBASE + PHYSTOP ::
                Used(t, f, Other)
    {
      forall f: nat | Address(1024) <= Address(f) && Address(f) + PGSIZE <= KERNBASE + PHYSTOP
        ensures Used(t, f, Other)
      {
        assert InMemory(f, s.end) && Used(s, f, Other);
      }
    }

    lemma BothFreed(s: View, t: View, u: View, lo: nat, hi: nat, lo': nat, hi': nat)
      requires KERNBASE <= s.end <= Address(1024) && u.own.Keys == t.own.Keys == s.own.Keys
      requires forall f: nat | InMemory(f, s.end) :: Used(s, f, Other)
      requires forall f: nat :: lo <= f < hi <==> s.end <= Address(f) && Address(f) + PGSIZE <= Address(1024)
      requires forall f: nat ::
                 lo' <= f < hi' <==> Address(1024) <= Address(f) && Address(f) + PGSIZE <= KERNBASE + PHYSTOP
      requires forall f | f in s.own :: if lo <= f < hi then t.own[f].Free? else t.own[f] == s.own[f]
      requires forall f | f in t.own :: if lo' <= f < hi' then u.own[f].Free? else u.own[f] == t.own[f]
      ensures forall f: nat | InMemory(f, s.end) :: f in u.own && u.own[f].Free?
    {
      forall f: nat | InMemory(f, s.end)
        ensures f in u.own && u.own[f].Free?
      {
        assert Used(s, f, Other) && f in t.own;
        assert Address(f) <= Address(1023) || Address(1024) <= Address(f);
      }
    }

    lemma AllFree(s: View)
      requires Inv(s) && forall f: nat | InMemory(f, s.end) :: f in s.own && s.own[f].Free?
      ensures forall f: nat :: InMemory(f, s.end) <==> f in s.free
      ensures forall f | f in s.own :: s.own[f].Free?
    {
      forall f: nat
        ensures InMemory(f, s.end) <==> f in s.free
      {
        FreeIsOwned(s, f);
      }
      assert forall f | f in s.own :: InMemory(f, s.end);
    }

    /** Whatever is on the free list is a frame of the allocator. */
    lemma FreeIsOwned(s: View, f: nat)
      requires Inv(s)
      ensures f in s.free ==> f in s.own && InMemory(f, s.end)
      ensures f in s.own && s.own[f].Free? ==> f in s.free
    {
      if k :| 0 <= k < |s.free| && s.free[k] == f {
        assert FreeOk(s, k) && f in s.own;
      }
      if f in s.own {
        assert UseOk(s, f);
      }
    }

    method FreeOne(ghost first: nat, p: nat, ghost f: nat, ghost s: View) returns (ghost next: nat)
      requires Freeing(s, V(), first, f) && Used(s, f, Other) && p == Address(f)
      modifies this`pages, this`free, this`own
      ensures next == f + 1 && Freeing(s, V(), first, next)
    {
      next := f + 1;
      FreeingNext(s, V(), first, f, next);
      assert FreedAt(s, V(), first, f, f);
      Kfree(p, f);
    }

    /** kalloc: the top of the free list, if there is one. */
    method Kalloc() returns (r: Option<nat>)
      requires Valid()
      modifies this`free, this`own, this`starved
      ensures Valid() && (r.Some? <==> old(free) != [])
      ensures r.None? ==> V() == old(V())
      ensures r.Some? ==> V() == Take(old(V())) && r.value == old(free)[|old(free)| - 1] && Used(V(), r.value, Other)
      ensures r.Some? ==> r.value in old(own) && old(own)[r.value].Free?
      ensures starved == old(starved) + One(r.None?)
    {
      if free == [] {
        starved := starved + 1;
        return None;
      }
      TakeInv(V());
      assert FreeOk(V(), |free| - 1);
      var f := free[|free| - 1];
      free := free[..|free| - 1];
      own := own[f := Other];
      return Some(f);
    }

    /** kfree with a kernel address v. An address that is no page behind the kernel and below
        PHYSTOP is a panic, and then nothing has happened. */
    method KfreeAddr(v: nat) returns (panicked: bool)
      requires v < 0x1_0000_0000
      modifies this`pages, this`free, this`own
      ensures !panicked <==> exists f: nat :: InMemory(f, end) && v == Address(f)
      ensures panicked ==> V() == old(V())
      ensures forall f: nat | InMemory(f, end) && v == Address(f) :: V() == Give(old(V()), f)
      ensures !panicked ==>
                && v >= 0x8000_0000 && free == old(free) + [(v - 0x8000_0000) / 4096]
                && pages == old(pages)[(v - 0x8000_0000) / 4096 := Junk]
    {
      panicked := v % PGSIZE != 0 || v < end || (v - KERNBASE) % 0x1_0000_0000 >= PHYSTOP;
      if !panicked {
        var f := (v - KERNBASE) / PGSIZE;
        assert InMemory(f, end) && v == Address(f);
        pages := pages[f := Junk];
        own := own[f := Free(|free|)];
        free := free + [f];
      }
    }

    /** kfree as everything below calls it, with the address of a frame of the allocator: its
        test never panics. */
    method Kfree(v: nat, ghost f: nat)
      requires Valid() && f in own && v == Address(f)
      modifies this`pages, this`free, this`own
      ensures V() == Give(old(V()), f)
    {
      assert InMemory(f, V().end);
      var panicked := KfreeAddr(v);
      assert !panicked;
    }

    /** walkpgdir: the table for directory entry i, made if `alloc`; no mapping changes. */
    method Walk(d: nat, i: nat, alloc: bool) returns (t: Option<nat>)
      requires Valid() && d in live && i < N
      modifies this`pages, this`free, this`own, this`starved
      ensures Valid() && Kept(old(V()), V(), d, {}) && SameMap(old(V()), V(), d) && NoneFreed(old(V()), V())
      ensures t.None? ==> V() == old(V()) && IsTable(pages, d) && pages[d].e[i] == Absent && (alloc ==> free == [])
      ensures t.Some? ==>
                IsTable(pages, d) && pages[d].e[i].Map? && pages[d].e[i].frame == t.value && IsTable(pages, t.value)
      ensures !alloc ==> V() == old(V())
      ensures starved == old(starved) + One(alloc && t.None?)
      ensures |free| >= |old(free)| - 1
    {
      ghost var s := V();
      KeptSelf(s, d, {});
      assert DirOk(s, d) && TabOk(s, d, i);
      if pages[d].e[i].Map? {
        return Some(pages[d].e[i].frame);
      }
      if !alloc {
        return None;
      }
      t := NewTable(d, i);
    }

    /** kalloc and memset for a page table, named by directory entry i from now on. */
    method NewTable(d: nat, i: nat) returns (t: Option<nat>)
      requires Valid() && d in live && i < N && DirOk(V(), d) && pages[d].e[i] == Absent
      modifies this`pages, this`free, this`own, this`starved
      ensures Valid() && (t.None? ==> V() == old(V()) && free == [])
      ensures t.Some? ==> Kept(old(V()), V(), d, {}) && SameMap(old(V()), V(), d) && NoneFreed(old(V()), V())
      ensures t.Some? ==> IsTable(pages, d) && pages[d].e[i] == Map(t.value, PTE_WU) && IsTable(pages, t.value)
      ensures starved == old(starved) + One(t.None?)
      ensures t.Some? ==> |free| == |old(free)| - 1
    {
      ghost var s := V();
      t := Fresh(Blank());
      if t.Some? {
        assert DirOk(V(), d);
        HangInv(V(), d, i, t.value, PTE_WU);
        pages := PutEntry(pages, d, i, Map(t.value, PTE_WU));
        own := own[t.value := Tab(d, i)];
        forall f | f in s.own
          ensures KeptAt(s, V(), d, f)
        {
          HasPage(s, f);
        }
      }
    }

    /** The body of mappages' loop: one page. */
    method MapOne(d: nat, i: nat, j: nat, f: nat, perm: nat) returns (ok: bool)
      requires Valid() && d in live && i < N && j < N && Ent(pages, d, i, j) == Absent
      requires i < U ==> Used(V(), f, Other) && f in pages && pages[f].Bytes?
      modifies this`pages, this`free, this`own, this`starved
      ensures Valid() && Kept(old(V()), V(), d, if ok && i < U then {f} else {}) && NoneFreed(old(V()), V())
      ensures ok && i < U ==> Used(V(), f, User(d, i, j)) && f in pages && pages[f] == old(pages[f])
      ensures ok ==> forall k: nat, l: nat | k < N && l < N ::
                       Ent(pages, d, k, l) == if k == i && l == j then Map(f, perm) else old(Ent(pages, d, k, l))
      ensures !ok ==> SameMap(old(V()), V(), d) && free == []
      ensures starved == old(starved) + One(!ok)
      ensures |free| >= |old(free)| - 1 && (!ok ==> old(free) == [])
    {
      var t := Walk(d, i, true);
      if t.None? {
        return false;
      }
      ghost var s := V();
      assert i < U ==> KeptAt(old(V()), s, d, f);
      SetEntry(d, i, j, t.value, f, perm);
      KeptTrans(old(V()), s, V(), d, if i < U then {f} else {});
      return true;
    }

    /** `*pte = pa | perm | PTE_P`. */
    method SetEntry(d: nat, i: nat, j: nat, t: nat, f: nat, perm: nat)
      requires Valid() && d in live && i < N && j < N && Ent(pages, d, i, j) == Absent
      requires i < U ==> Used(V(), f, Other) && f in pages && pages[f].Bytes?
      requires DirOk(V(), d) && pages[d].e[i].Map? && pages[d].e[i].frame == t && IsTable(pages, t)
      modifies this`pages, this`own
      ensures Valid() && Kept(old(V()), V(), d, if i < U then {f} else {}) && NoneFreed(old(V()), V())
      ensures i < U ==> Used(V(), f, User(d, i, j)) && f in pages && pages[f] == old(pages[f])
      ensures forall k: nat, l: nat | k < N && l < N ::
                Ent(pages, d, k, l) == if k == i && l == j then Map(f, perm) else old(Ent(pages, d, k, l))
    {
      ghost var s := V();
      PutEnt(s, d, i, j, Map(f, perm));
      InstallInv(s, d, i, j, Map(f, perm));
      pages := PutEntry(pages, t, j, Map(f, perm));
      own := if i < U then own[f := User(d, i, j)] else own;
      PutKept(s, V(), d, i, if i < U then {f} else {});
    }

    /** Writing into a table of d leaves everything but d alone. */
    lemma PutKept(s: View, t: View, d: nat, i: nat, x: set<nat>)
      requires Inv(s) && d in s.live && i < N && DirOk(s, d) && s.pages[d].e[i].Map?
      requires t.own.Keys == s.own.Keys && forall f | f in s.own && f !in x :: t.own[f] == s.own[f]
      requires forall f | f in s.pages && f != TableOf(s, d, i) :: f in t.pages && t.pages[f] == s.pages[f]
      ensures Kept(s, t, d, x)
    {
      assert TabOk(s, d, i);
      forall f | f in s.own && f !in x
        ensures KeptAt(s, t, d, f)
      {
        HasPage(s, f);
      }
    }

    /** Frees the frame of a mapped page, then clears the entry. */
    method ClearPage(d: nat, i: nat, j: nat, t: nat)
      requires Valid() && d in live && i < U && j < N && DirOk(V(), d) && pages[d].e[i].Map? && pages[d].e[i].frame == t
      requires IsTable(pages, t) && pages[t].e[j].Map?
      modifies this`pages, this`free, this`own
      ensures V() == Give(Remove(old(V()), d, i, j), old(pages[t].e[j].frame))
    {
      ghost var s := V();
      assert TabOk(s, d, i) && UserOk(s, d, i, j);
      var pa := pages[t].e[j].frame;
      Kfree(Address(pa), pa);
      pages := PutEntry(pages, t, j, Absent);
      assert V() == Give(Remove(s, d, i, j), pa) by {
        assert pages == PutEntry(s.pages, t, j, Absent)[pa := Junk];
        assert own == s.own[pa := Other][pa := Free(|s.free|)];
      }
    }

    lemma SkipTable(s: View, d: nat, lo: nat, v: nat, hi: nat)
      requires Inv(s) && d in live && Swept(s, V(), d, lo, v) && lo <= v <= hi
      requires IsTable(pages, d) && v / N < N && pages[d].e[v / N] == Absent && hi <= N * (v / N + 1)
      ensures Swept(s, V(), d, lo, hi)
    {
      forall k: nat, l: nat | k < U && l < N && v <= N * k + l < hi
        ensures Ent(s.pages, d, k, l) == Absent
      {
        assert k == v / N;
        assert Ent(pages, d, k, l) == SweptEnt(s, d, lo, v, k, l);
      }
      SweptSkip(s, V(), d, lo, v, hi);
    }

    /** One turn of deallocuvm's loop, at page v. */
    method SweepAt(d: nat, v: nat, ghost s: View, ghost lo: nat, ghost hi: nat) returns (w: nat, ghost x: nat)
      requires Inv(s) && d in live && s.live == live && Swept(s, V(), d, lo, v) && lo <= v < hi <= U * N
      modifies this`pages, this`free, this`own, this`starved
      ensures w > v && x == (if w <= hi then w else hi) && Swept(s, V(), d, lo, x)
      ensures starved == old(starved)
    {
      var i, j := v / N, v % N;
      assert v == N * i + j && i < U && DirOk(V(), d);
      var t := Walk(d, i, false);
      if t.None? {
        w := N * (i + 1);
        x := if w <= hi then w else hi;
        SkipTable(s, d, lo, v, x);
      } else {
        w := v + 1;
        x := w;
        SweepPage(d, i, j, t.value, v, s, lo);
      }
    }

    method SweepPage(d: nat, i: nat, j: nat, t: nat, ghost v: nat, ghost s: View, ghost lo: nat)
      requires Inv(s) && d in live && s.live == live && Swept(s, V(), d, lo, v) && lo <= v == N * i + j && i < U
      requires j < N
      requires DirOk(V(), d) && pages[d].e[i].Map? && pages[d].e[i].frame == t && IsTable(pages, t)
      modifies this`pages, this`free, this`own
      ensures Swept(s, V(), d, lo, v + 1)
    {
      assert Ent(pages, d, i, j) == SweptEnt(s, d, lo, v, i, j);
      if pages[t].e[j].Map? {
        SweptPage(s, V(), d, lo, v, i, j);
        ClearPage(d, i, j, t);
      } else {
        SkipPage(s, d, lo, v, i, j);
      }
    }

    lemma SkipPage(s: View, d: nat, lo: nat, v: nat, i: nat, j: nat)
      requires Inv(s) && d in live && i < U && j < N && Swept(s, V(), d, lo, v) && lo <= v == N * i + j
      requires Ent(pages, d, i, j) == Absent
      ensures Swept(s, V(), d, lo, v + 1)
    {
      assert Ent(pages, d, i, j) == SweptEnt(s, d, lo, v, i, j);
      SweptSkip(s, V(), d, lo, v, v + 1);
    }

    /** deallocuvm: every page from newsz up to oldsz is unmapped and its frame freed,
        although whole absent tables are skipped. */
    method Deallocuvm(d: nat, oldsz: nat, newsz: nat) returns (r: nat)
      requires Valid() && d in live && oldsz <= KERNBASE
      modifies this`pages, this`free, this`own, this`starved
      ensures r == (if newsz >= oldsz then oldsz else newsz)
      ensures Swept(old(V()), V(), d, PagesOf(newsz), if newsz >= oldsz then PagesOf(newsz) else PagesOf(oldsz))
      ensures starved == old(starved)
      // the pages that begin in [newsz, oldsz), and no others
      ensures forall i: nat, j: nat | i < U && j < N ::
                Ent(pages, d, i, j) == if newsz <= 4096 * (N * i + j) < oldsz then Absent else old(Ent(pages, d, i, j))
      ensures forall i: nat, j: nat | i < U && j < N && newsz <= 4096 * (N * i + j) < oldsz ::
                GaveBack(old(V()), V(), d, i, j)
    {
      ghost var s := V();
      var v := PagesOf(newsz);
      SweptNone(s, d, v);
      if newsz >= oldsz {
        SweptPages(s, V(), d, newsz, newsz);
        return oldsz;
      }
      ghost var lo, hi := v, PagesOf(oldsz);
      ghost var x := v;
      while PGSIZE * v < oldsz
        invariant lo <= v && x == (if v <= hi then v else hi) && Swept(s, V(), d, lo, x) && starved == old(starved)
        decreases hi - x
      {
        v, x := SweepAt(d, v, s, lo, hi);
      }
      assert x == hi;
      SweptPages(s, V(), d, newsz, oldsz);
      return newsz;
    }

    /** kalloc and memset or memmove: a frame that was free, now allocated and holding p. */
    method Fresh(p: Page) returns (r: Option<nat>)
      requires Valid()
      modifies this`pages, this`free, this`own, this`starved
      ensures Valid() && (r.None? ==> V() == old(V()) && free == [])
      ensures r.Some? ==>
                && r.value in old(own) && old(own)[r.value].Free? && pages == old(pages)[r.value := p]
                   && own == old(own)[r.value := Other]
                && forall c, i: nat, j: nat | c in live && i < N && j < N ::
                     Ent(pages, c, i, j) == old(Ent(pages, c, i, j))
      ensures starved == old(starved) + One(r.None?)
      ensures r.Some? ==> |free| == |old(free)| - 1
    {
      r := Kalloc();
      if r.Some? {
        WriteInv(V(), r.value, p);
        pages := pages[r.value := p];
      }
    }

    /** Taking frame f changes nothing but f. */
    lemma FreshKept(s: View, t: View, d: nat, f: nat, u: Use)
      requires Inv(s) && f in s.own && s.own[f].Free? && t.own == s.own[f := u] && !u.Free?
      requires forall g | g in s.pages && g != f :: g in t.pages && t.pages[g] == s.pages[g]
      ensures Kept(s, t, d, if u == Other then {f} else {}) && NoneFreed(s, t)
    {
      forall g | g in s.own && g != f
        ensures KeptAt(s, t, d, g)
      {
        HasPage(s, g);
      }
    }

    /** kalloc a frame, fill it with p and map it at page (i, j) of d. */
    method AddAt(d: nat, i: nat, j: nat, p: Page, flags: nat) returns (r: Added)
      requires Valid() && d in live && i < U && j < N && p.Bytes? && Ent(pages, d, i, j) == Absent
      modifies this`pages, this`free, this`own, this`starved
      ensures Valid() && NoneFreed(old(V()), V())
      ensures r.NoFrame? ==> V() == old(V())
      ensures !r.NoFrame? ==> r.mem in old(own) && old(own)[r.mem].Free? && Kept(old(V()), V(), d, {r.mem})
      ensures r.NoTable? ==> Used(V(), r.mem, Other) && SameMap(old(V()), V(), d)
      ensures r.Done? ==>
                && Used(V(), r.mem, User(d, i, j)) && r.mem in pages && pages[r.mem] == p
                && forall k: nat, l: nat | k < N && l < N ::
                     Ent(pages, d, k, l) == if k == i && l == j then Map(r.mem, flags) else old(Ent(pages, d, k, l))
      ensures starved == old(starved) + One(!r.Done?)
      ensures if r.Done? then |free| >= |old(free)| - 2 else |old(free)| <= 1
    {
      var mem := Fresh(p);
      if mem.None? {
        return NoFrame;
      }
      ghost var t := V();
      FreshKept(old(V()), t, d, mem.value, Other);
      var ok := MapOne(d, i, j, mem.value, flags);
      KeptTrans(old(V()), t, V(), d, {mem.value});
      assert !ok ==> KeptAt(t, V(), d, mem.value);
      return if ok then Done(mem.value) else NoTable(mem.value);
    }

    /** AddAt as one more page of a growing range. */
    method AddPage(d: nat, i: nat, j: nat, p: Page, flags: nat, ghost v: nat, ghost s: View, ghost lo: nat,
                   ghost w: Source) returns (r: Added)
      requires Inv(s) && d in s.live && i < U && j < N && lo <= v == N * i + j && Grown(s, V(), d, lo, v, w, {})
      requires p.Bytes?
      requires Want(s, w, i, j) == (p, flags) && Ent(s.pages, d, i, j) == Absent
      modifies this`pages, this`free, this`own, this`starved
      ensures r.Done? ==> Grown(s, V(), d, lo, v + 1, w, {})
      ensures r.NoFrame? ==> Grown(s, V(), d, lo, v, w, {})
      ensures r.NoTable? ==>
                Grown(s, V(), d, lo, v, w, {r.mem}) && Used(V(), r.mem, Other) && r.mem in s.own && s.own[r.mem].Free?
      ensures starved == old(starved) + One(!r.Done?)
      ensures if r.Done? then |free| >= |old(free)| - 2 else |old(free)| <= 1
    {
      ghost var t := V();
      assert GrownAt(s, t, d, lo, v, w, i, j);
      r := AddAt(d, i, j, p, flags);
      if r.NoTable? {
        StillGrown(s, t, V(), d, lo, v, w, r.mem);
      } else if r.Done? {
        GrownMore(s, t, V(), d, lo, v, i, j, r.mem, p, flags, w);
      }
    }

    /** allocuvm: the pages from oldsz to newsz map frames that were free, all zero; or,
        with no memory left, the mappings are what they were. */
    method Allocuvm(d: nat, oldsz: nat, newsz: nat) returns (r: nat, ok: bool)
      requires Valid() && d in live
      requires oldsz <= newsz < KERNBASE ==> NotMapped(V(), d, PagesOf(oldsz), PagesOf(newsz))
      modifies this`pages, this`free, this`own, this`starved
      ensures newsz >= KERNBASE ==> !ok && r == 0 && V() == old(V())
      ensures newsz < oldsz && newsz < KERNBASE ==> ok && r == oldsz && V() == old(V())
      ensures oldsz <= newsz < KERNBASE && ok ==>
                r == newsz && Grown(old(V()), V(), d, PagesOf(oldsz), PagesOf(newsz), Filled(ZeroPage(), PTE_WU), {})
      // every byte of every new page is 0
      ensures oldsz <= newsz < KERNBASE && ok ==> ZeroFrom(V(), d, PagesOf(oldsz), PagesOf(newsz))
      ensures !ok ==> r == 0 && Valid() && Kept(old(V()), V(), d, {}) && SameMap(old(V()), V(), d)
      ensures !ok <==> newsz >= KERNBASE || starved > old(starved)
      ensures starved <= old(starved) + 1
      ensures starved > old(starved) ==> |old(free)| < 2 * (PagesOf(newsz) - PagesOf(oldsz))
    {
      ghost var s := V();
      KeptSelf(s, d, {});
      if newsz >= KERNBASE {
        return 0, false;
      }
      if newsz < oldsz {
        return oldsz, true;
      }
      ok := GrowTo(d, oldsz, newsz, ZeroPage(), s, PagesOf(oldsz), PagesOf(newsz));
      if ok {
        GrownZero(s, V(), d, PagesOf(oldsz), PagesOf(newsz));
      }
      return if ok then newsz else 0, ok;
    }

    /** allocuvm's loop and its cleanup. */
    method GrowTo(d: nat, oldsz: nat, newsz: nat, p: Page, ghost s: View, ghost lo: nat,
                  ghost hi: nat) returns (ok: bool)
      requires p.Bytes? && Inv(s) && V() == s && d in live && oldsz <= newsz < KERNBASE
      requires lo == PagesOf(oldsz) && hi == PagesOf(newsz) && NotMapped(s, d, lo, hi)
      modifies this`pages, this`free, this`own, this`starved
      ensures ok ==> Grown(s, V(), d, lo, hi, Filled(p, PTE_WU), {})
      ensures !ok ==> Valid() && Kept(s, V(), d, {}) && SameMap(s, V(), d)
      ensures starved == old(starved) + One(!ok)
      ensures !ok ==> |old(free)| < 2 * (hi - lo)
    {
      ghost var w := Filled(p, PTE_WU);
      var v := PagesOf(oldsz);
      GrownNone(s, d, lo, w);
      while PGSIZE * v < newsz
        invariant lo <= v <= hi && Grown(s, V(), d, lo, v, w, {}) && starved == old(starved)
        invariant |free| >= |old(free)| - 2 * (v - lo)
        decreases hi - v
      {
        ok, v := FillOrRetract(d, oldsz, newsz, v, p, s, lo, hi, w);
        if !ok {
          return;
        }
      }
      assert v == hi;
      return true;
    }

    /** One turn of allocuvm's loop. */
    method FillOrRetract(d: nat, oldsz: nat, newsz: nat, v: nat, p: Page, ghost s: View, ghost lo: nat,
                         ghost hi: nat, ghost w: Source)
      returns (ok: bool, next: nat)
      requires Inv(s) && d in s.live && p.Bytes? && w == Filled(p, PTE_WU) && NotMapped(s, d, lo, hi)
      requires oldsz < newsz < KERNBASE && lo == PagesOf(oldsz) && hi == PagesOf(newsz) && lo <= v < hi
      requires Grown(s, V(), d, lo, v, w, {})
      modifies this`pages, this`free, this`own, this`starved
      ensures next == v + 1 && (ok ==> Grown(s, V(), d, lo, next, w, {}))
      ensures !ok ==> Valid() && Kept(s, V(), d, {}) && SameMap(s, V(), d)
      ensures starved == old(starved) + One(!ok)
      ensures if ok then |free| >= |old(free)| - 2 else |old(free)| <= 1
    {
      var a := FillAt(d, v, p, s, lo, hi, w);
      if !a.Done? {
        Retract(d, oldsz, newsz, lo, hi, v, s, w, a);
      }
      return a.Done?, v + 1;
    }

    method FillAt(d: nat, v: nat, p: Page, ghost s: View, ghost lo: nat, ghost hi: nat,
                  ghost w: Source) returns (r: Added)
      requires Inv(s) && d in s.live && p.Bytes? && w == Filled(p, PTE_WU) && NotMapped(s, d, lo, hi)
      requires lo <= v < hi <= U * N
      requires Grown(s, V(), d, lo, v, w, {})
      modifies this`pages, this`free, this`own, this`starved
      ensures r.Done? ==> Grown(s, V(), d, lo, v + 1, w, {})
      ensures r.NoFrame? ==> Grown(s, V(), d, lo, v, w, {})
      ensures r.NoTable? ==>
                Grown(s, V(), d, lo, v, w, {r.mem}) && Used(V(), r.mem, Other) && r.mem in s.own && s.own[r.mem].Free?
      ensures starved == old(starved) + One(!r.Done?)
      ensures if r.Done? then |free| >= |old(free)| - 2 else |old(free)| <= 1
    {
      PageAbsent(s, d, lo, hi, v);
      r := AddPage(d, v / N, v % N, p, PTE_WU, v, s, lo, w);
    }

    lemma PageAbsent(s: View, d: nat, lo: nat, hi: nat, v: nat)
      requires NotMapped(s, d, lo, hi) && lo <= v < hi <= U * N
      ensures v / N < U && N * (v / N) + v % N == v && Ent(s.pages, d, v / N, v % N) == Absent
    {
      assert N * (v / N) + v % N == v;
    }

    /** allocuvm's cleanup. */
    method Retract(d: nat, oldsz: nat, newsz: nat, ghost lo: nat, ghost hi: nat, ghost v: nat, ghost s: View,
                   ghost w: Source, a: Added)
      requires Inv(s) && d in live && oldsz < newsz < KERNBASE && lo == PagesOf(oldsz) && hi == PagesOf(newsz)
      requires !a.Done?
      requires v <= hi && NotMapped(s, d, lo, hi) && Grown(s, V(), d, lo, v, w, if a.NoTable? then {a.mem} else {})
      requires a.NoTable? ==> Used(V(), a.mem, Other) && a.mem in s.own && s.own[a.mem].Free?
      modifies this`pages, this`free, this`own, this`starved
      ensures Valid() && Kept(s, V(), d, {}) && SameMap(s, V(), d)
      ensures starved == old(starved)
    {
      ghost var t := V();
      var r := Deallocuvm(d, newsz, oldsz);
      Undone(s, t, V(), d, lo, v, hi, w, if a.NoTable? then {a.mem} else {});
      if a.NoTable? {
        assert SweptAt(t, V(), d, lo, hi, a.mem);
        GiveBack(s, V(), d, a.mem);
        Kfree(Address(a.mem), a.mem);
      }
    }

    /** freevm: the user frames, the page tables and the directory of d, and nothing else,
        become free. */
    method Freevm(d: nat)
      requires Valid() && d in live
      modifies this
      ensures Valid() && live == old(live) - {d} && Gone(old(V()), V(), d, N + 1)
      ensures starved == old(starved)
      // the directory, its tables and its pages are free; every frame in use elsewhere is as it was
      ensures own.Keys == old(own).Keys
      ensures forall f | f in old(own) :: var u := old(own)[f];
                if f == d || (u.Tab? && u.d == d) || (u.User? && u.d == d) then own[f].Free?
                else !u.Free? ==> own[f] == u && f in pages && f in old(pages) && pages[f] == old(pages)[f]
    {
      ghost var s := V();
      FreeUser(d);
      FreeTables(d, s);
      GoneDir(s, V(), d);
      Kfree(Address(d), d);
      forall f | f in s.own
        ensures var u := s.own[f];
                if f == d || (u.Tab? && u.d == d) || (u.User? && u.d == d) then own[f].Free?
                else !u.Free? ==> own[f] == u && f in pages && f in s.pages && pages[f] == s.pages[f]
      {
        assert GoneAt(s, V(), d, N + 1, f) && DirOk(s, d) && UseOk(s, f);
      }
    }

    /** freevm's call of deallocuvm; from then on no address space is rooted at d. */
    method FreeUser(d: nat)
      requires Valid() && d in live
      modifies this
      ensures TablesLeft(old(V()), d, 0) && starved == old(starved)
    {
      ghost var s := V();
      var r := Deallocuvm(d, KERNBASE, 0);
      GoneStart(s, V(), d);
      own := Drop(V(), d).own;
      live := live - {d};
    }

    /** freevm's loop over the directory. */
    method FreeTables(d: nat, ghost s: View)
      requires Inv(s) && d in s.live && TablesLeft(s, d, 0)
      modifies this`pages, this`free, this`own
      ensures TablesLeft(s, d, N)
    {
      var i := 0;
      while i < N
        invariant i <= N && TablesLeft(s, d, i)
      {
        i := FreeTable(d, i, s);
      }
    }

    /** The directory page is intact and its tables from i on are not yet free. */
    ghost predicate TablesLeft(s: View, d: nat, i: nat)
      reads this
    {
      && Gone(s, V(), d, i) && IsTable(s.pages, d) && d in pages && pages[d] == s.pages[d]
      && forall k: nat | i <= k < N && s.pages[d].e[k].Map? :: Used(V(), s.pages[d].e[k].frame, Other)
    }

    method FreeTable(d: nat, i: nat, ghost s: View) returns (next: nat)
      requires Inv(s) && d in s.live && i < N && TablesLeft(s, d, i)
      modifies this`pages, this`free, this`own
      ensures next == i + 1 && TablesLeft(s, d, next)
    {
      next := i + 1;
      GoneTable(s, V(), d, i, pages[d].e[i]);
      if pages[d].e[i].Map? {
        assert DirOk(s, d) && TabOk(s, d, i);
        Kfree(Address(pages[d].e[i].frame), pages[d].e[i].frame);
        forall k: nat | i + 1 <= k < N && s.pages[d].e[k].Map?
          ensures Used(V(), s.pages[d].e[k].frame, Other)
        {
          assert TabOk(s, d, k);
        }
      }
    }

    /** mappages on a range of pages, of the kernel or of the user; without memory it stops
        after m of them. The frames of user pages belong to them from then on. */
    method MapPages(d: nat, r: KRange) returns (ok: bool, ghost m: nat)
      requires Valid() && d in live && r.n >= 1 && r.v + r.n <= N * N
      requires LineAbsent(pages, d, r) && Ready(V(), r, 0)
      modifies this`pages, this`free, this`own, this`starved
      ensures Valid() && Kept(old(V()), V(), d, TakenBy(r, m)) && NoneFreed(old(V()), V())
      ensures m <= r.n && (ok <==> m == r.n) && RangeMapped(old(V()), V(), d, r, m) && Lent(old(V()), V(), d, r, m)
      // page r.v + k is mapped to frame r.pa + k
      ensures forall i: nat, j: nat | i < N && j < N && r.v <= N * i + j < r.v + m ::
                Ent(pages, d, i, j) == Map(r.pa + (N * i + j - r.v), r.perm)
      ensures starved == old(starved) + One(!ok)
    {
      ghost var s := V();
      KeptSelf(s, d, {});
      m := 0;
      assert TakenBy(r, 0) == {};
      var a, pa := r.v, r.pa;
      while true
        invariant m < r.n && a == r.v + m && pa == r.pa + m && Valid() && Mapping(s, V(), d, r, m)
        invariant starved == old(starved)
        decreases r.n - m
      {
        ok, m := MapNext(d, a / N, a % N, pa, r, s, m);
        if !ok {
          return;
        }
        if a == r.v + r.n - 1 {
          break;
        }
        a, pa := a + 1, pa + 1;
      }
    }

    method MapNext(d: nat, i: nat, j: nat, pa: nat, r: KRange, ghost s: View, ghost m: nat)
      returns (ok: bool, ghost x: nat)
      requires Valid() && d in live && r.v + r.n <= N * N && m < r.n && j < N && N * i + j == r.v + m
      requires pa == r.pa + m && Mapping(s, V(), d, r, m) && LineAbsent(s.pages, d, r)
      modifies this`pages, this`free, this`own, this`starved
      ensures Valid() && x == (if ok then m + 1 else m) && Mapping(s, V(), d, r, x)
      ensures starved == old(starved) + One(!ok)
    {
      assert InKRange(r, i, j) && Ent(s.pages, d, i, j) == Absent;
      assert i < U ==> ReadyAt(V(), r, m);
      ghost var t := V();
      ok := MapOne(d, i, j, pa, r.perm);
      if ok {
        x := m + 1;
        MappingNext(s, t, V(), d, r, m, x, i, j, pa);
      } else {
        x := m;
        MappingSame(s, t, V(), d, r, m);
      }
    }

    /** kalloc and memset for a directory, live from now on. */
    method MakeDir() returns (r: Option<nat>)
      requires Valid()
      modifies this
      ensures Valid() && (r.None? ==> V() == old(V()))
      ensures r.Some? ==>
                && r.value !in old(live) && live == old(live) + {r.value}
                && Kept(old(V()), V(), r.value, {}) && NoneFreed(old(V()), V())
                && forall i: nat, j: nat | i < N && j < N :: Ent(pages, r.value, i, j) == Absent
      ensures starved == old(starved) + One(r.None?)
      ensures (r.None? <==> old(free) == []) && (r.Some? ==> |free| == |old(free)| - 1)
    {
      r := Fresh(Blank());
      if r.Some? {
        NewDirInv(V(), r.value);
        own := own[r.value := Dir];
        live := live + {r.value};
        FreshKept(old(V()), V(), r.value, r.value, Dir);
      }
    }

    /** One line of kmap. */
    method MapLine(d: nat, kmap: seq<KRange>, k: nat, ghost s: View) returns (ok: bool)
      requires Kept(s, V(), d, {}) && NoneFreed(s, V())
      requires Valid() && d in live && KmapOk(kmap) && k < |kmap|
      requires KernelOk(pages, d, kmap, k)
      modifies this`pages, this`free, this`own, this`starved
      ensures Valid() && Kept(s, V(), d, {}) && NoneFreed(s, V())
      ensures ok ==> KernelOk(pages, d, kmap, k + 1)
      ensures starved == old(starved) + One(!ok)
    {
      assert LineAbsent(pages, d, kmap[k]);
      ghost var m;
      ok, m := MapPages(d, kmap[k]);
      assert TakenBy(kmap[k], m) == {};
      KeptTrans(s, old(V()), V(), d, {});
      if ok {
        KernelNext(old(V()), V(), d, kmap, k);
      }
    }

    /** Frees a directory made since s. */
    method Discard(d: nat, ghost s: View)
      requires Inv(s) && d !in s.live && Valid() && live == s.live + {d} && Kept(s, V(), d, {})
      modifies this
      ensures Valid() && Same(s, V())
      ensures starved == old(starved)
    {
      ghost var t := V();
      Freevm(d);
      CameAndWent(s, t, V(), d);
    }

    /** setupkvm: a new directory with the kernel's mappings and no user page, or none and
        every frame as it was. */
    method Setupkvm(kmap: seq<KRange>) returns (r: Option<nat>)
      requires Valid() && KmapOk(kmap)
      modifies this
      ensures Valid() && (r.None? ==> Same(old(V()), V()))
      ensures r.Some? ==>
                && r.value !in old(live) && live == old(live) + {r.value}
                && Kept(old(V()), V(), r.value, {}) && NoneFreed(old(V()), V())
                && KernelOk(pages, r.value, kmap, |kmap|)
      ensures r.Some? ==>
                && (forall i: nat, j: nat | i < U && j < N :: Ent(pages, r.value, i, j) == Absent)
                && forall q | 0 <= q < |kmap| :: LineOk(pages, r.value, kmap[q])
      ensures starved == old(starved) + One(r.None?)
    {
      ghost var s := V();
      SameSelf(s);
      r := MakeDir();
      if r.None? {
        return;
      }
      var ok := MapAll(r.value, kmap, s);
      if !ok {
        Discard(r.value, s);
        return None;
      }
    }

    /** setupkvm's loop over kmap. */
    method MapAll(d: nat, kmap: seq<KRange>, ghost s: View) returns (ok: bool)
      requires Valid() && KmapOk(kmap) && d in live && Kept(s, V(), d, {}) && NoneFreed(s, V())
      requires KernelOk(pages, d, kmap, 0)
      modifies this`pages, this`free, this`own, this`starved
      ensures Valid() && Kept(s, V(), d, {}) && NoneFreed(s, V())
      ensures ok ==> KernelOk(pages, d, kmap, |kmap|)
      ensures starved == old(starved) + One(!ok)
    {
      var k := 0;
      while k < |kmap|
        invariant k <= |kmap| && Valid() && Kept(s, V(), d, {}) && NoneFreed(s, V())
        invariant KernelOk(pages, d, kmap, k) && starved == old(starved)
      {
        ok := MapLine(d, kmap, k, s);
        if !ok {
          return;
        }
        k := k + 1;
      }
      return true;
    }

    /** copyuvm: a new address space whose pages below sz hold the same contents with the
        same flags in frames of their own; or none, with every frame as it was. */
    method Copyuvm(src: nat, sz: nat, kmap: seq<KRange>) returns (r: Option<nat>)
      requires Valid() && src in live && sz <= KERNBASE && KmapOk(kmap) && AllMapped(V(), src, PagesOf(sz))
      modifies this
      ensures Valid() && (r.None? ==> Same(old(V()), V()))
      ensures r.Some? ==>
                && r.value !in old(live) && live == old(live) + {r.value}
                && Copied(old(V()), V(), src, r.value, PagesOf(sz)) && Kept(old(V()), V(), r.value, {})
                && forall q | 0 <= q < |kmap| :: LineOk(pages, r.value, kmap[q])
      ensures starved == old(starved) + One(r.None?)
    {
      ghost var s, n := V(), PagesOf(sz);
      r := Setupkvm(kmap);
      if r.None? {
        return;
      }
      ghost var m := V();
      var ok := CopyAll(src, r.value, sz, s, m, kmap);
      if !ok {
        return None;
      }
      CopiedWhole(s, m, V(), src, r.value, n, kmap);
    }

    /** copyuvm's loop and its cleanup. */
    method CopyAll(src: nat, d: nat, sz: nat, ghost s: View, ghost m: View, ghost kmap: seq<KRange>) returns (ok: bool)
      requires Inv(s) && Inv(m) && src in s.live && d !in s.live && m.live == s.live + {d} && KmapOk(kmap)
      requires sz <= KERNBASE
      requires Kept(s, m, d, {}) && V() == m && AllMapped(s, src, PagesOf(sz)) && KernelOk(m.pages, d, kmap, |kmap|)
      modifies this
      ensures ok ==> Grown(m, V(), d, 0, PagesOf(sz), CopyOf(src), {})
      ensures !ok ==> Valid() && Same(s, V())
      ensures starved == old(starved) + One(!ok)
    {
      ghost var n := PagesOf(sz);
      var v := 0;
      GrownNone(m, d, 0, CopyOf(src));
      while PGSIZE * v < sz
        invariant v <= n && Grown(m, V(), d, 0, v, CopyOf(src), {}) && starved == old(starved)
        decreases n - v
      {
        var a := CopyPage(src, d, v, n, s, m, kmap);
        if !a.Done? {
          Abandon(d, s, m, v, CopyOf(src), a);
          return false;
        }
        v := v + 1;
      }
      assert v == n;
      return true;
    }

    /** One page of copyuvm's loop. */
    method CopyPage(src: nat, d: nat, v: nat, ghost n: nat, ghost s: View, ghost m: View,
                    ghost kmap: seq<KRange>) returns (a: Added)
      requires Inv(s) && Inv(m) && src in s.live && d !in s.live && m.live == s.live + {d} && KmapOk(kmap)
      requires v < n <= U * N
      requires Kept(s, m, d, {}) && Grown(m, V(), d, 0, v, CopyOf(src), {}) && AllMapped(s, src, n)
      requires KernelOk(m.pages, d, kmap, |kmap|)
      modifies this`pages, this`free, this`own, this`starved
      ensures a.Done? ==> Grown(m, V(), d, 0, v + 1, CopyOf(src), {})
      ensures a.NoFrame? ==> Grown(m, V(), d, 0, v, CopyOf(src), {})
      ensures a.NoTable? ==> Grown(m, V(), d, 0, v, CopyOf(src), {a.mem}) && Used(V(), a.mem, Other)
      ensures a.NoTable? ==> a.mem in m.own && m.own[a.mem].Free?
      ensures starved == old(starved) + One(!a.Done?)
    {
      var i, j := v / N, v % N;
      assert v == N * i + j && i < U;
      ghost var t := V();
      OtherDirs(s, m, d, src, i, j);
      OtherDirs(m, t, d, src, i, j);
      assert UserOk(m, src, i, j) && KeptAt(m, t, d, Ent(m.pages, src, i, j).frame);
      var w := Walk(src, i, false);
      var pte := pages[w.value].e[j];
      assert pte == Ent(m.pages, src, i, j);
      a := AddPage(d, i, j, pages[pte.frame], pte.flags, v, m, 0, CopyOf(src));
    }

    /** copyuvm's cleanup. */
    method Abandon(d: nat, ghost s: View, ghost m: View, ghost v: nat, ghost w: Source, a: Added)
      requires Inv(s) && d !in s.live && m.live == s.live + {d} && Kept(s, m, d, {}) && Inv(m) && !a.Done?
      requires Grown(m, V(), d, 0, v, w, if a.NoTable? then {a.mem} else {})
      requires a.NoTable? ==> Used(V(), a.mem, Other) && a.mem in m.own && m.own[a.mem].Free?
      modifies this
      ensures Valid() && Same(s, V())
      ensures starved == old(starved)
    {
      if a.NoTable? {
        GiveBack(m, V(), d, a.mem);
        Kfree(Address(a.mem), a.mem);
      }
      KeptTrans(s, m, V(), d, {});
      Discard(d, s);
    }

    /** growproc on a process of size sz: the new size, or -1 and the old one. The pages
        mapped match the size afterwards, except when the process shrinks to nothing:
        deallocuvm's 0 is then taken for a failure and the old size kept. */
    method Growproc(d: nat, sz: nat, n: int) returns (ret: int, size: nat)
      requires Valid() && d in live && sz < KERNBASE && -KERNBASE <= n < KERNBASE && Sized(V(), d, PagesOf(sz))
      modifies this`pages, this`free, this`own, this`starved
      ensures Valid() && size < KERNBASE
      ensures Sized(V(), d, PagesOf(size)) <==> !(sz > 0 && sz + n == 0)
      ensures sz + n == 0 ==> Sized(V(), d, 0)
      ensures ret == 0 ==> size == if sz + n < 0 then sz else sz + n
      ensures ret != 0 ==> ret == -1 && size == sz
      ensures n <= 0 ==> (ret == -1 <==> n < 0 && (sz + n == 0 || sz == 0))
      ensures n > 0 ==> (ret == -1 <==> sz + n >= KERNBASE || starved > old(starved))
      ensures starved > old(starved) ==> n > 0 && |old(free)| < 2 * (PagesOf(sz + n) - PagesOf(sz))
      // pages below both sizes keep their contents, new ones are zero, nobody else's change
      ensures Resized(old(V()), V(), d, PagesOf(if sz + n < 0 || sz + n > sz then sz else sz + n))
      ensures ret == 0 && n > 0 ==> ZeroFrom(V(), d, PagesOf(sz), PagesOf(size))
    {
      var r;
      ResizedSelf(V(), d, PagesOf(sz));
      size := sz;
      if n > 0 {
        r := GrowBy(d, sz, n);
        if r == 0 {
          return -1, sz;
        }
        size := r;
      } else if n < 0 {
        r := ShrinkBy(d, sz, n);
        if r == 0 {
          return -1, sz;
        }
        size := r;
      }
      return 0, size;
    }

    method GrowBy(d: nat, sz: nat, n: nat) returns (r: nat)
      requires Valid() && d in live && sz < KERNBASE && 0 < n < KERNBASE && Sized(V(), d, PagesOf(sz))
      modifies this`pages, this`free, this`own, this`starved
      ensures Valid() && (r == 0 || r == sz + n < KERNBASE) && Sized(V(), d, PagesOf(if r == 0 then sz else r))
      ensures r == 0 <==> sz + n >= KERNBASE || starved > old(starved)
      ensures starved > old(starved) ==> |old(free)| < 2 * (PagesOf(sz + n) - PagesOf(sz))
      ensures Resized(old(V()), V(), d, PagesOf(sz)) && (r != 0 ==> ZeroFrom(V(), d, PagesOf(sz), PagesOf(r)))
    {
      ghost var s, lo, hi := V(), PagesOf(sz), PagesOf(sz + n);
      var ok;
      NothingAbove(s, d, lo, hi);
      r, ok := Allocuvm(d, sz, sz + n);
      if ok {
        Enlarged(s, V(), d, lo, hi);
      } else {
        Unchanged(s, V(), d, lo);
      }
    }

    lemma NothingAbove(s: View, d: nat, lo: nat, hi: nat)
      requires Sized(s, d, lo)
      ensures NotMapped(s, d, lo, hi)
    {
    }

    lemma Unchanged(s: View, t: View, d: nat, n: nat)
      requires Inv(s) && d in s.live && Kept(s, t, d, {}) && SameMap(s, t, d) && Sized(s, d, n)
      ensures Sized(t, d, n) && Resized(s, t, d, n)
    {
      ResizedSame(s, t, d, n);
    }

    lemma Enlarged(s: View, t: View, d: nat, lo: nat, hi: nat)
      requires Inv(s) && d in s.live && Sized(s, d, lo) && lo <= hi <= U * N
      requires Grown(s, t, d, lo, hi, Filled(ZeroPage(), PTE_WU), {})
      ensures Sized(t, d, hi) && Resized(s, t, d, lo)
    {
      SizedGrown(s, t, d, lo, hi, Filled(ZeroPage(), PTE_WU));
      ResizedGrown(s, t, d, lo, hi, Filled(ZeroPage(), PTE_WU));
    }

    lemma GrownZero(s: View, t: View, d: nat, lo: nat, hi: nat)
      requires Grown(s, t, d, lo, hi, Filled(ZeroPage(), PTE_WU), {})
      ensures ZeroFrom(t, d, lo, hi)
    {
      forall i: nat, j: nat | i < U && j < N && lo <= N * i + j < hi
        ensures ZeroAt(t, d, i, j)
      {
        assert GrownAt(s, t, d, lo, hi, Filled(ZeroPage(), PTE_WU), i, j);
      }
    }

    method ShrinkBy(d: nat, sz: nat, n: int) returns (r: nat)
      requires Valid() && d in live && sz < KERNBASE && -KERNBASE <= n < 0 && Sized(V(), d, PagesOf(sz))
      modifies this`pages, this`free, this`own, this`starved
      ensures Valid() && r == (if sz + n < 0 then sz else sz + n) && Sized(V(), d, PagesOf(r))
      ensures r == 0 && sz > 0 ==> !Sized(V(), d, PagesOf(sz))
      ensures starved == old(starved)
      ensures Resized(old(V()), V(), d, PagesOf(r))
    {
      ghost var s, hi := V(), PagesOf(sz);
      var newsz := (sz + n) % 0x1_0000_0000;
      Wrapped(sz + n);
      r := Deallocuvm(d, sz, newsz);
      if newsz < sz {
        Shrunk(s, V(), d, newsz, sz, hi);
        ResizedSwept(s, V(), d, PagesOf(newsz), PagesOf(newsz), hi);
      } else {
        SweptNothing(s, V(), d, PagesOf(newsz), hi);
        ResizedSwept(s, V(), d, hi, PagesOf(newsz), PagesOf(newsz));
      }
    }

    lemma Wrapped(x: int)
      requires -KERNBASE <= x < KERNBASE
      ensures x % 0x1_0000_0000 == if x < 0 then x + 0x1_0000_0000 else x
    {
    }

    lemma SweptNothing(s: View, t: View, d: nat, v: nat, hi: nat)
      requires Sized(s, d, hi) && Swept(s, t, d, v, v)
      ensures Sized(t, d, hi)
    {
      forall i: nat, j: nat | i < U && j < N
        ensures Ent(t.pages, d, i, j) == Ent(s.pages, d, i, j)
      {
        assert Ent(t.pages, d, i, j) == SweptEnt(s, d, v, v, i, j);
      }
    }

    lemma Shrunk(s: View, t: View, d: nat, newsz: nat, sz: nat, hi: nat)
      requires newsz < sz < KERNBASE && hi == PagesOf(sz) && Sized(s, d, hi) && Swept(s, t, d, PagesOf(newsz), hi)
      ensures Sized(t, d, PagesOf(newsz)) && (newsz == 0 ==> !Sized(t, d, hi))
    {
      SizedSwept(s, t, d, PagesOf(newsz), hi);
      if newsz == 0 {
        SizedOnce(t, d, hi);
      }
    }
  }

  predicate ZeroAt(t: View, d: nat, i: nat, j: nat) {
    var e := Ent(t.pages, d, i, j);
    e.Map? && e.flags == 2 + 4 && e.frame in t.pages && t.pages[e.frame].Bytes? && AllZero(t.pages[e.frame].b)
  }

  predicate AllZero(b: seq<nat>) {
    |b| == PGSIZE && forall k | 0 <= k < PGSIZE :: b[k] == 0
  }

  ghost predicate ZeroFrom(t: View, d: nat, lo: nat, hi: nat) {
    forall i: nat, j: nat | i < U && j < N && lo <= N * i + j < hi :: ZeroAt(t, d, i, j)
  }

  /** A machine with the three frames from f on, all free, as freerange leaves it. */
  method ThreeFrames(f: nat, end: nat) returns (vm: Vm)
    requires InMemory(f, end) && InMemory(f + 2, end)
    ensures fresh(vm) && vm.Valid() && vm.end == end && vm.own.Keys == {f, f + 1, f + 2} && |vm.free| == 3
  {
    vm := new Vm(map[f := Junk, f + 1 := Junk, f + 2 := Junk], end);
    ghost var lo, hi := vm.Freerange(Address(f), Address(f + 3));
    assert lo == f && hi == f + 3 by {
      assert Address(f) < Address(f + 2) < Address(f + 3);
      if f > 0 {
        assert Address(f - 1) < Address(f);
      }
    }
  }

  /** A process that gives all its memory back keeps its size: growproc says -1, and no page
      below the size is mapped. Any three frames behind the kernel do. */
  method ShrunkToNothing(f: nat, end: nat) returns (vm: Vm, d: nat, ret: int, size: nat)
    requires InMemory(f, end) && InMemory(f + 2, end)
    ensures vm.Valid() && vm.end == end && forall g | g in vm.own :: InMemory(g, end)
    ensures ret == -1 && size == 4096 && !Sized(vm.V(), d, PagesOf(size)) && Sized(vm.V(), d, 0)
  {
    vm := ThreeFrames(f, end);
    var r := vm.MakeDir();
    d := r.value;
    assert Sized(vm.V(), d, PagesOf(0));
    OnePage();
    ret, size := vm.Growproc(d, 0, 4096);
    ret, size := vm.Growproc(d, size, -4096);
    assert forall g | g in vm.V().own :: InMemory(g, vm.V().end);
  }

  lemma OnePage()
    ensures PagesOf(0) == 0 && PagesOf(4096) == 1
  {
  }
}
