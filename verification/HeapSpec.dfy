/** The free list of the user-level heap as a sequence of blocks, and which units each
    block covers (umalloc.c). Addresses and sizes count 8-byte units. */
module HeapSpec {
  datatype Header = Header(ptr: nat, size: nat)
  datatype Blk = Blk(a: nat, n: nat)

  /** fl[0] is `base`, of size zero; the others are in address order and no two touch. */
  ghost predicate Gapped(fl: seq<Blk>) {
    && |fl| > 0 && fl[0].n == 0
    && (forall i | 1 <= i < |fl| :: fl[i].n >= 1)
    && forall i, j | 0 <= i < j < |fl| :: fl[i].a + fl[i].n < fl[j].a
  }

  predicate InBlk(b: Blk, u: nat) {
    b.a <= u < b.a + b.n
  }

  ghost predicate InFree(fl: seq<Blk>, u: nat) {
    exists i :: 0 <= i < |fl| && InBlk(fl[i], u)
  }

  function NextOf(fl: seq<Blk>, i: nat): nat
    requires i < |fl|
  {
    if i + 1 < |fl| then fl[i + 1].a else fl[0].a
  }

  predicate LinkedAt(mem: map<nat, Header>, fl: seq<Blk>, i: nat)
    requires i < |fl|
  {
    fl[i].a in mem && mem[fl[i].a] == Header(NextOf(fl, i), fl[i].n)
  }

  predicate SameHeader(mem: map<nat, Header>, mem': map<nat, Header>, a: nat) {
    a in mem && a in mem' && mem'[a] == mem[a]
  }

  /** The headers in memory are a circle through the blocks of fl. */
  ghost predicate Linked(mem: map<nat, Header>, fl: seq<Blk>) {
    forall i: nat | i < |fl| :: LinkedAt(mem, fl, i)
  }

  lemma LinkedFrame(mem: map<nat, Header>, mem': map<nat, Header>, fl: seq<Blk>)
    requires Linked(mem, fl) && forall i | 0 <= i < |fl| :: SameHeader(mem, mem', fl[i].a)
    ensures Linked(mem', fl)
  {
    forall i: nat | i < |fl|
      ensures LinkedAt(mem', fl, i)
    {
      assert LinkedAt(mem, fl, i);
    }
  }

  ghost predicate Fits(fl: seq<Blk>, n: nat) {
    exists i :: 0 <= i < |fl| && fl[i].n >= n
  }

  // ----- replacing part of the list by one block

  function Splice(fl: seq<Blk>, lo: nat, hi: nat, m: Blk): (r: seq<Blk>)
    requires lo <= hi <= |fl|
    ensures |r| == lo + 1 + (|fl| - hi) && r[lo] == m
    ensures forall i | 0 <= i < lo :: r[i] == fl[i]
    ensures forall i | lo < i < |r| :: r[i] == fl[i - lo - 1 + hi]
  {
    fl[..lo] + [m] + fl[hi..]
  }

  lemma SpliceGapped(fl: seq<Blk>, lo: nat, hi: nat, m: Blk)
    requires Gapped(fl) && 1 <= lo <= hi <= |fl| && m.n >= 1
    requires fl[lo - 1].a + fl[lo - 1].n < m.a
    requires hi < |fl| ==> m.a + m.n < fl[hi].a
    ensures Gapped(Splice(fl, lo, hi, m))
  {
    var r := Splice(fl, lo, hi, m);
    forall i, j | 0 <= i < j < |r|
      ensures r[i].a + r[i].n < r[j].a
    {
      if i < lo {
        assert r[i].a + r[i].n <= fl[lo - 1].a + fl[lo - 1].n;
        assert j > lo ==> r[j].a >= fl[hi].a;
      } else if i == lo {
        assert r[j].a >= fl[hi].a;
      }
    }
  }

  /** Memory that agrees with the spliced list at the splice and one block before it. */
  lemma SpliceLinked(mem: map<nat, Header>, mem': map<nat, Header>, fl: seq<Blk>, lo: nat, hi: nat, m: Blk)
    requires Linked(mem, fl) && 1 <= lo <= hi <= |fl|
    requires m.a in mem' && mem'[m.a] == Header(if hi < |fl| then fl[hi].a else fl[0].a, m.n)
    requires fl[lo - 1].a in mem' && mem'[fl[lo - 1].a] == Header(m.a, fl[lo - 1].n)
    requires forall i | 0 <= i < lo - 1 || hi <= i < |fl| :: SameHeader(mem, mem', fl[i].a)
    ensures Linked(mem', Splice(fl, lo, hi, m))
  {
    var r := Splice(fl, lo, hi, m);
    forall i: nat | i < |r|
      ensures LinkedAt(mem', r, i)
    {
      if i < lo {
        assert LinkedAt(mem, fl, i);
      } else if i > lo {
        assert LinkedAt(mem, fl, i - lo - 1 + hi);
        assert r[i] == fl[i - lo - 1 + hi];
        assert i + 1 < |r| ==> r[i + 1] == fl[i - lo + hi];
      }
    }
  }

  lemma SpliceUnits(fl: seq<Blk>, lo: nat, hi: nat, m: Blk, u: nat)
    requires lo <= hi <= |fl|
    ensures InFree(Splice(fl, lo, hi, m), u) <==> InFree(fl[..lo], u) || InBlk(m, u) || InFree(fl[hi..], u)
  {
    var r := Splice(fl, lo, hi, m);
    if i :| 0 <= i < |r| && InBlk(r[i], u) {
      if i < lo {
        assert InBlk(fl[..lo][i], u);
      } else if i > lo {
        assert InBlk(fl[hi..][i - lo - 1], u);
      }
    }
    if InBlk(m, u) {
      assert InBlk(r[lo], u);
    }
    if i :| 0 <= i < |fl[..lo]| && InBlk(fl[..lo][i], u) {
      assert InBlk(r[i], u);
    }
    if i :| 0 <= i < |fl[hi..]| && InBlk(fl[hi..][i], u) {
      assert InBlk(r[i + lo + 1], u);
    }
  }

  lemma Parts(fl: seq<Blk>, lo: nat, hi: nat, u: nat)
    requires lo <= hi <= |fl|
    ensures InFree(fl, u) <==> InFree(fl[..lo], u) || InFree(fl[lo..hi], u) || InFree(fl[hi..], u)
  {
    if i :| 0 <= i < |fl| && InBlk(fl[i], u) {
      if i < lo {
        assert InBlk(fl[..lo][i], u);
      } else if i < hi {
        assert InBlk(fl[lo..hi][i - lo], u);
      } else {
        assert InBlk(fl[hi..][i - hi], u);
      }
    }
    if i :| 0 <= i < |fl[..lo]| && InBlk(fl[..lo][i], u) {
      assert InBlk(fl[i], u);
    }
    if i :| 0 <= i < |fl[lo..hi]| && InBlk(fl[lo..hi][i], u) {
      assert InBlk(fl[lo + i], u);
    }
    if i :| 0 <= i < |fl[hi..]| && InBlk(fl[hi..][i], u) {
      assert InBlk(fl[hi + i], u);
    }
  }

  // ----- free

  /** The place for a block: after fl[k], before fl[k + 1] if there is one. */
  ghost predicate Place(fl: seq<Blk>, k: nat, b: Blk) {
    && k < |fl| && b.n >= 1 && fl[0].a < b.a && fl[k].a + fl[k].n <= b.a
    && (k + 1 < |fl| ==> b.a + b.n <= fl[k + 1].a)
  }

  predicate Up(fl: seq<Blk>, k: nat, b: Blk) {
    k + 1 < |fl| && b.a + b.n == fl[k + 1].a
  }

  predicate Down(fl: seq<Blk>, k: nat, b: Blk)
    requires k < |fl|
  {
    fl[k].a + fl[k].n == b.a
  }

  /** b with the neighbours it touches. */
  function Joined(fl: seq<Blk>, k: nat, b: Blk): Blk
    requires k < |fl|
  {
    var n := b.n + if Up(fl, k, b) then fl[k + 1].n else 0;
    if Down(fl, k, b) then Blk(fl[k].a, fl[k].n + n) else Blk(b.a, n)
  }

  function Insert(fl: seq<Blk>, k: nat, b: Blk): seq<Blk>
    requires k < |fl|
  {
    Splice(fl, if Down(fl, k, b) then k else k + 1, if Up(fl, k, b) then k + 2 else k + 1, Joined(fl, k, b))
  }

  /** Freeing keeps the list in order with no two blocks touching. */
  lemma InsertGapped(fl: seq<Blk>, k: nat, b: Blk)
    requires Gapped(fl) && Place(fl, k, b)
    ensures Gapped(Insert(fl, k, b)) && Insert(fl, k, b)[0] == fl[0]
  {
    SpliceGapped(fl, if Down(fl, k, b) then k else k + 1, if Up(fl, k, b) then k + 2 else k + 1, Joined(fl, k, b));
  }

  /** Freeing adds exactly the units of the freed block. */
  lemma InsertUnits(fl: seq<Blk>, k: nat, b: Blk, u: nat)
    requires Gapped(fl) && Place(fl, k, b)
    ensures InFree(Insert(fl, k, b), u) <==> InFree(fl, u) || InBlk(b, u)
  {
    var lo, hi := if Down(fl, k, b) then k else k + 1, if Up(fl, k, b) then k + 2 else k + 1;
    SpliceUnits(fl, lo, hi, Joined(fl, k, b), u);
    Parts(fl, lo, hi, u);
    JoinedUnits(fl, k, b, u);
  }

  lemma JoinedUnits(fl: seq<Blk>, k: nat, b: Blk, u: nat)
    requires Place(fl, k, b)
    ensures var lo, hi := if Down(fl, k, b) then k else k + 1, if Up(fl, k, b) then k + 2 else k + 1;
            InBlk(Joined(fl, k, b), u) <==> InFree(fl[lo..hi], u) || InBlk(b, u)
  {
    var lo, hi := if Down(fl, k, b) then k else k + 1, if Up(fl, k, b) then k + 2 else k + 1;
    var mid := fl[lo..hi];
    if InBlk(Joined(fl, k, b), u) && !InBlk(b, u) {
      assert InBlk(mid[if u < b.a then 0 else |mid| - 1], u);
    }
    if i :| 0 <= i < |mid| && InBlk(mid[i], u) {
      assert mid[i] == fl[lo + i];
    }
  }

  lemma InsertFits(fl: seq<Blk>, k: nat, b: Blk)
    requires k < |fl|
    ensures Fits(Insert(fl, k, b), b.n)
  {
    var lo := if Down(fl, k, b) then k else k + 1;
    assert Insert(fl, k, b)[lo] == Joined(fl, k, b);
  }

  // ----- malloc

  /** The tail of block i is cut off, or the whole block unlinked. */
  function Taken(fl: seq<Blk>, i: nat, n: nat): seq<Blk>
    requires i < |fl| && n <= fl[i].n
  {
    if fl[i].n == n then fl[..i] + fl[i + 1..] else fl[i := Blk(fl[i].a, fl[i].n - n)]
  }

  function TakenBlk(fl: seq<Blk>, i: nat, n: nat): Blk
    requires i < |fl| && n <= fl[i].n
  {
    Blk(fl[i].a + (fl[i].n - n), n)
  }

  lemma TakenGapped(fl: seq<Blk>, i: nat, n: nat)
    requires Gapped(fl) && 1 <= i < |fl| && 1 <= n <= fl[i].n
    ensures Gapped(Taken(fl, i, n)) && Taken(fl, i, n)[0] == fl[0]
  {
  }

  lemma TakenUnits(fl: seq<Blk>, i: nat, n: nat, u: nat)
    requires Gapped(fl) && 1 <= i < |fl| && 1 <= n <= fl[i].n
    ensures InFree(fl, u) <==> InFree(Taken(fl, i, n), u) || InBlk(TakenBlk(fl, i, n), u)
    ensures !(InFree(Taken(fl, i, n), u) && InBlk(TakenBlk(fl, i, n), u))
  {
    var t, b := Taken(fl, i, n), TakenBlk(fl, i, n);
    if j :| 0 <= j < |fl| && InBlk(fl[j], u) {
      if j == i {
        assert fl[i].n > n && !InBlk(b, u) ==> InBlk(t[i], u);
      } else {
        assert InBlk(t[if fl[i].n == n && j > i then j - 1 else j], u);
      }
    }
    if j :| 0 <= j < |t| && InBlk(t[j], u) {
      var o := if fl[i].n == n && j >= i then j + 1 else j;
      assert InBlk(fl[o], u);
      assert o != i ==> o < i || o > i;
    }
    if InBlk(b, u) {
      assert InBlk(fl[i], u);
    }
  }

  lemma TakenLinked(mem: map<nat, Header>, mem': map<nat, Header>, fl: seq<Blk>, i: nat, n: nat)
    requires Linked(mem, fl) && 1 <= i < |fl| && n <= fl[i].n
    requires fl[i].n == n ==> fl[i - 1].a in mem' && mem'[fl[i - 1].a] == Header(NextOf(fl, i), fl[i - 1].n)
    requires fl[i].n > n ==> fl[i].a in mem' && mem'[fl[i].a] == Header(NextOf(fl, i), fl[i].n - n)
    requires forall j | 0 <= j < |fl| && j != i && (fl[i].n == n ==> j != i - 1) :: SameHeader(mem, mem', fl[j].a)
    ensures Linked(mem', Taken(fl, i, n))
  {
    var t := Taken(fl, i, n);
    forall j: nat | j < |t|
      ensures LinkedAt(mem', t, j)
    {
      assert LinkedAt(mem, fl, j);
      if fl[i].n == n && j >= i {
        assert LinkedAt(mem, fl, j + 1);
        assert t[j] == fl[j + 1];
        assert j + 1 < |t| ==> t[j + 1] == fl[j + 2];
      }
    }
  }

  // ----- every granted unit is in exactly one block

  /** A unit is granted if it is allocated or free, and is never both. */
  ghost predicate UnitOk(fl: seq<Blk>, used: map<nat, nat>, owner: map<nat, nat>, granted: set<nat>, u: nat) {
    && (u in granted <==> u in owner || InFree(fl, u))
    && (u in owner ==> !InFree(fl, u) && owner[u] in used && InBlk(Blk(owner[u], used[owner[u]]), u))
  }

  ghost predicate Owns(owner: map<nat, nat>, a: nat, n: nat) {
    n >= 1 && forall u: nat | a <= u < a + n :: u in owner && owner[u] == a
  }

  /** `used` maps each allocated block to its size; `owner` each allocated unit to its block. */
  ghost predicate Partition(fl: seq<Blk>, used: map<nat, nat>, owner: map<nat, nat>, granted: set<nat>) {
    && (forall a | a in used :: Owns(owner, a, used[a]))
    && (forall u: nat :: UnitOk(fl, used, owner, granted, u))
  }

  /** Allocated blocks do not overlap each other or a free block. */
  lemma Disjoint(fl: seq<Blk>, used: map<nat, nat>, owner: map<nat, nat>, granted: set<nat>, a: nat, u: nat)
    requires Partition(fl, used, owner, granted) && a in used && InBlk(Blk(a, used[a]), u)
    ensures u in owner && u in granted && !InFree(fl, u)
    ensures forall b | b in used && InBlk(Blk(b, used[b]), u) :: b == a
  {
    assert Owns(owner, a, used[a]) && UnitOk(fl, used, owner, granted, u);
    forall b | b in used && InBlk(Blk(b, used[b]), u)
      ensures b == a
    {
      assert Owns(owner, b, used[b]);
    }
  }

  lemma Apart(fl: seq<Blk>, used: map<nat, nat>, owner: map<nat, nat>, granted: set<nat>, a: nat, i: nat)
    requires Gapped(fl) && Partition(fl, used, owner, granted) && a in used && fl[0].a < a && i < |fl|
    ensures fl[i].a + fl[i].n <= a || a + used[a] <= fl[i].a
    ensures fl[i].a != a
  {
    var u := if fl[i].a < a then a else fl[i].a;
    assert Owns(owner, a, used[a]);
    if InBlk(fl[i], u) && InBlk(Blk(a, used[a]), u) {
      Disjoint(fl, used, owner, granted, a, u);
      assert false;
    }
  }

  /** Freeing needs its argument to be allocated; the block then has a place in the list. */
  lemma PlaceOk(fl: seq<Blk>, used: map<nat, nat>, owner: map<nat, nat>, granted: set<nat>, b: nat, k: nat)
    requires Gapped(fl) && Partition(fl, used, owner, granted) && b in used
    requires k < |fl| && fl[0].a < b && fl[k].a < b && (k + 1 < |fl| ==> b < fl[k + 1].a)
    ensures Place(fl, k, Blk(b, used[b]))
  {
    assert Owns(owner, b, used[b]);
    Apart(fl, used, owner, granted, b, k);
    if k + 1 < |fl| {
      Apart(fl, used, owner, granted, b, k + 1);
    }
  }

  /** The index of the last free block below b. */
  lemma {:induction false} HasPlace(fl: seq<Blk>, used: map<nat, nat>, owner: map<nat, nat>, granted: set<nat>,
                                    b: nat, i: nat) returns (k: nat)
    requires Gapped(fl) && Partition(fl, used, owner, granted) && b in used && fl[0].a < b
    requires i < |fl| && (i + 1 < |fl| ==> b < fl[i + 1].a)
    ensures k < |fl| && fl[k].a < b && (k + 1 < |fl| ==> b < fl[k + 1].a)
  {
    if fl[i].a < b {
      k := i;
    } else {
      Apart(fl, used, owner, granted, b, i);
      k := HasPlace(fl, used, owner, granted, b, i - 1);
    }
  }

  lemma FreeIsGranted(fl: seq<Blk>, used: map<nat, nat>, owner: map<nat, nat>, granted: set<nat>, i: nat)
    requires Gapped(fl) && Partition(fl, used, owner, granted) && 1 <= i < |fl|
    ensures fl[i].a in granted && fl[i].a + fl[i].n - 1 in granted
  {
    assert InBlk(fl[i], fl[i].a) && InBlk(fl[i], fl[i].a + fl[i].n - 1);
    assert UnitOk(fl, used, owner, granted, fl[i].a) && UnitOk(fl, used, owner, granted, fl[i].a + fl[i].n - 1);
  }

  ghost function Without(owner: map<nat, nat>, b: Blk): map<nat, nat> {
    map u | u in owner && !InBlk(b, u) :: owner[u]
  }

  lemma PartitionFree(fl: seq<Blk>, used: map<nat, nat>, owner: map<nat, nat>, granted: set<nat>, k: nat, a: nat)
    requires Gapped(fl) && Partition(fl, used, owner, granted) && a in used && Place(fl, k, Blk(a, used[a]))
    ensures Partition(Insert(fl, k, Blk(a, used[a])), used - {a}, Without(owner, Blk(a, used[a])), granted)
  {
    var b := Blk(a, used[a]);
    var used', owner' := used - {a}, Without(owner, b);
    assert Owns(owner, a, used[a]);
    forall u: nat
      ensures UnitOk(Insert(fl, k, b), used', owner', granted, u)
    {
      InsertUnits(fl, k, b, u);
      assert UnitOk(fl, used, owner, granted, u);
    }
    forall c | c in used'
      ensures Owns(owner', c, used'[c])
    {
      assert Owns(owner, c, used[c]);
      forall u: nat | c <= u < c + used[c]
        ensures u in owner && !InBlk(b, u)
      {
        assert owner[u] == c;
      }
    }
  }

  ghost function Span(b: Blk): set<nat> {
    set u: nat | b.a <= u < b.a + b.n && InBlk(b, u)
  }

  ghost function With(owner: map<nat, nat>, b: Blk): map<nat, nat> {
    map u | u in owner.Keys + Span(b) :: if InBlk(b, u) then b.a else owner[u]
  }

  lemma PartitionTake(fl: seq<Blk>, used: map<nat, nat>, owner: map<nat, nat>, granted: set<nat>, i: nat, n: nat)
    requires Gapped(fl) && Partition(fl, used, owner, granted) && 1 <= i < |fl| && 1 <= n <= fl[i].n
    ensures var b := TakenBlk(fl, i, n);
            b.a !in used && Partition(Taken(fl, i, n), used[b.a := n], With(owner, b), granted)
  {
    var b := TakenBlk(fl, i, n);
    var used', owner' := used[b.a := n], With(owner, b);
    TakenUnits(fl, i, n, b.a);
    assert UnitOk(fl, used, owner, granted, b.a);
    assert b.a in used ==> Owns(owner, b.a, used[b.a]);
    forall u: nat
      ensures UnitOk(Taken(fl, i, n), used', owner', granted, u)
    {
      TakenUnits(fl, i, n, u);
      assert UnitOk(fl, used, owner, granted, u);
    }
    forall c | c in used'
      ensures Owns(owner', c, used'[c])
    {
      if c != b.a {
        assert Owns(owner, c, used[c]);
        forall u: nat | c <= u < c + used[c]
          ensures !InBlk(b, u)
        {
          assert UnitOk(fl, used, owner, granted, u);
          TakenUnits(fl, i, n, u);
        }
      }
    }
  }

  /** Units from sbrk, as a block not yet freed. */
  lemma PartitionGrant(fl: seq<Blk>, used: map<nat, nat>, owner: map<nat, nat>, granted: set<nat>, b: Blk)
    requires Partition(fl, used, owner, granted) && b.n >= 1 && (forall u | u in granted :: u < b.a)
    ensures b.a !in used
    ensures Partition(fl, used[b.a := b.n], With(owner, b), granted + Span(b))
  {
    assert UnitOk(fl, used, owner, granted, b.a);
    assert b.a in used ==> Owns(owner, b.a, used[b.a]);
    var used', granted' := used[b.a := b.n], granted + Span(b);
    forall u: nat
      ensures UnitOk(fl, used', With(owner, b), granted', u)
    {
      assert UnitOk(fl, used, owner, granted, u);
    }
    forall c: nat | c in used
      ensures Owns(With(owner, b), c, used[c])
    {
      assert Owns(owner, c, used[c]);
      forall u: nat | c <= u < c + used[c]
        ensures !InBlk(b, u)
      {
        assert UnitOk(fl, used, owner, granted, u);
      }
    }
  }

  // ----- the units add up

  ghost function FreeTotal(fl: seq<Blk>): nat {
    if fl == [] then 0 else FreeTotal(fl[..|fl| - 1]) + fl[|fl| - 1].n
  }

  ghost function UsedTotal(used: map<nat, nat>): nat {
    if used == map[] then 0 else var a :| a in used; used[a] + UsedTotal(used - {a})
  }

  lemma {:induction false} SpanSize(b: Blk)
    ensures |Span(b)| == b.n
    decreases b.n
  {
    if b.n == 0 {
      assert Span(b) == {};
    } else {
      var c := Blk(b.a, b.n - 1);
      SpanSize(c);
      assert Span(b) == Span(c) + {b.a + b.n - 1};
    }
  }

  /** The units of the free list. */
  lemma {:induction false} FreeSize(fl: seq<Blk>, free: set<nat>)
    requires forall i, j | 0 <= i < j < |fl| :: fl[i].a + fl[i].n <= fl[j].a
    requires forall u: nat :: u in free <==> InFree(fl, u)
    ensures |free| == FreeTotal(fl)
    decreases |fl|
  {
    if fl == [] {
      assert free == {};
    } else {
      var m, last := |fl| - 1, fl[|fl| - 1];
      var rest := free - Span(last);
      forall u: nat
        ensures u in rest <==> InFree(fl[..m], u)
        ensures u in Span(last) ==> u in free
      {
        if u in rest {
          var i :| 0 <= i < |fl| && InBlk(fl[i], u);
          assert InBlk(fl[..m][i], u);
        }
        if i :| 0 <= i < m && InBlk(fl[..m][i], u) {
          assert InBlk(fl[i], u) && fl[i].a + fl[i].n <= last.a;
        }
        assert u in Span(last) ==> InBlk(fl[m], u);
      }
      FreeSize(fl[..m], rest);
      SpanSize(last);
      assert free == rest + Span(last);
    }
  }

  /** Blocks own their units, and every owned unit is in the block that owns it. */
  ghost predicate Owned(used: map<nat, nat>, owner: map<nat, nat>) {
    && (forall a | a in used :: Owns(owner, a, used[a]))
    && forall u | u in owner :: owner[u] in used && InBlk(Blk(owner[u], used[owner[u]]), u)
  }

  lemma {:induction false} UsedSize(used: map<nat, nat>, owner: map<nat, nat>)
    requires Owned(used, owner)
    ensures |owner.Keys| == UsedTotal(used)
    decreases |used|
  {
    if used == map[] {
      assert owner.Keys == {};
    } else {
      var a :| a in used && UsedTotal(used) == used[a] + UsedTotal(used - {a});
      var b := Blk(a, used[a]);
      DropOwned(used, owner, a);
      DropSmaller(used, a);
      UsedSize(used - {a}, Without(owner, b));
      SpanSize(b);
    }
  }

  lemma DropOwned(used: map<nat, nat>, owner: map<nat, nat>, a: nat)
    requires Owned(used, owner) && a in used
    ensures Owned(used - {a}, Without(owner, Blk(a, used[a])))
    ensures var owner' := Without(owner, Blk(a, used[a]));
            owner.Keys == owner'.Keys + Span(Blk(a, used[a])) && owner'.Keys !! Span(Blk(a, used[a]))
  {
    var b, used' := Blk(a, used[a]), used - {a};
    var owner' := Without(owner, b);
    assert Owns(owner, a, used[a]);
    forall c: nat | c in used'
      ensures Owns(owner', c, used'[c])
    {
      assert Owns(owner, c, used[c]);
      forall u: nat | c <= u < c + used[c]
        ensures u in owner && !InBlk(b, u)
      {
        assert owner[u] == c;
      }
    }
  }

  lemma DropSmaller(used: map<nat, nat>, a: nat)
    requires a in used
    ensures |used - {a}| < |used|
  {
    assert (used - {a}).Keys + {a} == used.Keys;
    assert |used - {a}| == |(used - {a}).Keys| && |used| == |used.Keys|;
  }

  /** CONSERVATION. Free and allocated sizes add up to the units obtained from sbrk. */
  lemma UnitsAddUp(fl: seq<Blk>, used: map<nat, nat>, owner: map<nat, nat>, granted: set<nat>)
    requires Gapped(fl) && Partition(fl, used, owner, granted)
    ensures FreeTotal(fl) + UsedTotal(used) == |granted|
  {
    var free := granted - owner.Keys;
    forall u: nat
      ensures u in free <==> InFree(fl, u)
      ensures u in owner ==> u in granted && owner[u] in used && InBlk(Blk(owner[u], used[owner[u]]), u)
    {
      assert UnitOk(fl, used, owner, granted, u);
    }
    FreeSize(fl, free);
    UsedSize(used, owner);
    assert granted == free + owner.Keys;
  }
}
