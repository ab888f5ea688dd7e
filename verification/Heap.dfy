/** malloc, free and morecore over headers in memory (umalloc.c). */
module Heap {
  import opened HeapSpec

  const WORD := 0x1_0000_0000          // 2^32: uint arithmetic wraps here
  const HALF := 0x8000_0000            // 2^31: an int at or above this is negative; also KERNBASE
  const TOP := 0x1000_0000             // KERNBASE in units
  const MINCORE := 4096

  datatype Outcome = Block(ap: nat) | Null | Beyond

  /** malloc's nunits: the bytes asked for, rounded up, plus one unit for the header. */
  function UnitsFor(nbytes: nat): (n: nat)
    requires nbytes < WORD
    ensures 1 <= n <= 0x2000_0000
  {
    (nbytes + 7) % WORD / 8 + 1
  }

  function CoreFor(n: nat): nat {
    if n < MINCORE then MINCORE else n
  }

  /** The int that sbrk receives for nu units. */
  function SbrkArg(nu: nat): int {
    var bytes := nu * 8 % WORD;
    if bytes < HALF then bytes else bytes - WORD
  }

  /** sbrk grants nu units: the kernel has pages up to `limit` and nothing reaches KERNBASE. */
  predicate CanGrow(brk: nat, nu: nat, limit: nat) {
    brk + nu < TOP && brk + nu <= limit
  }

  /** A block of UnitsFor(nbytes) units has room for nbytes, except when the rounding wraps. */
  lemma LargeEnoughIff(nbytes: nat)
    requires nbytes < WORD
    ensures 8 * (UnitsFor(nbytes) - 1) >= nbytes <==> nbytes <= WORD - 8
    ensures nbytes <= WORD - 8 ==> 8 * (UnitsFor(nbytes) - 1) < nbytes + 8
    ensures UnitsFor(WORD - 1) == 1
  {
  }

  /** sbrk is asked for a positive amount exactly below 2^28 units. */
  lemma AskIff(nu: nat)
    requires MINCORE <= nu <= 0x2000_0000
    ensures SbrkArg(nu) > 0 <==> nu < TOP
    ensures SbrkArg(nu) > 0 ==> SbrkArg(nu) == 8 * nu
    ensures SbrkArg(nu) <= 0 ==> SbrkArg(nu) == 8 * nu - WORD
  {
  }

  lemma Regained(used: map<nat, nat>, a: nat, n: nat)
    requires a !in used
    ensures used[a := n] - {a} == used
  {
  }

  /** sys_sbrk and growproc on a process of sz bytes, for any number of bytes; the kernel has
      pages up to `limit`. A negative amount that would wrap leaves the size alone, and one
      that would reach exactly zero fails. */
  method SysSbrk(sz: nat, n: int, limit: nat) returns (addr: int, size: nat)
    requires sz < HALF && -HALF <= n < HALF
    ensures n > 0 ==> (addr != -1 <==> sz + n < HALF && sz + n <= limit)
    ensures n <= 0 ==> (addr == -1 <==> n < 0 && (sz == 0 || sz + n == 0))
    ensures addr == -1 ==> size == sz
    ensures addr != -1 ==> addr == sz && size == if n < 0 && sz + n < 0 then sz else sz + n
  {
    addr, size := sz, sz;
    if n > 0 {
      if sz + n >= HALF || sz + n > limit {
        return -1, sz;
      }
      size := sz + n;
    } else if n < 0 {
      var newsz := (sz + n) % WORD;
      var r := if newsz >= sz then sz else newsz;
      if r == 0 {
        return -1, sz;
      }
      size := r;
    }
  }

  /** Memory after the stores of free: the block at bp goes behind the one at p, merged with
      what it touches. */
  function Stored(mem: map<nat, Header>, p: nat, bp: nat): map<nat, Header>
    requires p in mem && bp in mem && mem[p].ptr in mem
  {
    var next := mem[p].ptr;
    var h := if bp + mem[bp].size == next then Header(mem[next].ptr, mem[bp].size + mem[next].size)
             else Header(next, mem[bp].size);
    mem[bp := h][p := if p + mem[p].size == bp then Header(h.ptr, mem[p].size + h.size) else Header(bp, mem[p].size)]
  }

  lemma InsertLinked(mem: map<nat, Header>, fl: seq<Blk>, k: nat, b: Blk)
    requires Gapped(fl) && Linked(mem, fl) && Place(fl, k, b) && b.a in mem && mem[b.a].size == b.n
    requires forall i: nat | i < |fl| :: fl[i].a != b.a && fl[i].a in mem
    ensures mem[fl[k].a].ptr in mem && mem[fl[k].a].ptr != b.a
    ensures Linked(Stored(mem, fl[k].a, b.a), Insert(fl, k, b))
  {
    assert LinkedAt(mem, fl, k);
    assert k + 1 < |fl| ==> LinkedAt(mem, fl, k + 1);
    assert k > 0 ==> LinkedAt(mem, fl, k - 1);
    var lo, hi := if Down(fl, k, b) then k else k + 1, if Up(fl, k, b) then k + 2 else k + 1;
    SpliceLinked(mem, Stored(mem, fl[k].a, b.a), fl, lo, hi, Joined(fl, k, b));
  }

  /** First fit: fl[i] is large enough, and going round from the block at freep every block
      before it is too small. */
  ghost predicate FirstFit(fl: seq<Blk>, freep: nat, n: nat, i: nat) {
    && 1 <= i < |fl| && fl[i].n >= n
    && exists f: nat ::
         f < |fl| && fl[f].a == freep
         && forall t: nat | t < |fl| && (if f < i then f < t < i else f < t || t < i) :: fl[t].n < n
  }

  /** From list fl and freep to fl' and freep': the block at ap is the end of the first free
      block, from freep on, that is large enough, and the next search starts before it. */
  ghost predicate TookFirst(fl: seq<Blk>, freep: nat, fl': seq<Blk>, freep': nat, n: nat, ap: nat) {
    exists i: nat ::
      && FirstFit(fl, freep, n, i) && freep' == fl[i - 1].a && ap - 1 == fl[i].a + fl[i].n - n && fl' == Taken(fl, i, n)
  }

  class Heap {
    const base: nat
    var mem: map<nat, Header>
    var freep: nat
    var brk: nat                        // the process size, in units
    ghost var fl: seq<Blk>              // base and the free blocks in address order
    ghost var used: map<nat, nat>       // allocated blocks and their sizes
    ghost var owner: map<nat, nat>      // allocated units and their blocks
    ghost var granted: set<nat>         // units obtained from sbrk

    ghost predicate Valid()
      reads this
    {
      && 0 < base < brk < TOP && Gapped(fl) && fl[0].a == base
      && Partition(fl, used, owner, granted)
      && (forall u | u in granted :: base < u < brk)
      && (forall a | a in used :: a in mem && mem[a].size == used[a] && base < a)
      && (if freep == 0 then |fl| == 1 && used == map[]
          else Linked(mem, fl) && exists i: nat :: i < |fl| && fl[i].a == freep)
    }

    constructor (base: nat, brk: nat)
      requires 0 < base < brk < TOP
      ensures Valid() && this.base == base && this.brk == brk && used == map[] && granted == {}
    {
      this.base := base;
      this.brk := brk;
      mem := map[];
      freep := 0;
      fl := [Blk(base, 0)];
      used := map[];
      owner := map[];
      granted := {};
    }

    /** The loop of free: the last free block below bp. */
    method FindPlace(bp: nat) returns (p: nat, ghost k: nat)
      requires Valid() && freep != 0 && bp in used
      ensures k < |fl| && fl[k].a == p && Place(fl, k, Blk(bp, used[bp]))
    {
      p := freep;
      k :| k < |fl| && fl[k].a == freep;
      ghost var goal := HasPlace(fl, used, owner, granted, bp, |fl| - 1);
      assert LinkedAt(mem, fl, k);
      while !(bp > p && bp < mem[p].ptr)
        invariant k < |fl| && fl[k].a == p && LinkedAt(mem, fl, k)
        invariant goal < |fl| && fl[goal].a < bp && (goal + 1 < |fl| ==> bp < fl[goal + 1].a)
        decreases if k <= goal then goal - k else goal - k + |fl|
      {
        if p >= mem[p].ptr && (bp > p || bp < mem[p].ptr) {
          break;
        }
        p := mem[p].ptr;
        k := if k + 1 < |fl| then k + 1 else 0;
        assert LinkedAt(mem, fl, k);
      }
      PlaceOk(fl, used, owner, granted, bp, k);
    }

    lemma Started(a: nat)
      requires Valid() && a in used
      ensures freep != 0
    {
    }

    lemma NotUsed(i: nat)
      requires Valid() && i < |fl|
      ensures fl[i].a !in used
    {
      if fl[i].a in used {
        Apart(fl, used, owner, granted, fl[i].a, i);
      }
    }

    /** Frees the block at ap: its units join the free list, merged with the free blocks
        they touch; no other allocated block changes. */
    method Free(ap: nat) returns (ghost k: nat)
      requires Valid() && ap >= 1 && ap - 1 in used
      modifies this
      ensures Valid() && freep != 0 && used == old(used) - {ap - 1} && granted == old(granted) && brk == old(brk)
      ensures Fits(fl, old(used[ap - 1])) && Place(old(fl), k, Blk(ap - 1, old(used[ap - 1])))
      ensures fl == Insert(old(fl), k, Blk(ap - 1, old(used[ap - 1])))
      // the next search starts at the block before the freed one
      ensures freep == old(fl)[k].a
    {
      var bp := ap - 1;
      Started(bp);
      var p;
      p, k := FindPlace(bp);
      ghost var b := Blk(bp, used[bp]);
      ghost var fl' := Insert(fl, k, b);
      FreeOk(bp, k, b, fl');
      Relink(p, bp, k, b, fl');
      GiveUp(p, bp, k, fl', Without(owner, b));
    }

    /** Every allocated block but the one at bp has its header. */
    ghost predicate HeadersOk(bp: nat)
      reads this
    {
      forall a | a in used && a != bp :: a in mem && mem[a].size == used[a] && base < a
    }

    /** The headers link the list fl'; free is done. */
    method GiveUp(p: nat, bp: nat, ghost k: nat, ghost fl': seq<Blk>, ghost owner': map<nat, nat>)
      requires 0 < base < brk < TOP && Gapped(fl') && fl'[0].a == base && Partition(fl', used - {bp}, owner', granted)
      requires forall u | u in granted :: base < u < brk
      requires HeadersOk(bp) && Linked(mem, fl') && k < |fl'| && fl'[k].a == p
      modifies this`fl, this`used, this`owner, this`freep
      ensures Valid() && freep == p != 0 && fl == fl' && used == old(used) - {bp}
    {
      fl, used, owner := fl', used - {bp}, owner';
      freep := p;
      FreeAbove(fl', k);
    }

    lemma FreeAbove(fs: seq<Blk>, k: nat)
      requires Gapped(fs) && k < |fs|
      ensures fs[k].a >= fs[0].a
    {
    }

    /** What makes the insertion right: the list stays in order, and the headers written are
        of no other allocated block. */
    lemma FreeOk(bp: nat, k: nat, b: Blk, fl': seq<Blk>)
      requires Valid() && freep != 0 && bp in used && b == Blk(bp, used[bp]) && Place(fl, k, b)
      requires fl' == Insert(fl, k, b)
      ensures Gapped(fl') && fl'[0].a == base && Fits(fl', b.n) && k < |fl'| && fl'[k].a == fl[k].a
      ensures Partition(fl', used - {bp}, Without(owner, b), granted)
    {
      InsertGapped(fl, k, b);
      InsertFits(fl, k, b);
      PartitionFree(fl, used, owner, granted, k, bp);
    }

    /** The stores of free once the place after p is known. */
    method Stores(p: nat, bp: nat)
      requires p in mem && bp in mem && mem[p].ptr in mem && p != bp && mem[p].ptr != bp
      modifies this`mem
      ensures mem == Stored(old(mem), p, bp)
    {
      var next := mem[p].ptr;
      if bp + mem[bp].size == next {
        mem := mem[bp := Header(mem[next].ptr, mem[bp].size + mem[next].size)];
      } else {
        mem := mem[bp := Header(next, mem[bp].size)];
      }
      if p + mem[p].size == bp {
        mem := mem[p := Header(mem[bp].ptr, mem[p].size + mem[bp].size)];
      } else {
        mem := mem[p := mem[p].(ptr := bp)];
      }
    }

    /** The new headers link exactly the list with the block inserted. */
    method Relink(p: nat, bp: nat, ghost k: nat, ghost b: Blk, ghost fl': seq<Blk>)
      requires Valid() && freep != 0 && bp in used && b == Blk(bp, used[bp]) && Place(fl, k, b) && fl[k].a == p
      requires fl' == Insert(fl, k, b)
      modifies this`mem
      ensures Linked(mem, fl') && HeadersOk(bp)
    {
      NotUsed(k);
      forall i: nat | i < |fl|
        ensures fl[i].a != bp && fl[i].a in mem
      {
        Apart(fl, used, owner, granted, bp, i);
        assert LinkedAt(mem, fl, i);
      }
      InsertLinked(mem, fl, k, b);
      Stores(p, bp);
    }

    /** sbrk of a whole number of units, as morecore asks for it. */
    method Sbrk(n: int, limit: nat) returns (a: int)
      requires n % 8 == 0 && -HALF <= n < HALF && 0 < brk < TOP
      modifies this`brk
      ensures n > 0 ==>
                (a != -1 <==> CanGrow(old(brk), n / 8, limit)) && brk == if a == -1 then old(brk) else old(brk) + n / 8
      ensures n <= 0 ==> (a == -1 <==> old(brk) * 8 + n == 0)
      ensures n <= 0 ==> brk == if old(brk) * 8 + n <= 0 then old(brk) else old(brk) + n / 8
      ensures if a == -1 then brk == old(brk) else a == old(brk)
    {
      var addr, size := SysSbrk(brk * 8, n, limit * 8);
      a := if addr == -1 then -1 else brk;
      brk := size / 8;
    }

    /** The units [hp, hp + core) just obtained, as one allocated block. */
    method Grant(hp: nat, core: nat)
      requires 0 < base && Gapped(fl) && fl[0].a == base && Partition(fl, used, owner, granted)
      requires forall u | u in granted :: base < u < hp
      requires forall a | a in used :: a in mem && mem[a].size == used[a] && base < a
      requires freep != 0 && Linked(mem, fl) && exists i: nat :: i < |fl| && fl[i].a == freep
      requires base < hp && 1 <= core && brk == hp + core < TOP
      modifies this`mem, this`used, this`owner, this`granted
      ensures Valid() && hp !in old(used) && used == old(used)[hp := core]
      ensures granted == old(granted) + Span(Blk(hp, core))
    {
      PartitionGrant(fl, used, owner, granted, Blk(hp, core));
      forall i | 0 <= i < |fl|
        ensures SameHeader(mem, mem[hp := Header(0, core)], fl[i].a)
      {
        assert LinkedAt(mem, fl, i);
        if i > 0 {
          FreeIsGranted(fl, used, owner, granted, i);
        }
      }
      LinkedFrame(mem, mem[hp := Header(0, core)], fl);
      mem := mem[hp := Header(0, core)];
      used := used[hp := core];
      owner := With(owner, Blk(hp, core));
      granted := granted + Span(Blk(hp, core));
    }

    /** morecore once sbrk has returned hp. */
    method Feed(hp: nat, core: nat)
      requires 0 < base && Gapped(fl) && fl[0].a == base && Partition(fl, used, owner, granted)
      requires forall u | u in granted :: base < u < hp
      requires forall a | a in used :: a in mem && mem[a].size == used[a] && base < a
      requires freep != 0 && Linked(mem, fl) && exists i: nat :: i < |fl| && fl[i].a == freep
      requires base < hp && 1 <= core && brk == hp + core < TOP
      modifies this
      ensures Valid() && freep != 0 && brk == old(brk) && used == old(used) && Fits(fl, core)
      ensures granted == old(granted) + Span(Blk(hp, core))
    {
      Grant(hp, core);
      ghost var k := Free(hp + 1);
      Regained(old(used), hp, core);
    }

    /** Asks sbrk for at least nu units and frees them into the list. */
    method Morecore(nu: nat, limit: nat) returns (r: Outcome)
      requires Valid() && freep != 0 && 1 <= nu <= 0x2000_0000
      modifies this
      ensures var core := CoreFor(nu);
              && (r.Block? <==> CanGrow(old(brk), core, limit))
              && (r.Beyond? <==> core >= TOP && old(brk) + core != 0x2000_0000)
              && core == (if nu < 4096 then 4096 else nu)
              && (r.Block? <==> old(brk) + core < 0x8000_0000 / 8 && old(brk) + core <= limit)
              && (r.Block? ==> Fits(fl, nu) && brk == old(brk) + core)
              && (r.Block? ==> granted == old(granted) + Span(Blk(old(brk), core)))
              && (!r.Block? ==> granted == old(granted) && fl == old(fl))
              && (r.Null? ==> brk == old(brk) && freep == old(freep))
      ensures (!r.Beyond? ==> Valid() && freep != 0) && used == old(used)
      ensures r.Block? ==> r.ap == freep
    {
      var core := CoreFor(nu);
      AskIff(core);
      var hp := Sbrk(SbrkArg(core), limit);
      if hp == -1 {
        return Null;
      }
      if SbrkArg(core) <= 0 {
        return Beyond;
      }
      Feed(hp, core);
      return Block(freep);
    }

    /** Cuts nunits off the end of the block at p, or unlinks it if it fits exactly. */
    method Take(prevp: nat, p: nat, nunits: nat, ghost i: nat) returns (ap: nat)
      requires Valid() && freep != 0 && 1 <= i < |fl| && fl[i].a == p && fl[i - 1].a == prevp && 1 <= nunits <= fl[i].n
      modifies this
      ensures Valid() && freep == prevp && brk == old(brk) && granted == old(granted)
      ensures ap >= 1 && ap - 1 !in old(used) && used == old(used)[ap - 1 := nunits] && fl == Taken(old(fl), i, nunits)
      // the tail of the block
      ensures ap - 1 == old(fl[i].a) + old(fl[i].n) - nunits
    {
      ghost var b := TakenBlk(fl, i, nunits);
      TakeOk(prevp, p, nunits, i);
      ap := Carve(prevp, p, nunits, i);
      used := used[ap - 1 := nunits];
      owner := With(owner, b);
      fl := Taken(fl, i, nunits);
      freep := prevp;
      assert fl[i - 1].a == prevp;
    }

    /** What makes the cut right: the block is free, and no header of an allocated block is touched. */
    lemma TakeOk(prevp: nat, p: nat, nunits: nat, i: nat)
      requires Valid() && freep != 0 && 1 <= i < |fl| && fl[i].a == p && fl[i - 1].a == prevp && 1 <= nunits <= fl[i].n
      ensures var b, fl' := TakenBlk(fl, i, nunits), Taken(fl, i, nunits);
              && b.a !in used && base < b.a && Gapped(fl') && fl'[0] == fl[0]
              && Partition(fl', used[b.a := nunits], With(owner, b), granted)
              && forall a | a in used :: a != p && a != prevp && a != b.a
    {
      var b := TakenBlk(fl, i, nunits);
      TakenGapped(fl, i, nunits);
      PartitionTake(fl, used, owner, granted, i, nunits);
      FreeIsGranted(fl, used, owner, granted, i);
      forall a | a in used
        ensures a != p && a != prevp && a != b.a
      {
        Apart(fl, used, owner, granted, a, i);
        Apart(fl, used, owner, granted, a, i - 1);
      }
    }

    method Carve(prevp: nat, p: nat, nunits: nat, ghost i: nat) returns (ap: nat)
      requires Gapped(fl) && Linked(mem, fl) && 1 <= i < |fl| && fl[i].a == p && fl[i - 1].a == prevp
      requires 1 <= nunits <= fl[i].n
      modifies this`mem
      ensures Linked(mem, Taken(fl, i, nunits)) && ap == TakenBlk(fl, i, nunits).a + 1
      ensures ap - 1 in mem && mem[ap - 1].size == nunits
      ensures forall a | a in old(mem) && a != p && a != prevp && a != ap - 1 :: a in mem && mem[a] == old(mem[a])
    {
      forall j: nat | j < |fl|
        ensures fl[j].a in mem
      {
        assert LinkedAt(mem, fl, j);
      }
      assert LinkedAt(mem, fl, i) && LinkedAt(mem, fl, i - 1);
      var at := p;
      if mem[p].size == nunits {
        mem := mem[prevp := mem[prevp].(ptr := mem[p].ptr)];
      } else {
        mem := mem[p := mem[p].(size := mem[p].size - nunits)];
        at := p + mem[p].size;
        mem := mem[at := Header(if at in mem then mem[at].ptr else 0, nunits)];
      }
      TakenLinked(old(mem), mem, fl, i, nunits);
      ap := at + 1;
    }

    /** Index t lies strictly between f and i going round the circle. */
    predicate Between(f: nat, i: nat, t: nat) {
      if f < i then f < t < i else f < t || t < i
    }

    ghost predicate SmallAt(f: nat, i: nat, t: nat, nunits: nat)
      reads this
      requires t < |fl|
    {
      Between(f, i, t) ==> fl[t].n < nunits
    }

    /** Where the search stands: freep is fl[f], p is fl[i], prevp is the block before it,
        and every block passed on the way is too small. */
    ghost predicate Searching(prevp: nat, p: nat, f: nat, i: nat, nunits: nat)
      reads this
    {
      && f < |fl| && i < |fl| && fl[f].a == freep && fl[i].a == p
      && fl[if i == 0 then |fl| - 1 else i - 1].a == prevp
      && forall t: nat | t < |fl| :: SmallAt(f, i, t, nunits)
    }

    lemma PassedSmall(f: nat, i: nat, nunits: nat)
      requires f < |fl| && fl[f].a == freep && 1 <= i < |fl| && fl[i].n >= nunits
      requires forall t: nat | t < |fl| :: SmallAt(f, i, t, nunits)
      ensures FirstFit(fl, freep, nunits, i)
    {
      forall t: nat | t < |fl| && (if f < i then f < t < i else f < t || t < i)
        ensures fl[t].n < nunits
      {
        assert SmallAt(f, i, t, nunits);
      }
    }

    /** The block prevp->ptr, first in the circle after freep. */
    lemma FirstStep(f: nat, nunits: nat)
      requires Valid() && freep != 0 && f < |fl| && fl[f].a == freep
      ensures freep in mem && Searching(freep, mem[freep].ptr, f, if f + 1 < |fl| then f + 1 else 0, nunits)
    {
      assert LinkedAt(mem, fl, f);
    }

    lemma Advance(prevp: nat, p: nat, f: nat, i: nat, nunits: nat)
      requires Valid() && freep != 0 && Searching(prevp, p, f, i, nunits) && p in mem && mem[p].size < nunits
      requires p != freep
      ensures Searching(p, mem[p].ptr, f, if i + 1 < |fl| then i + 1 else 0, nunits)
    {
      var next := if i + 1 < |fl| then i + 1 else 0;
      assert LinkedAt(mem, fl, i);
      forall t: nat | t < |fl|
        ensures SmallAt(f, next, t, nunits)
      {
        assert SmallAt(f, i, t, nunits);
      }
    }

    lemma Exhausted(prevp: nat, p: nat, f: nat, i: nat, nunits: nat)
      requires Valid() && freep != 0 && Searching(prevp, p, f, i, nunits) && p in mem && mem[p].size < nunits
      requires p == freep
      ensures !Fits(fl, nunits)
    {
      assert LinkedAt(mem, fl, i);
      assert i == f;
      forall t: nat | t < |fl|
        ensures fl[t].n < nunits
      {
        assert SmallAt(f, i, t, nunits);
      }
    }

    lemma Here(prevp: nat, p: nat, f: nat, i: nat, nunits: nat)
      requires Valid() && freep != 0 && nunits >= 1 && Searching(prevp, p, f, i, nunits)
      ensures p in mem
      ensures mem[p].size >= nunits ==> 1 <= i && fl[i - 1].a == prevp && nunits <= fl[i].n && Fits(fl, nunits)
    {
      assert LinkedAt(mem, fl, i);
    }

    /** On the first call, the list is base alone. */
    method Init()
      requires Valid()
      modifies this`mem, this`freep
      ensures Valid() && freep != 0 && (old(freep) != 0 ==> freep == old(freep))
    {
      if freep == 0 {
        mem := mem[base := Header(base, 0)];
        freep := base;
        assert LinkedAt(mem, fl, 0);
      }
    }

    /** One pass of malloc's loop: from the block after freep round to freep itself, up to
        the first that is large enough. */
    method Pass(nunits: nat) returns (prevp: nat, p: nat, found: bool, ghost f: nat, ghost i: nat)
      requires Valid() && freep != 0 && nunits >= 1
      ensures found <==> Fits(fl, nunits)
      ensures found ==> 1 <= i < |fl| && fl[i].a == p && fl[i - 1].a == prevp && nunits <= fl[i].n
      // first fit: going round from freep, every block passed is too small
      ensures f < |fl| && fl[f].a == freep
      ensures found ==> forall t: nat | t < |fl| :: SmallAt(f, i, t, nunits)
    {
      prevp := freep;
      f :| f < |fl| && fl[f].a == freep;
      FirstStep(f, nunits);
      p := mem[prevp].ptr;
      i := if f + 1 < |fl| then f + 1 else 0;
      while true
        invariant Searching(prevp, p, f, i, nunits)
        decreases if i <= f then f - i else f - i + |fl|
      {
        Here(prevp, p, f, i, nunits);
        if mem[p].size >= nunits {
          return prevp, p, true, f, i;
        }
        if p == freep {
          Exhausted(prevp, p, f, i, nunits);
          return prevp, p, false, f, i;
        }
        Advance(prevp, p, f, i, nunits);
        prevp, p := p, mem[p].ptr;
        i := if i + 1 < |fl| then i + 1 else 0;
      }
    }

    /** malloc's loop: a pass over the circle, at most one successful morecore, then a
        pass that finds the block. */
    method Search(nunits: nat, limit: nat) returns (r: Outcome)
      requires Valid() && freep != 0 && 1 <= nunits <= 0x2000_0000
      modifies this
      ensures !r.Beyond? ==> Valid()
      ensures Fits(old(fl), nunits) ==> r.Block? && brk == old(brk) && granted == old(granted)
      ensures Fits(old(fl), nunits) ==> TookFirst(old(fl), old(freep), fl, freep, nunits, r.ap)
      ensures !Fits(old(fl), nunits) ==>
                && (r.Block? <==> CanGrow(old(brk), CoreFor(nunits), limit))
                && (r.Beyond? <==> CoreFor(nunits) >= TOP && old(brk) + CoreFor(nunits) != 0x2000_0000)
                && (r.Block? ==> granted == old(granted) + Span(Blk(old(brk), CoreFor(nunits))))
      ensures r.Block? ==> r.ap >= 1 && r.ap - 1 !in old(used) && used == old(used)[r.ap - 1 := nunits]
      ensures !r.Block? ==> used == old(used) && granted == old(granted)
    {
      ghost var grew, fit := false, Fits(fl, nunits);
      while true
        invariant Valid() && freep != 0
        // nothing so far, or one successful morecore
        invariant used == old(used)
        invariant !grew ==> fl == old(fl) && brk == old(brk) && granted == old(granted) && freep == old(freep)
        invariant fit == Fits(old(fl), nunits)
        invariant grew ==> !fit && Fits(fl, nunits) && CanGrow(old(brk), CoreFor(nunits), limit)
        invariant grew ==> granted == old(granted) + Span(Blk(old(brk), CoreFor(nunits)))
        decreases !grew
      {
        var found;
        found, r := Turn(nunits, limit);
        if found || !r.Block? {
          return;
        }
        grew := true;
      }
    }

    /** One turn: a pass, then the block cut off or more core asked for. */
    method Turn(nunits: nat, limit: nat) returns (found: bool, r: Outcome)
      requires Valid() && freep != 0 && 1 <= nunits <= 0x2000_0000
      modifies this
      ensures found <==> Fits(old(fl), nunits)
      ensures found ==>
                && Valid() && r.Block? && r.ap >= 1 && r.ap - 1 !in old(used) && used == old(used)[r.ap - 1 := nunits]
                && brk == old(brk) && granted == old(granted) && TookFirst(old(fl), old(freep), fl, freep, nunits, r.ap)
      ensures !found ==>
                && used == old(used) && (r.Block? <==> CanGrow(old(brk), CoreFor(nunits), limit))
                && (r.Beyond? <==> CoreFor(nunits) >= TOP && old(brk) + CoreFor(nunits) != 0x2000_0000)
                && (r.Block? ==> Fits(fl, nunits) && granted == old(granted) + Span(Blk(old(brk), CoreFor(nunits))))
                && (!r.Block? ==> granted == old(granted))
                && (!r.Beyond? ==> Valid() && freep != 0)
    {
      ghost var f, i: nat;
      var prevp, p;
      prevp, p, found, f, i := Pass(nunits);
      if found {
        PassedSmall(f, i, nunits);
        var ap := Take(prevp, p, nunits, i);
        r := Block(ap);
      } else {
        r := Morecore(nunits, limit);
      }
    }

    /** Allocates nbytes: from the free list if some block fits, otherwise from a grant of
        sbrk; every other allocated block keeps its place and size. */
    method Malloc(nbytes: nat, limit: nat) returns (r: Outcome)
      requires Valid() && nbytes < WORD
      modifies this
      ensures !r.Beyond? ==> Valid()
      ensures var nunits := UnitsFor(nbytes);
              && (Fits(old(fl), nunits) ==>
                    && r.Block? && granted == old(granted)
                    && TookFirst(old(fl), old(freep), fl, freep, nunits, r.ap))
              && (!Fits(old(fl), nunits) ==>
                    && (r.Block? <==> CanGrow(old(brk), CoreFor(nunits), limit))
                    && (r.Beyond? <==> nunits >= TOP && old(brk) + nunits != 0x2000_0000)
                    && (r.Block? ==> granted == old(granted) + Span(Blk(old(brk), CoreFor(nunits)))))
              && (r.Block? ==> r.ap >= 1 && r.ap - 1 !in old(used) && used == old(used)[r.ap - 1 := nunits])
      ensures r.Block? ==> (8 * (used[r.ap - 1] - 1) >= nbytes <==> nbytes <= WORD - 8)
      ensures !r.Block? ==> used == old(used) && granted == old(granted)
    {
      var nunits := UnitsFor(nbytes);
      Init();
      r := Search(nunits, limit);
      LargeEnoughIff(nbytes);
    }
  }
}
