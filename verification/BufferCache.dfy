/** The buffer cache (bio.c) over the memory disk (memide.c).

    Buffers are the records of `bcache.buf`; pointers are their indices, and index
    `nbuf` is the list head. Every method below is one critical section, so the
    invariant it keeps holds in every interleaving of its callers. */
module BufferCache {
  import opened Wrappers
  import opened Blocks

  /** `owner` is the pid in the sleep lock, 0 when unlocked. */
  datatype Buf = Buf(valid: bool, dirty: bool, dev: nat, blockno: nat, refcnt: nat,
                     owner: nat, prev: nat, next: nat, data: Block)

  const DISK := 1  // memide.c serves device 1 only

  // ----- the LRU list

  function After(order: seq<nat>, i: nat): nat
    requires i < |order|
  {
    order[if i + 1 < |order| then i + 1 else 0]
  }

  function Before(order: seq<nat>, i: nat): nat
    requires i < |order|
  {
    order[if i > 0 then i - 1 else |order| - 1]
  }

  /** The record at position i points to its neighbours in `order`. */
  predicate LinkedAt(bs: seq<Buf>, order: seq<nat>, i: nat) {
    && i < |order| && order[i] < |bs|
    && bs[order[i]].next == After(order, i) && bs[order[i]].prev == Before(order, i)
  }

  /** `order`, starting at the head, is one cycle along `next` and, backwards,
      along `prev`. */
  predicate Ring(bs: seq<Buf>, order: seq<nat>) {
    && |order| >= 1 && |bs| >= 1 && order[0] == |bs| - 1
    && (forall i | 0 <= i < |order| :: order[i] < |bs|)
    && (forall i, j | 0 <= i < j < |order| :: order[i] != order[j])
    && (forall i | 0 <= i < |order| :: LinkedAt(bs, order, i))
  }

  /** The cycle runs through every record. */
  predicate Cycle(bs: seq<Buf>, order: seq<nat>) {
    Ring(bs, order) && forall x | 0 <= x < |bs| :: x in order
  }

  /** Records equal in their links. */
  predicate SameLinks(bs: seq<Buf>, cs: seq<Buf>) {
    && |bs| == |cs|
    && forall i | 0 <= i < |bs| :: bs[i].prev == cs[i].prev && bs[i].next == cs[i].next
  }

  lemma CycleFrame(bs: seq<Buf>, cs: seq<Buf>, order: seq<nat>)
    requires Cycle(bs, order) && SameLinks(bs, cs)
    ensures Cycle(cs, order)
  {
    forall i | 0 <= i < |order|
      ensures LinkedAt(cs, order, i)
    {
      assert LinkedAt(bs, order, i);
    }
  }

  /** brelse's relinking: take b out and put it behind the head. */
  function Unlink(bs: seq<Buf>, b: nat): (cs: seq<Buf>)
    requires b < |bs| && bs[b].next < |bs| && bs[b].prev < |bs|
    ensures |cs| == |bs|
  {
    var n, p := bs[b].next, bs[b].prev;
    var cs := bs[n := bs[n].(prev := p)];
    cs[p := cs[p].(next := n)]
  }

  function LinkFront(bs: seq<Buf>, b: nat): (cs: seq<Buf>)
    requires b < |bs| && bs[|bs| - 1].next < |bs|
    ensures |cs| == |bs|
  {
    var h := |bs| - 1;
    var n := bs[h].next;
    var cs := bs[b := bs[b].(next := n, prev := h)];
    var ds := cs[n := cs[n].(prev := b)];
    ds[h := ds[h].(next := b)]
  }

  function Drop(order: seq<nat>, k: nat): seq<nat>
    requires k < |order|
  {
    order[..k] + order[k + 1..]
  }

  lemma UnlinkFields(bs: seq<Buf>, b: nat, x: nat)
    requires b < |bs| && bs[b].next < |bs| && bs[b].prev < |bs| && x < |bs|
    ensures Unlink(bs, b)[x].next == if x == bs[b].prev then bs[b].next else bs[x].next
    ensures Unlink(bs, b)[x].prev == if x == bs[b].next then bs[b].prev else bs[x].prev
  {
  }

  lemma UnlinkAt(bs: seq<Buf>, order: seq<nat>, k: nat, i: nat)
    requires Ring(bs, order) && 1 <= k < |order| && i < |order| - 1 && LinkedAt(bs, order, k)
    ensures LinkedAt(Unlink(bs, order[k]), Drop(order, k), i)
  {
    var o := if i < k then i else i + 1;
    var rest := Drop(order, k);
    assert rest[i] == order[o];
    var q := if k + 1 < |order| then k + 1 else 0;
    assert LinkedAt(bs, order, o);
    assert bs[order[k]].next == order[q] && bs[order[k]].prev == order[k - 1];
    UnlinkFields(bs, order[k], order[o]);
    assert order[o] == order[k - 1] <==> o == k - 1;
    assert order[o] == order[q] <==> o == q;
  }

  lemma DropDistinct(order: seq<nat>, k: nat)
    requires k < |order| && forall i, j | 0 <= i < j < |order| :: order[i] != order[j]
    ensures var rest := Drop(order, k); forall i, j | 0 <= i < j < |rest| :: rest[i] != rest[j]
  {
  }

  lemma UnlinkRing(bs: seq<Buf>, order: seq<nat>, k: nat)
    requires Ring(bs, order) && 1 <= k < |order| && LinkedAt(bs, order, k)
    ensures Ring(Unlink(bs, order[k]), Drop(order, k))
  {
    DropDistinct(order, k);
    forall i | 0 <= i < |order| - 1
      ensures LinkedAt(Unlink(bs, order[k]), Drop(order, k), i)
    {
      UnlinkAt(bs, order, k, i);
    }
  }

  function Front(order: seq<nat>, b: nat): seq<nat>
    requires |order| >= 1
  {
    [order[0], b] + order[1..]
  }

  /** The list with b moved to its front; everyone else keeps its place in line. */
  ghost predicate ToFront(order: seq<nat>, order': seq<nat>, b: nat) {
    exists k: nat :: 1 <= k < |order| && order[k] == b && order' == [order[0], b] + order[1..k] + order[k + 1..]
  }

  lemma FrontOfDrop(order: seq<nat>, k: nat)
    requires 1 <= k < |order|
    ensures Front(Drop(order, k), order[k]) == [order[0], order[k]] + order[1..k] + order[k + 1..]
  {
    assert Drop(order, k)[1..] == order[1..k] + order[k + 1..];
  }

  /** The list is in the order of the stamps, the latest first, and no stamp is ahead of the
      clock. A stamp is the time of the last release, or of binit. */
  ghost predicate ByAge(order: seq<nat>, stamp: seq<nat>, clock: nat) {
    && (forall i | 0 <= i < |order| :: order[i] < |stamp|) && (forall b | 0 <= b < |stamp| :: stamp[b] <= clock)
    && forall i, j | 1 <= i < j < |order| :: stamp[order[i]] > stamp[order[j]]
  }

  /** Moved to the front, b is the latest. */
  lemma FrontByAge(order: seq<nat>, stamp: seq<nat>, clock: nat, b: nat)
    requires |order| >= 1 && b !in order && b < |stamp| && ByAge(order, stamp, clock)
    ensures ByAge(Front(order, b), stamp[b := clock + 1], clock + 1)
  {
    var more := Front(order, b);
    assert forall i | 2 <= i < |more| :: more[i] == order[i - 1];
    assert forall i | 0 <= i < |order| :: order[i] in order;
  }

  lemma DropByAge(order: seq<nat>, stamp: seq<nat>, clock: nat, k: nat)
    requires 1 <= k < |order| && ByAge(order, stamp, clock)
    ensures ByAge(Drop(order, k), stamp, clock)
  {
    var rest := Drop(order, k);
    assert forall i | 0 <= i < |rest| :: rest[i] == order[if i < k then i else i + 1];
  }

  lemma LinkFrontFields(bs: seq<Buf>, b: nat, x: nat)
    requires b < |bs| - 1 && bs[|bs| - 1].next < |bs| && bs[|bs| - 1].next != b && x < |bs|
    ensures var h := |bs| - 1; var n := bs[h].next; var c := LinkFront(bs, b)[x];
            && c.next == (if x == h then b else if x == b then n else bs[x].next)
            && c.prev == if x == n then b else if x == b then h else bs[x].prev
  {
  }

  lemma LinkFrontAt(bs: seq<Buf>, order: seq<nat>, b: nat, i: nat)
    requires Ring(bs, order) && b < |bs| && b !in order && i < |order| + 1 && LinkedAt(bs, order, 0)
    ensures LinkedAt(LinkFront(bs, b), Front(order, b), i)
  {
    var more := Front(order, b);
    var q := if 1 < |order| then 1 else 0;
    assert bs[|bs| - 1].next == order[q];
    LinkFrontFields(bs, b, more[i]);
    if i != 1 {
      var o := if i == 0 then 0 else i - 1;
      assert more[i] == order[o] && LinkedAt(bs, order, o);
      assert order[o] == order[0] <==> o == 0;
      assert order[o] == order[q] <==> o == q;
    }
  }

  lemma FrontDistinct(order: seq<nat>, b: nat)
    requires |order| >= 1 && b !in order && forall i, j | 0 <= i < j < |order| :: order[i] != order[j]
    ensures var more := Front(order, b); forall i, j | 0 <= i < j < |more| :: more[i] != more[j]
  {
    var more := Front(order, b);
    forall i, j | 0 <= i < j < |more|
      ensures more[i] != more[j]
    {
      assert j >= 2 ==> more[j] == order[j - 1];
      assert i >= 2 ==> more[i] == order[i - 1];
    }
  }

  lemma LinkFrontRing(bs: seq<Buf>, order: seq<nat>, b: nat)
    requires Ring(bs, order) && b < |bs| && b !in order && LinkedAt(bs, order, 0)
    ensures Ring(LinkFront(bs, b), Front(order, b))
  {
    FrontDistinct(order, b);
    forall i | 0 <= i < |order| + 1
      ensures LinkedAt(LinkFront(bs, b), Front(order, b), i)
    {
      LinkFrontAt(bs, order, b, i);
    }
  }

  // ----- contents

  /** Record i is a buffer for block b of device dev. */
  predicate Names(bs: seq<Buf>, i: nat, dev: nat, b: nat) {
    i < |bs| - 1 && bs[i].dev == dev && bs[i].blockno == b
  }

  predicate Shows(bs: seq<Buf>, i: nat, b: nat) {
    Names(bs, i, DISK, b) && bs[i].valid
  }

  /** A buffer that bget may recycle. */
  predicate Free(bs: seq<Buf>, i: nat) {
    i < |bs| - 1 && bs[i].refcnt == 0 && !bs[i].dirty
  }

  /** Record b is free and every record behind it in the list is in use. */
  ghost predicate LastFree(bs: seq<Buf>, order: seq<nat>, b: nat) {
    Free(bs, b) &&
    exists k | 0 <= k < |order| ::
      order[k] == b && forall j | k < j < |order| :: !Free(bs, order[j])
  }

  /** LEAST RECENTLY USED. The last free buffer in the list is the one released longest ago. */
  lemma LastIsOldest(bs: seq<Buf>, order: seq<nat>, stamp: seq<nat>, clock: nat, b: nat, i: nat)
    requires Cycle(bs, order) && ByAge(order, stamp, clock) && LastFree(bs, order, b) && Free(bs, i)
    ensures b < |stamp| && i < |stamp| && stamp[b] <= stamp[i]
  {
    var k :| 0 <= k < |order| && order[k] == b && forall j | k < j < |order| :: !Free(bs, order[j]);
    assert i in order;
    var l :| 0 <= l < |order| && order[l] == i;
    assert l >= 1;
  }

  /** One buffer on its own: a held lock is referenced, a dirty buffer has been
      read, and an unlocked clean buffer agrees with the disk. */
  predicate BufOk(r: Buf, disk: Image) {
    && (r.owner != 0 ==> r.refcnt >= 1)
    && (r.dirty ==> r.valid)
    && (r.valid ==> r.dev == DISK && r.blockno < |disk|)
    && (r.valid && !r.dirty && r.owner == 0 ==> r.data == disk[r.blockno])
  }

  /** Changed, and neither logged nor written out. */
  ghost predicate Unsaved(r: Buf, disk: Image) {
    r.valid && !r.dirty && r.blockno < |disk| && r.data != disk[r.blockno]
  }

  /** No two buffers of a real device (dev != 0) name the same block. */
  predicate Unique(bs: seq<Buf>) {
    forall i, j | 0 <= i < j < |bs| - 1 && bs[i].dev != 0 ::
      !(bs[i].dev == bs[j].dev && bs[i].blockno == bs[j].blockno)
  }

  predicate CacheOk(bs: seq<Buf>, disk: Image) {
    && |bs| >= 1 && Unique(bs)
    && forall i | 0 <= i < |bs| - 1 :: BufOk(bs[i], disk)
  }

  /** The simple block map the cache stands for: the cached copy if a buffer has
      been read for the block, the disk otherwise. */
  ghost function Logical(bs: seq<Buf>, disk: Image, b: nat): Block
    requires b < |disk|
  {
    if exists i: nat :: Shows(bs, i, b) then
      var i: nat :| Shows(bs, i, b);
      bs[i].data
    else disk[b]
  }

  ghost predicate SameLogical(bs: seq<Buf>, disk: Image, cs: seq<Buf>, e: Image) {
    && |disk| == |e|
    && forall b | 0 <= b < |disk| :: Logical(bs, disk, b) == Logical(cs, e, b)
  }

  lemma LogicalIs(bs: seq<Buf>, disk: Image, b: nat, i: nat)
    requires CacheOk(bs, disk) && b < |disk| && Shows(bs, i, b)
    ensures Logical(bs, disk, b) == bs[i].data
  {
  }

  /** What one record's change does to the block map. */
  lemma UpdateLogical(bs: seq<Buf>, disk: Image, i: nat, r: Buf, e: Image, b: nat)
    requires CacheOk(bs, disk) && i < |bs| - 1 && CacheOk(bs[i := r], e)
    requires |disk| == |e| && b < |disk|
    requires disk[b] == e[b] || Shows(bs, i, b)
    ensures Logical(bs[i := r], e, b) ==
            if r.valid && r.blockno == b then r.data
            else if Shows(bs, i, b) then e[b]
            else Logical(bs, disk, b)
  {
    var cs := bs[i := r];
    if Shows(cs, i, b) {
      LogicalIs(cs, e, b, i);
    } else if Shows(bs, i, b) {
      assert forall j: nat | j != i :: !Shows(cs, j, b);
    } else if j: nat :| Shows(bs, j, b) {
      LogicalIs(bs, disk, b, j);
      assert Shows(cs, j, b);
      LogicalIs(cs, e, b, j);
    } else {
      assert forall j: nat :: Shows(cs, j, b) ==> j == i || Shows(bs, j, b);
    }
  }

  /** A record of unchanged identity and links, showing what the block map says. */
  lemma RecordOk(bs: seq<Buf>, disk: Image, order: seq<nat>, i: nat, r: Buf)
    requires Cycle(bs, order) && CacheOk(bs, disk) && i < |bs| - 1 && BufOk(r, disk)
    requires r.dev == bs[i].dev && r.blockno == bs[i].blockno && r.prev == bs[i].prev && r.next == bs[i].next
    requires r.valid ==> r.data == Logical(bs, disk, r.blockno)
    requires bs[i].valid ==> r.valid
    ensures Cycle(bs[i := r], order) && CacheOk(bs[i := r], disk) && SameLogical(bs, disk, bs[i := r], disk)
  {
    CycleFrame(bs, bs[i := r], order);
    forall x | 0 <= x < |disk| ensures Logical(bs, disk, x) == Logical(bs[i := r], disk, x) {
      UpdateLogical(bs, disk, i, r, disk, x);
    }
  }

  /** The head record is not a buffer, and links do not matter to contents. */
  predicate SameContents(bs: seq<Buf>, cs: seq<Buf>) {
    && |bs| == |cs|
    && forall i | 0 <= i < |bs| - 1 :: cs[i] == bs[i].(prev := cs[i].prev, next := cs[i].next)
  }

  lemma ContentsFrame(bs: seq<Buf>, cs: seq<Buf>, disk: Image)
    requires CacheOk(bs, disk) && SameContents(bs, cs)
    ensures CacheOk(cs, disk) && SameLogical(bs, disk, cs, disk)
  {
    forall b | 0 <= b < |disk|
      ensures Logical(bs, disk, b) == Logical(cs, disk, b)
    {
      if i: nat :| Shows(bs, i, b) {
        assert Shows(cs, i, b);
        LogicalIs(bs, disk, b, i);
        LogicalIs(cs, disk, b, i);
      } else {
        assert forall j: nat :: Shows(cs, j, b) ==> Shows(bs, j, b);
      }
    }
  }

  // ----- the code

  /** binit's loop: zeroed records, each put behind the head in its turn. */
  method Linked(nbuf: nat) returns (bs: seq<Buf>, ghost ring: seq<nat>, ghost age: seq<nat>)
    ensures |bs| == |age| == nbuf + 1 && Cycle(bs, ring) && ByAge(ring, age, nbuf)
    ensures forall i | 0 <= i < nbuf :: bs[i] == Buf(false, false, 0, 0, 0, 0, bs[i].prev, bs[i].next, [])
  {
    var zero := Buf(false, false, 0, 0, 0, 0, 0, 0, []);
    bs := seq(nbuf + 1, i => zero);
    bs := bs[nbuf := zero.(prev := nbuf, next := nbuf)];
    ring := [nbuf];
    age := seq(nbuf + 1, i => 0);
    var b := 0;
    assert LinkedAt(bs, ring, 0);
    while b < nbuf
      invariant 0 <= b <= nbuf && |bs| == nbuf + 1
      invariant Ring(bs, ring) && forall x: nat :: x in ring <==> x < b || x == nbuf
      invariant |age| == nbuf + 1 && ByAge(ring, age, b)
      invariant forall i | 0 <= i < nbuf :: bs[i] == zero.(prev := bs[i].prev, next := bs[i].next)
    {
      assert LinkedAt(bs, ring, 0);
      LinkFrontRing(bs, ring, b);
      FrontMembers(ring, b);
      FrontByAge(ring, age, b, b);
      bs, ring, age := LinkFront(bs, b), Front(ring, b), age[b := b + 1];
      b := b + 1;
    }
  }

  class Cache {
    var buf: seq<Buf>
    var disk: Image
    ghost var order: seq<nat>
    ghost var stamp: seq<nat>           // when each buffer was last released
    ghost var clock: nat

    ghost predicate Valid()
      reads this
    {
      Cycle(buf, order) && CacheOk(buf, disk) && |stamp| == |buf| && ByAge(order, stamp, clock)
    }

    /** No buffer changes its block while someone refers to it. */
    twostate predicate KeepsIdentity()
      reads this
    {
      && |buf| == |old(buf)|
      && forall i | 0 <= i < |buf| - 1 && old(buf)[i].refcnt > 0 ::
        buf[i].dev == old(buf)[i].dev && buf[i].blockno == old(buf)[i].blockno
    }

    /** `binit`: zeroed records, linked one by one behind the head. */
    constructor (nbuf: nat, disk: Image)
      ensures Valid() && |buf| == nbuf + 1 && this.disk == disk
      ensures forall b | 0 <= b < |disk| :: Logical(buf, disk, b) == disk[b]
      ensures forall i | 0 <= i < nbuf ::
                !buf[i].valid && !buf[i].dirty && buf[i].owner == 0 && buf[i].refcnt == 0 && buf[i].dev == 0
    {
      var bs;
      ghost var ring, age;
      bs, ring, age := Linked(nbuf);
      buf, order, stamp, clock := bs, ring, age, nbuf;
      this.disk := disk;
    }

    /** The critical section of `bget`. A buffer already assigned to the block is
        taken; otherwise the least recently released free buffer is reassigned;
        with neither, the kernel panics. No logical contents change. */
    method Bget(dev: nat, blockno: nat) returns (r: Option<nat>)
      requires Valid()
      modifies this`buf
      ensures Valid() && SameLogical(old(buf), disk, buf, disk) && KeepsIdentity()
      ensures r.None? <==> forall i | 0 <= i < |buf| - 1 ::
                && !(old(buf)[i].dev == dev && old(buf)[i].blockno == blockno)
                && (old(buf)[i].refcnt > 0 || old(buf)[i].dirty)
      ensures r.None? ==> buf == old(buf)
      ensures r.Some? ==> r.value < |buf| - 1 && buf[r.value].dev == dev && buf[r.value].blockno == blockno
      ensures r.Some? && Names(old(buf), r.value, dev, blockno) ==>
                buf == old(buf)[r.value := old(buf)[r.value].(refcnt := old(buf)[r.value].refcnt + 1)]
      ensures r.Some? && !Names(old(buf), r.value, dev, blockno) ==>
                && old(buf)[r.value].refcnt == 0 && !old(buf)[r.value].dirty
                && (forall i: nat :: !Names(old(buf), i, dev, blockno))
                && buf == old(buf)[r.value := old(buf)[r.value].(dev := dev, blockno := blockno, valid := false,
                     refcnt := 1)]
                // least recently used: of the buffers that may be recycled, the one released longest ago
                && forall i | 0 <= i < |buf| - 1 && old(buf)[i].refcnt == 0 && !old(buf)[i].dirty ::
                     stamp[r.value] <= stamp[i]
    {
      var b := FindNamed(dev, blockno);
      if b < |buf| - 1 {
        TakeNamed(b, dev, blockno);
        return Some(b);
      }
      b := FindFree();
      if b < |buf| - 1 {
        forall i | 0 <= i < |buf| - 1 && buf[i].refcnt == 0 && !buf[i].dirty
          ensures stamp[b] <= stamp[i]
        {
          LastIsOldest(buf, order, stamp, clock, b, i);
        }
        Recycle(b, dev, blockno);
        return Some(b);
      }
      r := None;
      forall i | 0 <= i < |buf| - 1
        ensures !(buf[i].dev == dev && buf[i].blockno == blockno) && (buf[i].refcnt > 0 || buf[i].dirty)
      {
        assert !Names(buf, i, dev, blockno) && !Free(buf, i);
      }
    }

    /** bget's walk along `next`: the buffer for the block, or the head. */
    method FindNamed(dev: nat, blockno: nat) returns (b: nat)
      requires Valid()
      ensures b < |buf| && (b < |buf| - 1 ==> Names(buf, b, dev, blockno))
      ensures b == |buf| - 1 ==> forall i: nat :: !Names(buf, i, dev, blockno)
    {
      var head := |buf| - 1;
      ghost var i := 1;
      assert LinkedAt(buf, order, 0);
      b := buf[head].next;
      while b != head
        invariant 1 <= i <= |order| && b == order[if i < |order| then i else 0]
        invariant forall j | 1 <= j < i :: !Names(buf, order[j], dev, blockno)
        decreases |order| - i
      {
        assert i < |order|;
        if buf[b].dev == dev && buf[b].blockno == blockno {
          return;
        }
        assert LinkedAt(buf, order, i);
        b := buf[b].next;
        i := i + 1;
      }
      assert i == |order|;
      NoneNamed(buf, order, dev, blockno);
    }

    /** bget's walk along `prev`: the last free buffer in the list, or the head. */
    method FindFree() returns (b: nat)
      requires Valid()
      ensures b < |buf| && (b < |buf| - 1 ==> Free(buf, b) && LastFree(buf, order, b))
      ensures b == |buf| - 1 ==> forall i: nat :: !Free(buf, i)
    {
      var head := |buf| - 1;
      ghost var i := |order| - 1;
      assert LinkedAt(buf, order, 0);
      b := buf[head].prev;
      while b != head
        invariant 0 <= i < |order| && b == order[i]
        invariant forall j | i < j < |order| :: !Free(buf, order[j])
        decreases i
      {
        if buf[b].refcnt == 0 && !buf[b].dirty {
          assert LastFree(buf, order, b);
          return;
        }
        assert LinkedAt(buf, order, i);
        b := buf[b].prev;
        i := i - 1;
      }
      NoneFree(buf, order);
    }

    method TakeNamed(b: nat, dev: nat, blockno: nat)
      requires Valid() && Names(buf, b, dev, blockno)
      modifies this`buf
      ensures Valid() && SameLogical(old(buf), disk, buf, disk)
      ensures buf == old(buf)[b := old(buf)[b].(refcnt := old(buf)[b].refcnt + 1)]
    {
      buf := buf[b := buf[b].(refcnt := buf[b].refcnt + 1)];
      CycleFrame(old(buf), buf, order);
      forall x | 0 <= x < |disk| ensures Logical(old(buf), disk, x) == Logical(buf, disk, x) {
        UpdateLogical(old(buf), disk, b, buf[b], disk, x);
        if Shows(old(buf), b, x) { LogicalIs(old(buf), disk, x, b); }
      }
    }

    method Recycle(b: nat, dev: nat, blockno: nat)
      requires Valid() && Free(buf, b)
      requires forall i: nat :: !Names(buf, i, dev, blockno)
      modifies this`buf
      ensures Valid() && SameLogical(old(buf), disk, buf, disk)
      ensures buf == old(buf)[b := old(buf)[b].(dev := dev, blockno := blockno, valid := false, refcnt := 1)]
    {
      buf := buf[b := buf[b].(dev := dev, blockno := blockno, valid := false, refcnt := 1)];
      CycleFrame(old(buf), buf, order);
      assert forall i: nat | i != b :: !Names(buf, i, dev, blockno) by {
        assert forall i: nat | i != b :: Names(buf, i, dev, blockno) ==> Names(old(buf), i, dev, blockno);
      }
      assert Unique(buf) by {
        forall i, j | 0 <= i < j < |buf| - 1 && buf[i].dev != 0
          ensures !(buf[i].dev == buf[j].dev && buf[i].blockno == buf[j].blockno)
        {
          if i == b { assert !Names(buf, j, dev, blockno); }
          if j == b { assert !Names(buf, i, dev, blockno); }
        }
      }
      forall x | 0 <= x < |disk| ensures Logical(old(buf), disk, x) == Logical(buf, disk, x) {
        UpdateLogical(old(buf), disk, b, buf[b], disk, x);
        if Shows(old(buf), b, x) { LogicalIs(old(buf), disk, x, b); }
      }
    }

    /** `acquiresleep` once the lock is free. */
    method AcquireSleep(i: nat, pid: nat)
      requires Valid() && i < |buf| - 1 && pid != 0 && buf[i].owner == 0 && buf[i].refcnt > 0
      modifies this`buf
      ensures Valid() && SameLogical(old(buf), disk, buf, disk) && KeepsIdentity()
      ensures buf == old(buf)[i := old(buf)[i].(owner := pid)]
    {
      if buf[i].valid {
        LogicalIs(buf, disk, buf[i].blockno, i);
      }
      SetRecord(i, buf[i].(owner := pid));
    }

    /** The end of `bread`, with the lock held: read the block if that has not been
        done. The buffer then shows the latest logical contents of its block. */
    method BreadTail(i: nat, pid: nat)
      requires Valid() && i < |buf| - 1 && pid != 0 && buf[i].owner == pid
      requires buf[i].dev == DISK && buf[i].blockno < |disk|  // otherwise iderw panics
      modifies this`buf
      ensures Valid() && SameLogical(old(buf), disk, buf, disk) && KeepsIdentity()
      ensures buf == old(buf)[i := old(buf)[i].(valid := true, data := Logical(old(buf), disk, old(buf)[i].blockno))]
    {
      if !buf[i].valid {
        ghost var b := buf[i].blockno;
        assert forall j: nat :: Shows(buf, j, b) ==> j == i;
        SetRecord(i, buf[i].(valid := true, data := disk[buf[i].blockno]));
      }
      LogicalIs(buf, disk, buf[i].blockno, i);
    }

    method SetRecord(i: nat, r: Buf)
      requires Valid() && i < |buf| - 1 && BufOk(r, disk)
      requires r.dev == buf[i].dev && r.blockno == buf[i].blockno && r.prev == buf[i].prev && r.next == buf[i].next
      requires r.valid ==> r.data == Logical(buf, disk, r.blockno)
      requires buf[i].valid ==> r.valid
      modifies this`buf
      ensures Valid() && SameLogical(old(buf), disk, buf, disk) && KeepsIdentity()
      ensures buf == old(buf)[i := r]
    {
      RecordOk(buf, disk, order, i, r);
      buf := buf[i := r];
    }

    /** The lock holder changes the buffer: exactly that block's contents change. */
    method Modify(i: nat, pid: nat, v: Block)
      requires Valid() && i < |buf| - 1 && pid != 0 && buf[i].owner == pid && buf[i].valid
      modifies this`buf
      ensures Valid() && KeepsIdentity() && buf == old(buf)[i := old(buf)[i].(data := v)]
      ensures forall b | 0 <= b < |disk| ::
                Logical(buf, disk, b) == if b == buf[i].blockno then v else Logical(old(buf), disk, b)
    {
      buf := buf[i := buf[i].(data := v)];
      CycleFrame(old(buf), buf, order);
      forall x | 0 <= x < |disk|
        ensures Logical(buf, disk, x) == if x == buf[i].blockno then v else Logical(old(buf), disk, x)
      {
        UpdateLogical(old(buf), disk, i, buf[i], disk, x);
      }
    }

    /** log_write's effect on the buffer: pin it. */
    method Pin(i: nat, pid: nat)
      requires Valid() && i < |buf| - 1 && pid != 0 && buf[i].owner == pid && buf[i].valid
      modifies this`buf
      ensures Valid() && SameLogical(old(buf), disk, buf, disk) && KeepsIdentity()
      ensures buf == old(buf)[i := old(buf)[i].(dirty := true)]
    {
      LogicalIs(buf, disk, buf[i].blockno, i);
      SetRecord(i, buf[i].(dirty := true));
    }

    /** `bwrite`: the logical contents of the block reach the disk; nothing a reader
        can see changes. */
    method Bwrite(i: nat, pid: nat) returns (panicked: bool)
      requires Valid() && i < |buf| - 1 && pid != 0 && buf[i].valid
      modifies this`buf, this`disk
      ensures Valid() && SameLogical(old(buf), old(disk), buf, disk) && KeepsIdentity()
      ensures panicked <==> old(buf)[i].owner != pid
      ensures panicked ==> buf == old(buf) && disk == old(disk)
      ensures !panicked ==>
                && disk == old(disk)[buf[i].blockno := Logical(old(buf), old(disk), buf[i].blockno)]
                && buf == old(buf)[i := old(buf)[i].(dirty := false)]
    {
      if buf[i].owner != pid {
        return true;
      }
      ghost var bs := buf;
      LogicalIs(buf, disk, buf[i].blockno, i);
      disk := disk[buf[i].blockno := buf[i].data];
      buf := buf[i := buf[i].(dirty := false)];
      CycleFrame(bs, buf, order);
      forall j | 0 <= j < |buf| - 1 ensures BufOk(buf[j], disk) {
        assert BufOk(bs[j], old(disk));
        if j != i && bs[j].valid { assert bs[j].blockno != bs[i].blockno; }
      }
      forall x | 0 <= x < |disk| ensures Logical(bs, old(disk), x) == Logical(buf, disk, x) {
        UpdateLogical(bs, old(disk), i, buf[i], disk, x);
      }
      panicked := false;
    }

    /** `brelse` up to its critical section: the lock is given up, and no logical contents
        change. The cache is in order afterwards exactly when the buffer was logged, written
        out or left as it was; a change that was neither is lost with the buffer. */
    method ReleaseSleep(i: nat, pid: nat) returns (panicked: bool)
      requires Valid() && i < |buf| - 1 && pid != 0
      modifies this`buf
      ensures panicked <==> old(buf)[i].owner != pid
      ensures panicked ==> buf == old(buf)
      ensures !panicked ==> buf == old(buf)[i := old(buf)[i].(owner := 0)] && KeepsIdentity()
      ensures !panicked ==> (Valid() <==> !Unsaved(old(buf)[i], disk))
      ensures !Unsaved(old(buf)[i], disk) ==> SameLogical(old(buf), disk, buf, disk)
    {
      if buf[i].owner != pid {
        return true;
      }
      panicked := false;
      ghost var r := buf[i].(owner := 0);
      if Unsaved(buf[i], disk) {
        assert !BufOk(r, disk);
      } else {
        if buf[i].valid {
          LogicalIs(buf, disk, buf[i].blockno, i);
        }
        RecordOk(buf, disk, order, i, r);
      }
      buf := buf[i := buf[i].(owner := 0)];
      assert buf[i] == r;
    }

    /** The critical section of `brelse`: drop the reference and, with the last one,
        move the buffer to the front of the list. */
    method Unref(i: nat)
      requires Valid() && i < |buf| - 1 && buf[i].refcnt > (if buf[i].owner == 0 then 0 else 1)
      modifies this`buf, this`order, this`stamp, this`clock
      ensures Valid() && SameLogical(old(buf), disk, buf, disk) && KeepsIdentity()
      ensures SameContents(old(buf)[i := old(buf)[i].(refcnt := old(buf)[i].refcnt - 1)], buf)
      ensures buf[i].refcnt > 0 ==> order == old(order) && stamp == old(stamp) && clock == old(clock)
      ensures buf[i].refcnt == 0 ==> |order| >= 2 && order[1] == i && ToFront(old(order), order, i)
      ensures buf[i].refcnt == 0 ==> clock == old(clock) + 1 && stamp == old(stamp)[i := clock]
    {
      Decrement(i);
      if buf[i].refcnt == 0 {
        MoveToFront(i);
      }
    }

    method MoveToFront(i: nat)
      requires Valid() && i < |buf| - 1
      modifies this`buf, this`order, this`stamp, this`clock
      ensures Valid() && SameLogical(old(buf), disk, buf, disk) && SameContents(old(buf), buf)
      ensures |order| >= 2 && order[1] == i && ToFront(old(order), order, i)
      ensures clock == old(clock) + 1 && stamp == old(stamp)[i := clock]
    {
      assert i in order;
      ghost var k: nat :| k < |order| && order[k] == i;
      MoveByAge(order, stamp, clock, k);
      Relink(i, k);
      clock := clock + 1;
      stamp := stamp[i := clock];
    }

    /** The stores of brelse on the links. */
    method Relink(i: nat, ghost k: nat)
      requires Cycle(buf, order) && CacheOk(buf, disk) && i < |buf| - 1 && k < |order| && order[k] == i
      modifies this`buf, this`order
      ensures Cycle(buf, order) && CacheOk(buf, disk)
      ensures SameLogical(old(buf), disk, buf, disk) && SameContents(old(buf), buf)
      ensures order == Front(Drop(old(order), k), i)
    {
      ghost var bs := buf;
      assert LinkedAt(buf, order, k);
      MoveOk(bs, order, k);
      buf := Unlink(buf, i);
      buf := LinkFront(buf, i);
      order := Front(Drop(order, k), i);
      ContentsFrame(bs, buf, disk);
    }

    method Decrement(i: nat)
      requires Valid() && i < |buf| - 1 && buf[i].refcnt > (if buf[i].owner == 0 then 0 else 1)
      modifies this`buf
      ensures Valid() && SameLogical(old(buf), disk, buf, disk) && KeepsIdentity()
      ensures buf == old(buf)[i := old(buf)[i].(refcnt := old(buf)[i].refcnt - 1)]
    {
      if buf[i].valid {
        LogicalIs(buf, disk, buf[i].blockno, i);
      }
      SetRecord(i, buf[i].(refcnt := buf[i].refcnt - 1));
    }
  }

  lemma FrontMembers(order: seq<nat>, b: nat)
    requires |order| >= 1
    ensures multiset(Front(order, b)) == multiset(order) + multiset{b}
    ensures forall x :: x in Front(order, b) <==> x in order || x == b
  {
    assert order == [order[0]] + order[1..];
    assert Front(order, b) == [order[0]] + [b] + order[1..];
    forall x
      ensures x in Front(order, b) <==> x in order || x == b
    {
      assert x in order <==> x in multiset(order);
      assert x in Front(order, b) <==> x in multiset(Front(order, b));
    }
  }

  lemma DropMembers(order: seq<nat>, k: nat)
    requires k < |order| && forall i, j | 0 <= i < j < |order| :: order[i] != order[j]
    ensures multiset(Drop(order, k)) + multiset{order[k]} == multiset(order)
    ensures forall x :: x in Drop(order, k) <==> x in order && x != order[k]
  {
    assert order == order[..k] + [order[k]] + order[k + 1..];
  }

  lemma UnlinkKeeps(bs: seq<Buf>, b: nat)
    requires b < |bs| && bs[b].next < |bs| && bs[b].prev < |bs|
    ensures SameContents(bs, Unlink(bs, b))
  {
  }

  lemma LinkFrontKeeps(bs: seq<Buf>, b: nat)
    requires b < |bs| && bs[|bs| - 1].next < |bs|
    ensures SameContents(bs, LinkFront(bs, b))
  {
  }

  lemma MoveKeepsContents(bs: seq<Buf>, b: nat)
    requires b < |bs| - 1 && bs[b].next < |bs| && bs[b].prev < |bs|
    requires Unlink(bs, b)[|bs| - 1].next < |bs|
    ensures SameContents(bs, LinkFront(Unlink(bs, b), b))
  {
    UnlinkKeeps(bs, b);
    LinkFrontKeeps(Unlink(bs, b), b);
    SameTrans(bs, Unlink(bs, b), LinkFront(Unlink(bs, b), b));
  }

  lemma SameTrans(bs: seq<Buf>, cs: seq<Buf>, ds: seq<Buf>)
    requires SameContents(bs, cs) && SameContents(cs, ds)
    ensures SameContents(bs, ds)
  {
  }

  /** Moving a buffer to the front keeps one cycle through all records. */
  lemma MoveOk(bs: seq<Buf>, order: seq<nat>, k: nat)
    requires Cycle(bs, order) && 1 <= k < |order| && LinkedAt(bs, order, k)
    ensures LinkedAt(Unlink(bs, order[k]), Drop(order, k), 0)
    ensures var cs, o := LinkFront(Unlink(bs, order[k]), order[k]), Front(Drop(order, k), order[k]);
            Cycle(cs, o) && SameContents(bs, cs) && multiset(o) == multiset(order)
  {
    UnlinkRing(bs, order, k);
    DropMembers(order, k);
    var rest := Drop(order, k);
    assert LinkedAt(Unlink(bs, order[k]), rest, 0);
    LinkFrontRing(Unlink(bs, order[k]), rest, order[k]);
    FrontMembers(rest, order[k]);
    MoveKeepsContents(bs, order[k]);
  }

  /** Moving a buffer to the front, as the latest, keeps the list in order of age. */
  lemma MoveByAge(order: seq<nat>, stamp: seq<nat>, clock: nat, k: nat)
    requires 1 <= k < |order| && ByAge(order, stamp, clock)
    requires forall i, j | 0 <= i < j < |order| :: order[i] != order[j]
    ensures ByAge(Front(Drop(order, k), order[k]), stamp[order[k] := clock + 1], clock + 1)
    ensures ToFront(order, Front(Drop(order, k), order[k]), order[k])
  {
    DropMembers(order, k);
    DropByAge(order, stamp, clock, k);
    FrontByAge(Drop(order, k), stamp, clock, order[k]);
    FrontOfDrop(order, k);
  }

  lemma NoneNamed(bs: seq<Buf>, order: seq<nat>, dev: nat, blockno: nat)
    requires Cycle(bs, order) && forall j | 1 <= j < |order| :: !Names(bs, order[j], dev, blockno)
    ensures forall i: nat :: !Names(bs, i, dev, blockno)
  {
    forall i: nat
      ensures !Names(bs, i, dev, blockno)
    {
      if i < |bs| - 1 {
        assert i in order;
        var j :| 0 <= j < |order| && order[j] == i;
      }
    }
  }

  lemma NoneFree(bs: seq<Buf>, order: seq<nat>)
    requires Cycle(bs, order) && forall j | 0 < j < |order| :: !Free(bs, order[j])
    ensures forall i: nat :: !Free(bs, i)
  {
    forall i: nat
      ensures !Free(bs, i)
    {
      if i < |bs| - 1 {
        assert i in order;
        var j :| 0 <= j < |order| && order[j] == i;
      }
    }
  }
}
