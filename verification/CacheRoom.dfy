/** When bget finds no buffer (bio.c, log.c, param.h): blocks on the log's list stay in the cache
    until they are committed, and take buffers away from everybody else. */
module CacheRoom {
  import opened Wrappers
  import opened Blocks
  import opened LogSpec
  import opened BufferCache
  import opened CachedLog
  import LogRuns

  /** After b reads, the first l of them logged and released and the others still held: `busy` are
      the buffers they took, `held` those still referenced. */
  ghost predicate Filled(bs: seq<Buf>, first: nat, b: nat, l: nat, busy: set<nat>, held: set<nat>) {
    && |bs| >= 1 && |busy| == b && |held| == (if b <= l then 0 else b - l) && (forall i | i in busy :: i < |bs| - 1)
    && forall i: nat | i < |bs| - 1 :: SlotFilled(bs[i], first, b, i in busy, i in held)
  }

  predicate SlotFilled(r: Buf, first: nat, b: nat, busy: bool, held: bool) {
    && (held ==> busy) && (r.refcnt > 0 <==> held) && (busy ==> first <= r.blockno < first + b && r.dev == DISK)
    && (busy && !held ==> r.dirty) && (!busy ==> r.dev == 0 && !r.dirty)
  }

  /** One more buffer is taken and, unless it is held, logged. */
  lemma FilledMore(bs: seq<Buf>, cs: seq<Buf>, first: nat, b: nat, l: nat, busy: set<nat>, held: set<nat>, i: nat)
    requires Filled(bs, first, b, l, busy, held) && OthersSame(bs, cs, i) && i < |bs| - 1
    requires i !in busy && i !in held && Names(cs, i, DISK, first + b)
    requires if b < l then cs[i].refcnt == 0 && cs[i].dirty else cs[i].refcnt > 0
    ensures Filled(cs, first, b + 1, l, busy + {i}, if b < l then held else held + {i})
  {
    var busy', held' := busy + {i}, if b < l then held else held + {i};
    forall j: nat | j < |cs| - 1
      ensures SlotFilled(cs[j], first, b + 1, j in busy', j in held')
    {
      assert SlotFilled(bs[j], first, b, j in busy, j in held);
      assert j != i ==> SameBlock(bs[j], cs[j]);
    }
  }

  /** A buffer that is not in use yet is there as long as fewer reads than buffers were made. */
  lemma FilledFree(bs: seq<Buf>, first: nat, b: nat, l: nat, busy: set<nat>, held: set<nat>, x: nat)
    requires Filled(bs, first, b, l, busy, held) && x == first + b
    ensures Refused(bs, x) <==> |bs| - 1 <= b
    ensures forall i: nat :: !Names(bs, i, DISK, x)
  {
    var all := Upto(|bs| - 1);
    if forall i: nat :: !Free(bs, i) {
      forall i | i in all
        ensures i in busy
      {
        assert !Free(bs, i) && SlotFilled(bs[i], first, b, i in busy, i in held);
      }
      Within(all, busy);
    } else {
      var i: nat :| Free(bs, i);
      assert SlotFilled(bs[i], first, b, i in busy, i in held);
      assert busy <= all - {i};
      Within(busy, all - {i});
    }
    forall i: nat
      ensures !Names(bs, i, DISK, x)
    {
      assert i < |bs| - 1 ==> SlotFilled(bs[i], first, b, i in busy, i in held);
    }
  }

  /** No more buffers are referenced than were held. */
  lemma FilledHeld(bs: seq<Buf>, first: nat, b: nat, l: nat, busy: set<nat>, held: set<nat>)
    requires Filled(bs, first, b, l, busy, held)
    ensures |Referenced(bs)| <= |held|
  {
    forall i | i in Referenced(bs)
      ensures i in held
    {
      assert SlotFilled(bs[i], first, b, i in busy, i in held);
    }
    Within(Referenced(bs), held);
  }

  function Least(a: nat, b: nat): nat {
    if a < b then a else b
  }

  /** The list is the n blocks from `first` on. */
  predicate Listed(lh: seq<nat>, first: nat, n: nat) {
    |lh| == n && forall i | 0 <= i < n :: lh[i] == first + i
  }

  /** bread of block first + b. */
  method Take(c: LoggedCache, first: nat, b: nat, l: nat, ghost busy: set<nat>, ghost held: set<nat>)
    returns (r: Option<nat>, v: Block)
    requires c.Valid() && Filled(c.cache.buf, first, b, l, busy, held) && first + b < c.y.nblocks
    modifies c.cache
    ensures c.Valid() && |c.cache.buf| == |old(c.cache.buf)| && (r.None? <==> |c.cache.buf| - 1 <= b)
    ensures r.None? ==> c.cache.buf == old(c.cache.buf)
    ensures r.Some? ==> c.Holds(r.value, b + 1, first + b) && OthersSame(old(c.cache.buf), c.cache.buf, r.value)
    ensures r.Some? ==> r.value !in busy && r.value !in held && c.cache.buf[r.value].refcnt == 1 && |v| == c.y.words
  {
    ghost var bs, x := c.cache.buf, first + b;
    FilledFree(bs, first, b, l, busy, held, x);
    r, v := c.Bread(first + b, b + 1);
    if r.Some? {
      ShownSized(c.y, c.cache.buf, c.cache.disk);
      assert Free(bs, r.value) && SlotFilled(bs[r.value], first, b, r.value in busy, r.value in held);
    }
  }

  lemma OthersTrans(bs: seq<Buf>, cs: seq<Buf>, ds: seq<Buf>, i: nat)
    requires OthersSame(bs, cs, i) && OthersSame(cs, ds, i)
    ensures OthersSame(bs, ds, i)
  {
  }

  /** log_write and brelse, for the first l blocks, of the buffer just read. */
  method Keep(c: LoggedCache, i: nat, v: Block, first: nat, b: nat, l: nat, ghost bs: seq<Buf>,
              ghost busy: set<nat>, ghost held: set<nat>)
    requires c.Valid() && c.Holds(i, b + 1, first + b) && |v| == c.y.words && c.cache.buf[i].refcnt == 1
    requires Filled(bs, first, b, l, busy, held) && OthersSame(bs, c.cache.buf, i) && i !in busy && i !in held
    requires Listed(c.lh, first, Least(b, l))
    modifies c`lh, c.cache
    ensures c.Valid() && |c.cache.buf| == |bs| && Listed(c.lh, first, Least(b + 1, l))
    ensures Filled(c.cache.buf, first, b + 1, l, busy + {i}, if b < l then held else held + {i})
  {
    if b < l {
      ghost var cs := c.cache.buf;
      c.LogBlock(i, b + 1, first + b, v);
      OthersTrans(bs, cs, c.cache.buf, i);
    }
    FilledMore(bs, c.cache.buf, first, b, l, busy, held, i);
  }

  /** bread of block first + b, followed by log_write and brelse for the first l blocks. */
  method ReadNext(c: LoggedCache, first: nat, b: nat, l: nat, ghost busy: set<nat>, ghost held: set<nat>)
    returns (panicked: bool, ghost i: nat)
    requires c.Valid() && Filled(c.cache.buf, first, b, l, busy, held) && first + b < c.y.nblocks
    requires Listed(c.lh, first, Least(b, l))
    modifies c`lh, c.cache
    ensures c.Valid() && |c.cache.buf| == |old(c.cache.buf)| && (panicked <==> |c.cache.buf| - 1 <= b)
    ensures panicked ==> c.lh == old(c.lh) && c.cache.buf == old(c.cache.buf)
    ensures !panicked ==> Filled(c.cache.buf, first, b + 1, l, busy + {i}, if b < l then held else held + {i})
    ensures !panicked ==> Listed(c.lh, first, Least(b + 1, l))
  {
    ghost var bs := c.cache.buf;
    i := 0;
    var r, v := Take(c, first, b, l, busy, held);
    if r.None? {
      return true, i;
    }
    i := r.value;
    Keep(c, r.value, v, first, b, l, bs, busy, held);
    panicked := false;
  }

  method Empty(y: Layout, nbuf: nat, disk: Image, first: nat, l: nat) returns (c: LoggedCache)
    requires y.Valid() && ImageOk(y, disk)
    ensures fresh(c) && fresh(c.cache) && c.Valid() && c.y == y && |c.cache.buf| == nbuf + 1 && c.lh == []
    ensures Filled(c.cache.buf, first, 0, l, {}, {})
  {
    c := new LoggedCache(y, nbuf, disk);
  }

  lemma ListedGood(y: Layout, lh: seq<nat>, first: nat, n: nat, last: nat)
    requires Listed(lh, first, n) && n <= y.logsize && n < y.size && n <= last
    requires forall b: nat | first <= b <= first + last :: y.Home(b)
    ensures GoodList(y, lh)
  {
  }

  /** HOW MANY BUFFERS ARE ENOUGH. l blocks are read, logged and released, and k more are read and
      held; then one more is read. bget panics on the way if and only if there are no more than
      l + k buffers. With more than that, no read ever panics while the list has at most l blocks
      and at most k buffers are referenced: LoggedCache.Bread ensures it. */
  method ReadOneMore(y: Layout, nbuf: nat, disk: Image, first: nat, l: nat, k: nat)
    returns (c: LoggedCache, panicked: bool)
    requires y.Valid() && ImageOk(y, disk) && l <= y.logsize && l < y.size
    requires forall b: nat | first <= b <= first + l + k :: y.Home(b)
    ensures fresh(c) && fresh(c.cache) && c.Valid() && c.y == y && |c.cache.buf| == nbuf + 1
    ensures panicked <==> nbuf <= l + k
    ensures GoodList(y, c.lh) && |c.lh| <= l && (panicked ==> |Referenced(c.cache.buf)| <= k)
  {
    c := Empty(y, nbuf, disk, first, l);
    ghost var busy: set<nat>, held: set<nat>, i: nat := {}, {}, 0;
    var b := 0;
    while b <= l + k
      invariant fresh(c) && fresh(c.cache) && c.y == y && c.Valid() && |c.cache.buf| == nbuf + 1
      invariant 0 <= b <= l + k + 1 && b <= nbuf && Filled(c.cache.buf, first, b, l, busy, held)
      invariant Listed(c.lh, first, Least(b, l))
    {
      assert y.Home(first + b);
      panicked, i := ReadNext(c, first, b, l, busy, held);
      if panicked {
        FilledHeld(c.cache.buf, first, b, l, busy, held);
        ListedGood(y, c.lh, first, Least(b, l), l + k);
        return;
      }
      busy, held := busy + {i}, if b < l then held else held + {i};
      b := b + 1;
    }
    ListedGood(y, c.lh, first, l, l + k);
    panicked := false;
  }

  // ----- read, write, release

  /** What the writes leave on a disk. */
  function Written(disk: Image, work: seq<(nat, Block)>): (r: Image)
    requires forall k | 0 <= k < |work| :: work[k].0 < |disk|
    ensures |r| == |disk|
  {
    if work == [] then disk else Written(disk, work[..|work| - 1])[work[|work| - 1].0 := work[|work| - 1].1]
  }

  ghost predicate SomeFree(bs: seq<Buf>) {
    exists i: nat :: Free(bs, i)
  }

  predicate SameRefs(bs: seq<Buf>, cs: seq<Buf>) {
    |cs| == |bs| && forall i | 0 <= i < |bs| - 1 :: cs[i].refcnt == bs[i].refcnt
  }

  /** Nobody holds a buffer. */
  predicate NoneHeld(bs: seq<Buf>) {
    forall i | 0 <= i < |bs| - 1 :: bs[i].owner == 0
  }

  /** One round: bread, a change, bwrite and brelse. */
  method Round(c: LoggedCache, b: nat, v: Block, pid: nat) returns (panicked: bool)
    requires c.Valid() && NoneHeld(c.cache.buf) && b < c.y.nblocks && |v| == c.y.words && pid != 0
    modifies c.cache
    ensures panicked <==> old(Refused(c.cache.buf, b))
    ensures c.Valid() && NoneHeld(c.cache.buf) && SameRefs(old(c.cache.buf), c.cache.buf)
    ensures !panicked ==> c.cache.disk == old(c.cache.disk)[b := v] && c.View() == old(c.View())[b := v]
    ensures !panicked ==> forall i: nat | old(Free(c.cache.buf, i)) :: Free(c.cache.buf, i)
    ensures panicked ==> c.cache.disk == old(c.cache.disk) && c.View() == old(c.View())
  {
    ghost var bs := c.cache.buf;
    var r, was := c.Bread(b, pid);
    panicked := r.None?;
    if r.Some? {
      ghost var cs := c.cache.buf;
      c.WriteBlock(r.value, pid, b, v);
      OthersTrans(bs, cs, c.cache.buf, r.value);
    }
  }

  /** ONE FREE BUFFER IS ENOUGH for any number of rounds of bread, bwrite and brelse: none panics,
      every block has the contents last written, and no reference is lost or left behind. */
  method Rounds(c: LoggedCache, work: seq<(nat, Block)>, pid: nat) returns (panicked: bool)
    requires c.Valid() && NoneHeld(c.cache.buf) && pid != 0
    requires forall k | 0 <= k < |work| :: work[k].0 < c.y.nblocks && |work[k].1| == c.y.words
    modifies c.cache
    ensures c.Valid() && NoneHeld(c.cache.buf) && SameRefs(old(c.cache.buf), c.cache.buf)
    ensures old(SomeFree(c.cache.buf)) ==> !panicked && SomeFree(c.cache.buf)
    ensures !panicked ==> c.cache.disk == Written(old(c.cache.disk), work) && c.View() == Written(old(c.View()), work)
  {
    var k := 0;
    panicked := false;
    while k < |work|
      invariant 0 <= k <= |work| && c.Valid() && NoneHeld(c.cache.buf) && SameRefs(old(c.cache.buf), c.cache.buf)
      invariant old(SomeFree(c.cache.buf)) ==> SomeFree(c.cache.buf)
      invariant c.cache.disk == Written(old(c.cache.disk), work[..k]) && c.View() == Written(old(c.View()), work[..k])
    {
      panicked := Round(c, work[k].0, work[k].1, pid);
      if panicked {
        return;
      }
      assert work[..k + 1][..k] == work[..k];
      k := k + 1;
    }
    assert work[..k] == work;
  }
}
