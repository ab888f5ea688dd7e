/** The log over the buffer cache (log.c, bio.c): what `Bread` and `Bwrite` of the log stand
    for, and why the cache differs from the disk only on blocks that are on the list. */
module CachedLog {
  import opened Wrappers
  import opened Blocks
  import opened LogSpec
  import opened BufferCache
  import Crash
  import LogRuns

  /** What `bread` shows, as an image. */
  ghost function Shown(bs: seq<Buf>, disk: Image): (r: Image)
    ensures |r| == |disk| && forall b | 0 <= b < |disk| :: r[b] == Logical(bs, disk, b)
  {
    seq(|disk|, b requires 0 <= b < |disk| => Logical(bs, disk, b))
  }

  /** A dirty buffer holds a block on the list: log_write set the flag. */
  predicate Pinned(bs: seq<Buf>, lh: seq<nat>) {
    forall i: nat | i < |bs| - 1 && bs[i].dirty :: bs[i].blockno in lh
  }

  predicate SizesOk(bs: seq<Buf>, words: nat) {
    forall i: nat | i < |bs| - 1 && bs[i].valid :: |bs[i].data| == words
  }

  /** Whoever holds a buffer has not changed it, or has logged the change. */
  predicate Quiet(bs: seq<Buf>, disk: Image) {
    forall i: nat | i < |bs| - 1 && bs[i].valid && !bs[i].dirty ::
      bs[i].blockno < |disk| && bs[i].data == disk[bs[i].blockno]
  }

  /** A block that is not on the list shows what is on the disk. */
  lemma OffList(bs: seq<Buf>, disk: Image, lh: seq<nat>, b: nat)
    requires CacheOk(bs, disk) && Quiet(bs, disk) && Pinned(bs, lh) && b < |disk| && b !in lh
    ensures Logical(bs, disk, b) == disk[b]
  {
    if i: nat :| Shows(bs, i, b) {
      LogicalIs(bs, disk, b, i);
    }
  }

  lemma ShownSized(y: Layout, bs: seq<Buf>, disk: Image)
    requires CacheOk(bs, disk) && ImageOk(y, disk) && SizesOk(bs, y.words)
    ensures ImageOk(y, Shown(bs, disk))
  {
    forall b | 0 <= b < |disk|
      ensures |Logical(bs, disk, b)| == y.words
    {
      if i: nat :| Shows(bs, i, b) {
        LogicalIs(bs, disk, b, i);
      }
    }
  }

  /** PINNING GIVES COMMIT WHAT IT NEEDS. With no transaction on the disk, every dirty buffer
      on the list and nobody in the middle of a change, the cache and the disk are as `commit`
      expects them: they differ on listed blocks only. */
  lemma ReadyToCommit(y: Layout, bs: seq<Buf>, disk: Image, lh: seq<nat>)
    requires CacheOk(bs, disk) && SizesOk(bs, y.words) && Quiet(bs, disk) && Pinned(bs, lh)
    requires DiskOk(y, disk) && Header(y, disk) == [] && GoodList(y, lh)
    ensures Crash.CommitEntry(y, disk, Shown(bs, disk), lh)
  {
    ShownSized(y, bs, disk);
    forall b | 0 <= b < y.nblocks && y.Home(b) && b !in lh
      ensures Shown(bs, disk)[b] == disk[b]
    {
      OffList(bs, disk, lh, b);
    }
  }

  /** The same block with the same contents. */
  predicate SameBlock(r: Buf, s: Buf) {
    s.valid == r.valid && s.dirty == r.dirty && s.dev == r.dev && s.blockno == r.blockno && s.data == r.data
  }

  /** Every buffer but i has its block, its contents, its holder and its references. */
  predicate OthersSame(bs: seq<Buf>, cs: seq<Buf>, i: nat) {
    && |bs| == |cs|
    && forall j: nat | j < |bs| - 1 && j != i ::
         SameBlock(bs[j], cs[j]) && cs[j].owner == bs[j].owner && cs[j].refcnt == bs[j].refcnt
  }

  /** bget's panic: no buffer is for block b, and none is free. */
  ghost predicate Refused(bs: seq<Buf>, b: nat) {
    forall i: nat :: !Names(bs, i, DISK, b) && !Free(bs, i)
  }

  /** What bget does to the references of the buffer it returns for block b. */
  predicate GotRef(bs: seq<Buf>, cs: seq<Buf>, i: nat, b: nat) {
    && i < |bs| - 1 && |cs| == |bs|
    && if Names(bs, i, DISK, b) then cs[i].refcnt == bs[i].refcnt + 1 && cs[i].dirty == bs[i].dirty
       else Free(bs, i) && cs[i].refcnt == 1 && !cs[i].dirty
  }

  // ----- room in the cache

  ghost function Referenced(bs: seq<Buf>): set<nat> {
    set i: nat | i < |bs| - 1 && bs[i].refcnt > 0
  }

  ghost function Dirties(bs: seq<Buf>): set<nat> {
    set i: nat | i < |bs| - 1 && bs[i].dirty
  }

  ghost function Upto(n: nat): (s: set<nat>)
    ensures forall i: nat :: i in s <==> i < n
    ensures |s| == n
  {
    if n == 0 then {} else Upto(n - 1) + {n - 1}
  }

  /** Buffers of different blocks, all on the list, are no more than the list is long. */
  lemma {:induction false} DirtyBound(bs: seq<Buf>, lh: seq<nat>, ds: set<nat>)
    requires forall i | i in ds :: i < |bs| && bs[i].blockno in lh
    requires forall i, j | i in ds && j in ds && bs[i].blockno == bs[j].blockno :: i == j
    ensures |ds| <= |lh|
    decreases |lh|
  {
    if lh == [] {
      assert ds == {};
    } else {
      var x := lh[|lh| - 1];
      var rest := set i | i in ds && bs[i].blockno != x;
      assert forall i | i in rest :: bs[i].blockno in lh[..|lh| - 1];
      DirtyBound(bs, lh[..|lh| - 1], rest);
      if i :| i in ds && bs[i].blockno == x {
        assert ds == rest + {i};
      } else {
        assert ds == rest;
      }
    }
  }

  lemma DirtyOnList(bs: seq<Buf>, disk: Image, lh: seq<nat>)
    requires CacheOk(bs, disk) && Pinned(bs, lh)
    ensures |Dirties(bs)| <= |lh|
  {
    var ds := Dirties(bs);
    forall i, j | i in ds && j in ds && bs[i].blockno == bs[j].blockno
      ensures i == j
    {
      assert BufOk(bs[i], disk) && BufOk(bs[j], disk);
    }
    DirtyBound(bs, lh, ds);
  }

  /** If every buffer is referenced or dirty, there are no more buffers than list and references. */
  lemma NoneFreeBound(bs: seq<Buf>, disk: Image, lh: seq<nat>)
    requires CacheOk(bs, disk) && Pinned(bs, lh) && forall i: nat :: !Free(bs, i)
    ensures |bs| - 1 <= |lh| + |Referenced(bs)|
  {
    DirtyOnList(bs, disk, lh);
    var all, used := Upto(|bs| - 1), Dirties(bs) + Referenced(bs);
    assert all <= used by {
      forall i | i in all
        ensures i in used
      {
        assert !Free(bs, i);
      }
    }
    Within(all, used);
  }

  lemma {:induction false} Within(a: set<nat>, b: set<nat>)
    requires a <= b
    ensures |a| <= |b|
    decreases a
  {
    if a != {} {
      var x :| x in a;
      Within(a - {x}, b - {x});
    }
  }

  class LoggedCache {
    const y: Layout
    const cache: Cache
    var lh: seq<nat>

    constructor (y: Layout, nbuf: nat, disk: Image)
      requires y.Valid() && ImageOk(y, disk)
      ensures fresh(cache) && this.y == y && Valid() && Quiet(cache.buf, cache.disk) && lh == []
      ensures View() == disk == cache.disk && |cache.buf| == nbuf + 1
      ensures forall i | 0 <= i < nbuf :: cache.buf[i].dev == 0 && cache.buf[i].refcnt == 0 && !cache.buf[i].dirty
    {
      this.y, lh := y, [];
      var c := new Cache(nbuf, disk);
      cache := c;
      new;
      assert View() == disk;
    }

    ghost predicate Valid()
      reads this, cache
    {
      && y.Valid() && cache.Valid() && ImageOk(y, cache.disk) && SizesOk(cache.buf, y.words)
      && Pinned(cache.buf, lh)
    }

    ghost function View(): Image
      reads this, cache
    {
      Shown(cache.buf, cache.disk)
    }

    /** Process pid holds buffer i, which has been read for block b. */
    ghost predicate Holds(i: nat, pid: nat, b: nat)
      reads this, cache
    {
      && i < |cache.buf| - 1 && pid != 0 && cache.buf[i].owner == pid && cache.buf[i].valid
      && cache.buf[i].dev == DISK && cache.buf[i].blockno == b < |cache.disk|
    }

    /** Once an operation has logged what it changed, commit finds what it needs. */
    lemma Ready()
      requires Valid() && Quiet(cache.buf, cache.disk) && GoodList(y, lh)
      requires DiskOk(y, cache.disk) && Header(y, cache.disk) == []
      ensures Crash.CommitEntry(y, cache.disk, View(), lh)
    {
      ReadyToCommit(y, cache.buf, cache.disk, lh);
    }

    /** Nobody holds a buffer for block b, so that acquiresleep does not wait. */
    ghost predicate Unheld(b: nat)
      reads this, cache
    {
      forall i: nat | Names(cache.buf, i, DISK, b) :: cache.buf[i].owner == 0
    }

    /** `bread`: the latest contents of the block, in a buffer that pid holds from now on,
        whatever other buffers are held; None is bget's panic. */
    method Bread(b: nat, pid: nat) returns (r: Option<nat>, v: Block)
      requires Valid() && Unheld(b) && b < y.nblocks && pid != 0
      modifies cache`buf
      ensures Valid() && View() == old(View()) && cache.disk == old(cache.disk)
      ensures r.Some? ==> Holds(r.value, pid, b) && v == View()[b] && OthersSame(old(cache.buf), cache.buf, r.value)
      ensures r.Some? ==> cache.buf[r.value].dev == 1
      ensures r.None? ==> cache.buf == old(cache.buf)
      // no panic as long as there are more buffers than listed blocks and referenced buffers
      ensures r.None? ==> |cache.buf| - 1 <= |lh| + |Referenced(old(cache.buf))|
      ensures r.None? <==> Refused(old(cache.buf), b)
      ensures r.Some? ==> GotRef(old(cache.buf), cache.buf, r.value, b)
      ensures old(Quiet(cache.buf, cache.disk)) ==> Quiet(cache.buf, cache.disk)
    {
      v := [];
      r := Lock(b, pid);
      if r.None? {
        NoneFreeBound(cache.buf, cache.disk, lh);
        return;
      }
      var i := r.value;
      ShownSized(y, cache.buf, cache.disk);
      ghost var bs := cache.buf;
      cache.BreadTail(i, pid);
      LogicalIs(cache.buf, cache.disk, b, i);
      v := cache.buf[i].data;
      assert View() == Shown(bs, cache.disk);
      ReadQuiet(bs, cache.buf, cache.disk, i, b);
    }

    lemma ReadQuiet(bs: seq<Buf>, cs: seq<Buf>, disk: Image, i: nat, b: nat)
      requires CacheOk(bs, disk) && CacheOk(cs, disk) && b < |disk| && Names(bs, i, DISK, b)
      requires cs == bs[i := bs[i].(valid := true, data := Logical(bs, disk, b))]
      ensures Quiet(bs, disk) ==> Quiet(cs, disk)
    {
      if bs[i].valid {
        LogicalIs(bs, disk, b, i);
      } else {
        assert forall j: nat :: Shows(bs, j, b) ==> j == i;
      }
    }

    /** `bget`. */
    method Lock(b: nat, pid: nat) returns (r: Option<nat>)
      requires Valid() && Unheld(b) && b < y.nblocks && pid != 0
      modifies cache`buf
      ensures Valid() && View() == old(View()) && cache.disk == old(cache.disk)
      ensures r.Some? ==> Names(cache.buf, r.value, DISK, b) && cache.buf[r.value].owner == pid
      ensures r.Some? ==> OthersSame(old(cache.buf), cache.buf, r.value)
      ensures r.Some? ==> GotRef(old(cache.buf), cache.buf, r.value, b)
      ensures r.None? ==> cache.buf == old(cache.buf)
      ensures r.None? <==> Refused(old(cache.buf), b)
      ensures old(Quiet(cache.buf, cache.disk)) ==> Quiet(cache.buf, cache.disk)
    {
      r := cache.Bget(DISK, b);
      if r.Some? {
        assert cache.buf[r.value].owner == 0;
        cache.AcquireSleep(r.value, pid);
      }
      assert View() == old(View());
    }

    /** With its last reference gone, buffer i is the latest released: first in the list, and its
        stamp above all others. */
    twostate predicate Released(i: nat)
      reads this, cache
    {
      if i < |cache.buf| && cache.buf[i].refcnt == 0 then
        && |cache.order| >= 2 && cache.order[1] == i && i < |cache.stamp| == |old(cache.stamp)|
        && cache.stamp == old(cache.stamp)[i := cache.clock] && cache.clock > old(cache.clock)
      else
        cache.order == old(cache.order) && cache.stamp == old(cache.stamp)
    }

    /** The caller changes the buffer's contents to v, calls log_write and brelse; other
        buffers may be held meanwhile. */
    method LogBlock(i: nat, pid: nat, b: nat, v: Block)
      requires Valid() && Holds(i, pid, b) && |v| == y.words
      modifies this`lh, cache`buf, cache`order, cache`stamp, cache`clock
      ensures Valid() && cache.disk == old(cache.disk)
      ensures View() == old(View())[b := v] && lh == LogRuns.Absorb(old(lh), b)
      ensures OthersSame(old(cache.buf), cache.buf, i) && cache.buf[i].owner == 0 && cache.buf[i].dirty
      ensures cache.buf[i].refcnt == old(cache.buf[i].refcnt) - 1 && Names(cache.buf, i, DISK, b) && Released(i)
      ensures old(Quiet(cache.buf, cache.disk)) ==> Quiet(cache.buf, cache.disk)
    {
      cache.Modify(i, pid, v);
      lh := LogRuns.Absorb(lh, b);
      cache.Pin(i, pid);
      Brelse(i, pid);
      assert View() == old(View())[b := v];
    }

    /** The same with bwrite instead of log_write: the block reaches the disk, and its
        buffer is clean. */
    method WriteBlock(i: nat, pid: nat, b: nat, v: Block)
      requires Valid() && Holds(i, pid, b) && |v| == y.words
      modifies cache
      ensures Valid()
      ensures View() == old(View())[b := v] && cache.disk == old(cache.disk)[b := v]
      ensures OthersSame(old(cache.buf), cache.buf, i) && cache.buf[i].owner == 0 && !cache.buf[i].dirty
      ensures cache.buf[i].refcnt == old(cache.buf[i].refcnt) - 1 && Names(cache.buf, i, DISK, b) && Released(i)
      ensures old(Quiet(cache.buf, cache.disk)) ==> Quiet(cache.buf, cache.disk)
    {
      WriteOut(i, pid, b, v);
      Brelse(i, pid);
      WroteQuiet(old(cache.buf), old(cache.disk), cache.buf, cache.disk, i, b);
    }

    /** The change and bwrite. */
    method WriteOut(i: nat, pid: nat, b: nat, v: Block)
      requires Valid() && Holds(i, pid, b) && |v| == y.words
      modifies cache`buf, cache`disk
      ensures Valid() && View() == old(View())[b := v] && cache.disk == old(cache.disk)[b := v]
      ensures cache.buf == old(cache.buf)[i := old(cache.buf)[i].(data := v, dirty := false)]
    {
      cache.Modify(i, pid, v);
      LogicalIs(cache.buf, cache.disk, b, i);
      var panicked := cache.Bwrite(i, pid);
      assert View() == old(View())[b := v];
    }

    /** Writing a buffer out leaves every other buffer as close to the disk as it was. */
    lemma WroteQuiet(bs: seq<Buf>, d: Image, cs: seq<Buf>, e: Image, i: nat, b: nat)
      requires CacheOk(bs, d) && CacheOk(cs, e) && OthersSame(bs, cs, i) && Shows(bs, i, b) && b < |d| == |e|
      requires forall x | 0 <= x < |d| && x != b :: e[x] == d[x]
      requires cs[i].owner == 0
      ensures Quiet(bs, d) ==> Quiet(cs, e)
    {
      forall j: nat | j < |cs| - 1 && cs[j].valid && !cs[j].dirty && Quiet(bs, d)
        ensures cs[j].blockno < |e| && cs[j].data == e[cs[j].blockno]
      {
        assert BufOk(cs[j], e);
        if j != i {
          assert SameBlock(bs[j], cs[j]) && BufOk(bs[j], d) && BufOk(bs[i], d);
          assert bs[j].blockno != b;
        }
      }
    }

    method Brelse(i: nat, pid: nat)
      requires cache.Valid() && i < |cache.buf| - 1 && Holds(i, pid, cache.buf[i].blockno)
      requires cache.buf[i].dirty || cache.buf[i].data == cache.disk[cache.buf[i].blockno]
      modifies cache`buf, cache`order, cache`stamp, cache`clock
      ensures cache.Valid() && View() == old(View()) && cache.disk == old(cache.disk)
      ensures OthersSame(old(cache.buf), cache.buf, i)
      ensures SameBlock(old(cache.buf)[i], cache.buf[i]) && cache.buf[i].owner == 0
      ensures cache.buf[i].refcnt == old(cache.buf[i].refcnt) - 1 && Released(i)
    {
      var panicked := cache.ReleaseSleep(i, pid);
      cache.Unref(i);
      assert View() == old(View());
    }
  }
}
