/** Crash atomicity of `commit` and of `recover_from_log` (log.c). */
module Crash {
  import opened Blocks
  import opened LogSpec

  /** The disk on entry to `commit`: no transaction on disk, and the cache differs
      from the disk only on the blocks this transaction logged. */
  predicate CommitEntry(y: Layout, d: Image, view: Image, lh: seq<nat>) {
    && DiskOk(y, d) && Header(y, d) == [] && ImageOk(y, view) && GoodList(y, lh)
    && forall b | 0 <= b < y.nblocks && y.Home(b) && b !in lh :: view[b] == d[b]
  }

  /** Image e after the first k writes of `commit`. */
  function After(e: Image, y: Layout, d: Image, view: Image, lh: seq<nat>, k: nat): (r: Image)
    requires CommitEntry(y, d, view, lh) && k <= CommitLen(lh) && |e| == y.nblocks
    ensures |r| == y.nblocks
  {
    if k == 0 then e
    else
      var w := CommitAt(y, d, view, lh, k - 1);
      After(e, y, d, view, lh, k - 1)[w.b := w.v]
  }

  /** The disk after the first k writes of `commit`. */
  function CommitPrefix(y: Layout, d: Image, view: Image, lh: seq<nat>, k: nat): (r: Image)
    requires CommitEntry(y, d, view, lh) && k <= CommitLen(lh)
    ensures |r| == |d|
  {
    After(d, y, d, view, lh, k)
  }

  lemma {:induction false} CommitLogBlock(y: Layout, d: Image, view: Image, lh: seq<nat>, k: nat, i: nat)
    requires CommitEntry(y, d, view, lh) && k <= CommitLen(lh) && i < |lh|
    ensures i < k ==> CommitPrefix(y, d, view, lh, k)[y.start + 1 + i] == view[lh[i]]
    decreases k
  {
    if i + 1 < k {
      CommitLogBlock(y, d, view, lh, k - 1, i);
    }
  }

  lemma {:induction false} CommitHeaderBlock(y: Layout, d: Image, view: Image, lh: seq<nat>, k: nat)
    requires CommitEntry(y, d, view, lh) && k <= CommitLen(lh)
    ensures CommitPrefix(y, d, view, lh, k)[y.start] ==
            if lh == [] || k <= |lh| then d[y.start]
            else if k < CommitLen(lh) then EncodeHeader(d[y.start], lh)
            else EncodeHeader(EncodeHeader(d[y.start], lh), [])
    decreases k
  {
    if k > 0 {
      CommitHeaderBlock(y, d, view, lh, k - 1);
    }
  }

  lemma {:induction false} CommitHomeBlock(y: Layout, d: Image, view: Image, lh: seq<nat>, k: nat, b: nat)
    requires CommitEntry(y, d, view, lh) && k <= CommitLen(lh) && y.Home(b)
    ensures b !in lh || k <= |lh| ==> CommitPrefix(y, d, view, lh, k)[b] == d[b]
    ensures b in lh && k > |lh| + 1 + IndexOf(lh, b) ==> CommitPrefix(y, d, view, lh, k)[b] == view[b]
    decreases k
  {
    if k > 0 {
      CommitHomeBlock(y, d, view, lh, k - 1, b);
    }
  }

  lemma {:induction false} AfterOk(e: Image, y: Layout, d: Image, view: Image, lh: seq<nat>, k: nat)
    requires CommitEntry(y, d, view, lh) && k <= CommitLen(lh) && ImageOk(y, e)
    ensures ImageOk(y, After(e, y, d, view, lh, k))
    decreases k
  {
    if k > 0 {
      AfterOk(e, y, d, view, lh, k - 1);
    }
  }

  /** The on-disk header is empty, then the transaction, then empty again. */
  lemma CommitHeader(y: Layout, d: Image, view: Image, lh: seq<nat>, k: nat)
    requires CommitEntry(y, d, view, lh) && k <= CommitLen(lh)
    ensures DiskOk(y, CommitPrefix(y, d, view, lh, k))
    ensures Header(y, CommitPrefix(y, d, view, lh, k)) ==
            if k <= |lh| || k == CommitLen(lh) then [] else lh
  {
    AfterOk(d, y, d, view, lh, k);
    CommitHeaderBlock(y, d, view, lh, k);
    HeaderRoundTrip(d[y.start], lh);
    HeaderRoundTrip(EncodeHeader(d[y.start], lh), []);
  }

  /** What one home block means after k writes. */
  lemma CommitDurable(y: Layout, d: Image, view: Image, lh: seq<nat>, k: nat, b: nat)
    requires CommitEntry(y, d, view, lh) && k <= CommitLen(lh) && y.Home(b)
    requires DiskOk(y, CommitPrefix(y, d, view, lh, k))
    ensures k <= |lh| ==> Durable(y, CommitPrefix(y, d, view, lh, k), b) == d[b]
    ensures lh == [] || k > |lh| ==> Durable(y, CommitPrefix(y, d, view, lh, k), b) == view[b]
  {
    CommitHeader(y, d, view, lh, k);
    CommitHomeBlock(y, d, view, lh, k, b);
    if b in lh {
      var i := IndexOf(lh, b);
      CommitLogBlock(y, d, view, lh, k, i);
      assert lh[i] == b;
    }
  }

  /** CRASH ATOMICITY OF COMMIT. After any prefix of `commit`'s disk writes the
      disk is recoverable, and it means exactly the state before the transaction
      until the header write (write number |lh|) and exactly the state after it
      from then on. After the last write nothing is left in the log. */
  lemma CommitIsAtomic(y: Layout, d: Image, view: Image, lh: seq<nat>, k: nat)
    requires CommitEntry(y, d, view, lh) && k <= CommitLen(lh)
    ensures DiskOk(y, CommitPrefix(y, d, view, lh, k))
    ensures k <= |lh| ==> DurableIs(y, CommitPrefix(y, d, view, lh, k), d)
    ensures lh == [] || k > |lh| ==> DurableIs(y, CommitPrefix(y, d, view, lh, k), view)
    ensures k == CommitLen(lh) ==>
              && Header(y, CommitPrefix(y, d, view, lh, k)) == []
              && SameHome(y, CommitPrefix(y, d, view, lh, k), view)
  {
    CommitHeader(y, d, view, lh, k);
    forall b | 0 <= b < y.nblocks && y.Home(b)
      ensures k <= |lh| ==> Durable(y, CommitPrefix(y, d, view, lh, k), b) == d[b]
      ensures lh == [] || k > |lh| ==> Durable(y, CommitPrefix(y, d, view, lh, k), b) == view[b]
      ensures k == CommitLen(lh) ==> CommitPrefix(y, d, view, lh, k)[b] == view[b]
    {
      CommitDurable(y, d, view, lh, k, b);
      CommitHomeBlock(y, d, view, lh, k, b);
    }
  }

  // ----- the cache during commit

  /** The cache and the disk agree on the log region. */
  predicate RegionSame(y: Layout, d: Image, view: Image)
    requires |d| == |view| == y.nblocks && y.Valid()
  {
    forall b | y.start <= b < y.start + y.size :: view[b] == d[b]
  }

  /** What the cache shows after the first k writes of `commit`. */
  function Shown(y: Layout, d: Image, view: Image, lh: seq<nat>, k: nat): (r: Image)
    requires CommitEntry(y, d, view, lh) && k <= CommitLen(lh)
    ensures |r| == |view|
  {
    After(view, y, d, view, lh, k)
  }

  lemma {:induction false} AfterSame(e: Image, f: Image, y: Layout, d: Image, view: Image, lh: seq<nat>, k: nat, b: nat)
    requires CommitEntry(y, d, view, lh) && k <= CommitLen(lh) && |e| == |f| == y.nblocks && b < |e| && e[b] == f[b]
    ensures After(e, y, d, view, lh, k)[b] == After(f, y, d, view, lh, k)[b]
    decreases k
  {
    if k > 0 {
      AfterSame(e, f, y, d, view, lh, k - 1, b);
    }
  }

  lemma {:induction false} AfterHome(y: Layout, d: Image, view: Image, lh: seq<nat>, k: nat, b: nat)
    requires CommitEntry(y, d, view, lh) && k <= CommitLen(lh) && y.Home(b)
    ensures Shown(y, d, view, lh, k)[b] == view[b]
    decreases k
  {
    if k > 0 {
      AfterHome(y, d, view, lh, k - 1, b);
    }
  }

  lemma ShownRegion(y: Layout, d: Image, view: Image, lh: seq<nat>, k: nat)
    requires CommitEntry(y, d, view, lh) && k <= CommitLen(lh) && RegionSame(y, d, view)
    ensures RegionSame(y, CommitPrefix(y, d, view, lh, k), Shown(y, d, view, lh, k))
  {
    forall b | y.start <= b < y.start + y.size
      ensures Shown(y, d, view, lh, k)[b] == CommitPrefix(y, d, view, lh, k)[b]
    {
      AfterSame(d, view, y, d, view, lh, k, b);
    }
  }

  /** Nothing a reader can see changes. */
  lemma ShownHome(y: Layout, d: Image, view: Image, lh: seq<nat>, k: nat)
    requires CommitEntry(y, d, view, lh) && k <= CommitLen(lh)
    ensures SameHome(y, Shown(y, d, view, lh, k), view)
  {
    forall b | 0 <= b < y.nblocks && y.Home(b)
      ensures Shown(y, d, view, lh, k)[b] == view[b]
    {
      AfterHome(y, d, view, lh, k, b);
    }
  }

  /** The write the code makes next is the one of the specification. */
  lemma NextIsAt(y: Layout, d: Image, view: Image, lh: seq<nat>, k: nat)
    requires CommitEntry(y, d, view, lh) && k < CommitLen(lh) && RegionSame(y, d, view)
    ensures ImageOk(y, Shown(y, d, view, lh, k))
    ensures CommitNext(y, Shown(y, d, view, lh, k), lh, k) == CommitAt(y, d, view, lh, k)
  {
    AfterOk(view, y, d, view, lh, k);
    var n := |lh|;
    if k < n {
      AfterHome(y, d, view, lh, k, lh[k]);
    } else if k == n || k == 2 * n + 1 {
      AfterSame(d, view, y, d, view, lh, k, y.start);
      CommitHeaderBlock(y, d, view, lh, k);
    } else {
      var i := k - n - 1;
      AfterSame(d, view, y, d, view, lh, k, y.start + 1 + i);
      CommitLogBlock(y, d, view, lh, k, i);
    }
  }

  // ----- recovery

  /** The disk after the first k writes of `recover_from_log`. */
  function RecoverPrefix(y: Layout, d: Image, k: nat): (r: Image)
    requires DiskOk(y, d) && k <= RecoverLen(y, d)
    ensures |r| == |d|
  {
    if k == 0 then d
    else
      var w := RecoverAt(y, d, k - 1);
      RecoverPrefix(y, d, k - 1)[w.b := w.v]
  }

  lemma {:induction false} RecoverBlocks(y: Layout, d: Image, k: nat, b: nat)
    requires DiskOk(y, d) && k <= RecoverLen(y, d) && b < y.nblocks
    ensures |RecoverPrefix(y, d, k)[b]| == y.words
    // a log block is never written
    ensures y.start < b < y.start + y.size ==> RecoverPrefix(y, d, k)[b] == d[b]
    ensures b == y.start ==>
              RecoverPrefix(y, d, k)[b] == if k == RecoverLen(y, d) then EncodeHeader(d[b], []) else d[b]
    // a home block has its own contents until it is written
    ensures y.Home(b) && b !in Header(y, d) ==> RecoverPrefix(y, d, k)[b] == d[b]
    ensures y.Home(b) && b in Header(y, d) && k > IndexOf(Header(y, d), b) ==>
              RecoverPrefix(y, d, k)[b] == Durable(y, d, b)
    decreases k
  {
    if k > 0 {
      RecoverBlocks(y, d, k - 1, b);
    }
  }

  /** The header stays until the last write clears it. */
  lemma RecoverHeader(y: Layout, d: Image, k: nat)
    requires DiskOk(y, d) && k <= RecoverLen(y, d)
    ensures DiskOk(y, RecoverPrefix(y, d, k))
    ensures Header(y, RecoverPrefix(y, d, k)) == if k == RecoverLen(y, d) then [] else Header(y, d)
  {
    var r := RecoverPrefix(y, d, k);
    forall b | 0 <= b < y.nblocks
      ensures |r[b]| == y.words
    {
      RecoverBlocks(y, d, k, b);
    }
    RecoverBlocks(y, d, k, y.start);
    HeaderRoundTrip(d[y.start], []);
  }

  lemma RecoverDurable(y: Layout, d: Image, k: nat, b: nat)
    requires DiskOk(y, d) && k <= RecoverLen(y, d) && y.Home(b) && DiskOk(y, RecoverPrefix(y, d, k))
    ensures Durable(y, RecoverPrefix(y, d, k), b) == Durable(y, d, b)
    ensures k == RecoverLen(y, d) ==> RecoverPrefix(y, d, k)[b] == Durable(y, d, b)
  {
    RecoverHeader(y, d, k);
    RecoverBlocks(y, d, k, b);
    if b in Header(y, d) {
      RecoverBlocks(y, d, k, y.start + 1 + IndexOf(Header(y, d), b));
    }
  }

  /** RECOVERY CAN CRASH. After any prefix of `recover_from_log`'s writes the disk
      still means what it meant, so recovery may be restarted any number of times;
      a finished recovery leaves an empty log and that meaning in place. */
  lemma RecoveryIsAtomic(y: Layout, d: Image, k: nat)
    requires DiskOk(y, d) && k <= RecoverLen(y, d)
    ensures DiskOk(y, RecoverPrefix(y, d, k))
    ensures forall b | 0 <= b < y.nblocks && y.Home(b) :: Durable(y, RecoverPrefix(y, d, k), b) == Durable(y, d, b)
    ensures k == RecoverLen(y, d) ==>
              && Header(y, RecoverPrefix(y, d, k)) == []
              && forall b | 0 <= b < y.nblocks && y.Home(b) :: RecoverPrefix(y, d, k)[b] == Durable(y, d, b)
  {
    RecoverHeader(y, d, k);
    forall b | 0 <= b < y.nblocks && y.Home(b)
      ensures Durable(y, RecoverPrefix(y, d, k), b) == Durable(y, d, b)
      ensures k == RecoverLen(y, d) ==> RecoverPrefix(y, d, k)[b] == Durable(y, d, b)
    {
      RecoverDurable(y, d, k, b);
    }
  }
}
