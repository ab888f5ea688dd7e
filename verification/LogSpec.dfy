/** The redo log's on-disk format and what a crash leaves behind (log.c). */
module LogSpec {
  import opened Blocks

  /** Sizes of one configuration: the log region is `[start, start + size)`, its
      first block is the header; `logsize` is LOGSIZE, `maxop` MAXOPBLOCKS,
      `words` the words in a block, `nblocks` the blocks on the disk. */
  datatype Layout = Layout(start: nat, size: nat, logsize: nat, maxop: nat, words: nat, nblocks: nat) {
    predicate Valid() {
      && 1 <= size && start + size <= nblocks
      && 1 + logsize <= words  // initlog: a header must fit in a block
    }

    predicate Home(b: int) {
      0 <= b < nblocks && !(start <= b < start + size)
    }
  }

  predicate Distinct(s: seq<nat>) {
    forall i, j | 0 <= i < j < |s| :: s[i] != s[j]
  }

  /** Block numbers a transaction may hold: distinct, outside the log, and few
      enough for both the header and the log region. */
  predicate GoodList(y: Layout, lh: seq<nat>) {
    && |lh| <= y.logsize && |lh| < y.size
    && Distinct(lh)
    && forall i | 0 <= i < |lh| :: y.Home(lh[i])
  }

  /** Block numbers that a commit can work with at all: they fit the header, and the
      log blocks for them are on the disk. Not necessarily in the log region. */
  predicate ListOk(y: Layout, lh: seq<nat>) {
    && |lh| <= y.logsize && y.start + 1 + |lh| <= y.nblocks
    && Distinct(lh)
    && forall i | 0 <= i < |lh| :: y.Home(lh[i])
  }

  predicate ImageOk(y: Layout, d: Image) {
    && |d| == y.nblocks
    && forall b | 0 <= b < |d| :: |d[b]| == y.words
  }

  /** `write_head`: the count and the first n entries are overwritten, the rest
      of the header block stays as it was. */
  function EncodeHeader(prev: Block, lh: seq<nat>): (r: Block)
    requires 1 + |lh| <= |prev|
    ensures |r| == |prev|
  {
    [|lh| as int] + seq(|lh|, i requires 0 <= i < |lh| => lh[i] as int) + prev[1 + |lh|..]
  }

  /** A header block that `read_head` can read. */
  predicate HeaderReadable(h: Block) {
    && |h| >= 1 && 0 <= h[0] < |h|
    && forall i | 1 <= i <= h[0] :: 0 <= h[i]
  }

  /** `read_head`. */
  function DecodeHeader(h: Block): (lh: seq<nat>)
    requires HeaderReadable(h)
  {
    seq(h[0], i requires 0 <= i < h[0] => h[i + 1])
  }

  lemma HeaderRoundTrip(prev: Block, lh: seq<nat>)
    requires 1 + |lh| <= |prev|
    ensures HeaderReadable(EncodeHeader(prev, lh))
    ensures DecodeHeader(EncodeHeader(prev, lh)) == lh
  {
    var h := EncodeHeader(prev, lh);
    forall i | 1 <= i <= |lh|
      ensures h[i] == lh[i - 1]
    {
    }
  }

  /** A disk whose header names a transaction that can be installed. */
  predicate DiskOk(y: Layout, d: Image) {
    && y.Valid() && ImageOk(y, d)
    && HeaderReadable(d[y.start])
    && GoodList(y, DecodeHeader(d[y.start]))
  }

  function Header(y: Layout, d: Image): seq<nat>
    requires DiskOk(y, d)
  {
    DecodeHeader(d[y.start])
  }

  function IndexOf(s: seq<nat>, b: nat): (i: nat)
    requires b in s
    ensures i < |s| && s[i] == b
  {
    if s[0] == b then 0 else 1 + IndexOf(s[1..], b)
  }

  /** What a disk means to the file system: a home block named by the on-disk
      header has the contents of its log block, any other its own. Defined block
      by block, without reference to the recovery code. */
  function Durable(y: Layout, d: Image, b: nat): Block
    requires DiskOk(y, d) && y.Home(b)
  {
    if b in Header(y, d) then d[y.start + 1 + IndexOf(Header(y, d), b)] else d[b]
  }

  predicate SameHome(y: Layout, d: Image, e: Image)
    requires |d| == |e| == y.nblocks
  {
    forall b | 0 <= b < y.nblocks && y.Home(b) :: d[b] == e[b]
  }

  predicate DurableIs(y: Layout, d: Image, e: Image)
    requires DiskOk(y, d) && |e| == y.nblocks
  {
    forall b | 0 <= b < y.nblocks && y.Home(b) :: Durable(y, d, b) == e[b]
  }

  // ----- the writes the code issues, in order

  /** `install_trans`: log blocks of `d` to home locations. */
  function InstallWrites(y: Layout, d: Image, lh: seq<nat>): (ws: seq<Write>)
    requires y.Valid() && |d| == y.nblocks && GoodList(y, lh)
  {
    seq(|lh|, k requires 0 <= k < |lh| => Write(lh[k], d[y.start + 1 + k]))
  }

  /** `write_head` with the given list over header block `h`. */
  function HeadWrite(y: Layout, h: Block, lh: seq<nat>): (w: Write)
    requires 1 + |lh| <= |h|
  {
    Write(y.start, EncodeHeader(h, lh))
  }

  /** Number of writes `commit` makes. */
  function CommitLen(lh: seq<nat>): nat {
    if lh == [] then 0 else 2 * |lh| + 2
  }

  /** Write number k of `commit` as the code makes it, from what the cache shows by then:
      log blocks, header, home blocks, cleared header. */
  function CommitNext(y: Layout, view: Image, lh: seq<nat>, k: nat): (w: Write)
    requires y.Valid() && ImageOk(y, view) && ListOk(y, lh) && k < CommitLen(lh)
    ensures w.b < y.nblocks && |w.v| == y.words
  {
    var n := |lh|;
    if k < n then Write(y.start + 1 + k, view[lh[k]])
    else if k == n then HeadWrite(y, view[y.start], lh)
    else if k < 2 * n + 1 then Write(lh[k - n - 1], view[y.start + 1 + (k - n - 1)])
    else HeadWrite(y, view[y.start], [])
  }

  /** What block writes change: the disk, what the cache shows, and the record of writes. */
  datatype Io = Io(disk: Image, view: Image, trace: seq<Write>)

  predicate IoOk(y: Layout, io: Io) {
    ImageOk(y, io.disk) && ImageOk(y, io.view)
  }

  function Put(io: Io, w: Write): Io
    requires w.b < |io.disk| == |io.view|
  {
    Io(io.disk[w.b := w.v], io.view[w.b := w.v], io.trace + [w])
  }

  /** After the first k writes of `commit`, each made from what the cache shows by then. */
  function CodeIo(y: Layout, io: Io, lh: seq<nat>, k: nat): (r: Io)
    requires y.Valid() && IoOk(y, io) && ListOk(y, lh) && k <= CommitLen(lh)
    ensures IoOk(y, r)
  {
    if k == 0 then io
    else
      var p := CodeIo(y, io, lh, k - 1);
      Put(p, CommitNext(y, p.view, lh, k - 1))
  }

  /** After the first k writes of `install_trans`. */
  function InstallIo(y: Layout, io: Io, lh: seq<nat>, k: nat): (r: Io)
    requires y.Valid() && IoOk(y, io) && ListOk(y, lh) && k <= |lh|
    ensures IoOk(y, r)
  {
    if k == 0 then io
    else
      var p := InstallIo(y, io, lh, k - 1);
      Put(p, Write(lh[k - 1], p.view[y.start + k]))
  }

  /** What those writes come to for a list that fits the log region: log blocks, header, home blocks, cleared header.
      `d` is the disk and `view` the cached contents at the start. */
  function CommitAt(y: Layout, d: Image, view: Image, lh: seq<nat>, k: nat): (w: Write)
    requires y.Valid() && ImageOk(y, d) && ImageOk(y, view) && GoodList(y, lh) && k < CommitLen(lh)
    ensures w.b < y.nblocks && |w.v| == y.words
  {
    var n := |lh|;
    if k < n then Write(y.start + 1 + k, view[lh[k]])
    else if k == n then HeadWrite(y, d[y.start], lh)
    else if k < 2 * n + 1 then Write(lh[k - n - 1], view[lh[k - n - 1]])
    else HeadWrite(y, EncodeHeader(d[y.start], lh), [])
  }

  /** `commit`: nothing for an empty transaction. */
  function CommitWrites(y: Layout, d: Image, view: Image, lh: seq<nat>): (ws: seq<Write>)
    requires y.Valid() && ImageOk(y, d) && ImageOk(y, view) && GoodList(y, lh)
    ensures |ws| == CommitLen(lh)
  {
    seq(CommitLen(lh), k requires 0 <= k < CommitLen(lh) => CommitAt(y, d, view, lh, k))
  }

  /** Write number k of `recover_from_log` on disk `d`: home blocks, cleared header. */
  function RecoverAt(y: Layout, d: Image, k: nat): (w: Write)
    requires DiskOk(y, d) && k < RecoverLen(y, d)
    ensures w.b < y.nblocks && |w.v| == y.words
  {
    var lh := Header(y, d);
    if k < |lh| then Write(lh[k], d[y.start + 1 + k]) else HeadWrite(y, d[y.start], [])
  }

  function RecoverLen(y: Layout, d: Image): nat
    requires DiskOk(y, d)
  {
    |Header(y, d)| + 1
  }

  /** `recover_from_log` on disk `d`. */
  function RecoverWrites(y: Layout, d: Image): (ws: seq<Write>)
    requires DiskOk(y, d)
  {
    InstallWrites(y, d, Header(y, d)) + [HeadWrite(y, d[y.start], [])]
  }
}
