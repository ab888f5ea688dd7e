/** A file system as a sequence of files, one for each inode, and what an operation of the inode
    layer (fs.c, file.c, sysfile.c) makes of it. */
module FileOps {
  import opened FileSpec
  import opened FileBytes
  import Files

  /** Type and link count of an inode, and its bytes. */
  datatype File = File(kind: Kind, nlink: int, data: seq<byte>)

  /** The pieces that operations are made of: a chunk of filewrite or any other writei, itrunc, and
      an inode whose type or link count is changed and given to iupdate. */
  datatype FileOp =
    | Chunk(i: nat, off: nat, src: seq<byte>)
    | Trunc(i: nat)
    | Node(i: nat, kind: Kind, nlink: int)

  predicate Applies(op: FileOp, files: seq<File>) {
    op.i < |files| && (op.Chunk? ==> op.off <= |files[op.i].data|)
  }

  function After(op: FileOp, files: seq<File>): (r: seq<File>)
    requires Applies(op, files)
    ensures |r| == |files|
  {
    match op
    case Chunk(i, off, src) => files[i := files[i].(data := Splice(files[i].data, off, src))]
    case Trunc(i) => files[i := files[i].(data := [])]
    case Node(i, kind, nlink) => files[i := files[i].(kind := kind, nlink := nlink)]
  }

  predicate AllApply(ops: seq<FileOp>, files: seq<File>) {
    ops == [] || (Applies(ops[0], files) && AllApply(ops[1..], After(ops[0], files)))
  }

  /** The pieces one after the other. */
  function AfterAll(ops: seq<FileOp>, files: seq<File>): (r: seq<File>)
    requires AllApply(ops, files)
    ensures |r| == |files|
  {
    if ops == [] then files else AfterAll(ops[1..], After(ops[0], files))
  }

  lemma JustOne(op: FileOp, files: seq<File>)
    requires Applies(op, files)
    ensures AllApply([op], files) && AfterAll([op], files) == After(op, files)
  {
    assert [op][1..] == [];
  }

  lemma {:induction false} AfterJoin(ops: seq<FileOp>, more: seq<FileOp>, files: seq<File>)
    requires AllApply(ops, files) && AllApply(more, AfterAll(ops, files))
    ensures AllApply(ops + more, files) && AfterAll(ops + more, files) == AfterAll(more, AfterAll(ops, files))
    decreases |ops|
  {
    if ops == [] {
      assert ops + more == more;
    } else {
      AfterJoin(ops[1..], more, After(ops[0], files));
      assert (ops + more)[1..] == ops[1..] + more;
    }
  }

  function FileAt(g: Geo, st: Store, j: nat): File
    requires StoreOk(g, st) && j < |st.inode| && SizeOk(g, st.inode[j])
  {
    File(st.inode[j].kind, st.inode[j].nlink, Content(g, st, j))
  }

  predicate FileIs(g: Geo, st: Store, j: nat, f: File)
    requires StoreOk(g, st) && j < |st.inode| && SizeOk(g, st.inode[j])
  {
    f == FileAt(g, st, j)
  }

  /** Type, link count and contents of all inodes. */
  ghost predicate FilesAre(g: Geo, st: Store, files: seq<File>) {
    && StoreOk(g, st) && Files.SizesOk(g, st) && |files| == |st.inode|
    && forall j: nat | j < |files| :: FileIs(g, st, j, files[j])
  }

  ghost function FilesOf(g: Geo, st: Store): (files: seq<File>)
    requires StoreOk(g, st) && Files.SizesOk(g, st)
    ensures FilesAre(g, st, files)
  {
    seq(|st.inode|, j requires 0 <= j < |st.inode| => FileAt(g, st, j))
  }

  /** What an operation promises: a transaction, and afterwards every file is what the pieces of
      the operation make of it. */
  ghost predicate Performs(g: Geo, ops: seq<FileOp>, st: Store, tt: Store, log: set<nat>) {
    && Transaction(g, st, tt, log)
    && forall files | FilesAre(g, st, files) :: AllApply(ops, files) && FilesAre(g, tt, AfterAll(ops, files))
  }

  /** Operations one after the other, within one transaction. */
  lemma PerformsJoin(g: Geo, ops: seq<FileOp>, more: seq<FileOp>, st: Store, tt: Store, uu: Store, log: set<nat>,
                     log': set<nat>)
    requires Performs(g, ops, st, tt, log) && Performs(g, more, tt, uu, log')
    ensures Performs(g, ops + more, st, uu, log + log')
  {
    TransactionTrans(g, st, tt, uu, log, log');
    forall files: seq<File> | FilesAre(g, st, files)
      ensures AllApply(ops + more, files) && FilesAre(g, uu, AfterAll(ops + more, files))
    {
      AfterJoin(ops, more, files);
    }
  }

  /** Inode i has become f, and no other has changed. */
  lemma OneFileChanged(g: Geo, st: Store, tt: Store, i: nat, f: File, files: seq<File>)
    requires FilesAre(g, st, files) && Files.OthersSame(g, st, tt, i) && i < |tt.inode| && FileIs(g, tt, i, f)
    ensures FilesAre(g, tt, files[i := f])
  {
    var more := files[i := f];
    forall j: nat | j < |more|
      ensures FileIs(g, tt, j, more[j])
    {
      assert FileIs(g, st, j, files[j]);
      assert j != i ==> Files.FileSame(g, st, tt, j);
    }
  }

  lemma ChunkPerforms(g: Geo, st: Store, tt: Store, i: nat, off: nat, src: seq<byte>, c: seq<byte>, log: set<nat>)
    requires Files.OthersSame(g, st, tt, i) && Transaction(g, st, tt, log) && i < |st.inode|
    requires ContentIs(g, st, i, c) && off <= |c| && ContentIs(g, tt, i, Splice(c, off, src))
    requires tt.inode[i].kind == st.inode[i].kind && tt.inode[i].nlink == st.inode[i].nlink
    ensures Performs(g, [Chunk(i, off, src)], st, tt, log)
  {
    var op := Chunk(i, off, src);
    ContentOk(g, st, i, c);
    ContentOk(g, tt, i, Splice(c, off, src));
    forall files: seq<File> | FilesAre(g, st, files)
      ensures AllApply([op], files) && FilesAre(g, tt, AfterAll([op], files))
    {
      assert FileIs(g, st, i, files[i]);
      OneFileChanged(g, st, tt, i, files[i].(data := Splice(c, off, src)), files);
      JustOne(op, files);
    }
  }

  lemma TruncPerforms(g: Geo, st: Store, tt: Store, i: nat, log: set<nat>)
    requires Transaction(g, st, tt, log) && StoreOk(g, st) && StoreOk(g, tt) && i < |st.inode| == |tt.inode|
    requires tt.inode[i] == st.inode[i].(size := 0, addrs := tt.inode[i].addrs)
    requires tt.dinode == st.dinode[i := tt.inode[i]]
    requires forall j | 0 <= j < |tt.inode| && j != i :: tt.inode[j] == st.inode[j]
    requires forall j, bn | 0 <= j < |tt.inode| && j != i && 0 <= bn < g.MaxFile() ::
               FileBlock(g, tt, j, bn) == FileBlock(g, st, j, bn)
    ensures Performs(g, [Trunc(i)], st, tt, log)
  {
    forall files: seq<File> | FilesAre(g, st, files)
      ensures AllApply([Trunc(i)], files) && FilesAre(g, tt, AfterAll([Trunc(i)], files))
    {
      OthersAre(g, st, tt, i);
      assert FileIs(g, st, i, files[i]);
      OneFileChanged(g, st, tt, i, files[i].(data := []), files);
      JustOne(Trunc(i), files);
    }
  }

  lemma OthersAre(g: Geo, st: Store, tt: Store, i: nat)
    requires StoreOk(g, st) && StoreOk(g, tt) && i < |st.inode| == |tt.inode| && Files.SizesOk(g, st)
    requires tt.inode == st.inode[i := tt.inode[i]] && tt.dinode == st.dinode[i := tt.dinode[i]]
    requires SizeOk(g, tt.inode[i])
    requires forall j, bn | 0 <= j < |tt.inode| && j != i && 0 <= bn < g.MaxFile() ::
               FileBlock(g, tt, j, bn) == FileBlock(g, st, j, bn)
    ensures Files.OthersSame(g, st, tt, i)
  {
    forall j: nat | j < |st.inode| && j != i
      ensures Files.FileSame(g, st, tt, j)
    {
      SameContent(g, st, tt, j);
    }
  }

  lemma NodePerforms(g: Geo, st: Store, tt: Store, i: nat, kind: Kind, nlink: int, log: set<nat>)
    requires Transaction(g, st, tt, log) && StoreOk(g, st) && StoreOk(g, tt) && SameFiles(g, st, tt) && i < |st.inode|
    requires tt.inode == st.inode[i := st.inode[i].(kind := kind, nlink := nlink)]
    requires tt.dinode == st.dinode[i := tt.inode[i]]
    ensures Performs(g, [Node(i, kind, nlink)], st, tt, log)
  {
    var op := Node(i, kind, nlink);
    forall files: seq<File> | FilesAre(g, st, files)
      ensures AllApply([op], files) && FilesAre(g, tt, AfterAll([op], files))
    {
      OthersAre(g, st, tt, i);
      SameContent(g, st, tt, i);
      assert FileIs(g, st, i, files[i]);
      OneFileChanged(g, st, tt, i, files[i].(kind := kind, nlink := nlink), files);
      JustOne(op, files);
    }
  }

  method PerformChunk(fs: Files.Fs, i: nat, off: nat, src: seq<byte>, ghost q: nat, ghost maxop: nat,
                      ghost c: seq<byte>) returns (ok: bool)
    requires fs.Holds(i, c) && |src| <= q * fs.g.BSize() && 2 * q + 4 <= maxop && off < UINT && |src| < UINT
    modifies fs`blocks, fs`used, fs`inode, fs`dinode, fs`own, fs`logged
    ensures fs.Valid() && |fs.inode| == |old(fs.inode)| && fs.Adds({})
    ensures ok ==> Performs(fs.g, [Chunk(i, off, src)], old(fs.St()), fs.St(), fs.logged) && |fs.logged| <= maxop
    ensures forall j | 0 <= j < |fs.inode| && j != i :: fs.inode[j] == old(fs.inode)[j]
    ensures (exists b | 0 <= b < |fs.used| :: !fs.used[b]) ==> (ok <==> fs.InRange(|c|, off, |src|))
  {
    ghost var st := fs.St();
    var r := fs.WriteChunk(i, off, src, q, q * fs.g.BSize(), maxop, c);
    ok := r.Done?;
    if ok {
      ChunkPerforms(fs.g, st, fs.St(), i, off, src, c, fs.logged);
    }
  }

  method PerformTrunc(fs: Files.Fs, i: nat)
    requires fs.Valid() && i < |fs.inode|
    modifies fs`used, fs`inode, fs`dinode, fs`own, fs`logged
    ensures fs.Valid() && |fs.inode| == |old(fs.inode)| && fs.Adds({})
    ensures Performs(fs.g, [Trunc(i)], old(fs.St()), fs.St(), fs.logged)
    ensures forall j | 0 <= j < |fs.inode| && j != i :: fs.inode[j] == old(fs.inode)[j]
    ensures fs.logged == {fs.g.IBlock(i)} + Bitmaps(fs.g, old(fs.own), i) && |fs.logged| <= 1 + NBitmaps(fs.g)
  {
    ghost var st := fs.St();
    TruncCost(fs.g, st, fs.own, i);
    fs.logged := {};
    var panicked := fs.Itrunc(i);
    TruncPerforms(fs.g, st, fs.St(), i, fs.logged);
  }

  /** An inode update as one more piece of a transaction. */
  method PerformNode(fs: Files.Fs, i: nat, kind: Kind, nlink: int)
    requires fs.Valid() && i < |fs.inode|
    modifies fs`inode, fs`dinode, fs`logged
    ensures fs.Valid() && |fs.inode| == |old(fs.inode)| && fs.Adds(old(fs.logged))
    ensures Performs(fs.g, [Node(i, kind, nlink)], old(fs.St()), fs.St(), fs.logged)
    ensures forall j | 0 <= j < |fs.inode| && j != i :: fs.inode[j] == old(fs.inode)[j]
    ensures fs.logged == old(fs.logged) + {fs.g.IBlock(i)}
  {
    ghost var st := fs.St();
    fs.SetNode(i, kind, nlink);
    NodePerforms(fs.g, st, fs.St(), i, kind, nlink, fs.logged);
  }

  /** The code of one piece, between begin_op and end_op; a chunk on a file without holes. A chunk
      logs at most MAXOPBLOCKS blocks, itrunc the inode's block and the bitmap blocks of its bits,
      an inode update the inode's block. */
  method Perform(fs: Files.Fs, op: FileOp, ghost q: nat, ghost maxop: nat, ghost c: seq<byte>)
    returns (ok: bool)
    requires fs.Valid() && op.i < |fs.inode|
    requires op.Chunk? ==> fs.Holds(op.i, c) && |op.src| <= q * fs.g.BSize() && 2 * q + 4 <= maxop
    requires op.Chunk? ==> op.off < UINT && |op.src| < UINT
    modifies fs`blocks, fs`used, fs`inode, fs`dinode, fs`own, fs`logged
    ensures fs.Valid() && |fs.inode| == |old(fs.inode)| && fs.Adds({})
    ensures ok ==> Performs(fs.g, [op], old(fs.St()), fs.St(), fs.logged)
    ensures op.Chunk? && ok ==> |fs.logged| <= maxop
    ensures op.Trunc? ==> ok && fs.logged == {fs.g.IBlock(op.i)} + Bitmaps(fs.g, old(fs.own), op.i)
    ensures op.Trunc? ==> |fs.logged| <= 1 + NBitmaps(fs.g)
    ensures op.Node? ==> ok && fs.logged == {fs.g.IBlock(op.i)}
    ensures op.Chunk? && (exists b | 0 <= b < |fs.used| :: !fs.used[b]) ==>
              (ok <==> fs.InRange(|c|, op.off, |op.src|))
  {
    match op {
      case Chunk(i, off, src) =>
        ok := PerformChunk(fs, i, off, src, q, maxop, c);
      case Trunc(i) =>
        PerformTrunc(fs, i);
        ok := true;
      case Node(i, kind, nlink) =>
        fs.logged := {};
        PerformNode(fs, i, kind, nlink);
        ok := true;
    }
  }

  /** A zeroed directory entry. */
  function Zeros(): seq<byte> {
    seq(16, k => 0)
  }

  /** The pieces of unlink: the entry is zeroed, and the inode it named has a link less. */
  function UnlinkOps(dp: nat, off: nat, ip: nat, kind: Kind, nlink: int): seq<FileOp> {
    [Chunk(dp, off, Zeros())] + [Node(ip, kind, nlink - 1)]
  }

  ghost predicate Sound(g: Geo, st: Store) {
    StoreOk(g, st) && Files.SizesOk(g, st)
  }

  /** The bytes d are the bytes c, with sixteen of them at off set to zero. */
  predicate Zeroed(c: seq<byte>, d: seq<byte>, off: nat) {
    |d| == |c| && forall x | 0 <= x < |c| :: d[x] == if off <= x < off + 16 then 0 else c[x]
  }

  /** What unlink leaves of a file: of the directory all but sixteen bytes, of the inode named all but
      a link, of any other everything. */
  predicate Left(f: File, h: File, off: nat, dir: bool, named: bool) {
    && h.kind == f.kind && h.nlink == f.nlink - (if named then 1 else 0)
    && if dir then Zeroed(f.data, h.data, off) else h.data == f.data
  }

  ghost predicate Unlinked(g: Geo, st: Store, tt: Store, dp: nat, off: nat, ip: nat) {
    && Sound(g, st) && Sound(g, tt) && |tt.inode| == |st.inode|
    && forall j: nat | j < |st.inode| :: Left(FileAt(g, st, j), FileAt(g, tt, j), off, j == dp, j == ip)
  }

  lemma SpliceZeros(c: seq<byte>, off: nat)
    requires off + 16 <= |c|
    ensures Zeroed(c, Splice(c, off, Zeros()), off)
  {
  }

  lemma UnlinkPieces(files: seq<File>, dp: nat, off: nat, ip: nat)
    requires dp < |files| && ip < |files| && ip != dp && off + 16 <= |files[dp].data|
    ensures var ops := UnlinkOps(dp, off, ip, files[ip].kind, files[ip].nlink);
            && AllApply(ops, files)
            && AfterAll(ops, files) == files[dp := files[dp].(data := Splice(files[dp].data, off, Zeros()))]
                                            [ip := files[ip].(nlink := files[ip].nlink - 1)]
  {
    var a, b := Chunk(dp, off, Zeros()), Node(ip, files[ip].kind, files[ip].nlink - 1);
    JustOne(a, files);
    JustOne(b, After(a, files));
    AfterJoin([a], [b], files);
  }

  lemma UnlinkMakes(g: Geo, st: Store, tt: Store, dp: nat, off: nat, ip: nat, log: set<nat>)
    requires Sound(g, st) && dp < |st.inode| && ip < |st.inode| && ip != dp && off + 16 <= |Content(g, st, dp)|
    requires Performs(g, UnlinkOps(dp, off, ip, st.inode[ip].kind, st.inode[ip].nlink), st, tt, log)
    ensures Unlinked(g, st, tt, dp, off, ip)
  {
    var files := FilesOf(g, st);
    assert FileIs(g, st, dp, files[dp]) && FileIs(g, st, ip, files[ip]);
    UnlinkPieces(files, dp, off, ip);
    SpliceZeros(files[dp].data, off);
    var made := AfterAll(UnlinkOps(dp, off, ip, files[ip].kind, files[ip].nlink), files);
    assert FilesAre(g, tt, made);
    forall j: nat | j < |st.inode|
      ensures Left(FileAt(g, st, j), FileAt(g, tt, j), off, j == dp, j == ip)
    {
      assert FileIs(g, st, j, files[j]) && FileIs(g, tt, j, made[j]);
    }
  }

  /** sys_unlink of a file, from the entry at off of directory dp to iupdate: one transaction of two
      pieces, which logs at most seven blocks. */
  method Unlink(fs: Files.Fs, dp: nat, off: nat, ip: nat, ghost c: seq<byte>) returns (ok: bool)
    requires fs.Holds(dp, c) && off + 16 <= |c| && ip < |fs.inode| && ip != dp && fs.g.BSize() >= 16
    modifies fs`blocks, fs`used, fs`inode, fs`dinode, fs`own, fs`logged
    ensures fs.Valid() && |fs.inode| == |old(fs.inode)| && fs.Adds({})
    ensures ok ==> Performs(fs.g, UnlinkOps(dp, off, ip, old(fs.inode)[ip].kind, old(fs.inode)[ip].nlink),
                            old(fs.St()), fs.St(), fs.logged)
    ensures ok ==> Unlinked(fs.g, old(fs.St()), fs.St(), dp, off, ip) && |fs.logged| <= 7
  {
    ghost var st := fs.St();
    ContentOk(fs.g, st, dp, c);
    ok := PerformChunk(fs, dp, off, Zeros(), 1, 6, c);
    if ok {
      ghost var tt, log := fs.St(), fs.logged;
      var kind, nlink := fs.inode[ip].kind, fs.inode[ip].nlink - 1;
      PerformNode(fs, ip, kind, nlink);
      UnlinkJoin(fs.g, dp, off, ip, st, tt, fs.St(), log, fs.logged);
    }
  }

  lemma UnlinkJoin(g: Geo, dp: nat, off: nat, ip: nat, st: Store, tt: Store, uu: Store, log: set<nat>,
                   log': set<nat>)
    requires Sound(g, st) && dp < |st.inode| && ip < |st.inode| && ip != dp && off + 16 <= |Content(g, st, dp)|
    requires log' == log + {g.IBlock(ip)} && Performs(g, [Chunk(dp, off, Zeros())], st, tt, log)
    requires Performs(g, [Node(ip, st.inode[ip].kind, st.inode[ip].nlink - 1)], tt, uu, log')
    ensures Performs(g, UnlinkOps(dp, off, ip, st.inode[ip].kind, st.inode[ip].nlink), st, uu, log')
    ensures Unlinked(g, st, uu, dp, off, ip) && |log'| <= |log| + 1
  {
    PerformsJoin(g, [Chunk(dp, off, Zeros())], [Node(ip, st.inode[ip].kind, st.inode[ip].nlink - 1)], st, tt, uu,
                 log, log');
    assert log + log' == log';
    UnlinkMakes(g, st, uu, dp, off, ip, log');
  }
}
