/** The code of the inode layer (fs.c) meets the runs of the log (log.c): whatever an operation's
    code makes of the file system can be written block by block, and logging those blocks is the
    operation in a run. */
module FileCode {
  import opened Blocks
  import opened LogSpec
  import opened LogRuns
  import opened FileCrash
  import opened FileOps
  import opened FileRuns
  import opened FileProgress
  import LogTheorems
  import Files
  import FileBytes
  import F = FileSpec

  // ----- writing a block

  /** How a block is written: as data, as bits, as inodes. */
  datatype Encoder = Encoder(data: F.Block -> Block, bits: seq<bool> -> Block, nodes: seq<F.Inode> -> Block)

  /** What a struct dinode has room for (fs.h): four shorts and as many uints as there are addresses. */
  predicate Fits(g: F.Geo, ino: F.Inode) {
    && ShortNode(ino.kind, ino.nlink) && ino.size < F.UINT
    && |ino.addrs| == g.ndirect + 1 && forall k | 0 <= k < |ino.addrs| :: ino.addrs[k] < F.UINT
  }

  predicate AllFit(g: F.Geo, f: seq<F.Inode>) {
    |f| == g.ipb && forall k | 0 <= k < |f| :: Fits(g, f[k])
  }

  /** What is written is what is read. */
  ghost predicate WritesData(vol: Volume, e: Encoder) {
    forall x | |x| == vol.g.bsize :: vol.c.data(e.data(x)) == x
  }

  ghost predicate WritesBits(vol: Volume, e: Encoder) {
    forall f, k: nat | k < vol.g.bpb == |f| :: vol.c.bit(e.bits(f), k) == f[k]
  }

  ghost predicate WritesNodes(vol: Volume, e: Encoder) {
    forall f, k: nat | k < vol.g.ipb && AllFit(vol.g, f) :: vol.c.node(e.nodes(f), k) == f[k]
  }

  ghost predicate WritesBlocks(vol: Volume, e: Encoder) {
    && (forall x | |x| == vol.g.bsize :: |e.data(x)| == vol.y.words)
    && (forall f :: |e.bits(f)| == vol.y.words) && forall f :: |e.nodes(f)| == vol.y.words
  }

  ghost predicate ReadsFit(vol: Volume) {
    forall v, k: nat :: Fits(vol.g, vol.c.node(v, k))
  }

  ghost predicate Encodes(vol: Volume, e: Encoder) {
    WritesData(vol, e) && WritesBits(vol, e) && WritesNodes(vol, e) && WritesBlocks(vol, e) && ReadsFit(vol)
  }

  /** Place k of block b, of a region of blocks with `per` places each. */
  function Index(start: nat, per: nat, b: nat, k: nat): nat
    requires start <= b
  {
    (b - start) * per + k
  }

  /** Bit k of a bitmap block: that of the block it stands for in tt, or, behind the last block, as
      it was. */
  function BitAt(vol: Volume, was: Block, tt: F.Store, b: nat, k: nat): bool
    requires vol.g.bmapstart <= b
  {
    var x := Index(vol.g.bmapstart, vol.g.bpb, b, k);
    if x < |tt.used| then tt.used[x] else vol.c.bit(was, k)
  }

  function BitsAt(vol: Volume, was: Block, tt: F.Store, b: nat): (f: seq<bool>)
    requires vol.g.bmapstart <= b
    ensures |f| == vol.g.bpb && forall k | 0 <= k < vol.g.bpb :: f[k] == BitAt(vol, was, tt, b, k)
  {
    seq(vol.g.bpb, k requires 0 <= k => BitAt(vol, was, tt, b, k))
  }

  /** Place k of an inode block, likewise. */
  function NodeAt(vol: Volume, was: Block, tt: F.Store, b: nat, k: nat): F.Inode
    requires vol.g.inodestart <= b
  {
    var x := Index(vol.g.inodestart, vol.g.ipb, b, k);
    if x < |tt.dinode| then tt.dinode[x] else vol.c.node(was, k)
  }

  function NodesAt(vol: Volume, was: Block, tt: F.Store, b: nat): (f: seq<F.Inode>)
    requires vol.g.inodestart <= b
    ensures |f| == vol.g.ipb && forall k | 0 <= k < vol.g.ipb :: f[k] == NodeAt(vol, was, tt, b, k)
  {
    seq(vol.g.ipb, k requires 0 <= k => NodeAt(vol, was, tt, b, k))
  }

  /** Block b of tt, as it is given to log_write. */
  function BlockOf(vol: Volume, e: Encoder, was: Block, tt: F.Store, b: nat): Block {
    if vol.g.nmeta <= b < |tt.blocks| then e.data(tt.blocks[b])
    else if vol.g.bmapstart <= b then e.bits(BitsAt(vol, was, tt, b))
    else if vol.g.inodestart <= b then e.nodes(NodesAt(vol, was, tt, b))
    else was
  }

  /** Image m with the blocks of log written from tt. */
  function Written(vol: Volume, e: Encoder, m: Image, tt: F.Store, log: set<nat>): (v: Image)
    ensures |v| == |m|
    ensures forall b | 0 <= b < |m| :: v[b] == if b in log then BlockOf(vol, e, m[b], tt, b) else m[b]
  {
    seq(|m|, b requires 0 <= b < |m| => if b in log then BlockOf(vol, e, m[b], tt, b) else m[b])
  }

  /** A file system that can be written: the code has touched no metadata block as data. */
  ghost predicate Writable(vol: Volume, m: Image, tt: F.Store)
    requires vol.Valid() && |m| == vol.g.size
  {
    && F.StoreOk(vol.g, tt) && |tt.dinode| == vol.n && (forall i: nat | i < vol.n :: Fits(vol.g, tt.dinode[i]))
    && forall b: nat | b < vol.g.nmeta :: tt.blocks[b] == vol.Read(m).blocks[b]
  }

  /** Where the bit of block b, and inode i, are. */
  lemma Places(g: F.Geo, b: nat, i: nat)
    requires g.Valid()
    ensures g.bmapstart <= g.BBlock(b) && Index(g.bmapstart, g.bpb, g.BBlock(b), b % g.bpb) == b && b % g.bpb < g.bpb
    ensures g.inodestart <= g.IBlock(i) && Index(g.inodestart, g.ipb, g.IBlock(i), i % g.ipb) == i && i % g.ipb < g.ipb
  {
    F.Share(b, g.bpb);
    F.Share(i, g.ipb);
  }

  lemma BitRead(vol: Volume, e: Encoder, was: Block, tt: F.Store, x: nat, k: nat, b: nat)
    requires WritesBits(vol, e) && k < vol.g.bpb && vol.g.bmapstart <= x
    requires Index(vol.g.bmapstart, vol.g.bpb, x, k) == b < |tt.used|
    ensures vol.c.bit(e.bits(BitsAt(vol, was, tt, x)), k) == tt.used[b]
  {
    assert BitsAt(vol, was, tt, x)[k] == BitAt(vol, was, tt, x, k);
  }

  lemma BitWritten(vol: Volume, e: Encoder, m: Image, tt: F.Store, log: set<nat>, b: nat)
    requires vol.Valid() && WritesBits(vol, e) && |m| == vol.g.size == |tt.used|
    requires b < vol.g.size && vol.g.BBlock(b) in log
    ensures vol.Used(Written(vol, e, m, tt, log), b) == tt.used[b]
  {
    Places(vol.g, b, 0);
    BitRead(vol, e, m[vol.g.BBlock(b)], tt, vol.g.BBlock(b), b % vol.g.bpb, b);
  }

  lemma NodeRead(vol: Volume, e: Encoder, was: Block, tt: F.Store, x: nat, k: nat, i: nat)
    requires WritesNodes(vol, e) && ReadsFit(vol) && k < vol.g.ipb && vol.g.inodestart <= x
    requires Index(vol.g.inodestart, vol.g.ipb, x, k) == i < |tt.dinode|
    requires forall j: nat | j < |tt.dinode| :: Fits(vol.g, tt.dinode[j])
    ensures vol.c.node(e.nodes(NodesAt(vol, was, tt, x)), k) == tt.dinode[i]
  {
    var f := NodesAt(vol, was, tt, x);
    forall l | 0 <= l < |f|
      ensures Fits(vol.g, f[l])
    {
      NodeAtFits(vol, was, tt, x, l);
    }
    assert AllFit(vol.g, f) && f[k] == NodeAt(vol, was, tt, x, k);
  }

  lemma NodeAtFits(vol: Volume, was: Block, tt: F.Store, x: nat, l: nat)
    requires ReadsFit(vol) && vol.g.inodestart <= x
    requires forall i: nat | i < |tt.dinode| :: Fits(vol.g, tt.dinode[i])
    ensures Fits(vol.g, NodeAt(vol, was, tt, x, l))
  {
  }

  lemma NodeWritten(vol: Volume, e: Encoder, m: Image, tt: F.Store, log: set<nat>, i: nat)
    requires vol.Valid() && WritesNodes(vol, e) && ReadsFit(vol) && |m| == vol.g.size && |tt.dinode| == vol.n
    requires forall j: nat | j < |tt.dinode| :: Fits(vol.g, tt.dinode[j])
    requires i < vol.n && vol.g.IBlock(i) in log
    ensures vol.Node(Written(vol, e, m, tt, log), i) == tt.dinode[i]
  {
    BitmapsBehind(vol);
    Places(vol.g, 0, i);
    NodeRead(vol, e, m[vol.g.IBlock(i)], tt, vol.g.IBlock(i), i % vol.g.ipb, i);
  }

  lemma BitmapsBehind(vol: Volume)
    requires vol.Valid()
    ensures vol.g.bmapstart < vol.g.nmeta
  {
    assert vol.g.BBlock(0) < vol.g.nmeta;
  }

  /** WHAT IS WRITTEN CARRIES THE TRANSACTION, with any encoding that can be read back. */
  lemma WrittenCarries(vol: Volume, e: Encoder, m: Image, tt: F.Store, log: set<nat>)
    requires vol.Valid() && Encodes(vol, e) && |m| == vol.g.size && Writable(vol, m, tt)
    ensures vol.Carries(Written(vol, e, m, tt, log), tt, log)
  {
    var v := Written(vol, e, m, tt, log);
    forall b: nat | b < vol.g.size && b in log
      ensures vol.Data(v, b) == tt.blocks[b]
    {
      assert b < vol.g.nmeta ==> vol.Read(m).blocks[b] == vol.Data(m, b);
    }
    forall b: nat | b < vol.g.size && vol.g.BBlock(b) in log
      ensures vol.Used(v, b) == tt.used[b]
    {
      BitWritten(vol, e, m, tt, log, b);
    }
    forall i: nat | i < vol.n && vol.g.IBlock(i) in log
      ensures vol.Node(v, i) == tt.dinode[i]
    {
      NodeWritten(vol, e, m, tt, log, i);
    }
  }

  // ----- what the code makes can be written

  lemma PlacedHome(vol: Volume, x: nat)
    requires vol.Valid() && F.Placed(vol.g, vol.n, x)
    ensures vol.y.Home(x) && x < vol.g.size
  {
  }

  lemma WordsOf(vol: Volume, e: Encoder, was: Block, tt: F.Store, x: nat)
    requires vol.Valid() && WritesBlocks(vol, e) && F.StoreOk(vol.g, tt) && F.Placed(vol.g, vol.n, x)
    ensures |BlockOf(vol, e, was, tt, x)| == vol.y.words
  {
    if x < vol.g.nmeta {
      MetaPlace(vol, x);
    }
  }

  lemma MetaPlace(vol: Volume, x: nat)
    requires vol.Valid() && F.Placed(vol.g, vol.n, x) && x < vol.g.nmeta
    ensures vol.g.bmapstart <= x || vol.g.inodestart <= x
  {
    if b: nat :| b < vol.g.size && x == vol.g.BBlock(b) {
      Places(vol.g, b, 0);
    } else {
      var i: nat :| i < vol.n && x == vol.g.IBlock(i);
      Places(vol.g, 0, i);
    }
  }

  /** An inode of a file system at rest fits a dinode if its kind and link count do. */
  lemma NodeFits(g: F.Geo, st: F.Store, own: F.Owners, i: nat)
    requires F.Inv(g, st, own) && i < |st.inode| && Files.SizesOk(g, st)
    requires ShortNode(st.inode[i].kind, st.inode[i].nlink)
    ensures Fits(g, st.inode[i])
  {
    forall k | 0 <= k < |st.inode[i].addrs|
      ensures st.inode[i].addrs[k] < F.UINT
    {
      assert F.SlotOk(g, st, own, i, k) && F.At(g, st, i, k) == st.inode[i].addrs[k];
    }
  }

  predicate Short(n: int) {
    -0x8000 <= n < 0x8000
  }

  predicate ShortNode(kind: F.Kind, nlink: int) {
    Short(kind.typ) && Short(kind.major) && Short(kind.minor) && Short(nlink)
  }

  /** The types, device numbers and link counts that the operation sets are short. */
  predicate SetsShort(ops: seq<FileOp>) {
    forall k | 0 <= k < |ops| && ops[k].Node? :: ShortNode(ops[k].kind, ops[k].nlink)
  }

  predicate LinksShort(files: seq<File>) {
    forall j | 0 <= j < |files| :: ShortNode(files[j].kind, files[j].nlink)
  }

  lemma {:induction false} StayShort(ops: seq<FileOp>, files: seq<File>)
    requires AllApply(ops, files) && SetsShort(ops) && LinksShort(files)
    ensures LinksShort(AfterAll(ops, files))
    decreases |ops|
  {
    if ops != [] {
      assert LinksShort(After(ops[0], files));
      StayShort(ops[1..], After(ops[0], files));
    }
  }

  /** Kinds and link counts that were short are short after an operation. */
  lemma MadeShort(g: F.Geo, ops: seq<FileOp>, st: F.Store, tt: F.Store, log: set<nat>)
    requires Performs(g, ops, st, tt, log) && F.StoreOk(g, st) && Files.SizesOk(g, st) && SetsShort(ops)
    requires forall j: nat | j < |st.inode| :: ShortNode(st.inode[j].kind, st.inode[j].nlink)
    ensures |tt.inode| == |st.inode| && Files.SizesOk(g, tt)
    ensures forall i: nat | i < |tt.inode| :: ShortNode(tt.inode[i].kind, tt.inode[i].nlink)
  {
    var files := FilesOf(g, st);
    forall j: nat | j < |files|
      ensures ShortNode(files[j].kind, files[j].nlink)
    {
      assert FileIs(g, st, j, files[j]);
    }
    StayShort(ops, files);
    var after := AfterAll(ops, files);
    assert FilesAre(g, tt, after);
    forall i: nat | i < |tt.inode|
      ensures ShortNode(tt.inode[i].kind, tt.inode[i].nlink)
    {
      assert FileIs(g, tt, i, after[i]);
    }
  }

  lemma ReadShort(vol: Volume, m: Image)
    requires vol.Valid() && ReadsFit(vol) && |m| == vol.g.size
    ensures forall j: nat | j < vol.n :: ShortNode(vol.Read(m).inode[j].kind, vol.Read(m).inode[j].nlink)
  {
    var st := vol.Read(m);
    forall j: nat | j < vol.n
      ensures ShortNode(st.inode[j].kind, st.inode[j].nlink)
    {
      assert st.dinode[j] == vol.Node(m, j);
    }
  }

  lemma AllNodesFit(g: F.Geo, tt: F.Store)
    requires F.Whole(g, tt) && Files.SizesOk(g, tt)
    requires forall i: nat | i < |tt.inode| :: ShortNode(tt.inode[i].kind, tt.inode[i].nlink)
    ensures F.StoreOk(g, tt) && forall i: nat | i < |tt.dinode| :: Fits(g, tt.dinode[i])
  {
    var own: F.Owners :| F.Inv(g, tt, own);
    forall i: nat | i < |tt.dinode|
      ensures Fits(g, tt.dinode[i])
    {
      NodeFits(g, tt, own, i);
    }
  }

  lemma MetaSame(g: F.Geo, st: F.Store, tt: F.Store, log: set<nat>)
    requires F.Whole(g, st) && F.Transaction(g, st, tt, log)
    ensures |tt.blocks| == |st.blocks| == g.size && forall b: nat | b < g.nmeta :: tt.blocks[b] == st.blocks[b]
  {
    forall b: nat | b < g.nmeta
      ensures tt.blocks[b] == st.blocks[b]
    {
      assert F.LoggedAt(g, st, tt.blocks, tt.used, log, b);
    }
  }

  /** What an operation has made of the file system read from m can be written. */
  lemma MadeWritable(vol: Volume, m: Image, ops: seq<FileOp>, tt: F.Store, log: set<nat>)
    requires vol.Valid() && ReadsFit(vol) && |m| == vol.g.size && F.Whole(vol.g, vol.Read(m)) && SetsShort(ops)
    requires Files.SizesOk(vol.g, vol.Read(m)) && Performs(vol.g, ops, vol.Read(m), tt, log)
    ensures Writable(vol, m, tt)
  {
    var st := vol.Read(m);
    ReadShort(vol, m);
    MadeShort(vol.g, ops, st, tt, log);
    AllNodesFit(vol.g, tt);
    MetaSame(vol.g, st, tt, log);
  }

  // ----- the code in a run

  lemma {:induction false} InSomeOrder(log: set<nat>) returns (bs: seq<nat>)
    ensures Listed(bs) == log && |bs| == |log|
    decreases log
  {
    if log == {} {
      bs := [];
    } else {
      var x :| x in log;
      var rest := InSomeOrder(log - {x});
      bs := [x] + rest;
      assert Listed(bs) == {x} + Listed(rest);
    }
  }

  /** The blocks an operation has logged, with what it has made of them, are fit for the log. */
  lemma LogFits(vol: Volume, e: Encoder, m: Image, tt: F.Store, bs: seq<nat>)
    requires vol.Valid() && WritesBlocks(vol, e) && |m| == vol.g.size && F.StoreOk(vol.g, tt)
    requires |bs| <= vol.y.maxop <= vol.y.logsize && |bs| < vol.y.size
    requires forall x | x in bs :: F.Placed(vol.g, vol.n, x)
    ensures Loggable(vol.y, bs, Written(vol, e, m, tt, Listed(bs)))
  {
    var v := Written(vol, e, m, tt, Listed(bs));
    forall k | 0 <= k < |bs|
      ensures vol.y.Home(bs[k]) && bs[k] < |v| && |v[bs[k]]| == vol.y.words
    {
      assert bs[k] in bs;
      PlacedHome(vol, bs[k]);
      WordsOf(vol, e, m[bs[k]], tt, bs[k]);
    }
  }

  lemma WrittenIs(vol: Volume, e: Encoder, m: Image, ops: seq<FileOp>, tt: F.Store, log: set<nat>)
    requires vol.Valid() && Encodes(vol, e) && |m| == vol.g.size && Writable(vol, m, tt)
    requires F.Whole(vol.g, vol.Read(m)) && F.Transaction(vol.g, vol.Read(m), tt, log)
    requires forall x | x in log :: F.Placed(vol.g, vol.n, x)
    ensures vol.Carries(Written(vol, e, m, tt, log), tt, log) && vol.Read(Written(vol, e, m, tt, log)) == tt
  {
    WrittenCarries(vol, e, m, tt, log);
    forall b | b in log
      ensures vol.y.Home(b)
    {
      PlacedHome(vol, b);
    }
    CarriedIs(vol, m, Written(vol, e, m, tt, log), tt, log);
  }

  /** A log that was filled with the blocks of the operation, as the code has made them, holds the
      operation. */
  lemma WrittenDone(vol: Volume, e: Encoder, ops: seq<FileOp>, s: State, t: State, tt: F.Store)
    requires vol.Valid() && Encodes(vol, e) && SetsShort(ops) && |s.view| == vol.g.size && |s.hist| <= |t.hist|
    requires F.Whole(vol.g, vol.Read(s.view)) && Files.SizesOk(vol.g, vol.Read(s.view))
    requires Performs(vol.g, ops, vol.Read(s.view), tt, BlocksOf(Since(s, t)))
    requires t.view == Written(vol, e, s.view, tt, BlocksOf(Since(s, t)))
    ensures DoneBetween(vol, ops, s, t)
  {
    MadeWritable(vol, s.view, ops, tt, BlocksOf(Since(s, t)));
    WrittenCarries(vol, e, s.view, tt, BlocksOf(Since(s, t)));
  }

  /** What is to be logged for an operation that the code has performed. */
  lemma ToLog(vol: Volume, e: Encoder, m: Image, ops: seq<FileOp>, tt: F.Store, log: set<nat>)
    returns (bs: seq<nat>, v: Image)
    requires vol.Valid() && Encodes(vol, e) && |m| == vol.g.size && F.Whole(vol.g, vol.Read(m)) && SetsShort(ops)
    requires Files.SizesOk(vol.g, vol.Read(m)) && Performs(vol.g, ops, vol.Read(m), tt, log)
    requires |log| <= vol.y.maxop <= vol.y.logsize && |log| < vol.y.size
    requires forall x | x in log :: F.Placed(vol.g, vol.n, x)
    ensures Listed(bs) == log && |bs| == |log| && Loggable(vol.y, bs, v) && |v| == vol.g.size
    ensures forall b: nat | b < |v| && b !in bs :: v[b] == m[b]
    ensures |tt.blocks| == |tt.used| == vol.g.size && |tt.dinode| == vol.n && vol.Carries(v, tt, log)
    ensures vol.Read(v) == tt
  {
    MadeWritable(vol, m, ops, tt, log);
    bs := InSomeOrder(log);
    assert forall x :: x in bs <==> x in Listed(bs);
    v := Written(vol, e, m, tt, log);
    LogFits(vol, e, m, tt, bs);
    WrittenIs(vol, e, m, ops, tt, log);
  }

  /** The run of such an operation. */
  lemma CodeRuns(vol: Volume, e: Encoder, init: Image, did: nat -> seq<FileOp>, ss: seq<State>, m: Image, p: nat,
                 tt: F.Store, log: set<nat>) returns (more: seq<State>, last: State)
    requires vol.Valid() && Encodes(vol, e) && IsRun(vol.y, init, ss) && LogTheorems.Roomy(vol.y)
    requires AllSerial(vol, did, ss) && AtRest(ss[|ss| - 1], p) && SetsShort(did(p))
    requires m == ss[|ss| - 1].view && |m| == vol.g.size && F.Whole(vol.g, vol.Read(m))
    requires Files.SizesOk(vol.g, vol.Read(m)) && Performs(vol.g, did(p), vol.Read(m), tt, log)
    requires |log| <= vol.y.maxop <= vol.y.logsize && |log| < vol.y.size
    requires forall x | x in log :: F.Placed(vol.g, vol.n, x)
    ensures Continues(vol, init, did, ss, more, last) && |last.view| == vol.g.size && vol.Read(last.view) == tt
  {
    if log == {} {
      NothingChanged(vol.g, vol.Read(m), tt);
      more, last := ReadingRuns(vol, init, did, ss, p);
    } else {
      var bs, v := ToLog(vol, e, m, did(p), tt, log);
      more, last := OperationRuns(vol, init, did, ss, p, bs, v, tt);
    }
  }

  /** The run has gone on, still with operations in a row, to `last`, in which nothing is going on. */
  ghost predicate GoesOn(vol: Volume, init: Image, did: nat -> seq<FileOp>, ss: seq<State>, more: seq<State>,
                         last: State) {
    && IsRun(vol.y, init, more) && |ss| < |more| && more[..|ss|] == ss && AllSerial(vol, did, more)
    && more[|more| - 1] == last && last.active == map[] && last.phase.Idle?
  }

  /** The run of such an operation, up to the end of the commit behind it. */
  lemma CodeSettles(vol: Volume, e: Encoder, init: Image, did: nat -> seq<FileOp>, ss: seq<State>, m: Image, p: nat,
                    tt: F.Store, log: set<nat>) returns (more: seq<State>, last: State)
    requires vol.Valid() && Encodes(vol, e) && IsRun(vol.y, init, ss) && LogTheorems.Roomy(vol.y)
    requires AllSerial(vol, did, ss) && AtRest(ss[|ss| - 1], p) && SetsShort(did(p))
    requires m == ss[|ss| - 1].view && |m| == vol.g.size && F.Whole(vol.g, vol.Read(m))
    requires Files.SizesOk(vol.g, vol.Read(m)) && Performs(vol.g, did(p), vol.Read(m), tt, log)
    requires |log| <= vol.y.maxop <= vol.y.logsize && |log| < vol.y.size
    requires forall x | x in log :: F.Placed(vol.g, vol.n, x)
    ensures GoesOn(vol, init, did, ss, more, last) && |last.view| == vol.g.size && vol.Read(last.view) == tt
    ensures Files.SizesOk(vol.g, tt)
  {
    ReadShort(vol, m);
    MadeShort(vol.g, did(p), vol.Read(m), tt, log);
    var mid, s := CodeRuns(vol, e, init, did, ss, m, p, tt, log);
    more, last := CommitEnds(vol, init, did, mid, s);
    Longer(ss, mid, more);
  }

  lemma Longer(ss: seq<State>, mid: seq<State>, more: seq<State>)
    requires |ss| < |mid| <= |more| && mid[..|ss|] == ss && more[..|mid|] == mid
    ensures more[..|ss|] == ss
  {
    assert more[..|ss|] == more[..|mid|][..|ss|];
  }

  /** With nothing logged, nothing has changed. */
  lemma NothingChanged(g: F.Geo, st: F.Store, tt: F.Store)
    requires F.Whole(g, st) && F.Transaction(g, st, tt, {})
    ensures tt == st
  {
    forall b: nat | b < |st.blocks|
      ensures tt.blocks[b] == st.blocks[b] && tt.used[b] == st.used[b]
    {
      assert F.LoggedAt(g, st, tt.blocks, tt.used, {}, b);
    }
    assert tt.blocks == st.blocks && tt.used == st.used;
    assert tt.dinode == st.dinode;
  }

  /** A file system in memory, no file in it too large, that is what the cache shows in s. */
  ghost predicate Shows(vol: Volume, s: State, fs: Files.Fs)
    reads fs
  {
    && vol.Valid() && fs.g == vol.g && fs.Valid() && fs.AllSized() && |s.view| == vol.g.size
    && fs.St() == vol.Read(s.view)
  }

  /** What one piece of an operation demands of its caller, and of the sizes. */
  ghost predicate MayPerform(fs: Files.Fs, op: FileOp, q: nat, maxop: nat, c: seq<F.byte>)
    reads fs
  {
    && fs.Valid() && op.i < |fs.inode| && SetsShort([op]) && 1 <= maxop
    && (op.Chunk? ==> fs.Holds(op.i, c) && |op.src| <= q * fs.g.BSize() && 2 * q + 4 <= maxop)
    && (op.Chunk? ==> op.off < F.UINT && |op.src| < F.UINT) && (op.Trunc? ==> 1 + F.NBitmaps(fs.g) <= maxop)
  }

  /** THE CODE IS IN THE RUNS. From every idle moment of a run with operations in a row, with the
      file system in memory that the cache shows: if the code of an operation succeeds, the run goes
      on with that operation, from begin_op to end_op and over the commit behind it, and in the idle
      moment it comes to, the cache shows what the code has made. */
  method RunOperation(fs: Files.Fs, op: FileOp, ghost q: nat, ghost c: seq<F.byte>, ghost vol: Volume,
                      ghost e: Encoder, ghost init: Image, ghost did: nat -> seq<FileOp>, ghost ss: seq<State>,
                      ghost p: nat)
    returns (ok: bool, ghost more: seq<State>, ghost last: State)
    requires vol.Valid() && Encodes(vol, e) && IsRun(vol.y, init, ss) && LogTheorems.Roomy(vol.y)
    requires AllSerial(vol, did, ss) && AtRest(ss[|ss| - 1], p) && did(p) == [op] && Shows(vol, ss[|ss| - 1], fs)
    requires vol.y.maxop <= vol.y.logsize && vol.y.maxop < vol.y.size && MayPerform(fs, op, q, vol.y.maxop, c)
    modifies fs`blocks, fs`used, fs`inode, fs`dinode, fs`own, fs`logged
    ensures fs.Valid() && (ok ==> GoesOn(vol, init, did, ss, more, last) && Shows(vol, last, fs))
    ensures !ok ==> op.Chunk?
  {
    ok := Perform(fs, op, q, vol.y.maxop, c);
    more, last := ss, ss[|ss| - 1];
    if ok {
      more, last := CodeSettles(vol, e, init, did, ss, last.view, p, fs.St(), fs.logged);
    }
  }

  lemma UnlinkShort(dp: nat, off: nat, ip: nat, kind: F.Kind, nlink: int)
    requires ShortNode(kind, nlink - 1)
    ensures SetsShort(UnlinkOps(dp, off, ip, kind, nlink))
  {
  }

  /** The same for the two pieces of unlink, if MAXOPBLOCKS is at least seven: in the file system that
      the last state shows, sixteen bytes of the directory are zero, the inode they named has a link
      less, and nothing else has changed. */
  method RunUnlink(fs: Files.Fs, dp: nat, off: nat, ip: nat, ghost c: seq<F.byte>, ghost vol: Volume,
                   ghost e: Encoder, ghost init: Image, ghost did: nat -> seq<FileOp>, ghost ss: seq<State>,
                   ghost p: nat)
    returns (ok: bool, ghost more: seq<State>, ghost last: State)
    requires vol.Valid() && Encodes(vol, e) && IsRun(vol.y, init, ss) && LogTheorems.Roomy(vol.y)
    requires AllSerial(vol, did, ss) && AtRest(ss[|ss| - 1], p) && Shows(vol, ss[|ss| - 1], fs)
    requires 7 <= vol.y.maxop <= vol.y.logsize && vol.y.maxop < vol.y.size
    requires fs.Holds(dp, c) && off + 16 <= |c| && ip < |fs.inode| && ip != dp && fs.g.BSize() >= 16
    requires Short(fs.inode[ip].nlink - 1)
    requires did(p) == UnlinkOps(dp, off, ip, fs.inode[ip].kind, fs.inode[ip].nlink)
    modifies fs`blocks, fs`used, fs`inode, fs`dinode, fs`own, fs`logged
    ensures fs.Valid() && (ok ==> GoesOn(vol, init, did, ss, more, last) && Shows(vol, last, fs))
    ensures ok ==> Unlinked(vol.g, vol.Read(ss[|ss| - 1].view), vol.Read(last.view), dp, off, ip)
  {
    ReadShort(vol, ss[|ss| - 1].view);
    UnlinkShort(dp, off, ip, fs.inode[ip].kind, fs.inode[ip].nlink);
    ok := Unlink(fs, dp, off, ip, c);
    more, last := ss, ss[|ss| - 1];
    if ok {
      more, last := CodeSettles(vol, e, init, did, ss, last.view, p, fs.St(), fs.logged);
    }
  }
}
