/** Inode contents and block ownership (fs.c), as values.

    Blocks are bytes; block numbers inside an indirect block are little-endian
    32-bit words. The free map is one bit per block and the inode table one record
    per inode. */
module FileSpec {

  newtype byte = x: int | 0 <= x < 256
  type Block = seq<byte>
  const UINT: nat := 0x1_0000_0000

  /** Geometry of one file system: NDIRECT, NINDIRECT, the blocks on the disk, the
      metadata blocks in front, bits per bitmap block and where the bitmap starts,
      inodes per inode block and where those start, and BSIZE. */
  datatype Geo = Geo(ndirect: nat, nindirect: nat, size: nat, nmeta: nat, bpb: nat, bmapstart: nat, ipb: nat,
      inodestart: nat, bsize: nat) {
    function BSize(): nat { bsize }
    function MaxFile(): nat { ndirect + nindirect }
    /** The bitmap block that holds block b's bit. */
    function BBlock(b: nat): nat requires bpb >= 1 { b / bpb + bmapstart }
    /** The block that holds inode i. */
    function IBlock(i: nat): nat requires ipb >= 1 { i / ipb + inodestart }
    predicate Valid() {
      && nindirect >= 1 && bsize == 4 * nindirect && 1 <= nmeta <= size < UINT && bpb >= 1 && ipb >= 1
      && MaxFile() * BSize() < UINT
    }
  }

  /** PLACEMENT. Inode i lies in the i/IPB-th inode block, and no two inodes share a place;
      likewise for the bits of the free map. */
  lemma InodePlace(g: Geo, i: nat, j: nat)
    requires g.Valid()
    ensures (g.IBlock(i) - g.inodestart) * g.ipb <= i < (g.IBlock(i) - g.inodestart + 1) * g.ipb
    ensures g.IBlock(i) == g.IBlock(j) && i % g.ipb == j % g.ipb ==> i == j
  {
    Share(i, g.ipb);
    Share(j, g.ipb);
  }

  lemma BitPlace(g: Geo, b: nat, c: nat)
    requires g.Valid()
    ensures (g.BBlock(b) - g.bmapstart) * g.bpb <= b < (g.BBlock(b) - g.bmapstart + 1) * g.bpb
    ensures g.BBlock(b) == g.BBlock(c) && b % g.bpb == c % g.bpb ==> b == c
  {
    Share(b, g.bpb);
    Share(c, g.bpb);
  }

  lemma Share(x: nat, n: nat)
    requires n >= 1
    ensures x == x / n * n + x % n && 0 <= x % n < n && x / n * n <= x < (x / n + 1) * n
  {
    assert (x / n + 1) * n == x / n * n + n;
  }

  const T_DIR := 1
  const T_FILE := 2
  const T_DEV := 3

  /** What an inode is: type 0 is free; the numbers of a device. */
  datatype Kind = Kind(typ: int, major: int, minor: int) {
    predicate IsDev() {
      typ == T_DEV
    }
  }

  datatype Inode = Inode(kind: Kind, nlink: int, size: nat, addrs: seq<nat>)

  /** Logical contents: data blocks, free map, in-memory inodes, on-disk inodes. */
  datatype Store = Store(blocks: seq<Block>, used: seq<bool>, inode: seq<Inode>, dinode: seq<Inode>)

  // ----- words in a block

  function Word(v: Block, k: nat): nat
    requires 4 * k + 4 <= |v|
  {
    v[4 * k] as nat + 0x100 * v[4 * k + 1] as nat + 0x1_0000 * v[4 * k + 2] as nat + 0x100_0000 * v[4 * k + 3] as nat
  }

  function SetWord(v: Block, k: nat, w: nat): (r: Block)
    requires 4 * k + 4 <= |v| && w < UINT
    ensures |r| == |v|
  {
    v[4 * k := (w % 0x100) as byte]
     [4 * k + 1 := (w / 0x100 % 0x100) as byte]
     [4 * k + 2 := (w / 0x1_0000 % 0x100) as byte]
     [4 * k + 3 := (w / 0x100_0000) as byte]
  }

  lemma WordOfBytes(w: nat)
    requires w < UINT
    ensures w % 0x100 + 0x100 * (w / 0x100 % 0x100) + 0x1_0000 * (w / 0x1_0000 % 0x100)
            + 0x100_0000 * (w / 0x100_0000) == w
  {
  }

  lemma WordSet(v: Block, k: nat, w: nat, j: nat)
    requires 4 * k + 4 <= |v| && w < UINT && 4 * j + 4 <= |v|
    ensures Word(SetWord(v, k, w), j) == if j == k then w else Word(v, j)
  {
    WordOfBytes(w);
  }

  /** Little-endian: the first byte is the low one. */
  lemma WordBytes(v: Block, k: nat)
    requires 4 * k + 4 <= |v|
    ensures var w := Word(v, k);
            && w % 0x100 == v[4 * k] as nat && w / 0x100 % 0x100 == v[4 * k + 1] as nat
            && w / 0x100 / 0x100 % 0x100 == v[4 * k + 2] as nat && w / 0x100 / 0x100 / 0x100 == v[4 * k + 3] as nat
  {
    var d := v[4 * k + 3] as nat;
    var c := v[4 * k + 2] as nat + 0x100 * d;
    var b := v[4 * k + 1] as nat + 0x100 * c;
    LowByte(v[4 * k + 2] as nat, d);
    LowByte(v[4 * k + 1] as nat, c);
    LowByte(v[4 * k] as nat, b);
    assert Word(v, k) == v[4 * k] as nat + 0x100 * b;
  }

  lemma LowByte(a: nat, r: nat)
    requires a < 0x100
    ensures (a + 0x100 * r) % 0x100 == a && (a + 0x100 * r) / 0x100 == r
  {
  }

  function ZeroBlock(n: nat): (v: Block)
    ensures |v| == n && forall i | 0 <= i < n :: v[i] == 0
  {
    seq(n, i => 0 as byte)
  }

  // ----- slots: the places that can hold a block number

  /** Slot k of an inode: direct addresses, then the indirect block's own address
      (k == ndirect), then the words of the indirect block. */
  function Slot(g: Geo, blocks: seq<Block>, ino: Inode, k: nat): nat
    requires Shape(g, blocks, ino) && k <= g.MaxFile()
  {
    if k <= g.ndirect then ino.addrs[k]
    else if ino.addrs[g.ndirect] == 0 then 0
    else Word(blocks[ino.addrs[g.ndirect]], k - g.ndirect - 1)
  }

  /** The slot of file block bn. */
  function DataSlot(g: Geo, bn: nat): nat {
    if bn < g.ndirect then bn else bn + 1
  }

  predicate Shape(g: Geo, blocks: seq<Block>, ino: Inode) {
    && g.bsize == 4 * g.nindirect && |ino.addrs| == g.ndirect + 1 && ino.addrs[g.ndirect] < |blocks|
    && forall b | 0 <= b < |blocks| :: |blocks[b]| == g.BSize()
  }

  ghost predicate StoreOk(g: Geo, st: Store) {
    && g.Valid() && |st.blocks| == |st.used| == g.size && |st.inode| == |st.dinode|
    && (forall b | 0 <= b < |st.blocks| :: |st.blocks[b]| == g.BSize())
    && (forall i | 0 <= i < |st.inode| :: |st.inode[i].addrs| == g.ndirect + 1 && st.inode[i].addrs[g.ndirect] < g.size)
  }

  type Owners = map<nat, (nat, nat)>

  function At(g: Geo, st: Store, i: nat, k: nat): nat
    requires StoreOk(g, st) && i < |st.inode| && k <= g.MaxFile()
  {
    Slot(g, st.blocks, st.inode[i], k)
  }

  /** A block number in a slot lies in the data area and is owned by that slot. */
  ghost predicate SlotOk(g: Geo, st: Store, own: Owners, i: nat, k: nat)
    requires StoreOk(g, st) && i < |st.inode| && k <= g.MaxFile()
  {
    var b := At(g, st, i, k);
    b != 0 ==> g.nmeta <= b < g.size && b in own && own[b] == (i, k)
  }

  ghost predicate OwnerOk(g: Geo, st: Store, own: Owners, b: nat)
    requires StoreOk(g, st)
  {
    b in own ==>
      && g.nmeta <= b < g.size && own[b].0 < |st.inode| && own[b].1 <= g.MaxFile()
      && At(g, st, own[b].0, own[b].1) == b
  }

  /** BLOCK OWNERSHIP. `own` is the inverse of the slots, so no block is in two
      slots; the free map marks exactly the metadata and the owned blocks. */
  ghost predicate Inv(g: Geo, st: Store, own: Owners) {
    && StoreOk(g, st)
    && (forall i, k | 0 <= i < |st.inode| && 0 <= k <= g.MaxFile() :: SlotOk(g, st, own, i, k))
    && (forall b | b in own :: OwnerOk(g, st, own, b))
    && (forall b | 0 <= b < g.size :: st.used[b] <==> b < g.nmeta || b in own)
  }

  // ----- contents

  /** Block bn of file i; a block that is not there reads as zeros. */
  function FileBlock(g: Geo, st: Store, i: nat, bn: nat): (v: Block)
    requires StoreOk(g, st) && i < |st.inode| && bn < g.MaxFile()
    ensures |v| == g.BSize()
  {
    var b := At(g, st, i, DataSlot(g, bn));
    if b == 0 || b >= g.size then ZeroBlock(g.BSize()) else st.blocks[b]
  }

  /** The same bytes in every file. */
  ghost predicate SameFiles(g: Geo, st: Store, tt: Store)
    requires StoreOk(g, st) && StoreOk(g, tt)
  {
    && |st.inode| == |tt.inode|
    && forall i, bn | 0 <= i < |st.inode| && 0 <= bn < g.MaxFile() :: FileBlock(g, st, i, bn) == FileBlock(g, tt, i, bn)
  }

  /** From st to tt, inode i's addresses may only have been filled in: no address is
      changed, and nothing else about the inodes is. */
  ghost predicate Fills(g: Geo, st: Store, tt: Store, i: nat)
    requires StoreOk(g, st) && StoreOk(g, tt) && i < |st.inode|
  {
    && |tt.inode| == |st.inode| && tt.dinode == st.dinode
    && tt.inode == st.inode[i := st.inode[i].(addrs := tt.inode[i].addrs)]
    && forall k | 0 <= k <= g.MaxFile() && At(g, st, i, k) != 0 :: At(g, tt, i, k) == At(g, st, i, k)
  }

  lemma FillsTrans(g: Geo, st: Store, tt: Store, uu: Store, i: nat)
    requires StoreOk(g, st) && StoreOk(g, tt) && StoreOk(g, uu) && i < |st.inode|
    requires Fills(g, st, tt, i) && Fills(g, tt, uu, i)
    ensures Fills(g, st, uu, i)
  {
  }

  // ----- what has to be in the transaction

  predicate BitLogged(g: Geo, log: set<nat>, b: nat)
    requires g.bpb >= 1
  {
    g.BBlock(b) in log
  }

  /** If block b or its bit differs from st, the block that changed is in the log; the metadata
      blocks in front are no data and do not change as such. */
  predicate LoggedAt(g: Geo, st: Store, blocks: seq<Block>, used: seq<bool>, log: set<nat>, b: nat)
    requires g.bpb >= 1 && b < |st.blocks| == |blocks| && b < |st.used| == |used|
  {
    (blocks[b] != st.blocks[b] ==> b in log && b >= g.nmeta) && (used[b] != st.used[b] ==> BitLogged(g, log, b))
  }

  /** EVERY CHANGE IS LOGGED. Data, bitmap and inode blocks that differ from st are in
      the log. */
  ghost predicate Logged(g: Geo, st: Store, blocks: seq<Block>, used: seq<bool>, dinode: seq<Inode>, log: set<nat>) {
    && g.Valid() && |st.blocks| == |blocks| == |st.used| == |used| && |dinode| == |st.dinode|
    && (forall b: nat | b < |blocks| :: LoggedAt(g, st, blocks, used, log, b))
    && forall j: nat | j < |dinode| && dinode[j] != st.dinode[j] :: g.IBlock(j) in log
  }

  /** What may be given to log_write: a bitmap block, the block of one of n inodes, a data block. */
  ghost predicate Placed(g: Geo, n: nat, x: nat)
    requires g.bpb >= 1 && g.ipb >= 1
  {
    || (exists b: nat :: b < g.size && x == g.BBlock(b))
    || (exists i: nat :: i < n && x == g.IBlock(i))
    || g.nmeta <= x < g.size
  }

  lemma PlacedBoth(g: Geo, n: nat, b: nat)
    requires g.Valid() && g.nmeta <= b < g.size
    ensures Placed(g, n, b) && Placed(g, n, g.BBlock(b))
  {
  }

  /** Writing over data block b. */
  lemma PutLogged(g: Geo, st: Store, b: nat, v: Block, log: set<nat>)
    requires StoreOk(g, st) && g.nmeta <= b < g.size && b in log
    ensures Logged(g, st, st.blocks[b := v], st.used, st.dinode, log)
  {
    var blocks := st.blocks[b := v];
    forall c: nat | c < |blocks|
      ensures LoggedAt(g, st, blocks, st.used, log, c)
    {
    }
  }

  /** The bitmap blocks with the bits of inode i's blocks. */
  ghost function Bitmaps(g: Geo, own: Owners, i: nat): set<nat>
    requires g.bpb >= 1
  {
    set b | b in own && own[b].0 == i :: g.BBlock(b)
  }

  /** How many bitmap blocks there are. */
  function NBitmaps(g: Geo): nat
    requires g.Valid()
  {
    (g.size - 1) / g.bpb + 1
  }

  /** A run of n numbers. */
  ghost function From(a: nat, n: nat): (s: set<nat>)
    ensures (forall x: nat :: x in s <==> a <= x < a + n) && |s| == n
  {
    if n == 0 then {} else From(a, n - 1) + {a + n - 1}
  }

  /** ITRUNC FITS. Its inode block and the bitmap blocks of its bits: at most one more than there
      are bitmap blocks, and exactly one more than the bitmap blocks it touches. */
  lemma TruncCost(g: Geo, st: Store, own: Owners, i: nat)
    requires Inv(g, st, own)
    ensures |Bitmaps(g, own, i)| <= NBitmaps(g)
    ensures g.size >= 1 ==> g.BBlock(g.size - 1) == g.bmapstart + NBitmaps(g) - 1
    ensures |{g.IBlock(i)} + Bitmaps(g, own, i)| <= 1 + NBitmaps(g)
    ensures g.IBlock(i) !in Bitmaps(g, own, i) ==>
              |{g.IBlock(i)} + Bitmaps(g, own, i)| == 1 + |Bitmaps(g, own, i)|
  {
    var bits, all := Bitmaps(g, own, i), From(g.bmapstart, NBitmaps(g));
    forall x | x in bits
      ensures x in all
    {
      var b :| b in own && own[b].0 == i && x == g.BBlock(b);
      assert OwnerOk(g, st, own, b);
      BitmapIn(g, b);
    }
    Fewer(bits, all);
  }

  lemma BitmapIn(g: Geo, b: nat)
    requires g.Valid() && b < g.size
    ensures g.bmapstart <= g.BBlock(b) < g.bmapstart + NBitmaps(g)
  {
    QuotientGrows(b, g.size - 1, g.bpb);
  }

  lemma QuotientGrows(a: nat, b: nat, n: nat)
    requires a <= b && n >= 1
    ensures a / n <= b / n
  {
    Share(a, n);
    Share(b, n);
  }

  lemma {:induction false} Fewer(a: set<nat>, b: set<nat>)
    requires a <= b
    ensures |a| <= |b|
    decreases a
  {
    if a != {} {
      var x :| x in a;
      Fewer(a - {x}, b - {x});
    }
  }

  /** A file system at rest: blocks owned exactly, and every disk inode current. */
  ghost predicate Whole(g: Geo, st: Store) {
    st.inode == st.dinode && exists own: Owners :: Inv(g, st, own)
  }

  /** What one transaction promises: from a file system at rest to a file system at rest,
      with every block that changed in the log. */
  ghost predicate Transaction(g: Geo, st: Store, tt: Store, log: set<nat>) {
    Whole(g, st) ==>
      Whole(g, tt) && |tt.inode| == |st.inode| && Logged(g, st, tt.blocks, tt.used, tt.dinode, log)
  }

  lemma LoggedTrans(g: Geo, st: Store, tt: Store, uu: Store, log: set<nat>, log': set<nat>)
    requires Logged(g, st, tt.blocks, tt.used, tt.dinode, log) && Logged(g, tt, uu.blocks, uu.used, uu.dinode, log')
    requires log <= log'
    ensures Logged(g, st, uu.blocks, uu.used, uu.dinode, log')
  {
    forall b: nat | b < |st.blocks|
      ensures LoggedAt(g, st, uu.blocks, uu.used, log', b)
    {
      assert LoggedAt(g, st, tt.blocks, tt.used, log, b) && LoggedAt(g, tt, uu.blocks, uu.used, log', b);
    }
  }

  /** Two transactions one after the other, as group commit joins them. */
  lemma TransactionTrans(g: Geo, st: Store, tt: Store, uu: Store, log: set<nat>, log': set<nat>)
    requires Transaction(g, st, tt, log) && Transaction(g, tt, uu, log')
    ensures Transaction(g, st, uu, log + log')
  {
    if Whole(g, st) {
      LoggedMore(g, tt, uu, log', log + log');
      LoggedTrans(g, st, tt, uu, log, log + log');
    }
  }

  lemma LoggedMore(g: Geo, st: Store, tt: Store, log: set<nat>, log': set<nat>)
    requires Logged(g, st, tt.blocks, tt.used, tt.dinode, log) && log <= log'
    ensures Logged(g, st, tt.blocks, tt.used, tt.dinode, log')
  {
    forall b: nat | b < |st.blocks|
      ensures LoggedAt(g, st, tt.blocks, tt.used, log', b)
    {
      assert LoggedAt(g, st, tt.blocks, tt.used, log, b);
    }
  }

  lemma LoggedBit(g: Geo, st: Store, blocks: seq<Block>, used: seq<bool>, dinode: seq<Inode>, log: set<nat>,
                  b: nat, v: bool)
    requires Logged(g, st, blocks, used, dinode, log) && b < |used|
    ensures Logged(g, st, blocks, used[b := v], dinode, log + {g.BBlock(b)})
  {
    var used', log' := used[b := v], log + {g.BBlock(b)};
    forall c: nat | c < |blocks|
      ensures LoggedAt(g, st, blocks, used', log', c)
    {
      assert LoggedAt(g, st, blocks, used, log, c);
    }
  }

  // ----- giving a free block to an empty slot

  function SetAddr(ino: Inode, k: nat, b: nat): (r: Inode)
    requires k < |ino.addrs|
  {
    ino.(addrs := ino.addrs[k := b])
  }

  /** bmap's `ip->addrs[k] = balloc()`. */
  function ClaimAddr(g: Geo, st: Store, i: nat, k: nat, b: nat): Store
    requires StoreOk(g, st) && i < |st.inode| && k <= g.ndirect && b < g.size
  {
    st.(blocks := st.blocks[b := ZeroBlock(g.BSize())], used := st.used[b := true],
        inode := st.inode[i := SetAddr(st.inode[i], k, b)])
  }

  lemma ClaimAddrAt(g: Geo, st: Store, own: Owners, i: nat, k: nat, b: nat, j: nat, l: nat)
    requires Inv(g, st, own) && i < |st.inode| && k <= g.ndirect && b < g.size && !st.used[b]
    requires At(g, st, i, k) == 0 && j < |st.inode| && l <= g.MaxFile()
    ensures StoreOk(g, ClaimAddr(g, st, i, k, b))
    ensures At(g, ClaimAddr(g, st, i, k, b), j, l) == if (j, l) == (i, k) then b else At(g, st, j, l)
  {
    assert SlotOk(g, st, own, j, g.ndirect);
  }

  lemma ClaimAddrInv(g: Geo, st: Store, own: Owners, i: nat, k: nat, b: nat)
    requires Inv(g, st, own) && i < |st.inode| && k <= g.ndirect && b < g.size && !st.used[b]
    requires At(g, st, i, k) == 0
    ensures Inv(g, ClaimAddr(g, st, i, k, b), own[b := (i, k)])
    ensures SameFiles(g, st, ClaimAddr(g, st, i, k, b))
  {
    var tt, own' := ClaimAddr(g, st, i, k, b), own[b := (i, k)];
    forall j, l | 0 <= j < |st.inode| && 0 <= l <= g.MaxFile()
      ensures SlotOk(g, tt, own', j, l)
    {
      ClaimAddrAt(g, st, own, i, k, b, j, l);
      assert SlotOk(g, st, own, j, l);
    }
    forall c | c in own'
      ensures OwnerOk(g, tt, own', c)
    {
      if c == b {
        ClaimAddrAt(g, st, own, i, k, b, i, k);
      } else {
        assert OwnerOk(g, st, own, c);
        ClaimAddrAt(g, st, own, i, k, b, own[c].0, own[c].1);
      }
    }
    forall j, bn | 0 <= j < |st.inode| && 0 <= bn < g.MaxFile()
      ensures FileBlock(g, st, j, bn) == FileBlock(g, tt, j, bn)
    {
      ClaimAddrAt(g, st, own, i, k, b, j, DataSlot(g, bn));
      assert SlotOk(g, st, own, j, DataSlot(g, bn));
    }
  }

  /** bmap's `a[k - ndirect - 1] = balloc()` in the indirect block. */
  function ClaimWord(g: Geo, st: Store, i: nat, k: nat, b: nat): Store
    requires StoreOk(g, st) && i < |st.inode| && g.ndirect < k <= g.MaxFile() && b < g.size
  {
    var a := st.inode[i].addrs[g.ndirect];
    var bs := st.blocks[b := ZeroBlock(g.BSize())];
    st.(blocks := bs[a := SetWord(bs[a], k - g.ndirect - 1, b)], used := st.used[b := true])
  }

  lemma ClaimWordAt(g: Geo, st: Store, own: Owners, i: nat, k: nat, b: nat, j: nat, l: nat)
    requires Inv(g, st, own) && i < |st.inode| && g.ndirect < k <= g.MaxFile() && b < g.size && !st.used[b]
    requires At(g, st, i, g.ndirect) != 0 && At(g, st, i, k) == 0 && j < |st.inode| && l <= g.MaxFile()
    ensures StoreOk(g, ClaimWord(g, st, i, k, b))
    ensures At(g, ClaimWord(g, st, i, k, b), j, l) == if (j, l) == (i, k) then b else At(g, st, j, l)
  {
    assert SlotOk(g, st, own, j, g.ndirect);
    assert SlotOk(g, st, own, i, g.ndirect);
    if l > g.ndirect {
      WordSet(st.blocks[st.inode[i].addrs[g.ndirect]], k - g.ndirect - 1, b, l - g.ndirect - 1);
    }
  }

  lemma ClaimWordInv(g: Geo, st: Store, own: Owners, i: nat, k: nat, b: nat)
    requires Inv(g, st, own) && i < |st.inode| && g.ndirect < k <= g.MaxFile() && b < g.size && !st.used[b]
    requires At(g, st, i, g.ndirect) != 0 && At(g, st, i, k) == 0
    ensures Inv(g, ClaimWord(g, st, i, k, b), own[b := (i, k)])
    ensures SameFiles(g, st, ClaimWord(g, st, i, k, b))
  {
    var tt, own' := ClaimWord(g, st, i, k, b), own[b := (i, k)];
    forall j, l | 0 <= j < |st.inode| && 0 <= l <= g.MaxFile()
      ensures SlotOk(g, tt, own', j, l)
    {
      ClaimWordAt(g, st, own, i, k, b, j, l);
      assert SlotOk(g, st, own, j, l);
    }
    forall c | c in own'
      ensures OwnerOk(g, tt, own', c)
    {
      if c == b {
        ClaimWordAt(g, st, own, i, k, b, i, k);
      } else {
        assert OwnerOk(g, st, own, c);
        ClaimWordAt(g, st, own, i, k, b, own[c].0, own[c].1);
      }
    }
    assert SlotOk(g, st, own, i, g.ndirect);
    forall j, bn | 0 <= j < |st.inode| && 0 <= bn < g.MaxFile()
      ensures FileBlock(g, st, j, bn) == FileBlock(g, tt, j, bn)
    {
      ClaimWordAt(g, st, own, i, k, b, j, DataSlot(g, bn));
      assert SlotOk(g, st, own, j, DataSlot(g, bn));
    }
  }

  /** Slot k of inode i has been given block b, and nothing else has changed. */
  ghost predicate Claimed(g: Geo, st: Store, tt: Store, own': Owners, i: nat, k: nat, b: nat) {
    && StoreOk(g, st) && Inv(g, tt, own') && i < |st.inode| && SameFiles(g, st, tt) && Fills(g, st, tt, i)
    && forall j: nat, l: nat | j < |st.inode| && l <= g.MaxFile() ::
         At(g, tt, j, l) == if j == i && l == k then b else At(g, st, j, l)
  }

  lemma ClaimedAddr(g: Geo, st: Store, own: Owners, i: nat, k: nat, b: nat)
    requires Inv(g, st, own) && i < |st.inode| && k <= g.ndirect && b < g.size && !st.used[b]
    requires At(g, st, i, k) == 0
    ensures Claimed(g, st, ClaimAddr(g, st, i, k, b), own[b := (i, k)], i, k, b) && b >= g.nmeta
  {
    var tt := ClaimAddr(g, st, i, k, b);
    ClaimAddrInv(g, st, own, i, k, b);
    forall j: nat, l: nat | j < |st.inode| && l <= g.MaxFile()
      ensures At(g, tt, j, l) == if j == i && l == k then b else At(g, st, j, l)
    {
      ClaimAddrAt(g, st, own, i, k, b, j, l);
    }
  }

  lemma ClaimedWord(g: Geo, st: Store, own: Owners, i: nat, k: nat, b: nat)
    requires Inv(g, st, own) && i < |st.inode| && g.ndirect < k <= g.MaxFile() && b < g.size && !st.used[b]
    requires At(g, st, i, g.ndirect) != 0 && At(g, st, i, k) == 0
    ensures Claimed(g, st, ClaimWord(g, st, i, k, b), own[b := (i, k)], i, k, b) && b >= g.nmeta
  {
    var tt := ClaimWord(g, st, i, k, b);
    ClaimWordInv(g, st, own, i, k, b);
    forall j: nat, l: nat | j < |st.inode| && l <= g.MaxFile()
      ensures At(g, tt, j, l) == if j == i && l == k then b else At(g, st, j, l)
    {
      ClaimWordAt(g, st, own, i, k, b, j, l);
    }
  }

  lemma ClaimedLogged(g: Geo, st: Store, tt: Store, b: nat, bp: nat, log: set<nat>)
    requires g.Valid() && |st.blocks| == |st.used| == |tt.blocks| == |tt.used| == g.size
    requires tt.dinode == st.dinode && b < g.size
    requires forall c: nat | c < g.size && c != b && c != bp :: tt.blocks[c] == st.blocks[c]
    requires tt.used == st.used[b := true] && b in log && bp in log && g.BBlock(b) in log
    requires b >= g.nmeta && bp >= g.nmeta
    ensures Logged(g, st, tt.blocks, tt.used, tt.dinode, log)
  {
    forall c: nat | c < g.size
      ensures LoggedAt(g, st, tt.blocks, tt.used, log, c)
    {
    }
  }

  // ----- writing a data block

  function PutBlock(g: Geo, st: Store, b: nat, v: Block): Store
    requires StoreOk(g, st) && b < g.size
  {
    st.(blocks := st.blocks[b := v])
  }

  lemma PutBlockAt(g: Geo, st: Store, own: Owners, i: nat, bn: nat, v: Block, j: nat, l: nat)
    requires Inv(g, st, own) && i < |st.inode| && bn < g.MaxFile() && |v| == g.BSize()
    requires At(g, st, i, DataSlot(g, bn)) != 0 && j < |st.inode| && l <= g.MaxFile()
    ensures At(g, st, i, DataSlot(g, bn)) < g.size
    ensures var tt := PutBlock(g, st, At(g, st, i, DataSlot(g, bn)), v);
            StoreOk(g, tt) && At(g, tt, j, l) == At(g, st, j, l)
  {
    assert SlotOk(g, st, own, i, DataSlot(g, bn));
    assert SlotOk(g, st, own, j, g.ndirect);
  }

  /** Writing the block of one file's slot changes that block of that file and
      nothing else. */
  lemma PutBlockInv(g: Geo, st: Store, own: Owners, i: nat, bn: nat, v: Block)
    requires Inv(g, st, own) && i < |st.inode| && bn < g.MaxFile() && |v| == g.BSize()
    requires At(g, st, i, DataSlot(g, bn)) != 0
    ensures At(g, st, i, DataSlot(g, bn)) < g.size
    ensures var tt := PutBlock(g, st, At(g, st, i, DataSlot(g, bn)), v);
            && Inv(g, tt, own)
            && forall j, c | 0 <= j < |st.inode| && 0 <= c < g.MaxFile() ::
                 FileBlock(g, tt, j, c) == if (j, c) == (i, bn) then v else FileBlock(g, st, j, c)
  {
    PutBlockOwned(g, st, own, i, bn, v);
    PutBlockFiles(g, st, own, i, bn, v);
  }

  lemma PutBlockFiles(g: Geo, st: Store, own: Owners, i: nat, bn: nat, v: Block)
    requires Inv(g, st, own) && i < |st.inode| && bn < g.MaxFile() && |v| == g.BSize()
    requires 0 < At(g, st, i, DataSlot(g, bn)) < g.size
    requires StoreOk(g, PutBlock(g, st, At(g, st, i, DataSlot(g, bn)), v))
    ensures var tt := PutBlock(g, st, At(g, st, i, DataSlot(g, bn)), v);
            forall j, c | 0 <= j < |st.inode| && 0 <= c < g.MaxFile() ::
              FileBlock(g, tt, j, c) == if (j, c) == (i, bn) then v else FileBlock(g, st, j, c)
  {
    var tt := PutBlock(g, st, At(g, st, i, DataSlot(g, bn)), v);
    assert SlotOk(g, st, own, i, DataSlot(g, bn));
    forall j, c | 0 <= j < |st.inode| && 0 <= c < g.MaxFile()
      ensures FileBlock(g, tt, j, c) == if (j, c) == (i, bn) then v else FileBlock(g, st, j, c)
    {
      PutBlockAt(g, st, own, i, bn, v, j, DataSlot(g, c));
      assert SlotOk(g, st, own, j, DataSlot(g, c));
    }
  }

  lemma PutBlockOwned(g: Geo, st: Store, own: Owners, i: nat, bn: nat, v: Block)
    requires Inv(g, st, own) && i < |st.inode| && bn < g.MaxFile() && |v| == g.BSize()
    requires At(g, st, i, DataSlot(g, bn)) != 0
    ensures At(g, st, i, DataSlot(g, bn)) < g.size
    ensures Inv(g, PutBlock(g, st, At(g, st, i, DataSlot(g, bn)), v), own)
  {
    assert SlotOk(g, st, own, i, DataSlot(g, bn));
    var tt := PutBlock(g, st, At(g, st, i, DataSlot(g, bn)), v);
    forall j, l | 0 <= j < |st.inode| && 0 <= l <= g.MaxFile()
      ensures At(g, tt, j, l) == At(g, st, j, l) && SlotOk(g, tt, own, j, l)
    {
      PutBlockAt(g, st, own, i, bn, v, j, l);
      assert SlotOk(g, st, own, j, l);
    }
    forall c | c in own
      ensures OwnerOk(g, tt, own, c)
    {
      assert OwnerOk(g, st, own, c);
      PutBlockAt(g, st, own, i, bn, v, own[c].0, own[c].1);
    }
  }
}
