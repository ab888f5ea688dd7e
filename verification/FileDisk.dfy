/** The blocks of xv6's own disk (fs.h, mkfs.c): data as bytes, the free map as bits, inodes as
    struct dinode. A block is 512 bytes here, one to a word. */
module FileDisk {
  import opened Blocks
  import opened LogSpec
  import opened FileCrash
  import opened FileCode
  import LogTheorems
  import LogRuns
  import Mkfs
  import F = FileSpec

  // ----- bytes

  /** Byte i of a block. */
  function At8(v: Block, i: nat): (x: nat)
    ensures x < 256
  {
    if i < |v| then v[i] % 256 else 0
  }

  function At16(v: Block, i: nat): (x: nat)
    ensures x < 0x1_0000
  {
    At8(v, i) + 0x100 * At8(v, i + 1)
  }

  function At32(v: Block, i: nat): (x: nat)
    ensures x < F.UINT
  {
    At8(v, i) + 0x100 * At8(v, i + 1) + 0x1_0000 * At8(v, i + 2) + 0x100_0000 * At8(v, i + 3)
  }

  /** Byte k of a number, the lowest first. */
  function Byte(x: nat, k: nat): (b: int)
    ensures 0 <= b < 256
  {
    if k == 0 then x % 0x100 else if k == 1 then x / 0x100 % 0x100
    else if k == 2 then x / 0x1_0000 % 0x100 else x / 0x100_0000 % 0x100
  }

  lemma Bytes16(v: Block, i: nat, x: nat)
    requires x < 0x1_0000 && i + 2 <= |v| && v[i] == Byte(x, 0) && v[i + 1] == Byte(x, 1)
    ensures At16(v, i) == x
  {
  }

  lemma SumOfBytes(x: nat)
    requires x < F.UINT
    ensures Byte(x, 0) + 0x100 * Byte(x, 1) + 0x1_0000 * Byte(x, 2) + 0x100_0000 * Byte(x, 3) == x
  {
    F.WordOfBytes(x);
  }

  lemma Bytes32(v: Block, i: nat, x: nat)
    requires x < F.UINT && i + 4 <= |v| && v[i] == Byte(x, 0) && v[i + 1] == Byte(x, 1)
    requires v[i + 2] == Byte(x, 2) && v[i + 3] == Byte(x, 3)
    ensures At32(v, i) == x
  {
    Byte8(v, i, x, 0);
    Byte8(v, i + 1, x, 1);
    Byte8(v, i + 2, x, 2);
    Byte8(v, i + 3, x, 3);
    SumOfBytes(x);
  }

  lemma Byte8(v: Block, i: nat, x: nat, k: nat)
    requires i < |v| && v[i] == Byte(x, k)
    ensures At8(v, i) == Byte(x, k)
  {
  }

  // ----- data

  function DataOf(v: Block): F.Block {
    seq(512, k requires 0 <= k => At8(v, k) as F.byte)
  }

  function OfData(x: F.Block): Block {
    seq(512, k requires 0 <= k => if k < |x| then x[k] as int else 0)
  }

  lemma DataBack(x: F.Block)
    requires |x| == 512
    ensures DataOf(OfData(x)) == x
  {
  }

  // ----- the free map

  function Bit(x: nat, i: nat): bool {
    if i == 0 then x % 2 == 1 else Bit(x / 2, i - 1)
  }

  /** The n bits from o on, as a number. */
  function Pack(f: seq<bool>, o: nat, n: nat): nat
    decreases n
  {
    if n == 0 then 0 else (if o < |f| && f[o] then 1 else 0) + 2 * Pack(f, o + 1, n - 1)
  }

  function Pow2(n: nat): nat {
    if n == 0 then 1 else 2 * Pow2(n - 1)
  }

  lemma {:induction false} PackBelow(f: seq<bool>, o: nat, n: nat)
    ensures Pack(f, o, n) < Pow2(n)
    decreases n
  {
    if n > 0 {
      PackBelow(f, o + 1, n - 1);
    }
  }

  lemma {:induction false} BitOfPack(f: seq<bool>, o: nat, n: nat, i: nat)
    requires i < n && o + i < |f|
    ensures Bit(Pack(f, o, n), i) == f[o + i]
    decreases n
  {
    var rest := Pack(f, o + 1, n - 1);
    assert Pack(f, o, n) / 2 == rest;
    if i > 0 {
      BitOfPack(f, o + 1, n - 1, i - 1);
    }
  }

  function BitOf(v: Block, k: nat): bool {
    Bit(At8(v, k / 8), k % 8)
  }

  function OfBits(f: seq<bool>): Block {
    seq(512, j requires 0 <= j => Pack(f, 8 * j, 8))
  }

  lemma BitBack(f: seq<bool>, k: nat)
    requires |f| == 4096 && k < 4096
    ensures BitOf(OfBits(f), k) == f[k]
  {
    var j, i := k / 8, k % 8;
    ByteOfBits(f, j);
    BitOfPack(f, 8 * j, 8, i);
  }

  lemma ByteOfBits(f: seq<bool>, j: nat)
    requires j < 512
    ensures At8(OfBits(f), j) == Pack(f, 8 * j, 8)
  {
    PackBelow(f, 8 * j, 8);
    assert Pow2(8) == 256 by {
      assert Pow2(4) == 16;
    }
  }

  // ----- inodes

  function Signed(x: nat): int {
    if x < 0x8000 then x else x - 0x1_0000
  }

  function Unsigned(n: int): nat
    requires Short(n)
  {
    if n >= 0 then n else n + 0x1_0000
  }

  /** struct dinode at byte o: type, major, minor, nlink, size, addrs. */
  function NodeFrom(v: Block, o: nat): F.Inode {
    F.Inode(KindFrom(v, o), Signed(At16(v, o + 6)), At32(v, o + 8), AddrsFrom(v, o + 12))
  }

  function KindFrom(v: Block, o: nat): F.Kind {
    F.Kind(Signed(At16(v, o)), Signed(At16(v, o + 2)), Signed(At16(v, o + 4)))
  }

  function AddrsFrom(v: Block, o: nat): (addrs: seq<nat>)
    ensures |addrs| == 13 && forall a | 0 <= a < 13 :: addrs[a] == At32(v, o + 4 * a)
  {
    seq(13, a requires 0 <= a => At32(v, o + 4 * a))
  }

  function NodeOf(v: Block, k: nat): F.Inode {
    NodeFrom(v, 64 * k)
  }

  /** Byte j of a short. */
  function ShortByte(n: int, j: nat): int {
    if Short(n) then Byte(Unsigned(n), j) else 0
  }

  /** Byte j of a struct dinode. */
  function NodeByte(ino: F.Inode, j: nat): int {
    if j < 2 then ShortByte(ino.kind.typ, j)
    else if j < 4 then ShortByte(ino.kind.major, j - 2)
    else if j < 6 then ShortByte(ino.kind.minor, j - 4)
    else if j < 8 then ShortByte(ino.nlink, j - 6)
    else if j < 12 then Byte(ino.size, j - 8)
    else if (j - 12) / 4 < |ino.addrs| then Byte(ino.addrs[(j - 12) / 4], (j - 12) % 4) else 0
  }

  function OfNodes(f: seq<F.Inode>): Block {
    seq(512, j requires 0 <= j => if j / 64 < |f| then NodeByte(f[j / 64], j % 64) else 0)
  }

  lemma NodeBytes(f: seq<F.Inode>, k: nat, j: nat)
    requires |f| == 8 && k < 8 && j < 64
    ensures OfNodes(f)[64 * k + j] == NodeByte(f[k], j)
  {
    assert (64 * k + j) / 64 == k && (64 * k + j) % 64 == j;
  }

  lemma AddrBack(f: seq<F.Inode>, k: nat, a: nat)
    requires |f| == 8 && k < 8 && a < 13 && |f[k].addrs| == 13 && f[k].addrs[a] < F.UINT
    ensures At32(OfNodes(f), 64 * k + 12 + 4 * a) == f[k].addrs[a]
  {
    var i := 64 * k + 12 + 4 * a;
    AddrByte(f, k, a, 0, i);
    AddrByte(f, k, a, 1, i + 1);
    AddrByte(f, k, a, 2, i + 2);
    AddrByte(f, k, a, 3, i + 3);
    Bytes32(OfNodes(f), i, f[k].addrs[a]);
  }

  lemma AddrByte(f: seq<F.Inode>, k: nat, a: nat, l: nat, i: nat)
    requires |f| == 8 && k < 8 && a < 13 && |f[k].addrs| == 13 && l < 4 && i == 64 * k + 12 + 4 * a + l
    ensures i < 512 && OfNodes(f)[i] == Byte(f[k].addrs[a], l)
  {
    var j := 12 + 4 * a + l;
    assert (j - 12) / 4 == a && (j - 12) % 4 == l;
    NodeBytes(f, k, j);
  }

  lemma AddrsBack(f: seq<F.Inode>, k: nat)
    requires |f| == 8 && k < 8 && |f[k].addrs| == 13 && forall a | 0 <= a < 13 :: f[k].addrs[a] < F.UINT
    ensures AddrsFrom(OfNodes(f), 64 * k + 12) == f[k].addrs
  {
    var addrs := AddrsFrom(OfNodes(f), 64 * k + 12);
    forall a | 0 <= a < 13
      ensures addrs[a] == f[k].addrs[a]
    {
      AddrBack(f, k, a);
    }
  }

  lemma SizeBack(f: seq<F.Inode>, k: nat)
    requires |f| == 8 && k < 8 && f[k].size < F.UINT
    ensures At32(OfNodes(f), 64 * k + 8) == f[k].size
  {
    NodeBytes(f, k, 8);
    NodeBytes(f, k, 9);
    NodeBytes(f, k, 10);
    NodeBytes(f, k, 11);
    Bytes32(OfNodes(f), 64 * k + 8, f[k].size);
  }

  /** A short at bytes j and j + 1 of inode k. */
  lemma ShortBack(f: seq<F.Inode>, k: nat, j: nat, n: int)
    requires |f| == 8 && k < 8 && j + 1 < 64 && Short(n)
    requires NodeByte(f[k], j) == ShortByte(n, 0) && NodeByte(f[k], j + 1) == ShortByte(n, 1)
    ensures Signed(At16(OfNodes(f), 64 * k + j)) == n
  {
    NodeBytes(f, k, j);
    NodeBytes(f, k, j + 1);
    Bytes16(OfNodes(f), 64 * k + j, Unsigned(n));
  }

  /** Inode k of a block has its type at bytes 0 and 1, the device numbers at bytes 2 to 5, and its
      link count at bytes 6 and 7. */
  lemma ShortsBack(f: seq<F.Inode>, k: nat)
    requires |f| == 8 && k < 8 && ShortNode(f[k].kind, f[k].nlink)
    ensures var v := OfNodes(f);
            && Signed(At16(v, 64 * k)) == f[k].kind.typ && Signed(At16(v, 64 * k + 2)) == f[k].kind.major
            && Signed(At16(v, 64 * k + 4)) == f[k].kind.minor && Signed(At16(v, 64 * k + 6)) == f[k].nlink
  {
    ShortBack(f, k, 0, f[k].kind.typ);
    ShortBack(f, k, 2, f[k].kind.major);
    ShortBack(f, k, 4, f[k].kind.minor);
    ShortBack(f, k, 6, f[k].nlink);
  }

  /** AN INODE READS BACK as it was written. */
  lemma NodeBack(g: F.Geo, f: seq<F.Inode>, k: nat)
    requires g.ipb == 8 && g.ndirect == 12 && AllFit(g, f) && k < 8
    ensures NodeOf(OfNodes(f), k) == f[k]
  {
    assert Fits(g, f[k]);
    ShortsBack(f, k);
    SizeBack(f, k);
    AddrsBack(f, k);
  }

  /** EVERY BYTE IS A BYTE: nothing that is written has to be cut. */
  lemma WritesBytes(x: F.Block, f: seq<bool>, n: seq<F.Inode>, j: nat)
    requires |x| == 512 && j < 512
    ensures |OfData(x)| == |OfBits(f)| == |OfNodes(n)| == 512
    ensures 0 <= OfData(x)[j] < 256 && 0 <= OfBits(f)[j] < 256 && 0 <= OfNodes(n)[j] < 256
  {
    PackBelow(f, 8 * j, 8);
    assert Pow2(8) == 256 by {
      assert Pow2(4) == 16;
    }
  }

  // ----- the volume

  const XV6: Codec :=
    Codec((v: Block) => DataOf(v), (v: Block, k: nat) => BitOf(v, k), (v: Block, k: nat) => NodeOf(v, k))

  const XV6_WRITES: Encoder :=
    Encoder((x: F.Block) => OfData(x), (f: seq<bool>) => OfBits(f), (f: seq<F.Inode>) => OfNodes(f))

  /** The disk that mkfs makes with a log of nlog blocks, and the sizes of param.h. */
  function Disk(nlog: nat, good: (seq<LogRuns.Event>, F.Store) -> bool): Volume {
    Volume(Mkfs.Laid(1000, 200, nlog, 12, 128, 512, 8), Layout(2, nlog, 30, 10, 512, 1000), 200, XV6, good)
  }

  lemma DiskValid(nlog: nat, good: (seq<LogRuns.Event>, F.Store) -> bool)
    requires 1 <= nlog <= 900
    ensures Disk(nlog, good).Valid()
    ensures LogTheorems.Roomy(Disk(nlog, good).y) <==> nlog == 1 || nlog > 30
  {
    Mkfs.RegionsApart(1000, 200, nlog, 12, 128, 512, 8);
  }

  /** XV6'S OWN ENCODING is one with which all that is proved of FileCode's volumes holds. */
  lemma DiskEncodes(nlog: nat, good: (seq<LogRuns.Event>, F.Store) -> bool)
    ensures Encodes(Disk(nlog, good), XV6_WRITES)
  {
    var vol := Disk(nlog, good);
    DiskData(vol);
    DiskBits(vol);
    DiskNodes(vol);
    DiskFits(vol);
  }

  lemma DiskData(vol: Volume)
    requires vol.c == XV6 && vol.g.bsize == 512 && vol.y.words == 512
    ensures WritesData(vol, XV6_WRITES) && WritesBlocks(vol, XV6_WRITES)
  {
    forall x | |x| == vol.g.bsize
      ensures vol.c.data(XV6_WRITES.data(x)) == x
    {
      DataBack(x);
    }
  }

  lemma DiskBits(vol: Volume)
    requires vol.c == XV6 && vol.g.bpb == 4096
    ensures WritesBits(vol, XV6_WRITES)
  {
    forall f, k: nat | k < vol.g.bpb == |f|
      ensures vol.c.bit(XV6_WRITES.bits(f), k) == f[k]
    {
      BitBack(f, k);
    }
  }

  lemma DiskNodes(vol: Volume)
    requires vol.c == XV6 && vol.g.ipb == 8 && vol.g.ndirect == 12
    ensures WritesNodes(vol, XV6_WRITES)
  {
    forall f, k: nat | k < vol.g.ipb && AllFit(vol.g, f)
      ensures vol.c.node(XV6_WRITES.nodes(f), k) == f[k]
    {
      NodeBack(vol.g, f, k);
    }
  }

  lemma DiskFits(vol: Volume)
    requires vol.c == XV6 && vol.g.ndirect == 12
    ensures ReadsFit(vol)
  {
    forall v, k: nat
      ensures Fits(vol.g, vol.c.node(v, k))
    {
      assert vol.c.node(v, k) == NodeFrom(v, 64 * k);
    }
  }
}
