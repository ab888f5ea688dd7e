/** The bound of MAXOPBLOCKS blocks for one chunk of filewrite is reached (file.c, fs.c). */
module FileCost {
  import opened FileSpec
  import opened FileBytes
  import opened Files

  /** BSIZE 512, NDIRECT 12, NINDIRECT 128, BPB 4096 and IPB 8 as in fs.h, on a disk of four
      bitmap blocks whose log takes up most of the metadata. */
  const G := Geo(12, 128, 12289, 4085, 4096, 4081, 8, 3995, 512)

  /** One free block for each bitmap block. */
  predicate Vacant(b: nat) {
    b == 4095 || b == 4096 || b == 8192 || b == 12288
  }

  /** Where file 0 has its ten blocks, and files 1 to 683 the rest, twelve each. */
  function Placed(j: nat, k: nat): nat {
    if j == 0 then (if k < 10 then 4085 + k else 0)
    else if j < 684 && k < 12 then Other(12 * (j - 1) + k)
    else 0
  }

  function Other(x: nat): nat {
    if x < 4095 then 4097 + x else if x < 8190 then 4098 + x else 0
  }

  /** Nine blocks and one byte in file 0; twelve blocks in each of the others but the last. */
  function FileOf(j: nat): Inode {
    Inode(Kind(T_FILE, 0, 0), 1, if j == 0 then 4609 else if j < 683 then 6144
      else 3072, seq(13, k requires 0 <= k < 13 => Placed(j, k)))
  }

  function Inodes(): seq<Inode> {
    seq(684, j requires 0 <= j < 684 => FileOf(j))
  }

  function Disk(): Store {
    var zero := ZeroBlock(512);
    Store(seq(12289, b => zero), seq(12289, b requires 0 <= b < 12289 => !Vacant(b)), Inodes(), Inodes())
  }

  function OwnerOf(b: nat): (nat, nat)
    requires 4085 <= b < 12289 && !Vacant(b)
  {
    if b < 4095 then (0, b - 4085)
    else
      var x := if b < 8192 then b - 4097 else b - 4098;
      (1 + x / 12, x % 12)
  }

  ghost function DiskOwners(): Owners {
    map b: nat | 4085 <= b < 12289 && !Vacant(b) :: OwnerOf(b)
  }

  lemma PlacedOk(j: nat, k: nat)
    requires j < 684 && k <= 12 && Placed(j, k) != 0
    ensures 4085 <= Placed(j, k) < 12289 && !Vacant(Placed(j, k)) && OwnerOf(Placed(j, k)) == (j, k)
  {
  }

  lemma OwnedOk(b: nat)
    requires 4085 <= b < 12289 && !Vacant(b)
    ensures OwnerOf(b).0 < 684 && OwnerOf(b).1 < 12 && Placed(OwnerOf(b).0, OwnerOf(b).1) == b
  {
  }

  lemma DiskStoreOk()
    ensures StoreOk(G, Disk())
  {
    forall i | 0 <= i < 684
      ensures |Disk().inode[i].addrs| == 13 && Disk().inode[i].addrs[12] < 12289
    {
      assert Disk().inode[i] == FileOf(i);
    }
  }

  lemma DiskAt(j: nat, k: nat)
    requires j < 684 && k <= G.MaxFile() && StoreOk(G, Disk())
    ensures At(G, Disk(), j, k) == if k <= 12 then Placed(j, k) else 0
  {
    assert Disk().inode[j] == FileOf(j);
  }

  lemma DiskInv()
    ensures Inv(G, Disk(), DiskOwners())
  {
    var st, own := Disk(), DiskOwners();
    DiskStoreOk();
    forall i, k | 0 <= i < |st.inode| && 0 <= k <= G.MaxFile()
      ensures SlotOk(G, st, own, i, k)
    {
      DiskAt(i, k);
      if k <= 12 && Placed(i, k) != 0 {
        PlacedOk(i, k);
      }
    }
    forall b | b in own
      ensures OwnerOk(G, st, own, b)
    {
      OwnedOk(b);
      DiskAt(OwnerOf(b).0, OwnerOf(b).1);
    }
  }

  lemma DiskFile(c: seq<byte>)
    requires StoreOk(G, Disk())
    ensures Mapped(G, Disk(), 0) && forall j | 0 <= j < 684 :: SizeOk(G, Disk().inode[j])
  {
    forall j | 0 <= j < 684
      ensures SizeOk(G, Disk().inode[j])
    {
      assert Disk().inode[j] == FileOf(j);
    }
    forall bn | 0 <= bn < G.MaxFile() && bn * G.BSize() < Disk().inode[0].size
      ensures At(G, Disk(), 0, DataSlot(G, bn)) != 0
    {
      DiskAt(0, bn);
    }
  }

  // ----- counting

  lemma {:induction false} DistinctIn(s: seq<nat>, log: set<nat>)
    requires (forall i | 0 <= i < |s| :: s[i] in log) && forall i, j | 0 <= i < j < |s| :: s[i] != s[j]
    ensures |s| <= |log|
    decreases |s|
  {
    if s != [] {
      DistinctIn(s[1..], log - {s[0]});
    }
  }

  // ----- the chunk: 1536 bytes from byte 1 of file block 9 on

  /** What the chunk may have done: filled slots 10 to 13 of file 0. */
  ghost predicate Later(tt: Store, own: Owners) {
    && Inv(G, tt, own) && |tt.inode| == 684 && StoreOk(G, Disk())
    && (forall j: nat | 1 <= j < 684 :: tt.inode[j] == FileOf(j))
    && (forall k: nat | k <= G.MaxFile() && !(10 <= k <= 13) :: At(G, tt, 0, k) == At(G, Disk(), 0, k))
  }

  lemma WithinFour(k: nat)
    requires k <= G.MaxFile() && Within(G, 4609, 6145, k)
    ensures 9 <= k <= 13
  {
  }

  /** The blocks that were in use stay in the slots they were in. */
  lemma StillOwned(tt: Store, own: Owners, b: nat)
    requires Later(tt, own) && 4085 <= b < 12289 && !Vacant(b)
    ensures b in own && own[b] == OwnerOf(b)
  {
    OwnedOk(b);
    var j, k := OwnerOf(b).0, OwnerOf(b).1;
    DiskAt(j, k);
    assert At(G, tt, j, k) == b;
    assert SlotOk(G, tt, own, j, k);
  }

  /** A vacant block that is now in use is in one of the four slots. */
  lemma VacantTaken(tt: Store, own: Owners, b: nat)
    requires Later(tt, own) && Vacant(b) && tt.used[b]
    ensures b in own && own[b].0 == 0 && 10 <= own[b].1 <= 13 && At(G, tt, 0, own[b].1) == b
  {
    assert OwnerOk(G, tt, own, b);
    var j, k := own[b].0, own[b].1;
    if j == 0 {
      DiskAt(0, k);
      if k <= 12 && Placed(0, k) != 0 {
        PlacedOk(0, k);
      }
    } else {
      assert tt.inode[j] == FileOf(j);
      if k <= 12 && Placed(j, k) != 0 {
        PlacedOk(j, k);
      }
    }
  }

  /** With all four vacant blocks in use, all four slots are filled. */
  lemma AllFilled(tt: Store, own: Owners, bn: nat)
    requires Later(tt, own) && forall b | 0 <= b < 12289 :: tt.used[b]
    ensures !(9 <= bn <= 12 && At(G, tt, 0, DataSlot(G, bn)) == 0)
  {
    VacantTaken(tt, own, 4095);
    VacantTaken(tt, own, 4096);
    VacantTaken(tt, own, 8192);
    VacantTaken(tt, own, 12288);
    if bn == 9 {
      DiskAt(0, 9);
    }
  }

  lemma NoneMissing(tt: Store, own: Owners)
    requires Later(tt, own) && forall b | 0 <= b < 12289 :: tt.used[b]
    ensures !Missing(G, tt, 0, 4609, 6145)
  {
    forall bn: nat | Lacks(G, tt, 0, bn, 6145)
      ensures 4609 >= (bn + 1) * G.BSize()
    {
      AllFilled(tt, own, bn);
    }
  }

  /** Block b of the new state is in slot k of file 0 and logged; in a new slot, so is its bit. */
  ghost predicate Fresh(own: Owners, log: set<nat>, k: nat, b: nat) {
    && b in own && own[b] == (0, k) && 4085 <= b < 12289 && b in log
    && (k >= 10 ==> Vacant(b) && b / 4096 + 4081 in log)
  }

  lemma SlotLogged(tt: Store, own: Owners, log: set<nat>, k: nat)
    requires Later(tt, own) && Logged(G, Disk(), tt.blocks, tt.used, tt.dinode, log) && 9 <= k <= 13
    requires At(G, tt, 0, k) != 0 && (At(G, tt, 0, k) < 12289 ==> tt.blocks[At(G, tt, 0, k)] != ZeroBlock(512))
    ensures Fresh(own, log, k, At(G, tt, 0, k))
  {
    var b := At(G, tt, 0, k);
    assert SlotOk(G, tt, own, 0, k);
    assert LoggedAt(G, Disk(), tt.blocks, tt.used, log, b);
    if !Vacant(b) {
      StillOwned(tt, own, b);
      OwnedOk(b);
    }
  }

  lemma TenDistinct(own: Owners, log: set<nat>, a: nat, b: nat, c: nat, d: nat, e: nat)
    requires Fresh(own, log, 9, a) && Fresh(own, log, 10, b) && Fresh(own, log, 11, c)
    requires Fresh(own, log, 12, d) && Fresh(own, log, 13, e) && 3995 in log
    ensures |log| >= 10
  {
    DistinctIn([a, b, c, d, e, b / 4096 + 4081, c / 4096 + 4081, d / 4096 + 4081, e / 4096 + 4081, 3995], log);
  }

  /** A file block with a byte written is not zero. */
  lemma WrittenByte(tt: Store, c: seq<byte>, bn: nat, x: nat)
    requires StoreOk(G, tt) && 0 < |tt.inode| && ContentIs(G, tt, 0, c) && bn < 13 && 512 * bn <= x < 512 * bn + 512
    requires x < |c| && c[x] == 1
    ensures At(G, tt, 0, DataSlot(G, bn)) != 0
    ensures At(G, tt, 0, DataSlot(G, bn)) < 12289 ==> tt.blocks[At(G, tt, 0, DataSlot(G, bn))] != ZeroBlock(512)
  {
    assert x < G.MaxFile() * G.BSize();
    QuotIs(x, 512, bn);
    assert c[x] == ByteOf(G, tt, 0, x);
    assert FileBlock(G, tt, 0, bn)[x - 512 * bn] == 1;
  }

  lemma IndirectWritten(tt: Store)
    requires StoreOk(G, tt) && 0 < |tt.inode| && At(G, tt, 0, 13) != 0
    ensures At(G, tt, 0, 12) != 0 && tt.blocks[At(G, tt, 0, 12)] != ZeroBlock(512)
  {
    assert Word(tt.blocks[tt.inode[0].addrs[12]], 0) != 0;
  }

  lemma TenLogged(tt: Store, own: Owners, log: set<nat>, c: seq<byte>)
    requires Later(tt, own) && |tt.dinode| == 684 && tt.inode[0] == tt.dinode[0]
    requires Logged(G, Disk(), tt.blocks, tt.used, tt.dinode, log)
    requires ContentIs(G, tt, 0, c) && |c| == 6145 && forall x | 4609 <= x < 6145 :: c[x] == 1
    ensures |log| >= 10
  {
    WrittenByte(tt, c, 9, 4609);
    WrittenByte(tt, c, 10, 5120);
    WrittenByte(tt, c, 11, 5632);
    WrittenByte(tt, c, 12, 6144);
    IndirectWritten(tt);
    SlotLogged(tt, own, log, 9);
    SlotLogged(tt, own, log, 10);
    SlotLogged(tt, own, log, 11);
    SlotLogged(tt, own, log, 12);
    SlotLogged(tt, own, log, 13);
    assert Disk().dinode[0] == FileOf(0);
    assert tt.dinode[0] != Disk().dinode[0] && G.IBlock(0) == 3995;
    TenDistinct(own, log, At(G, tt, 0, 9), At(G, tt, 0, 10), At(G, tt, 0, 11), At(G, tt, 0, 12), At(G, tt, 0, 13));
  }

  lemma IsLater(tt: Store, own: Owners)
    requires Inv(G, tt, own) && |tt.inode| == 684 && StoreOk(G, Disk()) && OnlyWithin(G, Disk(), tt, 0, 4609, 6145)
    requires forall j: nat | 1 <= j < 684 :: tt.inode[j] == Disk().inode[j]
    requires forall k | 0 <= k <= G.MaxFile() && At(G, Disk(), 0, k) != 0 :: At(G, tt, 0, k) == At(G, Disk(), 0, k)
    ensures Later(tt, own)
  {
    DiskAt(0, 9);
    forall k: nat | k <= G.MaxFile() && !(10 <= k <= 13)
      ensures At(G, tt, 0, k) == At(G, Disk(), 0, k)
    {
      if At(G, tt, 0, k) != At(G, Disk(), 0, k) {
        WithinFour(k);
      }
    }
    forall j: nat | 1 <= j < 684
      ensures tt.inode[j] == FileOf(j)
    {
      assert Disk().inode[j] == FileOf(j);
    }
  }

  /** A fresh file system with file 0 ready for the chunk. */
  method Ready() returns (fs: Fs, ghost c: seq<byte>)
    ensures fresh(fs) && fs.g == G && fs.St() == Disk() && fs.Holds(0, c) && |c| == 4609
  {
    DiskInv();
    fs := new Fs(G, Disk(), DiskOwners());
    DiskFile([]);
    c := Content(G, Disk(), 0);
    ContentOk(G, Disk(), 0, c);
  }

  /** A chunk of three blocks, for any geometry. */
  method ThreeBlocks(fs: Fs, off: nat, src: seq<byte>, ghost c: seq<byte>) returns (r: Outcome)
    requires fs.Holds(0, c) && off < UINT && |src| == 3 * fs.g.BSize() < UINT
    modifies fs
    ensures fs.Valid() && |fs.inode| == |old(fs.inode)| && fs.g.Valid() && fs.Ahead(old(fs.St()))
    ensures (r.Done? || r == Fail || r == Panic) && (r != Panic ==> (r == Fail <==> !fs.InRange(|c|, off, |src|)))
    ensures r.Done? ==>
              && r.n == |src| && off <= |c| && fs.Holds(0, Splice(c, off, src)) && |fs.logged| <= 10
              && forall k | 0 <= k <= fs.g.MaxFile() && At(fs.g, old(fs.St()), 0, k) != 0 ::
                   At(fs.g, fs.St(), 0, k) == At(fs.g, old(fs.St()), 0, k)
    ensures forall j | 1 <= j < |fs.inode| :: fs.inode[j] == old(fs.inode)[j]
    ensures OnlyWithin(fs.g, old(fs.St()), fs.St(), 0, off, off + |src|)
    ensures r == Panic ==>
              fs.AllUsed() && Fills(fs.g, old(fs.St()), fs.St(), 0) && Missing(fs.g, fs.St(), 0, off, off + |src|)
  {
    r := fs.WriteChunk(0, off, src, 3, 3 * fs.g.BSize(), 10, c);
  }

  /** What writei says of the chunk. */
  method WriteIt(fs: Fs, ghost c: seq<byte>) returns (r: Outcome, ghost d: seq<byte>)
    requires fs.g == G && fs.St() == Disk() && fs.Holds(0, c) && |c| == 4609
    modifies fs
    ensures Later(fs.St(), fs.own) && |fs.dinode| == 684 && r != Fail && r != Device
    ensures r == Panic ==> fs.AllUsed() && Missing(G, fs.St(), 0, 4609, 6145)
    ensures r.Done? ==>
              && r.n == 1536 && fs.inode[0] == fs.dinode[0] && |fs.logged| <= 10
              && Logged(G, Disk(), fs.blocks, fs.used, fs.dinode, fs.logged)
              && ContentIs(G, fs.St(), 0, d) && |d| == 6145 && forall x | 4609 <= x < 6145 :: d[x] == 1
  {
    var ones := seq(1536, x => 1 as byte);
    d := Splice(c, 4609, ones);
    r := ThreeBlocks(fs, 4609, ones, c);
    IsLater(fs.St(), fs.own);
  }

  /** THE BOUND IS REACHED. With MAXOPBLOCKS at 10 a chunk is three blocks long, and this
      one, unaligned and reaching the indirect block, logs exactly ten blocks. */
  method TenBlocks() returns (fs: Fs, r: Outcome)
    ensures fs.g.bpb == 8 * fs.g.bsize && r == Done(1536) && |fs.logged| == 10
  {
    ghost var c, d;
    fs, c := Ready();
    r, d := WriteIt(fs, c);
    if r == Panic {
      NoneMissing(fs.St(), fs.own);
      assert false;
    }
    TenLogged(fs.St(), fs.own, fs.logged, d);
  }
}
