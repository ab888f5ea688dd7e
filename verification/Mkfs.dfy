/** mkfs: the first file-system image (mkfs.c). Blocks are handed out by a counter and
    the bitmap is written last, from that counter. */
module Mkfs {
  import opened FileSpec
  import opened FileBytes
  import opened Files
  import opened Products

  /** What the bitmap will say: the first fb blocks are in use. */
  ghost function Below(n: nat, fb: nat): (u: seq<bool>)
    ensures |u| == n && forall b | 0 <= b < n :: u[b] <==> b < fb
  {
    seq(n, b requires 0 <= b < n => b < fb)
  }

  /** No block of file i at or beyond `end` is there. */
  ghost predicate Tight(g: Geo, st: Store, i: nat, end: nat)
    requires StoreOk(g, st) && i < |st.inode|
  {
    forall c | 0 <= c < g.MaxFile() && c * g.BSize() >= end :: At(g, st, i, DataSlot(g, c)) == 0
  }

  lemma TightStep(g: Geo, st: Store, tt: Store, i: nat, end: nat, bn: nat, end': nat)
    requires StoreOk(g, st) && StoreOk(g, tt) && i < |st.inode| && i < |tt.inode| && Tight(g, st, i, end)
    requires bn * g.BSize() < end' && end <= end'
    requires forall c | 0 <= c < g.MaxFile() && c != bn :: At(g, tt, i, DataSlot(g, c)) == At(g, st, i, DataSlot(g, c))
    ensures Tight(g, tt, i, end')
  {
  }

  /** Every file is exactly as many blocks as its size needs. */
  ghost predicate FileOk(g: Geo, st: Store, i: nat)
    requires StoreOk(g, st) && i < |st.inode|
  {
    Mapped(g, st, i) && Tight(g, st, i, st.inode[i].size)
  }

  /** Behind its end, file i reads as zeros. */
  ghost predicate ZeroTail(g: Geo, st: Store, i: nat)
    requires StoreOk(g, st) && i < |st.inode|
  {
    forall x | st.inode[i].size <= x < g.MaxFile() * g.BSize() :: ByteOf(g, st, i, x) == 0
  }

  ghost predicate ZeroTails(g: Geo, st: Store) {
    StoreOk(g, st) && forall j: nat | j < |st.inode| :: ZeroTail(g, st, j)
  }

  /** The same blocks and sizes not smaller. */
  lemma TailsStay(g: Geo, st: Store, tt: Store)
    requires ZeroTails(g, st) && StoreOk(g, tt) && |tt.inode| == |st.inode| && SameFiles(g, st, tt)
    requires forall j | 0 <= j < |st.inode| :: st.inode[j].size <= tt.inode[j].size
    ensures ZeroTails(g, tt)
  {
    forall j: nat, x: nat | j < |st.inode| && tt.inode[j].size <= x < g.MaxFile() * g.BSize()
      ensures ByteOf(g, tt, j, x) == 0
    {
      assert ZeroTail(g, st, j);
      SameByte(g, st, tt, j, x);
    }
  }

  lemma SameByte(g: Geo, st: Store, tt: Store, j: nat, x: nat)
    requires StoreOk(g, st) && StoreOk(g, tt) && j < |st.inode| && j < |tt.inode| && x < g.MaxFile() * g.BSize()
    requires forall c | 0 <= c < g.MaxFile() :: FileBlock(g, st, j, c) == FileBlock(g, tt, j, c)
    ensures ByteOf(g, tt, j, x) == ByteOf(g, st, j, x)
  {
    QuotBound(Quot(x, g.BSize()), g.BSize(), g.MaxFile());
  }

  /** Bytes added at the end leave zeros behind the new end. */
  lemma TailsAppend(g: Geo, st: Store, tt: Store, i: nat, off: nat, src: seq<byte>)
    requires ZeroTails(g, st) && StoreOk(g, tt) && i < |tt.inode| == |st.inode| && off == st.inode[i].size
    requires Wrote(g, st, tt, i, off, src, |src|) && tt.inode[i].size == off + |src|
    requires forall j | 0 <= j < |st.inode| && j != i :: tt.inode[j].size == st.inode[j].size
    ensures ZeroTails(g, tt)
  {
    forall j: nat, x: nat | j < |st.inode| && tt.inode[j].size <= x < g.MaxFile() * g.BSize()
      ensures ByteOf(g, tt, j, x) == 0
    {
      assert ZeroTail(g, st, j);
      if j == i {
        WroteByte(g, st, tt, i, off, src, x);
      } else {
        SameByte(g, st, tt, j, x);
      }
    }
  }

  /** A file made longer reads as before, and then as zeros. */
  lemma TailContent(g: Geo, st: Store, tt: Store, i: nat, c: seq<byte>)
    requires StoreOk(g, st) && StoreOk(g, tt) && i < |st.inode| == |tt.inode| && SameFiles(g, st, tt)
    requires ContentIs(g, st, i, c) && |c| <= tt.inode[i].size && SizeOk(g, tt.inode[i]) && ZeroTail(g, st, i)
    ensures Content(g, tt, i) == c + seq(tt.inode[i].size - |c|, x => 0)
  {
    forall x | 0 <= x < tt.inode[i].size
      ensures Content(g, tt, i)[x] == if x < |c| then c[x] else 0
    {
      SameByte(g, st, tt, i, x);
      assert x < |c| ==> c[x] == ByteOf(g, st, i, x);
    }
  }

  /** Files other than i have the same blocks. */
  ghost predicate OthersKept(g: Geo, st: Store, tt: Store, i: nat)
    requires StoreOk(g, st) && StoreOk(g, tt)
  {
    && |tt.inode| == |st.inode|
    && forall j, l | 0 <= j < |st.inode| && j != i && 0 <= l <= g.MaxFile() :: At(g, tt, j, l) == At(g, st, j, l)
  }

  ghost predicate Unwritten(g: Geo, blocks: seq<Block>, fb: nat)
    requires |blocks| == g.size
  {
    forall b | fb <= b < g.size :: blocks[b] == ZeroBlock(g.BSize())
  }

  /** The image under construction, with the bitmap it is going to get. */
  ghost predicate Growing(g: Geo, st: Store, own: Owners, fb: nat) {
    Inv(g, st, own) && g.nmeta <= fb <= g.size && st.used == Below(g.size, fb) && Unwritten(g, st.blocks, fb)
  }

  /** An inode of the zeroed image. */
  function Blank(g: Geo): Inode {
    Inode(Kind(0, 0, 0), 0, 0, seq(g.ndirect + 1, k => 0))
  }

  class Image {
    const g: Geo
    var blocks: seq<Block>
    var dinode: seq<Inode>
    var freeblock: nat
    var freeinode: nat
    ghost var own: Owners

    ghost function With(i: nat, din: Inode): Store
      reads this
      requires i < |dinode|
    {
      Store(blocks, Below(g.size, freeblock), dinode[i := din], dinode)
    }

    ghost function St(): Store
      reads this
    {
      Store(blocks, Below(g.size, freeblock), dinode, dinode)
    }

    /** iappend's `din.addrs[k]`, given a block if it has none. */
    method MapAddr(i: nat, din: Inode, k: nat) returns (ok: bool, r: Inode)
      requires i < |dinode| && Growing(g, With(i, din), own, freeblock) && k <= g.ndirect
      modifies this`freeblock, this`own
      ensures Growing(g, With(i, r), own, freeblock) && SameFiles(g, old(With(i, din)), With(i, r))
      ensures Fills(g, old(With(i, din)), With(i, r), i)
      ensures OthersKept(g, old(With(i, din)), With(i, r), i)
      ensures forall l | 0 <= l <= g.MaxFile() && l != k :: At(g, With(i, r), i, l) == At(g, old(With(i, din)), i, l)
      ensures ok ==> At(g, With(i, r), i, k) != 0
      ensures !ok ==> freeblock == g.size
      ensures din.addrs[k] != 0 ==> ok && r == din
      ensures freeblock <= old(freeblock) + 1
    {
      r := din;
      if din.addrs[k] == 0 {
        if freeblock == g.size {
          return false, din;
        }
        ghost var st := With(i, din);
        var b := freeblock;
        r := SetAddr(din, k, b);
        freeblock := freeblock + 1;
        own := own[b := (i, k)];
        assert With(i, r) == ClaimAddr(g, st, i, k, b);
        ClaimedAddr(g, st, old(own), i, k, b);
      }
      ok := true;
    }

    /** A word of iappend's indirect block, given a block if it has none. */
    method MapWord(i: nat, din: Inode, k: nat) returns (ok: bool)
      requires i < |dinode| && Growing(g, With(i, din), own, freeblock) && g.ndirect < k <= g.MaxFile()
      requires At(g, With(i, din), i, g.ndirect) != 0
      modifies this`blocks, this`freeblock, this`own
      ensures Growing(g, With(i, din), own, freeblock) && SameFiles(g, old(With(i, din)), With(i, din))
      ensures Fills(g, old(With(i, din)), With(i, din), i)
      ensures OthersKept(g, old(With(i, din)), With(i, din), i)
      ensures forall l | 0 <= l <= g.MaxFile() && l != k :: At(g, With(i, din), i, l) == At(g, old(With(i, din)), i, l)
      ensures ok ==> At(g, With(i, din), i, k) != 0
      ensures !ok ==> freeblock == g.size
      ensures freeblock <= old(freeblock) + 1
    {
      ghost var st := With(i, din);
      assert SlotOk(g, st, own, i, g.ndirect);
      var bp := din.addrs[g.ndirect];
      if Word(blocks[bp], k - g.ndirect - 1) == 0 {
        if freeblock == g.size {
          return false;
        }
        TakeWord(i, din, k, bp);
      }
      ok := true;
    }

    /** The next free block goes into that word. */
    method TakeWord(i: nat, din: Inode, k: nat, bp: nat)
      requires i < |dinode| && Growing(g, With(i, din), own, freeblock) && g.ndirect < k <= g.MaxFile()
      requires freeblock < g.size && bp == At(g, With(i, din), i, g.ndirect) != 0 && At(g, With(i, din), i, k) == 0
      modifies this`blocks, this`freeblock, this`own
      ensures Growing(g, With(i, din), own, freeblock) && SameFiles(g, old(With(i, din)), With(i, din))
      ensures Fills(g, old(With(i, din)), With(i, din), i)
      ensures OthersKept(g, old(With(i, din)), With(i, din), i)
      ensures forall l | 0 <= l <= g.MaxFile() && l != k :: At(g, With(i, din), i, l) == At(g, old(With(i, din)), i, l)
      ensures At(g, With(i, din), i, k) != 0 && freeblock == old(freeblock) + 1
    {
      ghost var st := With(i, din);
      assert SlotOk(g, st, own, i, g.ndirect);
      var b := freeblock;
      freeblock := freeblock + 1;
      blocks := blocks[bp := SetWord(blocks[bp], k - g.ndirect - 1, b)];
      own := own[b := (i, k)];
      assert With(i, din) == ClaimWord(g, st, i, k, b);
      ClaimedWord(g, st, old(own), i, k, b);
    }

    method MapBlock(i: nat, din: Inode, bn: nat) returns (ok: bool, r: Inode)
      requires i < |dinode| && Growing(g, With(i, din), own, freeblock) && bn < g.MaxFile()
      modifies this`blocks, this`freeblock, this`own
      ensures Growing(g, With(i, r), own, freeblock) && SameFiles(g, old(With(i, din)), With(i, r))
      ensures Fills(g, old(With(i, din)), With(i, r), i)
      ensures OthersKept(g, old(With(i, din)), With(i, r), i)
      ensures forall c | 0 <= c < g.MaxFile() && c != bn ::
                At(g, With(i, r), i, DataSlot(g, c)) == At(g, old(With(i, din)), i, DataSlot(g, c))
      ensures ok ==> At(g, With(i, r), i, DataSlot(g, bn)) != 0
      ensures !ok ==> freeblock == g.size
      ensures At(g, old(With(i, din)), i, DataSlot(g, bn)) != 0 ==> r == din
      ensures freeblock <= old(freeblock) + 2
    {
      if bn < g.ndirect {
        ok, r := MapAddr(i, din, bn);
      } else {
        ghost var st := With(i, din);
        ok, r := MapAddr(i, din, g.ndirect);
        if ok {
          ghost var tt := With(i, r);
          ok := MapWord(i, r, bn + 1);
          FillsTrans(g, st, tt, With(i, r), i);
        }
      }
    }

    /** The block is mapped, read, patched and written back. */
    method PutPiece(i: nat, din: Inode, bn: nat, o: nat, data: seq<byte>) returns (ok: bool, r: Inode)
      requires i < |dinode| && Growing(g, With(i, din), own, freeblock) && bn < g.MaxFile() && o + |data| <= g.BSize()
      modifies this`blocks, this`freeblock, this`own
      ensures Growing(g, With(i, r), own, freeblock) && Fills(g, old(With(i, din)), With(i, r), i)
      ensures OthersKept(g, old(With(i, din)), With(i, r), i)
      ensures forall c | 0 <= c < g.MaxFile() && c != bn ::
                At(g, With(i, r), i, DataSlot(g, c)) == At(g, old(With(i, din)), i, DataSlot(g, c))
      ensures !ok ==> freeblock == g.size
      ensures ok ==> At(g, With(i, r), i, DataSlot(g, bn)) != 0
      ensures ok ==> FileBlock(g, With(i, r), i, bn) == Patch(FileBlock(g, old(With(i, din)), i, bn), o, data)
      ensures ok ==> forall j, c | 0 <= j < |dinode| && 0 <= c < g.MaxFile() && (j, c) != (i, bn) ::
                       FileBlock(g, With(i, r), j, c) == FileBlock(g, old(With(i, din)), j, c)
      ensures At(g, old(With(i, din)), i, DataSlot(g, bn)) != 0 ==> r == din
      ensures freeblock <= old(freeblock) + 2
    {
      ok, r := MapBlock(i, din, bn);
      if !ok {
        return;
      }
      ghost var st := With(i, r);
      WriteBack(i, r, bn, o, data);
      FillsTrans(g, old(With(i, din)), st, With(i, r), i);
    }

    method WriteBack(i: nat, din: Inode, bn: nat, o: nat, data: seq<byte>)
      requires i < |dinode| && Growing(g, With(i, din), own, freeblock) && bn < g.MaxFile() && o + |data| <= g.BSize()
      requires At(g, With(i, din), i, DataSlot(g, bn)) != 0
      modifies this`blocks
      ensures Growing(g, With(i, din), own, freeblock) && Fills(g, old(With(i, din)), With(i, din), i)
      ensures forall j, k | 0 <= j < |dinode| && 0 <= k <= g.MaxFile() ::
                At(g, With(i, din), j, k) == At(g, old(With(i, din)), j, k)
      ensures forall j, c | 0 <= j < |dinode| && 0 <= c < g.MaxFile() ::
                FileBlock(g, With(i, din), j, c) ==
                if (j, c) == (i, bn) then Patch(FileBlock(g, old(With(i, din)), i, bn), o, data)
                  else FileBlock(g, old(With(i, din)), j, c)
    {
      ghost var st := With(i, din);
      PutBack(g, st, own, freeblock, i, bn, Patch(FileBlock(g, st, i, bn), o, data));
      var x := if bn < g.ndirect then din.addrs[bn] else Word(blocks[din.addrs[g.ndirect]], bn - g.ndirect);
      blocks := blocks[x := Patch(blocks[x], o, data)];
      assert With(i, din) == PutBlock(g, st, x, Patch(FileBlock(g, st, i, bn), o, data));
    }

    ghost predicate Valid()
      reads this
    {
      && Growing(g, St(), own, freeblock) && (forall j | 0 <= j < |dinode| :: SizeOk(g, dinode[j]))
      && forall j | 0 <= j < |dinode| :: FileOk(g, St(), j)
    }

    /** iappend's loop after tot bytes. */
    ghost predicate Appending(i: nat, din: Inode, st0: Store, off: nat, src: seq<byte>, first: nat, rem: nat,
                              tot: nat, t: nat, a: nat)
      reads this
      requires i < |dinode|
    {
      Growing(g, With(i, din), own, freeblock) && Appended(g, st0, With(i, din), i, off, src, first, rem, tot, t, a)
    }

    method AppendPiece(i: nat, din: Inode, off: nat, src: seq<byte>, tot: nat,
                       ghost st0: Store, ghost first: nat, ghost rem: nat, ghost t: nat, ghost a: nat)
      returns (ok: bool, r: Inode, next: nat, ghost a': nat)
      requires i < |dinode| && Appending(i, din, st0, off, src, first, rem, tot, t, a) && tot < |src|
      requires off + |src| <= g.MaxFile() * g.BSize() && off == first * g.BSize() + rem && rem < g.BSize()
      modifies this`blocks, this`freeblock, this`own
      ensures tot < next <= |src| && (!ok ==> freeblock == g.size)
      ensures ok ==> Appending(i, r, st0, off, src, first, rem, next, t + 1, a')
      ensures freeblock <= old(freeblock) + 2
    {
      var fbn, o := DivMod(off + tot, g.BSize());
      QuotBound(fbn, g.BSize(), g.MaxFile());
      var n1 := if |src| - tot < g.BSize() - o then |src| - tot else g.BSize() - o;
      ghost var st := With(i, din);
      ok, r := PutPiece(i, din, fbn, o, src[tot..tot + n1]);
      next := tot + n1;
      a' := if At(g, st, i, DataSlot(g, fbn)) == 0 then a + 1 else a;
      if ok {
        AppendStep(g, st0, st, With(i, r), i, off, src, first, rem, tot, t, a, fbn, o, n1, next, a');
      }
    }

    /** iappend: the bytes are added at the end of file i and no other file changes; it
        fails only when the file would be too long or the image is full. */
    method Iappend(i: nat, src: seq<byte>) returns (ok: bool)
      requires Valid() && i < |dinode|
      modifies this`blocks, this`freeblock, this`own, this`dinode
      ensures |dinode| == |old(dinode)|
      ensures ok ==> Valid() && Content(g, St(), i) == old(Content(g, St(), i)) + src
      ensures ok ==> forall j | 0 <= j < |dinode| && j != i ::
                       dinode[j] == old(dinode)[j] && Content(g, St(), j) == old(Content(g, St(), j))
      // type, device numbers and link count stay
      ensures ok ==> dinode[i].kind == old(dinode)[i].kind && dinode[i].nlink == old(dinode)[i].nlink
      ensures ok ==> dinode[i].size == old(dinode)[i].size + |src| && (old(ZeroTails(g, St())) ==> ZeroTails(g, St()))
      ensures !ok ==> old(dinode)[i].size + |src| > g.MaxFile() * g.BSize() || freeblock == g.size
      ensures forall q: nat | |src| <= q * g.BSize() :: freeblock <= old(freeblock) + 2 * q + 2
    {
      var din := dinode[i];
      var off := din.size;
      if off + |src| > g.MaxFile() * g.BSize() {
        return false;
      }
      ghost var st0 := St();
      assert FileOk(g, st0, i);
      ghost var first, rem := SplitAt(off, g.BSize());
      ghost var t, a := 0, 0;
      var tot := 0;
      WroteNothing(g, st0, i, off, src);
      assert With(i, din) == st0;
      while tot < |src|
        invariant tot <= |src| && |dinode| == |old(dinode)| && dinode == old(dinode)
        invariant Appending(i, din, st0, off, src, first, rem, tot, t, a) && freeblock <= old(freeblock) + 2 * t
      {
        PiecesSoFar(g, st0, With(i, din), i, off, src, first, rem, tot, t, a);
        ok, din, tot, a := AppendPiece(i, din, off, src, tot, st0, first, rem, t, a);
        if !ok {
          return;
        }
        t := t + 1;
      }
      AllPieces(g, st0, With(i, din), i, off, src, first, rem, t, a);
      Finish(i, din, off, src, st0, first, rem, t, a);
      return true;
    }

    /** winode with the new size. */
    method Finish(i: nat, din: Inode, off: nat, src: seq<byte>, ghost st0: Store, ghost first: nat, ghost rem: nat,
                  ghost t: nat, ghost a: nat)
      requires i < |dinode| && Appending(i, din, st0, off, src, first, rem, |src|, t, a)
      requires off == first * g.BSize() + rem && rem < g.BSize() && off + |src| <= g.MaxFile() * g.BSize()
      requires StoreOk(g, st0) && st0.inode == dinode && st0.dinode == dinode && off == st0.inode[i].size
      requires forall j | 0 <= j < |dinode| :: SizeOk(g, dinode[j])
      requires forall j | 0 <= j < |dinode| :: FileOk(g, st0, j)
      modifies this`dinode
      ensures Valid() && |dinode| == |old(dinode)| && Content(g, St(), i) == Content(g, st0, i) + src
      ensures forall j | 0 <= j < |dinode| && j != i ::
                dinode[j] == old(dinode)[j] && Content(g, St(), j) == Content(g, st0, j)
      ensures dinode[i].kind == old(dinode)[i].kind && dinode[i].nlink == old(dinode)[i].nlink
      ensures dinode[i].size == off + |src| && (ZeroTails(g, st0) ==> ZeroTails(g, St()))
    {
      ghost var st := With(i, din);
      dinode := dinode[i := din.(size := off + |src|)];
      Resized(g, st, St(), own, freeblock, i, off + |src|);
      Finished(g, st0, st, St(), i, off, src, first, rem, t, a);
      if ZeroTails(g, st0) {
        TailsAppend(g, st0, St(), i, off, src);
      }
    }

    /** The zeroed image before the first inode. */
    constructor (g: Geo, ninodes: nat)
      requires g.Valid()
      ensures this.g == g && Valid() && |dinode| == ninodes && freeblock == g.nmeta && own == map[]
      ensures freeinode == 1 && (forall j | 0 <= j < ninodes :: dinode[j] == Blank(g)) && ZeroTails(g, St())
    {
      this.g := g;
      blocks := seq(g.size, b => ZeroBlock(g.BSize()));
      dinode := seq(ninodes, j => Blank(g));
      freeblock, freeinode := g.nmeta, 1;
      own := map[];
      new;
      Zeroed(g, St());
    }

    /** ialloc: the next inode, blank so far, gets its type and one link. */
    method Ialloc(typ: int) returns (inum: nat)
      requires Valid() && freeinode < |dinode| && dinode[freeinode] == Blank(g)
      modifies this`dinode, this`freeinode
      ensures inum == old(freeinode) && freeinode == inum + 1
      ensures Valid() && dinode == old(dinode)[inum := Blank(g).(kind := Kind(typ, 0, 0), nlink := 1)]
      ensures forall j | 0 <= j < |dinode| :: Content(g, St(), j) == old(Content(g, St(), j))
      ensures old(ZeroTails(g, St())) ==> ZeroTails(g, St())
    {
      inum := freeinode;
      freeinode := freeinode + 1;
      ghost var st := St();
      var din := Blank(g).(kind := Kind(typ, 0, 0), nlink := 1);
      dinode := dinode[inum := din];
      Relinked(g, st, St(), own);
      if ZeroTails(g, st) {
        TailsStay(g, st, St());
      }
    }

    /** The size of the root directory is rounded up to the next block boundary above it.
        That leaves a block below the size that is not there exactly when the size was
        already a multiple of the block size. */
    method FixRoot(i: nat)
      requires Valid() && i < |dinode| && dinode[i].size < g.MaxFile() * g.BSize()
      modifies this`dinode
      ensures Growing(g, St(), own, freeblock) && |dinode| == |old(dinode)| && SizeOk(g, dinode[i])
      ensures forall j | 0 <= j < |dinode| && j != i :: dinode[j] == old(dinode)[j] && FileOk(g, St(), j)
      ensures SizesOk(g, St())
      ensures forall j: nat | j < |dinode| && j != i :: Content(g, St(), j) == old(Content(g, St(), j))
      ensures dinode[i] == old(dinode)[i].(size := dinode[i].size) && old(dinode)[i].size <= dinode[i].size
      ensures old(ZeroTails(g, St())) ==>
                Content(g, St(), i) == old(Content(g, St(), i)) + seq(dinode[i].size - old(dinode)[i].size, x => 0)
      ensures dinode[i].size == (Quot(old(dinode)[i].size, g.BSize()) + 1) * g.BSize()
      ensures Mapped(g, St(), i) <==> Quot(old(dinode)[i].size, g.BSize()) * g.BSize() != old(dinode)[i].size
    {
      var q, r := DivMod(dinode[i].size, g.BSize());
      ghost var st := St();
      var off := (q + 1) * g.BSize();
      assert FileOk(g, st, i);
      dinode := dinode[i := dinode[i].(size := off)];
      Rounded(g, st, St(), own, i, q, r);
      if ZeroTails(g, st) {
        assert ZeroTail(g, st, i);
        ContentOk(g, st, i, Content(g, st, i));
        TailContent(g, st, St(), i, Content(g, st, i));
      }
      forall j: nat | j < |dinode| && j != i
        ensures Content(g, St(), j) == Content(g, st, j)
      {
        SameContent(g, st, St(), j);
      }
    }

    /** balloc: the bitmap of the finished image, if one bitmap block is enough for the
        blocks in use. It marks the metadata and every block of a file, and nothing else. */
    method Balloc() returns (ok: bool, used: seq<bool>)
      requires Growing(g, St(), own, freeblock)
      ensures ok <==> freeblock < g.bpb
      ensures ok ==> Inv(g, Store(blocks, used, dinode, dinode), own) && used == Below(g.size, freeblock)
    {
      if freeblock >= g.bpb {
        return false, [];
      }
      used := seq(g.size, b => false);
      var b := 0;
      while b < freeblock
        invariant b <= freeblock && |used| == g.size
        invariant forall c | 0 <= c < g.size :: used[c] <==> c < b
      {
        used := used[b := true];
        b := b + 1;
      }
      assert used == Below(g.size, freeblock);
      return true, used;
    }
  }

  /** After t pieces and before the next: no more than fit in q blocks, and one. */
  lemma PiecesSoFar(g: Geo, st0: Store, st: Store, i: nat, off: nat, src: seq<byte>, first: nat, rem: nat,
                    tot: nat, t: nat, a: nat)
    requires Appended(g, st0, st, i, off, src, first, rem, tot, t, a) && tot < |src|
    requires off == first * g.BSize() + rem && rem < g.BSize()
    ensures forall q: nat | |src| <= q * g.BSize() :: t <= q
  {
    forall q: nat | |src| <= q * g.BSize()
      ensures t <= q
    {
      PieceBound(first, rem, g.BSize(), |src|, t, q);
    }
  }

  lemma AllPieces(g: Geo, st0: Store, st: Store, i: nat, off: nat, src: seq<byte>, first: nat, rem: nat, t: nat, a: nat)
    requires Appended(g, st0, st, i, off, src, first, rem, |src|, t, a)
    requires off == first * g.BSize() + rem && rem < g.BSize()
    ensures forall q: nat | |src| <= q * g.BSize() :: t <= q + 1
  {
    forall q: nat | |src| <= q * g.BSize()
      ensures t <= q + 1
    {
      if t > 0 {
        PieceBound(first, rem, g.BSize(), |src|, t - 1, q);
      }
    }
  }

  /** With the new size, file i has the bytes added and no other file has changed. */
  lemma Finished(g: Geo, st0: Store, st: Store, tt: Store, i: nat, off: nat, src: seq<byte>, first: nat, rem: nat,
                 t: nat, a: nat)
    requires Appended(g, st0, st, i, off, src, first, rem, |src|, t, a) && StoreOk(g, tt) && st0.inode == st0.dinode
    requires off == first * g.BSize() + rem && rem < g.BSize() && off == st0.inode[i].size
    requires off + |src| <= g.MaxFile() * g.BSize()
    requires forall j | 0 <= j < |st0.inode| :: SizeOk(g, st0.inode[j])
    requires forall j | 0 <= j < |st0.inode| :: FileOk(g, st0, j)
    requires tt.dinode == tt.inode == st.inode[i := st.inode[i].(size := off + |src|)]
    requires SameFiles(g, st, tt)
    requires forall j, k | 0 <= j < |st.inode| && 0 <= k <= g.MaxFile() :: At(g, tt, j, k) == At(g, st, j, k)
    ensures forall j | 0 <= j < |tt.inode| :: SizeOk(g, tt.inode[j])
    ensures forall j | 0 <= j < |tt.inode| :: FileOk(g, tt, j)
    ensures Content(g, tt, i) == Content(g, st0, i) + src && Wrote(g, st0, tt, i, off, src, |src|)
    ensures forall j | 0 <= j < |tt.inode| && j != i ::
              tt.inode[j] == st0.inode[j] && Content(g, tt, j) == Content(g, st0, j)
  {
    assert FileOk(g, st0, i);
    ResizedIsWritten(g, st0, st, tt, i, off, src, first, rem, t, a);
    WriteDone(g, st0, tt, i, off, src);
    forall j | 0 <= j < |tt.inode|
      ensures FileOk(g, tt, j)
    {
      assert FileOk(g, st0, j);
      if j != i {
        SameSlots(g, st0, tt, j);
      }
    }
  }

  lemma SameSlots(g: Geo, st: Store, tt: Store, j: nat)
    requires StoreOk(g, st) && StoreOk(g, tt) && j < |st.inode| && j < |tt.inode| && FileOk(g, st, j)
    requires tt.inode[j].size == st.inode[j].size
    requires forall k | 0 <= k <= g.MaxFile() :: At(g, tt, j, k) == At(g, st, j, k)
    ensures FileOk(g, tt, j)
  {
  }

  /** Link counts have no say in slots and blocks. */
  lemma Linked(g: Geo, st: Store, tt: Store, own: Owners)
    requires Inv(g, st, own) && |tt.inode| == |st.inode| == |tt.dinode| && tt.blocks == st.blocks && tt.used == st.used
    requires forall j | 0 <= j < |st.inode| :: tt.inode[j].addrs == st.inode[j].addrs
    ensures Inv(g, tt, own)
    ensures forall j, k | 0 <= j < |st.inode| && 0 <= k <= g.MaxFile() :: At(g, tt, j, k) == At(g, st, j, k)
    ensures SameFiles(g, st, tt)
  {
    forall j, k | 0 <= j < |st.inode| && 0 <= k <= g.MaxFile()
      ensures At(g, tt, j, k) == At(g, st, j, k) && SlotOk(g, tt, own, j, k)
    {
      assert SlotOk(g, st, own, j, k);
    }
    forall b | b in own
      ensures OwnerOk(g, tt, own, b)
    {
      assert OwnerOk(g, st, own, b);
    }
  }

  lemma Rounded(g: Geo, st: Store, tt: Store, own: Owners, i: nat, q: nat, r: nat)
    requires Inv(g, st, own) && i < |st.inode| && FileOk(g, st, i)
    requires st.inode[i].size == q * g.BSize() + r < g.MaxFile() * g.BSize() && r < g.BSize()
    requires tt == st.(inode := st.inode[i := st.inode[i].(size := (q + 1) * g.BSize())], dinode := tt.dinode)
    requires |tt.dinode| == |st.dinode|
    requires forall j | 0 <= j < |st.inode| && j != i :: FileOk(g, st, j)
    ensures Inv(g, tt, own) && SizeOk(g, tt.inode[i]) && SameFiles(g, st, tt)
    ensures forall j | 0 <= j < |st.inode| && j != i :: FileOk(g, tt, j)
    ensures Mapped(g, tt, i) <==> r != 0
    ensures Quot(st.inode[i].size, g.BSize()) == q
  {
    Linked(g, st, tt, own);
    QuotIs(st.inode[i].size, g.BSize(), q);
    QuotBound(q, g.BSize(), g.MaxFile());
    TimesAtLeast(q + 1, g.MaxFile(), g.BSize());
    forall bn | 0 <= bn < g.MaxFile() && bn * g.BSize() < (q + 1) * g.BSize() && bn != q
      ensures At(g, st, i, DataSlot(g, bn)) != 0
    {
      if bn > q {
        TimesLess(q, bn, g.BSize());
      } else {
        TimesLess(bn, q, g.BSize());
      }
    }
    assert q * g.BSize() < (q + 1) * g.BSize();
    assert At(g, tt, i, DataSlot(g, q)) == At(g, st, i, DataSlot(g, q));
    forall j | 0 <= j < |st.inode| && j != i
      ensures FileOk(g, tt, j)
    {
      assert FileOk(g, st, j);
    }
  }

  lemma Relinked(g: Geo, st: Store, tt: Store, own: Owners)
    requires Inv(g, st, own) && |tt.inode| == |st.inode| == |tt.dinode| && tt.blocks == st.blocks && tt.used == st.used
    requires forall j | 0 <= j < |st.inode| ::
               tt.inode[j].addrs == st.inode[j].addrs && tt.inode[j].size == st.inode[j].size
    requires forall j | 0 <= j < |st.inode| :: SizeOk(g, st.inode[j])
    ensures Inv(g, tt, own)
    ensures forall j | 0 <= j < |st.inode| :: FileOk(g, st, j) ==> FileOk(g, tt, j)
    ensures forall j | 0 <= j < |st.inode| :: SizeOk(g, tt.inode[j]) && Content(g, tt, j) == Content(g, st, j)
    ensures SameFiles(g, st, tt)
  {
    Linked(g, st, tt, own);
    forall j | 0 <= j < |st.inode|
      ensures Content(g, tt, j) == Content(g, st, j)
    {
      SameContent(g, st, tt, j);
    }
  }

  lemma Zeroed(g: Geo, st: Store)
    requires g.Valid() && |st.blocks| == g.size && |st.inode| == |st.dinode| && st.used == Below(g.size, g.nmeta)
    requires Unwritten(g, st.blocks, 0) && forall j | 0 <= j < |st.inode| :: st.inode[j] == Blank(g)
    ensures Growing(g, st, map[], g.nmeta)
    ensures forall j | 0 <= j < |st.inode| :: FileOk(g, st, j)
    ensures ZeroTails(g, st)
  {
    forall j, k | 0 <= j < |st.inode| && 0 <= k <= g.MaxFile()
      ensures At(g, st, j, k) == 0
    {
      assert st.inode[j] == Blank(g);
    }
    forall j | 0 <= j < |st.inode|
      ensures FileOk(g, st, j)
    {
      assert st.inode[j] == Blank(g);
    }
  }

  /** Writing a block of file i that is there. */
  lemma PutBack(g: Geo, st: Store, own: Owners, fb: nat, i: nat, bn: nat, v: Block)
    requires Growing(g, st, own, fb) && i < |st.inode| && bn < g.MaxFile() && |v| == g.BSize()
    requires At(g, st, i, DataSlot(g, bn)) != 0
    ensures 0 < At(g, st, i, DataSlot(g, bn)) < fb && st.inode[i].addrs[g.ndirect] < g.size
    ensures var tt := PutBlock(g, st, At(g, st, i, DataSlot(g, bn)), v);
            && Growing(g, tt, own, fb) && Fills(g, st, tt, i)
            && (forall j, k | 0 <= j < |st.inode| && 0 <= k <= g.MaxFile() :: At(g, tt, j, k) == At(g, st, j, k))
            && forall j, c | 0 <= j < |st.inode| && 0 <= c < g.MaxFile() ::
                 FileBlock(g, tt, j, c) == if (j, c) == (i, bn) then v else FileBlock(g, st, j, c)
  {
    assert SlotOk(g, st, own, i, DataSlot(g, bn)) && SlotOk(g, st, own, i, g.ndirect);
    PutBlockInv(g, st, own, i, bn, v);
    forall j, k | 0 <= j < |st.inode| && 0 <= k <= g.MaxFile()
      ensures At(g, PutBlock(g, st, At(g, st, i, DataSlot(g, bn)), v), j, k) == At(g, st, j, k)
    {
      PutBlockAt(g, st, own, i, bn, v, j, k);
    }
  }

  /** After tot bytes, in t pieces of which a went into new blocks. */
  ghost predicate Appended(g: Geo, st0: Store, st: Store, i: nat, off: nat, src: seq<byte>, first: nat, rem: nat,
                           tot: nat, t: nat, a: nat)
  {
    Progress(g, st0, st, i, off, src, first, rem, tot, t, a) && Tight(g, st, i, off + tot) && OthersKept(g, st0, st, i)
  }

  lemma AppendStep(g: Geo, st0: Store, st: Store, tt: Store, i: nat, off: nat, src: seq<byte>, first: nat, rem: nat,
                   tot: nat, t: nat, a: nat, bn: nat, o: nat, m: nat, next: nat, a': nat)
    requires Appended(g, st0, st, i, off, src, first, rem, tot, t, a) && StoreOk(g, tt) && tot < |src|
    requires off == first * g.BSize() + rem && rem < g.BSize() && Fills(g, st, tt, i) && OthersKept(g, st, tt, i)
    requires bn < g.MaxFile() && bn * g.BSize() + o == off + tot && o < g.BSize()
    requires m == (if |src| - tot < g.BSize() - o then |src| - tot else g.BSize() - o) && next == tot + m
    requires At(g, tt, i, DataSlot(g, bn)) != 0 && a' == if At(g, st, i, DataSlot(g, bn)) == 0 then a + 1 else a
    requires FileBlock(g, tt, i, bn) == Patch(FileBlock(g, st, i, bn), o, src[tot..tot + m])
    requires forall j, c | 0 <= j < |st.inode| && 0 <= c < g.MaxFile() && (j, c) != (i, bn) ::
               FileBlock(g, tt, j, c) == FileBlock(g, st, j, c)
    requires At(g, st, i, DataSlot(g, bn)) != 0 ==> tt.inode == st.inode
    requires forall c | 0 <= c < g.MaxFile() && c != bn :: At(g, tt, i, DataSlot(g, c)) == At(g, st, i, DataSlot(g, c))
    ensures Appended(g, st0, tt, i, off, src, first, rem, next, t + 1, a')
  {
    ProgressStep(g, st0, st, tt, i, off, src, first, rem, tot, t, a, bn, o, m);
    TightStep(g, st, tt, i, off + tot, bn, off + next);
  }

  lemma Resized(g: Geo, st: Store, tt: Store, own: Owners, fb: nat, i: nat, sz: nat)
    requires Growing(g, st, own, fb) && i < |st.inode| && |tt.dinode| == |st.dinode|
    requires tt.blocks == st.blocks && tt.used == st.used && tt.inode == st.inode[i := st.inode[i].(size := sz)]
    ensures Growing(g, tt, own, fb) && SameFiles(g, st, tt)
    ensures forall j, k | 0 <= j < |st.inode| && 0 <= k <= g.MaxFile() :: At(g, tt, j, k) == At(g, st, j, k)
  {
    ResizeFrame(g, st, own, i, sz, tt.dinode);
    assert tt == st.(inode := tt.inode, dinode := tt.dinode);
  }

  /** The disk as mkfs divides it: boot block, super block, log, inodes, bitmap, data. */
  function Laid(fssize: nat, ninodes: nat, nlog: nat, ndirect: nat, nindirect: nat, bsize: nat, ipb: nat): Geo
    requires bsize >= 1 && ipb >= 1
  {
    var ninodeblocks, nbitmap := ninodes / ipb + 1, fssize / (bsize * 8) + 1;
    Geo(ndirect, nindirect, fssize, 2 + nlog + ninodeblocks + nbitmap, bsize * 8, 2 + nlog + ninodeblocks, ipb,
        2 + nlog, bsize)
  }

  /** REGIONS. Every inode lies between the log and the bitmap, every bit between the inodes
      and the data. */
  lemma RegionsApart(fssize: nat, ninodes: nat, nlog: nat, ndirect: nat, nindirect: nat, bsize: nat, ipb: nat)
    requires bsize >= 1 && ipb >= 1
    ensures var g := Laid(fssize, ninodes, nlog, ndirect, nindirect, bsize, ipb);
            && (forall i: nat | i < ninodes :: 2 + nlog <= g.IBlock(i) < g.bmapstart)
            && (forall b: nat | b < fssize :: g.bmapstart <= g.BBlock(b) < g.nmeta)
  {
    var g := Laid(fssize, ninodes, nlog, ndirect, nindirect, bsize, ipb);
    forall i: nat | i < ninodes
      ensures 2 + nlog <= g.IBlock(i) < g.bmapstart
    {
      InodeBlockIn(g, i, ninodes);
    }
    forall b: nat | b < fssize
      ensures g.bmapstart <= g.BBlock(b) < g.nmeta
    {
      BitBlockIn(g, b, fssize);
    }
  }

  lemma InodeBlockIn(g: Geo, i: nat, n: nat)
    requires g.ipb >= 1 && i < n && g.bmapstart == g.inodestart + n / g.ipb + 1
    ensures g.inodestart <= g.IBlock(i) < g.bmapstart
  {
    QuotientsGrow(i, n, g.ipb);
  }

  lemma BitBlockIn(g: Geo, b: nat, n: nat)
    requires g.bpb >= 1 && b < n && g.nmeta == g.bmapstart + n / g.bpb + 1
    ensures g.bmapstart <= g.BBlock(b) < g.nmeta
  {
    QuotientsGrow(b, n, g.bpb);
  }

  /** The shipped sizes. */
  lemma ShippedIsLaid()
    ensures Laid(1000, 200, 30, 12, 128, 512, 8) == SHIPPED
  {
  }

  lemma QuotientsGrow(x: nat, z: nat, n: nat)
    requires x <= z && n >= 1
    ensures x / n <= z / n
  {
    Share(x, n);
    Share(z, n);
    if x / n > z / n {
      TimesLess(z / n, x / n, n);
    }
  }

  /** The sizes mkfs is built with (param.h:13, mkfs.c:18-30). */
  const SHIPPED := Geo(12, 128, 1000, 59, 4096, 58, 8, 32, 512)

  /** A root directory that fills a block exactly gets a second one that is not there. */
  method RootHole() returns (im: Image)
    ensures im.g == SHIPPED && |im.dinode| > 1 && im.dinode[1].size == 1024
    ensures StoreOk(im.g, im.St()) && !Mapped(im.g, im.St(), 1)
  {
    im := new Image(SHIPPED, 200);
    var root := im.Ialloc(T_DIR);
    var ok := im.Iappend(1, seq(512, x => 0 as byte));
    assert |seq(512, x => 0 as byte)| <= 1 * SHIPPED.BSize();
    QuotIs(512, 512, 1);
    im.FixRoot(1);
  }
}
