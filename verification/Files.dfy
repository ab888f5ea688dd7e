/** The inode layer's code (fs.c): balloc, bfree, bmap, readi, writei, itrunc.
    The fields are the logical contents of the disk as the log shows them plus the
    in-memory inodes; `logged` collects the block numbers given to log_write. */
module Files {
  import opened Wrappers
  import opened FileSpec
  import opened FileBytes
  import opened Products

  /** readi and writei: a byte count, -1, a device call (not modelled), a panic. */
  datatype Outcome = Done(n: nat) | Fail | Device | Panic

  class Fs {
    const g: Geo
    var blocks: seq<Block>
    var used: seq<bool>
    var inode: seq<Inode>
    var dinode: seq<Inode>
    ghost var own: Owners
    ghost var logged: set<nat>

    ghost function St(): Store
      reads this
    {
      Store(blocks, used, inode, dinode)
    }

    ghost predicate Valid()
      reads this
    {
      Inv(g, St(), own)
    }

    /** No block is free, so that balloc panics. */
    ghost predicate AllUsed()
      reads this
    {
      forall b | 0 <= b < |used| :: used[b]
    }

    /** A mounted image; no inode has changed in memory yet. */
    constructor (g: Geo, image: Store, ghost own: Owners)
      requires Inv(g, image, own) && image.inode == image.dinode
      ensures this.g == g && Valid() && St() == image && this.own == own && logged == {}
    {
      this.g, this.own, this.logged := g, own, {};
      blocks, used, inode, dinode := image.blocks, image.used, image.inode, image.dinode;
    }

    /** Every block that differs from st is in the transaction. */
    ghost predicate Ahead(st: Store)
      reads this
    {
      Logged(g, st, blocks, used, dinode, logged)
    }

    /** More has been logged than in log: bitmap blocks, inode blocks and data blocks. */
    ghost predicate Adds(log: set<nat>)
      reads this
    {
      log <= logged && g.Valid() && forall x | x in logged && x !in log :: Placed(g, |inode|, x)
    }

    /** `balloc`: the first free block, marked and zeroed; None is the panic. */
    method Balloc() returns (r: Option<nat>)
      requires StoreOk(g, St())
      modifies this`blocks, this`used, this`logged
      ensures r.None? <==> forall b | 0 <= b < g.size :: old(used)[b]
      ensures r.None? ==> blocks == old(blocks) && used == old(used) && logged == old(logged)
      ensures r.Some? ==>
                && r.value < g.size && !old(used)[r.value]
                && (forall b | 0 <= b < r.value :: old(used)[b])
                && used == old(used)[r.value := true]
                && blocks == old(blocks)[r.value := ZeroBlock(g.BSize())]
                && logged == old(logged) + {g.BBlock(r.value), r.value}
      // the bitmap block is the one with the block's bit
      ensures r.Some? ==> exists c: nat ::
                && logged == old(logged) + {g.bmapstart + c, r.value} && c * g.bpb <= r.value < (c + 1) * g.bpb
    {
      var b := 0;
      while b < g.size
        invariant b >= 0 && used == old(used) && blocks == old(blocks) && logged == old(logged)
        invariant forall c | 0 <= c < b && c < g.size :: used[c]
        decreases g.size - b
      {
        var bi := 0;
        while bi < g.bpb && b + bi < g.size
          invariant 0 <= bi <= g.bpb && used == old(used) && blocks == old(blocks) && logged == old(logged)
          invariant forall c | 0 <= c < b + bi && c < g.size :: used[c]
        {
          if !used[b + bi] {
            Claim(b + bi);
            return Some(b + bi);
          }
          bi := bi + 1;
        }
        b := b + g.bpb;
      }
      r := None;
    }

    /** balloc's stores: mark the bit, zero the block, log both. */
    method Claim(b: nat)
      requires StoreOk(g, St()) && b < g.size
      modifies this`blocks, this`used, this`logged
      ensures used == old(used)[b := true] && blocks == old(blocks)[b := ZeroBlock(g.BSize())]
      ensures logged == old(logged) + {g.BBlock(b), b}
      ensures exists c: nat :: logged == old(logged) + {g.bmapstart + c, b} && c * g.bpb <= b < (c + 1) * g.bpb
    {
      used := used[b := true];
      blocks := blocks[b := ZeroBlock(g.BSize())];
      logged := logged + {g.BBlock(b), b};
      BitPlace(g, b, 0);
      assert g.BBlock(b) == g.bmapstart + (g.BBlock(b) - g.bmapstart);
    }

    /** `bfree`; the result says whether "freeing free block" was hit. */
    method Bfree(b: nat) returns (panicked: bool)
      requires StoreOk(g, St()) && b < g.size
      modifies this`used, this`logged
      ensures panicked <==> !old(used)[b]
      ensures used == old(used)[b := false]
      ensures logged == if panicked then old(logged) else old(logged) + {g.BBlock(b)}
      ensures !panicked ==> exists c: nat ::
                logged == old(logged) + {g.bmapstart + c} && c * g.bpb <= b < (c + 1) * g.bpb
    {
      panicked := !used[b];
      if !panicked {
        used := used[b := false];
        logged := logged + {g.BBlock(b)};
        BitPlace(g, b, 0);
        assert g.BBlock(b) == g.bmapstart + (g.BBlock(b) - g.bmapstart);
      }
    }

    /** Extra blocks logged for the indirect block: itself and its bitmap block, or
        nothing when it is already in the transaction. */
    ghost function IndirectCost(st: Store, log: set<nat>, i: nat, bn: nat): nat
      requires StoreOk(g, st) && i < |st.inode|
    {
      if bn < g.ndirect || (At(g, st, i, g.ndirect) != 0 && At(g, st, i, g.ndirect) in log) then 0 else 2
    }

    /** `bmap`: the block of file block bn, allocated if there was none. No file's
        contents change; a mapped block costs nothing. */
    method Bmap(i: nat, bn: nat) returns (r: Option<nat>)
      requires Valid() && i < |inode| && bn < g.MaxFile()
      modifies this`blocks, this`used, this`inode, this`own, this`logged
      ensures Valid() && SameFiles(g, old(St()), St()) && Fills(g, old(St()), St(), i)
      ensures r.Some? ==> r.value == At(g, St(), i, DataSlot(g, bn)) != 0
      // a direct address, or a word of the indirect block
      ensures r.Some? ==> r.value == if bn < g.ndirect then inode[i].addrs[bn]
                                     else Word(blocks[inode[i].addrs[g.ndirect]], bn - g.ndirect)
      ensures At(g, old(St()), i, DataSlot(g, bn)) != 0 ==>
                r.Some? && St() == old(St()) && own == old(own) && logged == old(logged)
      ensures r.Some? && At(g, old(St()), i, DataSlot(g, bn)) == 0 ==>
                && r.value in logged
                && |logged| <= |old(logged)| + 2 + IndirectCost(old(St()), old(logged), i, bn)
                && (bn >= g.ndirect ==> At(g, St(), i, g.ndirect) != 0 && At(g, St(), i, g.ndirect) in logged)
      ensures Only(g, old(St()), St(), i, bn, bn + 1)
      ensures r.None? ==> AllUsed() && At(g, St(), i, DataSlot(g, bn)) == 0
      ensures Ahead(old(St())) && Adds(old(logged))
    {
      if bn < g.ndirect {
        r := BmapAddr(i, bn);
      } else {
        r := BmapFar(i, bn);
      }
    }

    /** bmap's second half: a block named in the indirect block, which is made if missing. */
    method BmapFar(i: nat, bn: nat) returns (r: Option<nat>)
      requires Valid() && i < |inode| && g.ndirect <= bn < g.MaxFile()
      modifies this`blocks, this`used, this`inode, this`own, this`logged
      ensures Valid() && SameFiles(g, old(St()), St()) && Fills(g, old(St()), St(), i)
      ensures r.Some? ==> r.value == At(g, St(), i, DataSlot(g, bn)) != 0 && At(g, St(), i, g.ndirect) != 0
      ensures At(g, old(St()), i, DataSlot(g, bn)) != 0 ==>
                r.Some? && St() == old(St()) && own == old(own) && logged == old(logged)
      ensures r.Some? && At(g, old(St()), i, DataSlot(g, bn)) == 0 ==>
                && r.value in logged && At(g, St(), i, g.ndirect) in logged
                && |logged| <= |old(logged)| + 2 + IndirectCost(old(St()), old(logged), i, bn)
      ensures forall k | 0 <= k <= g.MaxFile() && k != DataSlot(g, bn) && k != g.ndirect ::
                At(g, St(), i, k) == At(g, old(St()), i, k)
      ensures r.None? ==> AllUsed() && At(g, St(), i, DataSlot(g, bn)) == 0
      ensures Ahead(old(St())) && Adds(old(logged))
    {
      var a := BmapAddr(i, g.ndirect);
      if a.None? {
        return None;
      }
      ghost var st, log := St(), logged;
      r := BmapWord(i, bn + 1);
      LoggedTrans(g, old(St()), st, St(), log, logged);
    }

    /** `if((addr = ip->addrs[k]) == 0) ip->addrs[k] = addr = balloc(ip->dev)`. */
    method BmapAddr(i: nat, k: nat) returns (r: Option<nat>)
      requires Valid() && i < |inode| && k <= g.ndirect
      modifies this`blocks, this`used, this`inode, this`own, this`logged
      ensures Valid() && SameFiles(g, old(St()), St()) && Fills(g, old(St()), St(), i)
      ensures r.Some? ==> r.value == At(g, St(), i, k) != 0
      ensures At(g, old(St()), i, k) != 0 || r.None? ==> St() == old(St()) && own == old(own) && logged == old(logged)
      ensures At(g, old(St()), i, k) != 0 ==> r.Some?
      ensures At(g, old(St()), i, k) == 0 && r.Some? ==> logged == old(logged) + {g.BBlock(r.value), r.value}
      ensures forall l | 0 <= l <= g.MaxFile() && l != k :: At(g, St(), i, l) == At(g, old(St()), i, l)
      ensures r.None? ==> AllUsed()
      ensures Ahead(old(St())) && Adds(old(logged))
    {
      var addr := inode[i].addrs[k];
      if addr == 0 {
        ghost var st := St();
        r := Balloc();
        if r.None? {
          return;
        }
        addr := r.value;
        inode := inode[i := SetAddr(inode[i], k, addr)];
        own := own[addr := (i, k)];
        assert St() == ClaimAddr(g, st, i, k, addr);
        ClaimedAddr(g, st, old(own), i, k, addr);
        ClaimedLogged(g, st, St(), addr, addr, logged);
      }
      r := Some(addr);
    }

    /** The same for a word of the indirect block, which is there. */
    method BmapWord(i: nat, k: nat) returns (r: Option<nat>)
      requires Valid() && i < |inode| && g.ndirect < k <= g.MaxFile() && At(g, St(), i, g.ndirect) != 0
      modifies this`blocks, this`used, this`own, this`logged
      ensures Valid() && SameFiles(g, old(St()), St()) && Fills(g, old(St()), St(), i)
      ensures r.Some? ==> r.value == At(g, St(), i, k) != 0
      ensures At(g, old(St()), i, k) != 0 || r.None? ==> St() == old(St()) && own == old(own) && logged == old(logged)
      ensures At(g, old(St()), i, k) != 0 ==> r.Some?
      ensures At(g, old(St()), i, k) == 0 && r.Some? ==>
                logged == old(logged) + {g.BBlock(r.value), r.value, At(g, old(St()), i, g.ndirect)}
      ensures forall l | 0 <= l <= g.MaxFile() && l != k :: At(g, St(), i, l) == At(g, old(St()), i, l)
      ensures r.None? ==> AllUsed()
      ensures Ahead(old(St())) && Adds(old(logged))
    {
      assert SlotOk(g, St(), own, i, g.ndirect);
      var bp := inode[i].addrs[g.ndirect];
      var addr := Word(blocks[bp], k - g.ndirect - 1);
      if addr != 0 {
        return Some(addr);
      }
      r := NewWord(i, k, bp);
      if r.Some? {
        PlacedBoth(g, |inode|, r.value);
        PlacedBoth(g, |inode|, bp);
      }
    }

    /** `a[bn] = addr = balloc(ip->dev); log_write(bp)`. */
    method NewWord(i: nat, k: nat, bp: nat) returns (r: Option<nat>)
      requires Valid() && i < |inode| && g.ndirect < k <= g.MaxFile() && At(g, St(), i, k) == 0
      requires bp == inode[i].addrs[g.ndirect] != 0
      modifies this`blocks, this`used, this`own, this`logged
      ensures r.None? ==> St() == old(St()) && own == old(own) && logged == old(logged) && AllUsed()
      ensures r.Some? ==> Claimed(g, old(St()), St(), own, i, k, r.value) && r.value != 0
      ensures r.Some? ==> logged == old(logged) + {g.BBlock(r.value), r.value, bp} && Ahead(old(St()))
      ensures r.Some? ==> g.nmeta <= r.value < g.size && g.nmeta <= bp < g.size
    {
      ghost var st := St();
      assert SlotOk(g, st, own, i, g.ndirect) && At(g, st, i, g.ndirect) == bp;
      r := Balloc();
      if r.Some? {
        var addr := r.value;
        blocks := blocks[bp := SetWord(blocks[bp], k - g.ndirect - 1, addr)];
        own := own[addr := (i, k)];
        logged := logged + {bp};
        assert St() == ClaimWord(g, st, i, k, addr);
        ClaimedWord(g, st, old(own), i, k, addr);
        ClaimedLogged(g, st, St(), addr, bp, logged);
      }
    }

    /** Blocks logged for one piece: its data block, and for a new block the bitmap
        block and what the indirect block costs. */
    ghost function PieceCost(st: Store, log: set<nat>, i: nat, bn: nat): nat
      requires StoreOk(g, st) && i < |st.inode| && bn < g.MaxFile()
    {
      1 + if At(g, st, i, DataSlot(g, bn)) != 0 then 0 else 1 + IndirectCost(st, log, i, bn)
    }

    /** One round of writei's loop: bmap, bread, memmove, log_write. */
    method WritePiece(i: nat, bn: nat, o: nat, data: seq<byte>) returns (ok: bool)
      requires Valid() && i < |inode| && bn < g.MaxFile() && o + |data| <= g.BSize()
      modifies this`blocks, this`used, this`inode, this`own, this`logged
      ensures Valid() && Fills(g, old(St()), St(), i)
      ensures ok ==> At(g, St(), i, DataSlot(g, bn)) != 0
      ensures ok ==> FileBlock(g, St(), i, bn) == Patch(FileBlock(g, old(St()), i, bn), o, data)
      ensures forall j, c | 0 <= j < |inode| && 0 <= c < g.MaxFile() && (j, c) != (i, bn) ::
                FileBlock(g, St(), j, c) == FileBlock(g, old(St()), j, c)
      ensures At(g, old(St()), i, DataSlot(g, bn)) != 0 ==> ok && inode == old(inode)
      ensures ok ==> |logged| <= |old(logged)| + PieceCost(old(St()), old(logged), i, bn)
      ensures ok && At(g, old(St()), i, DataSlot(g, bn)) == 0 && bn >= g.ndirect ==>
                At(g, St(), i, g.ndirect) != 0 && At(g, St(), i, g.ndirect) in logged
      ensures Only(g, old(St()), St(), i, bn, bn + 1)
      ensures !ok ==> AllUsed() && At(g, St(), i, DataSlot(g, bn)) == 0
      ensures Ahead(old(St())) && Adds(old(logged))
    {
      var b := Bmap(i, bn);
      if b.None? {
        return false;
      }
      ghost var st := St();
      PutBlockInv(g, st, own, i, bn, Patch(FileBlock(g, st, i, bn), o, data));
      forall k | 0 <= k <= g.MaxFile()
        ensures At(g, PutBlock(g, st, b.value, Patch(FileBlock(g, st, i, bn), o, data)), i, k) == At(g, st, i, k)
      {
        PutBlockAt(g, st, own, i, bn, Patch(FileBlock(g, st, i, bn), o, data), i, k);
      }
      ghost var log := logged;
      assert SlotOk(g, st, own, i, DataSlot(g, bn));
      blocks := blocks[b.value := Patch(blocks[b.value], o, data)];
      logged := logged + {b.value};
      PutLogged(g, st, b.value, blocks[b.value], logged);
      LoggedTrans(g, old(St()), st, St(), log, logged);
      ok := true;
    }

    /** writei's loop: block by block, the bytes of src are laid over the file. */
    method WriteAll(i: nat, off: nat, src: seq<byte>, ghost first: nat, ghost rem: nat)
      returns (ok: bool, ghost t: nat, ghost a: nat)
      requires Valid() && i < |inode| && off + |src| <= g.MaxFile() * g.BSize()
      requires off == first * g.BSize() + rem && rem < g.BSize()
      modifies this`blocks, this`used, this`inode, this`own, this`logged
      ensures Valid()
      ensures ok ==> Reached(g, old(St()), St(), i, off, src, first, rem, |src|, t, a)
      // t pieces, a of them new: what reached the log
      ensures ok ==> |logged| <= |old(logged)| + t + a + 2
      ensures !ok ==> AllUsed() && Stuck(g, old(St()), St(), i, first, t, off + |src|)
      ensures Ahead(old(St())) && Adds(old(logged))
    {
      var n, tot := |src|, 0;
      t, a, ok := 0, 0, true;
      ghost var ind, st0 := false, St();
      WroteNothing(g, St(), i, off, src);
      while tot < n
        invariant 0 <= tot <= n && Valid() && Reached(g, st0, St(), i, off, src, first, rem, tot, t, a)
        invariant Adds(old(logged)) && Ahead(st0)
        invariant |logged| <= |old(logged)| + t + a + if ind then 2 else 0
        invariant ind ==> At(g, St(), i, g.ndirect) != 0 && At(g, St(), i, g.ndirect) in logged
      {
        ghost var u, b;
        ok, tot, u, b, ind := Round(i, off, src, tot, st0, first, rem, t, a, ind);
        if !ok {
          return;
        }
        t, a := u, b;
      }
    }

    /** The body of that loop. */
    method Round(i: nat, off: nat, src: seq<byte>, tot: nat, ghost st0: Store, ghost first: nat, ghost rem: nat,
                 ghost t: nat, ghost a: nat, ghost ind: bool)
      returns (ok: bool, next: nat, ghost t': nat, ghost a': nat, ghost ind': bool)
      requires Valid() && Reached(g, st0, St(), i, off, src, first, rem, tot, t, a) && tot < |src|
      requires off + |src| <= g.MaxFile() * g.BSize() && off == first * g.BSize() + rem && rem < g.BSize()
      requires ind ==> At(g, St(), i, g.ndirect) != 0 && At(g, St(), i, g.ndirect) in logged
      requires Ahead(st0)
      modifies this`blocks, this`used, this`inode, this`own, this`logged
      ensures Valid() && tot < next <= |src| && t' == t + 1 && a <= a' <= a + 1 && (ind ==> ind')
      ensures ok ==> Reached(g, st0, St(), i, off, src, first, rem, next, t', a')
      ensures !ok ==> AllUsed() && Stuck(g, st0, St(), i, first, t, off + |src|)
      ensures Adds(old(logged)) && Ahead(st0)
      ensures ok ==> |logged| <= |old(logged)| + (t' - t) + (a' - a) + (if ind' && !ind then 2 else 0)
      ensures ok && ind' ==> At(g, St(), i, g.ndirect) != 0 && At(g, St(), i, g.ndirect) in logged
    {
      var bn, o, m := Place(off + tot, |src| - tot);
      ghost var st := St();
      ok := WritePiece(i, bn, o, src[tot..tot + m]);
      next, t' := tot + m, t + 1;
      a' := if At(g, st, i, DataSlot(g, bn)) == 0 then a + 1 else a;
      ind' := ind || (a' > a && bn >= g.ndirect);
      LoggedTrans(g, st0, st, St(), old(logged), logged);
      RoundMoves(g, st0, st, St(), i, off, src, first, rem, tot, t, a, bn, o, m, next, t', a', ok);
    }

    /** The block and the offset in it for byte pos, and how many of `left` bytes go there. */
    method Place(pos: nat, left: nat) returns (bn: nat, o: nat, m: nat)
      requires g.Valid() && left >= 1 && pos + left <= g.MaxFile() * g.BSize()
      ensures bn < g.MaxFile() && bn * g.BSize() + o == pos && o < g.BSize()
      ensures m == if left < g.BSize() - o then left else g.BSize() - o
    {
      bn, o := DivMod(pos, g.BSize());
      QuotBound(bn, g.BSize(), g.MaxFile());
      m := if left < g.BSize() - o then left else g.BSize() - o;
    }

    /** `ip->nlink--; iupdate(ip)` and the like: type and link count of inode i, in memory and on
        disk; no contents change. */
    method SetNode(i: nat, kind: Kind, nlink: int)
      requires Valid() && i < |inode|
      modifies this`inode, this`dinode, this`logged
      ensures Valid() && inode == old(inode)[i := old(inode)[i].(kind := kind, nlink := nlink)]
      ensures dinode == old(dinode)[i := inode[i]] && SameFiles(g, old(St()), St())
      ensures logged == old(logged) + {g.IBlock(i)} && Ahead(old(St())) && Adds(old(logged))
      ensures Transaction(g, old(St()), St(), logged)
    {
      ghost var st0 := St();
      NodeFrame(g, st0, own, i, kind, nlink);
      inode := inode[i := inode[i].(kind := kind, nlink := nlink)];
      ghost var st := St();
      Iupdate(i);
      SameSlots(g, st, St());
    }

    /** What writei has to tell about a file that is not a device. */
    ghost predicate AllSized()
      reads this
    {
      forall j | 0 <= j < |inode| :: SizeOk(g, inode[j])
    }

    /** `iupdate`. */
    method Iupdate(i: nat)
      requires StoreOk(g, St()) && i < |inode|
      modifies this`dinode, this`logged
      ensures StoreOk(g, St()) && dinode == old(dinode)[i := inode[i]] && logged == old(logged) + {g.IBlock(i)}
      ensures old(Valid()) ==> Valid()
      // the block logged is the one that holds inode i
      ensures exists c: nat :: logged == old(logged) + {g.inodestart + c} && c * g.ipb <= i < (c + 1) * g.ipb
    {
      if Valid() {
        ResizeFrame(g, St(), own, i, inode[i].size, dinode[i := inode[i]]);
        assert inode[i := inode[i].(size := inode[i].size)] == inode;
      }
      dinode := dinode[i := inode[i]];
      logged := logged + {g.IBlock(i)};
      InodePlace(g, i, 0);
      assert g.IBlock(i) == g.inodestart + (g.IBlock(i) - g.inodestart);
    }

    /** `writei`: the file's contents c become c with [off, off + n) replaced by src,
        no other file changes, and one call logs few blocks. */
    method Writei(i: nat, src: seq<byte>, off: nat) returns (r: Outcome)
      requires Valid() && AllSized() && i < |inode| && off < UINT && |src| < UINT
      modifies this`blocks, this`used, this`inode, this`dinode, this`own, this`logged
      ensures Valid() && |inode| == |old(inode)|
      ensures r == Device <==> old(inode)[i].kind.typ == 3
      ensures r == Fail <==>
                !old(inode)[i].kind.IsDev()
                && (off > old(inode)[i].size || off + |src| >= UINT || off + |src| > g.MaxFile() * g.BSize())
      ensures r == Device || r == Fail ==> St() == old(St()) && logged == old(logged)
      ensures r.Done? ==> r.n == |src| && AllSized()
      ensures r.Done? ==> inode[i].kind == old(inode)[i].kind && inode[i].nlink == old(inode)[i].nlink
      ensures r.Done? ==> Content(g, St(), i) == Splice(old(Content(g, St(), i)), off, src)
      ensures r.Done? ==> forall j | 0 <= j < |inode| && j != i ::
                inode[j] == old(inode)[j] && Content(g, St(), j) == old(Content(g, St(), j))
      // with no hole below the size there is none afterwards, and the disk copy is current
      ensures r.Done? && Mapped(g, old(St()), i) ==> Mapped(g, St(), i)
      ensures r.Done? && Mapped(g, old(St()), i) && old(inode)[i] == old(dinode)[i] ==> inode[i] == dinode[i]
      // no block of the file moves
      ensures r.Done? ==> forall k | 0 <= k <= g.MaxFile() && At(g, old(St()), i, k) != 0 ::
                At(g, St(), i, k) == At(g, old(St()), i, k)
      // TRANSACTION SIZE: q blocks' worth of bytes log at most 2q + 4 distinct blocks
      ensures r.Done? && Mapped(g, old(St()), i) ==>
                forall q: nat | |src| <= q * g.BSize() :: |logged| <= |old(logged)| + 2 * q + 4
      // only blocks that the range needs are allocated, and a panic means that one is missing
      ensures OnlyWithin(g, old(St()), St(), i, off, off + |src|)
      ensures r == Panic ==> AllUsed() && Fills(g, old(St()), St(), i) && Missing(g, St(), i, off, off + |src|)
      ensures Ahead(old(St())) && Adds(old(logged))
      ensures dinode == old(dinode) || dinode == old(dinode)[i := inode[i]]
    {
      if inode[i].kind.IsDev() {
        return Device;
      }
      if off > inode[i].size || Sum32(off, |src|) < off {
        return Fail;
      }
      if Sum32(off, |src|) > g.MaxFile() * g.BSize() {
        return Fail;
      }
      ghost var st0 := St();
      ghost var t, a;
      var ok;
      ok, t, a := WriteBody(i, off, src);
      if !ok {
        return Panic;
      }
      WriteDone(g, st0, St(), i, off, src);
      if Mapped(g, st0, i) {
        forall q: nat | |src| <= q * g.BSize() ensures t + a + 3 <= 2 * q + 4 {
          WriteCost(g, st0.inode[i].size, off, |src|, t, a, q);
        }
      }
      r := Done(|src|);
    }

    /** `ip->size = off; iupdate(ip)`. */
    method Grow(i: nat, sz: nat)
      requires Valid() && i < |inode|
      modifies this`inode, this`dinode, this`logged
      ensures Valid() && inode == old(inode)[i := old(inode)[i].(size := sz)] && dinode == old(dinode)[i := inode[i]]
      ensures SameFiles(g, old(St()), St()) && logged == old(logged) + {g.IBlock(i)}
      ensures forall k | 0 <= k <= g.MaxFile() :: At(g, St(), i, k) == At(g, old(St()), i, k)
      ensures Ahead(old(St())) && Adds(old(logged))
    {
      ResizeFrame(g, St(), own, i, sz, dinode);
      inode := inode[i := inode[i].(size := sz)];
      Iupdate(i);
    }

    /** writei past its checks: the loop, then the new size and iupdate. */
    method WriteBody(i: nat, off: nat, src: seq<byte>) returns (ok: bool, ghost t: nat, ghost a: nat)
      requires Valid() && i < |inode| && off + |src| <= g.MaxFile() * g.BSize() && off <= inode[i].size
      modifies this`blocks, this`used, this`inode, this`dinode, this`own, this`logged
      ensures Valid() && |inode| == |old(inode)|
      ensures ok ==> WrittenTo(g, old(St()), St(), i, off, src)
      ensures ok ==> |logged| <= |old(logged)| + t + a + 3
      ensures ok ==> Counted(g, old(inode)[i].size, off, |src|, t, a, Mapped(g, old(St()), i))
      ensures OnlyWithin(g, old(St()), St(), i, off, off + |src|)
      ensures !ok ==> AllUsed() && Fills(g, old(St()), St(), i) && Missing(g, St(), i, off, off + |src|)
      ensures Ahead(old(St())) && Adds(old(logged))
      ensures dinode == old(dinode) || dinode == old(dinode)[i := inode[i]]
    {
      ghost var first, rem := SplitAt(off, g.BSize());
      ghost var st0 := St();
      ok, t, a := WriteAll(i, off, src, first, rem);
      if !ok {
        StuckWithin(g, st0, St(), i, first, rem, t, off, |src|);
        return;
      }
      ReachedWithin(g, st0, St(), i, off, src, first, rem, t, a);
      ghost var st, log := St(), logged;
      if |src| > 0 && off + |src| > inode[i].size {
        Grow(i, off + |src|);
        LoggedTrans(g, st0, st, St(), log, logged);
      }
      ResizedIsWritten(g, st0, st, St(), i, off, src, first, rem, t, a);
    }

    /** `readi`: the slice of the contents. A hole is filled with a zero block, which
        no file can tell; without holes below the size nothing changes at all. */
    method Readi(i: nat, off: nat, n: nat) returns (r: Outcome, dst: seq<byte>)
      requires Valid() && AllSized() && i < |inode| && off < UINT && n < UINT
      modifies this`blocks, this`used, this`inode, this`own, this`logged
      ensures Valid() && SameFiles(g, old(St()), St()) && Fills(g, old(St()), St(), i)
      ensures r == Device <==> old(inode)[i].kind.typ == 3
      ensures r == Fail <==> old(inode)[i].kind.typ != 3 && (off > old(inode)[i].size || off + n >= UINT)
      ensures r.Done? ==> r.n == (if off + n > old(inode)[i].size then old(inode)[i].size - off else n)
      ensures r.Done? ==> dst == old(Content(g, St(), i))[off..off + r.n]
      ensures Mapped(g, old(St()), i) ==> r != Panic && St() == old(St()) && logged == old(logged)
      ensures r == Panic ==> AllUsed()
      ensures Ahead(old(St())) && Adds(old(logged))
    {
      dst := [];
      if inode[i].kind.IsDev() {
        return Device, [];
      }
      if off > inode[i].size || Sum32(off, n) < off {
        return Fail, [];
      }
      var len := if Sum32(off, n) > inode[i].size then inode[i].size - off else n;
      var ok;
      ContentOk(g, St(), i, Content(g, St(), i));
      ok, dst := ReadAll(i, off, len, Content(g, St(), i));
      r := if ok then Done(len) else Panic;
    }

    /** readi's loop. */
    method ReadAll(i: nat, off: nat, len: nat, ghost c: seq<byte>) returns (ok: bool, dst: seq<byte>)
      requires Valid() && i < |inode| && ContentIs(g, St(), i, c) && off + len <= |c|
      modifies this`blocks, this`used, this`inode, this`own, this`logged
      ensures Valid() && SameFiles(g, old(St()), St()) && Fills(g, old(St()), St(), i)
      ensures ok ==> dst == c[off..off + len]
      ensures Mapped(g, old(St()), i) ==> ok && St() == old(St()) && logged == old(logged)
      ensures !ok ==> AllUsed()
      ensures Ahead(old(St())) && Adds(old(logged))
    {
      dst := [];
      ghost var st0, log0 := St(), logged;
      var tot := 0;
      while tot < len
        invariant 0 <= tot <= len && OnlyRead(i, st0, log0) && dst == c[off..off + tot]
      {
        var piece := ReadPiece(i, off + tot, len - tot, st0, log0, c);
        if piece.None? {
          return false, [];
        }
        SliceJoin(c, off, off + tot, off + tot + |piece.value|);
        dst := dst + piece.value;
        tot := tot + |piece.value|;
      }
      ok := true;
    }

    /** Since st0, reading inode i has at most filled holes with zero blocks. */
    ghost predicate OnlyRead(i: nat, st0: Store, log0: set<nat>)
      reads this
    {
      && Valid() && StoreOk(g, st0) && i < |st0.inode| && SameFiles(g, st0, St()) && Fills(g, st0, St(), i)
      && (Mapped(g, st0, i) ==> St() == st0 && logged == log0) && Ahead(st0) && Adds(log0)
    }

    /** One round of readi's loop. */
    method ReadPiece(i: nat, pos: nat, left: nat, ghost st0: Store, ghost log0: set<nat>, ghost c: seq<byte>)
      returns (r: Option<seq<byte>>)
      requires OnlyRead(i, st0, log0) && left >= 1 && ContentIs(g, st0, i, c) && pos + left <= |c|
      modifies this`blocks, this`used, this`inode, this`own, this`logged
      ensures OnlyRead(i, st0, log0) && (Mapped(g, st0, i) ==> r.Some?)
      ensures r.Some? ==> 1 <= |r.value| <= left && pos + |r.value| <= |c| && r.value == c[pos..pos + |r.value|]
      ensures r.None? ==> AllUsed()
    {
      var bn, o := DivMod(pos, g.BSize());
      QuotBound(bn, g.BSize(), g.MaxFile());
      ghost var st := St();
      var v := ReadBlock(i, bn);
      FillsTrans(g, st0, st, St(), i);
      LoggedTrans(g, st0, st, St(), old(logged), logged);
      if v.None? {
        return None;
      }
      var m := if left < g.BSize() - o then left else g.BSize() - o;
      PieceBytes(g, st0, i, c, pos, bn, o, m);
      r := Some(v.value[o..o + m]);
    }

    /** `bread(ip->dev, bmap(ip, bn))`. */
    method ReadBlock(i: nat, bn: nat) returns (r: Option<Block>)
      requires Valid() && i < |inode| && bn < g.MaxFile()
      modifies this`blocks, this`used, this`inode, this`own, this`logged
      ensures Valid() && SameFiles(g, old(St()), St()) && Fills(g, old(St()), St(), i)
      ensures r.Some? ==> r.value == FileBlock(g, old(St()), i, bn)
      ensures At(g, old(St()), i, DataSlot(g, bn)) != 0 ==> r.Some? && St() == old(St()) && logged == old(logged)
      ensures r.None? ==> AllUsed()
      ensures Ahead(old(St())) && Adds(old(logged))
    {
      var b := Bmap(i, bn);
      if b.None? {
        return None;
      }
      assert SlotOk(g, St(), own, i, DataSlot(g, bn));
      r := Some(blocks[b.value]);
    }

    /** `itrunc`: gives back exactly this inode's blocks; bfree never finds a free
        one, and no other file is touched. */
    method Itrunc(i: nat) returns (panicked: bool)
      requires Valid() && i < |inode|
      modifies this`used, this`inode, this`dinode, this`own, this`logged
      ensures !panicked && Valid() && |inode| == |old(inode)|
      ensures inode[i] == old(inode)[i].(size := 0, addrs := inode[i].addrs) && dinode == old(dinode)[i := inode[i]]
      ensures forall k | 0 <= k <= g.MaxFile() :: At(g, St(), i, k) == 0
      ensures forall b | 0 <= b < g.size :: used[b] <==> old(used)[b] && !(b in old(own) && old(own)[b].0 == i)
      ensures forall j | 0 <= j < |inode| && j != i :: inode[j] == old(inode)[j]
      ensures forall j, bn | 0 <= j < |inode| && j != i && 0 <= bn < g.MaxFile() ::
                FileBlock(g, St(), j, bn) == FileBlock(g, old(St()), j, bn)
      ensures Ahead(old(St())) && Adds(old(logged)) && Transaction(g, old(St()), St(), logged)
      // what is logged: the inode's block, and the bitmap blocks of the inode's blocks
      ensures logged == old(logged) + {g.IBlock(i)} + Bitmaps(g, old(own), i)
    {
      panicked := FreeBlocks(i);
      ghost var st1, log := St(), logged;
      Iupdate(i);
      LoggedTrans(g, old(St()), st1, St(), log, logged);
      forall k | 0 <= k <= g.MaxFile() ensures At(g, St(), i, k) == At(g, st1, i, k) {
      }
    }

    /** itrunc up to iupdate. */
    method FreeBlocks(i: nat) returns (panicked: bool)
      requires Valid() && i < |inode|
      modifies this`used, this`inode, this`own, this`logged
      ensures !panicked && Valid() && |inode| == |old(inode)|
      ensures inode[i] == old(inode)[i].(size := 0, addrs := inode[i].addrs)
      ensures forall k | 0 <= k <= g.MaxFile() :: At(g, St(), i, k) == 0
      ensures forall b | 0 <= b < g.size :: used[b] <==> old(used)[b] && !(b in old(own) && old(own)[b].0 == i)
      ensures forall j | 0 <= j < |inode| && j != i :: inode[j] == old(inode)[j]
      ensures forall j, bn | 0 <= j < |inode| && j != i && 0 <= bn < g.MaxFile() ::
                FileBlock(g, St(), j, bn) == FileBlock(g, old(St()), j, bn)
      ensures Ahead(old(St())) && Adds(old(logged)) && logged == old(logged) + Bitmaps(g, old(own), i)
    {
      ghost var st0 := St();
      panicked := FreeAll(i);
      FreedExactly(st0, i, old(logged));
      ClearSize(i, st0);
    }

    /** Every bit that was cleared is logged, and nothing else. */
    lemma FreedExactly(st0: Store, i: nat, log: set<nat>)
      requires Inv(g, st0, own) && Frees(log, i) && Ahead(st0) && |used| == g.size && |inode| == |st0.inode|
      requires forall b | 0 <= b < g.size :: used[b] <==> st0.used[b] && !(b in own && own[b].0 == i)
      ensures logged == log + Bitmaps(g, own, i) && Adds(log)
    {
      forall x | x in Bitmaps(g, own, i)
        ensures x in logged && Placed(g, |inode|, x)
      {
        var b :| b in own && own[b].0 == i && x == g.BBlock(b);
        assert OwnerOk(g, st0, own, b) && LoggedAt(g, st0, blocks, used, logged, b);
      }
    }

    /** `ip->size = 0`, with every block of inode i given back since st0. */
    method ClearSize(i: nat, ghost st0: Store)
      requires StoreOk(g, St()) && Inv(g, st0, own) && i < |st0.inode| && blocks == st0.blocks
      requires forall b | 0 <= b < g.size :: used[b] <==> st0.used[b] && !(b in own && own[b].0 == i)
      requires |inode| == |st0.inode| && inode == st0.inode[i := st0.inode[i].(addrs := inode[i].addrs)]
      requires forall k | 0 <= k <= g.ndirect :: inode[i].addrs[k] == 0
      modifies this`inode, this`own
      ensures Valid() && inode == st0.inode[i := inode[i]]
      ensures inode[i] == st0.inode[i].(size := 0, addrs := inode[i].addrs)
      ensures forall k | 0 <= k <= g.MaxFile() :: At(g, St(), i, k) == 0
      ensures forall j, bn | 0 <= j < |inode| && j != i && 0 <= bn < g.MaxFile() ::
                FileBlock(g, St(), j, bn) == FileBlock(g, st0, j, bn)
    {
      ghost var own0 := own;
      inode := inode[i := inode[i].(size := 0)];
      own := map b | b in own && own[b].0 != i :: own[b];
      TruncInv(g, st0, own0, St(), own, i);
    }

    method FreeAll(i: nat) returns (panicked: bool)
      requires Valid() && i < |inode|
      modifies this`used, this`inode, this`logged
      ensures !panicked && StoreOk(g, St())
      ensures forall b | 0 <= b < g.size :: used[b] <==> old(used)[b] && !(b in own && own[b].0 == i)
      ensures |inode| == |old(inode)| && inode == old(inode)[i := old(inode)[i].(addrs := inode[i].addrs)]
      ensures forall k | 0 <= k <= g.ndirect :: inode[i].addrs[k] == 0
      ensures Ahead(old(St())) && Frees(old(logged), i)
    {
      ghost var st0 := St();
      panicked := TruncDirect(i);
      var ind := inode[i].addrs[g.ndirect];
      if ind != 0 {
        panicked := TruncIndirect(i, ind, st0);
        inode := inode[i := SetAddr(inode[i], g.ndirect, 0)];
      } else {
        NoIndirect(g, st0, own, i);
      }
    }

    /** What has been logged since log are bitmap blocks of inode i's blocks. */
    ghost predicate Frees(log: set<nat>, i: nat)
      reads this
    {
      log <= logged && g.Valid() && forall x | x in logged && x !in log :: x in Bitmaps(g, own, i)
    }

    /** Blocks of inode i in slots below k are free, all other bits as in st0. */
    ghost predicate FreedBelow(st0: Store, i: nat, k: nat)
      reads this
    {
      && |used| == |st0.used| == g.size
      && forall b | 0 <= b < g.size ::
           used[b] <==> st0.used[b] && !(b in own && own[b].0 == i && own[b].1 < k && own[b].1 != g.ndirect)
    }

    method FreeSlot(i: nat, k: nat, addr: nat, ghost st0: Store) returns (panicked: bool)
      requires StoreOk(g, St()) && Inv(g, st0, own) && i < |st0.inode| && k <= g.MaxFile() && k != g.ndirect
      requires FreedBelow(st0, i, k) && addr == At(g, st0, i, k) && Ahead(st0)
      modifies this`used, this`logged
      ensures Ahead(st0) && Frees(old(logged), i)
      ensures !panicked && StoreOk(g, St()) && FreedBelow(st0, i, k + 1)
    {
      panicked := false;
      assert SlotOk(g, st0, own, i, k);
      if addr != 0 {
        LoggedBit(g, st0, blocks, used, dinode, logged, addr, false);
        panicked := Bfree(addr);
      }
      forall b | 0 <= b < g.size
        ensures used[b] <==> st0.used[b] && !(b in own && own[b].0 == i && own[b].1 < k + 1 && own[b].1 != g.ndirect)
      {
        if b in own {
          assert OwnerOk(g, st0, own, b);
        }
      }
    }

    method TruncDirect(i: nat) returns (panicked: bool)
      requires Valid() && i < |inode|
      modifies this`used, this`inode, this`logged
      ensures !panicked && StoreOk(g, St()) && FreedBelow(old(St()), i, g.ndirect)
      ensures inode == old(inode)[i := old(inode)[i].(addrs := inode[i].addrs)]
      ensures |inode[i].addrs| == g.ndirect + 1 && inode[i].addrs[g.ndirect] == old(inode)[i].addrs[g.ndirect]
      ensures forall k | 0 <= k < g.ndirect :: inode[i].addrs[k] == 0
      ensures Ahead(old(St())) && Frees(old(logged), i)
    {
      ghost var st0 := St();
      panicked := false;
      var k := 0;
      while k < g.ndirect
        invariant 0 <= k <= g.ndirect && !panicked && StoreOk(g, St()) && FreedBelow(st0, i, k)
        invariant Ahead(st0) && Frees(old(logged), i)
        invariant inode == st0.inode[i := st0.inode[i].(addrs := inode[i].addrs)]
        invariant |inode[i].addrs| == g.ndirect + 1
        invariant forall l | 0 <= l < k :: inode[i].addrs[l] == 0
        invariant forall l | k <= l <= g.ndirect :: inode[i].addrs[l] == st0.inode[i].addrs[l]
      {
        var addr := inode[i].addrs[k];
        panicked := FreeSlot(i, k, addr, st0);
        inode := inode[i := SetAddr(inode[i], k, 0)];
        k := k + 1;
      }
    }

    method TruncIndirect(i: nat, ind: nat, ghost st0: Store) returns (panicked: bool)
      requires StoreOk(g, St()) && Inv(g, st0, own) && i < |st0.inode| && blocks == st0.blocks
      requires ind == st0.inode[i].addrs[g.ndirect] != 0 && FreedBelow(st0, i, g.ndirect) && Ahead(st0)
      modifies this`used, this`logged
      ensures Ahead(st0) && Frees(old(logged), i)
      ensures !panicked && StoreOk(g, St())
      ensures forall b | 0 <= b < g.size :: used[b] <==> st0.used[b] && !(b in own && own[b].0 == i)
    {
      panicked := false;
      var j := 0;
      while j < g.nindirect
        invariant 0 <= j <= g.nindirect && !panicked && StoreOk(g, St())
        invariant FreedBelow(st0, i, g.ndirect + 1 + j) && Ahead(st0) && Frees(old(logged), i)
      {
        panicked := FreeSlot(i, g.ndirect + 1 + j, Word(blocks[ind], j), st0);
        j := j + 1;
      }
      assert SlotOk(g, st0, own, i, g.ndirect);
      LoggedBit(g, st0, blocks, used, dinode, logged, ind, false);
      panicked := Bfree(ind);
      forall b | 0 <= b < g.size
        ensures used[b] <==> st0.used[b] && !(b in own && own[b].0 == i)
      {
        if b in own {
          assert OwnerOk(g, st0, own, b);
        }
      }
    }

    /** Inode i is a file with contents c, no holes, and a current disk copy. */
    ghost predicate Holds(i: nat, c: seq<byte>)
      reads this
    {
      && Valid() && AllSized() && i < |inode| && !inode[i].kind.IsDev()
      && Mapped(g, St(), i) && |dinode| == |inode| && inode[i] == dinode[i]
      && ContentIs(g, St(), i, c)
    }

    /** writei accepts len bytes at off in a file of `size` bytes. */
    predicate InRange(size: nat, off: nat, len: nat) {
      off <= size && off + len < UINT && off + len <= g.MaxFile() * g.BSize()
    }

    /** One chunk of filewrite, from begin_op to end_op: at most MAXOPBLOCKS blocks
        enter the transaction. */
    method WriteChunk(i: nat, off: nat, src: seq<byte>, ghost q: nat, ghost max: nat, ghost maxop: nat,
                      ghost c: seq<byte>)
      returns (r: Outcome)
      requires Holds(i, c) && off < UINT && |src| <= max == q * g.BSize() && |src| < UINT && 2 * q + 4 <= maxop
      modifies this`blocks, this`used, this`inode, this`dinode, this`own, this`logged
      ensures Valid() && |inode| == |old(inode)| && Ahead(old(St())) && Adds({})
      ensures r.Done? ==> inode[i].kind == old(inode)[i].kind && inode[i].nlink == old(inode)[i].nlink
      ensures r.Done? || r == Fail || r == Panic
      ensures r == Fail ==> Holds(i, c) && logged == {}
      ensures r != Panic ==> (r == Fail <==> !InRange(|c|, off, |src|))
      ensures r.Done? ==>
                r.n == |src| && off + |src| < UINT && off <= |c| && Holds(i, Splice(c, off, src)) && |logged| <= maxop
      ensures r.Done? ==> forall k | 0 <= k <= g.MaxFile() && At(g, old(St()), i, k) != 0 ::
                At(g, St(), i, k) == At(g, old(St()), i, k)
      ensures forall j | 0 <= j < |inode| && j != i :: inode[j] == old(inode)[j]
      ensures r != Panic ==> OthersSame(g, old(St()), St(), i) && Transaction(g, old(St()), St(), logged)
      ensures OnlyWithin(g, old(St()), St(), i, off, off + |src|)
      ensures r == Panic ==> AllUsed() && Fills(g, old(St()), St(), i) && Missing(g, St(), i, off, off + |src|)
    {
      logged := {};
      ContentOk(g, St(), i, c);
      r := Writei(i, src, off);
      if r == Fail {
        return;
      }
      if r.Done? {
        ContentOk(g, St(), i, Splice(c, off, src));
      }
    }

    /** `max = ((MAXOPBLOCKS-1-1-2) / 2) * 512`. */
    method ChunkSize(maxop: nat) returns (q: nat, max: nat)
      requires g.Valid() && maxop >= 6
      ensures q == (maxop - 4) / 2 && max == q * g.BSize() >= 1 && 2 * q + 4 <= maxop
    {
      q := (maxop - 4) / 2;
      max := q * g.BSize();
      TimesAtLeast(1, q, g.BSize());
    }

    /** One turn of filewrite's loop, with k bytes written and `now` in the file. */
    method NextBytes(i: nat, off: nat, src: seq<byte>, k: nat, max: nat, ghost q: nat, ghost maxop: nat,
                     ghost c: seq<byte>, ghost now: seq<byte>, ghost st0: Store)
      returns (r: Outcome, next: nat, ghost after: seq<byte>)
      requires k < |src| < UINT && Holds(i, now) && now == Upto(c, off, src, k) && off + k < UINT
      requires (k > 0 ==> InRange(|c|, off, k))
      requires max == q * g.BSize() >= 1 && 2 * q + 4 <= maxop && OthersSame(g, st0, St(), i)
      modifies this`blocks, this`used, this`inode, this`dinode, this`own, this`logged
      ensures r.Done? || r == Fail || r == Panic
      ensures r != Panic ==> OthersSame(g, st0, St(), i)
      ensures r.Done? ==> next == (if |src| - k > max then k + max else |src|)
      ensures r.Done? ==> k < next <= |src| && Holds(i, after) && after == Upto(c, off, src, next)
      ensures r.Done? ==> InRange(|c|, off, next)
      ensures r != Panic ==> |logged| <= maxop
      ensures r == Fail ==> next == k && Holds(i, after) && after == now && !InRange(|c|, off, |src|)
      ensures r != Panic ==> OthersSame(g, old(St()), St(), i) && Transaction(g, old(St()), St(), logged)
      ensures r == Panic ==> AllUsed()
    {
      next := if |src| - k > max then k + max else |src|;
      var end, piece := off + k, src[k..next];
      ghost var st := St();
      r := WriteChunk(i, end, piece, q, max, maxop, now);
      if r != Panic {
        OthersTrans(g, st0, st, St(), i);
      }
      if r.Done? {
        after := Splice(now, end, piece);
        NextChunk(c, now, off, end, src, k, next, piece, after);
      } else {
        next, after := k, now;
      }
    }

    /** After so many chunks of max bytes k of n bytes are written, every chunk but the last full. */
    static predicate Chunked(chunks: nat, max: nat, k: nat, n: nat) {
      k == (if chunks * max <= n then chunks * max else n) && (chunks > 0 ==> (chunks - 1) * max < n)
    }

    static lemma ChunkMore(chunks: nat, max: nat, k: nat, n: nat)
      requires Chunked(chunks, max, k, n) && k < n
      ensures Chunked(chunks + 1, max, if n - k > max then k + max else n, n)
    {
      Multiples(chunks + 1, max);
    }

    /** `filewrite` on an inode: chunk by chunk, each chunk one transaction. Whatever
        the outcome, the bytes up to the new offset are in the file; a full write
        returns n; a write fails exactly when it starts beyond the end of the file or
        would pass the largest file size or offset; no chunk logs more than MAXOPBLOCKS blocks (`trail` are
        the states between them, `logs` what each logged); and there are no more chunks than that takes. */
    method Filewrite(i: nat, off: nat, src: seq<byte>, maxop: nat, ghost c: seq<byte>)
      returns (r: Outcome, end: nat, ghost trail: seq<Store>, ghost logs: seq<set<nat>>)
      requires Holds(i, c) && off < UINT && |src| < UINT && maxop >= 6  // otherwise a chunk holds no byte
      modifies this`blocks, this`used, this`inode, this`dinode, this`own, this`logged
      ensures r == Fail || r == Panic || r == Done(|src|)
      ensures r != Panic ==> off <= end <= off + |src| && (r == Fail <==> end < off + |src|)
      ensures r != Panic ==> Holds(i, Upto(c, off, src, end - off)) && (end > off ==> off <= |c|)
      ensures r != Panic ==> (r == Fail <==> src != [] && !InRange(|c|, off, |src|))
      ensures r != Panic ==> Chained(g, trail, logs, maxop) && trail[0] == old(St()) && trail[|logs|] == St()
      // every chunk but the last is full
      ensures r.Done? ==>
                || (|logs| - 1) * ((maxop - 4) / 2 * g.BSize()) < |src| <= |logs| * ((maxop - 4) / 2 * g.BSize())
                || (src == [] && logs == [])
      ensures r != Panic ==> OthersSame(g, old(St()), St(), i)
      ensures r == Panic ==> AllUsed()
    {
      var q, max := ChunkSize(maxop);
      end, r := off, Done(|src|);
      trail, logs := [St()], [];
      var k := 0;
      ghost var now := c;
      while k < |src|
        invariant 0 <= k <= |src| && end == off + k < UINT && (k > 0 ==> InRange(|c|, off, k))
        invariant Holds(i, now) && now == Upto(c, off, src, k) && r == Done(|src|)
        invariant OthersSame(g, old(St()), St(), i)
        invariant Chained(g, trail, logs, maxop) && trail[0] == old(St()) && trail[|logs|] == St()
        invariant Chunked(|logs|, max, k, |src|)
      {
        ChunkMore(|logs|, max, k, |src|);
        r, k, now := NextBytes(i, off, src, k, max, q, maxop, c, now, old(St()));
        end := off + k;
        if r != Panic {
          ChainMore(g, trail, logs, maxop, St(), logged);
          trail, logs := trail + [St()], logs + [logged];
        }
        if !r.Done? {
          return;
        }
        r := Done(|src|);
      }
    }
  }

  /** uint addition. */
  function Sum32(a: nat, b: nat): nat {
    if a + b < UINT then a + b else a + b - UINT
  }

  /** From each state of the trail to the next there is one transaction, of at most maxop blocks. */
  ghost predicate Chained(g: Geo, trail: seq<Store>, logs: seq<set<nat>>, maxop: nat) {
    |trail| == |logs| + 1 && forall k | 0 <= k < |logs| :: Link(g, trail, logs, maxop, k)
  }

  ghost predicate Link(g: Geo, trail: seq<Store>, logs: seq<set<nat>>, maxop: nat, k: nat) {
    k < |logs| && k + 1 < |trail| && Transaction(g, trail[k], trail[k + 1], logs[k]) && |logs[k]| <= maxop
  }

  lemma ChainMore(g: Geo, trail: seq<Store>, logs: seq<set<nat>>, maxop: nat, st: Store, log: set<nat>)
    requires Chained(g, trail, logs, maxop) && Transaction(g, trail[|logs|], st, log) && |log| <= maxop
    ensures Chained(g, trail + [st], logs + [log], maxop)
  {
    forall k | 0 <= k < |logs| + 1
      ensures Link(g, trail + [st], logs + [log], maxop, k)
    {
      assert k < |logs| ==> Link(g, trail, logs, maxop, k);
    }
  }

  ghost predicate SizesOk(g: Geo, st: Store) {
    forall j | 0 <= j < |st.inode| :: SizeOk(g, st.inode[j])
  }

  /** Inode j, on disk and in memory, and its contents. */
  ghost predicate FileSame(g: Geo, st: Store, tt: Store, j: nat)
    requires StoreOk(g, st) && SizesOk(g, st) && StoreOk(g, tt) && SizesOk(g, tt) && j < |st.inode| == |tt.inode|
  {
    tt.inode[j] == st.inode[j] && tt.dinode[j] == st.dinode[j] && Content(g, tt, j) == Content(g, st, j)
  }

  /** No file but i has changed. */
  ghost predicate OthersSame(g: Geo, st: Store, tt: Store, i: nat) {
    && StoreOk(g, st) && SizesOk(g, st) && StoreOk(g, tt) && SizesOk(g, tt) && |st.inode| == |tt.inode|
    && forall j: nat | j < |st.inode| && j != i :: FileSame(g, st, tt, j)
  }

  lemma OthersTrans(g: Geo, st: Store, tt: Store, uu: Store, i: nat)
    requires OthersSame(g, st, tt, i) && OthersSame(g, tt, uu, i)
    ensures OthersSame(g, st, uu, i)
  {
    forall j: nat | j < |st.inode| && j != i
      ensures FileSame(g, st, uu, j)
    {
      assert FileSame(g, st, tt, j) && FileSame(g, tt, uu, j);
    }
  }

  /** The contents with the first k bytes of src written. */
  function Upto(c: seq<byte>, off: nat, src: seq<byte>, k: nat): seq<byte>
    requires k <= |src|
  {
    if k == 0 || off > |c| then c else Splice(c, off, src[..k])
  }

  lemma NextChunk(c: seq<byte>, now: seq<byte>, off: nat, end: nat, src: seq<byte>, k: nat, next: nat,
                  piece: seq<byte>, after: seq<byte>)
    requires k < next <= |src| && (k > 0 ==> off <= |c|) && end == off + k <= |now|
    requires now == Upto(c, off, src, k) && piece == src[k..next] && after == Splice(now, end, piece)
    ensures off <= |c| && after == Upto(c, off, src, next)
  {
    assert src[..k] + piece == src[..next];
    if k > 0 {
      SpliceSplice(c, off, src[..k], piece);
    }
  }

  lemma SpliceSplice(c: seq<byte>, off: nat, a: seq<byte>, b: seq<byte>)
    requires off <= |c|
    ensures Splice(Splice(c, off, a), off + |a|, b) == Splice(c, off, a + b)
  {
  }

  lemma SliceJoin(c: seq<byte>, a: nat, b: nat, d: nat)
    requires a <= b <= d <= |c|
    ensures c[a..b] + c[b..d] == c[a..d]
  {
  }

  /** A stretch within one block is a stretch of the contents. */
  lemma PieceBytes(g: Geo, st: Store, i: nat, c: seq<byte>, pos: nat, bn: nat, o: nat, m: nat)
    requires StoreOk(g, st) && i < |st.inode| && ContentIs(g, st, i, c) && pos + m <= |c|
    requires bn < g.MaxFile() && pos == bn * g.BSize() + o && o + m <= g.BSize()
    ensures FileBlock(g, st, i, bn)[o..o + m] == c[pos..pos + m]
  {
    var v, w := FileBlock(g, st, i, bn)[o..o + m], c[pos..pos + m];
    forall x | 0 <= x < m
      ensures v[x] == w[x]
    {
      BlockByte(g, st, i, bn, o + x);
      assert c[pos + x] == ByteOf(g, st, i, pos + x);
    }
  }

  lemma BlockByte(g: Geo, st: Store, i: nat, bn: nat, r: nat)
    requires StoreOk(g, st) && i < |st.inode| && bn < g.MaxFile() && r < g.BSize()
    ensures bn * g.BSize() + r < g.MaxFile() * g.BSize()
    ensures ByteOf(g, st, i, bn * g.BSize() + r) == FileBlock(g, st, i, bn)[r]
  {
    var x := bn * g.BSize() + r;
    assert x < g.MaxFile() * g.BSize() by {
      TimesLess(bn, g.MaxFile(), g.BSize());
    }
    QuotIs(x, g.BSize(), bn);
  }

  /** An inode without an indirect block owns direct blocks only. */
  lemma NoIndirect(g: Geo, st: Store, own: Owners, i: nat)
    requires Inv(g, st, own) && i < |st.inode| && st.inode[i].addrs[g.ndirect] == 0
    ensures forall b | b in own && own[b].0 == i :: own[b].1 < g.ndirect
  {
    forall b | b in own && own[b].0 == i
      ensures own[b].1 < g.ndirect
    {
      assert OwnerOk(g, st, own, b);
    }
  }

  lemma TruncInv(g: Geo, st: Store, own: Owners, tt: Store, own': Owners, i: nat)
    requires Inv(g, st, own) && StoreOk(g, tt) && i < |st.inode| && tt.blocks == st.blocks
    requires |tt.inode| == |st.inode| && tt.inode == st.inode[i := tt.inode[i]]
    requires forall k | 0 <= k <= g.ndirect :: tt.inode[i].addrs[k] == 0
    requires own' == map b | b in own && own[b].0 != i :: own[b]
    requires forall b | 0 <= b < g.size :: tt.used[b] <==> st.used[b] && !(b in own && own[b].0 == i)
    ensures Inv(g, tt, own')
    ensures forall j, k | 0 <= j < |st.inode| && 0 <= k <= g.MaxFile() ::
              At(g, tt, j, k) == if j == i then 0 else At(g, st, j, k)
    ensures forall j, bn | 0 <= j < |st.inode| && j != i && 0 <= bn < g.MaxFile() ::
              FileBlock(g, tt, j, bn) == FileBlock(g, st, j, bn)
  {
    forall j, k | 0 <= j < |st.inode| && 0 <= k <= g.MaxFile()
      ensures At(g, tt, j, k) == (if j == i then 0 else At(g, st, j, k)) && SlotOk(g, tt, own', j, k)
    {
      assert SlotOk(g, st, own, j, k);
    }
    forall b | b in own'
      ensures OwnerOk(g, tt, own', b)
    {
      assert OwnerOk(g, st, own, b);
    }
  }

  // ----- which slots a write may fill

  /** Slot k is for a file block from lo up to hi, or the indirect block for one of them. */
  predicate Spans(g: Geo, lo: nat, hi: nat, k: nat) {
    if k < g.ndirect then lo <= k < hi else if k == g.ndirect then g.ndirect < hi else lo < k <= hi
  }

  /** From st to tt, no slot of inode i has changed but those for blocks lo up to hi. */
  ghost predicate Only(g: Geo, st: Store, tt: Store, i: nat, lo: nat, hi: nat)
    requires StoreOk(g, st) && StoreOk(g, tt) && i < |st.inode| && i < |tt.inode|
  {
    forall k: nat | k <= g.MaxFile() && !Spans(g, lo, hi, k) :: At(g, tt, i, k) == At(g, st, i, k)
  }

  lemma OnlyTrans(g: Geo, st: Store, tt: Store, uu: Store, i: nat, lo: nat, bn: nat)
    requires StoreOk(g, st) && StoreOk(g, tt) && StoreOk(g, uu) && i < |st.inode| && i < |tt.inode| && i < |uu.inode|
    requires lo <= bn && Only(g, st, tt, i, lo, bn) && Only(g, tt, uu, i, bn, bn + 1)
    ensures Only(g, st, uu, i, lo, bn + 1)
  {
  }

  /** Slot k is for a file block with a byte from off up to end, or the indirect block for
      one of them. */
  predicate Within(g: Geo, off: nat, end: nat, k: nat) {
    if k < g.ndirect then off < (k + 1) * g.BSize() && k * g.BSize() < end
    else if k == g.ndirect then g.ndirect * g.BSize() < end
    else off < k * g.BSize() && (k - 1) * g.BSize() < end
  }

  ghost predicate OnlyWithin(g: Geo, st: Store, tt: Store, i: nat, off: nat, end: nat)
    requires StoreOk(g, st) && StoreOk(g, tt) && i < |st.inode| && i < |tt.inode|
  {
    forall k: nat | k <= g.MaxFile() && At(g, tt, i, k) != At(g, st, i, k) :: Within(g, off, end, k)
  }

  lemma OnlyIsWithin(g: Geo, st: Store, tt: Store, i: nat, first: nat, rem: nat, hi: nat, off: nat, n: nat)
    requires StoreOk(g, st) && StoreOk(g, tt) && i < |st.inode| && i < |tt.inode| && Only(g, st, tt, i, first, hi)
    requires off == first * g.BSize() + rem && rem < g.BSize() && hi >= 1 && (hi - 1) * g.BSize() < off + n
    ensures OnlyWithin(g, st, tt, i, off, off + n)
  {
    forall k: nat | k <= g.MaxFile() && At(g, tt, i, k) != At(g, st, i, k)
      ensures Within(g, off, off + n, k)
    {
      assert Spans(g, first, hi, k);
      SpansWithin(g, first, rem, hi, off, n, k);
    }
  }

  lemma SpansWithin(g: Geo, first: nat, rem: nat, hi: nat, off: nat, n: nat, k: nat)
    requires g.Valid() && Spans(g, first, hi, k)
    requires off == first * g.BSize() + rem && rem < g.BSize() && hi >= 1 && (hi - 1) * g.BSize() < off + n
    ensures Within(g, off, off + n, k)
  {
    var bn := if k <= g.ndirect then k else k - 1;
    TimesAtLeast(bn, hi - 1, g.BSize());
    if k != g.ndirect {
      TimesLess(first, bn + 1, g.BSize());
    }
  }

  lemma OnlyNone(g: Geo, st: Store, tt: Store, i: nat, first: nat, off: nat, end: nat)
    requires StoreOk(g, st) && StoreOk(g, tt) && i < |st.inode| && i < |tt.inode| && Only(g, st, tt, i, first, first)
    requires first * g.BSize() <= off <= end
    ensures OnlyWithin(g, st, tt, i, off, end)
  {
    forall k: nat | k <= g.MaxFile() && At(g, tt, i, k) != At(g, st, i, k)
      ensures Within(g, off, end, k)
    {
      assert Spans(g, first, first, k);
      TimesLess(g.ndirect, first, g.BSize());
    }
  }

  /** File block bn is needed for the bytes up to end, and not there. */
  ghost predicate Lacks(g: Geo, st: Store, i: nat, bn: nat, end: nat)
    requires StoreOk(g, st) && i < |st.inode|
  {
    bn < g.MaxFile() && bn * g.BSize() < end && At(g, st, i, DataSlot(g, bn)) == 0
  }

  ghost predicate Missing(g: Geo, st: Store, i: nat, off: nat, end: nat)
    requires StoreOk(g, st) && i < |st.inode|
  {
    exists bn: nat :: Lacks(g, st, i, bn, end) && off < (bn + 1) * g.BSize()
  }

  lemma LacksIsMissing(g: Geo, st: Store, i: nat, first: nat, rem: nat, bn: nat, off: nat, n: nat)
    requires StoreOk(g, st) && i < |st.inode| && Lacks(g, st, i, bn, off + n) && first <= bn
    requires off == first * g.BSize() + rem && rem < g.BSize()
    ensures Missing(g, st, i, off, off + n)
  {
    TimesLess(first, bn + 1, g.BSize());
  }

  /** What a finished write leaves: the bytes, the size, no new holes, and an on-disk
      inode that is current. */
  ghost predicate WrittenTo(g: Geo, st0: Store, st: Store, i: nat, off: nat, src: seq<byte>)
    requires StoreOk(g, st0) && StoreOk(g, st) && i < |st.inode| == |st0.inode|
  {
    && Wrote(g, st0, st, i, off, src, |src|)
    && (forall j | 0 <= j < |st.inode| && j != i :: st.inode[j] == st0.inode[j])
    && st.inode[i].kind == st0.inode[i].kind && st.inode[i].nlink == st0.inode[i].nlink
    && st.inode[i].size == (if st0.inode[i].size < off + |src| then off + |src| else st0.inode[i].size)
    && (Mapped(g, st0, i) ==> Mapped(g, st, i))
    && (Mapped(g, st0, i) && st0.inode[i] == st0.dinode[i] ==> st.inode[i] == st.dinode[i])
    && forall k | 0 <= k <= g.MaxFile() && At(g, st0, i, k) != 0 :: At(g, st, i, k) == At(g, st0, i, k)
  }

  lemma WriteDone(g: Geo, st0: Store, st: Store, i: nat, off: nat, src: seq<byte>)
    requires StoreOk(g, st0) && StoreOk(g, st) && i < |st.inode| == |st0.inode| && WrittenTo(g, st0, st, i, off, src)
    requires forall j | 0 <= j < |st0.inode| :: SizeOk(g, st0.inode[j])
    requires off <= st0.inode[i].size && off + |src| <= g.MaxFile() * g.BSize()
    ensures forall j | 0 <= j < |st.inode| :: SizeOk(g, st.inode[j])
    ensures Content(g, st, i) == Splice(Content(g, st0, i), off, src)
    ensures forall j | 0 <= j < |st.inode| && j != i :: Content(g, st, j) == Content(g, st0, j)
  {
    WroteIsSplice(g, st0, st, i, off, src);
    forall j | 0 <= j < |st.inode| && j != i
      ensures Content(g, st, j) == Content(g, st0, j)
    {
      SameContent(g, st0, st, j);
    }
  }

  ghost predicate Counted(g: Geo, sz: nat, off: nat, n: nat, t: nat, a: nat, mapped: bool)
    requires g.Valid()
  {
    exists first: nat, rem: nat ::
      off == first * g.BSize() + rem && rem < g.BSize() && Pieces(g, sz, first, rem, n, n, t, a, mapped)
  }

  /** t pieces with a new blocks, two for the indirect block and one for the inode. */
  lemma WriteCost(g: Geo, sz: nat, off: nat, n: nat, t: nat, a: nat, q: nat)
    requires g.Valid() && off <= sz && n <= q * g.BSize() && Counted(g, sz, off, n, t, a, true)
    ensures t + a + 3 <= 2 * q + 4
  {
    var first: nat, rem: nat :|
      off == first * g.BSize() + rem && rem < g.BSize() && Pieces(g, sz, first, rem, n, n, t, a, true);
    if t > 0 {
      PieceBound(first, rem, g.BSize(), n, t - 1, q);
    }
  }

  lemma PieceBound(first: nat, rem: nat, bs: nat, n: nat, u: nat, q: nat)
    requires rem < bs && n <= q * bs && (first + u) * bs < first * bs + rem + n
    ensures u < if rem == 0 then q else q + 1
  {
    Distribute(first, u, bs);
    if rem == 0 {
      QuotBound(u, bs, q);
    } else {
      Distribute(q, 1, bs);
      QuotBound(u, bs, q + 1);
    }
  }

  lemma ResizedIsWritten(g: Geo, st0: Store, st: Store, tt: Store, i: nat, off: nat, src: seq<byte>,
                         first: nat, rem: nat, t: nat, a: nat)
    requires Progress(g, st0, st, i, off, src, first, rem, |src|, t, a) && StoreOk(g, tt)
    requires off == first * g.BSize() + rem && rem < g.BSize() && off <= st0.inode[i].size
    requires var grow := src != [] && off + |src| > st.inode[i].size;
             && tt.inode == (if grow then st.inode[i := st.inode[i].(size := off + |src|)] else st.inode)
             && tt.dinode == (if grow then st.dinode[i := tt.inode[i]] else st.dinode)
    requires forall k | 0 <= k <= g.MaxFile() :: At(g, tt, i, k) == At(g, st, i, k)
    requires SameFiles(g, st, tt)
    ensures WrittenTo(g, st0, tt, i, off, src) && Counted(g, st0.inode[i].size, off, |src|, t, a, Mapped(g, st0, i))
  {
    forall c | 0 <= c < g.MaxFile()
      ensures Overlaid(g, st0, tt, i, off, src, |src|, c)
    {
      assert Overlaid(g, st0, st, i, off, src, |src|, c);
    }
    if Mapped(g, st0, i) {
      forall bn | 0 <= bn < g.MaxFile() && bn * g.BSize() < tt.inode[i].size
        ensures At(g, tt, i, DataSlot(g, bn)) != 0
      {
        if bn < first {
          TimesLess(bn, first, g.BSize());
        }
      }
    }
  }

  lemma SplitAt(x: nat, n: nat) returns (q: nat, r: nat)
    requires n >= 1
    ensures x == q * n + r && r < n
  {
    q := Quot(x, n);
    r := x - q * n;
  }

  /** Sizes and on-disk inodes have no say in slots and blocks. */
  lemma NodeFrame(g: Geo, st: Store, own: Owners, i: nat, kind: Kind, nlink: int)
    requires Inv(g, st, own) && i < |st.inode|
    ensures var tt := st.(inode := st.inode[i := st.inode[i].(kind := kind, nlink := nlink)]);
            Inv(g, tt, own) && SameFiles(g, st, tt)
  {
    var tt := st.(inode := st.inode[i := st.inode[i].(kind := kind, nlink := nlink)]);
    forall j, k | 0 <= j < |st.inode| && 0 <= k <= g.MaxFile()
      ensures At(g, tt, j, k) == At(g, st, j, k) && SlotOk(g, tt, own, j, k)
    {
      assert SlotOk(g, st, own, j, k);
    }
    forall b | b in own
      ensures OwnerOk(g, tt, own, b)
    {
      assert OwnerOk(g, st, own, b);
    }
  }

  /** Contents do not depend on the disk inodes. */
  lemma SameSlots(g: Geo, st: Store, tt: Store)
    requires StoreOk(g, st) && StoreOk(g, tt) && tt.blocks == st.blocks && tt.inode == st.inode
    ensures SameFiles(g, st, tt)
  {
  }

  lemma ResizeFrame(g: Geo, st: Store, own: Owners, i: nat, sz: nat, dinode: seq<Inode>)
    requires Inv(g, st, own) && i < |st.inode| && |dinode| == |st.dinode|
    ensures var tt := st.(inode := st.inode[i := st.inode[i].(size := sz)], dinode := dinode);
            && Inv(g, tt, own)
            && (forall j, k | 0 <= j < |st.inode| && 0 <= k <= g.MaxFile() :: At(g, tt, j, k) == At(g, st, j, k))
            && SameFiles(g, st, tt)
  {
    var tt := st.(inode := st.inode[i := st.inode[i].(size := sz)], dinode := dinode);
    forall j, k | 0 <= j < |st.inode| && 0 <= k <= g.MaxFile()
      ensures At(g, tt, j, k) == At(g, st, j, k) && SlotOk(g, tt, own, j, k)
    {
      assert SlotOk(g, st, own, j, k);
    }
    forall b | b in own
      ensures OwnerOk(g, tt, own, b)
    {
      assert OwnerOk(g, st, own, b);
    }
  }

  /** writei's loop, having filled slots for the blocks it has reached only. */
  ghost predicate Reached(g: Geo, st0: Store, st: Store, i: nat, off: nat, src: seq<byte>, first: nat, rem: nat,
                          tot: nat, t: nat, a: nat)
  {
    Progress(g, st0, st, i, off, src, first, rem, tot, t, a) && |st.inode| == |st0.inode|
      && Only(g, st0, st, i, first, first + t)
  }

  /** writei's loop, out of blocks after t pieces. */
  ghost predicate Stuck(g: Geo, st0: Store, st: Store, i: nat, first: nat, t: nat, end: nat)
  {
    && StoreOk(g, st0) && StoreOk(g, st) && i < |st0.inode| == |st.inode| && Fills(g, st0, st, i)
    && Only(g, st0, st, i, first, first + t + 1) && Lacks(g, st, i, first + t, end)
  }

  lemma StuckWithin(g: Geo, st0: Store, st: Store, i: nat, first: nat, rem: nat, t: nat, off: nat, n: nat)
    requires Stuck(g, st0, st, i, first, t, off + n) && off == first * g.BSize() + rem && rem < g.BSize()
    ensures OnlyWithin(g, st0, st, i, off, off + n) && Missing(g, st, i, off, off + n)
  {
    OnlyIsWithin(g, st0, st, i, first, rem, first + t + 1, off, n);
    LacksIsMissing(g, st, i, first, rem, first + t, off, n);
  }

  lemma ReachedWithin(g: Geo, st0: Store, st: Store, i: nat, off: nat, src: seq<byte>, first: nat, rem: nat,
                      t: nat, a: nat)
    requires Reached(g, st0, st, i, off, src, first, rem, |src|, t, a) && off == first * g.BSize() + rem
    requires rem < g.BSize()
    ensures OnlyWithin(g, st0, st, i, off, off + |src|)
  {
    if t > 0 {
      OnlyIsWithin(g, st0, st, i, first, rem, first + t, off, |src|);
    } else {
      OnlyNone(g, st0, st, i, first, off, off + |src|);
    }
  }

  /** One round, as far as the slots and the contents go. */
  lemma RoundMoves(g: Geo, st0: Store, st: Store, tt: Store, i: nat, off: nat, src: seq<byte>, first: nat, rem: nat,
                   tot: nat, t: nat, a: nat, bn: nat, o: nat, m: nat, next: nat, t': nat, a': nat, ok: bool)
    requires Reached(g, st0, st, i, off, src, first, rem, tot, t, a) && StoreOk(g, tt) && tot < |src|
    requires off == first * g.BSize() + rem && rem < g.BSize() && Fills(g, st, tt, i) && Only(g, st, tt, i, bn, bn + 1)
    requires bn < g.MaxFile() && bn * g.BSize() + o == off + tot && o < g.BSize()
    requires m == if |src| - tot < g.BSize() - o then |src| - tot else g.BSize() - o
    requires At(g, tt, i, DataSlot(g, bn)) != 0 <==> ok
    requires ok ==> FileBlock(g, tt, i, bn) == Patch(FileBlock(g, st, i, bn), o, src[tot..tot + m])
    requires forall j, c | 0 <= j < |st.inode| && 0 <= c < g.MaxFile() && (j, c) != (i, bn) ::
               FileBlock(g, tt, j, c) == FileBlock(g, st, j, c)
    requires At(g, st, i, DataSlot(g, bn)) != 0 ==> tt.inode == st.inode
    requires next == tot + m && t' == t + 1 && a' == if At(g, st, i, DataSlot(g, bn)) == 0 then a + 1 else a
    ensures ok ==> Reached(g, st0, tt, i, off, src, first, rem, next, t', a')
    ensures !ok ==> Stuck(g, st0, tt, i, first, t, off + |src|)
  {
    PieceIndex(g, st0.inode[i].size, first, rem, tot, |src|, t, a, Mapped(g, st0, i), bn, o);
    OnlyTrans(g, st0, st, tt, i, first, bn);
    FillsTrans(g, st0, st, tt, i);
    if ok {
      ProgressStep(g, st0, st, tt, i, off, src, first, rem, tot, t, a, bn, o, m);
    }
  }

  /** writei's loop after tot bytes, in t pieces of which a went into new blocks. */
  ghost predicate Progress(g: Geo, st0: Store, st: Store, i: nat, off: nat, src: seq<byte>, first: nat, rem: nat,
                           tot: nat, t: nat, a: nat)
  {
    && StoreOk(g, st0) && StoreOk(g, st) && i < |st0.inode| && tot <= |src|
    && Fills(g, st0, st, i) && Wrote(g, st0, st, i, off, src, tot)
    && (tot > 0 ==> Covered(g, st, i, first, off + tot))
    && Pieces(g, st0.inode[i].size, first, rem, tot, |src|, t, a, Mapped(g, st0, i))
    && (a == 0 ==> st.inode == st0.inode)
  }

  lemma ProgressStep(g: Geo, st0: Store, st: Store, tt: Store, i: nat, off: nat, src: seq<byte>, first: nat, rem: nat,
                     tot: nat, t: nat, a: nat, bn: nat, o: nat, m: nat)
    requires Progress(g, st0, st, i, off, src, first, rem, tot, t, a) && StoreOk(g, tt) && tot < |src|
    requires off == first * g.BSize() + rem && rem < g.BSize() && Fills(g, st, tt, i)
    requires bn < g.MaxFile() && bn * g.BSize() + o == off + tot && o < g.BSize()
    requires m == if |src| - tot < g.BSize() - o then |src| - tot else g.BSize() - o
    requires At(g, tt, i, DataSlot(g, bn)) != 0
    requires FileBlock(g, tt, i, bn) == Patch(FileBlock(g, st, i, bn), o, src[tot..tot + m])
    requires forall j, c | 0 <= j < |st.inode| && 0 <= c < g.MaxFile() && (j, c) != (i, bn) ::
               FileBlock(g, tt, j, c) == FileBlock(g, st, j, c)
    requires At(g, st, i, DataSlot(g, bn)) != 0 ==> tt.inode == st.inode
    ensures Progress(g, st0, tt, i, off, src, first, rem, tot + m, t + 1,
                     if At(g, st, i, DataSlot(g, bn)) == 0 then a + 1 else a)
  {
    var sz, mapped := st0.inode[i].size, Mapped(g, st0, i);
    FillsTrans(g, st0, st, tt, i);
    WroteStep(g, st0, st, tt, i, off, src, tot, bn, o, m);
    PieceIndex(g, sz, first, rem, tot, |src|, t, a, mapped, bn, o);
    CoveredStep(g, st, tt, i, first, off, tot, bn, o, m);
    FreshIsBeyond(g, st0, st, i, bn);
    PiecesStep(g, sz, first, rem, tot, |src|, t, a, mapped, bn, o, m, At(g, st, i, DataSlot(g, bn)) == 0);
  }

  /** pos / BSIZE and pos % BSIZE. */
  method DivMod(x: nat, n: nat) returns (q: nat, r: nat)
    requires n >= 1
    ensures x == q * n + r && r < n
  {
    q := Quot(x, n);
    r := x - q * n;
  }

  /** Every block from `first` on that starts below `end` is there. */
  ghost predicate Covered(g: Geo, st: Store, i: nat, first: nat, end: nat)
    requires StoreOk(g, st) && i < |st.inode|
  {
    forall bn | first <= bn < g.MaxFile() && bn * g.BSize() < end :: At(g, st, i, DataSlot(g, bn)) != 0
  }

  lemma CoveredStep(g: Geo, st: Store, tt: Store, i: nat, first: nat, off: nat, tot: nat, bn: nat, o: nat, m: nat)
    requires StoreOk(g, st) && StoreOk(g, tt) && i < |st.inode| && Fills(g, st, tt, i)
    requires if tot > 0 then Covered(g, st, i, first, off + tot) else bn == first
    requires bn < g.MaxFile() && At(g, tt, i, DataSlot(g, bn)) != 0
    requires bn * g.BSize() + o == off + tot && o + m <= g.BSize()
    ensures Covered(g, tt, i, first, off + tot + m)
  {
    forall c | first <= c < g.MaxFile() && c * g.BSize() < off + tot + m
      ensures At(g, tt, i, DataSlot(g, c)) != 0
    {
      if c < bn {
        TimesLess(c, bn, g.BSize());
        assert At(g, st, i, DataSlot(g, c)) != 0;
      } else if c > bn {
        TimesLess(bn, c, g.BSize());
      }
    }
  }

  /** A block that was missing lies beyond the size, if all blocks below are there. */
  lemma FreshIsBeyond(g: Geo, st0: Store, st: Store, i: nat, bn: nat)
    requires StoreOk(g, st0) && StoreOk(g, st) && i < |st0.inode| && Fills(g, st0, st, i) && bn < g.MaxFile()
    ensures Mapped(g, st0, i) && At(g, st, i, DataSlot(g, bn)) == 0 ==> bn * g.BSize() >= st0.inode[i].size
  {
  }

  /** After tot of n bytes from byte `rem` of block `first` on: t pieces done, a of
      them in new blocks. */
  ghost predicate Pieces(g: Geo, sz: nat, first: nat, rem: nat, tot: nat, n: nat, t: nat, a: nat, mapped: bool)
    requires g.Valid()
  {
    var bs := g.BSize();
    var off := first * bs + rem;
    && a <= t && (t == 0 <==> tot == 0)
    && (t > 0 && tot < n ==> off + tot == (first + t) * bs)
    && (t > 0 ==> (first + t - 1) * bs < off + tot)
    && (a > 0 && mapped ==> sz < off + tot)
    && (t > 0 && rem != 0 && off <= sz && mapped ==> a < t)
  }

  lemma PieceIndex(g: Geo, sz: nat, first: nat, rem: nat, tot: nat, n: nat, t: nat, a: nat, mapped: bool, bn: nat,
                   o: nat)
    requires g.Valid() && tot < n && rem < g.BSize() && Pieces(g, sz, first, rem, tot, n, t, a, mapped)
    requires bn * g.BSize() + o == first * g.BSize() + rem + tot && o < g.BSize()
    ensures bn == first + t && o == if t == 0 then rem else 0
  {
    QuotIs(bn * g.BSize() + o, g.BSize(), bn);
    QuotIs(bn * g.BSize() + o, g.BSize(), first + t);
  }

  lemma PiecesStep(g: Geo, sz: nat, first: nat, rem: nat, tot: nat, n: nat, t: nat, a: nat, mapped: bool,
                   bn: nat, o: nat, m: nat, isNew: bool)
    requires g.Valid() && tot < n && Pieces(g, sz, first, rem, tot, n, t, a, mapped)
    requires bn == first + t && o == (if t == 0 then rem else 0) && o < g.BSize()
    requires bn * g.BSize() + o == first * g.BSize() + rem + tot
    requires m == if n - tot < g.BSize() - o then n - tot else g.BSize() - o
    requires isNew && mapped ==> bn * g.BSize() >= sz
    ensures Pieces(g, sz, first, rem, tot + m, n, t + 1, if isNew then a + 1 else a, mapped)
  {
    var bs := g.BSize();
    assert (first + (t + 1)) * bs == bn * bs + bs;
  }

  lemma WroteNothing(g: Geo, st: Store, i: nat, off: nat, src: seq<byte>)
    requires StoreOk(g, st) && i < |st.inode|
    ensures Wrote(g, st, st, i, off, src, 0)
  {
    forall c | 0 <= c < g.MaxFile()
      ensures Overlaid(g, st, st, i, off, src, 0, c)
    {
      OverlayNone(FileBlock(g, st, i, c), c * g.BSize(), off, src);
    }
  }

  lemma WroteStep(g: Geo, st0: Store, st: Store, tt: Store, i: nat, off: nat, src: seq<byte>, tot: nat, bn: nat,
                  o: nat, m: nat)
    requires StoreOk(g, st0) && StoreOk(g, st) && StoreOk(g, tt) && i < |st.inode| && |tt.inode| == |st.inode|
    requires tot + m <= |src| && Wrote(g, st0, st, i, off, src, tot)
    requires bn < g.MaxFile() && o + m <= g.BSize() && bn * g.BSize() + o == off + tot
    requires FileBlock(g, tt, i, bn) == Patch(FileBlock(g, st, i, bn), o, src[tot..tot + m])
    requires forall j, c | 0 <= j < |st.inode| && 0 <= c < g.MaxFile() && (j, c) != (i, bn) ::
               FileBlock(g, tt, j, c) == FileBlock(g, st, j, c)
    ensures Wrote(g, st0, tt, i, off, src, tot + m)
  {
    var n := tot + m;
    forall c | 0 <= c < g.MaxFile()
      ensures Overlaid(g, st0, tt, i, off, src, n, c)
    {
      assert Overlaid(g, st0, st, i, off, src, tot, c);
      OverlayStep(FileBlock(g, st0, i, c), c, g.BSize(), off, src, tot, bn, o, m);
    }
  }

  lemma OverlayStep(v: Block, c: nat, bs: nat, off: nat, src: seq<byte>, tot: nat, bn: nat, o: nat, m: nat)
    requires |v| == bs && tot + m <= |src| && o + m <= bs && bn * bs + o == off + tot
    ensures var w := Overlay(v, c * bs, off, src, tot);
            Overlay(v, c * bs, off, src, tot + m) == if c == bn then Patch(w, o, src[tot..tot + m]) else w
  {
    if c == bn {
      OverlayHere(v, c * bs, off, src, tot, o, m);
    } else {
      if c < bn { TimesLess(c, bn, bs); } else { TimesLess(bn, c, bs); }
      OverlayElsewhere(v, c * bs, off, src, tot, m);
    }
  }
}
