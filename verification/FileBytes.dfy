/** Files as byte sequences: what a sequence of block-sized pieces adds up to. */
module FileBytes {
  import opened FileSpec
  import opened Products

  /** memmove into a block. */
  function Patch(v: Block, o: nat, data: seq<byte>): (r: Block)
    requires o + |data| <= |v|
    ensures |r| == |v|
  {
    v[..o] + data + v[o + |data|..]
  }

  /** The block at byte position `base` of a file after bytes [off, off + tot) of
      the file have become src[..tot]. */
  function Overlay(v: Block, base: nat, off: nat, src: seq<byte>, tot: nat): (r: Block)
    requires tot <= |src|
    ensures |r| == |v|
  {
    seq(|v|, r requires 0 <= r < |v| => if off <= base + r < off + tot then src[base + r - off] else v[r])
  }

  lemma OverlayNone(v: Block, base: nat, off: nat, src: seq<byte>)
    ensures Overlay(v, base, off, src, 0) == v
  {
  }

  /** The next piece lies in the block at `base`. */
  lemma OverlayHere(v: Block, base: nat, off: nat, src: seq<byte>, tot: nat, o: nat, m: nat)
    requires tot + m <= |src| && o + m <= |v| && base + o == off + tot
    ensures Overlay(v, base, off, src, tot + m) == Patch(Overlay(v, base, off, src, tot), o, src[tot..tot + m])
  {
    var a, b := Overlay(v, base, off, src, tot + m), Patch(Overlay(v, base, off, src, tot), o, src[tot..tot + m]);
    forall r | 0 <= r < |v|
      ensures a[r] == b[r]
    {
    }
  }

  /** The next piece does not reach the block at `base`. */
  lemma OverlayElsewhere(v: Block, base: nat, off: nat, src: seq<byte>, tot: nat, m: nat)
    requires tot + m <= |src|
    requires base + |v| <= off + tot || off + tot + m <= base
    ensures Overlay(v, base, off, src, tot + m) == Overlay(v, base, off, src, tot)
  {
  }

  /** Integer division, by repeated subtraction. */
  function Quot(x: nat, n: nat): (q: nat)
    requires n >= 1
    ensures q * n <= x < q * n + n
  {
    if x < n then 0
    else
      var q := Quot(x - n, n);
      assert (q + 1) * n == q * n + n;
      q + 1
  }

  lemma QuotIs(x: nat, n: nat, q: nat)
    requires n >= 1 && q * n <= x < q * n + n
    ensures Quot(x, n) == q
  {
    var p := Quot(x, n);
    if p < q {
      TimesLess(p, q, n);
    } else if q < p {
      TimesLess(q, p, n);
    }
  }

  lemma QuotIsQuotient(x: nat, n: nat)
    requires n >= 1
    ensures Quot(x, n) == x / n
  {
    assert x / n * n <= x < x / n * n + n;
    QuotIs(x, n, x / n);
  }

  lemma QuotBound(q: nat, n: nat, m: nat)
    requires n >= 1 && q * n < m * n
    ensures q < m
  {
    if m <= q {
      TimesAtLeast(m, q, n);
    }
  }

  // ----- a file as a plain byte sequence

  function ByteOf(g: Geo, st: Store, i: nat, x: nat): byte
    requires StoreOk(g, st) && i < |st.inode| && x < g.MaxFile() * g.BSize()
  {
    var bn := Quot(x, g.BSize());
    QuotBound(bn, g.BSize(), g.MaxFile());
    FileBlock(g, st, i, bn)[x - bn * g.BSize()]
  }

  predicate SizeOk(g: Geo, ino: Inode) {
    ino.size <= g.MaxFile() * g.BSize()
  }

  /** The contents of file i. */
  function Content(g: Geo, st: Store, i: nat): (c: seq<byte>)
    requires StoreOk(g, st) && i < |st.inode| && SizeOk(g, st.inode[i])
    ensures |c| == st.inode[i].size
  {
    seq(st.inode[i].size, x requires 0 <= x < st.inode[i].size => ByteOf(g, st, i, x))
  }

  /** c is the contents of file i, said byte by byte. */
  ghost predicate ContentIs(g: Geo, st: Store, i: nat, c: seq<byte>)
    requires StoreOk(g, st) && i < |st.inode|
  {
    && SizeOk(g, st.inode[i]) && |c| == st.inode[i].size
    && forall x {:trigger ByteOf(g, st, i, x)} | 0 <= x < |c| :: c[x] == ByteOf(g, st, i, x)
  }

  lemma ContentOk(g: Geo, st: Store, i: nat, c: seq<byte>)
    requires StoreOk(g, st) && i < |st.inode|
    ensures ContentIs(g, st, i, c) <==> SizeOk(g, st.inode[i]) && Content(g, st, i) == c
  {
    if ContentIs(g, st, i, c) {
      forall x | 0 <= x < |c|
        ensures c[x] == Content(g, st, i)[x]
      {
        assert c[x] == ByteOf(g, st, i, x);
      }
    }
  }

  /** The plain operation: replace [off, off + |data|), growing the sequence. */
  function Splice(c: seq<byte>, off: nat, data: seq<byte>): seq<byte>
    requires off <= |c|
  {
    c[..off] + data + if off + |data| <= |c| then c[off + |data|..] else []
  }

  /** Every block below the size is there. */
  ghost predicate Mapped(g: Geo, st: Store, i: nat)
    requires StoreOk(g, st) && i < |st.inode|
  {
    forall bn | 0 <= bn < g.MaxFile() && bn * g.BSize() < st.inode[i].size :: At(g, st, i, DataSlot(g, bn)) != 0
  }

  ghost predicate Overlaid(g: Geo, st0: Store, st: Store, i: nat, off: nat, src: seq<byte>, tot: nat, c: nat)
    requires StoreOk(g, st0) && StoreOk(g, st) && i < |st.inode| && i < |st0.inode| && tot <= |src| && c < g.MaxFile()
  {
    FileBlock(g, st, i, c) == Overlay(FileBlock(g, st0, i, c), c * g.BSize(), off, src, tot)
  }

  /** All blocks of file i are st0's with src[..tot] laid over byte off on; all other
      files are as in st0. */
  ghost predicate Wrote(g: Geo, st0: Store, st: Store, i: nat, off: nat, src: seq<byte>, tot: nat)
    requires StoreOk(g, st0) && StoreOk(g, st) && i < |st.inode| && tot <= |src|
  {
    && |st.inode| == |st0.inode|
    && (forall c | 0 <= c < g.MaxFile() :: Overlaid(g, st0, st, i, off, src, tot, c))
    && (forall j, c | 0 <= j < |st.inode| && j != i && 0 <= c < g.MaxFile() ::
          FileBlock(g, st, j, c) == FileBlock(g, st0, j, c))
  }

  lemma WroteByte(g: Geo, st0: Store, st: Store, i: nat, off: nat, src: seq<byte>, x: nat)
    requires StoreOk(g, st0) && StoreOk(g, st) && i < |st.inode|
    requires Wrote(g, st0, st, i, off, src, |src|) && x < g.MaxFile() * g.BSize()
    ensures ByteOf(g, st, i, x) == if off <= x < off + |src| then src[x - off] else ByteOf(g, st0, i, x)
  {
    QuotBound(Quot(x, g.BSize()), g.BSize(), g.MaxFile());
    assert Overlaid(g, st0, st, i, off, src, |src|, Quot(x, g.BSize()));
  }

  /** Block-wise writing is splicing. */
  lemma WroteIsSplice(g: Geo, st0: Store, st: Store, i: nat, off: nat, src: seq<byte>)
    requires StoreOk(g, st0) && StoreOk(g, st) && i < |st.inode|
    requires Wrote(g, st0, st, i, off, src, |src|)
    requires SizeOk(g, st0.inode[i]) && SizeOk(g, st.inode[i]) && off <= st0.inode[i].size
    requires st.inode[i].size == if st0.inode[i].size < off + |src| then off + |src| else st0.inode[i].size
    ensures Content(g, st, i) == Splice(Content(g, st0, i), off, src)
  {
    var a, b := Content(g, st, i), Splice(Content(g, st0, i), off, src);
    assert |a| == |b|;
    forall x | 0 <= x < |a|
      ensures a[x] == b[x]
    {
      WroteByte(g, st0, st, i, off, src, x);
    }
  }

  lemma SameContent(g: Geo, st0: Store, st: Store, j: nat)
    requires StoreOk(g, st0) && StoreOk(g, st) && |st.inode| == |st0.inode| && j < |st.inode|
    requires st.inode[j].size == st0.inode[j].size && SizeOk(g, st0.inode[j])
    requires forall c | 0 <= c < g.MaxFile() :: FileBlock(g, st, j, c) == FileBlock(g, st0, j, c)
    ensures Content(g, st, j) == Content(g, st0, j)
  {
    forall x | 0 <= x < st.inode[j].size
      ensures ByteOf(g, st, j, x) == ByteOf(g, st0, j, x)
    {
      QuotBound(Quot(x, g.BSize()), g.BSize(), g.MaxFile());
    }
  }
}
