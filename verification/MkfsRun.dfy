/** What mkfs as a whole makes of the files it is given (mkfs.c, main). */
module MkfsRun {
  import opened FileSpec
  import opened FileBytes
  import opened FileOps
  import opened Mkfs
  import Files
  import Products

  /** A file of the host: its name, and the buffers that read() returns until its end. */
  datatype Member = Member(name: seq<byte>, bufs: seq<seq<byte>>)

  function Flat(bufs: seq<seq<byte>>): seq<byte> {
    if bufs == [] then [] else Flat(bufs[..|bufs| - 1]) + bufs[|bufs| - 1]
  }

  /** struct dirent: an inode number and DIRSIZ bytes of name, filled up with zeros. */
  function Dirent(inum: nat, name: seq<byte>): (d: seq<byte>)
    ensures |d| == 16
  {
    [(inum % 0x100) as byte, (inum / 0x100 % 0x100) as byte]
    + seq(14, k requires 0 <= k => if k < |name| then name[k] else 0)
  }

  lemma DirentBack(inum: nat, name: seq<byte>)
    requires inum < 0x1_0000
    ensures var d := Dirent(inum, name);
            && d[0] as int + 0x100 * d[1] as int == inum
            && forall k | 0 <= k < 14 :: d[2 + k] == if k < |name| then name[k] else 0
  {
  }

  /** The root directory after n of the files: itself twice, and a line for each. */
  function Lines(ms: seq<Member>, n: nat): (r: seq<byte>)
    requires n <= |ms|
    ensures |r| == 16 * (n + 2)
  {
    if n == 0 then Dirent(1, ['.' as byte]) + Dirent(1, ['.' as byte, '.' as byte])
    else Lines(ms, n - 1) + Dirent(1 + n, ms[n - 1].name)
  }

  /** Behind the two lines for itself, line k of the root directory has the number of inode 2 + k and
      the name of file k. */
  lemma {:induction false} LineAt(ms: seq<Member>, n: nat, k: nat)
    requires k < n <= |ms| && 2 + k < 0x1_0000
    ensures var r, o := Lines(ms, n), 16 * (k + 2);
            && r[o] as int + 0x100 * r[o + 1] as int == 2 + k
            && (forall l | 0 <= l < 14 :: r[o + 2 + l] == if l < |ms[k].name| then ms[k].name[l] else 0)
            && r[0] == r[16] == 1 && r[1] == r[17] == 0 && r[2] == r[18] == r[19] == '.' as byte && r[3] == r[20] == 0
    decreases n
  {
    if k + 1 < n {
      LineAt(ms, n - 1, k);
    } else {
      DirentBack(2 + k, ms[k].name);
      TwoFirst(ms, n - 1);
    }
  }

  lemma {:induction false} TwoFirst(ms: seq<Member>, n: nat)
    requires n <= |ms|
    ensures var r := Lines(ms, n);
            r[0] == r[16] == 1 && r[1] == r[17] == 0 && r[2] == r[18] == r[19] == '.' as byte && r[3] == r[20] == 0
    decreases n
  {
    if n > 0 {
      TwoFirst(ms, n - 1);
    }
  }

  const NOTHING := File(Kind(0, 0, 0), 0, [])

  /** Inode j once n files are there and the root directory has the contents `root`. */
  function Inodes(ms: seq<Member>, n: nat, root: seq<byte>, j: nat): File
    requires n <= |ms|
  {
    if j == 1 then File(Kind(1, 0, 0), 1, root)  // T_DIR
    else if 2 <= j < 2 + n then File(Kind(2, 0, 0), 1, Flat(ms[j - 2].bufs))  // T_FILE
    else NOTHING
  }

  ghost function Expected(ms: seq<Member>, n: nat, root: seq<byte>, ninodes: nat): (files: seq<File>)
    requires n <= |ms|
    ensures |files| == ninodes && forall j | 0 <= j < ninodes :: files[j] == Inodes(ms, n, root, j)
  {
    seq(ninodes, j requires 0 <= j => Inodes(ms, n, root, j))
  }

  /** The image is in order, these are its files, there are zeros behind their ends, and inodes not
      given out yet are blank. */
  ghost predicate Has(im: Image, files: seq<File>)
    reads im
  {
    && im.Valid() && ZeroTails(im.g, im.St()) && FilesAre(im.g, im.St(), files)
    && forall j | im.freeinode <= j < |im.dinode| :: im.dinode[j] == Blank(im.g)
  }

  /** iappend of a file that has been given out. */
  method Append(im: Image, i: nat, src: seq<byte>, ghost files: seq<File>) returns (ok: bool)
    requires Has(im, files) && i < |files| && i < im.freeinode
    modifies im`blocks, im`freeblock, im`own, im`dinode
    ensures ok ==> Has(im, files[i := files[i].(data := files[i].data + src)])
    ensures !ok ==> |files[i].data| + |src| > im.g.MaxFile() * im.g.BSize() || im.freeblock == im.g.size
  {
    assert FileIs(im.g, im.St(), i, files[i]);
    ghost var st := im.St();
    ok := im.Iappend(i, src);
    if ok {
      ghost var more := files[i := files[i].(data := files[i].data + src)];
      forall j: nat | j < |more|
        ensures FileIs(im.g, im.St(), j, more[j])
      {
        assert FileIs(im.g, st, j, files[j]);
      }
    }
  }

  /** ialloc. */
  method Allocate(im: Image, typ: int, ghost files: seq<File>) returns (inum: nat)
    requires Has(im, files) && im.freeinode < |files|
    modifies im`dinode, im`freeinode
    ensures inum == old(im.freeinode) && im.freeinode == inum + 1
    ensures Has(im, files[inum := File(Kind(typ, 0, 0), 1, [])])
  {
    ghost var st := im.St();
    inum := im.Ialloc(typ);
    ghost var more := files[inum := File(Kind(typ, 0, 0), 1, [])];
    forall j: nat | j < |more|
      ensures FileIs(im.g, im.St(), j, more[j])
    {
      assert FileIs(im.g, st, j, files[j]);
    }
  }

  /** The loop of read and iappend over one file of the host. */
  method Copy(im: Image, i: nat, bufs: seq<seq<byte>>, ghost files: seq<File>) returns (ok: bool)
    requires Has(im, files) && i < |files| && i < im.freeinode
    modifies im`blocks, im`freeblock, im`own, im`dinode
    ensures ok ==> Has(im, files[i := files[i].(data := files[i].data + Flat(bufs))])
    ensures !ok ==> |files[i].data| + |Flat(bufs)| > im.g.MaxFile() * im.g.BSize() || im.freeblock == im.g.size
  {
    var k := 0;
    ok := true;
    ghost var now := files;
    assert files[i].data + Flat(bufs[..0]) == files[i].data;
    while k < |bufs|
      invariant 0 <= k <= |bufs| && Has(im, now)
      invariant now == files[i := files[i].(data := files[i].data + Flat(bufs[..k]))]
    {
      assert bufs[..k + 1][..k] == bufs[..k];
      ok := Append(im, i, bufs[k], now);
      if !ok {
        FlatGrows(bufs, k + 1);
        return;
      }
      assert (files[i].data + Flat(bufs[..k])) + bufs[k] == files[i].data + Flat(bufs[..k + 1]);
      now := now[i := now[i].(data := now[i].data + bufs[k])];
      k := k + 1;
    }
    assert bufs[..k] == bufs;
  }

  lemma {:induction false} FlatGrows(bufs: seq<seq<byte>>, k: nat)
    requires k <= |bufs|
    ensures |Flat(bufs[..k])| <= |Flat(bufs)|
    decreases |bufs|
  {
    if k < |bufs| {
      FlatGrows(bufs[..|bufs| - 1], k);
      assert bufs[..|bufs| - 1][..k] == bufs[..k];
    } else {
      assert bufs[..k] == bufs;
    }
  }

  /** An inode, a line in the root directory, and the bytes. */
  lemma OneMore(ms: seq<Member>, n: nat, ninodes: nat)
    requires n < |ms| && 2 + n < ninodes
    ensures var f0 := Expected(ms, n, Lines(ms, n), ninodes);
            var f1 := f0[2 + n := File(Kind(T_FILE, 0, 0), 1, [])];
            var f2 := f1[1 := f1[1].(data := f1[1].data + Dirent(2 + n, ms[n].name))];
            var f3 := f2[2 + n := f2[2 + n].(data := f2[2 + n].data + Flat(ms[n].bufs))];
            f3 == Expected(ms, n + 1, Lines(ms, n + 1), ninodes) && f2[2 + n].data == [] && f1[1].data == Lines(ms, n)
  {
    var f0 := Expected(ms, n, Lines(ms, n), ninodes);
    var f1 := f0[2 + n := File(Kind(T_FILE, 0, 0), 1, [])];
    var f2 := f1[1 := f1[1].(data := f1[1].data + Dirent(2 + n, ms[n].name))];
    assert [] + Flat(ms[n].bufs) == Flat(ms[n].bufs);
    assert f2[1].data == Lines(ms, n + 1);
    SameFrom(f2[2 + n := f2[2 + n].(data := Flat(ms[n].bufs))], ms, n, ninodes);
  }

  lemma SameFrom(f: seq<File>, ms: seq<Member>, n: nat, ninodes: nat)
    requires n < |ms| && 2 + n < ninodes && |f| == ninodes && f[1] == Inodes(ms, n + 1, Lines(ms, n + 1), 1)
    requires f[2 + n] == Inodes(ms, n + 1, Lines(ms, n + 1), 2 + n)
    requires forall j | 0 <= j < ninodes && j != 1 && j != 2 + n :: f[j] == Inodes(ms, n, Lines(ms, n), j)
    ensures f == Expected(ms, n + 1, Lines(ms, n + 1), ninodes)
  {
    var g := Expected(ms, n + 1, Lines(ms, n + 1), ninodes);
    forall j | 0 <= j < ninodes
      ensures f[j] == g[j]
    {
    }
  }

  /** One file of the host. */
  method AddFile(im: Image, ms: seq<Member>, n: nat, ghost ninodes: nat) returns (ok: bool)
    requires n < |ms| && 2 + n < ninodes && im.freeinode == 2 + n
    requires Has(im, Expected(ms, n, Lines(ms, n), ninodes))
    modifies im`blocks, im`freeblock, im`own, im`dinode, im`freeinode
    ensures ok ==> im.freeinode == 3 + n && Has(im, Expected(ms, n + 1, Lines(ms, n + 1), ninodes))
    ensures !ok ==> || im.freeblock == im.g.size || |Flat(ms[n].bufs)| > im.g.MaxFile() * im.g.BSize()
                    || 16 * (n + 3) > im.g.MaxFile() * im.g.BSize()
  {
    OneMore(ms, n, ninodes);
    ghost var files := Expected(ms, n, Lines(ms, n), ninodes);
    var inum := Allocate(im, T_FILE, files);
    files := files[inum := File(Kind(T_FILE, 0, 0), 1, [])];
    ok := Append(im, 1, Dirent(inum, ms[n].name), files);
    if ok {
      files := files[1 := files[1].(data := files[1].data + Dirent(inum, ms[n].name))];
      ok := Copy(im, inum, ms[n].bufs, files);
    }
  }

  /** The zeroed image. */
  method Zero(g: Geo, ninodes: nat) returns (im: Image)
    requires g.Valid() && 2 <= ninodes
    ensures fresh(im) && im.g == g && im.freeinode == 1 && Has(im, seq(ninodes, j => NOTHING))
  {
    im := new Image(g, ninodes);
    ghost var files := seq(ninodes, j => NOTHING);
    forall j: nat | j < ninodes
      ensures FileIs(g, im.St(), j, files[j])
    {
      assert im.dinode[j] == Blank(g);
    }
  }

  lemma TwoLines(ms: seq<Member>, ninodes: nat)
    requires 2 <= ninodes
    ensures var f0 := seq(ninodes, j => NOTHING);
            var f1 := f0[1 := File(Kind(T_DIR, 0, 0), 1, [])];
            var f2 := f1[1 := f1[1].(data := f1[1].data + Dirent(1, ['.' as byte]))];
            var f3 := f2[1 := f2[1].(data := f2[1].data + Dirent(1, ['.' as byte, '.' as byte]))];
            f3 == Expected(ms, 0, Lines(ms, 0), ninodes) && |f1[1].data| == 0 && |f2[1].data| == 16
  {
    assert [] + Dirent(1, ['.' as byte]) == Dirent(1, ['.' as byte]);
  }

  /** The image with a root directory that has its two lines. */
  method Start(g: Geo, ghost ms: seq<Member>, ninodes: nat) returns (ok: bool, im: Image)
    requires g.Valid() && 2 <= ninodes
    ensures fresh(im) && im.g == g
    ensures ok ==> im.freeinode == 2 && Has(im, Expected(ms, 0, Lines(ms, 0), ninodes))
    ensures !ok ==> im.freeblock == g.size || 32 > g.MaxFile() * g.BSize()
  {
    im := Zero(g, ninodes);
    TwoLines(ms, ninodes);
    ghost var files := seq(ninodes, j => NOTHING);
    var root := Allocate(im, T_DIR, files);
    files := files[1 := File(Kind(T_DIR, 0, 0), 1, [])];
    ok := Append(im, root, Dirent(root, ['.' as byte]), files);
    if ok {
      files := files[1 := files[1].(data := files[1].data + Dirent(1, ['.' as byte]))];
      ok := Append(im, root, Dirent(root, ['.' as byte, '.' as byte]), files);
    }
  }

  /** The bytes up to the next block boundary above n, all zero. */
  function Padding(n: nat, size: nat): (z: seq<byte>)
    requires size >= 1
    ensures (n + |z|) % size == 0 && 0 < |z| <= size && forall x | 0 <= x < |z| :: z[x] == 0
  {
    PaddingLength(n, size);
    seq((Quot(n, size) + 1) * size - n, x => 0)
  }

  lemma PaddingLength(n: nat, size: nat)
    requires size >= 1
    ensures n < (Quot(n, size) + 1) * size <= n + size && (Quot(n, size) + 1) * size % size == 0
  {
    Multiple(Quot(n, size) + 1, size);
  }

  lemma {:induction false} Multiple(k: nat, n: nat)
    requires n >= 1
    ensures k * n % n == 0
  {
    Share(k * n, n);
    if k * n % n != 0 {
      var q := k * n / n;
      if k <= q {
        Products.TimesAtLeast(k, q, n);
      } else {
        Products.TimesAtLeast(q + 1, k, n);
      }
    }
  }

  /** The size of the root directory is rounded up. */
  method Round(im: Image, ghost ms: seq<Member>, ghost ninodes: nat)
    requires 2 <= ninodes && 16 * (|ms| + 2) != im.g.MaxFile() * im.g.BSize()
    requires Has(im, Expected(ms, |ms|, Lines(ms, |ms|), ninodes))
    modifies im`dinode
    ensures Growing(im.g, im.St(), im.own, im.freeblock)
    ensures FilesAre(im.g, im.St(),
                     Expected(ms, |ms|, Lines(ms, |ms|) + Padding(|Lines(ms, |ms|)|, im.g.BSize()), ninodes))
  {
    ghost var st, was := im.St(), Expected(ms, |ms|, Lines(ms, |ms|), ninodes);
    assert FileIs(im.g, st, 1, was[1]);
    im.FixRoot(1);
    ghost var now := Expected(ms, |ms|, Lines(ms, |ms|) + Padding(|Lines(ms, |ms|)|, im.g.BSize()), ninodes);
    forall j: nat | j < ninodes
      ensures FileIs(im.g, im.St(), j, now[j])
    {
      assert FileIs(im.g, st, j, was[j]);
    }
  }

  /** MKFS MAKES A FILE SYSTEM. From any files of the host it makes an image in which every block has
      one owner and the bitmap marks the blocks in use, the root directory has a line for each file
      and reads as zeros up to a block boundary, every file has the bytes of the host's and one link,
      and every other inode is free. It fails only if the blocks, the one bitmap block or the largest
      size of a file do not suffice. */
  method Make(g: Geo, ms: seq<Member>, ninodes: nat) returns (ok: bool, im: Image, used: seq<bool>)
    requires g.Valid() && 2 + |ms| <= ninodes && 16 * (|ms| + 2) != g.MaxFile() * g.BSize()
    ensures fresh(im) && im.g == g
    ensures ok ==> Whole(g, Store(im.blocks, used, im.dinode, im.dinode))
    ensures ok ==> FilesAre(g, Store(im.blocks, used, im.dinode, im.dinode),
                            Expected(ms, |ms|, Lines(ms, |ms|) + Padding(|Lines(ms, |ms|)|, g.BSize()), ninodes))
    ensures !ok ==> || im.freeblock == g.size || im.freeblock >= g.bpb || 16 * (|ms| + 2) > g.MaxFile() * g.BSize()
                    || exists k | 0 <= k < |ms| :: |Flat(ms[k].bufs)| > g.MaxFile() * g.BSize()
  {
    used := [];
    ok, im := Start(g, ms, ninodes);
    if !ok {
      return;
    }
    var n := 0;
    while n < |ms|
      invariant 0 <= n <= |ms| && fresh(im) && im.g == g && im.freeinode == 2 + n
      invariant Has(im, Expected(ms, n, Lines(ms, n), ninodes))
    {
      ok := AddFile(im, ms, n, ninodes);
      if !ok {
        return;
      }
      n := n + 1;
    }
    Round(im, ms, ninodes);
    ok, used := im.Balloc();
  }
}
