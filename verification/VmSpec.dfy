/** Frames, two-level page tables and who uses each frame (vm.c, kalloc.c). Virtual page
    (i, j) is entry j of the table named by directory entry i. */
module VmSpec {
  const N := 1024                      // NPDENTRIES == NPTENTRIES
  const U := 512                       // directory entries below KERNBASE
  const PGSIZE := 4096
  const KERNBASE := 0x8000_0000
  const PHYSTOP := 0xE00_0000
  const PTE_W := 2

  datatype Pte = Absent | Map(frame: nat, flags: nat)
  datatype Page = Junk | Bytes(b: seq<nat>) | Table(e: seq<Pte>)

  /** What a frame is used for. */
  datatype Use = Free(i: nat) | Dir | Tab(d: nat, i: nat) | User(d: nat, i: nat, j: nat) | Other

  /** Memory, the free list (top last), the use of every frame, the live directories, and the
      first address behind the kernel. */
  datatype View = View(pages: map<nat, Page>, free: seq<nat>, own: map<nat, Use>, live: set<nat>, end: nat)

  /** The kernel's address of frame f. */
  function Address(f: nat): nat {
    KERNBASE + PGSIZE * f
  }

  /** A frame that kfree accepts. */
  predicate InMemory(f: nat, end: nat) {
    end <= Address(f) && PGSIZE * f < PHYSTOP
  }

  predicate IsTable(pages: map<nat, Page>, f: nat) {
    f in pages && pages[f].Table? && |pages[f].e| == N
  }

  /** The entry that maps page (i, j) in directory d. */
  function Ent(pages: map<nat, Page>, d: nat, i: nat, j: nat): Pte {
    if IsTable(pages, d) && i < N && pages[d].e[i].Map? && IsTable(pages, pages[d].e[i].frame) && j < N
    then pages[pages[d].e[i].frame].e[j] else Absent
  }

  // ----- the invariant

  predicate Used(s: View, f: nat, u: Use) {
    f in s.own && s.own[f] == u
  }

  predicate DirOk(s: View, d: nat) {
    IsTable(s.pages, d) && Used(s, d, Dir)
  }

  predicate TabOk(s: View, d: nat, i: nat)
    requires IsTable(s.pages, d) && i < N
  {
    var p := s.pages[d].e[i];
    p.Map? ==> IsTable(s.pages, p.frame) && Used(s, p.frame, Tab(d, i))
  }

  predicate UserOk(s: View, d: nat, i: nat, j: nat) {
    var p := Ent(s.pages, d, i, j);
    p.Map? ==> p.frame in s.pages && s.pages[p.frame].Bytes? && Used(s, p.frame, User(d, i, j))
  }

  predicate FreeOk(s: View, k: nat)
    requires k < |s.free|
  {
    s.free[k] in s.pages && Used(s, s.free[k], Free(k))
  }

  /** A frame's use is real: nothing leaks. */
  predicate UseOk(s: View, f: nat)
    requires f in s.own
  {
    match s.own[f]
    case Free(k) => k < |s.free| && s.free[k] == f
    case Dir => f in s.live
    case Tab(d, i) => d in s.live && i < N && IsTable(s.pages, d) && s.pages[d].e[i].Map? && s.pages[d].e[i].frame == f
    case User(d, i, j) => d in s.live && i < U && j < N && Ent(s.pages, d, i, j).Map?
                          && Ent(s.pages, d, i, j).frame == f
    case Other => f in s.pages
  }

  ghost predicate Inv(s: View) {
    && (forall d | d in s.live :: DirOk(s, d))
    && (forall d, i: nat | d in s.live && i < N :: TabOk(s, d, i))
    && (forall d, i: nat, j: nat | d in s.live && i < U && j < N :: UserOk(s, d, i, j))
    && (forall k: nat | k < |s.free| :: FreeOk(s, k))
    && (forall f | f in s.own :: UseOk(s, f))
    && (forall f {:trigger InMemory(f, s.end)} | f in s.own :: InMemory(f, s.end))
  }

  /** Nothing that the page tables say has changed. */
  ghost predicate SameEnts(s: View, pages: map<nat, Page>) {
    forall d, i: nat, j: nat | d in s.live && i < N && j < N :: Ent(pages, d, i, j) == Ent(s.pages, d, i, j)
  }

  // ----- single frames change hands

  /** The top of the free list is taken. */
  function Take(s: View): View
    requires s.free != []
  {
    var f := s.free[|s.free| - 1];
    s.(free := s.free[..|s.free| - 1], own := s.own[f := Other])
  }

  lemma TakeInv(s: View)
    requires Inv(s) && s.free != []
    ensures Inv(Take(s)) && Used(Take(s), s.free[|s.free| - 1], Other)
  {
    var t := Take(s);
    assert FreeOk(s, |s.free| - 1);
    forall k: nat | k < |t.free| ensures FreeOk(t, k) { assert FreeOk(s, k); }
    forall d | d in t.live ensures DirOk(t, d) { assert DirOk(s, d); }
    forall d, i: nat | d in t.live && i < N ensures TabOk(t, d, i) { assert DirOk(s, d) && TabOk(s, d, i); }
    forall d, i: nat, j: nat | d in t.live && i < U && j < N ensures UserOk(t, d, i, j) { assert UserOk(s, d, i, j); }
    forall f | f in t.own ensures UseOk(t, f) { assert f in s.own && UseOk(s, f); }
  }

  /** A frame nobody uses goes on the free list, overwritten. */
  function Give(s: View, f: nat): View {
    s.(pages := s.pages[f := Junk], free := s.free + [f], own := s.own[f := Free(|s.free|)])
  }

  lemma OtherFrame(s: View, f: nat, p: Page)
    requires Inv(s) && Used(s, f, Other)
    ensures forall d | d in s.live :: d != f && IsTable(s.pages[f := p], d) && s.pages[f := p][d] == s.pages[d]
    ensures SameEnts(s, s.pages[f := p])
  {
    forall d | d in s.live
      ensures d != f && IsTable(s.pages[f := p], d) && s.pages[f := p][d] == s.pages[d]
    {
      assert DirOk(s, d);
    }
    forall d, i: nat, j: nat | d in s.live && i < N && j < N
      ensures Ent(s.pages[f := p], d, i, j) == Ent(s.pages, d, i, j)
    {
      assert DirOk(s, d) && TabOk(s, d, i);
    }
  }

  /** A frame nobody uses may be overwritten. */
  lemma WriteInv(s: View, f: nat, p: Page)
    requires Inv(s) && Used(s, f, Other)
    ensures Inv(s.(pages := s.pages[f := p])) && SameEnts(s, s.pages[f := p])
  {
    var t := s.(pages := s.pages[f := p]);
    OtherFrame(s, f, p);
    forall k: nat | k < |t.free| ensures FreeOk(t, k) { assert FreeOk(s, k); }
    forall d | d in t.live ensures DirOk(t, d) { assert DirOk(s, d); }
    forall d, i: nat | d in t.live && i < N ensures TabOk(t, d, i) { assert DirOk(s, d) && TabOk(s, d, i); }
    forall d, i: nat, j: nat | d in t.live && i < U && j < N ensures UserOk(t, d, i, j) { assert UserOk(s, d, i, j); }
    forall g | g in t.own ensures UseOk(t, g) { assert UseOk(s, g); }
  }

  lemma GiveInv(s: View, f: nat)
    requires Inv(s) && Used(s, f, Other)
    ensures Inv(Give(s, f)) && SameEnts(s, Give(s, f).pages)
  {
    var r := s.(pages := s.pages[f := Junk]);
    WriteInv(s, f, Junk);
    var t := Give(s, f);
    forall k: nat | k < |t.free| ensures FreeOk(t, k) { assert k < |r.free| ==> FreeOk(r, k); }
    forall d | d in t.live ensures DirOk(t, d) { assert DirOk(r, d); }
    forall d, i: nat | d in t.live && i < N ensures TabOk(t, d, i) { assert DirOk(r, d) && TabOk(r, d, i); }
    forall d, i: nat, j: nat | d in t.live && i < U && j < N ensures UserOk(t, d, i, j) { assert UserOk(r, d, i, j); }
    forall g | g in t.own ensures UseOk(t, g) { assert g in r.own && UseOk(r, g); }
  }

  // ----- tables and entries

  function Blank(): (p: Page)
    ensures p.Table? && |p.e| == N && forall j | 0 <= j < N :: p.e[j] == Absent
  {
    Table(seq(N, k => Absent))
  }

  function PutEntry(pages: map<nat, Page>, t: nat, j: nat, p: Pte): map<nat, Page>
    requires IsTable(pages, t) && j < N
  {
    pages[t := Table(pages[t].e[j := p])]
  }

  /** Directory entry i of d comes to name the blank table t. */
  function Hang(s: View, d: nat, i: nat, t: nat, flags: nat): View
    requires IsTable(s.pages, d) && i < N
  {
    s.(pages := PutEntry(s.pages, d, i, Map(t, flags)), own := s.own[t := Tab(d, i)])
  }

  lemma HangInv(s: View, d: nat, i: nat, t: nat, flags: nat)
    requires Inv(s) && d in s.live && i < N && DirOk(s, d) && s.pages[d].e[i] == Absent
    requires Used(s, t, Other) && t in s.pages && s.pages[t] == Blank()
    ensures Inv(Hang(s, d, i, t, flags)) && SameEnts(s, Hang(s, d, i, t, flags).pages)
  {
    var r := Hang(s, d, i, t, flags);
    forall c | c in r.live ensures DirOk(r, c) { assert DirOk(s, c); }
    forall c, k: nat | c in r.live && k < N ensures TabOk(r, c, k) { assert DirOk(s, c) && TabOk(s, c, k); }
    forall c, k: nat, j: nat | c in r.live && k < N && j < N
      ensures Ent(r.pages, c, k, j) == Ent(s.pages, c, k, j)
    {
      assert DirOk(s, c) && TabOk(s, c, k);
    }
    forall k: nat | k < |r.free| ensures FreeOk(r, k) { assert FreeOk(s, k); }
    forall c, k: nat, j: nat | c in r.live && k < U && j < N ensures UserOk(r, c, k, j) { assert UserOk(s, c, k, j); }
    forall f | f in r.own ensures UseOk(r, f) { assert f in s.own && UseOk(s, f); }
  }

  function TableOf(s: View, d: nat, i: nat): nat
    requires IsTable(s.pages, d) && i < N && s.pages[d].e[i].Map?
  {
    s.pages[d].e[i].frame
  }

  /** The table of (d, i) is nobody else's, so writing entry j changes page (d, i, j) only. */
  lemma PutEnt(s: View, d: nat, i: nat, j: nat, p: Pte)
    requires Inv(s) && d in s.live && i < N && j < N && DirOk(s, d) && s.pages[d].e[i].Map?
    ensures IsTable(s.pages, TableOf(s, d, i))
    ensures var pages := PutEntry(s.pages, TableOf(s, d, i), j, p);
            && (forall c | c in s.live :: IsTable(pages, c) && pages[c] == s.pages[c])
            && forall c, k: nat, l: nat | c in s.live && k < N && l < N ::
                 Ent(pages, c, k, l) == if c == d && k == i && l == j then p else Ent(s.pages, c, k, l)
  {
    assert TabOk(s, d, i);
    var t := TableOf(s, d, i);
    var pages := PutEntry(s.pages, t, j, p);
    forall c | c in s.live
      ensures IsTable(pages, c) && pages[c] == s.pages[c]
    {
      assert DirOk(s, c);
    }
    forall c, k: nat, l: nat | c in s.live && k < N && l < N
      ensures Ent(pages, c, k, l) == if c == d && k == i && l == j then p else Ent(s.pages, c, k, l)
    {
      assert DirOk(s, c) && TabOk(s, c, k);
    }
  }

  /** Page (d, i, j) is mapped; a user page comes to own its frame. */
  function Install(s: View, d: nat, i: nat, j: nat, p: Pte): View
    requires IsTable(s.pages, d) && i < N && j < N && s.pages[d].e[i].Map? && IsTable(s.pages, TableOf(s, d, i))
    requires p.Map?
  {
    s.(pages := PutEntry(s.pages, TableOf(s, d, i), j, p),
       own := if i < U then s.own[p.frame := User(d, i, j)] else s.own)
  }

  lemma InstallInv(s: View, d: nat, i: nat, j: nat, p: Pte)
    requires Inv(s) && d in s.live && i < N && j < N && DirOk(s, d) && s.pages[d].e[i].Map? && p.Map?
    requires Ent(s.pages, d, i, j) == Absent
    requires i < U ==> Used(s, p.frame, Other) && p.frame in s.pages && s.pages[p.frame].Bytes?
    ensures IsTable(s.pages, TableOf(s, d, i)) && Inv(Install(s, d, i, j, p))
  {
    PutEnt(s, d, i, j, p);
    var r := Install(s, d, i, j, p);
    assert TabOk(s, d, i);
    forall c | c in r.live ensures DirOk(r, c) { assert DirOk(s, c); }
    forall c, k: nat | c in r.live && k < N ensures TabOk(r, c, k) { assert DirOk(s, c) && TabOk(s, c, k); }
    forall k: nat | k < |r.free| ensures FreeOk(r, k) { assert FreeOk(s, k); }
    forall c, k: nat, l: nat | c in r.live && k < U && l < N ensures UserOk(r, c, k, l) { assert UserOk(s, c, k, l); }
    forall f | f in r.own ensures UseOk(r, f) { assert f in s.own && UseOk(s, f); }
  }

  /** A user page is unmapped and its frame given up. */
  function Remove(s: View, d: nat, i: nat, j: nat): View
    requires IsTable(s.pages, d) && i < N && j < N && s.pages[d].e[i].Map? && IsTable(s.pages, TableOf(s, d, i))
  {
    var p := s.pages[TableOf(s, d, i)].e[j];
    s.(pages := PutEntry(s.pages, TableOf(s, d, i), j, Absent), own := if p.Map? then s.own[p.frame := Other]
      else s.own)
  }

  lemma RemoveInv(s: View, d: nat, i: nat, j: nat)
    requires Inv(s) && d in s.live && i < U && j < N && DirOk(s, d) && s.pages[d].e[i].Map?
    requires Ent(s.pages, d, i, j).Map?
    ensures IsTable(s.pages, TableOf(s, d, i)) && Inv(Remove(s, d, i, j))
    ensures Used(Remove(s, d, i, j), Ent(s.pages, d, i, j).frame, Other)
  {
    PutEnt(s, d, i, j, Absent);
    var r := Remove(s, d, i, j);
    assert TabOk(s, d, i) && UserOk(s, d, i, j);
    forall c | c in r.live ensures DirOk(r, c) { assert DirOk(s, c); }
    forall c, k: nat | c in r.live && k < N ensures TabOk(r, c, k) { assert DirOk(s, c) && TabOk(s, c, k); }
    forall k: nat | k < |r.free| ensures FreeOk(r, k) { assert FreeOk(s, k); }
    forall c, k: nat, l: nat | c in r.live && k < U && l < N ensures UserOk(r, c, k, l) { assert UserOk(s, c, k, l); }
    forall f | f in r.own ensures UseOk(r, f) { assert UseOk(s, f); }
  }

  // ----- directories

  function NewDir(s: View, d: nat): View {
    s.(own := s.own[d := Dir], live := s.live + {d})
  }

  lemma NewDirInv(s: View, d: nat)
    requires Inv(s) && Used(s, d, Other) && d in s.pages && s.pages[d] == Blank()
    ensures Inv(NewDir(s, d)) && d !in s.live
  {
    var r := NewDir(s, d);
    assert d in s.live ==> DirOk(s, d);
    forall c | c in r.live ensures DirOk(r, c) { assert c in s.live ==> DirOk(s, c); }
    forall c, k: nat | c in r.live
      && k < N ensures TabOk(r, c, k) { assert c in s.live ==> DirOk(s, c) && TabOk(s, c, k); }
    forall k: nat | k < |r.free| ensures FreeOk(r, k) { assert FreeOk(s, k); }
    forall c, k: nat, l: nat | c in r.live && k < U
      && l < N ensures UserOk(r, c, k, l) { assert c in s.live ==> UserOk(s, c, k, l); }
    forall f | f in r.own ensures UseOk(r, f) { assert f in s.own && UseOk(s, f); }
  }

  predicate OfDir(u: Use, f: nat, d: nat) {
    (u == Dir && f == d) || (u.Tab? && u.d == d)
  }

  /** The directory d, with no user page left, and its tables are given up. */
  ghost function Drop(s: View, d: nat): View {
    s.(own := map f | f in s.own :: if OfDir(s.own[f], f, d) then Other else s.own[f], live := s.live - {d})
  }

  lemma DropInv(s: View, d: nat)
    requires Inv(s) && d in s.live
    requires forall i: nat, j: nat | i < U && j < N :: Ent(s.pages, d, i, j) == Absent
    ensures Inv(Drop(s, d)) && Used(Drop(s, d), d, Other) && IsTable(s.pages, d)
    ensures forall i: nat | i < N && s.pages[d].e[i].Map? :: Used(Drop(s, d), s.pages[d].e[i].frame, Other)
  {
    var r := Drop(s, d);
    assert DirOk(s, d);
    forall c | c in r.live ensures DirOk(r, c) { assert DirOk(s, c); }
    forall c, k: nat | c in r.live && k < N ensures TabOk(r, c, k) { assert DirOk(s, c) && TabOk(s, c, k); }
    forall k: nat | k < |r.free| ensures FreeOk(r, k) { assert FreeOk(s, k); }
    forall c, k: nat, l: nat | c in r.live && k < U && l < N ensures UserOk(r, c, k, l) { assert UserOk(s, c, k, l); }
    forall f | f in r.own
      ensures UseOk(r, f)
    {
      assert UseOk(s, f);
      assert s.own[f].Tab? && s.own[f].d == d ==> TabOk(s, d, s.own[f].i);
    }
    forall i: nat | i < N && s.pages[d].e[i].Map?
      ensures Used(r, s.pages[d].e[i].frame, Other)
    {
      assert TabOk(s, d, i);
    }
  }

  // ----- what an operation on directory d leaves alone

  /** Frames that changes to directory d must not touch. */
  predicate Protected(u: Use, f: nat, d: nat) {
    u == Other || u.User? || (u == Dir && f != d) || (u.Tab? && u.d != d)
  }

  predicate KeptAt(s: View, t: View, d: nat, f: nat)
    requires f in s.own && f in t.own
  {
    && (Protected(s.own[f], f, d) ==> t.own[f] == s.own[f] && f in s.pages && f in t.pages && t.pages[f] == s.pages[f])
    && (t.own[f] == Other ==> s.own[f] == Other)
  }

  /** Between s and t only directory d has changed, apart from the frames x. */
  ghost predicate Kept(s: View, t: View, d: nat, x: set<nat>) {
    && t.own.Keys == s.own.Keys
    && forall f | f in s.own && f !in x :: KeptAt(s, t, d, f)
  }

  lemma KeptTrans(s: View, t: View, u: View, d: nat, x: set<nat>)
    requires Kept(s, t, d, x) && Kept(t, u, d, x)
    ensures Kept(s, u, d, x)
  {
    forall f | f in s.own && f !in x
      ensures KeptAt(s, u, d, f)
    {
      assert f in t.own && KeptAt(s, t, d, f) && KeptAt(t, u, d, f);
    }
  }

  lemma KeptSelf(s: View, d: nat, x: set<nat>)
    requires Inv(s)
    ensures Kept(s, s, d, x)
  {
    forall f | f in s.own && f !in x
      ensures KeptAt(s, s, d, f)
    {
      assert UseOk(s, f);
      HasPage(s, f);
    }
  }

  /** Every frame in use has contents. */
  lemma HasPage(s: View, f: nat)
    requires Inv(s) && f in s.own
    ensures f in s.pages
  {
    assert UseOk(s, f);
    match s.own[f]
    case Free(k) => assert FreeOk(s, k);
    case Dir => assert DirOk(s, f);
    case Tab(d, i) => assert DirOk(s, d) && TabOk(s, d, i);
    case User(d, i, j) => assert UserOk(s, d, i, j);
    case Other =>
  }

  /** The mappings of every other directory are as they were. */
  lemma OtherDirs(s: View, t: View, d: nat, c: nat, i: nat, j: nat)
    requires Inv(s) && Kept(s, t, d, {}) && c in s.live && c != d && i < N && j < N
    ensures Ent(t.pages, c, i, j) == Ent(s.pages, c, i, j)
  {
    assert DirOk(s, c) && TabOk(s, c, i);
    assert KeptAt(s, t, d, c);
    var p := s.pages[c].e[i];
    if p.Map? {
      assert KeptAt(s, t, d, p.frame);
    }
  }

  predicate SameAt(s: View, t: View, f: nat)
    requires f in s.own && f in t.own
  {
    if s.own[f].Free? then t.own[f].Free?
      else t.own[f] == s.own[f] && f in s.pages && f in t.pages && t.pages[f] == s.pages[f]
  }

  /** The same frames are free and every other frame has its use and its contents. */
  ghost predicate Same(s: View, t: View) {
    && t.live == s.live && t.own.Keys == s.own.Keys
    && forall f | f in s.own :: SameAt(s, t, f)
  }

  // ----- sweeping a range of pages

  predicate InRange(u: Use, d: nat, lo: nat, hi: nat) {
    u.User? && u.d == d && lo <= N * u.i + u.j < hi
  }

  function SweptEnt(s: View, d: nat, lo: nat, hi: nat, i: nat, j: nat): Pte {
    if i < U && lo <= N * i + j < hi then Absent else Ent(s.pages, d, i, j)
  }

  predicate SweptAt(s: View, t: View, d: nat, lo: nat, hi: nat, f: nat)
    requires f in s.own && f in t.own
  {
    if InRange(s.own[f], d, lo, hi) then t.own[f].Free?
    else KeptAt(s, t, d, f) && (s.own[f].Dir? || s.own[f].Tab? ==> t.own[f] == s.own[f])
         && (s.own[f].Free? ==> t.own[f].Free?)
  }

  predicate SameDir(s: View, t: View, d: nat) {
    d in s.live ==> IsTable(s.pages, d) && d in t.pages && t.pages[d] == s.pages[d]
  }

  /** From s to t, pages lo to hi of d have been unmapped and exactly their frames freed. */
  ghost predicate Swept(s: View, t: View, d: nat, lo: nat, hi: nat) {
    && Inv(t) && t.live == s.live && t.own.Keys == s.own.Keys && SameDir(s, t, d)
    && (forall i: nat, j: nat | i < N && j < N :: Ent(t.pages, d, i, j) == SweptEnt(s, d, lo, hi, i, j))
    && forall f | f in s.own :: SweptAt(s, t, d, lo, hi, f)
  }

  lemma SweptNone(s: View, d: nat, lo: nat)
    requires Inv(s)
    ensures Swept(s, s, d, lo, lo)
  {
    KeptSelf(s, d, {});
    assert d in s.live ==> DirOk(s, d);
    forall f | f in s.own
      ensures SweptAt(s, s, d, lo, lo, f)
    {
      assert KeptAt(s, s, d, f);
    }
  }

  /** Pages that are not mapped need no work, however many there are. */
  lemma SweptSkip(s: View, t: View, d: nat, lo: nat, v: nat, w: nat)
    requires Inv(s) && Swept(s, t, d, lo, v) && lo <= v <= w
    requires forall i: nat, j: nat | i < U && j < N && v <= N * i + j < w :: Ent(s.pages, d, i, j) == Absent
    ensures Swept(s, t, d, lo, w)
  {
    forall i: nat, j: nat | i < N && j < N
      ensures Ent(t.pages, d, i, j) == SweptEnt(s, d, lo, w, i, j)
    {
      assert Ent(t.pages, d, i, j) == SweptEnt(s, d, lo, v, i, j);
    }
    forall f | f in s.own
      ensures SweptAt(s, t, d, lo, w, f)
    {
      assert SweptAt(s, t, d, lo, v, f) && UseOk(s, f);
    }
  }

  /** One mapped page is unmapped and its frame freed. */
  lemma SweptPage(s: View, t: View, d: nat, lo: nat, v: nat, i: nat, j: nat)
    requires Inv(s) && Swept(s, t, d, lo, v) && lo <= v == N * i + j && d in s.live && i < U && j < N
    requires Ent(t.pages, d, i, j).Map?
    ensures DirOk(t, d) && t.pages[d].e[i].Map? && IsTable(t.pages, TableOf(t, d, i))
    ensures Swept(s, Give(Remove(t, d, i, j), Ent(t.pages, d, i, j).frame), d, lo, v + 1)
  {
    var f := Ent(t.pages, d, i, j).frame;
    assert DirOk(t, d) && TabOk(t, d, i) && UserOk(t, d, i, j);
    RemoveInv(t, d, i, j);
    PutEnt(t, d, i, j, Absent);
    var r := Remove(t, d, i, j);
    GiveInv(r, f);
    var u := Give(r, f);
    assert SameDir(s, u, d);
    assert u.own.Keys == s.own.Keys;
    SweptEnts(s, t, u, d, lo, v, i, j);
    forall g | g in s.own
      ensures SweptAt(s, u, d, lo, v + 1, g)
    {
      SweptFrame(s, t, d, lo, v, i, j, g);
    }
  }

  lemma SweptEnts(s: View, t: View, u: View, d: nat, lo: nat, v: nat, i: nat, j: nat)
    requires i < U && j < N && lo <= v == N * i + j
    requires forall k: nat, l: nat | k < N && l < N :: Ent(t.pages, d, k, l) == SweptEnt(s, d, lo, v, k, l)
    requires forall k: nat, l: nat | k < N && l < N ::
               Ent(u.pages, d, k, l) == if k == i && l == j then Absent else Ent(t.pages, d, k, l)
    ensures forall k: nat, l: nat | k < N && l < N :: Ent(u.pages, d, k, l) == SweptEnt(s, d, lo, v + 1, k, l)
  {
    forall k: nat, l: nat | k < N && l < N
      ensures Ent(u.pages, d, k, l) == SweptEnt(s, d, lo, v + 1, k, l)
    {
      assert Ent(t.pages, d, k, l) == SweptEnt(s, d, lo, v, k, l);
    }
  }

  lemma SweptFrame(s: View, t: View, d: nat, lo: nat, v: nat, i: nat, j: nat, g: nat)
    requires Inv(s) && Swept(s, t, d, lo, v) && lo <= v == N * i + j && d in s.live && i < U && j < N && g in s.own
    requires DirOk(t, d) && Ent(t.pages, d, i, j).Map? && t.pages[d].e[i].Map? && IsTable(t.pages, TableOf(t, d, i))
    ensures SweptAt(s, Give(Remove(t, d, i, j), Ent(t.pages, d, i, j).frame), d, lo, v + 1, g)
  {
    var f := Ent(t.pages, d, i, j).frame;
    assert TabOk(t, d, i) && UserOk(t, d, i, j);
    assert SweptAt(s, t, d, lo, v, g) && UseOk(s, g);
    assert Ent(t.pages, d, i, j) == SweptEnt(s, d, lo, v, i, j);
    assert UserOk(s, d, i, j);
    var u := Give(Remove(t, d, i, j), f);
    if g != f {
      assert s.own[g] != User(d, i, j);
      assert u.own[g] == t.own[g];
      assert g != TableOf(t, d, i) && g in t.pages ==> u.pages[g] == t.pages[g];
    }
  }

  // ----- growing by fresh pages

  /** What new pages hold: one page over and over, or what directory src holds there. */
  datatype Source = Filled(p: Page, flags: nat) | CopyOf(src: nat)

  function Want(s: View, w: Source, i: nat, j: nat): (Page, nat) {
    match w
    case Filled(p, flags) => (p, flags)
    case CopyOf(src) =>
      var e := Ent(s.pages, src, i, j);
      if e.Map? && e.frame in s.pages then (s.pages[e.frame], e.flags) else (Junk, 0)
  }

  /** Page (i, j) of d: a fresh frame with the wanted contents and flags inside the range,
      untouched outside. */
  predicate GrownAt(s: View, t: View, d: nat, lo: nat, hi: nat, w: Source, i: nat, j: nat) {
    var e := Ent(t.pages, d, i, j);
    if i < U && lo <= N * i + j < hi
    then e.Map? && e.frame in s.own && s.own[e.frame].Free? && e.frame in t.pages
         && (t.pages[e.frame], e.flags) == Want(s, w, i, j)
    else e == Ent(s.pages, d, i, j)
  }

  /** From s to t, pages lo to hi of d have been mapped to frames that were free, each
      with the wanted contents; apart from the frames x nothing outside d has changed. */
  ghost predicate NoneFreed(s: View, t: View) {
    forall f | f in t.own && t.own[f].Free? :: f in s.own && s.own[f].Free?
  }

  ghost predicate Grown(s: View, t: View, d: nat, lo: nat, hi: nat, w: Source, x: set<nat>) {
    && Inv(t) && t.live == s.live && Kept(s, t, d, x) && NoneFreed(s, t)
    && forall i: nat, j: nat | i < N && j < N :: GrownAt(s, t, d, lo, hi, w, i, j)
  }

  ghost predicate NotMapped(s: View, d: nat, lo: nat, hi: nat) {
    forall i: nat, j: nat | i < U && j < N && lo <= N * i + j < hi :: Ent(s.pages, d, i, j) == Absent
  }

  /** Taking back what was added leaves the mappings of d as they were. */
  lemma Undone(s: View, t: View, u: View, d: nat, lo: nat, v: nat, hi: nat, w: Source, x: set<nat>)
    requires Inv(s) && Grown(s, t, d, lo, v, w, x) && Swept(t, u, d, lo, hi) && v <= hi && NotMapped(s, d, lo, hi)
    ensures Kept(s, u, d, x)
    ensures forall i: nat, j: nat | i < N && j < N :: Ent(u.pages, d, i, j) == Ent(s.pages, d, i, j)
  {
    forall i: nat, j: nat | i < N && j < N
      ensures Ent(u.pages, d, i, j) == Ent(s.pages, d, i, j)
    {
      assert Ent(u.pages, d, i, j) == SweptEnt(t, d, lo, hi, i, j);
      assert GrownAt(s, t, d, lo, v, w, i, j);
    }
    forall f | f in s.own && f !in x
      ensures KeptAt(s, u, d, f)
    {
      assert KeptAt(s, t, d, f) && f in t.own && SweptAt(t, u, d, lo, hi, f) && UseOk(t, f);
      if InRange(t.own[f], d, lo, hi) {
        var o := t.own[f];
        assert GrownAt(s, t, d, lo, v, w, o.i, o.j);
      }
    }
  }

  /** One more page: frame f, free in s, now holds p and is mapped at (i, j). */
  lemma GrownMore(s: View, t: View, u: View, d: nat, lo: nat, v: nat, i: nat, j: nat, f: nat, p: Page, flags: nat,
                  w: Source)
    requires Inv(s) && d in s.live && i < U && j < N && lo <= v == N * i + j
    requires Grown(s, t, d, lo, v, w, {}) && f in s.own && s.own[f].Free?
    requires Want(s, w, i, j) == (p, flags)
    requires Inv(u) && u.live == t.live && f in u.pages && u.pages[f] == p && Used(u, f, User(d, i, j))
    requires Kept(t, u, d, {f})
    requires forall k: nat, l: nat | k < N && l < N ::
               Ent(u.pages, d, k, l) == if k == i && l == j then Map(f, flags) else Ent(t.pages, d, k, l)
    requires f in t.own && t.own[f].Free? && NoneFreed(t, u)
    ensures Grown(s, u, d, lo, v + 1, w, {})
  {
    var hi := v + 1;
    forall k: nat, l: nat | k < N && l < N
      ensures GrownAt(s, u, d, lo, hi, w, k, l)
    {
      assert GrownAt(s, t, d, lo, v, w, k, l);
      var e := Ent(t.pages, d, k, l);
      if k < U && lo <= N * k + l < v {
        assert UserOk(t, d, k, l);
        assert e.frame != f && KeptAt(t, u, d, e.frame);
      }
    }
    forall g | g in s.own
      ensures KeptAt(s, u, d, g)
    {
      assert KeptAt(s, t, d, g);
      assert g != f ==> KeptAt(t, u, d, g);
    }
  }

  /** Frame f has been taken but could not be mapped. */
  lemma StillGrown(s: View, t: View, u: View, d: nat, lo: nat, v: nat, w: Source, f: nat)
    requires Inv(s) && d in s.live && Grown(s, t, d, lo, v, w, {}) && f in t.own && t.own[f].Free?
    requires Inv(u) && u.live == t.live && Kept(t, u, d, {f}) && NoneFreed(t, u)
    requires forall k: nat, l: nat | k < N && l < N :: Ent(u.pages, d, k, l) == Ent(t.pages, d, k, l)
    ensures Grown(s, u, d, lo, v, w, {f})
  {
    forall k: nat, l: nat | k < N && l < N
      ensures GrownAt(s, u, d, lo, v, w, k, l)
    {
      StillGrownAt(s, t, u, d, lo, v, w, f, k, l);
    }
    forall g | g in s.own && g !in {f}
      ensures KeptAt(s, u, d, g)
    {
      assert g in t.own && KeptAt(s, t, d, g) && KeptAt(t, u, d, g);
    }
  }

  lemma StillGrownAt(s: View, t: View, u: View, d: nat, lo: nat, v: nat, w: Source, f: nat, k: nat, l: nat)
    requires d in s.live && Grown(s, t, d, lo, v, w, {}) && f in t.own && t.own[f].Free? && Kept(t, u, d, {f})
    requires k < N && l < N && Ent(u.pages, d, k, l) == Ent(t.pages, d, k, l)
    ensures GrownAt(s, u, d, lo, v, w, k, l)
  {
    assert GrownAt(s, t, d, lo, v, w, k, l);
    var e := Ent(t.pages, d, k, l);
    if k < U && lo <= N * k + l < v {
      assert UserOk(t, d, k, l);
      assert e.frame != f && KeptAt(t, u, d, e.frame);
    }
  }

  lemma GrownNone(s: View, d: nat, lo: nat, w: Source)
    requires Inv(s)
    ensures Grown(s, s, d, lo, lo, w, {})
  {
    KeptSelf(s, d, {});
  }

  /** The frame that could not be mapped goes back on the free list. */
  lemma GiveBack(s: View, u: View, d: nat, f: nat)
    requires Inv(u) && Used(u, f, Other) && Kept(s, u, d, {f}) && f in s.own && s.own[f].Free?
    ensures Inv(Give(u, f)) && Kept(s, Give(u, f), d, {})
    ensures forall c, i: nat, j: nat | c in u.live && i < N && j < N ::
              Ent(Give(u, f).pages, c, i, j) == Ent(u.pages, c, i, j)
  {
    GiveInv(u, f);
    var g := Give(u, f);
    forall h | h in s.own
      ensures KeptAt(s, g, d, h)
    {
      assert h != f ==> KeptAt(s, u, d, h);
    }
  }

  // ----- a whole address space goes

  /** Frames of address space d, while its tables are freed up to entry n and then itself. */
  predicate GoneAt(s: View, t: View, d: nat, n: nat, f: nat)
    requires f in s.own && f in t.own
  {
    match s.own[f]
    case User(c, _, _) => if c == d then t.own[f].Free? else KeptAt(s, t, d, f)
    case Tab(c, k) => if c == d then (if k < n then t.own[f].Free? else t.own[f] == Other) else KeptAt(s, t, d, f)
    case Dir => if f == d then (if n > N then t.own[f].Free? else t.own[f] == Other) else KeptAt(s, t, d, f)
    case _ => KeptAt(s, t, d, f)
  }

  ghost predicate Gone(s: View, t: View, d: nat, n: nat) {
    && Inv(t) && t.live == s.live - {d} && t.own.Keys == s.own.Keys
    && forall f | f in s.own :: GoneAt(s, t, d, n, f)
  }

  lemma GoneStart(s: View, t: View, d: nat)
    requires Inv(s) && d in s.live && Swept(s, t, d, 0, U * N)
    ensures Gone(s, Drop(t, d), d, 0) && DirOk(t, d)
    ensures forall i: nat | i < N && t.pages[d].e[i].Map? :: Used(Drop(t, d), t.pages[d].e[i].frame, Other)
  {
    assert DirOk(t, d) && DirOk(s, d);
    forall i: nat, j: nat | i < U && j < N
      ensures Ent(t.pages, d, i, j) == Absent
    {
      assert Ent(t.pages, d, i, j) == SweptEnt(s, d, 0, U * N, i, j);
    }
    DropInv(t, d);
    var r := Drop(t, d);
    forall f | f in s.own
      ensures GoneAt(s, r, d, 0, f)
    {
      assert SweptAt(s, t, d, 0, U * N, f) && UseOk(s, f) && f in t.own && UseOk(t, f);
      HasPage(t, f);
    }
  }

  lemma GoneTable(s: View, t: View, d: nat, i: nat, p: Pte)
    requires Inv(s) && d in s.live && i < N && Gone(s, t, d, i) && IsTable(s.pages, d) && p == s.pages[d].e[i]
    requires p.Map? ==> Used(t, p.frame, Other)
    ensures Gone(s, if p.Map? then Give(t, p.frame) else t, d, i + 1)
  {
    var u := if p.Map? then Give(t, p.frame) else t;
    assert TabOk(s, d, i);
    if p.Map? {
      GiveInv(t, p.frame);
    }
    forall f | f in s.own
      ensures GoneAt(s, u, d, i + 1, f)
    {
      assert GoneAt(s, t, d, i, f) && UseOk(s, f);
    }
  }

  lemma GoneDir(s: View, t: View, d: nat)
    requires Inv(s) && d in s.live && Gone(s, t, d, N)
    ensures Used(t, d, Other) && Gone(s, Give(t, d), d, N + 1)
  {
    assert DirOk(s, d) && GoneAt(s, t, d, N, d);
    GiveInv(t, d);
    forall f | f in s.own
      ensures GoneAt(s, Give(t, d), d, N + 1, f)
    {
      assert GoneAt(s, t, d, N, f) && UseOk(s, f);
    }
  }

  /** CONSERVATION. A directory made and freed again leaves every frame as it was. */
  lemma CameAndWent(s: View, t: View, u: View, d: nat)
    requires Inv(s) && d !in s.live && Inv(t) && t.live == s.live + {d} && Kept(s, t, d, {}) && Gone(t, u, d, N + 1)
    ensures Same(s, u)
  {
    forall f | f in s.own
      ensures KeptAt(s, u, d, f)
    {
      assert KeptAt(s, t, d, f) && f in t.own && GoneAt(t, u, d, N + 1, f) && UseOk(s, f);
    }
    assert Kept(s, u, d, {});
    forall f | f in s.own
      ensures SameAt(s, u, f)
    {
      assert KeptAt(s, u, d, f) && UseOk(s, f) && f in u.own && UseOk(u, f);
      if !u.own[f].Free? {
        WasInUse(s, u, d, f);
      }
    }
  }

  lemma WasInUse(s: View, t: View, d: nat, f: nat)
    requires Inv(s) && Inv(t) && Kept(s, t, d, {}) && d !in s.live && t.live == s.live && f in s.own && !t.own[f].Free?
    ensures !s.own[f].Free?
  {
    assert KeptAt(s, t, d, f) && UseOk(t, f);
    match t.own[f]
    case Tab(c, i) => assert DirOk(s, c) && KeptAt(s, t, d, c) && TabOk(s, c, i);
    case User(c, i, j) =>
      OtherDirs(s, t, d, c, i, j);
      assert UserOk(s, c, i, j);
    case Dir => assert DirOk(s, f);
    case Other =>
  }

  lemma SameSelf(s: View)
    requires Inv(s)
    ensures Same(s, s)
  {
    forall f | f in s.own ensures SameAt(s, s, f) { HasPage(s, f); }
  }

  // ----- kernel mappings

  /** One line of kmap: n kernel pages from v on, mapped to frames from pa on. */
  datatype KRange = KRange(v: nat, n: nat, pa: nat, perm: nat)

  predicate InKRange(r: KRange, i: nat, j: nat) {
    r.v <= N * i + j < r.v + r.n
  }

  ghost predicate KmapOk(kmap: seq<KRange>) {
    && (forall k | 0 <= k < |kmap| :: kmap[k].n >= 1 && U * N <= kmap[k].v && kmap[k].v + kmap[k].n <= N * N)
    && forall k, l | 0 <= k < l < |kmap| :: kmap[k].v + kmap[k].n <= kmap[l].v || kmap[l].v + kmap[l].n <= kmap[k].v
  }

  /** kmap, for a kernel whose data begins at page `data` (kernel.ld aligns it). */
  function Kmap(data: nat): seq<KRange>
    requires 0x8_0100 < data < 0x8_E000
  {
    [KRange(0x8_0000, 0x100, 0, PTE_W),
     KRange(0x8_0100, data - 0x8_0100, 0x100, 0),
     KRange(data, 0x8_E000 - data, data - 0x8_0000, PTE_W),
     KRange(0xF_E000, 0x2000, 0xF_E000, PTE_W)]
  }

  /** THE KERNEL SEES ALL OF MEMORY. With kmap's four lines in place, every frame below PHYSTOP is
      mapped at its kernel address, without PTE_W if and only if it holds the kernel's text; the
      lines lie in the kernel's half and do not overlap. */
  lemma KernelSeesAll(pages: map<nat, Page>, d: nat, data: nat, f: nat)
    requires 0x8_0100 < data < 0x8_E000 && PGSIZE * f < PHYSTOP
    ensures KmapOk(Kmap(data))
    ensures (forall q | 0 <= q < |Kmap(data)| :: LineOk(pages, d, Kmap(data)[q])) ==>
              exists i: nat, j: nat | i < N && j < N ::
                && PGSIZE * (N * i + j) == Address(f) && Ent(pages, d, i, j).Map? && Ent(pages, d, i, j).frame == f
                && Ent(pages, d, i, j).flags == if 0x100 <= f < data - 0x8_0000 then 0 else 2
  {
    var kmap := Kmap(data);
    if forall q | 0 <= q < |kmap| :: LineOk(pages, d, kmap[q]) {
      var v := 0x8_0000 + f;
      var i, j := v / N, v % N;
      assert v == N * i + j && i < N;
      var q := if f < 0x100 then 0 else if v < data then 1 else 2;
      assert LineOk(pages, d, kmap[q]) && InKRange(kmap[q], i, j);
      assert Ent(pages, d, i, j) == LineEnt(kmap[q], i, j);
    }
  }

  /** Addresses from DEVSPACE on are mapped to themselves, writable. */
  lemma DevicesAreThere(pages: map<nat, Page>, d: nat, data: nat, i: nat, j: nat)
    requires 0x8_0100 < data < 0x8_E000 && i < N && j < N && PGSIZE * (N * i + j) >= 0xFE00_0000
    requires forall q | 0 <= q < |Kmap(data)| :: LineOk(pages, d, Kmap(data)[q])
    ensures Ent(pages, d, i, j) == Map(N * i + j, 2)
  {
    assert LineOk(pages, d, Kmap(data)[3]) && InKRange(Kmap(data)[3], i, j);
  }

  function LineEnt(r: KRange, i: nat, j: nat): Pte
    requires InKRange(r, i, j)
  {
    Map(r.pa + (N * i + j - r.v), r.perm)
  }

  /** d maps the pages of line r as it says. */
  ghost predicate LineOk(pages: map<nat, Page>, d: nat, r: KRange) {
    forall i: nat, j: nat | i < N && j < N && InKRange(r, i, j) :: Ent(pages, d, i, j) == LineEnt(r, i, j)
  }

  ghost predicate LineAbsent(pages: map<nat, Page>, d: nat, r: KRange) {
    forall i: nat, j: nat | i < N && j < N && InKRange(r, i, j) :: Ent(pages, d, i, j) == Absent
  }

  ghost predicate UserAbsent(pages: map<nat, Page>, d: nat) {
    forall i: nat, j: nat | i < U && j < N :: Ent(pages, d, i, j) == Absent
  }

  /** The first k lines of kmap are mapped, the others not, and no user page is. */
  ghost predicate KernelOk(pages: map<nat, Page>, d: nat, kmap: seq<KRange>, k: nat) {
    && UserAbsent(pages, d)
    && forall q | 0 <= q < |kmap| :: if q < k then LineOk(pages, d, kmap[q]) else LineAbsent(pages, d, kmap[q])
  }

  lemma KernelNext(s: View, t: View, d: nat, kmap: seq<KRange>, k: nat)
    requires KmapOk(kmap) && k < |kmap| && KernelOk(s.pages, d, kmap, k) && RangeMapped(s, t, d, kmap[k], kmap[k].n)
    ensures KernelOk(t.pages, d, kmap, k + 1)
  {
    var r := kmap[k];
    forall q | 0 <= q < |kmap|
      ensures if q < k + 1 then LineOk(t.pages, d, kmap[q]) else LineAbsent(t.pages, d, kmap[q])
    {
      forall i: nat, j: nat | i < N && j < N && InKRange(kmap[q], i, j)
        ensures Ent(t.pages, d, i, j) == if q <= k then LineEnt(kmap[q], i, j) else Absent
      {
        assert q != k ==> !InKRange(r, i, j);
        assert q < k ==> Ent(s.pages, d, i, j) == LineEnt(kmap[q], i, j);
      }
    }
  }

  ghost predicate RangeMapped(s: View, t: View, d: nat, r: KRange, m: nat) {
    forall i: nat, j: nat | i < N && j < N ::
      Ent(t.pages, d, i, j) == if r.v <= N * i + j < r.v + m then Map(r.pa + (N * i + j - r.v), r.perm)
        else Ent(s.pages, d, i, j)
  }

  lemma RangeSame(s: View, t: View, u: View, d: nat, r: KRange, m: nat)
    requires RangeMapped(s, t, d, r, m)
    requires forall k: nat, l: nat | k < N && l < N :: Ent(u.pages, d, k, l) == Ent(t.pages, d, k, l)
    ensures RangeMapped(s, u, d, r, m)
  {
  }

  lemma RangeNext(s: View, t: View, u: View, d: nat, r: KRange, m: nat, x: nat, i: nat, j: nat, pa: nat)
    requires i < N && j < N && r.v + m == N * i + j && RangeMapped(s, t, d, r, m) && x == m + 1 && pa == r.pa + m
    requires forall k: nat, l: nat | k < N && l < N ::
               Ent(u.pages, d, k, l) == if k == i && l == j then Map(pa, r.perm) else Ent(t.pages, d, k, l)
    ensures RangeMapped(s, u, d, r, x)
  {
    forall k: nat, l: nat | k < N && l < N
      ensures Ent(u.pages, d, k, l) ==
              if r.v <= N * k + l < r.v + (m + 1) then Map(r.pa + (N * k + l - r.v), r.perm) else Ent(s.pages, d, k, l)
    {
      assert N * k + l == N * i + j ==> k == i && l == j;
    }
  }

  /** Page r.v + k is a user page, whose frame r.pa + k is not in use yet. */
  predicate ReadyAt(s: View, r: KRange, k: nat) {
    r.v + k < U * N ==> Used(s, r.pa + k, Other) && r.pa + k in s.pages && s.pages[r.pa + k].Bytes?
  }

  ghost predicate Ready(s: View, r: KRange, m: nat) {
    forall k: nat | m <= k < r.n :: ReadyAt(s, r, k)
  }

  predicate Takes(r: KRange, m: nat, f: nat) {
    r.pa <= f < r.pa + m && r.v + (f - r.pa) < U * N
  }

  /** The frames that the first m pages of r take. */
  ghost function TakenBy(r: KRange, m: nat): set<nat> {
    set f: nat | f < r.pa + m && Takes(r, m, f)
  }

  predicate LentAt(s: View, t: View, d: nat, r: KRange, k: nat) {
    r.v + k < U * N ==>
      && Used(t, r.pa + k, User(d, (r.v + k) / N, (r.v + k) % N))
      && r.pa + k in s.pages && r.pa + k in t.pages && t.pages[r.pa + k] == s.pages[r.pa + k]
  }

  /** The frames of the first m pages belong to them, with their contents. */
  ghost predicate Lent(s: View, t: View, d: nat, r: KRange, m: nat) {
    forall k: nat | k < m :: LentAt(s, t, d, r, k)
  }

  /** mappages, m pages into range r. */
  ghost predicate Mapping(s: View, t: View, d: nat, r: KRange, m: nat) {
    && Kept(s, t, d, TakenBy(r, m)) && NoneFreed(s, t) && RangeMapped(s, t, d, r, m)
    && Ready(t, r, m) && Lent(s, t, d, r, m)
  }

  lemma KeptMore(s: View, t: View, d: nat, x: set<nat>, x': set<nat>)
    requires Kept(s, t, d, x) && x <= x'
    ensures Kept(s, t, d, x')
  {
  }

  lemma MappingSame(s: View, t: View, u: View, d: nat, r: KRange, m: nat)
    requires Mapping(s, t, d, r, m) && Kept(t, u, d, {}) && NoneFreed(t, u)
    requires forall k: nat, l: nat | k < N && l < N :: Ent(u.pages, d, k, l) == Ent(t.pages, d, k, l)
    ensures Mapping(s, u, d, r, m)
  {
    KeptMore(t, u, d, {}, TakenBy(r, m));
    KeptTrans(s, t, u, d, TakenBy(r, m));
    RangeSame(s, t, u, d, r, m);
    FramesStay(s, t, u, d, r, m, m, {});
  }

  lemma FrameStays(t: View, u: View, d: nat, f: nat, taken: set<nat>)
    requires Kept(t, u, d, taken) && f !in taken
    ensures f in t.own ==> f in u.own && KeptAt(t, u, d, f)
  {
  }

  /** Frames not taken by this step stay as they are. */
  lemma FramesStay(s: View, t: View, u: View, d: nat, r: KRange, m: nat, x: nat, taken: set<nat>)
    requires Ready(t, r, m) && Lent(s, t, d, r, m) && Kept(t, u, d, taken) && m <= x
    requires taken <= {r.pa + m} && (taken == {} || x == m + 1)
    ensures Ready(u, r, x) && Lent(s, u, d, r, m)
  {
    forall k: nat | x <= k < r.n
      ensures ReadyAt(u, r, k)
    {
      assert ReadyAt(t, r, k);
      FrameStays(t, u, d, r.pa + k, taken);
    }
    forall k: nat | k < m
      ensures LentAt(s, u, d, r, k)
    {
      assert LentAt(s, t, d, r, k);
      FrameStays(t, u, d, r.pa + k, taken);
    }
  }

  lemma MappingNext(s: View, t: View, u: View, d: nat, r: KRange, m: nat, x: nat, i: nat, j: nat, pa: nat)
    requires Mapping(s, t, d, r, m) && x == m + 1 <= r.n && pa == r.pa + m && i < N && j < N && r.v + m == N * i + j
    requires Kept(t, u, d, if i < U then {pa} else {}) && NoneFreed(t, u)
    requires i < U ==> Used(u, pa, User(d, i, j)) && pa in t.pages && pa in u.pages && u.pages[pa] == t.pages[pa]
    requires forall k: nat, l: nat | k < N && l < N ::
               Ent(u.pages, d, k, l) == if k == i && l == j then Map(pa, r.perm) else Ent(t.pages, d, k, l)
    ensures Mapping(s, u, d, r, x)
  {
    var taken := if i < U then {pa} else {};
    KeptMore(s, t, d, TakenBy(r, m), TakenBy(r, x));
    KeptMore(t, u, d, taken, TakenBy(r, x));
    KeptTrans(s, t, u, d, TakenBy(r, x));
    RangeNext(s, t, u, d, r, m, x, i, j, pa);
    FramesStay(s, t, u, d, r, m, x, taken);
    LentNext(s, t, u, d, r, m, i, j, pa);
  }

  lemma LentNext(s: View, t: View, u: View, d: nat, r: KRange, m: nat, i: nat, j: nat, pa: nat)
    requires Ready(t, r, m) && m < r.n && pa == r.pa + m && i < N && j < N && r.v + m == N * i + j
    requires Kept(s, t, d, TakenBy(r, m))
    requires i < U ==> Used(u, pa, User(d, i, j)) && pa in t.pages && pa in u.pages && u.pages[pa] == t.pages[pa]
    ensures LentAt(s, u, d, r, m)
  {
    assert ReadyAt(t, r, m) && (r.v + m) / N == i && (r.v + m) % N == j;
    if i < U {
      assert KeptAt(s, t, d, pa);
    }
  }

  // ----- a copied address space

  /** Page (i, j) of d in t: below page n a frame free in s with the contents and flags
      that src has there in s, above it nothing. */
  predicate CopiedAt(s: View, t: View, src: nat, d: nat, n: nat, i: nat, j: nat) {
    var e, o := Ent(t.pages, d, i, j), Ent(s.pages, src, i, j);
    if N * i + j < n
    then && e.Map? && o.Map? && e.flags == o.flags
         && o.frame in s.pages && e.frame in t.pages && t.pages[e.frame] == s.pages[o.frame]
         && e.frame in s.own && s.own[e.frame].Free?
    else e == Absent
  }

  ghost predicate Copied(s: View, t: View, src: nat, d: nat, n: nat) {
    forall i: nat, j: nat | i < U && j < N :: CopiedAt(s, t, src, d, n, i, j)
  }

  ghost predicate AllMapped(s: View, d: nat, n: nat) {
    forall i: nat, j: nat | i < U && j < N && N * i + j < n :: Ent(s.pages, d, i, j).Map?
  }

  /** s before setupkvm, m after it, t once n pages have been added to d. */
  lemma CopiedWhole(s: View, m: View, t: View, src: nat, d: nat, n: nat, kmap: seq<KRange>)
    requires Inv(s) && Inv(m) && src in s.live && d !in s.live && m.live == s.live + {d} && KmapOk(kmap)
    requires Kept(s, m, d, {}) && NoneFreed(s, m) && Grown(m, t, d, 0, n, CopyOf(src), {}) && AllMapped(s, src, n)
    requires KernelOk(m.pages, d, kmap, |kmap|)
    ensures Copied(s, t, src, d, n) && Kept(s, t, d, {})
    ensures forall q | 0 <= q < |kmap| :: LineOk(t.pages, d, kmap[q])
  {
    KeptTrans(s, m, t, d, {});
    forall q, i: nat, j: nat | 0 <= q < |kmap| && i < N && j < N && InKRange(kmap[q], i, j)
      ensures Ent(t.pages, d, i, j) == LineEnt(kmap[q], i, j)
    {
      assert LineOk(m.pages, d, kmap[q]) && GrownAt(m, t, d, 0, n, CopyOf(src), i, j);
    }
    forall i: nat, j: nat | i < U && j < N
      ensures CopiedAt(s, t, src, d, n, i, j)
    {
      assert GrownAt(m, t, d, 0, n, CopyOf(src), i, j);
      if N * i + j < n {
        OtherDirs(s, m, d, src, i, j);
        assert UserOk(s, src, i, j);
        assert KeptAt(s, m, d, Ent(s.pages, src, i, j).frame);
      }
    }
  }

  // ----- the size of a process

  /** The user pages mapped are exactly the first n. */
  ghost predicate Sized(s: View, d: nat, n: nat) {
    AllMapped(s, d, n) && NotMapped(s, d, n, U * N)
  }

  lemma SizedGrown(s: View, t: View, d: nat, lo: nat, hi: nat, w: Source)
    requires Sized(s, d, lo) && Grown(s, t, d, lo, hi, w, {}) && lo <= hi <= U * N
    ensures Sized(t, d, hi)
  {
    forall i: nat, j: nat | i < U && j < N
      ensures Ent(t.pages, d, i, j).Map? <==> N * i + j < hi
    {
      assert GrownAt(s, t, d, lo, hi, w, i, j);
    }
  }

  lemma SizedSwept(s: View, t: View, d: nat, lo: nat, hi: nat)
    requires Sized(s, d, hi) && Swept(s, t, d, lo, hi) && lo <= hi <= U * N
    ensures Sized(t, d, lo)
  {
    forall i: nat, j: nat | i < U && j < N
      ensures Ent(t.pages, d, i, j).Map? <==> N * i + j < lo
    {
      assert Ent(t.pages, d, i, j) == SweptEnt(s, d, lo, hi, i, j);
    }
  }

  lemma SizedOnce(s: View, d: nat, n: nat)
    requires Sized(s, d, 0) && 0 < n <= U * N
    ensures !Sized(s, d, n)
  {
    assert Ent(s.pages, d, 0, 0) == Absent;
  }

  // ----- what growing and shrinking leave alone

  predicate PageKept(s: View, t: View, d: nat, i: nat, j: nat) {
    var e := Ent(s.pages, d, i, j);
    && Ent(t.pages, d, i, j) == e
    && (e.Map? ==> e.frame in s.pages && e.frame in t.pages && t.pages[e.frame] == s.pages[e.frame])
  }

  /** Every mapping of c and every user page behind it. */
  ghost predicate SpaceKept(s: View, t: View, c: nat) {
    && (forall i: nat, j: nat | i < N && j < N :: Ent(t.pages, c, i, j) == Ent(s.pages, c, i, j))
    && forall i: nat, j: nat | i < U && j < N :: PageKept(s, t, c, i, j)
  }

  /** The first n pages of d keep frame, flags and contents, and so does every page of every
      other address space. */
  ghost predicate Resized(s: View, t: View, d: nat, n: nat) {
    && (forall i: nat, j: nat | i < U && j < N && N * i + j < n :: PageKept(s, t, d, i, j))
    && forall c | c in s.live && c != d :: SpaceKept(s, t, c)
  }

  lemma ResizedSelf(s: View, d: nat, n: nat)
    requires Inv(s) && d in s.live
    ensures Resized(s, s, d, n)
  {
    forall c, i: nat, j: nat | c in s.live && i < U && j < N
      ensures PageKept(s, s, c, i, j)
    {
      assert UserOk(s, c, i, j);
    }
  }

  lemma OthersKept(s: View, t: View, d: nat, c: nat)
    requires Inv(s) && Kept(s, t, d, {}) && c in s.live && c != d
    ensures SpaceKept(s, t, c)
  {
    forall i: nat, j: nat | i < N && j < N
      ensures Ent(t.pages, c, i, j) == Ent(s.pages, c, i, j)
    {
      OtherDirs(s, t, d, c, i, j);
    }
    forall i: nat, j: nat | i < U && j < N
      ensures PageKept(s, t, c, i, j)
    {
      assert UserOk(s, c, i, j);
      var e := Ent(s.pages, c, i, j);
      if e.Map? {
        assert KeptAt(s, t, d, e.frame);
      }
    }
  }

  lemma ResizedGrown(s: View, t: View, d: nat, lo: nat, hi: nat, w: Source)
    requires Inv(s) && d in s.live && Grown(s, t, d, lo, hi, w, {})
    ensures Resized(s, t, d, lo)
  {
    forall i: nat, j: nat | i < U && j < N && N * i + j < lo
      ensures PageKept(s, t, d, i, j)
    {
      assert GrownAt(s, t, d, lo, hi, w, i, j) && UserOk(s, d, i, j);
      var e := Ent(s.pages, d, i, j);
      if e.Map? {
        assert KeptAt(s, t, d, e.frame);
      }
    }
    forall c | c in s.live && c != d ensures SpaceKept(s, t, c) { OthersKept(s, t, d, c); }
  }

  /** Nothing but page tables added. */
  lemma ResizedSame(s: View, t: View, d: nat, n: nat)
    requires Inv(s) && d in s.live && Kept(s, t, d, {})
    requires forall i: nat, j: nat | i < N && j < N :: Ent(t.pages, d, i, j) == Ent(s.pages, d, i, j)
    ensures Resized(s, t, d, n)
  {
    forall i: nat, j: nat | i < U && j < N && N * i + j < n
      ensures PageKept(s, t, d, i, j)
    {
      assert UserOk(s, d, i, j);
      var e := Ent(s.pages, d, i, j);
      if e.Map? {
        assert KeptAt(s, t, d, e.frame);
      }
    }
    forall c | c in s.live && c != d ensures SpaceKept(s, t, c) { OthersKept(s, t, d, c); }
  }

  lemma SweptOthers(s: View, t: View, d: nat, lo: nat, hi: nat, c: nat)
    requires Inv(s) && d in s.live && Swept(s, t, d, lo, hi) && c in s.live && c != d
    ensures SpaceKept(s, t, c)
  {
    forall i: nat, j: nat | i < N && j < N
      ensures Ent(t.pages, c, i, j) == Ent(s.pages, c, i, j)
      ensures i < U ==> PageKept(s, t, c, i, j)
    {
      SweptOther(s, t, d, lo, hi, c, i, j);
    }
  }

  lemma SweptOther(s: View, t: View, d: nat, lo: nat, hi: nat, c: nat, i: nat, j: nat)
    requires Inv(s) && d in s.live && Swept(s, t, d, lo, hi) && c in s.live && c != d && i < N && j < N
    ensures Ent(t.pages, c, i, j) == Ent(s.pages, c, i, j)
    ensures i < U ==> PageKept(s, t, c, i, j)
  {
    assert DirOk(s, c) && TabOk(s, c, i);
    assert SweptAt(s, t, d, lo, hi, c);
    var p := s.pages[c].e[i];
    if p.Map? {
      assert SweptAt(s, t, d, lo, hi, p.frame);
    }
    if i < U {
      assert UserOk(s, c, i, j);
      var e := Ent(s.pages, c, i, j);
      if e.Map? {
        assert SweptAt(s, t, d, lo, hi, e.frame);
      }
    }
  }

  lemma ResizedSwept(s: View, t: View, d: nat, n: nat, lo: nat, hi: nat)
    requires Inv(s) && d in s.live && Swept(s, t, d, lo, hi) && (n <= lo || hi <= lo)
    ensures Resized(s, t, d, n)
  {
    forall i: nat, j: nat | i < U && j < N && N * i + j < n
      ensures PageKept(s, t, d, i, j)
    {
      assert Ent(t.pages, d, i, j) == SweptEnt(s, d, lo, hi, i, j) && UserOk(s, d, i, j);
      var e := Ent(s.pages, d, i, j);
      if e.Map? {
        assert SweptAt(s, t, d, lo, hi, e.frame);
      }
    }
    forall c | c in s.live && c != d ensures SpaceKept(s, t, c) { SweptOthers(s, t, d, lo, hi, c); }
  }
}
