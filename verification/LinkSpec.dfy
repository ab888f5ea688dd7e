/** Directories and link counts (sysfile.c, fs.c): what every operation keeps. */
module LinkSpec {
  const ROOT := 1
  const DOT := "."
  const DOTDOT := ".."

  datatype Ent = Ent(inum: nat, name: string)

  /** An inode: free, a file or device, or a directory with its entries. */
  datatype Node = Free | File(dev: bool, nlink: int) | Dir(nlink: int, ents: seq<Ent>)

  function NLink(n: Node): int {
    if n.Free? then 0 else n.nlink
  }

  /** The inode with its link count changed. */
  function WithLinks(n: Node, nlink: int): (r: Node)
    ensures !n.Free? ==> NLink(r) == nlink
    ensures (n.Dir? ==> r.Dir? && r.ents == n.ents) && (n.File? ==> r.File? && r.dev == n.dev)
  {
    match n
    case Free => Free
    case File(dev, _) => File(dev, nlink)
    case Dir(_, ents) => Dir(nlink, ents)
  }

  predicate Linked(n: Node) {
    n.Dir? && n.nlink > 0
  }

  /** What sys_unlink leaves in the slot. */
  const GONE := Ent(0, "")

  // ----- counting entries

  predicate Names(e: Ent, i: nat) {
    e.inum == i && e.name != DOT
  }

  function CountIn(ents: seq<Ent>, i: nat): nat {
    if ents == [] then 0 else CountIn(ents[..|ents| - 1], i) + if Names(ents[|ents| - 1], i) then 1 else 0
  }

  /** Entries of n that name i, "." apart; a directory that is not linked has no say. */
  function CountOf(n: Node, i: nat): nat {
    if Linked(n) then CountIn(n.ents, i) else 0
  }

  function Count(fs: seq<Node>, i: nat): nat {
    if fs == [] then 0 else Count(fs[..|fs| - 1], i) + CountOf(fs[|fs| - 1], i)
  }

  function One(b: bool): nat {
    if b then 1 else 0
  }

  lemma {:induction false} CountInPut(ents: seq<Ent>, k: nat, e: Ent, i: nat)
    requires k < |ents|
    ensures CountIn(ents[k := e], i) == CountIn(ents, i) - One(Names(ents[k], i)) + One(Names(e, i))
    ensures Names(ents[k], i) ==> CountIn(ents, i) >= 1
    decreases |ents|
  {
    var m := |ents| - 1;
    if k == m {
      assert ents[k := e][..m] == ents[..m];
    } else {
      CountInPut(ents[..m], k, e, i);
      assert ents[k := e][..m] == ents[..m][k := e];
    }
  }

  lemma CountInAdd(ents: seq<Ent>, e: Ent, i: nat)
    ensures CountIn(ents + [e], i) == CountIn(ents, i) + One(Names(e, i))
  {
    assert (ents + [e])[..|ents|] == ents;
  }

  lemma {:induction false} CountInNone(ents: seq<Ent>, i: nat)
    requires forall k | 0 <= k < |ents| :: !Names(ents[k], i)
    ensures CountIn(ents, i) == 0
    decreases |ents|
  {
    if ents != [] {
      CountInNone(ents[..|ents| - 1], i);
    }
  }

  /** Replacing inode d changes the count by what d's entries say. */
  lemma {:induction false} CountPut(fs: seq<Node>, d: nat, n: Node, i: nat)
    requires d < |fs|
    ensures Count(fs[d := n], i) == Count(fs, i) - CountOf(fs[d], i) + CountOf(n, i)
    ensures Count(fs, i) >= CountOf(fs[d], i)
    decreases |fs|
  {
    var m := |fs| - 1;
    if d == m {
      assert fs[d := n][..m] == fs[..m];
    } else {
      CountPut(fs[..m], d, n, i);
      assert fs[d := n][..m] == fs[..m][d := n];
    }
  }

  lemma {:induction false} CountNone(fs: seq<Node>, i: nat)
    requires forall d | 0 <= d < |fs| :: CountOf(fs[d], i) == 0
    ensures Count(fs, i) == 0
    decreases |fs|
  {
    if fs != [] {
      CountNone(fs[..|fs| - 1], i);
    }
  }

  // ----- the invariant

  type Homes = map<nat, (nat, nat)>

  ghost predicate Distinct(ents: seq<Ent>) {
    forall k, l | 0 <= k < l < |ents| && ents[k].inum != 0 && ents[l].inum != 0 :: ents[k].name != ents[l].name
  }

  /** Entry k of directory d. A subdirectory is named here and nowhere else. */
  ghost predicate EntOk(fs: seq<Node>, home: Homes, d: nat, k: nat)
    requires d < |fs| && fs[d].Dir? && k < |fs[d].ents|
  {
    var e := fs[d].ents[k];
    e.inum != 0 ==>
      && e.inum < |fs|
      && (k >= 2 && fs[e.inum].Dir? ==> e.inum in home && home[e.inum] == (d, k))
  }

  ghost predicate DirOk(fs: seq<Node>, home: Homes, d: nat)
    requires d < |fs| && fs[d].Dir?
  {
    var ents := fs[d].ents;
    && |ents| >= 2 && ents[0] == Ent(d, DOT) && ents[1].name == DOTDOT && ents[1].inum != 0 && Distinct(ents)
    && (if d == ROOT then ents[1].inum == ROOT else d in home && home[d].0 == ents[1].inum)
    && forall k: nat | k < |ents| :: EntOk(fs, home, d, k)
  }

  ghost predicate HomeOk(fs: seq<Node>, home: Homes, c: nat)
    requires c in home
  {
    var d, k := home[c].0, home[c].1;
    && c != ROOT && c != 0 && c < |fs| && Linked(fs[c]) && d < |fs| && Linked(fs[d])
    && 2 <= k < |fs[d].ents| && fs[d].ents[k].inum == c
  }

  /** LINK COUNTS. nlink is the number of entries naming the inode in linked directories,
      other than ".", plus the links that sys_link has promised and not yet entered. */
  ghost predicate CountOk(fs: seq<Node>, pend: seq<nat>, i: nat)
    requires i < |fs| == |pend|
  {
    NLink(fs[i]) == Count(fs, i) + pend[i] && (fs[i].Dir? ==> pend[i] == 0)
  }

  predicate Empty(ents: seq<Ent>) {
    forall k | 2 <= k < |ents| :: ents[k].inum == 0
  }

  /** Every directory, linked or not, has its "." and ".."; one that is not linked has
      nothing else. */
  ghost predicate DotsOk(fs: seq<Node>, d: nat)
    requires d < |fs| && fs[d].Dir?
  {
    var ents := fs[d].ents;
    && |ents| >= 2 && ents[0] == Ent(d, DOT) && ents[1].name == DOTDOT && 1 <= ents[1].inum < |fs|
    && (!Linked(fs[d]) ==> Empty(ents))
  }

  ghost predicate AllDotsOk(fs: seq<Node>) {
    forall d: nat | d < |fs| && fs[d].Dir? :: DotsOk(fs, d)
  }

  ghost predicate DirsOk(fs: seq<Node>, home: Homes) {
    forall d: nat | d < |fs| && Linked(fs[d]) :: DirOk(fs, home, d)
  }

  ghost predicate HomesOk(fs: seq<Node>, home: Homes) {
    forall c | c in home :: HomeOk(fs, home, c)
  }

  ghost predicate CountsOk(fs: seq<Node>, pend: seq<nat>) {
    |pend| == |fs| && forall i: nat | 1 <= i < |fs| :: CountOk(fs, pend, i)
  }

  ghost predicate Inv(fs: seq<Node>, pend: seq<nat>, home: Homes) {
    && |pend| == |fs| && ROOT < |fs| && Linked(fs[ROOT]) && fs[0] == Free
    && AllDotsOk(fs) && CountsOk(fs, pend) && DirsOk(fs, home) && HomesOk(fs, home)
  }

  /** The counts themselves, when no call of sys_link is under way. */
  ghost predicate Exact(fs: seq<Node>) {
    forall i: nat | 1 <= i < |fs| :: NLink(fs[i]) == Count(fs, i)
  }

  ghost predicate Settled(pend: seq<nat>) {
    forall i | 0 <= i < |pend| :: pend[i] == 0
  }

  lemma SettledExact(fs: seq<Node>, pend: seq<nat>)
    requires |pend| == |fs| && Settled(pend)
    ensures CountsOk(fs, pend) <==> Exact(fs)
  {
    forall i: nat | 1 <= i < |fs|
      ensures CountOk(fs, pend, i) <==> NLink(fs[i]) == Count(fs, i)
    {
    }
  }

  // ----- entries

  /** Only the first entry is called "." */
  lemma NotDot(fs: seq<Node>, home: Homes, d: nat, k: nat)
    requires d < |fs| && fs[d].Dir? && d != 0 && DirOk(fs, home, d) && 1 <= k < |fs[d].ents| && fs[d].ents[k].inum != 0
    ensures fs[d].ents[k].name != DOT
  {
    assert fs[d].ents[0].inum != 0;
  }

  lemma Counted(fs: seq<Node>, d: nat, k: nat, i: nat)
    requires d < |fs| && Linked(fs[d]) && k < |fs[d].ents| && Names(fs[d].ents[k], i)
    ensures Count(fs, i) >= 1
  {
    CountInPut(fs[d].ents, k, fs[d].ents[k], i);
    CountPut(fs, d, fs[d], i);
  }

  /** An inode with no links is named by no linked directory but itself. */
  lemma Unnamed(fs: seq<Node>, pend: seq<nat>, home: Homes, i: nat, d: nat, k: nat)
    requires Inv(fs, pend, home) && 1 <= i < |fs| && Count(fs, i) == 0 && d < |fs| && Linked(fs[d])
    requires 1 <= k < |fs[d].ents|
    ensures fs[d].ents[k].inum != i
  {
    if fs[d].ents[k].inum == i {
      assert DirOk(fs, home, d);
      NotDot(fs, home, d, k);
      Counted(fs, d, k, i);
    }
  }

  function PutEnt(ents: seq<Ent>, k: nat, e: Ent): seq<Ent>
    requires k <= |ents|
  {
    if k < |ents| then ents[k := e] else ents + [e]
  }

  function SetEnt(fs: seq<Node>, d: nat, k: nat, e: Ent): seq<Node>
    requires d < |fs| && fs[d].Dir? && k <= |fs[d].ents|
  {
    fs[d := fs[d].(ents := PutEnt(fs[d].ents, k, e))]
  }

  /** An entry put in an empty slot of a linked directory adds one link. */
  lemma CountAdded(fs: seq<Node>, d: nat, k: nat, e: Ent, j: nat)
    requires d < |fs| && Linked(fs[d]) && k <= |fs[d].ents| && (k < |fs[d].ents| ==> fs[d].ents[k].inum == 0) && j >= 1
    ensures Count(SetEnt(fs, d, k, e), j) == Count(fs, j) + One(Names(e, j))
  {
    var ents := fs[d].ents;
    if k < |ents| {
      CountInPut(ents, k, e, j);
    } else {
      CountInAdd(ents, e, j);
    }
    CountPut(fs, d, fs[d].(ents := PutEnt(ents, k, e)), j);
  }

  ghost predicate Absent(ents: seq<Ent>, name: string) {
    forall k | 0 <= k < |ents| && ents[k].inum != 0 :: ents[k].name != name
  }

  /** An empty slot for a name that is not there. */
  ghost predicate Slot(fs: seq<Node>, d: nat, k: nat, name: string)
    requires d < |fs| && fs[d].Dir?
  {
    k <= |fs[d].ents| && (k < |fs[d].ents| ==> fs[d].ents[k].inum == 0) && Absent(fs[d].ents, name)
  }

  /** The slot dirlink takes: the first empty one, or the end. */
  ghost predicate FirstSlot(fs: seq<Node>, d: nat, k: nat, name: string)
    requires d < |fs| && fs[d].Dir?
  {
    Slot(fs, d, k, name) && forall l | 0 <= l < k :: fs[d].ents[l].inum != 0
  }

  lemma SlotBeyond(fs: seq<Node>, home: Homes, d: nat, k: nat, name: string)
    requires 1 <= d < |fs| && fs[d].Dir? && DirOk(fs, home, d) && Slot(fs, d, k, name)
    ensures k >= 2 && name != DOT && name != DOTDOT
  {
    assert fs[d].ents[0].inum != 0 && fs[d].ents[1].inum != 0;
  }

  lemma EntDots(fs: seq<Node>, d: nat, k: nat, e: Ent)
    requires AllDotsOk(fs) && d < |fs| && Linked(fs[d]) && 2 <= k <= |fs[d].ents|
    ensures AllDotsOk(SetEnt(fs, d, k, e))
  {
    var gs := SetEnt(fs, d, k, e);
    forall c: nat | c < |gs| && gs[c].Dir? ensures DotsOk(gs, c) { assert DotsOk(fs, c); }
  }

  lemma NodeDots(fs: seq<Node>, i: nat, n: Node)
    requires AllDotsOk(fs) && i < |fs| && !n.Dir?
    ensures AllDotsOk(fs[i := n])
  {
    var gs := fs[i := n];
    forall c: nat | c < |gs| && gs[c].Dir? ensures DotsOk(gs, c) { assert DotsOk(fs, c); }
  }

  // ----- link

  lemma AddDirOk(fs: seq<Node>, home: Homes, d: nat, k: nat, e: Ent, c: nat)
    requires 1 <= d < |fs| && fs[d].Dir? && DirOk(fs, home, d) && Slot(fs, d, k, e.name)
    requires e.inum < |fs| && fs[e.inum].File? && c < |fs| && fs[c].Dir? && DirOk(fs, home, c)
    ensures DirOk(SetEnt(fs, d, k, e), home, c)
  {
    SlotBeyond(fs, home, d, k, e.name);
    var gs := SetEnt(fs, d, k, e);
    forall l: nat | l < |gs[c].ents|
      ensures EntOk(gs, home, c, l)
    {
      assert l < |fs[c].ents| ==> EntOk(fs, home, c, l);
    }
  }

  lemma AddDirsOk(fs: seq<Node>, home: Homes, d: nat, k: nat, e: Ent)
    requires 1 <= d < |fs| && Linked(fs[d]) && Slot(fs, d, k, e.name) && e.inum < |fs| && fs[e.inum].File?
    requires DirsOk(fs, home)
    ensures DirsOk(SetEnt(fs, d, k, e), home)
  {
    var gs := SetEnt(fs, d, k, e);
    forall c: nat | c < |gs| && Linked(gs[c]) ensures DirOk(gs, home, c) { AddDirOk(fs, home, d, k, e, c); }
  }

  lemma AddHomesOk(fs: seq<Node>, home: Homes, d: nat, k: nat, e: Ent)
    requires 1 <= d < |fs| && fs[d].Dir? && Slot(fs, d, k, e.name) && HomesOk(fs, home)
    ensures HomesOk(SetEnt(fs, d, k, e), home)
  {
    forall c | c in home ensures HomeOk(SetEnt(fs, d, k, e), home, c) { AddHomeOk(fs, home, d, k, e, c); }
  }

  lemma AddCountsOk(fs: seq<Node>, gs: seq<Node>, pend: seq<nat>, pend': seq<nat>, d: nat, k: nat, e: Ent, i: nat)
    requires CountsOk(fs, pend) && d < |fs| && Linked(fs[d]) && Slot(fs, d, k, e.name) && e.name != DOT
    requires 1 <= i < |fs| && fs[i].File? && e.inum == i && pend[i] >= 1
    requires gs == SetEnt(fs, d, k, e) && pend' == pend[i := pend[i] - 1]
    ensures CountsOk(gs, pend')
  {
    forall j: nat | 1 <= j < |gs|
      ensures CountOk(gs, pend', j)
    {
      assert CountOk(fs, pend, j);
      CountAdded(fs, d, k, e, j);
    }
  }

  lemma AddHomeOk(fs: seq<Node>, home: Homes, d: nat, k: nat, e: Ent, c: nat)
    requires 1 <= d < |fs| && fs[d].Dir? && k <= |fs[d].ents| && (k < |fs[d].ents| ==> fs[d].ents[k].inum == 0)
    requires c in home && HomeOk(fs, home, c)
    ensures HomeOk(SetEnt(fs, d, k, e), home, c)
  {
  }

  /** sys_link enters a promised link to a file. */
  lemma LinkInv(fs: seq<Node>, pend: seq<nat>, home: Homes, d: nat, k: nat, name: string, i: nat)
    requires Inv(fs, pend, home) && d < |fs| && Linked(fs[d]) && Slot(fs, d, k, name)
    requires 1 <= i < |fs| && fs[i].File? && pend[i] >= 1
    ensures Inv(SetEnt(fs, d, k, Ent(i, name)), pend[i := pend[i] - 1], home)
  {
    var e := Ent(i, name);
    var gs, pend' := SetEnt(fs, d, k, e), pend[i := pend[i] - 1];
    assert DirOk(fs, home, d);
    SlotBeyond(fs, home, d, k, name);
    AddCountsOk(fs, gs, pend, pend', d, k, e, i);
    EntDots(fs, d, k, e);
    AddDirsOk(fs, home, d, k, e);
    AddHomesOk(fs, home, d, k, e);
  }

  /** Putting a node that is no directory where none was linked. */
  lemma NodeDirsOk(fs: seq<Node>, home: Homes, i: nat, n: Node)
    requires DirsOk(fs, home) && i < |fs| && !Linked(fs[i]) && !n.Dir?
    ensures DirsOk(fs[i := n], home)
  {
    var gs := fs[i := n];
    forall c: nat | c < |gs| && Linked(gs[c])
      ensures DirOk(gs, home, c)
    {
      assert DirOk(fs, home, c);
      forall l: nat | l < |gs[c].ents| ensures EntOk(gs, home, c, l) { assert EntOk(fs, home, c, l); }
    }
  }

  lemma NodeHomesOk(fs: seq<Node>, home: Homes, i: nat, n: Node)
    requires HomesOk(fs, home) && i < |fs| && !Linked(fs[i]) && !n.Dir?
    ensures HomesOk(fs[i := n], home)
  {
    forall c | c in home ensures HomeOk(fs[i := n], home, c) { assert HomeOk(fs, home, c); }
  }

  lemma NodeCountsOk(fs: seq<Node>, pend: seq<nat>, i: nat, n: Node, p: nat)
    requires CountsOk(fs, pend) && i < |fs| && !Linked(fs[i]) && !n.Dir? && NLink(n) == NLink(fs[i]) + p - pend[i]
    ensures CountsOk(fs[i := n], pend[i := p])
  {
    var gs, pend' := fs[i := n], pend[i := p];
    forall j: nat | 1 <= j < |gs|
      ensures CountOk(gs, pend', j)
    {
      assert CountOk(fs, pend, j);
      CountPut(fs, i, n, j);
    }
  }

  /** Changing only the link count of a file, and the promise with it. */
  lemma PromiseInv(fs: seq<Node>, pend: seq<nat>, home: Homes, i: nat, n: Node, p: nat)
    requires Inv(fs, pend, home) && 1 <= i < |fs| && !fs[i].Dir? && !n.Dir? && NLink(n) == NLink(fs[i]) + p - pend[i]
    ensures Inv(fs[i := n], pend[i := p], home)
  {
    NodeDots(fs, i, n);
    NodeCountsOk(fs, pend, i, n, p);
    NodeDirsOk(fs, home, i, n);
    NodeHomesOk(fs, home, i, n);
  }

  // ----- create

  /** A directory made at inode i, entered in slot k of d, with d's extra link for "..". */
  function MadeDir(fs: seq<Node>, d: nat, k: nat, name: string, i: nat): seq<Node>
    requires d < |fs| && fs[d].Dir? && k <= |fs[d].ents| && i < |fs|
  {
    fs[i := Dir(1, [Ent(i, DOT), Ent(d, DOTDOT)])][d := Dir(fs[d].nlink + 1, PutEnt(fs[d].ents, k, Ent(i, name)))]
  }

  lemma MadeCount(fs: seq<Node>, pend: seq<nat>, home: Homes, d: nat, k: nat, name: string, i: nat, j: nat)
    requires Inv(fs, pend, home) && d < |fs| && Linked(fs[d]) && Slot(fs, d, k, name) && 1 <= i < |fs| && fs[i].Free?
    requires 1 <= j < |fs|
    ensures CountOk(MadeDir(fs, d, k, name, i), pend, j)
  {
    assert CountOk(fs, pend, j) && CountOk(fs, pend, i) && DirOk(fs, home, d);
    SlotBeyond(fs, home, d, k, name);
    MadeTotal(fs, d, k, name, i, j);
  }

  lemma MadeTotal(fs: seq<Node>, d: nat, k: nat, name: string, i: nat, j: nat)
    requires d < |fs| && Linked(fs[d]) && k <= |fs[d].ents| && (k < |fs[d].ents| ==> fs[d].ents[k].inum == 0)
    requires i < |fs| && fs[i].Free? && j >= 1 && name != DOT
    ensures Count(MadeDir(fs, d, k, name, i), j) == Count(fs, j) + One(j == i) + One(j == d)
  {
    var e, made := Ent(i, name), Dir(1, [Ent(i, DOT), Ent(d, DOTDOT)]);
    var fs1 := SetEnt(fs, d, k, e);
    CountAdded(fs, d, k, e, j);
    var fs2 := fs1[d := Dir(fs[d].nlink + 1, fs1[d].ents)];
    CountPut(fs1, d, fs2[d], j);
    CountPut(fs2, i, made, j);
    MadeEnts(i, d, j);
    assert fs2[i := made] == MadeDir(fs, d, k, name, i);
  }

  lemma MadeEnts(i: nat, d: nat, j: nat)
    ensures CountIn([Ent(i, DOT), Ent(d, DOTDOT)], j) == One(j == d)
  {
    var a, b := Ent(i, DOT), Ent(d, DOTDOT);
    CountInAdd([a], b, j);
    CountInAdd([], a, j);
    assert [a] + [b] == [a, b] && [] + [a] == [a];
  }

  /** MKDIR IN AN UNLINKED DIRECTORY gives that directory a link, so that its ".." counts
      again, and the inode named there, whichever it is now, has a link too few. */
  lemma MadeNowhere(fs: seq<Node>, pend: seq<nat>, home: Homes, d: nat, k: nat, name: string, i: nat)
    requires Inv(fs, pend, home) && 1 <= d < |fs| && fs[d].Dir? && !Linked(fs[d]) && Slot(fs, d, k, name)
    requires 1 <= i < |fs| && fs[i].Free?
    ensures !CountOk(MadeDir(fs, d, k, name, i), pend, fs[d].ents[1].inum)
  {
    var gs, p := MadeDir(fs, d, k, name, i), fs[d].ents[1].inum;
    assert DotsOk(fs, d) && CountOk(fs, pend, d) && CountOk(fs, pend, p);
    assert k >= 2 && name != DOT;
    var made := Dir(1, [Ent(i, DOT), Ent(d, DOTDOT)]);
    CountPut(fs, i, made, p);
    MadeEnts(i, d, p);
    CountPut(fs[i := made], d, gs[d], p);
    BackAgain(fs[d].ents, k, Ent(i, name), p);
  }

  lemma BackAgain(ents: seq<Ent>, k: nat, e: Ent, p: nat)
    requires |ents| >= 2 && Names(ents[1], p) && 2 <= k <= |ents| && e.name != DOT && p >= 1
    ensures CountIn(PutEnt(ents, k, e), p) >= 1 + One(e.inum == p)
  {
    if k < |ents| {
      CountInPut(ents, k, GONE, p);
      CountInPut(ents[k := GONE], 1, ents[1], p);
      CountInPut(ents[k := GONE], k, e, p);
      assert ents[k := GONE][k := e] == ents[k := e];
    } else {
      CountInPut(ents, 1, ents[1], p);
      CountInAdd(ents, e, p);
    }
  }

  /** fs is right, and gs is fs with directory i made in slot k of d. */
  ghost predicate Making(fs: seq<Node>, gs: seq<Node>, pend: seq<nat>, home: Homes, home': Homes, d: nat, k: nat,
                         name: string, i: nat)
  {
    && Inv(fs, pend, home) && d < |fs| && Linked(fs[d]) && Slot(fs, d, k, name) && 1 <= i < |fs| && fs[i].Free?
    && k >= 2 && gs == MadeDir(fs, d, k, name, i) && home' == home[i := (d, k)]
  }

  lemma MadeDirOk(fs: seq<Node>, gs: seq<Node>, pend: seq<nat>, home: Homes, home': Homes, d: nat, k: nat,
                  name: string, i: nat, c: nat)
    requires Making(fs, gs, pend, home, home', d, k, name, i) && c < |fs| && Linked(gs[c]) && c != i
    ensures DirOk(gs, home', c)
  {
    assert DirOk(fs, home, c);
    MadeShape(fs, gs, home, d, k, name, i, c);
    forall l: nat | l < |gs[c].ents|
      ensures EntOk(gs, home', c, l)
    {
      MadeEntOk(fs, gs, pend, home, home', d, k, name, i, c, l);
    }
  }

  lemma MadeShape(fs: seq<Node>, gs: seq<Node>, home: Homes, d: nat, k: nat, name: string, i: nat, c: nat)
    requires d < |fs| && fs[d].Dir? && Slot(fs, d, k, name) && k >= 2 && i < |fs|
    requires gs == MadeDir(fs, d, k, name, i) && c < |fs| && fs[c].Dir? && c != i && DirOk(fs, home, c)
    ensures gs[c].Dir? && |gs[c].ents| >= |fs[c].ents|
    ensures gs[c].ents[0] == fs[c].ents[0] && gs[c].ents[1] == fs[c].ents[1]
    ensures Distinct(gs[c].ents)
  {
  }

  lemma MadeNewOk(fs: seq<Node>, gs: seq<Node>, pend: seq<nat>, home: Homes, home': Homes, d: nat, k: nat,
                  name: string, i: nat)
    requires Making(fs, gs, pend, home, home', d, k, name, i)
    ensures DirOk(gs, home', i)
  {
    assert DirOk(fs, home, d);
  }

  lemma MadeEntOk(fs: seq<Node>, gs: seq<Node>, pend: seq<nat>, home: Homes, home': Homes, d: nat, k: nat,
                  name: string, i: nat, c: nat, l: nat)
    requires Making(fs, gs, pend, home, home', d, k, name, i)
    requires c < |fs| && c != i && Linked(fs[c]) && gs[c].Dir? && l < |gs[c].ents|
    ensures EntOk(gs, home', c, l)
  {
    if c == d && l == k {
      assert CountOk(fs, pend, i);
    } else {
      FreeUnnamed(fs, pend, home, i, c, l);
      EntStays(fs, gs, home, home', d, k, name, i, c, l);
    }
  }

  lemma FreeUnnamed(fs: seq<Node>, pend: seq<nat>, home: Homes, i: nat, c: nat, l: nat)
    requires Inv(fs, pend, home) && 1 <= i < |fs| && fs[i].Free? && c < |fs| && Linked(fs[c]) && l < |fs[c].ents|
    ensures EntOk(fs, home, c, l) && fs[c].ents[l].inum != i
  {
    assert DirOk(fs, home, c);
    if l >= 1 {
      assert CountOk(fs, pend, i);
      Unnamed(fs, pend, home, i, c, l);
    }
  }

  lemma EntStays(fs: seq<Node>, gs: seq<Node>, home: Homes, home': Homes, d: nat, k: nat, name: string, i: nat,
                 c: nat, l: nat)
    requires d < |fs| && Linked(fs[d]) && Slot(fs, d, k, name) && i < |fs| && fs[i].Free?
    requires gs == MadeDir(fs, d, k, name, i) && home' == home[i := (d, k)]
    requires c < |fs| && c != i && fs[c].Dir? && l < |fs[c].ents| && !(c == d && l == k)
    requires EntOk(fs, home, c, l) && fs[c].ents[l].inum != i
    ensures EntOk(gs, home', c, l)
  {
  }

  lemma MadeInv(fs: seq<Node>, pend: seq<nat>, home: Homes, d: nat, k: nat, name: string, i: nat)
    requires Inv(fs, pend, home) && d < |fs| && Linked(fs[d]) && Slot(fs, d, k, name) && 1 <= i < |fs| && fs[i].Free?
    ensures Inv(MadeDir(fs, d, k, name, i), pend, home[i := (d, k)])
  {
    var gs, home' := MadeDir(fs, d, k, name, i), home[i := (d, k)];
    assert DirOk(fs, home, d);
    SlotBeyond(fs, home, d, k, name);
    forall j: nat | 1 <= j < |gs|
      ensures CountOk(gs, pend, j)
    {
      MadeCount(fs, pend, home, d, k, name, i, j);
    }
    forall c: nat | c < |gs| && gs[c].Dir? ensures DotsOk(gs, c) { MadeDots(fs, pend, home, d, k, name, i, c); }
    MadeDirsOk(fs, gs, pend, home, home', d, k, name, i);
  }

  lemma MadeDots(fs: seq<Node>, pend: seq<nat>, home: Homes, d: nat, k: nat, name: string, i: nat, c: nat)
    requires Inv(fs, pend, home) && d < |fs| && fs[d].Dir? && 2 <= k <= |fs[d].ents| && i < |fs| && fs[i].Free?
    requires c < |fs| && MadeDir(fs, d, k, name, i)[c].Dir?
    ensures Linked(fs[d]) ==> DotsOk(MadeDir(fs, d, k, name, i), c)
  {
    assert c != i ==> DotsOk(fs, c);
  }

  lemma MadeDirsOk(fs: seq<Node>, gs: seq<Node>, pend: seq<nat>, home: Homes, home': Homes, d: nat, k: nat,
                   name: string, i: nat)
    requires Making(fs, gs, pend, home, home', d, k, name, i)
    ensures forall c: nat | c < |gs| && Linked(gs[c]) :: DirOk(gs, home', c)
    ensures forall c | c in home' :: HomeOk(gs, home', c)
  {
    forall c: nat | c < |gs| && Linked(gs[c])
      ensures DirOk(gs, home', c)
    {
      if c == i {
        MadeNewOk(fs, gs, pend, home, home', d, k, name, i);
      } else {
        MadeDirOk(fs, gs, pend, home, home', d, k, name, i, c);
      }
    }
    forall c | c in home'
      ensures HomeOk(gs, home', c)
    {
      MadeHomeOk(fs, gs, pend, home, home', d, k, name, i, c);
    }
  }

  lemma MadeHomeOk(fs: seq<Node>, gs: seq<Node>, pend: seq<nat>, home: Homes, home': Homes, d: nat, k: nat,
                   name: string, i: nat, c: nat)
    requires Making(fs, gs, pend, home, home', d, k, name, i) && c in home'
    ensures HomeOk(gs, home', c)
  {
    if c == i {
      assert CountOk(fs, pend, i) && DirOk(fs, home, d);
    } else {
      assert HomeOk(fs, home, c);
      HomeStays(fs, gs, home, home', d, k, name, i, c);
    }
  }

  lemma HomeStays(fs: seq<Node>, gs: seq<Node>, home: Homes, home': Homes, d: nat, k: nat, name: string, i: nat,
                  c: nat)
    requires d < |fs| && Linked(fs[d]) && Slot(fs, d, k, name) && i < |fs| && fs[i].Free?
    requires gs == MadeDir(fs, d, k, name, i) && home' == home[i := (d, k)] && c in home && c != i
    requires HomeOk(fs, home, c)
    ensures HomeOk(gs, home', c)
  {
  }

  // ----- unlink

  /** One entry naming i goes. */
  lemma CountRemoved(fs: seq<Node>, d: nat, k: nat, j: nat)
    requires d < |fs| && Linked(fs[d]) && k < |fs[d].ents| && fs[d].ents[k].name != DOT && j >= 1
    ensures Count(fs, j) == Count(SetEnt(fs, d, k, GONE), j) + One(fs[d].ents[k].inum == j)
  {
    CountInPut(fs[d].ents, k, GONE, j);
    CountPut(fs, d, fs[d].(ents := fs[d].ents[k := GONE]), j);
  }

  lemma RemovedDirOk(fs: seq<Node>, home: Homes, d: nat, k: nat, c: nat)
    requires d < |fs| && fs[d].Dir? && 2 <= k < |fs[d].ents| && c < |fs| && fs[c].Dir? && DirOk(fs, home, c)
    ensures DirOk(SetEnt(fs, d, k, GONE), home, c)
  {
    var gs := SetEnt(fs, d, k, GONE);
    forall l: nat | l < |gs[c].ents|
      ensures EntOk(gs, home, c, l)
    {
      assert EntOk(fs, home, c, l);
    }
  }

  lemma RemovedHomeOk(fs: seq<Node>, home: Homes, d: nat, k: nat, c: nat)
    requires d < |fs| && fs[d].Dir? && k < |fs[d].ents| && fs[d].ents[k].inum < |fs| && !fs[fs[d].ents[k].inum].Dir?
    requires c in home && HomeOk(fs, home, c)
    ensures HomeOk(SetEnt(fs, d, k, GONE), home, c)
  {
  }

  lemma RemovedCountsOk(fs: seq<Node>, pend: seq<nat>, d: nat, k: nat, i: nat)
    requires CountsOk(fs, pend) && d < |fs| && Linked(fs[d]) && k < |fs[d].ents| && fs[d].ents[k].name != DOT
    requires fs[d].ents[k].inum == i && 1 <= i < |fs| && fs[i].File?
    ensures CountsOk(SetEnt(fs, d, k, GONE), pend[i := pend[i] + 1])
  {
    var gs, pend' := SetEnt(fs, d, k, GONE), pend[i := pend[i] + 1];
    forall j: nat | 1 <= j < |gs|
      ensures CountOk(gs, pend', j)
    {
      assert CountOk(fs, pend, j);
      CountRemoved(fs, d, k, j);
    }
  }

  /** Taking an entry for a file away leaves one link more than there are entries. */
  lemma RemoveInv(fs: seq<Node>, pend: seq<nat>, home: Homes, d: nat, k: nat, i: nat)
    requires Inv(fs, pend, home) && d < |fs| && Linked(fs[d]) && 2 <= k < |fs[d].ents|
    requires fs[d].ents[k].inum == i && 1 <= i < |fs| && fs[i].File?
    ensures Inv(SetEnt(fs, d, k, GONE), pend[i := pend[i] + 1], home)
  {
    assert DirOk(fs, home, d);
    NotDot(fs, home, d, k);
    RemovedCountsOk(fs, pend, d, k, i);
    EntDots(fs, d, k, GONE);
    RemovedDirsOk(fs, home, d, k);
  }

  lemma RemovedDirsOk(fs: seq<Node>, home: Homes, d: nat, k: nat)
    requires DirsOk(fs, home) && HomesOk(fs, home) && d < |fs| && fs[d].Dir? && 2 <= k < |fs[d].ents|
    requires fs[d].ents[k].inum < |fs| && !fs[fs[d].ents[k].inum].Dir?
    ensures DirsOk(SetEnt(fs, d, k, GONE), home) && HomesOk(SetEnt(fs, d, k, GONE), home)
  {
    var gs := SetEnt(fs, d, k, GONE);
    forall c: nat | c < |gs| && Linked(gs[c]) ensures DirOk(gs, home, c) { RemovedDirOk(fs, home, d, k, c); }
    forall c | c in home ensures HomeOk(gs, home, c) { RemovedHomeOk(fs, home, d, k, c); }
  }

  /** sys_unlink of a file. */
  lemma UnlinkFileInv(fs: seq<Node>, pend: seq<nat>, home: Homes, d: nat, k: nat, i: nat)
    requires Inv(fs, pend, home) && d < |fs| && Linked(fs[d]) && 2 <= k < |fs[d].ents|
    requires fs[d].ents[k].inum == i && 1 <= i < |fs| && fs[i].File?
    ensures fs[i].nlink >= 1 && Inv(SetEnt(fs, d, k, GONE)[i := WithLinks(fs[i], fs[i].nlink - 1)], pend, home)
  {
    HasLink(fs, pend, home, d, k, i);
    RemoveInv(fs, pend, home, d, k, i);
    var gs, pend' := SetEnt(fs, d, k, GONE), pend[i := pend[i] + 1];
    assert gs[i] == fs[i];
    PromiseInv(gs, pend', home, i, WithLinks(fs[i], fs[i].nlink - 1), pend[i]);
    assert pend'[i := pend[i]] == pend;
  }

  lemma HasLink(fs: seq<Node>, pend: seq<nat>, home: Homes, d: nat, k: nat, i: nat)
    requires Inv(fs, pend, home) && d < |fs| && Linked(fs[d]) && 2 <= k < |fs[d].ents|
    requires fs[d].ents[k].inum == i && 1 <= i < |fs| && fs[i].File?
    ensures fs[i].nlink >= 1 && |pend| == |fs|
  {
    assert DirOk(fs, home, d) && CountOk(fs, pend, i);
    NotDot(fs, home, d, k);
    Counted(fs, d, k, i);
  }

  /** The situation of sys_unlink on directory c, entry k of d. */
  ghost predicate Removable(fs: seq<Node>, pend: seq<nat>, home: Homes, d: nat, k: nat, c: nat) {
    && Inv(fs, pend, home) && d < |fs| && Linked(fs[d]) && 2 <= k < |fs[d].ents|
    && fs[d].ents[k].inum == c && 1 <= c < |fs| && fs[c].Dir? && Empty(fs[c].ents)
  }

  /** c is d's child and nobody's parent. */
  lemma ChildOf(fs: seq<Node>, pend: seq<nat>, home: Homes, d: nat, k: nat, c: nat)
    requires Removable(fs, pend, home, d, k, c)
    ensures c != d && c != ROOT && c in home && home[c] == (d, k) && Linked(fs[c]) && DirOk(fs, home, c)
    ensures fs[c].ents[1].inum == d
    ensures forall x | x in home :: home[x].0 != c
  {
    assert DirOk(fs, home, d) && EntOk(fs, home, d, k);
    assert HomeOk(fs, home, c);
    assert DirOk(fs, home, c);
    forall x | x in home
      ensures home[x].0 != c
    {
      assert HomeOk(fs, home, x);
    }
  }

  /** Without its entry, c is named by no linked directory. */
  lemma NoneNames(fs: seq<Node>, pend: seq<nat>, home: Homes, d: nat, k: nat, c: nat)
    requires Removable(fs, pend, home, d, k, c)
    ensures Count(SetEnt(fs, d, k, GONE), c) == 0 && fs[c].nlink == 1
  {
    var gs := SetEnt(fs, d, k, GONE);
    ChildOf(fs, pend, home, d, k, c);
    forall x | 0 <= x < |gs|
      ensures CountOf(gs[x], c) == 0
    {
      if Linked(gs[x]) {
        assert DirOk(fs, home, x);
        NoneNamesIn(fs, home, d, k, c, x);
      }
    }
    CountNone(gs, c);
    assert DirOk(fs, home, d) && CountOk(fs, pend, c);
    NotDot(fs, home, d, k);
    CountRemoved(fs, d, k, c);
  }

  lemma NoneNamesIn(fs: seq<Node>, home: Homes, d: nat, k: nat, c: nat, x: nat)
    requires d < |fs| && fs[d].Dir? && 2 <= k < |fs[d].ents| && 2 <= c < |fs| && fs[c].Dir? && c in home
    requires home[c] == (d, k)
    requires x < |fs| && fs[x].Dir? && DirOk(fs, home, x) && (x in home ==> home[x].0 != c)
    ensures CountIn(SetEnt(fs, d, k, GONE)[x].ents, c) == 0
  {
    var ents := SetEnt(fs, d, k, GONE)[x].ents;
    forall l: nat | l < |ents|
      ensures !Names(ents[l], c)
    {
      assert l < |fs[x].ents| && EntOk(fs, home, x, l);
    }
    CountInNone(ents, c);
  }

  /** An empty directory counts for its parent alone. */
  lemma EmptyCount(fs: seq<Node>, home: Homes, c: nat, j: nat)
    requires 1 <= c < |fs| && fs[c].Dir? && DirOk(fs, home, c) && Empty(fs[c].ents) && j >= 1
    ensures CountIn(fs[c].ents, j) == One(fs[c].ents[1].inum == j)
  {
    var ents := fs[c].ents;
    CountInPut(ents, 1, GONE, j);
    CountInNone(ents[1 := GONE], j);
  }

  /** The directory after sys_unlink: no entry, one link less in d, none in c. */
  function Rmdir(fs: seq<Node>, d: nat, k: nat, c: nat): seq<Node>
    requires d < |fs| && fs[d].Dir? && k < |fs[d].ents| && c < |fs| && fs[c].Dir?
  {
    fs[c := Dir(fs[c].nlink - 1, fs[c].ents)][d := Dir(fs[d].nlink - 1, fs[d].ents[k := GONE])]
  }

  /** The parent has another link: its own entry, or the root's "..". */
  lemma ParentStays(fs: seq<Node>, pend: seq<nat>, home: Homes, d: nat, k: nat, c: nat)
    requires Removable(fs, pend, home, d, k, c)
    ensures fs[d].nlink >= 2
  {
    ChildOf(fs, pend, home, d, k, c);
    assert DirOk(fs, home, d) && CountOk(fs, pend, d);
    var hs := fs[c := Dir(0, fs[c].ents)];
    CountPut(fs, c, hs[c], d);
    EmptyCount(fs, home, c, d);
    if d == ROOT {
      Counted(hs, d, 1, d);
    } else {
      assert HomeOk(fs, home, d) && DirOk(fs, home, home[d].0);
      NotDot(fs, home, home[d].0, home[d].1);
      Counted(hs, home[d].0, home[d].1, d);
    }
  }

  lemma RmdirCount(fs: seq<Node>, pend: seq<nat>, home: Homes, d: nat, k: nat, c: nat, j: nat)
    requires Removable(fs, pend, home, d, k, c) && 1 <= j < |fs|
    ensures CountOk(Rmdir(fs, d, k, c), pend, j)
  {
    ChildOf(fs, pend, home, d, k, c);
    ParentStays(fs, pend, home, d, k, c);
    NoneNames(fs, pend, home, d, k, c);
    assert CountOk(fs, pend, j) && DirOk(fs, home, d);
    NotDot(fs, home, d, k);
    RmdirTotal(fs, home, d, k, c, j);
  }

  lemma RmdirTotal(fs: seq<Node>, home: Homes, d: nat, k: nat, c: nat, j: nat)
    requires d < |fs| && Linked(fs[d]) && fs[d].nlink >= 2 && k < |fs[d].ents| && fs[d].ents[k].name != DOT
    requires fs[d].ents[k].inum == c
    requires 1 <= c < |fs| && c != d && Linked(fs[c]) && fs[c].nlink == 1 && DirOk(fs, home, c) && Empty(fs[c].ents)
    requires fs[c].ents[1].inum == d
    requires j >= 1
    ensures Count(fs, j) == Count(Rmdir(fs, d, k, c), j) + One(j == c) + One(j == d)
  {
    var gs, ks := SetEnt(fs, d, k, GONE), Rmdir(fs, d, k, c);
    var hs := gs[c := Dir(0, fs[c].ents)];
    CountRemoved(fs, d, k, j);
    CountPut(gs, c, hs[c], j);
    EmptyCount(fs, home, c, j);
    CountPut(hs, d, ks[d], j);
    assert hs[d := ks[d]] == ks;
  }

  /** sys_unlink of an empty directory. */
  lemma RmdirInv(fs: seq<Node>, pend: seq<nat>, home: Homes, d: nat, k: nat, c: nat)
    requires Removable(fs, pend, home, d, k, c)
    ensures Inv(Rmdir(fs, d, k, c), pend, home - {c})
  {
    var ks, home' := Rmdir(fs, d, k, c), home - {c};
    ChildOf(fs, pend, home, d, k, c);
    ParentStays(fs, pend, home, d, k, c);
    NoneNames(fs, pend, home, d, k, c);
    forall j: nat | 1 <= j < |ks| ensures CountOk(ks, pend, j) { RmdirCount(fs, pend, home, d, k, c, j); }
    RmdirDots(fs, d, k, c);
    forall x: nat | x < |ks| && Linked(ks[x]) ensures DirOk(ks, home', x) { RmdirDirOk(fs, home, d, k, c, x); }
    forall x | x in home' ensures HomeOk(ks, home', x) { RmdirHomeOk(fs, home, d, k, c, x); }
  }

  lemma RmdirDots(fs: seq<Node>, d: nat, k: nat, c: nat)
    requires d < |fs| && Linked(fs[d]) && fs[d].nlink >= 2 && 2 <= k < |fs[d].ents| && c < |fs| && c != d
    requires fs[c].Dir? && Empty(fs[c].ents) && AllDotsOk(fs)
    ensures AllDotsOk(Rmdir(fs, d, k, c))
  {
    var ks := Rmdir(fs, d, k, c);
    forall x: nat | x < |fs| && ks[x].Dir? ensures DotsOk(ks, x) { assert DotsOk(fs, x); }
  }

  lemma RmdirHomeOk(fs: seq<Node>, home: Homes, d: nat, k: nat, c: nat, x: nat)
    requires d < |fs| && Linked(fs[d]) && fs[d].nlink >= 2 && k < |fs[d].ents| && c < |fs| && fs[c].Dir?
    requires fs[d].ents[k].inum == c && c != d
    requires x in home && x != c && home[x].0 != c && HomeOk(fs, home, x)
    ensures HomeOk(Rmdir(fs, d, k, c), home - {c}, x)
  {
  }

  lemma RmdirDirOk(fs: seq<Node>, home: Homes, d: nat, k: nat, c: nat, x: nat)
    requires d < |fs| && fs[d].Dir? && 2 <= k < |fs[d].ents| && 2 <= c < |fs| && fs[c].Dir? && c in home
    requires home[c] == (d, k) && c != d
    requires x < |fs| && x != c && fs[x].Dir? && DirOk(fs, home, x) && fs[d].ents[k].inum == c
    ensures DirOk(Rmdir(fs, d, k, c), home - {c}, x)
  {
    var ks, home' := Rmdir(fs, d, k, c), home - {c};
    assert ks[x].ents == if x == d then fs[d].ents[k := GONE] else fs[x].ents;
    forall l: nat | l < |ks[x].ents|
      ensures EntOk(ks, home', x, l)
    {
      assert EntOk(fs, home, x, l);
    }
  }

  // ----- the last reference goes

  /** iput frees an inode without links. */
  lemma FreeInv(fs: seq<Node>, pend: seq<nat>, home: Homes, i: nat)
    requires Inv(fs, pend, home) && 1 <= i < |fs| && NLink(fs[i]) == 0
    ensures Inv(fs[i := Free], pend, home)
  {
    assert CountOk(fs, pend, i);
    NodeDots(fs, i, Free);
    NodeCountsOk(fs, pend, i, Free, pend[i]);
    NodeDirsOk(fs, home, i, Free);
    NodeHomesOk(fs, home, i, Free);
    assert pend[i := pend[i]] == pend;
  }
}
