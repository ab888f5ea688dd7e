/** create, sys_link and sys_unlink over directory entries and link counts (sysfile.c,
    fs.c). A call works under the locks of the inodes it changes, so it is one step here;
    sys_link, which lets go of its inode in between, is two. */
module Links {
  import opened Wrappers
  import opened LinkSpec

  datatype Outcome = Ok | Fail | Panic

  /** What create is asked for: T_FILE, T_DIR or T_DEV. */
  datatype Kind = TFile | TDir | TDev

  /** Entry k of d has this name, and what it names is no directory in use. */
  ghost predicate Unlinkable(fs: seq<Node>, d: nat, k: nat, name: string) {
    && d < |fs| && fs[d].Dir? && k < |fs[d].ents| && fs[d].ents[k].inum != 0 && fs[d].ents[k].name == name
    && fs[d].ents[k].inum < |fs| && (fs[fs[d].ents[k].inum].Dir? ==> Empty(fs[fs[d].ents[k].inum].ents))
  }

  /** Inode i is a directory with an entry in use behind the first two. */
  ghost predicate InUse(fs: seq<Node>, i: nat) {
    i < |fs| && fs[i].Dir? && exists l :: 2 <= l < |fs[i].ents| && fs[i].ents[l].inum != 0
  }

  /** d has an entry with this name for inode i. */
  ghost predicate Named(fs: seq<Node>, d: nat, name: string, i: nat)
    requires d < |fs| && fs[d].Dir?
  {
    i != 0 && Ent(i, name) in fs[d].ents
  }

  /** Inode i made and entered in slot k of d. */
  function Made(fs: seq<Node>, d: nat, k: nat, name: string, i: nat, kind: Kind): seq<Node>
    requires d < |fs| && fs[d].Dir? && k <= |fs[d].ents| && i < |fs| && fs[i].Free?
  {
    if kind == TDir then MadeDir(fs, d, k, name, i) else SetEnt(fs[i := File(kind == TDev, 1)], d, k, Ent(i, name))
  }

  /** An entry in use, not "." or "..", is the only one of its name, in a linked directory,
      and what it names has a link. */
  lemma Entry(fs: seq<Node>, pend: seq<nat>, home: Homes, d: nat, k: nat, name: string)
    requires Inv(fs, pend, home) && d < |fs| && fs[d].Dir? && k < |fs[d].ents| && fs[d].ents[k].inum != 0
    requires fs[d].ents[k].name == name && name != DOT && name != DOTDOT
    ensures Linked(fs[d]) && k >= 2 && Absent(fs[d].ents[k := GONE], name)
    ensures fs[d].ents[k].inum < |fs| && !fs[fs[d].ents[k].inum].Free? && fs[fs[d].ents[k].inum].nlink >= 1
    ensures forall l | 0 <= l < |fs[d].ents| && fs[d].ents[l].inum != 0 && fs[d].ents[l].name == name :: l == k
  {
    assert DotsOk(fs, d);
    assert k >= 2 && Linked(fs[d]);
    assert DirOk(fs, home, d);
    assert EntOk(fs, home, d, k) && CountOk(fs, pend, fs[d].ents[k].inum);
    NotDot(fs, home, d, k);
    Counted(fs, d, k, fs[d].ents[k].inum);
    OnlyOne(fs, home, d, k, name);
  }

  /** Names are distinct, so taking an entry out takes the name out. */
  lemma OnlyOne(fs: seq<Node>, home: Homes, d: nat, k: nat, name: string)
    requires 1 <= d < |fs| && fs[d].Dir? && DirOk(fs, home, d) && k < |fs[d].ents| && fs[d].ents[k].inum != 0
    requires fs[d].ents[k].name == name
    requires name != DOT && name != DOTDOT
    ensures k >= 2 && Absent(fs[d].ents[k := GONE], name)
    ensures forall l: nat | Unlinkable(fs, d, l, name) :: l == k
  {
  }

  /** The entry gone and the counts taken down. */
  function Erasing(fs: seq<Node>, d: nat, k: nat, i: nat): seq<Node>
    requires d < |fs| && fs[d].Dir? && k < |fs[d].ents| && i < |fs| && !fs[i].Free?
  {
    if fs[i].Dir? then Rmdir(fs, d, k, i) else SetEnt(fs, d, k, GONE)[i := WithLinks(fs[i], fs[i].nlink - 1)]
  }

  lemma Erased(fs: seq<Node>, pend: seq<nat>, home: Homes, d: nat, k: nat, i: nat)
    requires Inv(fs, pend, home) && d < |fs| && Linked(fs[d]) && 2 <= k < |fs[d].ents| && fs[d].ents[k].inum == i
    requires 1 <= i < |fs|
    requires !fs[i].Free? && (fs[i].Dir? ==> Empty(fs[i].ents))
    ensures i != d && Inv(Erasing(fs, d, k, i), pend, if fs[i].Dir? then home - {i} else home)
  {
    if fs[i].Dir? {
      RmdirInv(fs, pend, home, d, k, i);
      ChildOf(fs, pend, home, d, k, i);
    } else {
      UnlinkFileInv(fs, pend, home, d, k, i);
    }
  }

  lemma RootOnly(fs: seq<Node>, pend: seq<nat>)
    requires |fs| == |pend| > ROOT && fs[ROOT] == Dir(1, [Ent(ROOT, DOT), Ent(ROOT, DOTDOT)])
    requires forall i | 0 <= i < |fs| && i != ROOT :: fs[i] == Free
    requires forall i | 0 <= i < |pend| :: pend[i] == 0
    ensures Inv(fs, pend, map[])
  {
    forall i: nat | 1 <= i < |fs|
      ensures CountOk(fs, pend, i)
    {
      CountPut(fs, ROOT, Free, i);
      CountNone(fs[ROOT := Free], i);
      MadeEnts(ROOT, ROOT, i);
    }
    assert DirOk(fs, map[], ROOT) && DotsOk(fs, ROOT);
  }

  class Tree {
    var fs: seq<Node>
    ghost var pend: seq<nat>
    ghost var home: Homes

    ghost predicate Valid()
      reads this
    {
      Inv(fs, pend, home)
    }

    /** mkfs's image: the root directory, its own parent, and nothing else. */
    constructor (ninodes: nat)
      requires ninodes > ROOT
      ensures Valid() && |fs| == ninodes && fs[ROOT] == Dir(1, [Ent(ROOT, DOT), Ent(ROOT, DOTDOT)])
      ensures forall i | 0 <= i < ninodes && i != ROOT :: fs[i] == Free
      ensures |pend| == ninodes && Settled(pend) && Exact(fs)
    {
      fs := seq(ninodes, i => if i == ROOT then Dir(1, [Ent(ROOT, DOT), Ent(ROOT, DOTDOT)]) else Free);
      pend := seq(ninodes, i => 0);
      home := map[];
      new;
      RootOnly(fs, pend);
      SettledExact(fs, pend);
    }

    /** dirlookup: the entry with this name, if there is one. */
    method Dirlookup(d: nat, name: string) returns (r: Option<nat>)
      requires d < |fs| && fs[d].Dir?
      ensures r.Some? ==> r.value < |fs[d].ents| && fs[d].ents[r.value].inum != 0 && fs[d].ents[r.value].name == name
      ensures r.None? <==> Absent(fs[d].ents, name)
    {
      var off := 0;
      while off < |fs[d].ents|
        invariant off <= |fs[d].ents|
        invariant forall k | 0 <= k < off && fs[d].ents[k].inum != 0 :: fs[d].ents[k].name != name
      {
        if fs[d].ents[off].inum != 0 && fs[d].ents[off].name == name {
          return Some(off);
        }
        off := off + 1;
      }
      return None;
    }

    /** dirlink: a new entry in the first empty slot or at the end, unless the name is taken. */
    method Dirlink(d: nat, name: string, inum: nat) returns (ok: bool, ghost k: nat)
      requires d < |fs| && fs[d].Dir?
      modifies this`fs
      ensures ok <==> Absent(old(fs)[d].ents, name)
      ensures ok ==> FirstSlot(old(fs), d, k, name) && fs == SetEnt(old(fs), d, k, Ent(inum, name))
      // the first empty slot, or a new one at the end
      ensures var ents := old(fs)[d].ents;
              && (ok <==> forall l | 0 <= l < |ents| && ents[l].name == name :: ents[l].inum == 0)
              && (ok ==> k <= |ents| && (k < |ents| ==> ents[k].inum == 0))
              && (ok ==> forall l | 0 <= l < k :: ents[l].inum != 0)
              && (ok ==> fs == old(fs)[d := Dir(old(fs)[d].nlink, ents[..k] + [Ent(inum, name)] +
                                                if k < |ents| then ents[k + 1..] else [])])
      ensures !ok ==> fs == old(fs)
    {
      k := 0;
      var found := Dirlookup(d, name);
      if found.Some? {
        return false, 0;
      }
      var off := 0;
      while off < |fs[d].ents| && fs[d].ents[off].inum != 0
        invariant off <= |fs[d].ents| && forall l | 0 <= l < off :: fs[d].ents[l].inum != 0
      {
        off := off + 1;
      }
      fs := fs[d := fs[d].(ents := PutEnt(fs[d].ents, off, Ent(inum, name)))];
      ghost var ents, e := old(fs)[d].ents, Ent(inum, name);
      assert PutEnt(ents, off, e) == ents[..off] + [e] + if off < |ents| then ents[off + 1..] else [];
      return true, off;
    }

    /** isdirempty: nothing beyond "." and "..". */
    method Isdirempty(d: nat) returns (b: bool)
      requires d < |fs| && fs[d].Dir?
      ensures b <==> Empty(fs[d].ents)
    {
      var off := 2;
      while off < |fs[d].ents|
        invariant 2 <= off && forall k | 2 <= k < off && k < |fs[d].ents| :: fs[d].ents[k].inum == 0
      {
        if fs[d].ents[off].inum != 0 {
          return false;
        }
        off := off + 1;
      }
      return true;
    }

    /** sys_link up to the point where the inode is unlocked: one more link is promised. */
    method LinkBegin(i: nat) returns (r: Outcome)
      requires Valid() && 1 <= i < |fs| && !fs[i].Free?
      modifies this`fs, this`pend
      ensures Valid() && (r == Fail <==> old(fs)[i].Dir?) && r != Panic
      ensures r == Fail ==> fs == old(fs) && pend == old(pend)
      ensures r == Ok ==> fs == old(fs)[i := WithLinks(old(fs)[i], old(fs)[i].nlink + 1)]
      ensures r == Ok ==> pend == old(pend)[i := old(pend)[i] + 1]
    {
      if fs[i].Dir? {
        return Fail;
      }
      var file := WithLinks(fs[i], fs[i].nlink + 1);
      ghost var p := pend[i] + 1;
      PromiseInv(fs, pend, home, i, file, p);
      fs := fs[i := file];
      pend := pend[i := p];
      return Ok;
    }

    /** The rest of sys_link: the entry is made in the parent, or the link taken back. The
        counts are right afterwards if and only if no entry went into a directory that is
        itself unlinked. */
    method LinkEnd(i: nat, dp: Option<nat>, name: string) returns (r: Outcome)
      requires Valid() && 1 <= i < |fs| && fs[i].File? && pend[i] >= 1
      requires dp.Some? ==> 1 <= dp.value < |fs| && fs[dp.value].Dir?
      modifies this`fs, this`pend
      ensures r == Ok <==> dp.Some? && Absent(old(fs)[dp.value].ents, name)
      ensures r != Ok ==> r == Fail && Valid() && fs == old(fs)[i := WithLinks(old(fs)[i], old(fs)[i].nlink - 1)]
      ensures r == Ok ==> (CountsOk(fs, pend) <==> Linked(old(fs)[dp.value]))
      ensures r == Ok && Linked(old(fs)[dp.value]) ==> Valid()
      ensures r == Ok ==>
                exists k: nat ::
                  FirstSlot(old(fs), dp.value, k, name) && fs == SetEnt(old(fs), dp.value, k, Ent(i, name))
      ensures pend == old(pend)[i := old(pend)[i] - 1]
    {
      var ok := false;
      ghost var k;
      if dp.Some? {
        ok, k := Dirlink(dp.value, name, i);
      }
      if ok {
        Entered(old(fs), pend, home, dp.value, k, name, i);
        pend := pend[i := pend[i] - 1];
        return Ok;
      }
      PromiseInv(fs, pend, home, i, WithLinks(fs[i], fs[i].nlink - 1), pend[i] - 1);
      fs := fs[i := WithLinks(fs[i], fs[i].nlink - 1)];
      pend := pend[i := pend[i] - 1];
      return Fail;
    }

    lemma Entered(fs: seq<Node>, pend: seq<nat>, home: Homes, d: nat, k: nat, name: string, i: nat)
      requires Inv(fs, pend, home) && 1 <= i < |fs| && fs[i].File? && pend[i] >= 1
      requires d < |fs| && fs[d].Dir? && Slot(fs, d, k, name)
      ensures CountsOk(SetEnt(fs, d, k, Ent(i, name)), pend[i := pend[i] - 1]) <==> Linked(fs[d])
      ensures Linked(fs[d]) ==> Inv(SetEnt(fs, d, k, Ent(i, name)), pend[i := pend[i] - 1], home)
    {
      if Linked(fs[d]) {
        LinkInv(fs, pend, home, d, k, name, i);
      } else {
        Miscounted(fs, pend, home, d, SetEnt(fs, d, k, Ent(i, name))[d], i);
      }
    }

    /** An entry in an unlinked directory keeps no promise. */
    lemma Miscounted(fs: seq<Node>, pend: seq<nat>, home: Homes, d: nat, n: Node, i: nat)
      requires Inv(fs, pend, home) && 1 <= i < |fs| && pend[i] >= 1 && d < |fs| && d != i
      requires fs[d].Dir? && !Linked(fs[d]) && !Linked(n)
      ensures !CountOk(fs[d := n], pend[i := pend[i] - 1], i)
    {
      assert CountOk(fs, pend, i);
      CountPut(fs, d, n, i);
    }

    /** The tests of sys_unlink: "." and "..", a missing name and a directory in use are
        refused; it never finds nlink < 1. */
    method MayUnlink(d: nat, name: string) returns (r: Outcome, k: nat)
      requires Valid() && d < |fs| && fs[d].Dir?
      ensures r != Panic
      // refused: no entry of the name but one for a directory with an entry in use behind the first two
      ensures r == Fail && name != "." && name != ".." ==>
                forall l | 0 <= l < |fs[d].ents| && fs[d].ents[l].inum != 0 && fs[d].ents[l].name == name ::
                  InUse(fs, fs[d].ents[l].inum)
      ensures r == Ok ==>
                && name != "." && name != ".." && 2 <= k < |fs[d].ents| && fs[d].ents[k].name == name
                && 1 <= fs[d].ents[k].inum < |fs| && !InUse(fs, fs[d].ents[k].inum)
      ensures r == Ok ==> Linked(fs[d]) && !fs[fs[d].ents[k].inum].Free? && Absent(fs[d].ents[k := GONE], name)
    {
      k := 0;
      if name == DOT || name == DOTDOT {
        return Fail, k;
      }
      var off := Dirlookup(d, name);
      if off.None? {
        return Fail, k;
      }
      k := off.value;
      Entry(fs, pend, home, d, k, name);
      var i := fs[d].ents[k].inum;
      if fs[i].nlink < 1 {
        return Panic, k;
      }
      if fs[i].Dir? {
        var empty := Isdirempty(i);
        if !empty {
          return Fail, k;
        }
      }
      return Ok, k;
    }

    /** sys_unlink: the entry goes and the counts stay right, or the call is refused. */
    method Unlink(d: nat, name: string) returns (r: Outcome)
      requires Valid() && d < |fs| && fs[d].Dir?
      modifies this`fs, this`home
      ensures Valid() && r != Panic
      ensures r == Fail ==> fs == old(fs)
      ensures r == Ok <==> name != DOT && name != DOTDOT && exists k: nat :: Unlinkable(old(fs), d, k, name)
      ensures r == Ok ==> exists k: nat ::
                && Unlinkable(old(fs), d, k, name) && !old(fs)[old(fs)[d].ents[k].inum].Free?
                && fs == Erasing(old(fs), d, k, old(fs)[d].ents[k].inum)
      ensures r == Ok ==> d < |fs| && fs[d].Dir? && Absent(fs[d].ents, name)
    {
      var k;
      r, k := MayUnlink(d, name);
      if r == Ok {
        assert Unlinkable(old(fs), d, k, name);
        Erase(d, k, fs[d].ents[k].inum);
      }
    }

    /** The stores of sys_unlink. */
    method Erase(d: nat, k: nat, i: nat)
      requires Valid() && d < |fs| && Linked(fs[d]) && 2 <= k < |fs[d].ents| && fs[d].ents[k].inum == i && 1 <= i < |fs|
      requires !fs[i].Free? && (fs[i].Dir? ==> Empty(fs[i].ents))
      modifies this`fs, this`home
      ensures Valid() && fs == Erasing(old(fs), d, k, i)
      // the entry is zeroed, the inode has a link less, and for a directory its parent too
      ensures |fs| == |old(fs)| && i != d && fs[i] == WithLinks(old(fs)[i], old(fs)[i].nlink - 1)
      ensures fs[d] == Dir(if old(fs)[i].Dir? then old(fs)[d].nlink - 1 else old(fs)[d].nlink,
                           old(fs)[d].ents[k := Ent(0, "")])
      ensures forall j | 0 <= j < |fs| && j != d && j != i :: fs[j] == old(fs)[j]
    {
      Erased(fs, pend, home, d, k, i);
      home := if fs[i].Dir? then home - {i} else home;
      Stores(d, k, i);
    }

    method Stores(d: nat, k: nat, i: nat)
      requires d < |fs| && fs[d].Dir? && k < |fs[d].ents| && i < |fs| && i != d && !fs[i].Free?
      modifies this`fs
      ensures fs == Erasing(old(fs), d, k, i)
    {
      ghost var fs0 := fs;
      fs := fs[d := fs[d].(ents := fs[d].ents[k := GONE])];
      if fs[i].Dir? {
        fs := fs[d := WithLinks(fs[d], fs[d].nlink - 1)];
        fs := fs[i := WithLinks(fs[i], fs[i].nlink - 1)];
        assert fs == Rmdir(fs0, d, k, i);
      } else {
        fs := fs[i := WithLinks(fs[i], fs[i].nlink - 1)];
      }
    }

    /** create: an existing file, a new inode entered under the name, or nothing. After a new
        entry the counts are right if and only if the parent is itself linked; no promise is
        left open. */
    method Create(d: nat, name: string, kind: Kind) returns (r: Outcome, inum: nat)
      requires Valid() && 1 <= d < |fs| && fs[d].Dir?
      modifies this`fs, this`home, this`pend
      ensures r != Panic ==> |fs| == |old(fs)| && fs[d].Dir? && inum != 0 && Ent(inum, name) in fs[d].ents
      ensures !Absent(old(fs)[d].ents, name) ==> fs == old(fs) && Valid() && r != Panic && Named(fs, d, name, inum)
      ensures !Absent(old(fs)[d].ents, name) ==>
                (r == Ok <==> kind == TFile && inum < |fs| && fs[inum].File? && !fs[inum].dev)
      ensures Absent(old(fs)[d].ents, name) && r == Ok ==>
                && (CountsOk(fs, pend) <==> Linked(old(fs)[d]))
                && (Linked(old(fs)[d]) ==> Valid())
                && 1 <= inum < |old(fs)| && old(fs)[inum].Free? && (forall i | 1 <= i < inum :: !old(fs)[i].Free?)
                && exists k: nat :: FirstSlot(old(fs), d, k, name) && fs == Made(old(fs), d, k, name, inum, kind)
      // the new inode, the parent, and nothing else
      ensures Absent(old(fs)[d].ents, name) && r == Ok ==>
                && inum != d && fs[d].nlink == old(fs)[d].nlink + (if kind == TDir then 1 else 0)
                && fs[inum] == (match kind
                                case TFile => File(false, 1)
                                case TDev => File(true, 1)
                                case TDir => Dir(1, [Ent(inum, "."), Ent(d, "..")]))
                && forall j | 0 <= j < |fs| && j != d && j != inum :: fs[j] == old(fs)[j]
      ensures pend == old(pend)
      ensures Settled(pend) && Absent(old(fs)[d].ents, name) && r == Ok ==> (Exact(fs) <==> Linked(old(fs)[d]))
      ensures r == Panic <==> Absent(old(fs)[d].ents, name) && forall i | 1 <= i < |old(fs)| :: !old(fs)[i].Free?
      ensures r == Fail ==> fs == old(fs) && !Absent(old(fs)[d].ents, name)
    {
      inum := 0;
      var found := Dirlookup(d, name);
      if found.Some? {
        inum := fs[d].ents[found.value].inum;
        if kind == TFile && inum < |fs| && fs[inum].File? && !fs[inum].dev {
          return Ok, inum;
        }
        return Fail, inum;
      }
      inum := 1;
      while inum < |fs| && !fs[inum].Free?
        invariant 1 <= inum <= |fs| && forall i | 1 <= i < inum :: !fs[i].Free?
      {
        inum := inum + 1;
      }
      if inum == |fs| {
        return Panic, inum;
      }
      if kind == TDir {
        MakeDir(d, name, inum);
      } else {
        MakeFile(d, name, inum, kind);
      }
      if Settled(pend) {
        SettledExact(fs, pend);
      }
      return Ok, inum;
    }

    method MakeFile(d: nat, name: string, i: nat, kind: Kind)
      requires kind != TDir && Valid() && 1 <= d < |fs| && fs[d].Dir? && 1 <= i < |fs| && fs[i].Free?
      requires Absent(fs[d].ents, name)
      modifies this`fs, this`pend
      ensures pend == old(pend)
      ensures (CountsOk(fs, pend) <==> Linked(old(fs)[d])) && (Linked(old(fs)[d]) ==> Valid())
      ensures exists k: nat :: FirstSlot(old(fs), d, k, name) && fs == Made(old(fs), d, k, name, i, kind)
      ensures |fs| == |old(fs)| && fs[d].Dir? && Ent(i, name) in fs[d].ents
    {
      ghost var fs0 := fs;
      assert CountOk(fs, pend, i);
      var file := File(kind == TDev, 1);
      PromiseInv(fs, pend, home, i, file, 1);
      fs := fs[i := file];
      pend := pend[i := 1];
      ghost var fs1 := fs;
      var r := LinkEnd(i, Some(d), name);
      ghost var k: nat :| FirstSlot(fs1, d, k, name) && fs == SetEnt(fs1, d, k, Ent(i, name));
      assert FirstSlot(fs0, d, k, name);
      assert fs[d].ents[k] == Ent(i, name);
    }

    method MakeDir(d: nat, name: string, i: nat)
      requires Valid() && 1 <= d < |fs| && fs[d].Dir? && 1 <= i < |fs| && fs[i].Free? && Absent(fs[d].ents, name)
      modifies this`fs, this`home
      ensures (CountsOk(fs, pend) <==> Linked(old(fs)[d])) && (Linked(old(fs)[d]) ==> Valid())
      ensures exists k: nat :: FirstSlot(old(fs), d, k, name) && fs == Made(old(fs), d, k, name, i, TDir)
      ensures |fs| == |old(fs)| && fs[d].Dir? && Ent(i, name) in fs[d].ents
    {
      ghost var fs0 := fs;
      ghost var k := MakeEntries(d, name, i);
      home := home[i := (d, k)];
      if Linked(fs0[d]) {
        MadeInv(fs0, pend, old(home), d, k, name, i);
      } else {
        MadeNowhere(fs0, pend, old(home), d, k, name, i);
      }
      assert fs == Made(fs0, d, k, name, i, TDir);
      assert fs[d].ents[k] == Ent(i, name);
    }

    /** The stores of create for a directory. */
    method MakeEntries(d: nat, name: string, i: nat) returns (ghost k: nat)
      requires d < |fs| && fs[d].Dir? && 1 <= i < |fs| && fs[i].Free? && Absent(fs[d].ents, name)
      modifies this`fs
      ensures FirstSlot(old(fs), d, k, name) && fs == MadeDir(old(fs), d, k, name, i)
    {
      ghost var fs0 := fs;
      fs := fs[i := Dir(1, [])];
      fs := fs[d := WithLinks(fs[d], fs[d].nlink + 1)];
      MakeDots(d, i);
      assert fs == fs0[i := Dir(1, [Ent(i, DOT), Ent(d, DOTDOT)])][d := WithLinks(fs0[d], fs0[d].nlink + 1)];
      var ok;
      ok, k := Dirlink(d, name, i);
      assert fs == MadeDir(fs0, d, k, name, i);
    }

    method MakeDots(d: nat, i: nat)
      requires 1 <= i < |fs| && fs[i] == Dir(1, [])
      modifies this`fs
      ensures fs == old(fs)[i := Dir(1, [Ent(i, DOT), Ent(d, DOTDOT)])]
    {
      var ok;
      ghost var k;
      ok, k := Dirlink(i, DOT, i);
      assert fs[i] == Dir(1, [Ent(i, DOT)]);
      ok, k := Dirlink(i, DOTDOT, d);
      assert fs[i] == Dir(1, [Ent(i, DOT), Ent(d, DOTDOT)]);
    }

    /** iput: with the last of its references gone, an inode without links is freed. */
    method Iput(i: nat, refs: nat) returns (left: nat)
      requires Valid() && 1 <= i < |fs| && refs >= 1
      modifies this`fs
      ensures Valid() && left == refs - 1
      ensures fs == if left == 0 && NLink(old(fs)[i]) == 0 then old(fs)[i := Free] else old(fs)
    {
      if NLink(fs[i]) == 0 {
        if refs == 1 {
          FreeInv(fs, pend, home, i);
          fs := fs[i := Free];
        }
      }
      return refs - 1;
    }
  }

  method MadeInRoot() returns (t: Tree, d: nat)
    ensures fresh(t) && t.Valid() && |t.fs| == 10 && Settled(t.pend) && Linked(t.fs[ROOT]) && 2 <= d < 10
    ensures t.fs[ROOT] == Dir(2, [Ent(ROOT, DOT), Ent(ROOT, DOTDOT), Ent(d, "d")])
    ensures t.fs[d] == Dir(1, [Ent(d, DOT), Ent(ROOT, DOTDOT)])
    ensures forall j: nat | 2 <= j < 10 && j != d :: t.fs[j].Free?
  {
    t := new Tree(10);
    var r;
    ghost var fs0 := t.fs;
    assert fs0[2] == Free;
    r, d := t.Create(ROOT, "d", TDir);
    ghost var k: nat :| FirstSlot(fs0, ROOT, k, "d") && t.fs == Made(fs0, ROOT, k, "d", d, TDir);
    assert k == 2;
  }

  method MadeAndUnlinked() returns (t: Tree, d: nat)
    ensures fresh(t) && t.Valid() && |t.fs| == 10 && Settled(t.pend) && 2 <= d < 10
    ensures t.fs[d] == Dir(0, [Ent(d, DOT), Ent(ROOT, DOTDOT)])
    ensures forall j: nat | 2 <= j < 10 && j != d :: t.fs[j].Free?
  {
    t, d := MadeInRoot();
    ghost var fs1 := t.fs;
    assert Unlinkable(fs1, ROOT, 2, "d");
    var r := t.Unlink(ROOT, "d");
    ghost var l: nat :| Unlinkable(fs1, ROOT, l, "d") && t.fs == Erasing(fs1, ROOT, l, fs1[ROOT].ents[l].inum);
    assert l == 2;
  }

  /** A directory that has been unlinked, still open somewhere, takes in a new file: the
      file has a link and no linked directory names it. */
  method MadeInUnlinked() returns (t: Tree, d: nat, i: nat)
    ensures Settled(t.pend) && !Exact(t.fs)
    ensures 1 <= i < |t.fs| && t.fs[i] == File(false, 1) && Count(t.fs, i) == 0
  {
    t, d := MadeAndUnlinked();
    var j := if d == 2 then 3 else 2;
    assert t.fs[j].Free?;
    var r;
    ghost var fs2 := t.fs;
    assert CountOk(fs2, t.pend, j);
    r, i := t.Create(d, "f", TFile);
    ghost var k: nat :| FirstSlot(fs2, d, k, "f") && t.fs == Made(fs2, d, k, "f", i, TFile);
    CountPut(fs2, i, File(false, 1), i);
    CountPut(fs2[i := File(false, 1)], d, t.fs[d], i);
  }

  /** The same with a new directory: the unlinked directory counts again, and the inode its
      ".." names, here the root, has a link too few. */
  method DirMadeInUnlinked() returns (t: Tree, d: nat, i: nat)
    ensures Settled(t.pend) && !Exact(t.fs)
    ensures 2 <= d < |t.fs| && 2 <= i < |t.fs| && t.fs[i] == Dir(1, [Ent(i, DOT), Ent(d, DOTDOT)])
  {
    t, d := MadeAndUnlinked();
    var j := if d == 2 then 3 else 2;
    assert t.fs[j].Free?;
    var r;
    ghost var fs2 := t.fs;
    r, i := t.Create(d, "x", TDir);
    ghost var k: nat :| FirstSlot(fs2, d, k, "x") && t.fs == Made(fs2, d, k, "x", i, TDir);
  }
}
