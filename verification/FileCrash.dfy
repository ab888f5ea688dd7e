/** Files across crashes: the inode layer (fs.c) on top of the log (log.c). If what the
    operations of each commit do together is a transaction of the file system, then after
    every crash and recovery blocks are owned exactly and every inode is in order; and so is
    whatever else the transactions keep. */
module FileCrash {
  import opened Blocks
  import opened LogSpec
  import opened LogRuns
  import LogTheorems
  import F = FileSpec

  /** How a disk block is read: as data, as bits of the free map, as inodes. Any encoding
      will do. */
  datatype Codec = Codec(data: Block -> F.Block, bit: (Block, nat) -> bool, node: (Block, nat) -> F.Inode)

  /** A file system of geometry g with n inodes on a disk with the log's layout y. `good` is what
      else is to hold of the file system that given log_writes have made. */
  datatype Volume = Volume(g: F.Geo, y: Layout, n: nat, c: Codec, good: (seq<Event>, F.Store) -> bool) {
    /** In front lie the log, the inodes and the bitmap, each in its own blocks. */
    ghost predicate Valid() {
      && g.Valid() && y.Valid() && y.nblocks == g.size && y.start + y.size <= g.nmeta
      && (forall v :: |c.data(v)| == g.bsize)
      && (forall b: nat | b < g.size :: y.Home(g.BBlock(b)) && g.BBlock(b) < g.nmeta)
      && forall i: nat | i < n :: y.Home(g.IBlock(i)) && g.IBlock(i) < g.bmapstart
    }

    ghost function Used(m: Image, b: nat): bool
      requires Valid() && |m| == g.size && b < g.size
    {
      c.bit(m[g.BBlock(b)], b % g.bpb)
    }

    ghost function Node(m: Image, i: nat): F.Inode
      requires Valid() && |m| == g.size && i < n
    {
      c.node(m[g.IBlock(i)], i % g.ipb)
    }

    /** The blocks in front hold no data. */
    ghost function Data(m: Image, b: nat): F.Block
      requires Valid() && |m| == g.size && b < g.size
    {
      if b >= g.nmeta then c.data(m[b]) else F.ZeroBlock(g.bsize)
    }

    /** The file system found on a disk: every inode as it is there. */
    ghost function Read(m: Image): (st: F.Store)
      requires Valid() && |m| == g.size
      ensures |st.blocks| == |st.used| == g.size && |st.dinode| == n && st.inode == st.dinode
      ensures forall b | 0 <= b < g.size :: st.blocks[b] == Data(m, b) && st.used[b] == Used(m, b)
      ensures forall i | 0 <= i < n :: st.dinode[i] == Node(m, i)
    {
      var nodes := seq(n, i requires 0 <= i < n => Node(m, i));
      F.Store(seq(g.size, b requires 0 <= b < g.size => Data(m, b)),
              seq(g.size, b requires 0 <= b < g.size => Used(m, b)), nodes, nodes)
    }

    /** Image m, made by the log_writes of evs, is a file system at rest, and good. */
    ghost predicate Sound(evs: seq<Event>, m: Image) {
      Valid() && |m| == g.size && F.Whole(g, Read(m)) && good(evs, Read(m))
    }

    /** In the blocks of `log`, image v holds what tt says. */
    ghost predicate Carries(v: Image, tt: F.Store, log: set<nat>)
      requires Valid() && |v| == |tt.blocks| == |tt.used| == g.size && |tt.dinode| == n
    {
      && (forall b: nat | b < g.size && b in log :: Data(v, b) == tt.blocks[b])
      && (forall b: nat | b < g.size && g.BBlock(b) in log :: Used(v, b) == tt.used[b])
      && forall i: nat | i < n && g.IBlock(i) in log :: Node(v, i) == tt.dinode[i]
    }

    /** What the cache shows goes from m, made by evs, to v, made by more, by a transaction of the
        file system. */
    ghost predicate IsTransaction(evs: seq<Event>, m: Image, more: seq<Event>, v: Image, log: set<nat>) {
      Sound(evs, m) && |v| == g.size ==>
        exists tt: F.Store ::
          && F.Transaction(g, Read(m), tt, log) && |tt.blocks| == |tt.used| == g.size && |tt.dinode| == n
          && Carries(v, tt, log) && good(more, tt)
    }
  }

  lemma ReadSame(vol: Volume, m: Image, v: Image)
    requires vol.Valid() && |m| == |v| == vol.g.size && SameHome(vol.y, m, v)
    ensures vol.Read(m) == vol.Read(v)
  {
    var st, tt := vol.Read(m), vol.Read(v);
    forall b: nat | b < vol.g.size
      ensures st.blocks[b] == tt.blocks[b] && st.used[b] == tt.used[b]
    {
      assert vol.y.Home(vol.g.BBlock(b));
    }
    forall i: nat | i < vol.n
      ensures st.dinode[i] == tt.dinode[i]
    {
      assert vol.y.Home(vol.g.IBlock(i));
    }
  }

  /** EVERY CHANGE IS LOGGED, so what the log carries is the whole transaction: a disk that
      takes over the logged blocks, and nothing else, holds the new file system. */
  lemma CarriedIsWhole(vol: Volume, evs: seq<Event>, m: Image, more: seq<Event>, v: Image, log: set<nat>)
    requires vol.Sound(evs, m) && |v| == vol.g.size && vol.IsTransaction(evs, m, more, v, log)
    requires forall b | b in log :: vol.y.Home(b)
    requires forall b: nat | b < vol.g.size && vol.y.Home(b) && b !in log :: v[b] == m[b]
    ensures vol.Sound(more, v)
  {
    var g, st := vol.g, vol.Read(m);
    var tt: F.Store :|
      && F.Transaction(g, st, tt, log) && |tt.blocks| == |tt.used| == g.size && |tt.dinode| == vol.n
      && vol.Carries(v, tt, log) && vol.good(more, tt);
    CarriedIs(vol, m, v, tt, log);
  }

  /** What such a disk holds is what the transaction made. */
  lemma CarriedIs(vol: Volume, m: Image, v: Image, tt: F.Store, log: set<nat>)
    requires vol.Valid() && |m| == |v| == vol.g.size && F.Whole(vol.g, vol.Read(m))
    requires F.Transaction(vol.g, vol.Read(m), tt, log)
    requires |tt.blocks| == |tt.used| == vol.g.size && |tt.dinode| == vol.n && vol.Carries(v, tt, log)
    requires forall b | b in log :: vol.y.Home(b)
    requires forall b: nat | b < vol.g.size && vol.y.Home(b) && b !in log :: v[b] == m[b]
    ensures vol.Read(v) == tt
  {
    CarriedBlocks(vol, m, v, tt, log);
    CarriedNodes(vol, m, v, tt, log);
  }

  lemma CarriedBlocks(vol: Volume, m: Image, v: Image, tt: F.Store, log: set<nat>)
    requires vol.Valid() && |m| == |v| == |tt.blocks| == |tt.used| == vol.g.size && |tt.dinode| == vol.n
    requires F.Logged(vol.g, vol.Read(m), tt.blocks, tt.used, tt.dinode, log) && vol.Carries(v, tt, log)
    requires forall b: nat | b < vol.g.size && vol.y.Home(b) && b !in log :: v[b] == m[b]
    requires forall b | b in log :: vol.y.Home(b)
    ensures vol.Read(v).blocks == tt.blocks && vol.Read(v).used == tt.used
  {
    var st, uu := vol.Read(m), vol.Read(v);
    forall b: nat | b < vol.g.size
      ensures uu.blocks[b] == tt.blocks[b] && uu.used[b] == tt.used[b]
    {
      assert F.LoggedAt(vol.g, st, tt.blocks, tt.used, log, b) && vol.y.Home(vol.g.BBlock(b));
      assert st.blocks[b] == vol.Data(m, b) && st.used[b] == vol.Used(m, b);
    }
  }

  lemma CarriedNodes(vol: Volume, m: Image, v: Image, tt: F.Store, log: set<nat>)
    requires vol.Valid() && |m| == |v| == |tt.blocks| == |tt.used| == vol.g.size && |tt.dinode| == vol.n
    requires F.Logged(vol.g, vol.Read(m), tt.blocks, tt.used, tt.dinode, log) && vol.Carries(v, tt, log)
    requires forall b: nat | b < vol.g.size && vol.y.Home(b) && b !in log :: v[b] == m[b]
    ensures vol.Read(v).dinode == tt.dinode
  {
    var st, uu := vol.Read(m), vol.Read(v);
    forall i: nat | i < vol.n
      ensures uu.dinode[i] == tt.dinode[i]
    {
      assert vol.y.Home(vol.g.IBlock(i)) && st.dinode[i] == vol.Node(m, i);
    }
  }

  // ----- groups of operations

  /** The log_writes whose effect the cache shows. */
  function Events(s: State): seq<Event> {
    s.done + s.cur
  }

  function Listed(lh: seq<nat>): set<nat> {
    set b | b in lh
  }

  /** Operations have been open ever since state j, where none was. */
  ghost predicate Opened(ss: seq<State>, j: nat, i: nat) {
    && j < i < |ss| && ss[j].active == map[] && !ss[j].phase.Recover?
    && forall k | j < k <= i :: ss[k].active != map[]
  }

  /** The last open operation ends, and the group commits. */
  ghost predicate Closes(ss: seq<State>, i: nat) {
    i + 1 < |ss| && ss[i].active != map[] && ss[i + 1].active == map[] && !ss[i + 1].phase.Recover?
  }

  /** The operations of each group together make a transaction of the file system, whatever
      their interleaving; `lh` is what they have logged. */
  ghost predicate GroupsAreTransactions(vol: Volume, ss: seq<State>) {
    forall j: nat, i: nat | Opened(ss, j, i) && Closes(ss, i) ::
      vol.IsTransaction(Events(ss[j]), ss[j].view, Events(ss[i]), ss[i].view, Listed(ss[i].lh))
  }

  /** What is on disk for good, and with no operation open what the cache shows, is sound. */
  ghost predicate StateOk(vol: Volume, init: Image, s: State) {
    && |init| == vol.y.nblocks && EventsFit(vol.y, s.done) && EventsFit(vol.y, s.done + s.cur)
    && vol.Sound(s.done, Effect(vol.y, init, s.done))
    && (s.active == map[] ==> vol.Sound(s.done + s.cur, Effect(vol.y, init, s.done + s.cur)))
  }

  /** The group open in state i began in a sound state, and has changed listed blocks only. */
  ghost predicate GroupOk(vol: Volume, ss: seq<State>, j: nat, i: nat) {
    && Opened(ss, j, i) && vol.Sound(Events(ss[j]), ss[j].view) && |ss[i].view| == vol.g.size
    && (forall b | b in ss[i].lh :: vol.y.Home(b))
    && forall b: nat | b < vol.g.size && vol.y.Home(b) && b !in ss[i].lh :: ss[i].view[b] == ss[j].view[b]
  }

  ghost predicate FilesInv(vol: Volume, init: Image, ss: seq<State>, i: nat)
    requires i < |ss|
  {
    StateOk(vol, init, ss[i]) && (ss[i].active != map[] ==> exists j: nat :: GroupOk(vol, ss, j, i))
  }

  /** What the log guarantees of state i. */
  lemma LogFacts(vol: Volume, init: Image, ss: seq<State>, i: nat)
    requires vol.Valid() && IsRun(vol.y, init, ss) && LogTheorems.Roomy(vol.y) && i < |ss|
    ensures var s := ss[i];
            && |init| == vol.y.nblocks && EventsFit(vol.y, s.done) && EventsFit(vol.y, s.done + s.cur) && CountInv(s)
            && DiskOk(vol.y, s.disk) && DurableIs(vol.y, s.disk, Effect(vol.y, init, s.done))
            && (!s.phase.Recover? ==>
                  |s.view| == vol.y.nblocks && SameHome(vol.y, s.view, Effect(vol.y, init, s.done + s.cur)))
  {
    var before := ss[..i + 1];
    assert IsRun(vol.y, init, before);
    LogTheorems.RunKeepsDisk(vol.y, init, before);
  }

  /** While the log is up, the cache shows a sound file system whenever no operation is open. */
  lemma ShownSound(vol: Volume, init: Image, ss: seq<State>, i: nat)
    requires vol.Valid() && IsRun(vol.y, init, ss) && LogTheorems.Roomy(vol.y) && i < |ss|
    requires StateOk(vol, init, ss[i]) && ss[i].active == map[] && !ss[i].phase.Recover?
    ensures vol.Sound(Events(ss[i]), ss[i].view)
  {
    LogFacts(vol, init, ss, i);
    ReadSame(vol, ss[i].view, Effect(vol.y, init, ss[i].done + ss[i].cur));
  }

  /** A step of an open group: it changes listed blocks only. */
  lemma GroupGoesOn(vol: Volume, ss: seq<State>, j: nat, i: nat, next: nat, a: Step)
    requires next == i + 1 < |ss| && GroupOk(vol, ss, j, i) && CountInv(ss[i])
    requires Enabled(vol.y, ss[i], a) && ss[next] == Do(vol.y, ss[i], a) && ss[next].active != map[]
    ensures GroupOk(vol, ss, j, next)
  {
    assert Opened(ss, j, next);
    match a
    case LogAppend(p, w) => AppendChangesListed(vol, ss[j].view, ss[i], p, w);
    case BeginOp(_) =>
    case LogTest(_) =>
    case EndOp(_) =>
    case CommitWrite =>
    case CommitDone =>
    case CrashNow =>
    case RecoverWrite =>
    case RecoverDone =>
  }

  lemma AppendChangesListed(vol: Volume, m: Image, s: State, p: nat, w: Write)
    requires Enabled(vol.y, s, LogAppend(p, w)) && |m| == |s.view| == vol.g.size
    requires forall b: nat | b < vol.g.size && vol.y.Home(b) && b !in s.lh :: s.view[b] == m[b]
    ensures var t := Do(vol.y, s, LogAppend(p, w));
            && |t.view| == vol.g.size && (forall b | b in t.lh :: b in s.lh || b == w.b)
            && forall b: nat | b < vol.g.size && vol.y.Home(b) && b !in t.lh :: t.view[b] == m[b]
  {
  }

  /** The first operation of a group begins. */
  lemma GroupBegins(vol: Volume, ss: seq<State>, i: nat, next: nat, a: Step)
    requires next == i + 1 < |ss| && CountInv(ss[i]) && ss[i].active == map[] && !ss[i].phase.Recover?
    requires Enabled(vol.y, ss[i], a) && ss[next] == Do(vol.y, ss[i], a) && ss[next].active != map[]
    requires vol.Sound(Events(ss[i]), ss[i].view)
    ensures GroupOk(vol, ss, i, next)
  {
    assert Opened(ss, i, next);
    assert a.BeginOp?;
    assert ss[i].lh == [];
  }

  /** A step after which an operation is open. */
  lemma GroupStep(vol: Volume, init: Image, ss: seq<State>, i: nat, next: nat, a: Step)
    requires vol.Valid() && IsRun(vol.y, init, ss) && LogTheorems.Roomy(vol.y) && next == i + 1 < |ss|
    requires FilesInv(vol, init, ss, i) && Enabled(vol.y, ss[i], a) && ss[next] == Do(vol.y, ss[i], a)
    requires ss[next].active != map[]
    ensures exists j: nat :: GroupOk(vol, ss, j, next)
  {
    LogFacts(vol, init, ss, i);
    if ss[i].active == map[] {
      ShownSound(vol, init, ss, i);
      GroupBegins(vol, ss, i, next, a);
    } else {
      var j: nat :| GroupOk(vol, ss, j, i);
      GroupGoesOn(vol, ss, j, i, next, a);
    }
  }

  /** The last operation of a group ends: what the cache shows is sound again. */
  lemma GroupEnds(vol: Volume, init: Image, ss: seq<State>, i: nat)
    requires vol.Valid() && IsRun(vol.y, init, ss) && LogTheorems.Roomy(vol.y)
    requires Closes(ss, i) && GroupsAreTransactions(vol, ss) && FilesInv(vol, init, ss, i) && !ss[i].phase.Recover?
    ensures vol.Sound(ss[i].done + ss[i].cur, Effect(vol.y, init, ss[i].done + ss[i].cur))
  {
    var s := ss[i];
    LogFacts(vol, init, ss, i);
    var j: nat :| GroupOk(vol, ss, j, i);
    CarriedIsWhole(vol, Events(ss[j]), ss[j].view, Events(s), s.view, Listed(s.lh));
    ReadSame(vol, s.view, Effect(vol.y, init, s.done + s.cur));
  }

  /** A step after which no operation is open. */
  lemma RestStep(vol: Volume, init: Image, ss: seq<State>, i: nat, next: nat, a: Step)
    requires vol.Valid() && IsRun(vol.y, init, ss) && LogTheorems.Roomy(vol.y) && next == i + 1 < |ss|
    requires GroupsAreTransactions(vol, ss)
    requires FilesInv(vol, init, ss, i) && Enabled(vol.y, ss[i], a) && ss[next] == Do(vol.y, ss[i], a)
    requires ss[next].active == map[]
    ensures StateOk(vol, init, ss[next])
  {
    LogFacts(vol, init, ss, i);
    LogFacts(vol, init, ss, next);
    if a.EndOp? {
      GroupEnds(vol, init, ss, i);
    }
    Settles(vol, init, ss[i], ss[next], a);
  }

  /** With no operation open, a step leaves the log_writes that count as they were, or drops
      those that have not been committed. */
  lemma SettlesEvents(y: Layout, s: State, a: Step)
    requires Enabled(y, s, a) && Do(y, s, a).active == map[] && CountInv(s)
    ensures var t := Do(y, s, a);
            && (t.done == s.done || (t.done == s.done + s.cur && s.active == map[]))
            && (t.done + t.cur == s.done || (t.done + t.cur == s.done + s.cur && (a.EndOp? || s.active == map[])))
  {
    match a
    case CrashNow => assert s.done + [] == s.done;
    case CommitWrite => assert s.done + s.cur + [] == s.done + s.cur;
    case EndOp(_) =>
    case CommitDone =>
    case RecoverWrite =>
    case RecoverDone =>
    case BeginOp(_) =>
    case LogTest(_) =>
    case LogAppend(_, _) =>
  }

  lemma Settles(vol: Volume, init: Image, s: State, t: State, a: Step)
    requires Enabled(vol.y, s, a) && t == Do(vol.y, s, a) && t.active == map[] && StateOk(vol, init, s) && CountInv(s)
    requires EventsFit(vol.y, t.done) && EventsFit(vol.y, t.done + t.cur)
    requires a.EndOp? ==> vol.Sound(s.done + s.cur, Effect(vol.y, init, s.done + s.cur))
    ensures StateOk(vol, init, t)
  {
    SettlesEvents(vol.y, s, a);
  }

  lemma FilesStep(vol: Volume, init: Image, ss: seq<State>, i: nat, next: nat)
    requires vol.Valid() && IsRun(vol.y, init, ss) && LogTheorems.Roomy(vol.y) && next == i + 1 < |ss|
    requires GroupsAreTransactions(vol, ss) && FilesInv(vol, init, ss, i)
    ensures FilesInv(vol, init, ss, next)
  {
    assert Next(vol.y, ss[i], ss[i + 1]);
    var a :| Enabled(vol.y, ss[i], a) && ss[next] == Do(vol.y, ss[i], a);
    if ss[next].active == map[] {
      RestStep(vol, init, ss, i, next, a);
    } else {
      LogFacts(vol, init, ss, i);
      LogFacts(vol, init, ss, next);
      GroupStep(vol, init, ss, i, next, a);
      OpenOk(vol, init, ss[i], ss[next], a);
    }
  }

  /** With an operation open, nothing becomes final. */
  lemma OpenOk(vol: Volume, init: Image, s: State, t: State, a: Step)
    requires Enabled(vol.y, s, a) && t == Do(vol.y, s, a) && t.active != map[] && StateOk(vol, init, s) && CountInv(s)
    requires EventsFit(vol.y, t.done) && EventsFit(vol.y, t.done + t.cur)
    ensures StateOk(vol, init, t)
  {
    assert !a.CommitWrite?;
    assert t.done == s.done;
  }

  lemma {:induction false} RunKeepsFiles(vol: Volume, init: Image, ss: seq<State>, i: nat)
    requires vol.Valid() && IsRun(vol.y, init, ss) && LogTheorems.Roomy(vol.y) && i < |ss|
    requires GroupsAreTransactions(vol, ss) && vol.Sound([], init)
    ensures FilesInv(vol, init, ss, i)
    decreases i
  {
    if i == 0 {
      LogFacts(vol, init, ss, 0);
      assert Writes([]) == [];
      assert ss[0].done + ss[0].cur == [];
    } else {
      RunKeepsFiles(vol, init, ss, i - 1);
      FilesStep(vol, init, ss, i - 1, i);
    }
  }

  /** What recovery makes of a disk. */
  function Recovered(y: Layout, d: Image): (r: Image)
    requires DiskOk(y, d)
    ensures |r| == y.nblocks && forall b | 0 <= b < y.nblocks && y.Home(b) :: r[b] == Durable(y, d, b)
  {
    seq(y.nblocks, b requires 0 <= b < y.nblocks => if y.Home(b) then Durable(y, d, b) else d[b])
  }

  /** FILES SURVIVE CRASHES. In every run, whatever the interleaving of operations, commits,
      crashes and restarted recoveries: if the operations of each group make a transaction
      of the file system, then at every moment a crash and recovery leaves a disk on which
      every block is owned exactly once or free, and which is `good` if the disk at boot was and
      the transactions keep that; while no operation is open the cache shows such a file system. */
  lemma FilesSurviveCrashes(vol: Volume, init: Image, ss: seq<State>)
    requires vol.Valid() && IsRun(vol.y, init, ss) && LogTheorems.Roomy(vol.y)
    requires GroupsAreTransactions(vol, ss) && vol.Sound([], init)
    ensures var s := ss[|ss| - 1];
            && DiskOk(vol.y, s.disk) && vol.Sound(s.done, Recovered(vol.y, s.disk))
            && (s.active == map[] && !s.phase.Recover? ==> vol.Sound(s.done + s.cur, s.view))
  {
    var i := |ss| - 1;
    RunKeepsFiles(vol, init, ss, i);
    LogFacts(vol, init, ss, i);
    ReadSame(vol, Recovered(vol.y, ss[i].disk), Effect(vol.y, init, ss[i].done));
    if ss[i].active == map[] && !ss[i].phase.Recover? {
      ShownSound(vol, init, ss, i);
    }
  }
}
