/** The whole file system (fs.c, file.c on log.c): what is found after a crash is what whole file
    operations have made of the files found at boot. */
module FileRuns {
  import opened Blocks
  import opened LogSpec
  import opened LogRuns
  import opened FileCrash
  import opened FileOps
  import LogTheorems
  import F = FileSpec

  type Files = seq<File>

  // ----- histories of operations

  /** The operations that made these log_writes, in the order of their first one. */
  function Ids(evs: seq<Event>): (ids: seq<nat>)
    ensures forall p :: p in ids <==> exists e | e in evs :: e.op == p
  {
    if evs == [] then []
    else
      var before, last := Ids(evs[..|evs| - 1]), evs[|evs| - 1];
      assert evs == evs[..|evs| - 1] + [last];
      if last.op in before then before else before + [last.op]
  }

  /** One more operation has made log_writes. */
  lemma {:induction false} IdsMore(evs: seq<Event>, seg: seq<Event>, p: nat)
    requires seg != [] && (forall e | e in seg :: e.op == p) && forall e | e in evs :: e.op != p
    ensures Ids(evs + seg) == Ids(evs) + [p]
    decreases |seg|
  {
    var n := |seg| - 1;
    assert (evs + seg)[..|evs + seg| - 1] == evs + seg[..n];
    assert seg[n] in seg;
    if n == 0 {
      assert evs + seg[..n] == evs;
    } else {
      IdsMore(evs, seg[..n], p);
    }
  }

  /** `fss` are the files before, between and after the operations. */
  ghost predicate History(did: nat -> seq<FileOp>, files: Files, ids: seq<nat>, fss: seq<Files>) {
    && |fss| == |ids| + 1 && fss[0] == files
    && forall k | 0 <= k < |ids| :: AllApply(did(ids[k]), fss[k]) && fss[k + 1] == AfterAll(did(ids[k]), fss[k])
  }

  /** The files of st are what the operations behind evs, one after the other, have made of
      `files`. */
  ghost predicate MadeBy(g: F.Geo, did: nat -> seq<FileOp>, files: Files, evs: seq<Event>, st: F.Store) {
    exists fss :: History(did, files, Ids(evs), fss) && FilesAre(g, st, fss[|Ids(evs)|])
  }

  lemma MadeMore(g: F.Geo, did: nat -> seq<FileOp>, files: Files, evs: seq<Event>, seg: seq<Event>, p: nat,
                 st: F.Store, tt: F.Store, log: set<nat>)
    requires MadeBy(g, did, files, evs, st) && Performs(g, did(p), st, tt, log)
    requires seg != [] && (forall e | e in seg :: e.op == p) && forall e | e in evs :: e.op != p
    ensures MadeBy(g, did, files, evs + seg, tt)
  {
    var ids := Ids(evs);
    var fss :| History(did, files, ids, fss) && FilesAre(g, st, fss[|ids|]);
    var now := fss[|ids|];
    assert AllApply(did(p), now) && FilesAre(g, tt, AfterAll(did(p), now));
    IdsMore(evs, seg, p);
    HistoryMore(did, files, ids, fss, p, ids + [p], fss + [AfterAll(did(p), now)]);
  }

  lemma HistoryMore(did: nat -> seq<FileOp>, files: Files, ids: seq<nat>, fss: seq<Files>, p: nat,
                    more: seq<nat>, after: seq<Files>)
    requires History(did, files, ids, fss) && AllApply(did(p), fss[|ids|])
    requires more == ids + [p] && after == fss + [AfterAll(did(p), fss[|ids|])]
    ensures History(did, files, more, after) && after[|more|] == AfterAll(did(p), fss[|ids|])
  {
    forall k | 0 <= k < |more|
      ensures AllApply(did(more[k]), after[k]) && after[k + 1] == AfterAll(did(more[k]), after[k])
    {
      assert k < |ids| ==> more[k] == ids[k] && after[k] == fss[k] && after[k + 1] == fss[k + 1];
    }
  }

  // ----- stretches of a run within a group

  function BlocksOf(evs: seq<Event>): set<nat> {
    set e | e in evs :: e.w.b
  }

  /** What has been logged from s on. */
  function Since(s: State, t: State): seq<Event>
    requires |s.hist| <= |t.hist|
  {
    t.hist[|s.hist|..]
  }

  /** From s to t, both of the same group: the history has grown, what was logged in between is on
      the list, nothing else changed in what the cache shows, and who logged had not ended. */
  ghost predicate Stretch(vol: Volume, s: State, t: State) {
    && |s.hist| <= |t.hist| && t.hist[..|s.hist|] == s.hist && |s.view| == |t.view| == vol.g.size
    && t.done == s.done && t.cur == s.cur + Since(s, t)
    && Listed(t.lh) == Listed(s.lh) + BlocksOf(Since(s, t))
    && (forall b | b in BlocksOf(Since(s, t)) :: vol.y.Home(b))
    && (forall b: nat | b < vol.g.size && b !in BlocksOf(Since(s, t)) :: t.view[b] == s.view[b])
    && NewOnly(s, t)
  }

  /** Who is open in t, or has logged since s, was open in s or has begun since. */
  ghost predicate NewOnly(s: State, t: State)
    requires |s.hist| <= |t.hist|
  {
    && s.used <= t.used && (forall p | p in t.active :: p in s.active || p !in s.used)
    && forall e | e in Since(s, t) :: e.op in s.active || e.op !in s.used
  }

  lemma StretchNone(vol: Volume, s: State)
    requires |s.view| == vol.g.size
    ensures Stretch(vol, s, s)
  {
    assert s.hist[|s.hist|..] == [];
  }

  lemma StretchTrans(vol: Volume, s: State, t: State, u: State)
    requires Stretch(vol, s, t) && Stretch(vol, t, u)
    ensures Stretch(vol, s, u) && Since(s, u) == Since(s, t) + Since(t, u)
    ensures BlocksOf(Since(s, u)) == BlocksOf(Since(s, t)) + BlocksOf(Since(t, u))
  {
    SinceSum(s, t, u);
    BlocksSum(Since(s, t), Since(t, u));
    assert u.hist[..|s.hist|] == u.hist[..|t.hist|][..|s.hist|];
    assert s.cur + (Since(s, t) + Since(t, u)) == s.cur + Since(s, t) + Since(t, u);
  }

  lemma SinceSum(s: State, t: State, u: State)
    requires |s.hist| <= |t.hist| <= |u.hist| && u.hist[..|t.hist|] == t.hist
    ensures Since(s, u) == Since(s, t) + Since(t, u)
  {
    assert u.hist == u.hist[..|t.hist|] + u.hist[|t.hist|..];
  }

  lemma BlocksSum(a: seq<Event>, b: seq<Event>)
    ensures BlocksOf(a + b) == BlocksOf(a) + BlocksOf(b)
  {
    forall x | x in BlocksOf(a) + BlocksOf(b)
      ensures x in BlocksOf(a + b)
    {
      if e :| e in a && e.w.b == x {
        assert e in a + b;
      } else {
        var e :| e in b && e.w.b == x;
        assert e in a + b;
      }
    }
  }

  /** One step with an operation open before or after, and after. */
  lemma StretchStep(vol: Volume, s: State, a: Step)
    requires CountInv(s) && Enabled(vol.y, s, a) && Do(vol.y, s, a).active != map[] && |s.view| == vol.g.size
    ensures Stretch(vol, s, Do(vol.y, s, a))
  {
    var t := Do(vol.y, s, a);
    if a.LogAppend? {
      assert Since(s, t) == [Event(a.p, a.w)];
      assert BlocksOf([Event(a.p, a.w)]) == {a.w.b};
    } else {
      assert Since(s, t) == [] && t.view == s.view && t.lh == s.lh;
    }
  }

  /** Every step from state j to state i is one. */
  ghost predicate Steps(vol: Volume, ss: seq<State>, j: nat, i: nat) {
    i < |ss| && forall k: nat, next: nat | j <= k < next == k + 1 <= i :: Stretch(vol, ss[k], ss[next])
  }

  lemma GroupSteps(vol: Volume, init: Image, ss: seq<State>, j: nat, i: nat)
    requires vol.Valid() && IsRun(vol.y, init, ss) && LogTheorems.Roomy(vol.y) && Opened(ss, j, i)
    ensures Steps(vol, ss, j, i)
  {
    forall k: nat, next: nat | j <= k < next == k + 1 <= i
      ensures Stretch(vol, ss[k], ss[next])
    {
      NextStretch(vol, init, ss, j, i, k, next);
    }
  }

  lemma {:induction false} StretchFrom(vol: Volume, ss: seq<State>, j: nat, i: nat, a: nat, b: nat)
    requires j <= a <= b <= i && Steps(vol, ss, j, i) && |ss[a].view| == vol.g.size
    ensures Stretch(vol, ss[a], ss[b])
    decreases b - a
  {
    if a == b {
      StretchNone(vol, ss[a]);
    } else {
      StretchFrom(vol, ss, j, i, a, b - 1);
      StretchTrans(vol, ss[a], ss[b - 1], ss[b]);
    }
  }

  lemma GroupStretch(vol: Volume, init: Image, ss: seq<State>, j: nat, i: nat, a: nat, b: nat)
    requires vol.Valid() && IsRun(vol.y, init, ss) && LogTheorems.Roomy(vol.y) && Opened(ss, j, i)
    requires j <= a <= b <= i
    ensures Stretch(vol, ss[a], ss[b])
  {
    GroupSteps(vol, init, ss, j, i);
    NotRecovering(vol, init, ss, j, i, a);
    StretchFrom(vol, ss, j, i, a, b);
  }

  lemma NextStretch(vol: Volume, init: Image, ss: seq<State>, j: nat, i: nat, k: nat, next: nat)
    requires vol.Valid() && IsRun(vol.y, init, ss) && LogTheorems.Roomy(vol.y) && Opened(ss, j, i)
    requires j <= k < next == k + 1 <= i
    ensures Stretch(vol, ss[k], ss[next])
  {
    NotRecovering(vol, init, ss, j, i, k);
    LogFacts(vol, init, ss, k);
    assert Next(vol.y, ss[k], ss[k + 1]);
    var step :| Enabled(vol.y, ss[k], step) && ss[next] == Do(vol.y, ss[k], step);
    assert ss[next].active != map[];
    StretchStep(vol, ss[k], step);
  }

  lemma NotRecovering(vol: Volume, init: Image, ss: seq<State>, j: nat, i: nat, a: nat)
    requires vol.Valid() && IsRun(vol.y, init, ss) && LogTheorems.Roomy(vol.y) && Opened(ss, j, i) && j <= a <= i
    ensures !ss[a].phase.Recover? && |ss[a].view| == vol.g.size
  {
    LogFacts(vol, init, ss, a);
    assert a > j ==> ss[a].active != map[];
  }

  /** Whoever has logged has begun. */
  ghost predicate LoggedBegan(s: State) {
    && (forall e | e in Events(s) :: e.op in s.used) && s.active.Keys <= s.used
  }

  lemma BeganStep(y: Layout, s: State, a: Step)
    requires LoggedBegan(s) && Enabled(y, s, a)
    ensures LoggedBegan(Do(y, s, a))
  {
    var t := Do(y, s, a);
    if a.LogAppend? {
      assert Events(t) == Events(s) + [Event(a.p, a.w)];
    } else {
      assert forall e | e in Events(t) :: e in Events(s);
    }
  }

  lemma {:induction false} RunBegan(y: Layout, init: Image, ss: seq<State>, i: nat)
    requires IsRun(y, init, ss) && i < |ss|
    ensures LoggedBegan(ss[i])
  {
    if i > 0 {
      RunBegan(y, init, ss, i - 1);
      assert Next(y, ss[i - 1], ss[i - 1 + 1]);
      var a :| Enabled(y, ss[i - 1], a) && ss[i] == Do(y, ss[i - 1], a);
      BeganStep(y, ss[i - 1], a);
    }
  }

  // ----- operations one at a time

  /** From s to t the cache goes through one operation: what it logged in between is what the
      operation logs, with the contents that the operation gives it. */
  ghost predicate DoneBetween(vol: Volume, ops: seq<FileOp>, s: State, t: State) {
    vol.Valid() && |s.view| == |t.view| == vol.g.size && |s.hist| <= |t.hist| && F.Whole(vol.g, vol.Read(s.view)) ==>
      var log := BlocksOf(Since(s, t));
      exists tt: F.Store ::
        && Performs(vol.g, ops, vol.Read(s.view), tt, log)
        && |tt.blocks| == |tt.used| == vol.g.size && |tt.dinode| == vol.n && vol.Carries(t.view, tt, log)
  }

  /** Whatever was logged from s to t, and something was, operation p logged. */
  ghost predicate LoggedBy(p: nat, s: State, t: State) {
    |s.hist| < |t.hist| && forall e | e in Since(s, t) :: e.op == p
  }

  /** The group from state j to state i is a row of different operations, cut at these states. Any
      number of them may be open at the same time: their log_writes do not interleave. Operations
      that log nothing may be open as well, also all by themselves. */
  ghost predicate Serial(vol: Volume, did: nat -> seq<FileOp>, ss: seq<State>, j: nat, i: nat, ids: seq<nat>,
                         cuts: seq<nat>) {
    && |cuts| == |ids| + 1 && cuts[0] == j && i < |ss| && Distinct(ids)
    && (forall k | 0 <= k < |cuts| :: j <= cuts[k] <= i) && ss[cuts[|ids|]].hist == ss[i].hist
    && forall k | 0 <= k < |ids| :: SerialAt(vol, did, ss, ids, cuts, k)
  }

  ghost predicate SerialAt(vol: Volume, did: nat -> seq<FileOp>, ss: seq<State>, ids: seq<nat>, cuts: seq<nat>,
                           k: nat) {
    && k < |ids| && k + 1 < |cuts| && cuts[k] <= cuts[k + 1] < |ss| && LoggedBy(ids[k], ss[cuts[k]], ss[cuts[k + 1]])
    && DoneBetween(vol, did(ids[k]), ss[cuts[k]], ss[cuts[k + 1]])
  }

  /** Operation p does did(p), in every group. */
  ghost predicate AllSerial(vol: Volume, did: nat -> seq<FileOp>, ss: seq<State>) {
    forall j: nat, i: nat | Opened(ss, j, i) && Closes(ss, i) ::
      exists ids, cuts :: Serial(vol, did, ss, j, i, ids, cuts)
  }

  /** What is to be kept of the volume: its files are the work of the operations. */
  ghost predicate Keeps(vol: Volume, did: nat -> seq<FileOp>, files: Files) {
    forall evs, st {:trigger MadeBy(vol.g, did, files, evs, st)} ::
      vol.good(evs, st) <==> MadeBy(vol.g, did, files, evs, st)
  }

  lemma GoodMore(vol: Volume, did: nat -> seq<FileOp>, files: Files, evs: seq<Event>, seg: seq<Event>, p: nat,
                 st: F.Store, tt: F.Store, log: set<nat>)
    requires Keeps(vol, did, files) && vol.good(evs, st) && Performs(vol.g, did(p), st, tt, log)
    requires seg != [] && (forall e | e in seg :: e.op == p) && forall e | e in evs :: e.op != p
    ensures vol.good(evs + seg, tt)
  {
    assert MadeBy(vol.g, did, files, evs, st);
    MadeMore(vol.g, did, files, evs, seg, p, st, tt, log);
  }

  /** What an operation has made is what the cache shows. */
  lemma OneCarried(vol: Volume, ops: seq<FileOp>, s: State, t: State)
    requires vol.Valid() && Stretch(vol, s, t) && DoneBetween(vol, ops, s, t) && F.Whole(vol.g, vol.Read(s.view))
    ensures Performs(vol.g, ops, vol.Read(s.view), vol.Read(t.view), BlocksOf(Since(s, t)))
  {
    var log := BlocksOf(Since(s, t));
    var tt: F.Store :|
      && Performs(vol.g, ops, vol.Read(s.view), tt, log)
      && |tt.blocks| == |tt.used| == vol.g.size && |tt.dinode| == vol.n && vol.Carries(t.view, tt, log);
    CarriedIs(vol, s.view, t.view, tt, log);
  }

  lemma EventsSince(vol: Volume, s: State, t: State)
    requires Stretch(vol, s, t)
    ensures Events(t) == Events(s) + Since(s, t)
  {
  }

  /** One operation keeps what is kept, and is a transaction. */
  lemma OneDone(vol: Volume, did: nat -> seq<FileOp>, files: Files, p: nat, s: State, t: State)
    requires Keeps(vol, did, files) && vol.Sound(Events(s), s.view) && Stretch(vol, s, t)
    requires DoneBetween(vol, did(p), s, t) && LoggedBy(p, s, t) && forall e | e in Events(s) :: e.op != p
    ensures vol.Sound(Events(t), t.view)
    ensures F.Transaction(vol.g, vol.Read(s.view), vol.Read(t.view), BlocksOf(Since(s, t)))
  {
    OneCarried(vol, did(p), s, t);
    EventsSince(vol, s, t);
    GoodMore(vol, did, files, Events(s), Since(s, t), p, vol.Read(s.view), vol.Read(t.view), BlocksOf(Since(s, t)));
  }

  /** The operations of a group have logged nothing before. */
  lemma NotBefore(vol: Volume, init: Image, did: nat -> seq<FileOp>, ss: seq<State>, j: nat, i: nat, ids: seq<nat>,
                  cuts: seq<nat>, k: nat)
    requires vol.Valid() && IsRun(vol.y, init, ss) && LogTheorems.Roomy(vol.y) && Opened(ss, j, i)
    requires Serial(vol, did, ss, j, i, ids, cuts) && k < |ids|
    ensures ids[k] !in ss[j].used && forall e | e in Events(ss[j]) :: e.op != ids[k]
  {
    assert SerialAt(vol, did, ss, ids, cuts, k);
    var s, t := ss[cuts[k]], ss[cuts[k + 1]];
    GroupStretch(vol, init, ss, j, i, j, cuts[k]);
    GroupStretch(vol, init, ss, j, i, cuts[k], cuts[k + 1]);
    StretchTrans(vol, ss[j], s, t);
    var e := Since(s, t)[0];
    assert e in Since(s, t) && e in Since(ss[j], t);
    RunBegan(vol.y, init, ss, j);
  }

  /** In the first k operations of a group, only those have logged. */
  ghost predicate ByFirst(s: State, t: State, ids: seq<nat>, k: nat)
    requires |s.hist| <= |t.hist| && k <= |ids|
  {
    forall e | e in Since(s, t) :: e.op in ids[..k]
  }

  /** From s to t, the first k operations of a group have been done. */
  ghost predicate Row(vol: Volume, s: State, t: State, ids: seq<nat>, k: nat) {
    && k <= |ids| && Stretch(vol, s, t) && vol.Sound(Events(t), t.view) && ByFirst(s, t, ids, k)
    && F.Transaction(vol.g, vol.Read(s.view), vol.Read(t.view), BlocksOf(Since(s, t)))
  }

  /** From t to u, operation p is done, in a group that began in s. */
  ghost predicate OneMore(vol: Volume, did: nat -> seq<FileOp>, s: State, t: State, u: State, p: nat) {
    && Stretch(vol, t, u) && LoggedBy(p, t, u) && DoneBetween(vol, did(p), t, u)
    && forall e | e in Events(s) :: e.op != p
  }

  ghost predicate OneMoreAt(vol: Volume, did: nat -> seq<FileOp>, ss: seq<State>, ids: seq<nat>, cuts: seq<nat>,
                            l: nat) {
    && l < |ids| && l + 1 < |cuts| && cuts[0] < |ss| && cuts[l] < |ss| && cuts[l + 1] < |ss|
    && OneMore(vol, did, ss[cuts[0]], ss[cuts[l]], ss[cuts[l + 1]], ids[l])
  }

  lemma RowNone(vol: Volume, s: State, ids: seq<nat>)
    requires vol.Sound(Events(s), s.view)
    ensures Row(vol, s, s, ids, 0)
  {
    StretchNone(vol, s);
    SameTransaction(vol.g, vol.Read(s.view), BlocksOf(Since(s, s)));
  }

  lemma {:induction false} SomeDone(vol: Volume, did: nat -> seq<FileOp>, files: Files, ss: seq<State>, ids: seq<nat>,
                                    cuts: seq<nat>, k: nat)
    requires Keeps(vol, did, files) && Distinct(ids) && k <= |ids| < |cuts| && cuts[0] < |ss|
    requires forall l: nat | l < |ids| :: OneMoreAt(vol, did, ss, ids, cuts, l)
    requires vol.Sound(Events(ss[cuts[0]]), ss[cuts[0]].view)
    ensures cuts[k] < |ss| && Row(vol, ss[cuts[0]], ss[cuts[k]], ids, k)
    decreases k
  {
    if k == 0 {
      RowNone(vol, ss[cuts[0]], ids);
    } else {
      SomeDone(vol, did, files, ss, ids, cuts, k - 1);
      assert OneMoreAt(vol, did, ss, ids, cuts, k - 1);
      NextDone(vol, did, files, ss[cuts[0]], ss[cuts[k - 1]], ss[cuts[k]], ids, k - 1);
    }
  }

  /** One more operation of the group. */
  lemma NextDone(vol: Volume, did: nat -> seq<FileOp>, files: Files, s: State, t: State, u: State, ids: seq<nat>,
                 k: nat)
    requires Keeps(vol, did, files) && Distinct(ids) && k < |ids|
    requires Row(vol, s, t, ids, k) && OneMore(vol, did, s, t, u, ids[k])
    ensures Row(vol, s, u, ids, k + 1)
  {
    NotYet(vol, s, t, ids, k);
    OneDone(vol, did, files, ids[k], t, u);
    ByMore(vol, s, t, u, ids, k);
    MoreTransaction(vol, s, t, u);
  }

  lemma ByMore(vol: Volume, s: State, t: State, u: State, ids: seq<nat>, k: nat)
    requires k < |ids| && Stretch(vol, s, t) && Stretch(vol, t, u) && ByFirst(s, t, ids, k) && LoggedBy(ids[k], t, u)
    ensures |s.hist| <= |u.hist| && ByFirst(s, u, ids, k + 1)
  {
    SinceSum(s, t, u);
    assert ids[..k + 1] == ids[..k] + [ids[k]];
  }

  lemma MoreTransaction(vol: Volume, s: State, t: State, u: State)
    requires vol.Valid() && Stretch(vol, s, t) && Stretch(vol, t, u)
    requires F.Transaction(vol.g, vol.Read(s.view), vol.Read(t.view), BlocksOf(Since(s, t)))
    requires F.Transaction(vol.g, vol.Read(t.view), vol.Read(u.view), BlocksOf(Since(t, u)))
    ensures Stretch(vol, s, u)
    ensures F.Transaction(vol.g, vol.Read(s.view), vol.Read(u.view), BlocksOf(Since(s, u)))
  {
    StretchTrans(vol, s, t, u);
    F.TransactionTrans(vol.g, vol.Read(s.view), vol.Read(t.view), vol.Read(u.view),
                       BlocksOf(Since(s, t)), BlocksOf(Since(t, u)));
  }

  /** The operations of a group, each on its own. */
  lemma EachDone(vol: Volume, init: Image, did: nat -> seq<FileOp>, ss: seq<State>, j: nat, i: nat, ids: seq<nat>,
                 cuts: seq<nat>, k: nat)
    requires vol.Valid() && IsRun(vol.y, init, ss) && LogTheorems.Roomy(vol.y) && Opened(ss, j, i)
    requires Serial(vol, did, ss, j, i, ids, cuts) && k < |ids|
    ensures OneMoreAt(vol, did, ss, ids, cuts, k)
  {
    assert SerialAt(vol, did, ss, ids, cuts, k);
    GroupStretch(vol, init, ss, j, i, cuts[k], cuts[k + 1]);
    NotBefore(vol, init, did, ss, j, i, ids, cuts, k);
  }

  lemma AllDone(vol: Volume, init: Image, did: nat -> seq<FileOp>, files: Files, ss: seq<State>, j: nat, i: nat,
                ids: seq<nat>, cuts: seq<nat>)
    requires vol.Valid() && IsRun(vol.y, init, ss) && LogTheorems.Roomy(vol.y) && Opened(ss, j, i)
    requires Keeps(vol, did, files) && Serial(vol, did, ss, j, i, ids, cuts)
    requires vol.Sound(Events(ss[j]), ss[j].view)
    ensures Row(vol, ss[j], ss[i], ids, |ids|)
  {
    forall l: nat | l < |ids|
      ensures OneMoreAt(vol, did, ss, ids, cuts, l)
    {
      EachDone(vol, init, did, ss, j, i, ids, cuts, l);
    }
    SomeDone(vol, did, files, ss, ids, cuts, |ids|);
    GroupStretch(vol, init, ss, j, i, cuts[|ids|], i);
    NothingMore(vol, ss[j], ss[cuts[|ids|]], ss[i], ids);
  }

  /** After the last log_write of a group nothing happens to the file system. */
  lemma NothingMore(vol: Volume, s: State, t: State, u: State, ids: seq<nat>)
    requires Row(vol, s, t, ids, |ids|) && Stretch(vol, t, u) && t.hist == u.hist
    ensures Row(vol, s, u, ids, |ids|)
  {
    assert Since(t, u) == [] && u.cur == t.cur && u.view == t.view;
    StretchTrans(vol, s, t, u);
  }

  lemma NotYet(vol: Volume, s: State, t: State, ids: seq<nat>, k: nat)
    requires Distinct(ids) && k < |ids| && Stretch(vol, s, t) && ByFirst(s, t, ids, k)
    requires forall e | e in Events(s) :: e.op != ids[k]
    ensures forall e | e in Events(t) :: e.op != ids[k]
  {
    assert Events(t) == Events(s) + Since(s, t);
  }

  lemma SameTransaction(g: F.Geo, st: F.Store, log: set<nat>)
    ensures F.Transaction(g, st, st, log)
  {
    if F.Whole(g, st) {
      var own: F.Owners :| F.Inv(g, st, own);
    }
  }

  /** OPERATIONS IN A ROW MAKE TRANSACTIONS. If the operations of every group do not interleave
      their log_writes, every group is a transaction. */
  lemma SerialGroups(vol: Volume, init: Image, did: nat -> seq<FileOp>, files: Files, ss: seq<State>)
    requires vol.Valid() && IsRun(vol.y, init, ss) && LogTheorems.Roomy(vol.y)
    requires Keeps(vol, did, files) && AllSerial(vol, did, ss)
    ensures GroupsAreTransactions(vol, ss)
  {
    forall j: nat, i: nat | Opened(ss, j, i) && Closes(ss, i)
      ensures vol.IsTransaction(Events(ss[j]), ss[j].view, Events(ss[i]), ss[i].view, Listed(ss[i].lh))
    {
      if vol.Sound(Events(ss[j]), ss[j].view) {
        var ids, cuts :| Serial(vol, did, ss, j, i, ids, cuts);
        AllDone(vol, init, did, files, ss, j, i, ids, cuts);
        EmptyList(vol, init, ss, j, i);
        WholeGroup(vol, ss[j], ss[i]);
      }
    }
  }

  lemma WholeGroup(vol: Volume, s: State, t: State)
    requires vol.Sound(Events(s), s.view) && vol.Sound(Events(t), t.view) && Stretch(vol, s, t) && s.lh == []
    requires F.Transaction(vol.g, vol.Read(s.view), vol.Read(t.view), BlocksOf(Since(s, t)))
    ensures vol.IsTransaction(Events(s), s.view, Events(t), t.view, Listed(t.lh))
  {
    var tt := vol.Read(t.view);
    assert Listed(s.lh) == {};
    assert vol.Carries(t.view, tt, Listed(t.lh));
  }

  /** A group begins with an empty list. */
  lemma EmptyList(vol: Volume, init: Image, ss: seq<State>, j: nat, i: nat)
    requires vol.Valid() && IsRun(vol.y, init, ss) && LogTheorems.Roomy(vol.y) && Opened(ss, j, i)
    ensures ss[j].lh == []
  {
    LogFacts(vol, init, ss, j);
    assert ss[j + 1].active != map[];
    assert Next(vol.y, ss[j], ss[j + 1]);
    var a :| Enabled(vol.y, ss[j], a) && ss[j + 1] == Do(vol.y, ss[j], a);
    assert a.BeginOp?;
  }

  /** On image m there is a file system at rest, and its files are what the operations behind evs
      have made of `files`. */
  ghost predicate AsMade(vol: Volume, did: nat -> seq<FileOp>, files: Files, evs: seq<Event>, m: Image) {
    && vol.Valid() && |m| == vol.g.size
    && F.Whole(vol.g, vol.Read(m)) && MadeBy(vol.g, did, files, evs, vol.Read(m))
  }

  lemma AtBoot(vol: Volume, did: nat -> seq<FileOp>, files: Files, init: Image)
    requires vol.Valid() && |init| == vol.g.size && F.Whole(vol.g, vol.Read(init))
    requires FilesAre(vol.g, vol.Read(init), files) && Keeps(vol, did, files)
    ensures vol.Sound([], init)
  {
    assert Ids([]) == [];
    assert History(did, files, Ids([]), [files]);
    assert MadeBy(vol.g, did, files, [], vol.Read(init));
  }

  lemma SoundAsMade(vol: Volume, did: nat -> seq<FileOp>, files: Files, evs: seq<Event>, m: Image)
    requires vol.Sound(evs, m) && Keeps(vol, did, files)
    ensures AsMade(vol, did, files, evs, m)
  {
    assert MadeBy(vol.g, did, files, evs, vol.Read(m));
  }

  lemma KeptFiles(vol: Volume, init: Image, did: nat -> seq<FileOp>, files: Files, ss: seq<State>)
    requires vol.Valid() && IsRun(vol.y, init, ss) && LogTheorems.Roomy(vol.y)
    requires |init| == vol.g.size && F.Whole(vol.g, vol.Read(init)) && FilesAre(vol.g, vol.Read(init), files)
    requires Keeps(vol, did, files) && AllSerial(vol, did, ss)
    ensures var s := ss[|ss| - 1];
            && DiskOk(vol.y, s.disk) && AsMade(vol, did, files, s.done, Recovered(vol.y, s.disk))
            && (s.active == map[] && !s.phase.Recover? ==> AsMade(vol, did, files, s.done + s.cur, s.view))
  {
    AtBoot(vol, did, files, init);
    SerialGroups(vol, init, did, files, ss);
    FilesSurviveCrashes(vol, init, ss);
    var s := ss[|ss| - 1];
    SoundAsMade(vol, did, files, s.done, Recovered(vol.y, s.disk));
    if s.active == map[] && !s.phase.Recover? {
      SoundAsMade(vol, did, files, s.done + s.cur, s.view);
    }
  }

  // ----- what is kept does not matter for what is read

  lemma SameRead(vol: Volume, w: Volume, m: Image)
    requires vol.Valid() && w == vol.(good := w.good) && |m| == vol.g.size
    ensures w.Valid() && w.Read(m) == vol.Read(m)
  {
    var st, tt := vol.Read(m), w.Read(m);
    forall b | 0 <= b < vol.g.size
      ensures st.blocks[b] == tt.blocks[b] && st.used[b] == tt.used[b]
    {
      assert vol.Data(m, b) == w.Data(m, b) && vol.Used(m, b) == w.Used(m, b);
    }
    forall i | 0 <= i < vol.n
      ensures st.dinode[i] == tt.dinode[i]
    {
      assert vol.Node(m, i) == w.Node(m, i);
    }
  }

  lemma SameDone(vol: Volume, w: Volume, ops: seq<FileOp>, s: State, t: State)
    requires vol.Valid() && w == vol.(good := w.good) && DoneBetween(vol, ops, s, t)
    ensures DoneBetween(w, ops, s, t)
  {
    var g := vol.g;
    if |s.view| == |t.view| == g.size && |s.hist| <= |t.hist| {
      SameRead(vol, w, s.view);
      if F.Whole(g, vol.Read(s.view)) {
        var log := BlocksOf(Since(s, t));
        var tt: F.Store :|
          && Performs(g, ops, vol.Read(s.view), tt, log)
          && |tt.blocks| == |tt.used| == g.size && |tt.dinode| == vol.n && vol.Carries(t.view, tt, log);
        SameCarries(vol, w, t.view, tt, log);
      }
    }
  }

  lemma SameCarries(vol: Volume, w: Volume, v: Image, tt: F.Store, log: set<nat>)
    requires vol.Valid() && w == vol.(good := w.good)
    requires |v| == |tt.blocks| == |tt.used| == vol.g.size && |tt.dinode| == vol.n && vol.Carries(v, tt, log)
    ensures w.Valid() && w.Carries(v, tt, log)
  {
    forall b: nat | b < w.g.size
      ensures w.Data(v, b) == vol.Data(v, b) && w.Used(v, b) == vol.Used(v, b)
    {
    }
    forall i: nat | i < w.n
      ensures w.Node(v, i) == vol.Node(v, i)
    {
    }
  }

  lemma SameSerial(vol: Volume, w: Volume, did: nat -> seq<FileOp>, ss: seq<State>)
    requires vol.Valid() && w == vol.(good := w.good) && AllSerial(vol, did, ss)
    ensures AllSerial(w, did, ss)
  {
    forall j: nat, i: nat | Opened(ss, j, i) && Closes(ss, i)
      ensures exists ids, cuts :: Serial(w, did, ss, j, i, ids, cuts)
    {
      var ids, cuts :| Serial(vol, did, ss, j, i, ids, cuts);
      forall k | 0 <= k < |ids|
        ensures SerialAt(w, did, ss, ids, cuts, k)
      {
        assert SerialAt(vol, did, ss, ids, cuts, k);
        SameDone(vol, w, did(ids[k]), ss[cuts[k]], ss[cuts[k + 1]]);
      }
      assert Serial(w, did, ss, j, i, ids, cuts);
    }
  }

  /** THE FILE SYSTEM ACROSS CRASHES. In every run in which operations do not interleave their
      log_writes, and whatever operations that log nothing do in between: at every moment a crash and
      recovery leaves a file system at rest, and type, link count and contents of its files are
      those found at boot with exactly the committed operations applied, each of them whole and in
      their order. While no operation is open, what the cache shows is that with the operations since
      the last commit applied as well. */
  lemma FilesAreOperations(vol: Volume, init: Image, did: nat -> seq<FileOp>, files: Files, ss: seq<State>)
    requires vol.Valid() && IsRun(vol.y, init, ss) && LogTheorems.Roomy(vol.y) && AllSerial(vol, did, ss)
    requires |init| == vol.g.size && F.Whole(vol.g, vol.Read(init)) && FilesAre(vol.g, vol.Read(init), files)
    ensures var s := ss[|ss| - 1];
            && DiskOk(vol.y, s.disk) && AsMade(vol, did, files, s.done, Recovered(vol.y, s.disk))
            && (s.active == map[] && !s.phase.Recover? ==> AsMade(vol, did, files, s.done + s.cur, s.view))
  {
    var w := vol.(good := (evs, st) => MadeBy(vol.g, did, files, evs, st));
    SameRead(vol, w, init);
    SameSerial(vol, w, did, ss);
    KeptFiles(w, init, did, files, ss);
    var s := ss[|ss| - 1];
    SameRead(vol, w, Recovered(vol.y, s.disk));
    if s.active == map[] && !s.phase.Recover? {
      SameRead(vol, w, s.view);
    }
  }
}
