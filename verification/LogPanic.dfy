/** What happens when the log region is not larger than LOGSIZE (log.c:132, log.c:218-223;
    mkfs.c:25): `log_write` can panic with "too big a transaction" although the writing
    operation has reservation left, and, because its tests run before the lock is taken, two
    operations can pass them together and outgrow the region. */
module LogPanic {
  import opened Blocks
  import opened LogSpec
  import opened Crash
  import opened LogRuns
  import opened LogTheorems
  import opened Products

  ghost predicate Reachable(y: Layout, init: Image, s: State) {
    exists ss :: IsRun(y, init, ss) && ss[|ss| - 1] == s
  }

  lemma ReachStep(y: Layout, init: Image, s: State, a: Step)
    requires Reachable(y, init, s) && Enabled(y, s, a)
    ensures Reachable(y, init, Do(y, s, a))
  {
    var ss :| IsRun(y, init, ss) && ss[|ss| - 1] == s;
    var t := Do(y, s, a);
    var tt := ss + [t];
    assert Next(y, s, t);
    forall i | 0 <= i < |tt| - 1
      ensures Next(y, tt[i], tt[i + 1])
    {
      if i < |ss| - 1 {
        assert Next(y, ss[i], ss[i + 1]);
      }
    }
    assert IsRun(y, init, tt) && tt[|tt| - 1] == t;
  }

  /** `kops` operations fit in the log at once, and the disk has LOGSIZE blocks
      behind the log region. LOGSIZE is a multiple of MAXOPBLOCKS (param.h:11). */
  predicate Sized(y: Layout, kops: nat) {
    && y.Valid() && y.maxop >= 1 && kops >= 1 && y.logsize == kops * y.maxop
    && y.start + y.size + y.logsize <= y.nblocks
  }

  /** A disk of zeros, with no transaction on it. */
  predicate Zeros(y: Layout, d: Image) {
    y.Valid() && ImageOk(y, d) && forall b | 0 <= b < |d| :: AllZero(d[b])
  }

  predicate AllZero(v: Block) {
    forall j | 0 <= j < |v| :: v[j] == 0
  }

  lemma HasZeros(y: Layout) returns (d: Image)
    requires y.Valid()
    ensures Zeros(y, d)
  {
    var v := seq(y.words, j => 0);
    d := seq(y.nblocks, i => v);
  }

  lemma ZerosOk(y: Layout, d: Image)
    requires Zeros(y, d)
    ensures DiskOk(y, d) && Header(y, d) == []
  {
    assert AllZero(d[y.start]);
  }

  /** What the operations below write. */
  function Ones(y: Layout): Block {
    seq(y.words, j => 1)
  }

  /** A zero disk, and a list of the blocks right behind the log region. */
  ghost predicate Loaded(y: Layout, d: Image, s: State) {
    && Zeros(y, d) && s.disk == d && ImageOk(y, s.view) && s.done == []
    && forall i: nat | i < |s.lh| :: LoadedAt(y, s.lh, s.view, i)
  }

  predicate LoadedAt(y: Layout, lh: seq<nat>, view: Image, i: nat) {
    i < |lh| && lh[i] == y.start + y.size + i && lh[i] < |view| && view[lh[i]] == Ones(y)
  }

  /** An up and running log with an empty list. */
  ghost predicate Fresh(y: Layout, d: Image, s: State) {
    && Loaded(y, d, s) && s.phase == Idle && s.lh == [] && !s.committing && s.tested == {}
    && s.outstanding == |s.active| && s.used == s.active.Keys
    && forall p | p in s.active :: s.active[p] == {}
  }

  /** Recovery of a zero disk rewrites the empty header. */
  lemma ZeroRecovery(y: Layout, d: Image)
    requires Zeros(y, d)
    ensures DiskOk(y, d) && RecoverLen(y, d) == 1 && RecoverAt(y, d, 0) == Write(y.start, d[y.start])
  {
    ZerosOk(y, d);
    assert AllZero(d[y.start]);
    assert EncodeHeader(d[y.start], []) == d[y.start];
  }

  function Booting(d: Image, pc: nat): State {
    State(d, d, [], 0, false, Recover(pc, d), map[], {}, {}, [], [], [])
  }

  lemma ReachBoot(y: Layout, d: Image)
    requires Zeros(y, d)
    ensures Reachable(y, d, Booting(d, 0))
  {
    ZerosOk(y, d);
    var s := Booting(d, 0);
    assert DurableIs(y, d, d);
    assert Start(y, d, s);
    assert IsRun(y, d, [s]) && [s][|[s]| - 1] == s;
  }

  lemma ReachBooted(y: Layout, d: Image)
    requires Zeros(y, d)
    ensures Reachable(y, d, Booting(d, 1))
  {
    ReachBoot(y, d);
    ZeroRecovery(y, d);
    ReachStep(y, d, Booting(d, 0), RecoverWrite);
    assert d[y.start := d[y.start]] == d;
  }

  lemma ReachFresh(y: Layout, d: Image) returns (s: State)
    requires Zeros(y, d)
    ensures Reachable(y, d, s) && Fresh(y, d, s) && s.active == map[]
  {
    ReachBooted(y, d);
    ZeroRecovery(y, d);
    ReachStep(y, d, Booting(d, 1), RecoverDone);
    s := Booting(d, 1).(phase := Idle, view := d);
  }

  lemma BegunStep(y: Layout, d: Image, kops: nat, r: State, p: nat)
    requires Sized(y, kops) && p < kops && Fresh(y, d, r)
    requires |r.active| == p && forall q: nat :: q in r.active <==> q < p
    ensures Enabled(y, r, BeginOp(p))
    ensures var s := Do(y, r, BeginOp(p));
            Fresh(y, d, s) && |s.active| == p + 1 && forall q: nat :: q in s.active <==> q < p + 1
  {
    TimesAtLeast(p + 1, kops, y.maxop);
    assert r.active[p := {}].Keys == r.active.Keys + {p};
  }

  lemma BegunNext(y: Layout, d: Image, kops: nat, r: State, p: nat) returns (s: State)
    requires Sized(y, kops) && p < kops && Reachable(y, d, r) && Fresh(y, d, r)
    requires |r.active| == p && forall q: nat :: q in r.active <==> q < p
    ensures Reachable(y, d, s) && Fresh(y, d, s)
    ensures |s.active| == p + 1 && forall q: nat :: q in s.active <==> q < p + 1
  {
    BegunStep(y, d, kops, r, p);
    ReachStep(y, d, r, BeginOp(p));
    s := Do(y, r, BeginOp(p));
  }

  lemma {:induction false} ReachBegun(y: Layout, d: Image, kops: nat, k: nat) returns (s: State)
    requires Sized(y, kops) && k <= kops && Zeros(y, d)
    ensures Reachable(y, d, s) && Fresh(y, d, s)
    ensures |s.active| == k && forall p: nat :: p in s.active <==> p < k
  {
    if k == 0 {
      s := ReachFresh(y, d);
    } else {
      var r := ReachBegun(y, d, kops, k - 1);
      s := BegunNext(y, d, kops, r, k - 1);
    }
  }

  // ----- filling the list

  /** How much of its reservation operation p uses: the last r leave one block. */
  function Cap(y: Layout, kops: nat, r: nat, p: nat): nat
    requires y.maxop >= 1
  {
    if p + r >= kops then y.maxop - 1 else y.maxop
  }

  /** `kops` operations open, none beyond its cap, and the list holds what they logged. */
  ghost predicate Filled(y: Layout, d: Image, kops: nat, r: nat, s: State) {
    && y.maxop >= 1 && Loaded(y, d, s) && s.phase == Idle && !s.committing && s.tested == {} && s.outstanding == kops
    && (forall p: nat :: p in s.active <==> p < kops)
    && (forall p: nat | p < kops :: CapAt(y, kops, r, s, p))
    && |s.lh| == Logged(s.active)
  }

  ghost predicate CapAt(y: Layout, kops: nat, r: nat, s: State, p: nat)
    requires y.maxop >= 1
  {
    p in s.active && |s.active[p]| <= Cap(y, kops, r, p) && forall b | b in s.active[p] :: b in s.lh
  }

  /** Operations that have all reached their cap have used all but r blocks. */
  lemma {:induction false} FullSum(y: Layout, kops: nat, r: nat, m: map<nat, set<nat>>, k: nat)
    requires y.maxop >= 1 && r <= kops && k <= kops
    requires forall p: nat :: p in m <==> p < k
    requires forall p: nat | p < k :: |m[p]| >= Cap(y, kops, r, p)
    ensures Logged(m) >= k * y.maxop - (if k + r > kops then k + r - kops else 0)
    decreases k
  {
    if k > 0 {
      var q := k - 1;
      LoggedRemove(m, q);
      FullSum(y, kops, r, m - {q}, q);
      Multiples(k, y.maxop);
    }
  }

  lemma SomeoneBelow(y: Layout, d: Image, kops: nat, r: nat, s: State) returns (p: nat)
    requires Sized(y, kops) && r <= kops && Filled(y, d, kops, r, s) && |s.lh| + r < y.logsize
    ensures p < kops && |s.active[p]| < Cap(y, kops, r, p)
  {
    if forall q: nat | q < kops :: |s.active[q]| >= Cap(y, kops, r, q) {
      FullSum(y, kops, r, s.active, kops);
      assert false;
    }
    p :| p < kops && |s.active[p]| < Cap(y, kops, r, p);
  }

  /** One more block on the list, the next one behind it. */
  lemma AppendLoaded(y: Layout, d: Image, kops: nat, s: State, p: nat, b: nat)
    requires Sized(y, kops) && Loaded(y, d, s) && s.phase == Idle && |s.lh| < y.logsize
    requires b == y.start + y.size + |s.lh|
    requires p in s.active && p in s.tested && |s.active[p]| < y.maxop
    ensures Enabled(y, s, LogAppend(p, Write(b, Ones(y))))
    ensures var t := Do(y, s, LogAppend(p, Write(b, Ones(y))));
            Loaded(y, d, t) && t.lh == s.lh + [b]
  {
    NotListed(y, d, s, b);
    var t := Do(y, s, LogAppend(p, Write(b, Ones(y))));
    forall i: nat | i < |t.lh|
      ensures LoadedAt(y, t.lh, t.view, i)
    {
      assert i < |s.lh| ==> LoadedAt(y, s.lh, s.view, i);
    }
  }

  lemma NotListed(y: Layout, d: Image, s: State, b: nat)
    requires Loaded(y, d, s) && b == y.start + y.size + |s.lh|
    ensures b !in s.lh
  {
    forall i: nat | i < |s.lh|
      ensures s.lh[i] != b
    {
      assert LoadedAt(y, s.lh, s.view, i);
    }
  }

  lemma TestedAppend(y: Layout, d: Image, kops: nat, s: State, p: nat, b: nat) returns (t: State)
    requires Sized(y, kops) && Reachable(y, d, s) && Loaded(y, d, s) && s.phase == Idle && |s.lh| < y.logsize
    requires p in s.active && p in s.tested && |s.active[p]| < y.maxop && b == y.start + y.size + |s.lh|
    ensures Reachable(y, d, t) && Loaded(y, d, t) && t.phase == s.phase && t.committing == s.committing
    ensures t.outstanding == s.outstanding && t.tested == s.tested - {p}
    ensures t.active == s.active[p := s.active[p] + {b}] && t.lh == s.lh + [b]
  {
    AppendLoaded(y, d, kops, s, p, b);
    ReachStep(y, d, s, LogAppend(p, Write(b, Ones(y))));
    t := Do(y, s, LogAppend(p, Write(b, Ones(y))));
  }

  lemma FilledMore(y: Layout, d: Image, kops: nat, r: nat, s: State, p: nat, t: State, b: nat)
    requires Filled(y, d, kops, r, s) && p < kops && |s.active[p]| < Cap(y, kops, r, p) && b !in s.lh
    requires Loaded(y, d, t) && t.lh == s.lh + [b] && t.active == s.active[p := s.active[p] + {b}]
    requires t.phase == Idle && !t.committing && t.tested == {} && t.outstanding == kops
    ensures Filled(y, d, kops, r, t)
  {
    LoggedRemove(s.active, p);
    LoggedRemove(t.active, p);
    assert t.active - {p} == s.active - {p};
    assert CapAt(y, kops, r, s, p) && b !in s.active[p];
    forall q: nat | q < kops
      ensures CapAt(y, kops, r, t, q)
    {
      assert CapAt(y, kops, r, s, q);
    }
  }

  lemma TestAndAppend(y: Layout, d: Image, kops: nat, u: State, p: nat, b: nat) returns (s: State)
    requires Sized(y, kops) && Reachable(y, d, u) && Loaded(y, d, u) && u.phase == Idle && u.tested == {}
    requires u.outstanding >= 1
    requires !TooBig(y, |u.lh|) && p in u.active && |u.active[p]| < y.maxop && b == y.start + y.size + |u.lh|
    ensures Reachable(y, d, s) && Loaded(y, d, s) && s.phase == Idle && s.committing == u.committing
    ensures s.outstanding == u.outstanding && s.tested == {} && s.lh == u.lh + [b]
    ensures s.active == u.active[p := u.active[p] + {b}]
  {
    var v := TestOne(y, d, u, p);
    s := TestedAppend(y, d, kops, v, p, b);
    assert s.tested == {};
  }

  /** log_write by an operation below its cap. */
  lemma FilledStep(y: Layout, d: Image, kops: nat, r: nat, u: State, p: nat) returns (s: State)
    requires Sized(y, kops) && Reachable(y, d, u) && Filled(y, d, kops, r, u)
    requires |u.lh| < y.logsize && |u.lh| + 1 < y.size && p < kops && |u.active[p]| < Cap(y, kops, r, p)
    ensures Reachable(y, d, s) && Filled(y, d, kops, r, s) && |s.lh| == |u.lh| + 1
  {
    var b := y.start + y.size + |u.lh|;
    assert p in u.active && |u.active[p]| < y.maxop && u.outstanding >= 1;
    s := TestAndAppend(y, d, kops, u, p, b);
    NotListed(y, d, u, b);
    FilledMore(y, d, kops, r, u, p, s, b);
  }

  lemma FreshIsFilled(y: Layout, d: Image, kops: nat, r: nat, s: State)
    requires Sized(y, kops) && Fresh(y, d, s) && |s.active| == kops && forall p: nat :: p in s.active <==> p < kops
    ensures Filled(y, d, kops, r, s)
  {
    NothingLogged(s.active);
  }

  lemma {:induction false} ReachFilled(y: Layout, d: Image, kops: nat, r: nat, i: nat) returns (s: State)
    requires Sized(y, kops) && Zeros(y, d) && r <= kops && i + r <= y.logsize && i < y.size
    ensures Reachable(y, d, s) && Filled(y, d, kops, r, s) && |s.lh| == i
    decreases i
  {
    if i == 0 {
      s := ReachBegun(y, d, kops, kops);
      FreshIsFilled(y, d, kops, r, s);
    } else {
      var u := ReachFilled(y, d, kops, r, i - 1);
      var p := SomeoneBelow(y, d, kops, r, u);
      s := FilledStep(y, d, kops, r, u, p);
    }
  }

  lemma {:induction false} NothingLogged(m: map<nat, set<nat>>)
    requires forall p | p in m :: m[p] == {}
    ensures Logged(m) == 0
    decreases |m|
  {
    if m != map[] {
      var p :| p in m && Logged(m) == |m[p]| + Logged(m - {p});
      NothingLogged(m - {p});
    }
  }

  /** EXACTLY WHEN THE GUARD IS SAFE. No reachable log_write by an operation with
      reservation left trips the guard if and only if the log region is larger
      than LOGSIZE; its size counts the header block, LOGSIZE does not. */
  lemma GuardSafeIff(y: Layout, kops: nat)
    requires Sized(y, kops)
    ensures y.size > y.logsize <==>
            forall init, s, p :: Reachable(y, init, s) && HasReservation(y, s, p) ==> !TooBig(y, |s.lh|)
  {
    if y.size > y.logsize {
      forall init, s, p | Reachable(y, init, s) && HasReservation(y, s, p)
        ensures !TooBig(y, |s.lh|)
      {
        var ss :| IsRun(y, init, ss) && ss[|ss| - 1] == s;
        ReservationHolds(y, init, ss, p);
      }
    } else {
      var d := HasZeros(y);
      var s := ReachFilled(y, d, kops, 1, y.size - 1);
      assert CapAt(y, kops, 1, s, kops - 1);
      assert Reachable(y, d, s) && HasReservation(y, s, kops - 1) && TooBig(y, |s.lh|);
    }
  }

  // ----- two operations past the guard together

  /** The list has one block more than the region has room for. */
  ghost predicate Overrun(y: Layout, d: Image, kops: nat, s: State) {
    && Loaded(y, d, s) && s.phase == Idle && !s.committing && s.tested == {} && s.outstanding == kops
    && (forall p: nat :: p in s.active <==> p < kops) && |s.lh| == y.size <= y.logsize
  }

  lemma TestOne(y: Layout, d: Image, s: State, p: nat) returns (t: State)
    requires Reachable(y, d, s) && s.phase == Idle && p in s.active && p !in s.tested && s.outstanding >= 1
    requires !TooBig(y, |s.lh|)
    ensures Reachable(y, d, t) && t == s.(tested := s.tested + {p})
  {
    ReachStep(y, d, s, LogTest(p));
    t := s.(tested := s.tested + {p});
  }

  /** Both read the length before either appends. */
  lemma BothAppend(y: Layout, d: Image, kops: nat, s: State, p: nat, q: nat) returns (t: State)
    requires Sized(y, kops) && 2 <= y.size <= y.logsize && p != q
    requires Reachable(y, d, s) && Loaded(y, d, s) && s.phase == Idle && s.tested == {} && s.outstanding >= 1
    requires p in s.active && q in s.active && |s.active[p]| < y.maxop && |s.active[q]| < y.maxop
    requires |s.lh| == y.size - 2
    ensures Reachable(y, d, t) && Loaded(y, d, t) && |t.lh| == y.size && t.active.Keys == s.active.Keys
    ensures t.phase == Idle && t.committing == s.committing && t.tested == {} && t.outstanding == s.outstanding
  {
    var u := TestOne(y, d, s, p);
    var v := TestOne(y, d, u, q);
    var w := TestedAppend(y, d, kops, v, p, y.start + y.size + |v.lh|);
    t := TestedAppend(y, d, kops, w, q, y.start + y.size + |w.lh|);
    assert t.tested == {};
  }

  lemma ReachOverrun(y: Layout, d: Image, kops: nat) returns (s: State)
    requires Sized(y, kops) && kops >= 2 && 2 <= y.size <= y.logsize && Zeros(y, d)
    ensures Reachable(y, d, s) && Overrun(y, d, kops, s)
  {
    var u := ReachFilled(y, d, kops, 2, y.size - 2);
    var p, q := kops - 2, kops - 1;
    assert CapAt(y, kops, 2, u, p) && CapAt(y, kops, 2, u, q);
    s := BothAppend(y, d, kops, u, p, q);
    assert forall r: nat :: r in s.active <==> r in u.active by {
      assert forall r: nat :: r in s.active.Keys <==> r in u.active.Keys;
    }
  }

  // ----- and commit

  /** k operations are still open. */
  ghost predicate Ending(y: Layout, d: Image, s: State, k: nat) {
    && Loaded(y, d, s) && |s.lh| == y.size <= y.logsize && s.tested == {} && s.outstanding == k
    && if k > 0 then s.phase == Idle && !s.committing && forall p: nat :: p in s.active <==> p < k
       else s.phase.Commit? && s.phase.pc == 0
  }

  lemma EndOne(y: Layout, d: Image, s: State, k: nat) returns (t: State)
    requires k > 0 && Reachable(y, d, s) && Ending(y, d, s, k)
    ensures Reachable(y, d, t) && Ending(y, d, t, k - 1)
  {
    var p := k - 1;
    ReachStep(y, d, s, EndOp(p));
    t := Do(y, s, EndOp(p));
    assert t.lh == s.lh && t.view == s.view && t.disk == s.disk;
    assert forall q: nat :: q in t.active <==> q in s.active && q != p;
  }

  lemma {:induction false} EndAll(y: Layout, d: Image, s: State, k: nat) returns (t: State)
    requires Reachable(y, d, s) && Ending(y, d, s, k)
    ensures Reachable(y, d, t) && Ending(y, d, t, 0)
    decreases k
  {
    t := s;
    if k > 0 {
      t := EndOne(y, d, s, k);
      t := EndAll(y, d, t, k - 1);
    }
  }

  /** k log blocks written; the last one lies behind the region, on a home block. */
  ghost predicate Spilling(y: Layout, d: Image, s: State, k: nat) {
    && Zeros(y, d) && ImageOk(y, s.view) && |s.disk| == y.nblocks && s.done == []
    && s.phase.Commit? && s.phase.pc == k <= |s.lh| == y.size <= y.logsize && y.start + y.size < y.nblocks
    && (forall i: nat | i < |s.lh| :: LoadedAt(y, s.lh, s.view, i))
    && s.disk[y.start] == d[y.start] && (k == y.size ==> s.disk[y.start + y.size] == Ones(y))
  }

  lemma SpillOk(y: Layout, d: Image, kops: nat, s: State)
    requires Sized(y, kops) && |s.lh| == y.size <= y.logsize
    requires forall i: nat | i < |s.lh| :: LoadedAt(y, s.lh, s.view, i)
    ensures ListOk(y, s.lh)
  {
    forall i: nat | i < |s.lh|
      ensures s.lh[i] == y.start + y.size + i
    {
      assert LoadedAt(y, s.lh, s.view, i);
    }
  }

  lemma SpillOne(y: Layout, d: Image, kops: nat, s: State, k: nat) returns (t: State)
    requires Sized(y, kops) && k < y.size && Reachable(y, d, s) && Spilling(y, d, s, k)
    ensures Reachable(y, d, t) && Spilling(y, d, t, k + 1)
  {
    SpillOk(y, d, kops, s);
    ReachStep(y, d, s, CommitWrite);
    t := Do(y, s, CommitWrite);
    assert LoadedAt(y, s.lh, s.view, k);
    forall i: nat | i < |s.lh|
      ensures LoadedAt(y, t.lh, t.view, i)
    {
      assert LoadedAt(y, s.lh, s.view, i);
    }
  }

  lemma {:induction false} SpillAll(y: Layout, d: Image, kops: nat, s: State, k: nat) returns (t: State)
    requires Sized(y, kops) && Reachable(y, d, s) && Spilling(y, d, s, k)
    ensures Reachable(y, d, t) && Spilling(y, d, t, y.size)
    decreases y.size - k
  {
    t := s;
    if k < y.size {
      t := SpillOne(y, d, kops, s, k);
      t := SpillAll(y, d, kops, t, k + 1);
    }
  }

  /** The home block behind the region has been overwritten, and no transaction is on disk. */
  lemma SpilledIsNotWhole(y: Layout, d: Image, s: State)
    requires Spilling(y, d, s, y.size)
    ensures !Whole(y, d, s)
  {
    var b := y.start + y.size;
    ZerosOk(y, d);
    assert LoadedAt(y, s.lh, s.view, 0) && y.Home(b);
    assert Ones(y)[0] == 1 && AllZero(d[b]);
    assert Writes(s.done) == [];
    assert DecodeHeader(d[y.start]) == [];
  }

  lemma ReachTorn(y: Layout, d: Image, kops: nat) returns (s: State)
    requires Sized(y, kops) && kops >= 2 && 2 <= y.size <= y.logsize && Zeros(y, d)
    ensures Reachable(y, d, s) && !Whole(y, d, s)
  {
    var u := ReachOverrun(y, d, kops);
    var v := EndAll(y, d, u, kops);
    s := SpillAll(y, d, kops, v, 0);
    SpilledIsNotWhole(y, d, s);
  }

  /** EXACTLY WHEN OPERATIONS ARE ALL OR NOTHING. Every reachable disk holds whole
      operations only if and only if the log region is larger than LOGSIZE, or only one
      operation can be open at a time, or the region has room for the header alone. */
  lemma AllOrNothingIff(y: Layout, kops: nat)
    requires Sized(y, kops)
    ensures y.size > y.logsize || kops == 1 || y.size == 1 <==>
            forall init, s :: Reachable(y, init, s) ==> Whole(y, init, s)
  {
    if y.size > y.logsize || kops == 1 || y.size == 1 {
      assert Roomy(y);
      forall init, s | Reachable(y, init, s)
        ensures Whole(y, init, s)
      {
        var ss :| IsRun(y, init, ss) && ss[|ss| - 1] == s;
        AllOrNothing(y, init, ss);
      }
    } else {
      var d := HasZeros(y);
      var s := ReachTorn(y, d, kops);
      assert Reachable(y, d, s) && !Whole(y, d, s);
    }
  }

  /** The shipped sizes (param.h:10-11, mkfs.c:25: nlog = LOGSIZE = 30) are on the failing
      side of both: some run panics with a reservation of at least one block left, and some
      run overwrites a home block before its transaction has committed. */
  lemma ShippedSizesFail()
    ensures var y := Layout(2, 30, 30, 10, 128, 1000);
            && (exists init, s, p :: Reachable(y, init, s) && HasReservation(y, s, p) && TooBig(y, |s.lh|))
            && exists init, s :: Reachable(y, init, s) && !Whole(y, init, s)
  {
    var y := Layout(2, 30, 30, 10, 128, 1000);
    GuardSafeIff(y, 3);
    AllOrNothingIff(y, 3);
  }
}
