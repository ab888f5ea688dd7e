/** The log's code (log.c). `Bread` and `Bwrite` stand for the buffer cache: `view`
    is what `bread` shows, `disk` what is on the device, and `trace` records every
    block write in order. CachedLog.dfy proves this reading of the cache. */
module LogCode {
  import opened Blocks
  import opened LogSpec
  import Crash
  import LogRuns
  import opened Wrappers
  import Monitor
  import opened Products

  /** The part of `struct log` that begin_op's wait condition reads. */
  datatype Counters = Counters(n: nat, outstanding: int, committing: bool)

  const LOG: Monitor.Chan := 0  // sleep(&log, &log.lock)

  /** What a process asleep in begin_op waits for. */
  predicate LogWaits(y: Layout, d: Counters) {
    d.committing || d.n + (d.outstanding + 1) * y.maxop > y.logsize
  }

  /** `LogWaits` of one configuration. */
  function Waits(y: Layout): Counters -> bool {
    (d: Counters) => LogWaits(y, d)
  }

  // ----- the stretches of code under log.lock

  /** begin_op: from taking the lock, or waking up, to sleeping or leaving. */
  function BeginSeg(y: Layout, d: Counters): Monitor.Segment<Counters> {
    if LogWaits(y, d) then Monitor.Segment(d, d, [], Some(LOG), {})
    else Monitor.Segment(d, d.(outstanding := d.outstanding + 1), [], None, {})
  }

  /** end_op's first stretch, when it does not panic. */
  function EndSeg(d: Counters): Monitor.Segment<Counters> {
    var e := d.(outstanding := d.outstanding - 1);
    if e.outstanding == 0 then Monitor.Segment(d, e.(committing := true), [], None, {})
    else Monitor.Segment(d, e, [LOG], None, {})
  }

  /** end_op's second stretch, after commit. */
  function FinishSeg(d: Counters): Monitor.Segment<Counters> {
    Monitor.Segment(d, d.(committing := false), [LOG], None, {})
  }

  /** log_write's, for a block that is new on the list or not. */
  function AppendSeg(d: Counters, isNew: bool): Monitor.Segment<Counters> {
    Monitor.Segment(d, d.(n := if isNew then d.n + 1 else d.n), [], None, {})
  }

  predicate Code(y: Layout, g: Monitor.Segment<Counters>) {
    var d := g.before;
    || g == BeginSeg(y, d) || (!d.committing && g == EndSeg(d)) || g == FinishSeg(d)
    || g == AppendSeg(d, false) || g == AppendSeg(d, true)
  }

  /** The same stretches as their callers use them: end_op and log_write inside an operation,
      the end of a commit after the list is empty. */
  predicate UsedCode(y: Layout, g: Monitor.Segment<Counters>) {
    var d := g.before;
    || g == BeginSeg(y, d) || (!d.committing && d.outstanding >= 1 && g == EndSeg(d))
    || (d.committing && d.n == 0 && g == FinishSeg(d))
    || (d.outstanding >= 1 && (g == AppendSeg(d, false) || g == AppendSeg(d, true)))
  }

  /** commit empties the list without the lock, while `committing` is set. */
  predicate Empties(d: Counters, e: Counters) {
    d.committing && e == d.(n := 0)
  }

  function LogProgram(y: Layout): Monitor.Program<Counters> {
    Monitor.Program(g => Code(y, g), (d, e) => Empties(d, e))
  }

  function UsedProgram(y: Layout): Monitor.Program<Counters> {
    Monitor.Program(g => UsedCode(y, g), (d, e) => Empties(d, e))
  }

  class Log {
    const y: Layout
    var disk: Image
    var view: Image
    ghost var trace: seq<Write>

    // struct log
    var n: nat
    const block: array<nat>
    var outstanding: int
    var committing: bool

    constructor (y: Layout, disk: Image)
      requires y.Valid() && ImageOk(y, disk)
      ensures Valid() && this.y == y && this.disk == disk == view
      ensures n == 0 && outstanding == 0 && !committing && trace == []
    {
      this.y, this.disk, this.view := y, disk, disk;
      block := new nat[y.logsize](i => 0);
      n, outstanding, committing, trace := 0, 0, false, [];
    }

    /** Blocks of the log region are always written through. */
    ghost predicate Valid()
      reads this, block
    {
      && y.Valid() && ImageOk(y, disk) && ImageOk(y, view)
      && block.Length == y.logsize && n <= block.Length
      && forall b | y.start <= b < y.start + y.size :: view[b] == disk[b]
    }

    ghost function List(): seq<nat>
      reads this, block
      requires n <= block.Length
    {
      block[..n]
    }

    ghost function Done(): Io
      reads this
    {
      Io(disk, view, trace)
    }

    method Bread(b: nat) returns (v: Block)
      requires b < |view|
      ensures v == view[b]
    {
      v := view[b];
    }

    method Bwrite(b: nat, v: Block)
      requires Valid() && b < y.nblocks && |v| == y.words
      modifies this`disk, this`view, this`trace
      ensures Valid()
      ensures Done() == Put(old(Done()), Write(b, v))
    {
      disk := disk[b := v];
      view := view[b := v];
      trace := trace + [Write(b, v)];
    }

    /** Copy modified blocks from cache to log. */
    method WriteLog()
      requires Valid() && ListOk(y, List())
      modifies this`disk, this`view, this`trace
      ensures Valid() && Done() == CodeIo(y, old(Done()), List(), n)
      // log block i holds what the cache shows of the i-th listed block
      ensures GoodList(y, List()) ==> forall i | 0 <= i < n :: disk[y.start + 1 + i] == old(view)[block[i]]
      ensures forall b | 0 <= b < y.nblocks && !(y.start < b <= y.start + n) :: disk[b] == old(disk)[b]
    {
      ghost var io, lh := Done(), List();
      var tail := 0;
      while tail < n
        invariant 0 <= tail <= n && Valid() && Done() == CodeIo(y, io, lh, tail)
      {
        var from := Bread(block[tail]);
        Bwrite(y.start + tail + 1, from);
        tail := tail + 1;
      }
      forall b: nat | b < y.nblocks { LoggedAt(y, io, lh, n, b); }
      assert forall i | 0 <= i < n :: block[i] == lh[i];
    }

    /** Copy committed blocks from log to their home location. */
    method InstallTrans()
      requires Valid() && ListOk(y, List())
      modifies this`disk, this`view, this`trace
      ensures Valid() && Done() == InstallIo(y, old(Done()), List(), n)
      // the i-th listed block gets what log block i holds
      ensures GoodList(y, List()) ==> forall i | 0 <= i < n :: disk[block[i]] == old(view)[y.start + 1 + i]
      ensures forall b | 0 <= b < y.nblocks && b !in List() :: disk[b] == old(disk)[b]
    {
      ghost var io, lh := Done(), List();
      var tail := 0;
      while tail < n
        invariant 0 <= tail <= n && Valid() && Done() == InstallIo(y, io, lh, tail)
      {
        var lbuf := Bread(y.start + tail + 1);
        Bwrite(block[tail], lbuf);
        tail := tail + 1;
      }
      forall b: nat | b < y.nblocks { InstalledAt(y, io, lh, n, b); }
      assert forall i | 0 <= i < n :: block[i] == lh[i];
    }

    /** Read the log header from disk into the in-memory log header. */
    method ReadHead()
      requires Valid() && HeaderReadable(view[y.start]) && view[y.start][0] <= y.logsize
      modifies this`n, block
      ensures Valid() && List() == DecodeHeader(view[y.start])
      // the count, then the block numbers
      ensures n == view[y.start][0] && forall i | 0 <= i < n :: block[i] == view[y.start][i + 1]
    {
      var lh := Bread(y.start);
      n := lh[0];
      var i := 0;
      while i < n
        invariant 0 <= i <= n == lh[0] <= block.Length && Valid()
        invariant forall j | 0 <= j < i :: block[j] == lh[j + 1]
      {
        block[i] := lh[i + 1];
        i := i + 1;
      }
    }

    /** Write in-memory log header to disk. */
    method WriteHead()
      requires Valid()
      modifies this`disk, this`view, this`trace
      ensures Valid()
      ensures Done() == Put(old(Done()), HeadWrite(y, old(view)[y.start], List()))
      ensures disk[y.start][0] == n && (forall i | 0 <= i < n :: disk[y.start][i + 1] == block[i])
      ensures forall i | n < i < y.words :: disk[y.start][i] == old(view)[y.start][i]
      ensures forall b | 0 <= b < y.nblocks && b != y.start :: disk[b] == old(disk)[b]
    {
      var hb := Bread(y.start);
      hb := hb[0 := n];
      var i := 0;
      while i < n
        invariant 0 <= i <= n && |hb| == y.words && hb[0] == n
        invariant forall j | 0 <= j < i :: hb[j + 1] == block[j]
        invariant forall j | i < j < |hb| :: hb[j] == view[y.start][j]
      {
        hb := hb[i + 1 := block[i]];
        i := i + 1;
      }
      assert hb == EncodeHeader(view[y.start], List());
      Bwrite(y.start, hb);
    }

    /** `recover_from_log`: exactly the writes of the specification, and afterwards
        the cache and the disk both hold what the disk meant. */
    method RecoverFromLog()
      requires Valid() && DiskOk(y, disk) && view == disk
      modifies this`disk, this`view, this`trace, this`n, block
      ensures Valid() && view == disk && n == 0
      ensures trace == old(trace) + RecoverWrites(y, old(disk))
      ensures DiskOk(y, disk) && Header(y, disk) == []
      ensures forall b | 0 <= b < y.nblocks && y.Home(b) :: disk[b] == Durable(y, old(disk), b)
    {
      ghost var io := Done();
      ReadHead();
      RecoverIsSpec(y, io, n);
      InstallTrans();
      Cleared(y, io, Done());
      n := 0;
      assert List() == [];
      WriteHead();
      Crash.RecoveryIsAtomic(y, io.disk, RecoverLen(y, io.disk));
    }

    /** The body of `commit` for a transaction that is not empty. */
    method CommitBody()
      requires Valid() && ListOk(y, List()) && n > 0
      modifies this`disk, this`view, this`trace, this`n
      ensures Valid() && n == 0
      ensures Done() == CodeIo(y, old(Done()), old(List()), CommitLen(old(List())))
    {
      ghost var io, lh := Done(), List();
      ToLog();
      ToHome(io, lh);
    }

    /** commit's first half: the blocks and the header that commits them. */
    method ToLog()
      requires Valid() && ListOk(y, List()) && n > 0
      modifies this`disk, this`view, this`trace
      ensures Valid() && Done() == CodeIo(y, old(Done()), List(), n + 1)
    {
      ghost var io, lh := Done(), List();
      WriteLog();
      HeadStep(y, io, lh);
      WriteHead();
    }

    /** commit's second half: the blocks where they belong, and the header cleared. */
    method ToHome(ghost io: Io, ghost lh: seq<nat>)
      requires Valid() && IoOk(y, io) && ListOk(y, lh) && lh == List() && n > 0 && Done() == CodeIo(y, io, lh, n + 1)
      modifies this`disk, this`view, this`trace, this`n
      ensures Valid() && n == 0 && Done() == CodeIo(y, io, lh, CommitLen(lh))
    {
      CodeInstall(y, io, lh, n);
      InstallTrans();
      ClearStep(y, io, lh);
      n := 0;
      assert List() == [];
      WriteHead();
    }

    /** `commit`, whatever the list: exactly the writes that LogRuns makes one by one. For a
        list that fits the region, and a cache that differs from the disk on listed blocks
        only, these are the writes of the specification, so Crash.CommitIsAtomic speaks
        about every moment of this method. */
    method Commit()
      requires Valid() && ListOk(y, List())
      modifies this`disk, this`view, this`trace, this`n
      ensures Valid() && n == 0
      ensures Done() == CodeIo(y, old(Done()), old(List()), CommitLen(old(List())))
      ensures old(Crash.CommitEntry(y, disk, view, List())) ==>
                && trace == old(trace) + CommitWrites(y, old(disk), old(view), old(List()))
                && DiskOk(y, disk) && Header(y, disk) == []
                && SameHome(y, disk, old(view)) && SameHome(y, view, old(view))
      ensures old(committing) ==> Empties(old(Now()), Now())
    {
      ghost var io, lh := Done(), List();
      if n > 0 {
        CommitBody();
      }
      if Crash.CommitEntry(y, io.disk, io.view, lh) {
        CommitIsSpec(y, io, lh, CommitLen(lh));
        Crash.CommitIsAtomic(y, io.disk, io.view, lh, CommitLen(lh));
        Crash.ShownHome(y, io.disk, io.view, lh, CommitLen(lh));
      }
    }

    ghost function Now(): Counters
      reads this
    {
      Counters(n, outstanding, committing)
    }

    /** One round of begin_op under the log lock. */
    method TryBeginOp() returns (wait: bool, ghost g: Monitor.Segment<Counters>)
      requires Valid()
      modifies this`outstanding
      ensures wait <==> old(committing) || old(n) + (old(outstanding) + 1) * y.maxop > y.logsize
      ensures outstanding == if wait then old(outstanding) else old(outstanding) + 1
      ensures LogProgram(y).code(g)
      ensures g == BeginSeg(y, old(Now())) && g.after == Now() && (wait <==> g.sleepOn == Some(LOG))
      ensures wait ==> g.sleepOn.value in FinishSeg(g.after).woken
      ensures wait && outstanding != 1 ==> g.sleepOn.value in EndSeg(g.after).woken
    {
      g := Monitor.Segment(Now(), Now(), [], Some(LOG), {});
      if committing {
        wait := true;
      } else if n + (outstanding + 1) * y.maxop > y.logsize {
        wait := true;
      } else {
        outstanding := outstanding + 1;
        wait := false;
        g := Monitor.Segment(g.before, Now(), [], None, {});
      }
    }

    /** end_op's first critical section. */
    method TryEndOp() returns (panicked: bool, doCommit: bool, ghost g: Monitor.Segment<Counters>)
      requires Valid()
      modifies this`outstanding, this`committing
      ensures outstanding == old(outstanding) - 1
      ensures panicked <==> old(committing)
      ensures doCommit <==> !panicked && outstanding == 0
      ensures committing == (old(committing) || doCommit)
      ensures !panicked ==> LogProgram(y).code(g) && g == EndSeg(old(Now())) && g.after == Now()
    {
      g := Monitor.Segment(Now(), Now(), [], None, {});
      doCommit := false;
      outstanding := outstanding - 1;
      panicked := committing;
      if !panicked {
        if outstanding == 0 {
          doCommit := true;
          committing := true;
          g := Monitor.Segment(g.before, Now(), [], None, {});
        } else {
          g := Monitor.Segment(g.before, Now(), [LOG], None, {});
        }
      }
    }

    /** end_op's second critical section, after commit. */
    method FinishCommit() returns (ghost g: Monitor.Segment<Counters>)
      requires Valid()
      modifies this`committing
      ensures !committing && LogProgram(y).code(g) && g == FinishSeg(old(Now())) && g.after == Now()
    {
      g := Monitor.Segment(Now(), Now(), [LOG], None, {});
      committing := false;
      g := Monitor.Segment(g.before, Now(), [LOG], None, {});
    }

    /** The tests of `log_write`, which run before the lock is taken: the guard of LogRuns.
        As long as the list stays as it is, they panic exactly when a block that is not on
        it would not fit the header or the log region, or no operation is open. */
    method LogTest() returns (panicked: bool)
      requires Valid()
      ensures panicked <==> LogRuns.TooBig(y, |List()|) || outstanding < 1
      ensures GoodList(y, List()) ==> forall b: nat | y.Home(b) && b !in List() ::
                panicked <==> outstanding < 1 || !GoodList(y, LogRuns.Absorb(List(), b))
    {
      panicked := false;
      if n >= y.logsize || n >= y.size - 1 {
        panicked := true;
      }
      if outstanding < 1 {
        panicked := true;
      }
    }

    /** The rest of `log_write` of block b, whose cached contents are now `v`: the scan
        absorbs a block that is already listed. Nothing here looks at the space left. */
    method LogAppend(b: nat, v: Block) returns (ghost g: Monitor.Segment<Counters>)
      requires Valid() && y.Home(b) && |v| == y.words && Distinct(List())
      requires n < y.logsize || b in List()  // otherwise log.lh.block overflows
      modifies this`view, this`n, block
      ensures Valid()
      ensures view == old(view)[b := v]
      ensures List() == if b in old(List()) then old(List()) else old(List()) + [b]
      ensures List() == LogRuns.Absorb(old(List()), b)
      ensures LogProgram(y).code(g) && g == AppendSeg(old(Now()), b !in old(List())) && g.after == Now()
    {
      view := view[b := v];
      ghost var d := Now();
      var i := 0;
      while i < n
        invariant 0 <= i <= n
        invariant b !in block[..i]
      {
        if block[i] == b {
          break;
        }
        i := i + 1;
      }
      assert i < n ==> block[i] in block[..n];
      block[i] := b;
      if i == n {
        n := n + 1;
      }
      g := Monitor.Segment(d, Now(), [], None, {});
    }
  }

  // ----- sleepers in begin_op

  /** In every run, whoever sleeps in begin_op while log.lock is free, on whatever channel,
      sleeps because a commit is under way or the log has too little space. */
  lemma BeginOpSleeps(y: Layout, ss: seq<Monitor.State<Counters>>, p: Monitor.Pid, c: Monitor.Chan)
    requires Monitor.IsRun(LogProgram(y), ss)
    ensures var s := ss[|ss| - 1];
            s.lk == None && p in s.pc && Monitor.Waiting(s.pc[p], c) ==>
              s.data.committing || s.data.n + (s.data.outstanding + 1) * y.maxop > y.logsize
  {
    forall g | LogProgram(y).code(g)
      ensures Monitor.Minds(g, Waits(y), LOG) && (g.sleepOn.Some? ==> g.sleepOn.value == LOG)
    {
      assert Code(y, g);
      CodeMinds(y, g);
    }
    Monitor.SleepsWhereCoded(LogProgram(y), x => x == LOG, ss, p, c);
    Monitor.NoLostWakeup(LogProgram(y), Waits(y), LOG, ss, p);
  }

  lemma CodeMinds(y: Layout, g: Monitor.Segment<Counters>)
    requires Code(y, g)
    ensures Monitor.Minds(g, Waits(y), LOG)
  {
    var d := g.before;
    Multiples(d.outstanding + 2, y.maxop);
  }

  /** The counters of a state of the log's runs. */
  function Of(s: LogRuns.State): Counters {
    Counters(|s.lh|, s.outstanding, s.committing)
  }

  /** Every step of the log's runs between two crashes is, for the counters, a stretch of
      this code, a change that commit makes without the lock followed by one, or nothing. */
  lemma StepIsCode(y: Layout, s: LogRuns.State, a: LogRuns.Step)
    requires LogRuns.CountInv(s) && LogRuns.Enabled(y, s, a) && !a.CrashNow?
    ensures var d, e := Of(s), Of(LogRuns.Do(y, s, a));
            match a
            case BeginOp(_) => BeginSeg(y, d) == Monitor.Segment(d, e, [], None, {})
            case EndOp(_) => UsedCode(y, EndSeg(d)) && EndSeg(d).after == e
            case LogAppend(_, w) => UsedCode(y, AppendSeg(d, w.b !in s.lh)) && AppendSeg(d, w.b !in s.lh).after == e
            case CommitDone =>
              var m := d.(n := 0);
              Empties(d, m) && UsedCode(y, FinishSeg(m)) && FinishSeg(m).after == e
            case _ => d == e
  {
    if a.EndOp? || a.LogAppend? {
      assert s.active != map[];
    }
  }

  /** With no commit and no operation, the list is empty. */
  predicate Resting(d: Counters) {
    && d.outstanding >= 0 && (d.committing ==> d.outstanding == 0)
    && (!d.committing && d.outstanding == 0 ==> d.n == 0)
  }

  lemma UsedKeepsResting(y: Layout, g: Monitor.Segment<Counters>)
    requires UsedCode(y, g) && Resting(g.before)
    ensures Resting(g.after)
  {
  }

  /** AND THEN THERE IS SOMEONE TO WAIT FOR. In every run from an idle log, if one operation
      fits the log, whoever sleeps in begin_op while log.lock is free sleeps during a commit
      or while an operation is open. */
  lemma BeginOpSleepsForSomeone(y: Layout, ss: seq<Monitor.State<Counters>>, p: Monitor.Pid, c: Monitor.Chan)
    requires Monitor.IsRun(UsedProgram(y), ss) && ss[0].data == Counters(0, 0, false) && y.maxop <= y.logsize
    ensures var s := ss[|ss| - 1];
            && (s.lk == None && p in s.pc && Monitor.Waiting(s.pc[p], c) ==>
                  s.data.committing || s.data.outstanding > 0)
            && (s.data.committing ==> s.data.outstanding == 0)
  {
    var prog := UsedProgram(y);
    forall g | prog.code(g)
      ensures Monitor.Minds(g, Waits(y), LOG) && (g.sleepOn.Some? ==> g.sleepOn.value == LOG)
      ensures Resting(g.before) ==> Resting(g.after)
    {
      assert UsedCode(y, g);
      CodeMinds(y, g);
      if Resting(g.before) {
        UsedKeepsResting(y, g);
      }
    }
    Monitor.SleepsWhereCoded(prog, x => x == LOG, ss, p, c);
    Monitor.NoLostWakeup(prog, Waits(y), LOG, ss, p);
    Monitor.DataKept(prog, Resting, ss);
  }

  /** Block b after k log blocks have been written. */
  lemma {:induction false} LoggedAt(y: Layout, io: Io, lh: seq<nat>, k: nat, b: nat)
    requires y.Valid() && IoOk(y, io) && ListOk(y, lh) && k <= |lh| && b < y.nblocks
    ensures CommitLen(lh) >= k && !(y.start < b <= y.start + k) ==> CodeIo(y, io, lh, k).disk[b] == io.disk[b]
    ensures GoodList(y, lh) && y.start < b <= y.start + k ==>
              CodeIo(y, io, lh, k).disk[b] == io.view[lh[b - y.start - 1]]
    ensures GoodList(y, lh) && y.Home(b) ==> CodeIo(y, io, lh, k).view[b] == io.view[b]
    decreases k
  {
    if k > 0 {
      LoggedAt(y, io, lh, k - 1, b);
      LoggedAt(y, io, lh, k - 1, lh[k - 1]);
    }
  }

  /** Block b after k home blocks have been written. */
  lemma {:induction false} InstalledAt(y: Layout, io: Io, lh: seq<nat>, k: nat, b: nat)
    requires y.Valid() && IoOk(y, io) && ListOk(y, lh) && k <= |lh| && b < y.nblocks
    ensures b !in lh ==> InstallIo(y, io, lh, k).disk[b] == io.disk[b] && InstallIo(y, io, lh, k).view[b] == io.view[b]
    ensures GoodList(y, lh) ==> forall i | 0 <= i < k :: b == lh[i] ==>
              InstallIo(y, io, lh, k).disk[b] == io.view[y.start + 1 + i]
    decreases k
  {
    if k > 0 {
      InstalledAt(y, io, lh, k - 1, b);
      if GoodList(y, lh) {
        InstalledAt(y, io, lh, k - 1, y.start + k);
      }
    }
  }

  lemma HeadStep(y: Layout, io: Io, lh: seq<nat>)
    requires y.Valid() && IoOk(y, io) && ListOk(y, lh) && lh != []
    ensures var r := CodeIo(y, io, lh, |lh|);
            CodeIo(y, io, lh, |lh| + 1) == Put(r, HeadWrite(y, r.view[y.start], lh))
  {
  }

  lemma ClearStep(y: Layout, io: Io, lh: seq<nat>)
    requires y.Valid() && IoOk(y, io) && ListOk(y, lh) && lh != []
    ensures var r := CodeIo(y, io, lh, 2 * |lh| + 1);
            CodeIo(y, io, lh, CommitLen(lh)) == Put(r, HeadWrite(y, r.view[y.start], []))
  {
  }

  /** The second half of commit is install_trans. */
  lemma {:induction false} CodeInstall(y: Layout, io: Io, lh: seq<nat>, k: nat)
    requires y.Valid() && IoOk(y, io) && ListOk(y, lh) && k <= |lh| && lh != []
    ensures CodeIo(y, io, lh, |lh| + 1 + k) == InstallIo(y, CodeIo(y, io, lh, |lh| + 1), lh, k)
    decreases k
  {
    if k > 0 {
      CodeInstall(y, io, lh, k - 1);
    }
  }

  /** From a cache that differs from the disk on listed blocks only, the code makes the
      writes of the specification. */
  lemma {:induction false} CommitIsSpec(y: Layout, io: Io, lh: seq<nat>, k: nat)
    requires Crash.CommitEntry(y, io.disk, io.view, lh) && Crash.RegionSame(y, io.disk, io.view) && k <= CommitLen(lh)
    ensures ListOk(y, lh)
    ensures var r := CodeIo(y, io, lh, k);
            && r.disk == Crash.CommitPrefix(y, io.disk, io.view, lh, k)
            && r.view == Crash.Shown(y, io.disk, io.view, lh, k)
            && r.trace == io.trace + CommitWrites(y, io.disk, io.view, lh)[..k]
    decreases k
  {
    if k > 0 {
      CommitIsSpec(y, io, lh, k - 1);
      Crash.NextIsAt(y, io.disk, io.view, lh, k - 1);
      TraceNext(CommitWrites(y, io.disk, io.view, lh), k - 1, io.trace);
    }
  }

  /** Recovery's last write clears the header. */
  lemma Cleared(y: Layout, io: Io, r: Io)
    requires DiskOk(y, io.disk) && r.disk == r.view == Crash.RecoverPrefix(y, io.disk, |Header(y, io.disk)|)
    requires r.trace == io.trace + RecoverWrites(y, io.disk)[..|Header(y, io.disk)|]
    ensures 1 <= |r.view[y.start]| && y.start < |r.disk|
    ensures var t := Put(r, HeadWrite(y, r.view[y.start], []));
            && t.disk == t.view == Crash.RecoverPrefix(y, io.disk, RecoverLen(y, io.disk))
            && t.trace == io.trace + RecoverWrites(y, io.disk)
  {
    var n := |Header(y, io.disk)|;
    Crash.RecoverBlocks(y, io.disk, n, y.start);
    var ws := RecoverWrites(y, io.disk);
    TraceNext(ws, n, io.trace);
    assert ws[..n + 1] == ws;
  }

  /** From a disk with a readable header, so does recovery. */
  lemma {:induction false} RecoverIsSpec(y: Layout, io: Io, k: nat)
    requires DiskOk(y, io.disk) && io.view == io.disk && k <= |Header(y, io.disk)|
    ensures ListOk(y, Header(y, io.disk))
    ensures var r := InstallIo(y, io, Header(y, io.disk), k);
            && r.disk == r.view == Crash.RecoverPrefix(y, io.disk, k)
            && r.trace == io.trace + RecoverWrites(y, io.disk)[..k]
    decreases k
  {
    if k > 0 {
      RecoverIsSpec(y, io, k - 1);
      Crash.RecoverBlocks(y, io.disk, k - 1, y.start + k);
      TraceNext(RecoverWrites(y, io.disk), k - 1, io.trace);
    }
  }
}
