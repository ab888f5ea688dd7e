/** Pipes (pipe.c): a ring buffer with wrapping 32-bit counters. */
module Pipes {
  import opened Wrappers
  import opened Monitor
  import opened Products

  const UINT: nat := 0x1_0000_0000

  // ----- counters modulo 2^32

  /** Remainder, by repeated subtraction. */
  function Mod(x: nat, n: nat): (r: nat)
    requires n >= 1
    ensures r < n
  {
    if x < n then x else Mod(x - n, n)
  }

  lemma {:induction false} ModSplits(x: nat, n: nat) returns (q: nat)
    requires n >= 1
    ensures x == q * n + Mod(x, n)
    decreases x
  {
    q := 0;
    if x >= n {
      q := ModSplits(x - n, n);
      q := q + 1;
    }
  }

  lemma ModIsRemainder(x: nat, n: nat)
    requires n >= 1
    ensures Mod(x, n) == x % n
  {
    var q := ModSplits(x, n);
    assert x == x / n * n + x % n;
    if q < x / n {
      TimesLess(q, x / n, n);
    } else if x / n < q {
      TimesLess(x / n, q, n);
    }
  }

  lemma {:induction false} ModStep(k: nat, n: nat)
    requires n >= 1
    ensures Mod(k + 1, n) == if Mod(k, n) + 1 == n then 0 else Mod(k, n) + 1
    decreases k
  {
    if k >= n {
      ModStep(k - n, n);
    }
  }

  lemma {:induction false} ModPlus(k: nat, u: nat, n: nat)
    requires n >= 1 && Mod(u, n) == 0
    ensures Mod(k + u, n) == Mod(k, n)
    decreases u
  {
    if u >= n {
      ModPlus(k, u - n, n);
    }
  }

  lemma {:induction false} WrapKeepsIndex(k: nat, n: nat)
    requires n >= 1 && Mod(UINT, n) == 0
    ensures Mod(Mod(k, UINT), n) == Mod(k, n)
    decreases k
  {
    if k >= UINT {
      WrapKeepsIndex(k - UINT, n);
      ModPlus(k - UINT, UINT, n);
    }
  }

  /** Indexing with a wrapped counter is indexing with the full count, for every
      count, exactly when the buffer size divides 2^32. */
  lemma WrapKeepsIndexIff(n: nat)
    requires n >= 1
    ensures Mod(UINT, n) == 0 <==> forall k: nat :: Mod(Mod(k, UINT), n) == Mod(k, n)
  {
    if Mod(UINT, n) == 0 {
      forall k: nat
        ensures Mod(Mod(k, UINT), n) == Mod(k, n)
      {
        WrapKeepsIndex(k, n);
      }
    } else {
      assert Mod(UINT, UINT) == Mod(0, UINT) == 0;
      assert Mod(0, n) == 0;
      assert Mod(Mod(UINT, UINT), n) != Mod(UINT, n);
    }
  }

  /** Fewer than n apart, different slots. */
  lemma {:induction false} SlotsDiffer(a: nat, b: nat, n: nat)
    requires n >= 1 && a < b < a + n
    ensures Mod(a, n) != Mod(b, n)
    decreases a
  {
    if a >= n {
      SlotsDiffer(a - n, b - n, n);
    }
  }

  /** Wrapped counters tell an empty and a full pipe apart. */
  lemma {:induction false} WrappedCounts(r: nat, w: nat, n: nat)
    requires n < UINT && r <= w <= r + n
    ensures Mod(r, UINT) == Mod(w, UINT) <==> r == w
    ensures Mod(Mod(r, UINT) + n, UINT) == Mod(w, UINT) <==> w == r + n
    decreases r
  {
    if r >= UINT {
      WrappedCounts(r - UINT, w - UINT, n);
    } else {
      if r < w {
        SlotsDiffer(r, w, UINT);
      }
      if w < r + n {
        SlotsDiffer(w, r + n, UINT);
      }
    }
  }

  // ----- the pipe

  /** Channels `&p->nread` (readers wait) and `&p->nwrite` (writers wait). */
  const NREAD: Chan := 0
  const NWRITE: Chan := 1

  datatype PipeData = PipeData(count: nat, size: nat, readopen: bool, writeopen: bool)

  /** What a process asleep in piperead waits for: a byte, or the last writer to close. */
  predicate ReaderWaits(d: PipeData) {
    d.count == 0 && d.writeopen && d.readopen
  }

  /** What a process asleep in pipewrite waits for: room, or the last reader to close. */
  predicate WriterWaits(d: PipeData) {
    d.count == d.size && d.readopen
  }

  // ----- the stretches of code under the pipe's lock

  /** pipewrite with `left` bytes to go, up to sleeping or leaving. */
  function WriteSeg(d: PipeData, left: nat, killed: bool): Segment<PipeData> {
    if d.count + left <= d.size then Segment(d, d.(count := d.count + left), [NREAD], None, {})
    else if !d.readopen || killed then Segment(d, d.(count := d.size), [], None, {})
    else Segment(d, d.(count := d.size), [NREAD], Some(NWRITE), {})
  }

  /** piperead of up to n bytes, up to sleeping or leaving. */
  function ReadSeg(d: PipeData, n: nat, killed: bool): Segment<PipeData> {
    if d.count == 0 && d.writeopen then Segment(d, d, [], if killed then None else Some(NREAD), {})
    else Segment(d, d.(count := if n < d.count then d.count - n else 0), [NWRITE], None, {})
  }

  /** pipeclose. A process in piperead has the pipe's read end open, so nobody sleeps
      there when that end is closed. */
  function CloseSeg(d: PipeData, writable: bool): Segment<PipeData> {
    if writable then Segment(d, d.(writeopen := false), [NREAD], None, {})
    else Segment(d, d.(readopen := false), [NWRITE], None, {NREAD})
  }

  /** All of them; killed writers only if `killers`. */
  ghost predicate PipeCode(killers: bool, g: Segment<PipeData>) {
    && g.before.count <= g.before.size
    && (|| (exists left: nat, killed: bool :: (killed ==> killers) && g == WriteSeg(g.before, left, killed))
        || (g.before.readopen && exists n: nat, killed: bool :: g == ReadSeg(g.before, n, killed))
        || exists writable: bool :: g == CloseSeg(g.before, writable))
  }

  ghost function PipeProgram(killers: bool): Program<PipeData> {
    Program(g => PipeCode(killers, g), (d, e) => false)
  }

  datatype Outcome = Sleeps | Returns | Fails

  class Pipe<T(0)> {
    const data: array<T>
    var nread: nat
    var nwrite: nat
    var readopen: bool
    var writeopen: bool
    ghost var accepted: seq<T>   // every byte ever written
    ghost var delivered: seq<T>  // every byte ever read

    /** The pipe is an unbounded FIFO seen through a ring: what was read is a prefix
        of what was written, at most PIPESIZE bytes are in between, and those are in
        the buffer; the counters are the totals modulo 2^32. */
    ghost predicate Valid()
      reads this, data
    {
      && 1 <= data.Length < UINT && Mod(UINT, data.Length) == 0
      && delivered <= accepted && |accepted| <= |delivered| + data.Length
      && nread == Mod(|delivered|, UINT) && nwrite == Mod(|accepted|, UINT)
      && forall k | |delivered| <= k < |accepted| :: data[Mod(k, data.Length)] == accepted[k]
    }

    ghost function Data(): PipeData
      reads this
      requires |delivered| <= |accepted|
    {
      PipeData(|accepted| - |delivered|, data.Length, readopen, writeopen)
    }

    constructor (size: nat)
      requires 1 <= size < UINT && Mod(UINT, size) == 0
      ensures Valid() && fresh(data) && accepted == delivered == [] && readopen && writeopen && data.Length == size
    {
      data := new T[size];
      nread, nwrite, readopen, writeopen := 0, 0, true, true;
      accepted, delivered := [], [];
    }

    method Full() returns (b: bool)
      requires Valid()
      ensures b <==> |accepted| == |delivered| + data.Length
    {
      WrappedCounts(|delivered|, |accepted|, data.Length);
      b := nwrite == Mod(nread + data.Length, UINT);
    }

    method Empty() returns (b: bool)
      requires Valid()
      ensures b <==> |accepted| == |delivered|
    {
      WrappedCounts(|delivered|, |accepted|, data.Length);
      b := nread == nwrite;
    }

    /** `p->data[p->nwrite++ % PIPESIZE] = x`. */
    method Put(x: T)
      requires Valid() && |accepted| < |delivered| + data.Length
      modifies this`nwrite, this`accepted, data
      ensures Valid() && accepted == old(accepted) + [x]
    {
      WrapKeepsIndex(|accepted|, data.Length);
      forall k | |delivered| <= k < |accepted|
        ensures Mod(k, data.Length) != Mod(|accepted|, data.Length)
      {
        SlotsDiffer(k, |accepted|, data.Length);
      }
      data[Mod(nwrite, data.Length)] := x;
      ModStep(|accepted|, UINT);
      nwrite := if nwrite + 1 == UINT then 0 else nwrite + 1;
      accepted := accepted + [x];
    }

    /** `p->data[p->nread++ % PIPESIZE]`. */
    method Get() returns (x: T)
      requires Valid() && |delivered| < |accepted|
      modifies this`nread, this`delivered
      ensures Valid() && delivered == old(delivered) + [x]
    {
      WrapKeepsIndex(|delivered|, data.Length);
      x := data[Mod(nread, data.Length)];
      ModStep(|delivered|, UINT);
      nread := if nread + 1 == UINT then 0 else nread + 1;
      delivered := delivered + [x];
    }

    /** `pipewrite` from taking the lock, or waking up, to sleeping or returning, with
        addr[i..] still to be written. */
    method WriteSegment(addr: seq<T>, i: nat, killed: bool) returns (j: nat, out: Outcome, ghost g: Segment<PipeData>)
      requires Valid() && i <= |addr|
      modifies this`nwrite, this`accepted, data
      ensures Valid() && i <= j <= |addr| && accepted == old(accepted) + addr[i..j]
      ensures out == Returns <==> old(Data()).count + (|addr| - i) <= data.Length
      ensures out == Returns <==> j == |addr|
      ensures out == Sleeps <==> j < |addr| && readopen && !killed
      ensures g == WriteSeg(old(Data()), |addr| - i, killed) && g.after == Data()
      ensures out == Sleeps <==> g.sleepOn == Some(NWRITE)
      ensures PipeProgram(killed).code(g)
      ensures out == Sleeps ==> g.sleepOn.value in CloseSeg(g.after, false).woken
      ensures out == Sleeps ==> forall n: nat, k: bool :: g.sleepOn.value in ReadSeg(g.after, n, k).woken
    {
      ghost var d := Data();
      j := i;
      while j < |addr|
        invariant Valid() && i <= j <= |addr| && accepted == old(accepted) + addr[i..j]
        invariant |accepted| == |old(accepted)| + (j - i)
      {
        var full := Full();
        if full {
          if !readopen || killed {
            return j, Fails, Segment(d, Data(), [], None, {});
          }
          return j, Sleeps, Segment(d, Data(), [NREAD], Some(NWRITE), {});
        }
        Put(addr[j]);
        j := j + 1;
      }
      g := Segment(d, Data(), [NREAD], None, {});
      out := Returns;
    }

    /** `piperead` from taking the lock, or waking up, to sleeping or returning. */
    method ReadSegment(n: nat, killed: bool) returns (dst: seq<T>, out: Outcome, ghost g: Segment<PipeData>)
      requires Valid()
      modifies this`nread, this`delivered
      ensures Valid() && delivered == old(delivered) + dst
      ensures out == Sleeps <==> old(Data()).count == 0 && writeopen && !killed
      ensures out == Fails <==> old(Data()).count == 0 && writeopen && killed
      ensures |dst| == if out == Returns && n < old(Data()).count then n
              else if out == Returns then old(Data()).count else 0
      ensures g == ReadSeg(old(Data()), n, killed) && g.after == Data() && (out == Sleeps <==> g.sleepOn == Some(NREAD))
      ensures out == Sleeps ==> g.sleepOn.value in CloseSeg(g.after, true).woken
      ensures readopen ==> PipeProgram(false).code(g)
      ensures out == Sleeps && readopen ==> forall left: nat :: g.sleepOn.value in WriteSeg(g.after, left, false).woken
    {
      dst := [];
      g := Segment(Data(), Data(), [], None, {});
      var empty := Empty();
      if empty && writeopen {
        if killed {
          return dst, Fails, g;
        }
        g := g.(sleepOn := Some(NREAD));
        return dst, Sleeps, g;
      }
      var i := 0;
      while i < n
        invariant Valid() && 0 <= i == |dst| <= n && delivered == old(delivered) + dst
      {
        var none := Empty();
        if none {
          break;
        }
        var x := Get();
        dst := dst + [x];
        i := i + 1;
      }
      g := Segment(g.before, Data(), [NWRITE], None, {});
      out := Returns;
    }

    /** `pipeclose` of one end. */
    method Close(writable: bool) returns (gone: bool, ghost g: Segment<PipeData>)
      requires Valid()
      modifies this`readopen, this`writeopen
      ensures Valid() && readopen == (old(readopen) && writable) && writeopen == (old(writeopen) && !writable)
      ensures gone <==> !readopen && !writeopen
      ensures PipeProgram(false).code(g) && g == CloseSeg(old(Data()), writable) && g.after == Data()
    {
      ghost var d := Data();
      if writable {
        writeopen := false;
        g := Segment(d, Data(), [NREAD], None, {});
      } else {
        readopen := false;
        g := Segment(d, Data(), [NWRITE], None, {NREAD});
      }
      gone := !readopen && !writeopen;
      assert g == CloseSeg(g.before, writable) && PipeCode(false, g);
    }
  }

  // ----- sleepers

  /** A stretch of pipewrite tells the readers of every byte unless a killed writer with too
      much to write finds the pipe empty and both ends open. */
  lemma WriteMindsIff(d: PipeData, left: nat, killed: bool)
    requires 1 <= d.size && d.count <= d.size
    ensures Minds(WriteSeg(d, left, killed), ReaderWaits, NREAD) <==>
            !(killed && d.readopen && d.writeopen && d.count == 0 && left > d.size)
  {
  }

  /** A stretch of the code sleeps where readers or writers do. */
  predicate Known(c: Chan) {
    c == NREAD || c == NWRITE
  }

  /** In every run, with killed writers or without, whoever sleeps while the lock is free, on
      any channel but that of the readers, sleeps on a full pipe whose read end is open. */
  lemma WriterSleepsOnFull(killers: bool, ss: seq<State<PipeData>>, p: Pid, c: Chan)
    requires IsRun(PipeProgram(killers), ss) && c != NREAD
    ensures var s := ss[|ss| - 1];
            s.lk == None && p in s.pc && Waiting(s.pc[p], c) ==> s.data.count == s.data.size && s.data.readopen
  {
    forall g | PipeProgram(killers).code(g)
      ensures Minds(g, WriterWaits, NWRITE) && (g.sleepOn.Some? ==> Known(g.sleepOn.value))
    {
      assert PipeCode(killers, g);
    }
    SleepsWhereCoded(PipeProgram(killers), Known, ss, p, c);
    NoLostWakeup(PipeProgram(killers), WriterWaits, NWRITE, ss, p);
  }

  /** In every run without killed writers, whoever sleeps while the lock is free, on any
      channel but that of the writers, sleeps on an empty pipe whose write end is open. */
  lemma ReaderSleepsOnEmpty(ss: seq<State<PipeData>>, p: Pid, c: Chan)
    requires IsRun(PipeProgram(false), ss) && c != NWRITE
    ensures ReaderOk(ss[|ss| - 1], p, c)
  {
    forall g | PipeProgram(false).code(g)
      ensures Minds(g, ReaderWaits, NREAD) && (g.sleepOn.Some? ==> Known(g.sleepOn.value))
    {
      assert PipeCode(false, g);
    }
    SleepsWhereCoded(PipeProgram(false), Known, ss, p, c);
    NoLostWakeup(PipeProgram(false), ReaderWaits, NREAD, ss, p);
  }

  predicate ReaderOk(s: State<PipeData>, p: Pid, c: Chan) {
    s.lk == None && p in s.pc && Waiting(s.pc[p], c) ==> s.data.count == 0 && s.data.writeopen
  }

  // ----- the killed writer

  /** Process 0 falls asleep in piperead on an empty pipe. */
  lemma ReaderFallsAsleep(n: nat) returns (ss: seq<State<PipeData>>)
    ensures IsRun(PipeProgram(true), ss)
    ensures ss[|ss| - 1] == State(PipeData(0, n, true, true), None, None, map[0 := Asleep(NREAD), 1 := Outside])
  {
    var prog, d := PipeProgram(true), PipeData(0, n, true, true);
    var g := ReadSeg(d, 1, false);
    assert PipeCode(true, g);
    ss := [State(d, None, None, map[0 := Outside, 1 := Outside])];
    ss := Extend(prog, ss, 0, Acquire);
    ss := Extend(prog, ss, 0, Run(g));
    ss := SleepThrough(prog, ss, 0);
  }

  /** sleep, from the call to the switch away. */
  lemma SleepThrough(prog: Program<PipeData>, ss: seq<State<PipeData>>, p: Pid) returns (tt: seq<State<PipeData>>)
    requires IsRun(prog, ss) && p in ss[|ss| - 1].pc && ss[|ss| - 1].pt == None
    requires ss[|ss| - 1].pc[p].Inside? && ss[|ss| - 1].pc[p].todo == [] && ss[|ss| - 1].pc[p].next.Some?
    ensures IsRun(prog, tt)
    ensures var s := ss[|ss| - 1];
            tt[|tt| - 1] == s.(lk := None, pc := s.pc[p := Asleep(s.pc[p].next.value)])
  {
    tt := Extend(prog, ss, p, SleepCall);
    tt := Extend(prog, tt, p, SleepLock);
    tt := Extend(prog, tt, p, SleepRelease);
    tt := Extend(prog, tt, p, SleepSwitch);
  }

  lemma Extend(prog: Program<PipeData>, ss: seq<State<PipeData>>, p: Pid,
               a: Step<PipeData>) returns (tt: seq<State<PipeData>>)
    requires IsRun(prog, ss) && Enabled(prog, ss[|ss| - 1], p, a)
    ensures IsRun(prog, tt) && tt[|tt| - 1] == Do(prog, ss[|ss| - 1], p, a)
  {
    RunMore(prog, ss, p, a);
    tt := ss + [Do(prog, ss[|ss| - 1], p, a)];
  }

  /** A KILLED WRITER STRANDS THE READER. Process 1, killed, fills the pipe and leaves: the
      lock is free, the pipe is full, and process 0 is still asleep for a byte. */
  lemma KilledWriterStrandsReader(n: nat) returns (ss: seq<State<PipeData>>)
    requires n >= 1
    ensures IsRun(PipeProgram(true), ss)
    ensures ss[|ss| - 1] == State(PipeData(n, n, true, true), None, None, map[0 := Asleep(NREAD), 1 := Outside])
  {
    var prog, d := PipeProgram(true), PipeData(0, n, true, true);
    var g := WriteSeg(d, n + 1, true);
    assert PipeCode(true, g);
    ss := ReaderFallsAsleep(n);
    ss := Extend(prog, ss, 1, Acquire);
    ss := Extend(prog, ss, 1, Run(g));
    ss := Extend(prog, ss, 1, Release);
  }

  /** Sleeping readers are right in every run if and only if no writer is killed. */
  lemma ReaderSafeIff(killers: bool)
    ensures !killers <==> forall ss :: IsRun(PipeProgram(killers), ss) ==> ReadersOk(ss[|ss| - 1])
  {
    if killers {
      var ss := KilledWriterStrandsReader(1);
      assert !ReaderOk(ss[|ss| - 1], 0, NREAD);
    } else {
      forall ss | IsRun(PipeProgram(killers), ss)
        ensures ReadersOk(ss[|ss| - 1])
      {
        var s := ss[|ss| - 1];
        forall p: Pid, c: Chan | c != NWRITE
          ensures ReaderOk(s, p, c)
        {
          ReaderSleepsOnEmpty(ss, p, c);
        }
      }
    }
  }

  ghost predicate ReadersOk(s: State<PipeData>) {
    forall p: Pid, c: Chan | c != NWRITE :: ReaderOk(s, p, c)
  }
}
