/** sleep and wakeup (proc.c) under a condition lock, for any shared data and any code.

    A process holds the condition lock `lk` while it looks at or changes the data;
    `sleep` takes ptable.lock before it gives `lk` up, and `wakeup` takes
    ptable.lock while `lk` is held. The step system interleaves any number of
    processes at the granularity of those lock operations. It demands nothing of the
    code: what is forgotten is forgotten. */
module Monitor {
  import opened Wrappers

  type Chan = nat
  type Pid = nat

  /** One stretch of code under the condition lock: the data it finds and leaves, the
      channels it then calls wakeup on, and whether it ends by sleeping. `idle` are channels
      on which, for reasons outside the monitor, nobody can be asleep when it runs. */
  datatype Segment<S> = Segment(before: S, after: S, woken: seq<Chan>, sleepOn: Option<Chan>, idle: set<Chan>)

  /** The stretches the code can make, and the changes made without the lock. */
  datatype Program<!S> = Program(code: Segment<S> -> bool, background: (S, S) -> bool)

  /** Where a process is. `todo` are the wakeups still to be made, `next` says whether the
      process then sleeps. */
  datatype At =
    | Outside
    | Entered                                           // holds lk
    | Inside(todo: seq<Chan>, next: Option<Chan>)       // holds lk, has changed the data
    | WakeWants(todo: seq<Chan>, next: Option<Chan>)    // wakeup(todo[0]): waits for ptable.lock
    | WakeHolds(todo: seq<Chan>, next: Option<Chan>)    // holds both, before the scan
    | WakeDone(todo: seq<Chan>, next: Option<Chan>)     // holds both, after the scan
    | SleepWants(c: Chan)                               // sleep: holds lk, waits for ptable.lock
    | SleepBoth(c: Chan)                                // holds both
    | SleepHolds(c: Chan)                               // has released lk, still holds ptable.lock
    | Asleep(c: Chan)                                   // SLEEPING
    | Awake                                             // RUNNABLE again, has yet to reacquire lk

  datatype State<S> = State(data: S, lk: Option<Pid>, pt: Option<Pid>, pc: map<Pid, At>)

  predicate HoldsLk(a: At) {
    a.Entered? || a.Inside? || a.WakeWants? || a.WakeHolds? || a.WakeDone? || a.SleepWants? || a.SleepBoth?
  }

  predicate HoldsPt(a: At) {
    a.WakeHolds? || a.WakeDone? || a.SleepBoth? || a.SleepHolds?
  }

  /** Asleep on c, or past the point where the lock was given up. */
  predicate Waiting(a: At, c: Chan) {
    (a.Asleep? && a.c == c) || (a.SleepHolds? && a.c == c)
  }

  datatype Step<S> =
    | Acquire
    | Run(g: Segment<S>)
    | WakeCall
    | WakeLock
    | WakeScan
    | WakeUnlock
    | Release
    | SleepCall
    | SleepLock
    | SleepRelease
    | SleepSwitch
    | Killed            // kill() makes a sleeper runnable
    | Background(d: S)  // a change outside the lock

  ghost predicate Enabled<S(!new)>(prog: Program<S>, s: State<S>, p: Pid, a: Step<S>) {
    p in s.pc &&
    match a
    case Acquire => (s.pc[p].Outside? || s.pc[p].Awake?) && s.lk == None
    case Run(g) =>
      && s.pc[p].Entered? && prog.code(g) && g.before == s.data
      && forall q, c | q in s.pc && c in g.idle :: !Waiting(s.pc[q], c)
    case WakeCall => s.pc[p].Inside? && s.pc[p].todo != []
    case WakeLock => s.pc[p].WakeWants? && s.pt == None
    case WakeScan => s.pc[p].WakeHolds? && s.pc[p].todo != []
    case WakeUnlock => s.pc[p].WakeDone?
    case Release => s.pc[p] == Inside([], None)
    case SleepCall => s.pc[p].Inside? && s.pc[p].todo == [] && s.pc[p].next.Some?
    case SleepLock => s.pc[p].SleepWants? && s.pt == None
    case SleepRelease => s.pc[p].SleepBoth?
    case SleepSwitch => s.pc[p].SleepHolds?
    case Killed => s.pc[p].Asleep? && s.pt == None
    case Background(d) => prog.background(s.data, d)
  }

  /** wakeup1: everyone asleep on c becomes runnable. */
  function Scan(pc: map<Pid, At>, c: Chan): (r: map<Pid, At>)
    ensures r.Keys == pc.Keys
  {
    map q | q in pc :: if pc[q] == Asleep(c) then Awake else pc[q]
  }

  ghost function Do<S(!new)>(prog: Program<S>, s: State<S>, p: Pid, a: Step<S>): State<S>
    requires Enabled(prog, s, p, a)
  {
    match a
    case Acquire => s.(lk := Some(p), pc := s.pc[p := Entered])
    case Run(g) => s.(data := g.after, pc := s.pc[p := Inside(g.woken, g.sleepOn)])
    case WakeCall => s.(pc := s.pc[p := WakeWants(s.pc[p].todo, s.pc[p].next)])
    case WakeLock => s.(pt := Some(p), pc := s.pc[p := WakeHolds(s.pc[p].todo, s.pc[p].next)])
    case WakeScan => s.(pc := Scan(s.pc, s.pc[p].todo[0])[p := WakeDone(s.pc[p].todo[1..], s.pc[p].next)])
    case WakeUnlock => s.(pt := None, pc := s.pc[p := Inside(s.pc[p].todo, s.pc[p].next)])
    case Release => s.(lk := None, pc := s.pc[p := Outside])
    case SleepCall => s.(pc := s.pc[p := SleepWants(s.pc[p].next.value)])
    case SleepLock => s.(pt := Some(p), pc := s.pc[p := SleepBoth(s.pc[p].c)])
    case SleepRelease => s.(lk := None, pc := s.pc[p := SleepHolds(s.pc[p].c)])
    case SleepSwitch => s.(pt := None, pc := s.pc[p := Asleep(s.pc[p].c)])
    case Killed => s.(pc := s.pc[p := Awake])
    case Background(d) => s.(data := d)
  }

  /** Start: nobody in the monitor. */
  ghost predicate Start<S>(s: State<S>) {
    s.lk == None && s.pt == None && forall p | p in s.pc :: s.pc[p] == Outside
  }

  ghost predicate Next<S(!new)>(prog: Program<S>, s: State<S>, t: State<S>) {
    exists p, a :: Enabled(prog, s, p, a) && t == Do(prog, s, p, a)
  }

  ghost predicate IsRun<S(!new)>(prog: Program<S>, ss: seq<State<S>>) {
    && |ss| > 0 && Start(ss[0])
    && forall i | 0 <= i < |ss| - 1 :: Next(prog, ss[i], ss[i + 1])
  }

  lemma RunMore<S(!new)>(prog: Program<S>, ss: seq<State<S>>, p: Pid, a: Step<S>)
    requires IsRun(prog, ss) && Enabled(prog, ss[|ss| - 1], p, a)
    ensures IsRun(prog, ss + [Do(prog, ss[|ss| - 1], p, a)])
  {
    var t := Do(prog, ss[|ss| - 1], p, a);
    var tt := ss + [t];
    assert Next(prog, ss[|ss| - 1], t);
    forall i | 0 <= i < |tt| - 1
      ensures Next(prog, tt[i], tt[i + 1])
    {
      if i < |ss| - 1 {
        assert Next(prog, ss[i], ss[i + 1]);
      }
    }
  }

  // ----- what the code owes the sleepers on a channel

  /** A stretch that ends the wait on c calls wakeup on c, unless nobody can be there, and
      sleeps on c only while there is something to wait for. */
  predicate Minds<S(!new)>(g: Segment<S>, waits: S -> bool, c: Chan) {
    && (waits(g.before) && !waits(g.after) ==> c in g.woken || c in g.idle)
    && (g.sleepOn == Some(c) ==> waits(g.after))
  }

  ghost predicate MindsAll<S(!new)>(prog: Program<S>, waits: S -> bool, c: Chan) {
    && (forall g :: prog.code(g) ==> Minds(g, waits, c))
    && forall d, e :: prog.background(d, e) && waits(d) ==> waits(e)
  }

  // ----- invariant

  ghost predicate LocksOk<S>(s: State<S>) {
    forall p | p in s.pc :: (HoldsLk(s.pc[p]) <==> s.lk == Some(p)) && (HoldsPt(s.pc[p]) <==> s.pt == Some(p))
  }

  predicate Owes(a: At, c: Chan) {
    match a
    case Inside(todo, _) => c in todo
    case WakeWants(todo, _) => c in todo
    case WakeHolds(todo, _) => c in todo
    case WakeDone(todo, _) => c in todo
    case _ => false
  }

  /** On the way to sleeping on c, with the lock still held. */
  predicate Retiring(a: At, c: Chan) {
    match a
    case Inside(_, next) => next == Some(c)
    case WakeWants(_, next) => next == Some(c)
    case WakeHolds(_, next) => next == Some(c)
    case WakeDone(_, next) => next == Some(c)
    case SleepWants(x) => x == c
    case SleepBoth(x) => x == c
    case _ => false
  }

  /** The wait is not over, or the process holding the lock is about to call wakeup. */
  ghost predicate WaitOk<S(!new)>(s: State<S>, waits: S -> bool, c: Chan, p: Pid)
    requires p in s.pc
  {
    && (Waiting(s.pc[p], c) ==>
          waits(s.data) || (s.lk.Some? && s.lk.value in s.pc && Owes(s.pc[s.lk.value], c)))
    && (Retiring(s.pc[p], c) ==> waits(s.data))
  }

  ghost predicate Inv<S(!new)>(s: State<S>, waits: S -> bool, c: Chan) {
    LocksOk(s) && forall p | p in s.pc :: WaitOk(s, waits, c, p)
  }

  lemma LocksStep<S(!new)>(prog: Program<S>, s: State<S>, p: Pid, a: Step<S>)
    requires LocksOk(s) && Enabled(prog, s, p, a)
    ensures LocksOk(Do(prog, s, p, a))
  {
  }

  lemma RunStep<S(!new)>(prog: Program<S>, waits: S -> bool, c: Chan, s: State<S>, p: Pid, g: Segment<S>, q: Pid)
    requires MindsAll(prog, waits, c) && Inv(s, waits, c) && Enabled(prog, s, p, Run(g)) && q in s.pc
    ensures WaitOk(Do(prog, s, p, Run(g)), waits, c, q)
  {
    assert Minds(g, waits, c);
    assert WaitOk(s, waits, c, q);
  }

  lemma ScanStep<S(!new)>(prog: Program<S>, waits: S -> bool, c: Chan, s: State<S>, p: Pid, q: Pid)
    requires Inv(s, waits, c) && Enabled(prog, s, p, WakeScan) && q in s.pc
    ensures WaitOk(Do(prog, s, p, WakeScan), waits, c, q)
  {
    var todo := s.pc[p].todo;
    assert WaitOk(s, waits, c, q) && WaitOk(s, waits, c, p);
    assert todo == [todo[0]] + todo[1..];
  }

  lemma WaitStep<S(!new)>(prog: Program<S>, waits: S -> bool, c: Chan, s: State<S>, p: Pid, a: Step<S>, q: Pid)
    requires MindsAll(prog, waits, c) && Inv(s, waits, c) && Enabled(prog, s, p, a) && q in s.pc
    ensures WaitOk(Do(prog, s, p, a), waits, c, q)
  {
    assert WaitOk(s, waits, c, q) && WaitOk(s, waits, c, p);
    match a
    case Run(g) => RunStep(prog, waits, c, s, p, g, q);
    case WakeScan => ScanStep(prog, waits, c, s, p, q);
    case _ =>
  }

  lemma {:induction false} RunKeepsInv<S(!new)>(prog: Program<S>, waits: S -> bool, c: Chan, ss: seq<State<S>>)
    requires MindsAll(prog, waits, c) && IsRun(prog, ss)
    ensures Inv(ss[|ss| - 1], waits, c)
    decreases |ss|
  {
    if |ss| > 1 {
      RunKeepsInv(prog, waits, c, ss[..|ss| - 1]);
      var s, t := ss[|ss| - 2], ss[|ss| - 1];
      assert Next(prog, ss[|ss| - 2], ss[|ss| - 2 + 1]);
      var p, a :| Enabled(prog, s, p, a) && t == Do(prog, s, p, a);
      LocksStep(prog, s, p, a);
      forall q | q in t.pc
        ensures WaitOk(t, waits, c, q)
      {
        WaitStep(prog, waits, c, s, p, a, q);
      }
    }
  }

  /** NO LOST WAKEUPS. If every stretch of the code minds the sleepers on c, then in every
      run, whenever the condition lock is free, every process that is asleep on c, or
      committed to going to sleep on it, is waiting for something that has not happened. */
  lemma NoLostWakeup<S(!new)>(prog: Program<S>, waits: S -> bool, c: Chan, ss: seq<State<S>>, p: Pid)
    requires MindsAll(prog, waits, c) && IsRun(prog, ss)
    ensures var s := ss[|ss| - 1];
            s.lk == None && p in s.pc && Waiting(s.pc[p], c) ==> waits(s.data)
  {
    RunKeepsInv(prog, waits, c, ss);
    var s := ss[|ss| - 1];
    if p in s.pc {
      assert WaitOk(s, waits, c, p);
    }
  }

  predicate Bound(a: At, c: Chan) {
    Waiting(a, c) || Retiring(a, c)
  }

  lemma BoundStep<S(!new)>(prog: Program<S>, s: State<S>, p: Pid, a: Step<S>, q: Pid, c: Chan)
    requires Enabled(prog, s, p, a) && q in s.pc && Bound(Do(prog, s, p, a).pc[q], c)
    ensures Bound(s.pc[q], c) || (a.Run? && a.g.sleepOn == Some(c))
  {
  }

  lemma {:induction false} RunKeepsBound<S(!new)>(prog: Program<S>, known: Chan -> bool, ss: seq<State<S>>, q: Pid)
    requires IsRun(prog, ss) && forall g :: prog.code(g) && g.sleepOn.Some? ==> known(g.sleepOn.value)
    ensures var s := ss[|ss| - 1];
            q in s.pc ==> forall c | Bound(s.pc[q], c) :: known(c)
    decreases |ss|
  {
    if |ss| > 1 {
      RunKeepsBound(prog, known, ss[..|ss| - 1], q);
      var s, t := ss[|ss| - 2], ss[|ss| - 1];
      assert Next(prog, ss[|ss| - 2], ss[|ss| - 2 + 1]);
      var p, a :| Enabled(prog, s, p, a) && t == Do(prog, s, p, a);
      if q in t.pc {
        forall c | Bound(t.pc[q], c)
          ensures known(c)
        {
          BoundStep(prog, s, p, a, q, c);
        }
      }
    }
  }

  /** NOBODY SLEEPS ELSEWHERE. In every run, a process asleep, or past giving up the lock, is
      so on a channel on which a stretch of the code sleeps. */
  lemma SleepsWhereCoded<S(!new)>(prog: Program<S>, known: Chan -> bool, ss: seq<State<S>>, p: Pid, c: Chan)
    requires IsRun(prog, ss) && forall g :: prog.code(g) && g.sleepOn.Some? ==> known(g.sleepOn.value)
    ensures var s := ss[|ss| - 1];
            p in s.pc && Waiting(s.pc[p], c) ==> known(c)
  {
    RunKeepsBound(prog, known, ss, p);
    var s := ss[|ss| - 1];
    assert p in s.pc && Waiting(s.pc[p], c) ==> Bound(s.pc[p], c);
  }

  // ----- nobody is stuck

  /** What process p does next, if it does not have to wait for a lock: every place but
      `Asleep` and `Entered` has one step out of it. */
  function StepOut<S>(a: At): Step<S>
    requires !a.Entered?
  {
    match a
    case Outside => Acquire
    case Inside(todo, next) => if todo != [] then WakeCall else if next.Some? then SleepCall else Release
    case WakeWants(_, _) => WakeLock
    case WakeHolds(_, _) => WakeScan
    case WakeDone(_, _) => WakeUnlock
    case SleepWants(_) => SleepLock
    case SleepBoth(_) => SleepRelease
    case SleepHolds(_) => SleepSwitch
    case Asleep(_) => Killed
    case Awake => Acquire
  }

  /** The locks that step waits for. */
  predicate WantsLk(a: At) {
    a.Outside? || a.Awake?
  }

  predicate WantsPt(a: At) {
    a.WakeWants? || a.SleepWants? || a.Asleep?
  }

  /** A wakeup under way has a channel to wake. */
  ghost predicate TodoOk<S>(s: State<S>) {
    forall p | p in s.pc :: s.pc[p].WakeWants? || s.pc[p].WakeHolds? ==> s.pc[p].todo != []
  }

  lemma {:induction false} RunKeepsTodo<S(!new)>(prog: Program<S>, ss: seq<State<S>>)
    requires IsRun(prog, ss)
    ensures TodoOk(ss[|ss| - 1])
    decreases |ss|
  {
    if |ss| > 1 {
      RunKeepsTodo(prog, ss[..|ss| - 1]);
      var s, t := ss[|ss| - 2], ss[|ss| - 1];
      assert Next(prog, ss[|ss| - 2], ss[|ss| - 2 + 1]);
      var p, a :| Enabled(prog, s, p, a) && t == Do(prog, s, p, a);
    }
  }

  /** NOBODY IS STUCK. In every run each process can go on as soon as the lock it wants is free:
      inside the monitor with any stretch of the code that begins with the data found. */
  lemma EverybodyGoesOn<S(!new)>(prog: Program<S>, ss: seq<State<S>>, p: Pid, g: Segment<S>)
    requires IsRun(prog, ss)
    ensures var s := ss[|ss| - 1];
            p in s.pc ==>
              if s.pc[p].Entered? then
                prog.code(g) && g.before == s.data && g.idle == {} ==> Enabled(prog, s, p, Run(g))
              else
                Enabled(prog, s, p, StepOut(s.pc[p])) <==>
                  (WantsLk(s.pc[p]) ==> s.lk == None) && (WantsPt(s.pc[p]) ==> s.pt == None)
  {
    RunKeepsTodo(prog, ss);
  }

  /** What every stretch and every change without the lock keeps, every run keeps. */
  lemma {:induction false} DataKept<S(!new)>(prog: Program<S>, holds: S -> bool, ss: seq<State<S>>)
    requires IsRun(prog, ss) && holds(ss[0].data)
    requires forall g :: prog.code(g) && holds(g.before) ==> holds(g.after)
    requires forall d, e :: prog.background(d, e) && holds(d) ==> holds(e)
    ensures holds(ss[|ss| - 1].data)
    decreases |ss|
  {
    if |ss| > 1 {
      DataKept(prog, holds, ss[..|ss| - 1]);
      var s, t := ss[|ss| - 2], ss[|ss| - 1];
      assert Next(prog, ss[|ss| - 2], ss[|ss| - 2 + 1]);
      var p, a :| Enabled(prog, s, p, a) && t == Do(prog, s, p, a);
    }
  }

  lemma {:induction false} RunKeepsLocks<S(!new)>(prog: Program<S>, ss: seq<State<S>>)
    requires IsRun(prog, ss)
    ensures LocksOk(ss[|ss| - 1])
    decreases |ss|
  {
    if |ss| > 1 {
      RunKeepsLocks(prog, ss[..|ss| - 1]);
      var s, t := ss[|ss| - 2], ss[|ss| - 1];
      assert Next(prog, ss[|ss| - 2], ss[|ss| - 2 + 1]);
      var p, a :| Enabled(prog, s, p, a) && t == Do(prog, s, p, a);
      LocksStep(prog, s, p, a);
    }
  }

  /** Both locks exclude, whatever the code: at most one process is inside the monitor, at
      most one holds ptable.lock. */
  lemma MutualExclusion<S(!new)>(prog: Program<S>, ss: seq<State<S>>, p: Pid, q: Pid)
    requires IsRun(prog, ss)
    ensures var s := ss[|ss| - 1];
            p in s.pc && q in s.pc && p != q ==>
              !(HoldsLk(s.pc[p]) && HoldsLk(s.pc[q])) && !(HoldsPt(s.pc[p]) && HoldsPt(s.pc[q]))
  {
    RunKeepsLocks(prog, ss);
  }
}
