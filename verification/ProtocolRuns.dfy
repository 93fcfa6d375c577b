/** Properties of every finite run of the breakpoint protocol. */
module ProtocolRuns {
  import opened Basics
  import opened TargetText
  import opened Protocol

  ghost predicate IsRun(tg: Target, s: State, es: seq<Event>)
    requires Inv(tg, s)
    decreases |es|
  {
    es == [] ||
    (Enabled(tg, s, es[0]) && (InvStep(tg, s, es[0]); IsRun(tg, Next(tg, s, es[0]), es[1..])))
  }

  ghost function Final(tg: Target, s: State, es: seq<Event>): (r: State)
    requires Inv(tg, s) && IsRun(tg, s, es)
    ensures Inv(tg, r)
    decreases |es|
  {
    if es == [] then s else (InvStep(tg, s, es[0]); Final(tg, Next(tg, s, es[0]), es[1..]))
  }

  ghost predicate IsStart(tg: Target, threads: map<Tid, Thread>) {
    && WellFormed(tg) && tg.main in threads
    && forall t :: t in threads ==> threads[t].status == Running
  }

  // ----- What the log of a run looks like

  /** The call `c` was entered at position `j`; since then its owner produced
      nothing and other threads were at most parked. */
  ghost predicate OpenedAt(log: seq<Observation>, j: int, c: Call) {
    && 0 <= j < |log|
    && log[j] == Entered(c.owner, c.bp, c.ret, c.arg1, c.arg2)
    && forall k :: j < k < |log| ==> log[k].Parked? && log[k].thread != c.owner
  }

  /** The handler run at `i` closes the call entered at `j`: same thread, same
      breakpoint, same arguments, at the return address read at entry. */
  ghost predicate Closes(log: seq<Observation>, j: int, i: int) {
    && 0 <= j < i < |log| && log[i].Returned?
    && log[j] == Entered(log[i].thread, log[i].bp, log[i].pc, log[i].arg1, log[i].arg2)
    && forall k :: j < k < i ==> log[k].Parked? && log[k].thread != log[i].thread
  }

  /** Thread `t` was last seen at position `j`, parked at `pc`. */
  ghost predicate ParkedAt(log: seq<Observation>, j: int, t: Tid, pc: nat) {
    && 0 <= j < |log| && log[j] == Parked(t, pc)
    && forall k :: j < k < |log| ==> log[k].thread != t
  }

  ghost predicate Wakes(log: seq<Observation>, j: int, i: int) {
    && 0 <= j < i < |log| && log[i].Woken?
    && log[j] == Parked(log[i].thread, log[i].pc)
    && forall k :: j < k < i ==> log[k].thread != log[i].thread
  }

  /** A handler ran after position `j`. */
  ghost predicate ReturnedAfter(log: seq<Observation>, j: int) {
    exists k :: 0 <= k < |log| && j < k && log[k].Returned?
  }

  ghost predicate PastOk(log: seq<Observation>) {
    && (forall i :: 0 <= i < |log| && log[i].Returned? ==> exists j :: Closes(log, j, i))
    && (forall i :: 0 <= i < |log| && log[i].Woken? ==> exists j :: Wakes(log, j, i))
    && (forall i, j :: 0 <= j < i < |log| && log[i].Stale? && log[j].Entered? ==> ReturnedAfter(log[..i], j))
  }

  ghost predicate LogOk(s: State) {
    && PastOk(s.log)
    && (s.pending.Some? ==> exists j :: OpenedAt(s.log, j, s.pending.value))
    && (s.pending.None? ==> forall j :: 0 <= j < |s.log| && s.log[j].Entered? ==> ReturnedAfter(s.log, j))
    && (forall t :: t in s.held ==> t in s.threads && exists j :: ParkedAt(s.log, j, t, s.threads[t].pc))
  }

  lemma ExtendPast(log: seq<Observation>, o: Observation)
    requires PastOk(log)
    requires o.Returned? ==> exists j :: OpenedAt(log, j, Call(o.thread, o.bp, o.pc, o.arg1, o.arg2))
    requires o.Woken? ==> exists j :: ParkedAt(log, j, o.thread, o.pc)
    requires o.Stale? ==> forall j :: 0 <= j < |log| && log[j].Entered? ==> ReturnedAfter(log, j)
    ensures PastOk(log + [o])
  {
    var l := log + [o];
    forall i | 0 <= i < |l| && l[i].Returned?
      ensures exists j :: Closes(l, j, i)
    {
      if i < |log| {
        var j :| Closes(log, j, i);
        assert Closes(l, j, i);
      } else {
        var j :| OpenedAt(log, j, Call(o.thread, o.bp, o.pc, o.arg1, o.arg2));
        assert Closes(l, j, i);
      }
    }
    forall i | 0 <= i < |l| && l[i].Woken?
      ensures exists j :: Wakes(l, j, i)
    {
      if i < |log| {
        var j :| Wakes(log, j, i);
        assert Wakes(l, j, i);
      } else {
        var j :| ParkedAt(log, j, o.thread, o.pc);
        assert Wakes(l, j, i);
      }
    }
    forall i, j | 0 <= j < i < |l| && l[i].Stale? && l[j].Entered?
      ensures ReturnedAfter(l[..i], j)
    {
      assert l[..i] == log[..i];
      if i == |log| {
        assert log[..i] == log;
      }
    }
  }

  lemma ExtendReturned(log: seq<Observation>, o: Observation)
    requires forall j :: 0 <= j < |log| && log[j].Entered? ==> ReturnedAfter(log, j)
    requires !o.Entered?
    ensures forall j :: 0 <= j <= |log| && (log + [o])[j].Entered? ==> ReturnedAfter(log + [o], j)
  {
    var l := log + [o];
    forall j | 0 <= j < |l| && l[j].Entered?
      ensures ReturnedAfter(l, j)
    {
      assert log[j] == l[j];
      var k :| j < k < |log| && log[k].Returned?;
      assert l[k].Returned?;
    }
  }

  lemma ExtendParked(log: seq<Observation>, o: Observation, t: Tid, pc: nat)
    requires exists j :: ParkedAt(log, j, t, pc)
    requires o.thread != t
    ensures exists j :: ParkedAt(log + [o], j, t, pc)
  {
    var j :| ParkedAt(log, j, t, pc);
    assert ParkedAt(log + [o], j, t, pc);
  }

  // ----- One step keeps the log in order

  /** Steps that log nothing keep `LogOk` if pending call and held threads stay. */
  lemma SilentStep(s: State, s': State)
    requires LogOk(s) && s'.log == s.log && s'.pending == s.pending && s'.held == s.held
    requires forall t :: t in s.held ==> t in s'.threads && s'.threads[t].pc == s.threads[t].pc
    ensures LogOk(s')
  {
  }

  lemma ParkLog(s: State, s': State, t: Tid, pc: nat)
    requires LogOk(s) && s.pending.Some? && s.pending.value.owner != t && t !in s.held
    requires s'.log == s.log + [Parked(t, pc)] && s'.pending == s.pending && s'.held == s.held + [t]
    requires t in s'.threads && s'.threads[t].pc == pc
    requires forall h :: h in s.held ==> h in s'.threads && s'.threads[h].pc == s.threads[h].pc
    ensures LogOk(s')
  {
    ExtendPast(s.log, Parked(t, pc));
    var j :| OpenedAt(s.log, j, s.pending.value);
    assert OpenedAt(s'.log, j, s.pending.value);
    forall h | h in s'.held
      ensures h in s'.threads && exists j :: ParkedAt(s'.log, j, h, s'.threads[h].pc)
    {
      if h == t {
        assert ParkedAt(s'.log, |s.log|, t, pc);
      } else {
        ExtendParked(s.log, Parked(t, pc), h, s.threads[h].pc);
      }
    }
  }

  lemma EnterLog(s: State, s': State, c: Call)
    requires LogOk(s) && c.owner !in s.held
    requires s'.log == s.log + [Entered(c.owner, c.bp, c.ret, c.arg1, c.arg2)]
    requires s'.pending == Some(c) && s'.held == s.held
    requires forall h :: h in s.held ==> h in s'.threads && s'.threads[h].pc == s.threads[h].pc
    ensures LogOk(s')
  {
    var o := Entered(c.owner, c.bp, c.ret, c.arg1, c.arg2);
    ExtendPast(s.log, o);
    assert OpenedAt(s'.log, |s.log|, c);
    forall h | h in s'.held
      ensures h in s'.threads && exists j :: ParkedAt(s'.log, j, h, s'.threads[h].pc)
    {
      ExtendParked(s.log, o, h, s.threads[h].pc);
    }
  }

  lemma StaleLog(s: State, s': State, t: Tid, pc: nat)
    requires LogOk(s) && t !in s.held && s.pending.None?
    requires s'.log == s.log + [Stale(t, pc)] && s'.pending == None && s'.held == s.held
    requires forall h :: h in s.held ==> h in s'.threads && s'.threads[h].pc == s.threads[h].pc
    ensures LogOk(s')
  {
    ExtendPast(s.log, Stale(t, pc));
    ExtendReturned(s.log, Stale(t, pc));
    forall h | h in s'.held
      ensures h in s'.threads && exists j :: ParkedAt(s'.log, j, h, s'.threads[h].pc)
    {
      ExtendParked(s.log, Stale(t, pc), h, s.threads[h].pc);
    }
  }

  lemma ReturnLog(s: State, t: Tid)
    requires LogOk(s) && t in s.threads && t !in s.held && s.pending.Some?
    requires s.pending.value.owner == t && s.pending.value.ret == s.threads[t].pc
    ensures LogOk(AfterReturn(s, t))
  {
    var r := AfterReturn(s, t);
    var c, th := s.pending.value, s.threads[t];
    var o := Returned(t, c.bp, th.pc, th.rax, c.arg1, c.arg2);
    assert Call(o.thread, o.bp, o.pc, o.arg1, o.arg2) == c;
    ExtendPast(s.log, o);
    forall j | 0 <= j < |r.log| && r.log[j].Entered?
      ensures ReturnedAfter(r.log, j)
    {
      assert r.log[|s.log|].Returned?;
    }
    forall h | h in r.held
      ensures h in r.threads && exists j :: ParkedAt(r.log, j, h, r.threads[h].pc)
    {
      ExtendParked(s.log, o, h, s.threads[h].pc);
    }
  }

  lemma WakeLog(s: State)
    requires LogOk(s) && s.pending.None? && Distinct(s.held)
    ensures LogOk(WakeOne(s))
  {
    if s.held != [] {
      var t := s.held[|s.held| - 1];
      assert t in s.held;
      var o := Woken(t, s.threads[t].pc);
      ExtendPast(s.log, o);
      ExtendReturned(s.log, o);
      var w := WakeOne(s);
      forall h | h in w.held
        ensures h in w.threads && exists j :: ParkedAt(w.log, j, h, w.threads[h].pc)
      {
        assert h in s.held && h != t;
        ExtendParked(s.log, o, h, s.threads[h].pc);
      }
    }
  }

  lemma DeliverLog(tg: Target, s: State, t: Tid, fails: bool, next: int)
    requires MidStep(tg, s, t) && LogOk(s)
    ensures LogOk(OnTrap(tg, s, t, fails, next))
  {
    hide MidStep, LogOk, EntryIndex;
    MidStepFacts(tg, s, t);
    if s.pending.Some? && s.pending.value.owner != t {
      ParkLog(s, OnTrap(tg, s, t, fails, next), t, s.threads[t].pc);
    } else if s.pending.Some? && s.pending.value.ret == s.threads[t].pc {
      var r := AfterReturn(s, t);
      ReturnLog(s, t);
      if fails {
        SilentStep(r, r.(done := true));
      } else {
        WakeLog(r);
        WakeCommutes(r, t, s.threads[t]);
        SilentStep(WakeOne(r), Resume(WakeOne(r), t, next));
      }
    } else {
      TrapOfOwner(tg, s, t);
      var r := OnTrap(tg, s, t, fails, next);
      if EntryIndex(tg, s.threads[t].pc).Some? {
        EnterLog(s, r, r.pending.value);
      } else {
        StaleLog(s, r, t, s.threads[t].pc);
      }
    }
  }

  /** A trap of the thread whose call is pending is at the return address or at an
      entry, so the stale-trap branch is never taken while a call is pending. */
  lemma TrapOfOwner(tg: Target, s: State, t: Tid)
    requires MidStep(tg, s, t) && (s.pending.Some? ==> s.pending.value.owner == t)
    ensures s.pending.Some? && s.pending.value.ret != s.threads[t].pc ==> EntryIndex(tg, s.threads[t].pc).Some?
  {
  }

  lemma StepLog(tg: Target, s: State, e: Event)
    requires Inv(tg, s) && Enabled(tg, s, e) && LogOk(s)
    ensures LogOk(Next(tg, s, e))
  {
    hide MidStep, OnTrap, GoodReturn, TextOf, EntrySet;
    match e
    case Deliver(t, fails, next) =>
      UnwoundIsMidStep(tg, s, t);
      SilentStep(s, Unwound(s, t));
      DeliverLog(tg, Unwound(s, t), t, fails, next);
    case _ =>
      SilentStep(s, Next(tg, s, e));
  }

  lemma {:induction false} RunLog(tg: Target, s: State, es: seq<Event>)
    requires Inv(tg, s) && IsRun(tg, s, es) && LogOk(s)
    ensures LogOk(Final(tg, s, es))
    decreases |es|
  {
    if es != [] {
      InvStep(tg, s, es[0]);
      StepLog(tg, s, es[0]);
      RunLog(tg, Next(tg, s, es[0]), es[1..]);
    }
  }

  // ----- Theorems about whole runs

  ghost predicate Run(tg: Target, threads: map<Tid, Thread>, es: seq<Event>) {
    IsStart(tg, threads) && (InitInv(tg, threads); IsRun(tg, Init(threads), es))
  }

  ghost function End(tg: Target, threads: map<Tid, Thread>, es: seq<Event>): (s: State)
    requires Run(tg, threads, es)
    ensures Inv(tg, s)
  {
    InitInv(tg, threads);
    Final(tg, Init(threads), es)
  }

  lemma RunIsLogged(tg: Target, threads: map<Tid, Thread>, es: seq<Event>)
    requires Run(tg, threads, es)
    ensures LogOk(End(tg, threads, es))
  {
    InitInv(tg, threads);
    RunLog(tg, Init(threads), es);
  }

  /** Every handler that ever ran closed the latest entry of its own thread. */
  lemma HandlersArePaired(tg: Target, threads: map<Tid, Thread>, es: seq<Event>, i: nat)
    requires Run(tg, threads, es)
    requires i < |End(tg, threads, es).log| && End(tg, threads, es).log[i].Returned?
    ensures exists j :: Closes(End(tg, threads, es).log, j, i)
  {
    RunIsLogged(tg, threads, es);
  }

  /** Every wake resumes a thread at the address where it was parked, and nothing
      was observed of that thread in between. */
  lemma WakesResumeParkedThreads(tg: Target, threads: map<Tid, Thread>, es: seq<Event>, i: nat)
    requires Run(tg, threads, es)
    requires i < |End(tg, threads, es).log| && End(tg, threads, es).log[i].Woken?
    ensures exists j :: Wakes(End(tg, threads, es).log, j, i)
  {
    RunIsLogged(tg, threads, es);
  }

  /** A stale trap is only ever handled when every entry has been closed. */
  lemma StaleTrapsOnlyWhenIdle(tg: Target, threads: map<Tid, Thread>, es: seq<Event>, j: nat, i: nat)
    requires Run(tg, threads, es)
    requires j < i < |End(tg, threads, es).log|
    requires End(tg, threads, es).log[i].Stale? && End(tg, threads, es).log[j].Entered?
    ensures ReturnedAfter(End(tg, threads, es).log[..i], j)
  {
    RunIsLogged(tg, threads, es);
  }

  /** The held threads are distinct, stopped and traced; while a call is pending
      its owner is not one of them and some traced thread is not held; and there
      are always fewer of them than threads were traced at the busiest moment. */
  lemma HeldThreads(tg: Target, threads: map<Tid, Thread>, es: seq<Event>)
    requires Run(tg, threads, es)
    ensures var s := End(tg, threads, es);
            && Distinct(s.held)
            && (forall t :: t in s.held <==> t in s.threads && s.threads[t].status == Held)
            && (s.pending.Some? ==> s.pending.value.owner !in s.held && |s.held| < |s.threads|)
            && |s.held| < s.peak
  {
    var s := End(tg, threads, es);
    if s.pending.Some? {
      HeldFewerThanThreads(tg, s);
    }
  }

  lemma SameThreads(tg: Target, s: State, t: Tid, fails: bool, next: int)
    requires t in s.threads && forall h :: h in s.held ==> h in s.threads
    ensures OnTrap(tg, s, t, fails, next).threads.Keys == s.threads.Keys
    ensures OnTrap(tg, s, t, fails, next).peak == s.peak
  {
    hide EntryIndex;
    if s.held != [] {
      assert s.held[|s.held| - 1] in s.threads;
    }
  }

  /** Some traced thread is not held. */
  ghost predicate SomeFree(s: State) {
    |s.held| < |s.threads|
  }

  /** The event takes away the last thread that is not held. */
  ghost predicate LastFreeExits(s: State, e: Event) {
    e.Exit? && |s.threads| == |s.held| + 1
  }

  lemma FreeAfterDeliver(tg: Target, s: State, e: Event)
    requires Inv(tg, s) && Enabled(tg, s, e) && e.Deliver? && SomeFree(s)
    ensures SomeFree(Next(tg, s, e))
  {
    hide Inv, TextOf, GoodReturn, EntrySet, MidStep;
    InvStep(tg, s, e);
    UnwoundIsMidStep(tg, s, e.t);
    var u, n := Unwound(s, e.t), Next(tg, s, e);
    MidStepFacts(tg, u, e.t);
    SameThreads(tg, u, e.t, e.handlerFails, e.next);
    assert n.threads.Keys == u.threads.Keys == s.threads.Keys;
    if n.pending.Some? {
      HeldFewerThanThreads(tg, n);
    }
  }

  /** One step keeps a thread free unless it is the exit of the last free one. */
  lemma FreeStepExact(tg: Target, s: State, e: Event)
    requires Inv(tg, s) && Enabled(tg, s, e) && SomeFree(s)
    ensures SomeFree(Next(tg, s, e)) <==> !LastFreeExits(s, e)
  {
    hide OnTrap, Inv, TextOf, GoodReturn, EntrySet, MidStep;
    var n := Next(tg, s, e);
    if e.Deliver? {
      FreeAfterDeliver(tg, s, e);
    } else if e.Exit? {
      assert n.threads.Keys == s.threads.Keys - {e.t};
    } else if e.Spawn? {
      assert n.threads.Keys == s.threads.Keys + {e.t};
    } else {
      assert n.threads.Keys == s.threads.Keys;
    }
  }

  /** The state after the first `k` events of a run. */
  ghost function StateAt(tg: Target, s: State, es: seq<Event>, k: nat): (r: State)
    requires Inv(tg, s) && IsRun(tg, s, es) && k <= |es|
    ensures Inv(tg, r) && (k < |es| ==> Enabled(tg, r, es[k]))
    ensures k == |es| ==> r == Final(tg, s, es)
    decreases |es|
  {
    if k == 0 then s else (InvStep(tg, s, es[0]); StateAt(tg, Next(tg, s, es[0]), es[1..], k - 1))
  }

  lemma {:induction false} StateAfter(tg: Target, s: State, es: seq<Event>, k: nat)
    requires Inv(tg, s) && IsRun(tg, s, es) && k < |es|
    ensures StateAt(tg, s, es, k + 1) == Next(tg, StateAt(tg, s, es, k), es[k])
    decreases |es|
  {
    hide Inv, Enabled, Next;
    InvStep(tg, s, es[0]);
    if k > 0 {
      StateAfter(tg, Next(tg, s, es[0]), es[1..], k - 1);
    }
  }

  lemma {:induction false} FreeUpTo(tg: Target, s: State, es: seq<Event>, k: nat)
    requires Inv(tg, s) && IsRun(tg, s, es) && k <= |es| && SomeFree(s)
    requires forall j :: 0 <= j < k ==> !LastFreeExits(StateAt(tg, s, es, j), es[j])
    ensures SomeFree(StateAt(tg, s, es, k))
    decreases k
  {
    hide Inv, Enabled, Next;
    if k > 0 {
      FreeUpTo(tg, s, es, k - 1);
      StateAfter(tg, s, es, k - 1);
      FreeStepExact(tg, StateAt(tg, s, es, k - 1), es[k - 1]);
    }
  }

  /** Throughout a run some traced thread is free if and only if the last free thread
      never exits. */
  lemma SomeFreeExact(tg: Target, s: State, es: seq<Event>)
    requires Inv(tg, s) && IsRun(tg, s, es) && SomeFree(s)
    ensures (forall k :: 0 <= k <= |es| ==> SomeFree(StateAt(tg, s, es, k))) <==>
            (forall k :: 0 <= k < |es| ==> !LastFreeExits(StateAt(tg, s, es, k), es[k]))
  {
    hide Inv, Enabled, Next, SomeFree, LastFreeExits;
    if forall k :: 0 <= k < |es| ==> !LastFreeExits(StateAt(tg, s, es, k), es[k]) {
      forall k | 0 <= k <= |es|
        ensures SomeFree(StateAt(tg, s, es, k))
      {
        FreeUpTo(tg, s, es, k);
      }
    } else {
      var k :| 0 <= k < |es| && LastFreeExits(StateAt(tg, s, es, k), es[k]);
      StateAfter(tg, s, es, k);
      if SomeFree(StateAt(tg, s, es, k)) {
        FreeStepExact(tg, StateAt(tg, s, es, k), es[k]);
        assert !SomeFree(StateAt(tg, s, es, k + 1));
      }
    }
  }

  /** In particular, as long as no thread exits. */
  lemma NoExitNoDeadlock(tg: Target, s: State, es: seq<Event>)
    requires Inv(tg, s) && IsRun(tg, s, es) && SomeFree(s)
    requires forall i :: 0 <= i < |es| ==> !es[i].Exit?
    ensures SomeFree(Final(tg, s, es))
  {
    hide Inv, Enabled, Next;
    FreeUpTo(tg, s, es, |es|);
  }

  lemma {:induction false} RunThen(tg: Target, s: State, es: seq<Event>, e: Event)
    requires Inv(tg, s) && IsRun(tg, s, es) && Enabled(tg, Final(tg, s, es), e)
    ensures IsRun(tg, s, es + [e]) && Final(tg, s, es + [e]) == Next(tg, Final(tg, s, es), e)
    decreases |es|
  {
    var all := es + [e];
    if es != [] {
      InvStep(tg, s, es[0]);
      assert all[1..] == es[1..] + [e];
      RunThen(tg, Next(tg, s, es[0]), es[1..], e);
    } else {
      InvStep(tg, s, e);
      assert all[1..] == [];
    }
  }

  /** There is a run from `s` to `s'`. */
  ghost predicate Reaches(tg: Target, s: State, s': State) {
    Inv(tg, s) && exists es :: IsRun(tg, s, es) && Final(tg, s, es) == s'
  }

  lemma ReachesStep(tg: Target, s: State, s': State, e: Event)
    requires Reaches(tg, s, s')
    ensures Inv(tg, s') && (Enabled(tg, s', e) ==> Reaches(tg, s, Next(tg, s', e)))
  {
    var es :| IsRun(tg, s, es) && Final(tg, s, es) == s';
    if Enabled(tg, s', e) {
      RunThen(tg, s, es, e);
    }
  }

  const DEMO := Target(seq(64, _ => 0x90), [8, 16, 24, 32], 2)

  const DEMO_CALL := Call(1, 0, 40, 7, 0)

  function At(pc: nat, status: Status): Thread {
    Thread(pc, 40, 0, 7, 0, status)
  }

  function Demo(pc1: nat, s1: Status, pc2: nat, s2: Status, pc3: nat, s3: Status): map<Tid, Thread> {
    map[1 := At(pc1, s1), 2 := At(pc2, s2), 3 := At(pc3, s3)]
  }

  const DEMO_THREADS := Demo(8, Running, 16, Running, 24, Running)

  lemma DemoTraps()
    ensures WellFormed(DEMO) && GoodReturn(DEMO, 40)
    ensures 8 in Traps(DEMO, None)
    ensures forall a :: a in {16, 24, 40} ==> a in Traps(DEMO, Some(DEMO_CALL))
    ensures 40 !in EntrySet(DEMO) && 8 !in Traps(DEMO, Some(DEMO_CALL))
  {
    assert DEMO.entries[0] in EntrySet(DEMO) && DEMO.entries[1] in EntrySet(DEMO) && DEMO.entries[2] in EntrySet(DEMO);
  }

  /** A running thread that stands on a patched address traps, and the trap is
      delivered while the text is still the same. */
  lemma TrapAndDeliver(tg: Target, s0: State, s: State, t: Tid) returns (r: State)
    requires Reaches(tg, s0, s) && !s.done && IsRunning(s, t) && s.threads[t].pc in Traps(tg, s.pending)
    requires s.threads[t].pc < |tg.orig| && tg.orig[s.threads[t].pc] != TRAP
    requires s.threads[t].pc in EntrySet(tg) ==> GoodReturn(tg, s.threads[t].ret)
    requires forall h :: h in s.held ==> h in s.threads
    ensures r == SetThread(s, t, s.threads[t].(status := Stopped))
    ensures Reaches(tg, s0, OnTrap(tg, r, t, false, 0))
  {
    hide Reaches, OnTrap, Inv, GoodReturn;
    ReachesStep(tg, s0, s, Trap(t));
    var s1 := Next(tg, s, Trap(t));
    ReachesStep(tg, s0, s1, Deliver(t, false, 0));
    r := SetThread(s, t, s.threads[t].(status := Stopped));
    assert Unwound(s1, t).threads == r.threads;
  }

  lemma DemoEnter(s0: State, s: State)
    requires Reaches(DEMO, s0, s) && s.threads == Demo(8, Running, 16, Running, 24, Running)
    requires s.pending == None && s.held == [] && !s.done
    ensures Reaches(DEMO, s0, s.(pending := Some(DEMO_CALL), log := s.log + [Entered(1, 0, 40, 7, 0)]))
  {
    DemoTraps();
    var r := TrapAndDeliver(DEMO, s0, s, 1);
    assert EntryIndex(DEMO, 8) == Some(0);
    assert OnTrap(DEMO, r, 1, false, 0).threads == s.threads;
  }

  lemma DemoPark(s0: State, s: State, t: Tid)
    requires Reaches(DEMO, s0, s) && s.pending == Some(DEMO_CALL) && !s.done && t != 1
    requires IsRunning(s, t) && s.threads[t].pc in {16, 24} && s.threads[t].ret == 40
    requires forall h :: h in s.held ==> h in s.threads
    ensures Reaches(DEMO, s0, s.(threads := s.threads[t := s.threads[t].(status := Held)], held := s.held + [t],
                                 log := s.log + [Parked(t, s.threads[t].pc)]))
  {
    hide Reaches, Traps, GoodReturn, EntryIndex;
    DemoTraps();
    var r := TrapAndDeliver(DEMO, s0, s, t);
    assert OnTrap(DEMO, r, t, false, 0).threads == s.threads[t := s.threads[t].(status := Held)];
  }

  /** A running thread that stands on an unpatched address goes on. */
  lemma GoOn(tg: Target, s0: State, s: State, t: Tid, th: Thread)
    requires Reaches(tg, s0, s) && !s.done && IsRunning(s, t) && s.threads[t].pc !in Traps(tg, s.pending)
    requires th.status == Running
    ensures Reaches(tg, s0, SetThread(s, t, th))
  {
    hide Reaches, Traps;
    ReachesStep(tg, s0, s, Execute(t, th));
  }

  lemma DemoRunToReturn(s0: State, s: State)
    requires Reaches(DEMO, s0, s) && s.threads == Demo(8, Running, 16, Held, 24, Held)
    requires s.pending == Some(DEMO_CALL) && !s.done
    ensures Reaches(DEMO, s0, s.(threads := Demo(40, Running, 16, Held, 24, Held)))
  {
    hide Reaches, Traps;
    DemoTraps();
    GoOn(DEMO, s0, s, 1, At(40, Running));
    assert SetThread(s, 1, At(40, Running)).threads == Demo(40, Running, 16, Held, 24, Held);
  }

  /** What the return of a call does when some thread is held. */
  lemma ReturnWakes(tg: Target, s: State, t: Tid, h: Tid)
    requires t in s.threads && s.pending.Some? && s.pending.value.owner == t && s.pending.value.ret == s.threads[t].pc
    requires s.held != [] && h == s.held[|s.held| - 1] && h != t && forall u :: u in s.held ==> u in s.threads
    ensures var f := OnTrap(tg, s, t, false, 0);
            && f.threads == s.threads[h := s.threads[h].(status := Running)][t := s.threads[t].(status := Running)]
            && f.pending == None && f.held == s.held[..|s.held| - 1] && f.done == s.done
  {
  }

  lemma DemoReturn(s0: State, s: State) returns (f: State)
    requires Reaches(DEMO, s0, s) && s.threads == Demo(40, Running, 16, Held, 24, Held)
    requires s.pending == Some(DEMO_CALL) && s.held == [2, 3] && !s.done
    ensures Reaches(DEMO, s0, f) && f.threads == Demo(40, Running, 16, Held, 24, Running)
    ensures f.pending == None && f.held == [2] && !f.done
  {
    hide Reaches, Traps, GoodReturn, EntryIndex, OnTrap;
    DemoTraps();
    var r := TrapAndDeliver(DEMO, s0, s, 1);
    ReturnWakes(DEMO, r, 1, 3);
    f := OnTrap(DEMO, r, 1, false, 0);
  }

  lemma DemoExit(s0: State, s: State, t: Tid)
    requires Reaches(DEMO, s0, s) && IsRunning(s, t) && s.pending == None && !s.done
    ensures Reaches(DEMO, s0, s.(threads := s.threads - {t}))
  {
    hide Reaches, TextOf, GoodReturn;
    ReachesStep(DEMO, s0, s, Exit(t));
  }

  lemma DemoStart()
    ensures Reaches(DEMO, Init(DEMO_THREADS), Init(DEMO_THREADS))
  {
    var s := Init(DEMO_THREADS);
    InitInv(DEMO, DEMO_THREADS);
    assert IsRun(DEMO, s, []) && Final(DEMO, s, []) == s;
  }

  lemma DemoTwoHeld(s0: State) returns (s: State)
    requires s0 == Init(DEMO_THREADS)
    ensures Reaches(DEMO, s0, s) && s.threads == Demo(8, Running, 16, Held, 24, Held)
    ensures s.pending == Some(DEMO_CALL) && s.held == [2, 3] && !s.done
  {
    hide Reaches, Traps;
    DemoStart();
    DemoEnter(s0, s0);
    s := s0.(pending := Some(DEMO_CALL), log := s0.log + [Entered(1, 0, 40, 7, 0)]);
    DemoPark(s0, s, 2);
    s := s.(threads := s.threads[2 := At(16, Held)], held := s.held + [2], log := s.log + [Parked(2, 16)]);
    DemoPark(s0, s, 3);
    s := s.(threads := s.threads[3 := At(24, Held)], held := s.held + [3], log := s.log + [Parked(3, 24)]);
  }

  /** The bound by `peak` cannot be improved to the number of threads traced now:
      one thread enters malloc, two are held behind it, one of them is woken at the
      return, and then the two free threads exit. */
  lemma EveryThreadCanBeHeld() returns (s: State)
    ensures Reaches(DEMO, Init(DEMO_THREADS), s)
    ensures s.held == [2] && s.threads.Keys == {2} && s.pending.None?
  {
    hide Reaches;
    var s0 := Init(DEMO_THREADS);
    s := DemoTwoHeld(s0);
    DemoRunToReturn(s0, s);
    s := DemoReturn(s0, s.(threads := Demo(40, Running, 16, Held, 24, Held)));
    DemoExit(s0, s, 1);
    s := s.(threads := s.threads - {1});
    DemoExit(s0, s, 3);
    s := s.(threads := s.threads - {3});
  }

  // ----- Who is stopped when the loop ends

  /** The thread whose event ends the loop is stopped then. */
  lemma EnderIsStopped(tg: Target, s: State, e: Event)
    requires Inv(tg, s) && Enabled(tg, s, e) && Next(tg, s, e).done && !e.Quit?
    ensures e.Deliver? || e.Alarm? || e.Terminate?
    ensures e.t in Next(tg, s, e).threads && Next(tg, s, e).threads[e.t].status != Running
  {
    hide OnTrap, Inv, TextOf, GoodReturn, EntrySet, MidStep;
    if e.Deliver? {
      UnwoundIsMidStep(tg, s, e.t);
      MidStepFacts(tg, Unwound(s, e.t), e.t);
      StoppedByTrap(tg, Unwound(s, e.t), e.t, e.handlerFails, e.next);
    }
  }

  lemma StoppedByTrap(tg: Target, s: State, t: Tid, fails: bool, next: int)
    requires t in s.threads && s.threads[t].status == Stopped && !s.done && t !in s.held
    requires forall h :: h in s.held ==> h in s.threads
    ensures var f := OnTrap(tg, s, t, fails, next); f.done ==> t in f.threads && f.threads[t].status != Running
  {
    hide EntryIndex;
  }

  /** So the clean-up can write if the main thread itself ends the loop, and always if
      the target has no other thread. */
  lemma MainCanEndIt(tg: Target, s: State, e: Event)
    requires Inv(tg, s) && Enabled(tg, s, e) && Next(tg, s, e).done && !e.Quit?
    requires e.t == tg.main || s.threads.Keys == {tg.main}
    ensures Writable(tg, Next(tg, s, e))
  {
    hide OnTrap, Inv;
    EnderIsStopped(tg, s, e);
    assert e.t in s.threads;
  }

  /** But another thread can end it while the main thread runs: it calls malloc, and the
      expiry check behind the entry finds too many leaks. */
  lemma MainCanBeLeftRunning() returns (s: State)
    ensures Reaches(DEMO, Init(DEMO_THREADS), s) && s.done
    ensures !Writable(DEMO, s) && DEMO.main in s.threads
  {
    hide Reaches, Traps, GoodReturn;
    DemoStart();
    DemoTraps();
    var s0 := Init(DEMO_THREADS);
    ReachesStep(DEMO, s0, s0, Trap(1));
    var s1 := Next(DEMO, s0, Trap(1));
    ReachesStep(DEMO, s0, s1, Deliver(1, false, -1));
    s := Next(DEMO, s1, Deliver(1, false, -1));
  }
}
