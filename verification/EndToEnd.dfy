/** From traps to the ledger: the calls that the event loop hands to the handlers during a
    run of the breakpoint protocol make a session of the ledger. */
module EndToEnd {
  import opened Basics
  import opened Protocol
  import opened ProtocolRuns
  import opened Observations
  import L = LedgerModel
  import Laws = LedgerLaws
  import R = LedgerRuns
  import T = TrackedMap

  /** The handlers of the four breakpoints and what they make of the result and the two
      arguments that they are passed. */
  function CallOf(bp: nat, value: Address, arg1: Address, arg2: Address): L.Call {
    if bp == 0 then L.Malloc(value, arg1)
    else if bp == 1 then L.Free(arg1)
    else if bp == 2 then L.Realloc(value, arg1, arg2)
    else L.Calloc(value, arg1, arg2)
  }

  /** The calls that a log records. */
  function CallsOf(log: seq<Observation>): seq<L.Call> {
    if log == [] then []
    else
      var n := |log| - 1;
      CallsOf(log[..n]) +
      match log[n]
      case Returned(_, bp, _, value, arg1, arg2) => [CallOf(bp, value, arg1, arg2)]
      case _ => []
  }

  /** The API calls among the requests of a session. */
  function Calls<C>(ops: seq<R.Op<C>>): seq<L.Call> {
    if ops == [] then []
    else
      var n := |ops| - 1;
      Calls(ops[..n]) + if ops[n].Api? then [ops[n].call] else []
  }

  /** The times at which an event's handler reads the clock, when it deletes a block and
      when it creates one, and at which the expiry check does; and the callstack of the
      event's thread. */
  datatype Tick<C> = Tick(freed: int, now: int, checked: int, cs: C)

  predicate InTime<C>(clock: int, k: Tick<C>) {
    clock <= k.freed <= k.now <= k.checked
  }

  /** The observations that an event adds to the log. */
  ghost function Added(tg: Target, s: State, e: Event): seq<Observation>
    requires Inv(tg, s) && Enabled(tg, s, e)
  {
    StepIsLoggedTruly(tg, s, e);
    Next(tg, s, e).log[|s.log|..]
  }

  /** The expiry check runs behind every delivered trap, unless its thread is held, and on
      every alarm. */
  ghost predicate Checks(tg: Target, s: State, e: Event)
    requires Inv(tg, s) && Enabled(tg, s, e)
  {
    e.Alarm? || (e.Deliver? && forall o :: o in Added(tg, s, e) ==> !o.Parked?)
  }

  lemma OnTrapParks(tg: Target, s: State, t: Tid, fails: bool, next: int)
    requires t in s.threads && forall h :: h in s.held ==> h in s.threads
    ensures s.log <= OnTrap(tg, s, t, fails, next).log
    ensures (exists o :: o in OnTrap(tg, s, t, fails, next).log[|s.log|..] && o.Parked?)
            <==> s.pending.Some? && s.pending.value.owner != t
  {
    hide EntryIndex;
    var f := OnTrap(tg, s, t, fails, next);
    if s.pending.Some? && s.pending.value.owner != t {
      assert f.log[|s.log|..] == [Parked(t, s.threads[t].pc)];
      assert Parked(t, s.threads[t].pc) in f.log[|s.log|..];
    }
  }

  /** The check is made on an alarm, and on a trap of any thread unless another thread's
      call is pending. */
  lemma ChecksUnlessHeld(tg: Target, s: State, e: Event)
    requires Inv(tg, s) && Enabled(tg, s, e)
    ensures Checks(tg, s, e) <==> e.Alarm? || (e.Deliver? && (s.pending.None? || Owns(s, e.t)))
  {
    hide OnTrap, Inv, TextOf, GoodReturn, EntrySet, MidStep;
    if e.Deliver? {
      UnwoundIsMidStep(tg, s, e.t);
      var u := Unwound(s, e.t);
      MidStepFacts(tg, u, e.t);
      OnTrapParks(tg, u, e.t, e.handlerFails, e.next);
    }
  }

  function Apis<C>(calls: seq<L.Call>, k: Tick<C>): seq<R.Op<C>> {
    seq(|calls|, i requires 0 <= i < |calls| => R.Api(calls[i], k.cs, k.freed, k.now))
  }

  /** What an event asks of the ledger: a handler, then the expiry check. */
  ghost function Requests<C>(tg: Target, s: State, e: Event, k: Tick<C>): seq<R.Op<C>>
    requires Inv(tg, s) && Enabled(tg, s, e)
  {
    Apis(CallsOf(Added(tg, s, e)), k) + if Checks(tg, s, e) then [R.Check(k.checked)] else []
  }

  /** The requests of an event have its times and its callstack. */
  lemma RequestsAreOfEvent<C>(tg: Target, s: State, e: Event, k: Tick<C>, i: nat)
    requires Inv(tg, s) && Enabled(tg, s, e) && i < |Requests(tg, s, e, k)|
    ensures var op := Requests(tg, s, e, k)[i];
            match op
            case Api(call, cs, freed, now) => cs == k.cs && freed == k.freed && now == k.now
            case Check(now) => now == k.checked && Checks(tg, s, e)
  {
    hide Inv, Enabled, Added, CallsOf, Checks;
  }

  // ----- Sessions in parts

  lemma {:induction false} RunConcat<C>(o: R.Options, x: R.Session<C>, a: seq<R.Op<C>>, b: seq<R.Op<C>>)
    requires R.Positive(o) && R.SessionOk(o, x) && R.IsRun(o, x, a) && R.IsRun(o, R.Final(o, x, a), b)
    ensures R.IsRun(o, x, a + b) && R.Final(o, x, a + b) == R.Final(o, R.Final(o, x, a), b)
    decreases |a|
  {
    hide R.SessionOk, R.Step, R.Legal;
    if a == [] {
      assert a + b == b;
    } else {
      R.SessionFacts(o, x);
      R.StepOk(o, x, a[0]);
      RunConcat(o, R.Step(o, x, a[0]), a[1..], b);
      assert (a + b)[1..] == a[1..] + b;
    }
  }

  lemma {:induction false} CallsConcat<C>(a: seq<R.Op<C>>, b: seq<R.Op<C>>)
    ensures Calls(a + b) == Calls(a) + Calls(b)
  {
    if b == [] {
      assert a + b == a;
    } else {
      var n := |b| - 1;
      CallsConcat(a, b[..n]);
      assert (a + b)[..|a| + n] == a + b[..n];
    }
  }

  lemma {:induction false} CallsOfConcat(a: seq<Observation>, b: seq<Observation>)
    ensures CallsOf(a + b) == CallsOf(a) + CallsOf(b)
  {
    hide CallOf;
    if b == [] {
      assert a + b == a;
    } else {
      var n := |b| - 1;
      CallsOfConcat(a, b[..n]);
      assert (a + b)[..|a| + n] == a + b[..n];
    }
  }

  lemma {:induction false} CallsOfApis<C>(calls: seq<L.Call>, k: Tick<C>)
    ensures Calls(Apis(calls, k)) == calls
  {
    if calls != [] {
      var n := |calls| - 1;
      CallsOfApis(calls[..n], k);
      assert Apis(calls, k)[..n] == Apis(calls[..n], k);
    }
  }

  lemma ApisRun<C>(o: R.Options, x: R.Session<C>, calls: seq<L.Call>, k: Tick<C>)
    requires R.Positive(o) && R.SessionOk(o, x) && !x.stopped && InTime(x.clock, k) && |calls| <= 1
    ensures R.IsRun(o, x, Apis(calls, k))
    ensures !R.Final(o, x, Apis(calls, k)).stopped && R.Final(o, x, Apis(calls, k)).clock <= k.now
  {
    hide R.SessionOk;
    if calls != [] {
      var op := R.Api(calls[0], k.cs, k.freed, k.now);
      R.SessionFacts(o, x);
      R.StepOk(o, x, op);
      assert Apis(calls, k)[1..] == [];
    }
  }

  /** A reaction to a trap runs at most one handler. */
  lemma OnTrapAdds(tg: Target, s: State, t: Tid, fails: bool, next: int)
    requires t in s.threads && forall h :: h in s.held ==> h in s.threads
    ensures var f := OnTrap(tg, s, t, fails, next);
            && s.log <= f.log && |f.log| <= |s.log| + 2
            && (|f.log| == |s.log| + 2 ==> f.log[|s.log| + 1].Woken?)
  {
    hide EntryIndex;
  }

  lemma OneCall(tg: Target, s: State, e: Event)
    requires Inv(tg, s) && Enabled(tg, s, e)
    ensures |CallsOf(Added(tg, s, e))| <= 1
  {
    hide OnTrap, Inv, TextOf, GoodReturn, EntrySet, MidStep;
    var a := Added(tg, s, e);
    if e.Deliver? {
      UnwoundIsMidStep(tg, s, e.t);
      var u := Unwound(s, e.t);
      MidStepFacts(tg, u, e.t);
      OnTrapAdds(tg, u, e.t, e.handlerFails, e.next);
    } else {
      assert a == [];
    }
    FewCalls(a);
  }

  lemma FewCalls(a: seq<Observation>)
    requires |a| <= 2 && (|a| == 2 ==> a[1].Woken?)
    ensures |CallsOf(a)| <= 1
  {
    if a != [] {
      var b := a[..|a| - 1];
      if b != [] {
        assert b[..|b| - 1] == [];
      }
    }
  }

  /** The requests of an event are a run of the session. */
  lemma RequestsRun<C>(o: R.Options, x: R.Session<C>, tg: Target, s: State, e: Event, k: Tick<C>)
    requires R.Positive(o) && R.SessionOk(o, x) && !x.stopped && InTime(x.clock, k)
    requires Inv(tg, s) && Enabled(tg, s, e)
    ensures R.IsRun(o, x, Requests(tg, s, e, k))
    ensures var apis := Apis(CallsOf(Added(tg, s, e)), k);
            && R.IsRun(o, x, apis) && L.WellFormed(R.Final(o, x, apis).ledger)
            && (R.Final(o, x, Requests(tg, s, e, k)).stopped <==>
                Checks(tg, s, e) && Answer(o, R.Final(o, x, apis).ledger, k) < 0)
  {
    hide R.SessionOk, Inv, Enabled, Checks, Added, CallsOf;
    var calls := CallsOf(Added(tg, s, e));
    OneCall(tg, s, e);
    ApisRun(o, x, calls, k);
    var y := R.Final(o, x, Apis(calls, k));
    R.SessionFacts(o, y);
    if Checks(tg, s, e) {
      R.StepOk(o, y, R.Check(k.checked));
      RunConcat(o, x, Apis(calls, k), [R.Check(k.checked)]);
    } else {
      assert Requests(tg, s, e, k) == Apis(calls, k);
    }
  }

  /** What memblock_expire returns. */
  function Answer<C>(o: R.Options, l: L.Ledger<C>, k: Tick<C>): int
    requires L.WellFormed(l)
  {
    L.Expire(l, k.checked, o.expire, o.memblockLimit, o.callstackLimit).1
  }

  // ----- Runs with a ledger

  /** The clock does not go back, the handler does not fail, and the expiry check that the
      event makes returns what it returns on the ledger of that moment. */
  ghost predicate Fits<C>(tg: Target, s: State, e: Event, o: R.Options, x: R.Session<C>, k: Tick<C>)
    requires Inv(tg, s) && Enabled(tg, s, e) && R.Positive(o) && R.SessionOk(o, x) && !x.stopped
  {
    && !(e.Deliver? && e.handlerFails) && InTime(x.clock, k)
    && (RequestsRun(o, x, tg, s, e, k);
        Checks(tg, s, e) ==> e.next == Answer(o, R.Final(o, x, Apis(CallsOf(Added(tg, s, e)), k)).ledger, k))
  }

  /** The session after the requests of an event. */
  ghost function After<C>(tg: Target, s: State, e: Event, o: R.Options, x: R.Session<C>, k: Tick<C>): (z: R.Session<C>)
    requires Inv(tg, s) && Enabled(tg, s, e) && R.Positive(o) && R.SessionOk(o, x) && !x.stopped
    requires Fits(tg, s, e, o, x, k)
    ensures R.SessionOk(o, z) && Inv(tg, Next(tg, s, e)) && (z.stopped ==> Next(tg, s, e).done)
  {
    RequestsRun(o, x, tg, s, e, k);
    InvStep(tg, s, e);
    LimitStops(tg, s, e);
    R.Final(o, x, Requests(tg, s, e, k))
  }

  /** The run `es` from state `s` is the run of a program whose ledger is in session `x`. */
  ghost predicate Coupled<C>(tg: Target, s: State, es: seq<Event>, o: R.Options, x: R.Session<C>, ks: seq<Tick<C>>)
    requires Inv(tg, s) && R.Positive(o) && R.SessionOk(o, x) && (x.stopped ==> s.done) && |ks| == |es|
    decreases |es|
  {
    es == [] ||
    (&& Enabled(tg, s, es[0]) && Fits(tg, s, es[0], o, x, ks[0])
     && Coupled(tg, Next(tg, s, es[0]), es[1..], o, After(tg, s, es[0], o, x, ks[0]), ks[1..]))
  }

  /** The session at the end of the run. */
  ghost function EndSession<C>(tg: Target, s: State, es: seq<Event>, o: R.Options, x: R.Session<C>, ks: seq<Tick<C>>)
    : (z: R.Session<C>)
    requires Inv(tg, s) && R.Positive(o) && R.SessionOk(o, x) && (x.stopped ==> s.done) && |ks| == |es|
    requires Coupled(tg, s, es, o, x, ks)
    ensures R.SessionOk(o, z)
    decreases |es|
  {
    if es == [] then x
    else EndSession(tg, Next(tg, s, es[0]), es[1..], o, After(tg, s, es[0], o, x, ks[0]), ks[1..])
  }

  /** Everything that the events of a run ask of the ledger, in order. */
  ghost function AllRequests<C>(tg: Target, s: State, es: seq<Event>, ks: seq<Tick<C>>): seq<R.Op<C>>
    requires Inv(tg, s) && IsRun(tg, s, es) && |ks| == |es|
    decreases |es|
  {
    if es == [] then []
    else
      InvStep(tg, s, es[0]);
      Requests(tg, s, es[0], ks[0]) + AllRequests(tg, Next(tg, s, es[0]), es[1..], ks[1..])
  }

  /** The last event of the run made an expiry check that reported a limit. */
  ghost predicate LimitAtEnd(tg: Target, s: State, es: seq<Event>)
    requires Inv(tg, s) && IsRun(tg, s, es)
  {
    es != [] &&
    var n := |es| - 1;
    Checks(tg, StateAt(tg, s, es, n), es[n]) && es[n].next < 0
  }

  lemma LimitAtEndStep(tg: Target, s: State, es: seq<Event>)
    requires Inv(tg, s) && IsRun(tg, s, es) && |es| > 1
    ensures Inv(tg, Next(tg, s, es[0])) && IsRun(tg, Next(tg, s, es[0]), es[1..])
    ensures LimitAtEnd(tg, s, es) <==> LimitAtEnd(tg, Next(tg, s, es[0]), es[1..])
  {
    hide Inv, Enabled, Next, Checks;
    InvStep(tg, s, es[0]);
  }

  /** When the check of an event reports a limit, the event loop ends. */
  lemma LimitStops(tg: Target, s: State, e: Event)
    requires Inv(tg, s) && Enabled(tg, s, e) && !(e.Deliver? && e.handlerFails)
    ensures Checks(tg, s, e) ==> (e.Deliver? || e.Alarm?) && (e.next < 0 ==> Next(tg, s, e).done)
  {
    hide OnTrap, Inv, TextOf, GoodReturn, EntrySet, MidStep;
    if e.Deliver? && e.next < 0 {
      UnwoundIsMidStep(tg, s, e.t);
      var u := Unwound(s, e.t);
      MidStepFacts(tg, u, e.t);
      OnlyParkingGoesOn(tg, u, e.t, e.next);
      if !Next(tg, s, e).done {
        assert Added(tg, s, e)[0].Parked?;
        assert Added(tg, s, e)[0] in Added(tg, s, e);
      }
    }
  }

  lemma OnlyParkingGoesOn(tg: Target, s: State, t: Tid, next: int)
    requires t in s.threads && next < 0 && forall h :: h in s.held ==> h in s.threads
    ensures var f := OnTrap(tg, s, t, false, next);
            f.done || (|f.log| > |s.log| && f.log[|s.log|].Parked?)
  {
    hide EntryIndex;
  }

  /** A run with a ledger is a run of the protocol, and it makes a session: its API calls
      are those that the run's log records. */
  lemma {:induction false} CoupledRun<C>(tg: Target, s: State, es: seq<Event>, o: R.Options, x: R.Session<C>,
                                         ks: seq<Tick<C>>)
    returns (ops: seq<R.Op<C>>)
    requires Inv(tg, s) && R.Positive(o) && R.SessionOk(o, x) && (x.stopped ==> s.done) && |ks| == |es|
    requires Coupled(tg, s, es, o, x, ks)
    ensures IsRun(tg, s, es) && R.IsRun(o, x, ops)
    ensures ops == AllRequests(tg, s, es, ks)
    ensures R.Final(o, x, ops) == EndSession(tg, s, es, o, x, ks)
    ensures es != [] ==> (R.Final(o, x, ops).stopped <==> LimitAtEnd(tg, s, es))
    ensures s.log <= Final(tg, s, es).log
    ensures Calls(ops) == CallsOf(Final(tg, s, es).log[|s.log|..])
    ensures R.Final(o, x, ops).stopped ==> Final(tg, s, es).done
    decreases |es|
  {
    hide R.SessionOk, Inv, Enabled, Next, Added, CallsOf, Checks, Requests;
    if es == [] {
      ops := [];
      NothingAdded(s.log);
    } else {
      var e, k := es[0], ks[0];
      NotDone(tg, s, e);
      RequestsRun(o, x, tg, s, e, k);
      InvStep(tg, s, e);
      LimitStops(tg, s, e);
      var n := Next(tg, s, e);
      var first := Requests(tg, s, e, k);
      var rest := CoupledRun(tg, n, es[1..], o, R.Final(o, x, first), ks[1..]);
      StopsAtLast(tg, s, es, o, x, ks);
      ops := first + rest;
      RunConcat(o, x, first, rest);
      CallsConcat(first, rest);
      StepIsLoggedTruly(tg, s, e);
      CallsOfRequests(tg, s, e, k);
      LogsAdd(tg, s, e, Final(tg, n, es[1..]).log);
    }
  }

  /** After a single event the session is stopped exactly if the event's check reported a
      limit; a longer run is decided by its rest. */
  lemma StopsAtLast<C>(tg: Target, s: State, es: seq<Event>, o: R.Options, x: R.Session<C>, ks: seq<Tick<C>>)
    requires Inv(tg, s) && R.Positive(o) && R.SessionOk(o, x) && (x.stopped ==> s.done) && |ks| == |es| && es != []
    requires Coupled(tg, s, es, o, x, ks) && IsRun(tg, s, es)
    ensures |es| == 1 ==> (After(tg, s, es[0], o, x, ks[0]).stopped <==> LimitAtEnd(tg, s, es))
    ensures |es| > 1 ==>
              && Inv(tg, Next(tg, s, es[0])) && IsRun(tg, Next(tg, s, es[0]), es[1..])
              && (LimitAtEnd(tg, s, es) <==> LimitAtEnd(tg, Next(tg, s, es[0]), es[1..]))
  {
    hide Inv, Enabled, Next, Checks, Added, CallsOf, R.SessionOk;
    NotDone(tg, s, es[0]);
    if |es| == 1 {
      RequestsRun(o, x, tg, s, es[0], ks[0]);
      assert StateAt(tg, s, es, 0) == s;
    } else {
      LimitAtEndStep(tg, s, es);
    }
  }

  lemma NotDone(tg: Target, s: State, e: Event)
    requires Enabled(tg, s, e)
    ensures !s.done
  {
  }

  lemma NothingAdded(log: seq<Observation>)
    ensures CallsOf(log[|log|..]) == []
  {
    assert log[|log|..] == [];
  }

  lemma CallsOfRequests<C>(tg: Target, s: State, e: Event, k: Tick<C>)
    requires Inv(tg, s) && Enabled(tg, s, e)
    ensures Calls(Requests(tg, s, e, k)) == CallsOf(Added(tg, s, e))
  {
    hide Inv, Enabled, Added, CallsOf, Checks;
    var calls := CallsOf(Added(tg, s, e));
    CallsOfApis(calls, k);
    if Checks(tg, s, e) {
      var check: seq<R.Op<C>> := [R.Check(k.checked)];
      CallsConcat(Apis(calls, k), check);
      assert check[..0] == [];
    } else {
      assert Requests(tg, s, e, k) == Apis(calls, k);
    }
  }

  lemma LogsAdd(tg: Target, s: State, e: Event, log: seq<Observation>)
    requires Inv(tg, s) && Enabled(tg, s, e) && s.log <= Next(tg, s, e).log <= log
    ensures CallsOf(log[|s.log|..]) == CallsOf(Added(tg, s, e)) + CallsOf(log[|Next(tg, s, e).log|..])
  {
    hide Inv, Enabled, Next, CallsOf;
    var n := Next(tg, s, e);
    assert log[|s.log|..] == Added(tg, s, e) + log[|n.log|..];
    CallsOfConcat(Added(tg, s, e), log[|n.log|..]);
  }

  // ----- The tracked blocks of a log

  /** What a plain map makes of a sequence of calls. */
  function ReplayCalls(calls: seq<L.Call>): map<Address, nat> {
    if calls == [] then map[] else T.Replay(ReplayCalls(calls[..|calls| - 1]), calls[|calls| - 1])
  }

  predicate TameCalls(calls: seq<L.Call>) {
    calls == [] ||
    (TameCalls(calls[..|calls| - 1]) && T.Tame(ReplayCalls(calls[..|calls| - 1]), calls[|calls| - 1]))
  }

  lemma {:induction false} ReplayIsOfCalls<C>(ops: seq<R.Op<C>>)
    ensures R.ReplayAll(map[], ops) == ReplayCalls(Calls(ops))
    ensures R.TameAll(map[], ops) <==> TameCalls(Calls(ops))
  {
    hide T.Replay, T.Tame, R.ReplayAll, R.TameAll;
    if ops == [] {
      NoOps<C>();
    } else {
      var n := |ops| - 1;
      ReplayIsOfCalls(ops[..n]);
      R.ReplayOneMore(map[], ops[..n], ops[n]);
      assert ops == ops[..n] + [ops[n]];
      if ops[n].Api? {
        assert Calls(ops) == Calls(ops[..n]) + [ops[n].call];
        assert Calls(ops)[..|Calls(ops)| - 1] == Calls(ops[..n]);
      } else {
        assert Calls(ops) == Calls(ops[..n]);
      }
    }
  }

  lemma NoOps<C>()
    ensures R.ReplayAll<C>(map[], []) == map[] && R.TameAll<C>(map[], [])
  {
  }

  /** From traps to the ledger. Take any run with its ledger: each handler's call and each
      expiry check acts on the ledger of its moment, and each check returns what it
      returns there. The ledger at the end is the one of the session whose requests are
      exactly those of the events, in order, with their times and callstacks; its calls
      are those that the log records. So the books balance for every callstack; the
      session is stopped exactly if the last event made a check that reported a limit;
      and if the recorded calls are tame, the tracked blocks are what a plain map makes
      of them. */
  lemma LedgerOfRun<C>(tg: Target, threads: map<Tid, Thread>, es: seq<Event>, o: R.Options, clock: int,
                       ks: seq<Tick<C>>)
    returns (ops: seq<R.Op<C>>)
    requires IsStart(tg, threads) && R.Positive(o) && |ks| == |es|
    requires (InitInv(tg, threads); Coupled(tg, Init(threads), es, o, R.Start<C>(o, clock), ks))
    ensures Run(tg, threads, es) && Inv(tg, Init(threads))
    ensures ops == AllRequests(tg, Init(threads), es, ks) && R.IsRun(o, R.Start<C>(o, clock), ops)
    ensures Calls(ops) == CallsOf(End(tg, threads, es).log)
    ensures var x := EndSession(tg, Init(threads), es, o, R.Start<C>(o, clock), ks);
            && x == R.Final(o, R.Start<C>(o, clock), ops)
            && (x.stopped <==> LimitAtEnd(tg, Init(threads), es))
            && (x.stopped ==> End(tg, threads, es).done)
            && (forall c :: c in x.ledger.accounts ==> x.ledger.split <= |x.ledger.live| && Laws.Balanced(x.ledger, c))
            && (TameCalls(CallsOf(End(tg, threads, es).log)) ==>
                  T.Tracked(x.ledger.live) == ReplayCalls(CallsOf(End(tg, threads, es).log)))
  {
    hide R.SessionOk, Inv, Enabled, Next, CallsOf, Coupled, Laws.Balanced, TameCalls, R.TameAll;
    InitInv(tg, threads);
    ops := CoupledRun(tg, Init(threads), es, o, R.Start<C>(o, clock), ks);
    var log := End(tg, threads, es).log;
    assert log[0..] == log;
    ReplayIsOfCalls(ops);
    var x := R.Final(o, R.Start<C>(o, clock), ops);
    R.SessionFacts(o, x);
    forall c | c in x.ledger.accounts
      ensures x.ledger.split <= |x.ledger.live| && Laws.Balanced(x.ledger, c)
    {
      R.BooksBalance(o, clock, ops, c);
    }
    if TameCalls(CallsOf(log)) {
      EmptyTracks<C>();
      R.SessionReplays(o, R.Start<C>(o, clock), ops);
    }
  }

  lemma EmptyTracks<C>()
    ensures T.NoRepeats(L.Empty<C>().live) && T.Tracked(L.Empty<C>().live) == map[]
  {
  }
}
