/** What the registers of a thread at the two traps of a call do to the ledger. */
module RegistersToLedger {
  import opened Basics
  import opened Protocol
  import opened ProtocolRuns
  import opened Observations
  import opened EndToEnd
  import L = LedgerModel
  import R = LedgerRuns
  import T = TrackedMap

  // ----- Prefixes of a run with its ledger

  lemma {:induction false} CoupledPrefix<C>(tg: Target, s: State, es: seq<Event>, o: R.Options, x: R.Session<C>,
                                            ks: seq<Tick<C>>, n: nat)
    requires Inv(tg, s) && R.Positive(o) && R.SessionOk(o, x) && (x.stopped ==> s.done) && |ks| == |es| && n < |es|
    requires Coupled(tg, s, es, o, x, ks)
    ensures Coupled(tg, s, es[..n], o, x, ks[..n]) && Coupled(tg, s, es[..n + 1], o, x, ks[..n + 1])
    ensures IsRun(tg, s, es[..n]) && IsRun(tg, s, es[..n + 1])
    ensures var u, y := Final(tg, s, es[..n]), EndSession(tg, s, es[..n], o, x, ks[..n]);
            && Enabled(tg, u, es[n]) && !y.stopped && Fits(tg, u, es[n], o, y, ks[n])
            && Final(tg, s, es[..n + 1]) == Next(tg, u, es[n])
            && EndSession(tg, s, es[..n + 1], o, x, ks[..n + 1]) == After(tg, u, es[n], o, y, ks[n])
    decreases n
  {
    hide R.SessionOk, Inv, Enabled, Next, Fits, After;
    NotDone(tg, s, es[0]);
    var e, k := es[0], ks[0];
    AfterFacts(tg, s, e, o, x, k);
    if n == 0 {
      assert es[..1][1..] == [] && ks[..1][1..] == [];
    } else {
      CoupledPrefix(tg, Next(tg, s, e), es[1..], o, After(tg, s, e, o, x, k), ks[1..], n - 1);
      assert es[..n][1..] == es[1..][..n - 1] && es[..n + 1][1..] == es[1..][..n];
      assert ks[..n][1..] == ks[1..][..n - 1] && ks[..n + 1][1..] == ks[1..][..n];
    }
  }

  lemma AfterFacts<C>(tg: Target, s: State, e: Event, o: R.Options, x: R.Session<C>, k: Tick<C>)
    requires Inv(tg, s) && Enabled(tg, s, e) && R.Positive(o) && R.SessionOk(o, x) && !x.stopped
    requires Fits(tg, s, e, o, x, k)
    ensures var z := After(tg, s, e, o, x, k);
            R.SessionOk(o, z) && Inv(tg, Next(tg, s, e)) && (z.stopped ==> Next(tg, s, e).done)
  {
  }

  // ----- One event

  lemma {:induction false} CallIsRecorded(a: seq<Observation>, q: nat)
    requires q < |a| && a[q].Returned?
    ensures CallOf(a[q].bp, a[q].value, a[q].arg1, a[q].arg2) in CallsOf(a)
  {
    hide CallOf;
    var n := |a| - 1;
    if q < n {
      CallIsRecorded(a[..n], q);
    }
  }

  /** The handler of an event acts on the ledger of its moment; the expiry check behind it
      moves no block in or out. */
  lemma HandlerActs<C>(tg: Target, s: State, e: Event, o: R.Options, x: R.Session<C>, k: Tick<C>, q: nat)
    requires Inv(tg, s) && Enabled(tg, s, e) && R.Positive(o) && R.SessionOk(o, x) && !x.stopped
    requires Fits(tg, s, e, o, x, k) && q < |Added(tg, s, e)| && Added(tg, s, e)[q].Returned?
    ensures L.WellFormed(x.ledger)
    ensures var r := Added(tg, s, e)[q];
            var call := CallOf(r.bp, r.value, r.arg1, r.arg2);
            After(tg, s, e, o, x, k).ledger.live == L.Handle(x.ledger, call, k.cs, k.freed, k.now).live
  {
    hide R.SessionOk, Inv, Enabled, Next, Added, CallsOf, CallOf, Checks, L.Handle;
    var calls := CallsOf(Added(tg, s, e));
    CallIsRecorded(Added(tg, s, e), q);
    OneCall(tg, s, e);
    RequestsRun(o, x, tg, s, e, k);
    R.SessionFacts(o, x);
    var apis := Apis(calls, k);
    assert apis == [R.Api(calls[0], k.cs, k.freed, k.now)];
    var y := R.Final(o, x, apis);
    OneStep(o, x, apis[0]);
    if Checks(tg, s, e) {
      R.SessionFacts(o, y);
      R.StepOk(o, y, R.Check(k.checked));
      RunConcat(o, x, apis, [R.Check(k.checked)]);
      OneStep(o, y, R.Check(k.checked));
    } else {
      assert Requests(tg, s, e, k) == apis;
    }
  }

  lemma OneStep<C>(o: R.Options, x: R.Session<C>, op: R.Op<C>)
    requires R.Positive(o) && R.SessionOk(o, x) && R.Legal(x, op)
    ensures L.WellFormed(x.ledger) && R.IsRun(o, x, [op]) && R.Final(o, x, [op]) == R.Step(o, x, op)
  {
    hide R.SessionOk, R.Step;
    R.SessionFacts(o, x);
    R.StepOk(o, x, op);
    assert [op][1..] == [];
  }

  // ----- Registers

  /** What a call of each API means for the tracked blocks `m`, from the registers: the two
      arguments at the entry and the result at the return. `live` are the blocks before. */
  ghost predicate Effect<C>(api: nat, rdi: Address, rsi: Address, rax: Address, live: seq<L.Block<C>>,
                            m: map<Address, nat>, after: map<Address, nat>) {
    match api
    case 0 =>
      after == if rax == 0 then m else m[rax := rdi]
    case 1 =>
      T.LiveOnce(live, rdi) ==> after == m - {rdi}
    case 2 =>
      && (rax == rdi ==> after == if rdi in m then m[rdi := rsi] else m)
      && (rax != rdi && T.LiveOnce(live, rdi) ==>
            after == if rax == 0 then m - {rdi} else (m - {rdi})[rax := rsi])
    case _ =>
      after == if rax == 0 then m else m[rax := rdi * rsi % WORD]
  }

  lemma CallHasEffect<C>(l: L.Ledger<C>, bp: nat, rax: Address, rdi: Address, rsi: Address, cs: C, freed: int, now: int)
    requires L.WellFormed(l) && bp < 4
    ensures Effect(bp, rdi, rsi, rax, l.live, T.Tracked(l.live),
                   T.Tracked(L.Handle(l, CallOf(bp, rax, rdi, rsi), cs, freed, now).live))
  {
    hide T.Tracked, T.LiveOnce, L.New, L.DeleteFound, L.ResizeFound;
    if bp == 0 {
      T.TrackedNewAny(l, rax, rdi, cs, now);
    } else if bp == 1 {
      T.TrackedDeleteAny(l, rdi, freed);
    } else if bp == 2 {
      T.TrackedResizeAny(l, rdi, rsi);
      T.TrackedDeleteAny(l, rdi, freed);
      T.TrackedNewAny(L.DeleteFound(l, rdi, freed), rax, rsi, cs, now);
    } else {
      T.TrackedNewAny(l, rax, rdi * rsi % WORD, cs, now);
    }
  }

  /** From registers to the ledger, for every handler that runs in any run with its ledger.
      At event `a` the handler's thread trapped at one of the four entries; at the later
      event `b` it trapped at the return address that lay on its stack at `a`. Over event
      `b` the tracked blocks change as the API at that entry says of the arguments in rdi
      and rsi at `a` and the result in rax at `b`. */
  lemma RegistersReachTheLedger<C>(tg: Target, threads: map<Tid, Thread>, es: seq<Event>, o: R.Options, clock: int,
                                   ks: seq<Tick<C>>, i: nat)
    returns (a: nat, b: nat)
    requires IsStart(tg, threads) && R.Positive(o) && |ks| == |es|
    requires (InitInv(tg, threads); Coupled(tg, Init(threads), es, o, R.Start<C>(o, clock), ks))
    requires Run(tg, threads, es) && i < |End(tg, threads, es).log| && End(tg, threads, es).log[i].Returned?
    ensures a < b < |es| && Inv(tg, Init(threads)) && Run(tg, threads, es[..a]) && Run(tg, threads, es[..b])
    ensures es[a].Deliver? && es[b].Deliver? && es[a].t == es[b].t == End(tg, threads, es).log[i].thread
    ensures Coupled(tg, Init(threads), es[..b], o, R.Start<C>(o, clock), ks[..b])
    ensures Coupled(tg, Init(threads), es[..b + 1], o, R.Start<C>(o, clock), ks[..b + 1])
    ensures es[a].t in End(tg, threads, es[..a]).threads && es[a].t in End(tg, threads, es[..b]).threads
    ensures var entry := End(tg, threads, es[..a]).threads[es[a].t];
            var exit := End(tg, threads, es[..b]).threads[es[a].t];
            var before := EndSession(tg, Init(threads), es[..b], o, R.Start<C>(o, clock), ks[..b]).ledger.live;
            var after := EndSession(tg, Init(threads), es[..b + 1], o, R.Start<C>(o, clock), ks[..b + 1]).ledger.live;
            && exit.pc == entry.ret + 1
            && entry.pc - 1 in tg.entries
            && forall api :: 0 <= api < |tg.entries| && entry.pc == tg.entries[api] + 1 ==>
                 Effect(api, entry.rdi, entry.rsi, exit.rax, before, T.Tracked(before), T.Tracked(after))
  {
    hide R.SessionOk, Inv, Enabled, Next, Fits, After, Coupled, CallOf, CallsOf, Effect, T.Tracked, L.Handle,
         GoodReturn;
    InitInv(tg, threads);
    var s0, x0 := Init(threads), R.Start<C>(o, clock);
    var j;
    j, a, b := HandlersSeeTheCall(tg, threads, es, i);
    CoupledPrefix(tg, s0, es, o, x0, ks, b);
    PrefixRun(tg, s0, es, b + 1, |es|);
    assert es[..|es|] == es;
    var u, y := Final(tg, s0, es[..b]), EndSession(tg, s0, es[..b], o, x0, ks[..b]);
    var q := i - |u.log|;
    var r := End(tg, threads, es).log[i];
    AddedAt(tg, u, es[b], q);
    assert Added(tg, u, es[b])[q] == r;
    HandlerActs(tg, u, es[b], o, y, ks[b], q);
    CallHasEffect(y.ledger, r.bp, r.value, r.arg1, r.arg2, ks[b].cs, ks[b].freed, ks[b].now);
    EntriesDiffer(tg, s0);
  }

  lemma AddedAt(tg: Target, s: State, e: Event, q: nat)
    requires Inv(tg, s) && Enabled(tg, s, e) && |s.log| + q < |Next(tg, s, e).log|
    ensures q < |Added(tg, s, e)| && Added(tg, s, e)[q] == Next(tg, s, e).log[|s.log| + q]
  {
    hide Inv, Enabled, Next;
    StepIsLoggedTruly(tg, s, e);
  }

  lemma EntriesDiffer(tg: Target, s: State)
    requires Inv(tg, s)
    ensures |tg.entries| == 4
    ensures forall i, j :: 0 <= i < |tg.entries| && 0 <= j < |tg.entries| && tg.entries[i] == tg.entries[j] ==> i == j
  {
    assert forall i, j :: 0 <= i < j < 4 ==> Apart(tg.entries[i], tg.entries[j]);
  }
}
