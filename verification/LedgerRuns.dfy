/** The ledger over whole monitoring sessions: API calls and expiry checks under a
    clock that does not go back, until a limit is reached. */
module LedgerRuns {
  import opened Basics
  import opened LedgerModel
  import opened LedgerLaws
  import opened ExpiryLaws
  import opened TrackedMap

  /** Command line options `-e`, `-m` and `-c`. */
  datatype Options = Options(expire: int, memblockLimit: int, callstackLimit: int)

  datatype Op<C> =
    | Api(call: Call, cs: C, freed: int, now: int)
    | Check(now: int)

  datatype Session<C(==)> = Session(ledger: Ledger<C>, clock: int, stopped: bool)

  ghost predicate Legal<C>(s: Session<C>, op: Op<C>) {
    !s.stopped && s.clock <= op.now && (op.Api? ==> s.clock <= op.freed <= op.now)
  }

  function Step<C>(o: Options, s: Session<C>, op: Op<C>): Session<C>
    requires WellFormed(s.ledger)
  {
    match op
    case Api(call, cs, freed, now) => Session(Handle(s.ledger, call, cs, freed, now), now, false)
    case Check(now) =>
      var (l, next) := Expire(s.ledger, now, o.expire, o.memblockLimit, o.callstackLimit);
      Session(l, now, next < 0)
  }

  /** Monitoring has stopped if and only if a limit is reached: some callstack has expired
      as many blocks as it may, or one callstack too many has expired any. The limits are
      exceeded by a single block then. */
  ghost predicate LimitsOk<C>(o: Options, s: Session<C>) {
    && (s.stopped <==> !Within(s.ledger, o.memblockLimit, o.callstackLimit))
    && (forall i :: 0 <= i < |s.ledger.byId| ==> s.ledger.byId[i] in s.ledger.accounts)
    && Expirations(s.ledger.byId, s.ledger.accounts)
       <= o.callstackLimit * (o.memblockLimit - 1) + (if s.stopped then 1 else 0)
  }

  /** No age has been counted yet: that happens once, for the final report. */
  ghost predicate Uncounted<C>(l: Ledger<C>) {
    forall c :: c in l.accounts ==> l.accounts[c].stats.unfreeMax == 0
  }

  ghost predicate SessionOk<C>(o: Options, s: Session<C>) {
    Inv(s.ledger, s.clock) && LimitsOk(o, s) && Uncounted(s.ledger)
  }

  ghost predicate Positive(o: Options) {
    o.memblockLimit > 0 && o.callstackLimit > 0
  }

  /** Ids and expiry counts are the same; a new callstack starts at zero. */
  ghost predicate SameExpiry<C>(l: Ledger<C>, r: Ledger<C>) {
    && r.byId == l.byId
    && (forall c :: c in l.accounts ==> c in r.accounts)
    && (forall c :: c in r.accounts ==>
          r.accounts[c].stats.expiredCount == if c in l.accounts then l.accounts[c].stats.expiredCount else 0)
  }

  lemma NewKeepsExpiry<C>(l: Ledger<C>, pointer: Address, size: nat, cs: C, now: int)
    ensures SameExpiry(l, New(l, pointer, size, cs, now))
  {
  }

  lemma FoundKeepsExpiry<C>(l: Ledger<C>, pointer: Address, size: nat, now: int)
    requires WellFormed(l)
    ensures WellFormed(DeleteFound(l, pointer, now)) && SameExpiry(l, DeleteFound(l, pointer, now))
    ensures SameExpiry(l, ResizeFound(l, pointer, size))
  {
  }

  /** API calls leave ids and expiry counts alone. */
  lemma HandleKeepsExpiry<C>(l: Ledger<C>, call: Call, cs: C, freed: int, now: int)
    requires WellFormed(l)
    ensures SameExpiry(l, Handle(l, call, cs, freed, now))
  {
    hide New, DeleteFound, ResizeFound;
    match call
    case Malloc(ret, size) => NewKeepsExpiry(l, ret, size, cs, now);
    case Free(pointer) => FoundKeepsExpiry(l, pointer, 0, freed);
    case Realloc(ret, from, size) =>
      FoundKeepsExpiry(l, from, size, freed);
      NewKeepsExpiry(DeleteFound(l, from, freed), ret, size, cs, now);
    case Calloc(ret, nmemb, size) => NewKeepsExpiry(l, ret, nmemb * size % WORD, cs, now);
  }

  lemma HandleUncounted<C>(l: Ledger<C>, call: Call, cs: C, freed: int, now: int)
    requires WellFormed(l) && Uncounted(l)
    ensures Uncounted(Handle(l, call, cs, freed, now))
  {
  }

  lemma {:induction false} ExpireUncounted<C>(l: Ledger<C>, now: int, expire: int, ml: int, cl: int)
    requires WellFormed(l) && Uncounted(l)
    ensures Uncounted(Expire(l, now, expire, ml, cl).0)
    decreases |l.live| - l.split
  {
    if l.split < |l.live| && now - l.live[l.split].create >= expire {
      ExpireUncounted(ExpireOne(l), now, expire, ml, cl);
    }
  }

  lemma StepOk<C>(o: Options, s: Session<C>, op: Op<C>)
    requires Positive(o) && SessionOk(o, s) && Legal(s, op)
    ensures SessionOk(o, Step(o, s, op))
  {
    hide Inv, Handle, Expire, IdsOk, Balanced, Ordered, Uncounted;
    var l := s.ledger;
    assert WellFormed(l) && IdsOk(l) by { InvParts(l, s.clock); }
    match op
    case Api(call, cs, freed, now) =>
      HandleKeeps(l, call, cs, s.clock, freed, now);
      HandleKeepsExpiry(l, call, cs, freed, now);
      HandleUncounted(l, call, cs, freed, now);
      var r := Handle(l, call, cs, freed, now);
      InvParts(r, now);
      WithinBound(r, o.memblockLimit, o.callstackLimit);
    case Check(now) =>
      ExpireKeeps(l, s.clock, now, o.expire, o.memblockLimit, o.callstackLimit);
      ExpireLimits(l, now, o.expire, o.memblockLimit, o.callstackLimit);
      ExpireUncounted(l, now, o.expire, o.memblockLimit, o.callstackLimit);
      InvParts(Expire(l, now, o.expire, o.memblockLimit, o.callstackLimit).0, now);
  }

  lemma InvParts<C>(l: Ledger<C>, clock: int)
    requires Inv(l, clock)
    ensures WellFormed(l) && IdsOk(l) && Ordered(l, clock)
    ensures forall i :: 0 <= i < |l.byId| ==> l.byId[i] in l.accounts
  {
  }

  lemma LaterOk<C>(o: Options, s: Session<C>, now: int)
    requires SessionOk(o, s) && s.clock <= now
    ensures SessionOk(o, s.(clock := now))
  {
    hide IdsOk, Balanced, LimitsOk;
    assert LimitsOk(o, s.(clock := now)) by { SameLimits(o, s, now); }
  }

  lemma SameLimits<C>(o: Options, s: Session<C>, now: int)
    requires LimitsOk(o, s)
    ensures LimitsOk(o, s.(clock := now))
  {
  }

  /** A free or an in-place resize is a step of the session, whoever the caller is. */
  lemma DeleteFoundOk<C>(o: Options, s: Session<C>, p: Address, freed: int, now: int)
    requires Positive(o) && SessionOk(o, s) && !s.stopped && s.clock <= freed <= now
    ensures WellFormed(s.ledger) && SessionOk(o, Session(DeleteFound(s.ledger, p, freed), now, false))
  {
    hide SessionOk, Delete;
    SessionFacts(o, s);
    match Find(s.ledger.live, p)
    case None => LaterOk(o, s, now);
    case Some(i) => StepOk(o, s, Api(Free(p), s.ledger.live[i].cs, freed, now));
  }

  lemma ResizeFoundOk<C>(o: Options, s: Session<C>, p: Address, size: nat, now: int)
    requires Positive(o) && SessionOk(o, s) && !s.stopped && s.clock <= now
    ensures WellFormed(s.ledger) && SessionOk(o, Session(ResizeFound(s.ledger, p, size), now, false))
  {
    hide SessionOk, Resize;
    SessionFacts(o, s);
    match Find(s.ledger.live, p)
    case None => LaterOk(o, s, now);
    case Some(i) => StepOk(o, s, Api(Realloc(p, p, size), s.ledger.live[i].cs, now, now));
  }

  lemma SessionFacts<C>(o: Options, s: Session<C>)
    requires SessionOk(o, s)
    ensures WellFormed(s.ledger) && Inv(s.ledger, s.clock) && Uncounted(s.ledger) && LimitsOk(o, s)
  {
    hide IdsOk, Balanced, LimitsOk;
  }

  // ----- Runs

  ghost predicate IsRun<C>(o: Options, s: Session<C>, ops: seq<Op<C>>)
    requires Positive(o) && SessionOk(o, s)
    decreases |ops|
  {
    ops == [] || (Legal(s, ops[0]) && (StepOk(o, s, ops[0]); IsRun(o, Step(o, s, ops[0]), ops[1..])))
  }

  ghost function Final<C>(o: Options, s: Session<C>, ops: seq<Op<C>>): (r: Session<C>)
    requires Positive(o) && SessionOk(o, s) && IsRun(o, s, ops)
    ensures SessionOk(o, r)
    decreases |ops|
  {
    if ops == [] then s else (StepOk(o, s, ops[0]); Final(o, Step(o, s, ops[0]), ops[1..]))
  }

  ghost function Start<C>(o: Options, clock: int): (s: Session<C>)
    requires Positive(o)
    ensures SessionOk(o, s)
  {
    var s := Session(Empty<C>(), clock, false);
    assert o.callstackLimit * (o.memblockLimit - 1) >= 0 by { MulLe(0, o.callstackLimit, o.memblockLimit - 1); }
    s
  }

  /** The books balance: at the end of every session, for every callstack. */
  lemma BooksBalance<C>(o: Options, clock: int, ops: seq<Op<C>>, c: C)
    requires Positive(o) && IsRun(o, Start<C>(o, clock), ops)
    requires c in Final(o, Start<C>(o, clock), ops).ledger.accounts
    ensures Balanced(Final(o, Start<C>(o, clock), ops).ledger, c)
  {
    hide Balanced, IdsOk;
    assert Inv(Final(o, Start<C>(o, clock), ops).ledger, Final(o, Start<C>(o, clock), ops).clock);
  }

  /** Ids are 1..k with k within the limit, every callstack expired fewer blocks
      than its limit, and the total is bounded, with one block to spare at the end. */
  lemma ExpiryIsBounded<C>(o: Options, clock: int, ops: seq<Op<C>>)
    requires Positive(o) && IsRun(o, Start<C>(o, clock), ops)
    ensures var s := Final(o, Start<C>(o, clock), ops);
            && IdsOk(s.ledger)
            && (s.stopped <==> !Within(s.ledger, o.memblockLimit, o.callstackLimit))
            && Expirations(s.ledger.byId, s.ledger.accounts)
               <= o.callstackLimit * (o.memblockLimit - 1) + (if s.stopped then 1 else 0)
  {
    hide Balanced, IdsOk;
    assert Inv(Final(o, Start<C>(o, clock), ops).ledger, Final(o, Start<C>(o, clock), ops).clock);
  }

  // ----- The plain map

  function ReplayAll<C>(m: map<Address, nat>, ops: seq<Op<C>>): map<Address, nat>
    decreases |ops|
  {
    if ops == [] then m
    else ReplayAll(if ops[0].Api? then Replay(m, ops[0].call) else m, ops[1..])
  }

  ghost predicate TameAll<C>(m: map<Address, nat>, ops: seq<Op<C>>)
    decreases |ops|
  {
    ops == [] ||
    (&& (ops[0].Api? ==> Tame(m, ops[0].call))
     && TameAll(if ops[0].Api? then Replay(m, ops[0].call) else m, ops[1..]))
  }

  /** Over a tame session the ledger tracks what the plain map says, and never the
      null pointer. */
  lemma {:induction false} SessionReplays<C>(o: Options, s: Session<C>, ops: seq<Op<C>>)
    requires Positive(o) && SessionOk(o, s) && IsRun(o, s, ops)
    requires NoRepeats(s.ledger.live) && TameAll(Tracked(s.ledger.live), ops)
    ensures Tracked(Final(o, s, ops).ledger.live) == ReplayAll(Tracked(s.ledger.live), ops)
    ensures 0 !in Tracked(Final(o, s, ops).ledger.live)
    decreases |ops|
  {
    hide Inv, LimitsOk, Handle, Replay, Tame;
    if ops == [] {
      NullNotTracked(s.ledger, s.clock);
    } else {
      StepOk(o, s, ops[0]);
      var op := ops[0];
      InvParts(s.ledger, s.clock);
      if op.Api? {
        HandleReplays(s.ledger, op.call, op.cs, op.freed, op.now);
      }
      SessionReplays(o, Step(o, s, op), ops[1..]);
    }
  }

  lemma NullNotTracked<C>(l: Ledger<C>, clock: int)
    requires Inv(l, clock)
    ensures 0 !in Tracked(l.live)
  {
    hide IdsOk, Balanced;
    TrackedIsFound(l.live, 0);
  }

  lemma {:induction false} ReplayOneMore<C>(m: map<Address, nat>, ops: seq<Op<C>>, op: Op<C>)
    ensures ReplayAll(m, ops + [op]) == if op.Api? then Replay(ReplayAll(m, ops), op.call) else ReplayAll(m, ops)
    ensures TameAll(m, ops + [op]) <==> TameAll(m, ops) && (op.Api? ==> Tame(ReplayAll(m, ops), op.call))
    decreases |ops|
  {
    hide Replay, Tame;
    var all := ops + [op];
    if ops == [] {
      assert all[1..] == [];
    } else {
      assert all[1..] == ops[1..] + [op];
      ReplayOneMore(if ops[0].Api? then Replay(m, ops[0].call) else m, ops[1..], op);
    }
  }
}
