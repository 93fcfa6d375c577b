/** The counters of a callstack as totals over the history of a session. The history is
    read off the requests and the blocks that are live when they arrive, not off the
    accounts. */
module LedgerHistory {
  import opened Basics
  import opened LedgerModel
  import opened LedgerLaws
  import opened LedgerRuns
  import opened TrackedMap

  /** What happened to the blocks of one callstack so far. */
  datatype Tally = Tally(
    allotted: int, allottedBytes: int,
    freed: int, freedBytes: int,
    expired: int, expiredBytes: int,          // bytes at the moment of expiry
    freedExpired: int, freedExpiredBytes: int,
    resized: int,                             // in place, while expired
    lifetimes: seq<int>)

  const NOTHING := Tally(0, 0, 0, 0, 0, 0, 0, 0, 0, [])

  // ----- What a request means for the tally of callstack `c`

  /** A pointer was returned for `size` bytes, and `cs` asked for them. */
  function Allotted<C(==)>(t: Tally, ret: Address, size: nat, cs: C, c: C): Tally {
    if ret == 0 || cs != c then t
    else t.(allotted := t.allotted + 1, allottedBytes := t.allottedBytes + size)
  }

  /** The pointer `p` was given up: the newest live block with it is gone. */
  function GivenUp<C(==)>(t: Tally, l: Ledger<C>, p: Address, time: int, c: C): Tally {
    match Find(l.live, p)
    case None => t
    case Some(i) =>
      var b := l.live[i];
      if b.cs != c then t
      else
        var u := t.(freed := t.freed + 1, freedBytes := t.freedBytes + b.size,
                    lifetimes := t.lifetimes + [time - b.create]);
        if i >= l.split then u
        else u.(freedExpired := u.freedExpired + 1, freedExpiredBytes := u.freedExpiredBytes + b.size)
  }

  /** The newest live block with pointer `p` changed its size in place. */
  function Regrown<C(==)>(t: Tally, l: Ledger<C>, p: Address, size: nat, c: C): Tally {
    match Find(l.live, p)
    case None => t
    case Some(i) =>
      var b := l.live[i];
      if b.cs != c then t
      else
        var u := t.(allottedBytes := t.allottedBytes + size - b.size);
        if i < l.split then u.(resized := u.resized + size - b.size) else u
  }

  /** The blocks from position `i` to `j` expired. */
  function Aged<C(==)>(t: Tally, s: seq<Block<C>>, c: C): Tally {
    t.(expired := t.expired + Blocks(s, c), expiredBytes := t.expiredBytes + Bytes(s, c))
  }

  function Told<C(==)>(t: Tally, l: Ledger<C>, call: Call, cs: C, time: int, c: C): Tally {
    match call
    case Malloc(ret, size) => Allotted(t, ret, size, cs, c)
    case Free(p) => GivenUp(t, l, p, time, c)
    case Realloc(ret, from, size) =>
      if ret == from then Regrown(t, l, from, size, c)
      else Allotted(GivenUp(t, l, from, time, c), ret, size, cs, c)
    case Calloc(ret, nmemb, size) => Allotted(t, ret, nmemb * size % WORD, cs, c)
  }

  /** The tally after the requests `ops`, from session `x` on. */
  ghost function History<C>(o: Options, x: Session<C>, ops: seq<Op<C>>, c: C, t: Tally): Tally
    requires Positive(o) && SessionOk(o, x) && IsRun(o, x, ops)
    decreases |ops|
  {
    if ops == [] then t
    else
      StepOk(o, x, ops[0]);
      var y := Step(o, x, ops[0]);
      var u :=
        match ops[0]
        case Api(call, cs, freed, _) => Told(t, x.ledger, call, cs, freed, c)
        case Check(_) => Aged(t, x.ledger.live[x.ledger.split..y.ledger.split], c);
      History(o, y, ops[1..], c, u)
  }

  // ----- The accounts keep the tally

  /** The account of `c` says what the tally says; no account, no history. */
  ghost predicate Agrees<C>(l: Ledger<C>, c: C, t: Tally) {
    if c !in l.accounts then t == NOTHING
    else
      var a := l.accounts[c];
      var s := a.stats;
      && s.allocCount == t.allotted && s.allocSize == t.allottedBytes
      && s.freeCount == t.freed && s.freeSize == t.freedBytes
      && s.expiredCount == t.expired && s.expiredSize == t.expiredBytes
      && s.freeExpiredCount == t.freedExpired && s.freeExpiredSize == t.freedExpiredBytes
      && a.resized == t.resized && a.freed == t.lifetimes
  }

  lemma NewAgrees<C>(l: Ledger<C>, ret: Address, size: nat, cs: C, now: int, c: C, t: Tally)
    requires WellFormed(l) && Agrees(l, c, t)
    ensures Agrees(New(l, ret, size, cs, now), c, Allotted(t, ret, size, cs, c))
  {
  }

  lemma DeleteAgrees<C>(l: Ledger<C>, p: Address, time: int, c: C, t: Tally)
    requires WellFormed(l) && Agrees(l, c, t)
    ensures WellFormed(DeleteFound(l, p, time)) && Agrees(DeleteFound(l, p, time), c, GivenUp(t, l, p, time, c))
  {
    TrackedDeleteAny(l, p, time);
  }

  lemma ResizeAgrees<C>(l: Ledger<C>, p: Address, size: nat, c: C, t: Tally)
    requires WellFormed(l) && Agrees(l, c, t)
    ensures Agrees(ResizeFound(l, p, size), c, Regrown(t, l, p, size, c))
  {
  }

  lemma HandleAgrees<C>(l: Ledger<C>, call: Call, cs: C, freed: int, now: int, c: C, t: Tally)
    requires WellFormed(l) && Agrees(l, c, t)
    ensures Agrees(Handle(l, call, cs, freed, now), c, Told(t, l, call, cs, freed, c))
  {
    hide Agrees, New, DeleteFound, ResizeFound, Allotted, GivenUp, Regrown;
    match call
    case Malloc(ret, size) => NewAgrees(l, ret, size, cs, now, c, t);
    case Free(p) => DeleteAgrees(l, p, freed, c, t);
    case Realloc(ret, from, size) =>
      ResizeAgrees(l, from, size, c, t);
      DeleteAgrees(l, from, freed, c, t);
      NewAgrees(DeleteFound(l, from, freed), ret, size, cs, now, c, GivenUp(t, l, from, freed, c));
    case Calloc(ret, nmemb, size) => NewAgrees(l, ret, nmemb * size % WORD, cs, now, c, t);
  }

  lemma {:induction false} SumsOfCons<C>(s: seq<Block<C>>, c: C)
    requires s != []
    ensures Blocks(s, c) == Blocks(s[1..], c) + (if s[0].cs == c then 1 else 0)
    ensures Bytes(s, c) == Bytes(s[1..], c) + (if s[0].cs == c then s[0].size else 0)
  {
    var n := |s| - 1;
    if n > 0 {
      SumsOfCons(s[..n], c);
      assert s[1..][..n - 1] == s[..n][1..];
    }
  }

  lemma ExpireOneAgrees<C>(l: Ledger<C>, c: C, t: Tally)
    requires WellFormed(l) && Agrees(l, c, t) && l.split < |l.live|
    ensures Agrees(ExpireOne(l), c, Aged(t, [l.live[l.split]], c))
  {
    var s := [l.live[l.split]];
    assert s[..0] == [];
    assert Blocks(s, c) == if s[0].cs == c then 1 else 0;
    assert Bytes(s, c) == if s[0].cs == c then s[0].size else 0;
  }

  lemma {:induction false} ExpireAgrees<C>(l: Ledger<C>, now: int, expire: int, ml: int, cl: int, c: C, t: Tally)
    requires WellFormed(l) && Agrees(l, c, t)
    ensures var r := Expire(l, now, expire, ml, cl).0;
            Agrees(r, c, Aged(t, l.live[l.split..r.split], c))
    decreases |l.live| - l.split
  {
    hide Agrees, OverLimit;
    var r := Expire(l, now, expire, ml, cl).0;
    if l.split == |l.live| || now - l.live[l.split].create < expire {
      assert l.live[l.split..r.split] == [];
      assert Aged(t, [], c) == t;
    } else {
      var m, b := ExpireOne(l), l.live[l.split];
      var s := l.live[l.split..r.split];
      ExpireOneAgrees(l, c, t);
      assert s[0] == b && s[1..] == l.live[l.split + 1..r.split];
      SumsOfCons(s, c);
      SumsOfCons([b], c);
      if OverLimit(m.accounts[b.cs].stats, ml, cl) {
        assert s == [b];
      } else {
        ExpireAgrees(m, now, expire, ml, cl, c, Aged(t, [b], c));
        assert Aged(Aged(t, [b], c), s[1..], c) == Aged(t, s, c);
      }
    }
  }

  lemma {:induction false} RunAgrees<C>(o: Options, x: Session<C>, ops: seq<Op<C>>, c: C, t: Tally)
    requires Positive(o) && SessionOk(o, x) && IsRun(o, x, ops) && Agrees(x.ledger, c, t)
    ensures Agrees(Final(o, x, ops).ledger, c, History(o, x, ops, c, t))
    decreases |ops|
  {
    hide SessionOk, Agrees, Aged, Told, Handle;
    if ops != [] {
      SessionFacts(o, x);
      StepOk(o, x, ops[0]);
      var y := Step(o, x, ops[0]);
      match ops[0]
      case Api(call, cs, freed, now) =>
        HandleAgrees(x.ledger, call, cs, freed, now, c, t);
        RunAgrees(o, y, ops[1..], c, Told(t, x.ledger, call, cs, freed, c));
      case Check(now) =>
        ExpireAgrees(x.ledger, now, o.expire, o.memblockLimit, o.callstackLimit, c, t);
        RunAgrees(o, y, ops[1..], c, Aged(t, x.ledger.live[x.ledger.split..y.ledger.split], c));
    }
  }

  /** At the end of every session the account of every callstack is the tally of its
      history: what was allocated, freed, expired, and freed after it expired, in blocks
      and in bytes, the bytes at the moment of expiry, the net resizing in place of expired
      blocks, and the lifetimes of the freed blocks. */
  lemma StatisticsAreTotals<C>(o: Options, clock: int, ops: seq<Op<C>>, c: C)
    requires Positive(o) && IsRun(o, Start<C>(o, clock), ops)
    ensures Agrees(Final(o, Start<C>(o, clock), ops).ledger, c, History(o, Start<C>(o, clock), ops, c, NOTHING))
  {
    RunAgrees(o, Start<C>(o, clock), ops, c, NOTHING);
  }

  // ----- Where the live blocks come from

  /** The request asked for the block: its pointer is the one that was returned, and the
      block has the time and the callstack of the request. */
  predicate Made<C(==)>(op: Op<C>, b: Block<C>) {
    && op.Api? && Allocates(op.call) && op.now == b.create && op.cs == b.cs
    && b.pointer != 0 && !op.call.Free? && op.call.ret == b.pointer
  }

  /** The live blocks were made by the requests at the positions `ks` among the first `n`,
      in this order. */
  ghost predicate Originate<C>(ops: seq<Op<C>>, n: nat, live: seq<Block<C>>, ks: seq<nat>)
    requires n <= |ops|
  {
    && |ks| == |live|
    && (forall i :: 0 <= i < |ks| ==> ks[i] < n && Made(ops[ks[i]], live[i]))
    && (forall i, j :: 0 <= i < j < |ks| ==> ks[i] < ks[j])
  }

  lemma NewOriginates<C>(ops: seq<Op<C>>, n: nat, l: Ledger<C>, ret: Address, size: nat, ks: seq<nat>)
    returns (ls: seq<nat>)
    requires n < |ops| && Originate(ops, n, l.live, ks) && WellFormed(l)
    requires ops[n].Api? && Allocates(ops[n].call) && !ops[n].call.Free? && ops[n].call.ret == ret
    ensures Originate(ops, n + 1, New(l, ret, size, ops[n].cs, ops[n].now).live, ls)
  {
    NewLive(l, ret, size, ops[n].cs, ops[n].now);
    ls := if ret == 0 then ks else ks + [n];
  }

  lemma DeleteOriginates<C>(ops: seq<Op<C>>, n: nat, l: Ledger<C>, p: Address, time: int, ks: seq<nat>)
    returns (ls: seq<nat>)
    requires n <= |ops| && Originate(ops, n, l.live, ks) && WellFormed(l)
    ensures WellFormed(DeleteFound(l, p, time)) && Originate(ops, n, DeleteFound(l, p, time).live, ls)
  {
    TrackedDeleteAny(l, p, time);
    match Find(l.live, p)
    case None => ls := ks;
    case Some(i) =>
      ls := Remove(ks, i);
      RemoveShifts(ks, i);
      RemoveShifts(l.live, i);
  }

  lemma ResizeOriginates<C>(ops: seq<Op<C>>, n: nat, l: Ledger<C>, p: Address, size: nat, ks: seq<nat>)
    requires n <= |ops| && Originate(ops, n, l.live, ks) && WellFormed(l)
    ensures Originate(ops, n, ResizeFound(l, p, size).live, ks)
  {
  }

  lemma StepOriginates<C>(o: Options, x: Session<C>, ops: seq<Op<C>>, n: nat, ks: seq<nat>) returns (ls: seq<nat>)
    requires n < |ops| && WellFormed(x.ledger) && Originate(ops, n, x.ledger.live, ks)
    ensures Originate(ops, n + 1, Step(o, x, ops[n]).ledger.live, ls)
  {
    hide New, DeleteFound, ResizeFound;
    var l := x.ledger;
    match ops[n]
    case Check(_) =>
      ls := ks;
    case Api(call, cs, freed, now) =>
      match call
      case Malloc(ret, size) => ls := NewOriginates(ops, n, l, ret, size, ks);
      case Free(p) => ls := DeleteOriginates(ops, n, l, p, freed, ks);
      case Realloc(ret, from, size) =>
        if ret == from {
          ResizeOriginates(ops, n, l, from, size, ks);
          ls := ks;
        } else {
          var ms := DeleteOriginates(ops, n, l, from, freed, ks);
          ls := NewOriginates(ops, n, DeleteFound(l, from, freed), ret, size, ms);
        }
      case Calloc(ret, nmemb, size) => ls := NewOriginates(ops, n, l, ret, nmemb * size % WORD, ks);
  }

  lemma {:induction false} RunOriginates<C>(o: Options, x: Session<C>, ops: seq<Op<C>>, n: nat, ks: seq<nat>)
    returns (ls: seq<nat>)
    requires Positive(o) && SessionOk(o, x) && n <= |ops| && IsRun(o, x, ops[n..])
    requires Originate(ops, n, x.ledger.live, ks)
    ensures Originate(ops, |ops|, Final(o, x, ops[n..]).ledger.live, ls)
    decreases |ops| - n
  {
    hide SessionOk, Originate, Step;
    if n == |ops| {
      ls := ks;
    } else {
      SessionFacts(o, x);
      StepOk(o, x, ops[n]);
      assert ops[n..][0] == ops[n] && ops[n..][1..] == ops[n + 1..];
      var ms := StepOriginates(o, x, ops, n, ks);
      ls := RunOriginates(o, Step(o, x, ops[n]), ops, n + 1, ms);
    }
  }

  /** At the end of every session each live block was asked for by a request that was
      answered with its pointer; it has the time and the callstack of that request; and the
      blocks are in the order of their requests. */
  lemma BlocksHaveOrigins<C>(o: Options, clock: int, ops: seq<Op<C>>) returns (ks: seq<nat>)
    requires Positive(o) && IsRun(o, Start<C>(o, clock), ops)
    ensures Originate(ops, |ops|, Final(o, Start<C>(o, clock), ops).ledger.live, ks)
  {
    assert ops[0..] == ops;
    ks := RunOriginates(o, Start<C>(o, clock), ops, 0, []);
  }
}
