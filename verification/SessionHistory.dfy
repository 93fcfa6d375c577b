/** The counters and the blocks at the end of a session on the heap, as totals over its
    requests. */
module SessionHistory {
  import opened Basics
  import opened LedgerModel
  import opened LedgerLaws
  import opened LedgerRuns
  import opened LedgerHistory
  import opened Callstacks
  import opened FinalReport
  import opened Sessions
  import T = TrackedMap

  /** What happened to the blocks of callstack `c` over the requests `ops`, of which those
      that allocate were made by the callstacks `css`. */
  ghost function Tallied(o: Options, ops: seq<Op<Backtrace>>, css: seq<Callstack?>, c: Callstack): Tally
    requires Assigned(ops, css)
  {
    if ops == [] then NOTHING
    else
      var n := |ops| - 1;
      var t, l := Tallied(o, ops[..n], css[..n], c), Fold(o, ops[..n], css[..n]).0;
      match ops[n]
      case Api(call, _, freed, _) =>
        if Allocates(call) then Told(t, l, call, css[n], freed, c)
        else if call.Free? then GivenUp(t, l, call.pointer, freed, c)
        else Regrown(t, l, call.from, call.size, c)
      case Check(_) =>
        FoldExpires(o, ops, css);
        Aged(t, l.live[l.split..Fold(o, ops, css).0.split], c)
  }

  lemma FoldExpires(o: Options, ops: seq<Op<Backtrace>>, css: seq<Callstack?>)
    requires Assigned(ops, css) && ops != [] && ops[|ops| - 1].Check?
    ensures var n := |ops| - 1;
            var l, r := Fold(o, ops[..n], css[..n]).0, Fold(o, ops, css).0;
            && l.split <= r.split <= |l.live| && r.live == l.live
            && r == Expire(l, ops[n].now, o.expire, o.memblockLimit, o.callstackLimit).0
  {
  }

  lemma {:induction false} FoldAgrees(o: Options, ops: seq<Op<Backtrace>>, css: seq<Callstack?>, c: Callstack)
    requires Assigned(ops, css)
    ensures Agrees(Fold(o, ops, css).0, c, Tallied(o, ops, css, c))
  {
    hide Agrees, Told, GivenUp, Regrown, Aged, Handle, DeleteFound, ResizeFound;
    if ops == [] {
      EmptyAgrees(c);
    } else {
      var n := |ops| - 1;
      FoldAgrees(o, ops[..n], css[..n], c);
      var t, l := Tallied(o, ops[..n], css[..n], c), Fold(o, ops[..n], css[..n]).0;
      match ops[n]
      case Api(call, _, freed, now) =>
        if Allocates(call) {
          HandleAgrees(l, call, css[n], freed, now, c, t);
        } else if call.Free? {
          DeleteAgrees(l, call.pointer, freed, c, t);
        } else {
          ResizeAgrees(l, call.from, call.size, c, t);
        }
      case Check(now) =>
        FoldExpires(o, ops, css);
        ExpireAgrees(l, now, o.expire, o.memblockLimit, o.callstackLimit, c, t);
    }
  }

  lemma EmptyAgrees(c: Callstack)
    ensures Agrees(Empty<Callstack>(), c, NOTHING)
  {
  }

  lemma CountAgrees(l: LedgerModel.Ledger<Callstack>, now: int, c: Callstack, t: Tally)
    requires WellFormed(l) && Agrees(l, c, t)
    ensures Agrees(Count(l, |l.live|, now), c, t)
  {
    hide Count;
    CountKeys(l, now);
    if c in l.accounts {
      CountKeepsCounters(l, |l.live|, now, c);
      CountKeepsFreed(l, |l.live|, now, c);
    }
  }

  /** At the end of a session on the heap, with the ages counted: the ledger's account of
      every callstack, and with it the callstack's own counters, are the totals over the
      requests served. */
  lemma SessionStatistics(o: Options, ops: seq<Op<Backtrace>>, css: seq<Callstack?>, end: int, c: Callstack)
    requires Assigned(ops, css)
    ensures var l := Fold(o, ops, css).0;
            Agrees(Count(l, |l.live|, end), c, Tallied(o, ops, css, c))
  {
    hide Agrees, Fold, Tallied, Count;
    FoldAgrees(o, ops, css, c);
    FoldOk(o, ops, css);
    CountAgrees(Fold(o, ops, css).0, end, c, Tallied(o, ops, css, c));
  }

  lemma FoldOk(o: Options, ops: seq<Op<Backtrace>>, css: seq<Callstack?>)
    requires Assigned(ops, css)
    ensures WellFormed(Fold(o, ops, css).0)
  {
  }

  // ----- Where the live blocks come from

  predicate MadeBy(op: Op<Backtrace>, who: Callstack?, b: Block<Callstack>) {
    && Booking(op) && !op.call.Free? && op.now == b.create && who == b.cs
    && b.pointer != 0 && op.call.ret == b.pointer
  }

  ghost predicate Stem(ops: seq<Op<Backtrace>>, css: seq<Callstack?>, live: seq<Block<Callstack>>, ks: seq<nat>)
    requires |css| == |ops|
  {
    && |ks| == |live|
    && (forall i :: 0 <= i < |ks| ==> ks[i] < |ops| && MadeBy(ops[ks[i]], css[ks[i]], live[i]))
    && (forall i, j :: 0 <= i < j < |ks| ==> ks[i] < ks[j])
  }

  lemma DeleteStems(ops: seq<Op<Backtrace>>, css: seq<Callstack?>, l: LedgerModel.Ledger<Callstack>, p: Address,
                    time: int, ks: seq<nat>)
    returns (ls: seq<nat>)
    requires |css| == |ops| && Stem(ops, css, l.live, ks) && WellFormed(l)
    ensures WellFormed(DeleteFound(l, p, time)) && Stem(ops, css, DeleteFound(l, p, time).live, ls)
  {
    T.TrackedDeleteAny(l, p, time);
    match Find(l.live, p)
    case None => ls := ks;
    case Some(i) =>
      ls := Remove(ks, i);
      RemoveShifts(ks, i);
      RemoveShifts(l.live, i);
  }

  lemma ResizeStems(ops: seq<Op<Backtrace>>, css: seq<Callstack?>, l: LedgerModel.Ledger<Callstack>, p: Address,
                    size: nat, ks: seq<nat>)
    requires |css| == |ops| && Stem(ops, css, l.live, ks) && WellFormed(l)
    ensures Stem(ops, css, ResizeFound(l, p, size).live, ks)
  {
  }

  lemma NewStems(ops: seq<Op<Backtrace>>, css: seq<Callstack?>, l: LedgerModel.Ledger<Callstack>, ret: Address,
                 size: nat, ks: seq<nat>)
    returns (ls: seq<nat>)
    requires |css| == |ops| && ops != [] && WellFormed(l)
    requires var n := |ops| - 1;
             && Stem(ops[..n], css[..n], l.live, ks)
             && Booking(ops[n]) && !ops[n].call.Free? && ops[n].call.ret == ret && css[n] != null
    ensures Stem(ops, css, New(l, ret, size, css[|ops| - 1], ops[|ops| - 1].now).live, ls)
  {
    hide New;
    var n := |ops| - 1;
    T.NewLive(l, ret, size, css[n], ops[n].now);
    Wider(ops, css, l.live, ks);
    if ret == 0 {
      ls := ks;
    } else {
      ls := ks + [n];
      OneMoreStem(ops, css, l.live, ks, Block(ret, size, ops[n].now, css[n]));
    }
  }

  lemma OneMoreStem(ops: seq<Op<Backtrace>>, css: seq<Callstack?>, live: seq<Block<Callstack>>, ks: seq<nat>,
                    b: Block<Callstack>)
    requires |css| == |ops| && ops != [] && Stem(ops[..|ops| - 1], css[..|ops| - 1], live, ks)
    requires MadeBy(ops[|ops| - 1], css[|ops| - 1], b)
    ensures Stem(ops, css, live + [b], ks + [|ops| - 1])
  {
    hide MadeBy;
    var n := |ops| - 1;
    var ls, all := ks + [n], live + [b];
    forall i | 0 <= i < |ls|
      ensures ls[i] < |ops| && MadeBy(ops[ls[i]], css[ls[i]], all[i])
    {
      if i < |ks| {
        assert ops[..n][ks[i]] == ops[ks[i]] && css[..n][ks[i]] == css[ks[i]];
      }
    }
  }

  lemma Wider(ops: seq<Op<Backtrace>>, css: seq<Callstack?>, live: seq<Block<Callstack>>, ks: seq<nat>)
    requires |css| == |ops| && ops != [] && Stem(ops[..|ops| - 1], css[..|ops| - 1], live, ks)
    ensures Stem(ops, css, live, ks)
  {
    hide MadeBy;
    var n := |ops| - 1;
    forall i | 0 <= i < |ks|
      ensures ks[i] < |ops| && MadeBy(ops[ks[i]], css[ks[i]], live[i])
    {
      assert ops[..n][ks[i]] == ops[ks[i]] && css[..n][ks[i]] == css[ks[i]];
    }
  }

  /** Each live block was asked for by a request that was answered with its pointer; it has
      the time of that request and the callstack it was booked on; and the blocks are in
      the order of their requests. */
  lemma {:induction false} SessionOrigins(o: Options, ops: seq<Op<Backtrace>>, css: seq<Callstack?>)
    returns (ks: seq<nat>)
    requires Assigned(ops, css)
    ensures Stem(ops, css, Fold(o, ops, css).0.live, ks)
  {
    hide Stem, New, DeleteFound, ResizeFound, Booking;
    if ops == [] {
      ks := [];
      NothingStems(o);
    } else {
      var n := |ops| - 1;
      var ms := SessionOrigins(o, ops[..n], css[..n]);
      var l := Fold(o, ops[..n], css[..n]).0;
      match ops[n]
      case Check(_) =>
        FoldExpires(o, ops, css);
        Wider(ops, css, l.live, ms);
        ks := ms;
      case Api(call, _, freed, now) =>
        if Allocates(call) {
          BookingMeans(ops[n]);
          match call
          case Malloc(ret, size) => ks := NewStems(ops, css, l, ret, size, ms);
          case Calloc(ret, nmemb, size) => ks := NewStems(ops, css, l, ret, nmemb * size % WORD, ms);
          case Realloc(ret, from, size) =>
            var ls := DeleteStems(ops[..n], css[..n], l, from, freed, ms);
            ks := NewStems(ops, css, DeleteFound(l, from, freed), ret, size, ls);
        } else if call.Free? {
          var ls := DeleteStems(ops[..n], css[..n], l, call.pointer, freed, ms);
          Wider(ops, css, DeleteFound(l, call.pointer, freed).live, ls);
          ks := ls;
        } else {
          ResizeStems(ops[..n], css[..n], l, call.from, call.size, ms);
          Wider(ops, css, ResizeFound(l, call.from, call.size).live, ms);
          ks := ms;
        }
    }
  }

  lemma NothingStems(o: Options)
    ensures Stem([], [], Fold(o, [], []).0.live, [])
  {
  }

  lemma BookingMeans(op: Op<Backtrace>)
    ensures Booking(op) <==> op.Api? && Allocates(op.call)
  {
  }
}
