/** Whole monitoring sessions on the heap, from empty tables to the final report. */
module Sessions {
  import opened Basics
  import opened HashTables
  import opened LedgerModel
  import opened LedgerLaws
  import opened ExpiryLaws
  import opened TrackedMap
  import opened LedgerRuns
  import opened Callstacks
  import opened Ledger
  import opened FinalReport

  /** A backtrace, and what lies in memory behind a record that is made for it. */
  datatype Backtrace = Backtrace(ips: seq<Address>, beyond: seq<Word>)

  predicate InTime(clock: int, op: Op<Backtrace>) {
    clock <= op.now && (op.Api? ==> clock <= op.freed <= op.now)
  }

  /** The clock does not go back. */
  ghost predicate ClockOk(clock: int, ops: seq<Op<Backtrace>>, end: int)
    decreases |ops|
  {
    if ops == [] then clock <= end else InTime(clock, ops[0]) && ClockOk(ops[0].now, ops[1..], end)
  }

  /** No backtrace of the session is a proper prefix of another. */
  ghost predicate AllPrefixFree(ops: seq<Op<Backtrace>>) {
    forall i, j :: 0 <= i < |ops| && 0 <= j < |ops| && ops[i].Api? && ops[j].Api? ==>
      PrefixFree(ops[i].cs.ips, ops[j].cs.ips)
  }

  ghost predicate Requested(ops: seq<Op<Backtrace>>, ips: seq<Address>) {
    exists i :: 0 <= i < |ops| && ops[i].Api? && ops[i].cs.ips == ips
  }

  /** The table has one record for a backtrace, and only for those requested. */
  ghost predicate OnePerBacktrace(table: CallstackTable, ops: seq<Op<Backtrace>>)
    reads table
  {
    AllPrefixFree(ops) ==> table.NoTwins() && forall c :: c in table.records ==> Requested(ops, c.ips)
  }

  /** The ledger and the callstack table belong together: the ledger knows only
      callstacks of the table, and the others have not been used yet. */
  ghost predicate Together(ledger: BlockLedger, table: CallstackTable)
    reads ledger, ledger.active, ledger.expire, ledger.view.activeLinks, ledger.view.expiredLinks
    reads ledger.hash, ledger.hash.buckets, ledger.hash.nodes, ledger.view.expired, ledger.view.active
    reads ledger.view.known
    reads table, table.hash, table.hash.buckets, table.hash.nodes, table.records
  {
    && ledger.Valid() && table.Valid() && ledger.view.known <= table.records
    && forall c :: c in table.records && c !in ledger.view.known ==> c.stats == ZERO
  }

  /** The ledger and the table share nothing. */
  lemma TableApart(v: View, nodes: set<HNode<Memblock?>>, table: CallstackTable)
    ensures table !in Parts(v, nodes) && table.hash !in Parts(v, nodes) && table.hash.buckets !in Parts(v, nodes)
    ensures forall n :: n in table.hash.nodes ==> n !in Parts(v, nodes)
    ensures forall c :: c in table.records ==> c !in Parts(v, nodes)
  {
  }

  /** BlockLedger.Handle, with a frame that says less. */
  method HandleCall(ledger: BlockLedger, call: Call, cs: Callstack, freed: int, now: int)
    requires ledger.Valid() && (cs !in ledger.view.known ==> cs.stats == ZERO)
    modifies ledger, ledger.hash, ledger.hash.buckets, ledger.active, ledger.expire
    modifies Parts(ledger.view, ledger.hash.nodes), ledger.view.known, cs
    ensures ledger.Valid() && WellFormed(old(ledger.view.model))
    ensures ledger.view.model == Handle(old(ledger.view.model), call, cs, freed, now)
    ensures ledger.view.known == if Allocates(call) then old(ledger.view.known) + {cs} else old(ledger.view.known)
    ensures forall x :: x in Parts(ledger.view, ledger.hash.nodes) ==>
              x in old(Parts(ledger.view, ledger.hash.nodes)) || fresh(x)
  {
    hide Holds, Parts, Handle;
    PartsHave(ledger.view, ledger.hash.nodes);
    Opening(ledger.view, ledger.hash, ledger.active, ledger.expire);
    ledger.Handle(call, cs, freed, now);
  }

  /** A call that allocates: its callstack, then its handler. */
  method Allocate(ledger: BlockLedger, table: CallstackTable, call: Call, trace: Backtrace, freed: int, now: int)
    returns (cs: Callstack)
    requires Together(ledger, table) && Allocates(call)
    modifies ledger, ledger.hash, ledger.hash.buckets, ledger.active, ledger.expire
    modifies Parts(ledger.view, ledger.hash.nodes)
    modifies table, table.hash, table.hash.buckets, table.hash.nodes, table.records
    ensures Together(ledger, table)
    ensures WellFormed(old(ledger.view.model))
    ensures ledger.view.model == Handle(old(ledger.view.model), call, cs, freed, now)
    ensures forall x :: x in Parts(ledger.view, ledger.hash.nodes) ==>
              x in old(Parts(ledger.view, ledger.hash.nodes)) || fresh(x)
    ensures forall n :: n in table.hash.nodes && n !in old(table.hash.nodes) ==> fresh(n)
    ensures forall c :: c in table.records && c !in old(table.records) ==> fresh(c)
    ensures table.records == old(table.records) + {cs} && KeyOf(trace.ips) <= cs.hashNode.mem
    ensures old(table.PrefixFreeWith(trace.ips)) ==> cs.ips == trace.ips && (old(table.NoTwins()) ==> table.NoTwins())
  {
    hide Holds, Parts, Handle, KeyOf, Slot, WellFormed, CallstackTable.Valid, CallstackTable.NoTwins,
         CallstackTable.PrefixFreeWith;
    cs := table.Current(trace.ips, trace.beyond);
    assert ledger.Valid() && ledger.view == old(ledger.view);
    TableApart(ledger.view, ledger.hash.nodes, table);
    HandleCall(ledger, call, cs, freed, now);
    assert table.Valid();
  }

  /** A free or an in-place resize, as the ledger sees it. */
  function Released<C>(l: LedgerModel.Ledger<C>, call: Call, now: int): LedgerModel.Ledger<C>
    requires WellFormed(l)
  {
    match call
    case Free(pointer) => DeleteFound(l, pointer, now)
    case Realloc(_, from, size) => ResizeFound(l, from, size)
    case _ => l
  }

  /** The handler of a call that does not allocate, with a frame that says less. */
  method ReleaseCall(ledger: BlockLedger, call: Call, now: int)
    requires ledger.Valid() && !Allocates(call)
    modifies ledger, ledger.hash, ledger.hash.buckets, ledger.active, ledger.expire
    modifies Parts(ledger.view, ledger.hash.nodes), ledger.view.known
    ensures ledger.Valid() && ledger.view.known == old(ledger.view.known)
    ensures WellFormed(old(ledger.view.model)) && ledger.view.model == Released(old(ledger.view.model), call, now)
    ensures Parts(ledger.view, ledger.hash.nodes) <= old(Parts(ledger.view, ledger.hash.nodes))
  {
    hide Holds, Parts, DeleteFound, ResizeFound;
    PartsHave(ledger.view, ledger.hash.nodes);
    Opening(ledger.view, ledger.hash, ledger.active, ledger.expire);
    if call.Free? {
      ledger.DeletePointer(call.pointer, now);
    } else {
      ledger.ResizePointer(call.from, call.size);
      SameParts(old(ledger.view), ledger.view, ledger.hash.nodes);
    }
  }

  /** A call that does not allocate: its handler asks for no callstack. */
  method Release(ledger: BlockLedger, table: CallstackTable, call: Call, now: int)
    requires Together(ledger, table) && !Allocates(call)
    modifies ledger, ledger.hash, ledger.hash.buckets, ledger.active, ledger.expire
    modifies Parts(ledger.view, ledger.hash.nodes), ledger.view.known
    ensures Together(ledger, table)
    ensures WellFormed(old(ledger.view.model)) && ledger.view.model == Released(old(ledger.view.model), call, now)
    ensures Parts(ledger.view, ledger.hash.nodes) <= old(Parts(ledger.view, ledger.hash.nodes))
    ensures table.records == old(table.records) && table.hash.nodes == old(table.hash.nodes)
  {
    hide Holds, Parts, Released, BlockLedger.Valid, CallstackTable.Valid;
    TableApart(ledger.view, ledger.hash.nodes, table);
    ReleaseCall(ledger, call, now);
    assert table.Valid();
  }

  /** memblock_expire. */
  method Check(ledger: BlockLedger, table: CallstackTable, o: Options, now: int) returns (next: int)
    requires Together(ledger, table)
    modifies ledger, ledger.active, ledger.expire, Parts(ledger.view, ledger.hash.nodes), ledger.view.known
    ensures Together(ledger, table)
    ensures WellFormed(old(ledger.view.model))
    ensures (ledger.view.model, next) ==
            Expire(old(ledger.view.model), now, o.expire, o.memblockLimit, o.callstackLimit)
    ensures Parts(ledger.view, ledger.hash.nodes) <= old(Parts(ledger.view, ledger.hash.nodes))
    ensures table.records == old(table.records) && table.hash.nodes == old(table.hash.nodes)
  {
    hide Holds, Parts, Expire, CallstackTable.Valid;
    PartsHave(ledger.view, ledger.hash.nodes);
    TableApart(ledger.view, ledger.hash.nodes, table);
    Opening(ledger.view, ledger.hash, ledger.active, ledger.expire);
    next := ledger.Expire(now, o.expire, o.memblockLimit, o.callstackLimit);
    assert table.Valid();
  }

  // ----- What a session does

  predicate Booking(op: Op<Backtrace>) {
    op.Api? && Allocates(op.call)
  }

  /** What a request does to the ledger, and whether it ends the session. A request that
      allocates is booked on the callstack `who`. */
  function Stepped(o: Options, l: LedgerModel.Ledger<Callstack>, op: Op<Backtrace>, who: Callstack?)
    : (r: (LedgerModel.Ledger<Callstack>, bool))
    requires WellFormed(l) && (Booking(op) ==> who != null)
    ensures WellFormed(r.0)
  {
    match op
    case Api(call, _, freed, now) =>
      if Allocates(call) then
        HandleWellFormed(l, call, who, freed, now);
        (Handle(l, call, who, freed, now), false)
      else
        ReleasedWellFormed(l, call, freed);
        (Released(l, call, freed), false)
    case Check(now) =>
      var (m, next) := Expire(l, now, o.expire, o.memblockLimit, o.callstackLimit);
      (m, next < 0)
  }

  lemma HandleWellFormed<C>(l: LedgerModel.Ledger<C>, call: Call, cs: C, freed: int, now: int)
    requires WellFormed(l)
    ensures WellFormed(Handle(l, call, cs, freed, now))
  {
    match call
    case Malloc(ret, size) => TrackedNewAny(l, ret, size, cs, now);
    case Free(p) => TrackedDeleteAny(l, p, freed);
    case Realloc(ret, from, size) =>
      TrackedDeleteAny(l, from, freed);
      TrackedNewAny(DeleteFound(l, from, freed), ret, size, cs, now);
    case Calloc(ret, nmemb, size) => TrackedNewAny(l, ret, nmemb * size % WORD, cs, now);
  }

  lemma ReleasedWellFormed<C>(l: LedgerModel.Ledger<C>, call: Call, freed: int)
    requires WellFormed(l)
    ensures WellFormed(Released(l, call, freed))
  {
    if call.Free? {
      TrackedDeleteAny(l, call.pointer, freed);
    }
  }

  /** Every request that allocates has a callstack. */
  ghost predicate Assigned(ops: seq<Op<Backtrace>>, css: seq<Callstack?>) {
    |css| == |ops| && forall i :: 0 <= i < |ops| && Booking(ops[i]) ==> css[i] != null
  }

  /** The ledger after the requests, and whether the last of them ended the session. */
  ghost function Fold(o: Options, ops: seq<Op<Backtrace>>, css: seq<Callstack?>)
    : (r: (LedgerModel.Ledger<Callstack>, bool))
    requires Assigned(ops, css)
    ensures WellFormed(r.0)
  {
    if ops == [] then (Empty(), false)
    else
      var n := |ops| - 1;
      Stepped(o, Fold(o, ops[..n], css[..n]).0, ops[n], css[n])
  }

  lemma FoldOneMore(o: Options, ops: seq<Op<Backtrace>>, css: seq<Callstack?>, op: Op<Backtrace>, who: Callstack?)
    requires Assigned(ops, css) && (Booking(op) ==> who != null)
    ensures Assigned(ops + [op], css + [who])
    ensures Fold(o, ops + [op], css + [who]) == Stepped(o, Fold(o, ops, css).0, op, who)
  {
    hide Stepped;
    assert (ops + [op])[..|ops|] == ops && (css + [who])[..|css|] == css;
  }

  /** The session went on after each of the requests before the last. */
  ghost predicate WentOn(o: Options, ops: seq<Op<Backtrace>>, css: seq<Callstack?>)
    requires Assigned(ops, css)
  {
    forall k :: 0 <= k < |ops| ==> !Fold(o, ops[..k], css[..k]).1
  }

  lemma StillGoesOn(o: Options, ops: seq<Op<Backtrace>>, css: seq<Callstack?>, op: Op<Backtrace>, who: Callstack?)
    requires Assigned(ops, css) && WentOn(o, ops, css) && !Fold(o, ops, css).1 && (Booking(op) ==> who != null)
    ensures Assigned(ops + [op], css + [who]) && WentOn(o, ops + [op], css + [who])
  {
    hide Fold;
    var a, b := ops + [op], css + [who];
    assert Assigned(a, b);
    forall k | 0 <= k < |a|
      ensures !Fold(o, a[..k], b[..k]).1
    {
      assert a[..k] == ops[..k] && b[..k] == css[..k];
      assert ops[..|ops|] == ops && css[..|css|] == css;
    }
  }

  /** Each request that allocates was booked on a record of the table that matches its
      backtrace, and has that backtrace if none is a proper prefix of another. */
  ghost predicate Booked(table: CallstackTable, ops: seq<Op<Backtrace>>, css: seq<Callstack?>)
    reads table
  {
    && Assigned(ops, css)
    && (forall i :: 0 <= i < |ops| && Booking(ops[i]) ==>
          css[i] in table.records && KeyOf(ops[i].cs.ips) <= css[i].hashNode.mem)
    && (AllPrefixFree(ops) ==> forall i :: 0 <= i < |ops| && Booking(ops[i]) ==> css[i].ips == ops[i].cs.ips)
  }

  lemma OneMoreBooked(table: CallstackTable, before: set<Callstack>, ops: seq<Op<Backtrace>>, css: seq<Callstack?>,
                      op: Op<Backtrace>, who: Callstack?)
    requires Assigned(ops, css) && before <= table.records
    requires forall i :: 0 <= i < |ops| && Booking(ops[i]) ==>
               css[i] in before && KeyOf(ops[i].cs.ips) <= css[i].hashNode.mem
    requires AllPrefixFree(ops) ==> forall i :: 0 <= i < |ops| && Booking(ops[i]) ==> css[i].ips == ops[i].cs.ips
    requires Booking(op) ==> who in table.records && KeyOf(op.cs.ips) <= who.hashNode.mem
    requires Booking(op) && AllPrefixFree(ops + [op]) ==> who.ips == op.cs.ips
    ensures Booked(table, ops + [op], css + [who])
  {
    hide AllPrefixFree, Booking, KeyOf;
    var a, b := ops + [op], css + [who];
    assert forall i :: 0 <= i < |ops| ==> a[i] == ops[i] && b[i] == css[i];
    if AllPrefixFree(a) {
      FewerPrefixFree(ops, op);
    }
  }

  // ----- What a session keeps, step by step

  /** After the requests `done` the ledger is in order, and if they were tame it tracks
      what a plain map would. */
  ghost predicate Progress<C>(o: Options, done: seq<Op<Backtrace>>, l: LedgerModel.Ledger<C>, clock: int,
                              stopped: bool) {
    && SessionOk(o, Session(l, clock, stopped))
    && (TameAll(map[], done) ==> NoRepeats(l.live) && Tracked(l.live) == ReplayAll(map[], done))
  }

  lemma AllocateProgress<C>(o: Options, done: seq<Op<Backtrace>>, l: LedgerModel.Ledger<C>, clock: int,
                            op: Op<Backtrace>, cs: C)
    requires Positive(o) && Progress(o, done, l, clock, false) && op.Api? && InTime(clock, op)
    ensures WellFormed(l) && Progress(o, done + [op], Handle(l, op.call, cs, op.freed, op.now), op.now, false)
  {
    hide SessionOk, Handle, Replay, Tame, Tracked, NoRepeats, TameAll, ReplayAll;
    var s := Session(l, clock, false);
    SessionFacts(o, s);
    StepOk(o, s, Api(op.call, cs, op.freed, op.now));
    ReplayOneMore(map[], done, op);
    if TameAll(map[], done + [op]) {
      HandleReplays(l, op.call, cs, op.freed, op.now);
    }
  }

  lemma ReleaseProgress<C>(o: Options, done: seq<Op<Backtrace>>, l: LedgerModel.Ledger<C>, clock: int,
                           op: Op<Backtrace>)
    requires Positive(o) && Progress(o, done, l, clock, false) && op.Api? && !Allocates(op.call) && InTime(clock, op)
    ensures WellFormed(l) && Progress(o, done + [op], Released(l, op.call, op.freed), op.now, false)
  {
    hide SessionOk, DeleteFound, ResizeFound, Tame, Tracked, NoRepeats, TameAll, ReplayAll;
    var s := Session(l, clock, false);
    SessionFacts(o, s);
    ReplayOneMore(map[], done, op);
    if op.call.Free? {
      DeleteFoundOk(o, s, op.call.pointer, op.freed, op.now);
    } else {
      ResizeFoundOk(o, s, op.call.from, op.call.size, op.now);
    }
    if TameAll(map[], done + [op]) {
      if op.call.Free? {
        TrackedDeleteFound(l, op.call.pointer, op.freed);
      } else {
        TrackedResizeFound(l, op.call.from, op.call.size);
      }
    }
  }

  lemma CheckProgress<C>(o: Options, done: seq<Op<Backtrace>>, l: LedgerModel.Ledger<C>, clock: int, op: Op<Backtrace>)
    requires Positive(o) && Progress(o, done, l, clock, false) && op.Check? && clock <= op.now
    ensures WellFormed(l)
    ensures var (r, next) := Expire(l, op.now, o.expire, o.memblockLimit, o.callstackLimit);
            Progress(o, done + [op], r, op.now, next < 0)
  {
    hide SessionOk, Tame, Tracked, NoRepeats, TameAll, ReplayAll;
    var s := Session(l, clock, false);
    SessionFacts(o, s);
    StepOk(o, s, LedgerRuns.Check(op.now));
    ReplayOneMore(map[], done, op);
  }

  lemma ProgressLimits<C>(o: Options, done: seq<Op<Backtrace>>, l: LedgerModel.Ledger<C>, clock: int, stopped: bool)
    requires Progress(o, done, l, clock, stopped)
    ensures stopped <==> !Within(l, o.memblockLimit, o.callstackLimit)
  {
    hide SessionOk, TameAll, ReplayAll, Tracked, NoRepeats;
    SessionFacts(o, Session(l, clock, stopped));
  }

  /** One more request leaves one record per backtrace: a new record, if any, has the
      backtrace of the request. */
  lemma StillOnePer(done: seq<Op<Backtrace>>, op: Op<Backtrace>, before: set<Callstack>, after: set<Callstack>)
    requires AllPrefixFree(done + [op]) && op.Api?
    requires forall c :: c in before ==> Requested(done, c.ips)
    requires forall c :: c in after ==> c in before || c.ips == op.cs.ips
    ensures AllPrefixFree(done)
    ensures forall c :: c in before ==> PrefixFree(op.cs.ips, c.ips)
    ensures forall c :: c in after ==> Requested(done + [op], c.ips)
  {
    var all := done + [op];
    assert forall i :: 0 <= i < |done| ==> all[i] == done[i];
    assert all[|done|] == op;
    forall c | c in before
      ensures PrefixFree(op.cs.ips, c.ips) && Requested(all, c.ips)
    {
      var i :| 0 <= i < |done| && done[i].Api? && done[i].cs.ips == c.ips;
      assert all[i].cs.ips == c.ips;
    }
  }

  lemma FewerPrefixFree(done: seq<Op<Backtrace>>, op: Op<Backtrace>)
    requires AllPrefixFree(done + [op])
    ensures AllPrefixFree(done)
    ensures forall ips :: Requested(done, ips) ==> Requested(done + [op], ips)
  {
    var all := done + [op];
    assert forall i :: 0 <= i < |done| ==> all[i] == done[i];
  }

  lemma StartProgress(o: Options, clock: int)
    requires Positive(o)
    ensures Progress(o, [], Empty<Callstack>(), clock, false)
  {
    hide SessionOk;
    var s := Start<Callstack>(o, clock);
    assert s == Session(Empty(), clock, false);
  }

  /** One request: a handler with what it calls, or an expiry check. */
  method Serve(ledger: BlockLedger, table: CallstackTable, o: Options, op: Op<Backtrace>,
               ghost done: seq<Op<Backtrace>>, ghost clock: int)
    returns (stop: bool, ghost who: Callstack?)
    requires Together(ledger, table) && Positive(o) && InTime(clock, op)
    requires Progress(o, done, ledger.view.model, clock, false) && OnePerBacktrace(table, done)
    modifies ledger, ledger.hash, ledger.hash.buckets, ledger.active, ledger.expire
    modifies Parts(ledger.view, ledger.hash.nodes)
    modifies table, table.hash, table.hash.buckets, table.hash.nodes, table.records
    ensures Together(ledger, table) && WellFormed(old(ledger.view.model))
    ensures Booking(op) ==> who != null && who in table.records && KeyOf(op.cs.ips) <= who.hashNode.mem
    ensures Booking(op) && AllPrefixFree(done + [op]) ==> who.ips == op.cs.ips
    ensures (ledger.view.model, stop) == Stepped(o, old(ledger.view.model), op, who)
    ensures stop <==> op.Check? && !Within(ledger.view.model, o.memblockLimit, o.callstackLimit)
    ensures old(table.records) <= table.records
    ensures Progress(o, done + [op], ledger.view.model, op.now, stop) && OnePerBacktrace(table, done + [op])
    ensures forall x :: x in Parts(ledger.view, ledger.hash.nodes) ==>
              x in old(Parts(ledger.view, ledger.hash.nodes)) || fresh(x)
    ensures forall n :: n in table.hash.nodes && n !in old(table.hash.nodes) ==> fresh(n)
    ensures forall c :: c in table.records && c !in old(table.records) ==> fresh(c)
  {
    hide Holds, Parts, Handle, Released, Expire, Progress, Within, BlockLedger.Valid, CallstackTable.Valid,
         AllPrefixFree, Requested, KeyOf;
    ghost var l, before := ledger.view.model, table.records;
    if AllPrefixFree(done + [op]) {
      FewerPrefixFree(done, op);
      if op.Api? {
        StillOnePer(done, op, before, before);
      }
    }
    stop, who := false, null;
    match op {
      case Api(call, trace, freed, now) =>
        if Allocates(call) {
          var cs := Allocate(ledger, table, call, trace, freed, now);
          who := cs;
          AllocateProgress(o, done, l, clock, op, cs);
          if AllPrefixFree(done + [op]) {
            StillOnePer(done, op, before, table.records);
          }
        } else {
          ReleaseProgress(o, done, l, clock, op);
          Release(ledger, table, call, freed);
        }
      case Check(now) =>
        CheckProgress(o, done, l, clock, op);
        var next := Check(ledger, table, o, now);
        stop := next < 0;
    }
    ProgressLimits(o, done + [op], ledger.view.model, op.now, stop);
  }

  /** The real counters of a callstack are those that its account in the ledger says. */
  ghost predicate BooksAgree(ledger: BlockLedger)
    reads ledger, ledger.view.known
  {
    var l := ledger.view.model;
    && l.split <= |l.live|
    && l.accounts.Keys == ledger.view.known
    && forall c :: c in ledger.view.known ==> l.accounts[c].stats == c.stats && Balanced(l, c)
  }

  /** A whole session: two empty tables, requests until the last one or until a limit is
      reached, and the final report. The ledger at the end is what the requests served
      make of an empty one, step by step, with the ages counted; the session stops at the
      first request that says so; and each block is booked on the record of its own
      backtrace. It stops if and only if the last request was an expiry check and a limit
      is reached: some callstack has expired as many blocks as it may, or one callstack
      too many has expired any. At the end the report is right for the blocks in the
      ledger; the counters of every callstack balance with them, and callstacks without
      an account have never been used; the limits hold; if no backtrace is a proper prefix
      of another, there is one record for each; and if the requests that were served are
      tame, the tracked blocks are those of a plain map. */
  method RunSession(o: Options, requests: seq<Op<Backtrace>>, begin: int, end: int)
    returns (ledger: BlockLedger, table: CallstackTable, list: seq<Callstack>, served: nat, stopped: bool,
             ghost css: seq<Callstack?>)
    requires Positive(o) && ClockOk(begin, requests, end)
    ensures ledger.Valid() && table.Valid() && served <= |requests| && (!stopped ==> served == |requests|)
    ensures Booked(table, requests[..served], css) && WentOn(o, requests[..served], css)
    ensures stopped == Fold(o, requests[..served], css).1
    ensures var l := Fold(o, requests[..served], css).0; ledger.view.model == Count(l, |l.live|, end)
    ensures Right(list, ledger.view.model, end) && BooksAgree(ledger)
    ensures forall c :: c in table.records && c !in ledger.view.known ==> c.stats == ZERO
    ensures stopped <==> !Within(ledger.view.model, o.memblockLimit, o.callstackLimit)
    ensures stopped ==> served > 0 && requests[served - 1].Check?
    ensures LimitsOk(o, Session(ledger.view.model, end, stopped)) && OnePerBacktrace(table, requests[..served])
    ensures TameAll(map[], requests[..served]) ==>
              Tracked(ledger.view.model.live) == ReplayAll(map[], requests[..served])
  {
    hide Holds, Parts, Progress, BlockLedger.Valid, CallstackTable.Valid, Right, LimitsOk, Fold, Stepped, WentOn,
         Assigned, Booking, AllPrefixFree, Count, KeyOf, Within;
    ledger := new BlockLedger();
    table := new CallstackTable();
    StartProgress(o, begin);
    served, stopped, css := 0, false, [];
    ghost var clock := begin;
    NothingYet(o, table);
    while served < |requests| && !stopped
      invariant served <= |requests| && Together(ledger, table) && ClockOk(clock, requests[served..], end)
      invariant Progress(o, requests[..served], ledger.view.model, clock, stopped)
      invariant OnePerBacktrace(table, requests[..served])
      invariant stopped ==> served > 0 && requests[served - 1].Check?
      invariant Booked(table, requests[..served], css) && WentOn(o, requests[..served], css)
      invariant (ledger.view.model, stopped) == Fold(o, requests[..served], css)
      invariant fresh(ledger) && fresh(ledger.hash) && fresh(ledger.hash.buckets) && fresh(ledger.active)
      invariant fresh(ledger.expire)
      invariant fresh(table) && fresh(table.hash) && fresh(table.hash.buckets)
      invariant forall x :: x in Parts(ledger.view, ledger.hash.nodes) ==> fresh(x)
      invariant forall n :: n in table.hash.nodes ==> fresh(n)
      invariant forall c :: c in table.records ==> fresh(c)
    {
      var op := requests[served];
      assert requests[..served + 1] == requests[..served] + [op];
      assert requests[served..][1..] == requests[served + 1..];
      ghost var done, before, who := requests[..served], table.records, null;
      stopped, who := Serve(ledger, table, o, op, done, clock);
      FoldOneMore(o, done, css, op, who);
      StillGoesOn(o, done, css, op, who);
      OneMoreBooked(table, before, done, css, op, who);
      css := css + [who];
      clock := op.now;
      served := served + 1;
    }
    ClockEnds(clock, requests[served..], end);
    list := Conclude(ledger, table, o, requests[..served], clock, end, stopped);
  }

  lemma NothingYet(o: Options, table: CallstackTable)
    ensures Booked(table, [], []) && WentOn(o, [], []) && Fold(o, [], []) == (Empty(), false)
  {
  }

  lemma {:induction false} ClockEnds(clock: int, ops: seq<Op<Backtrace>>, end: int)
    requires ClockOk(clock, ops, end)
    ensures clock <= end
    decreases |ops|
  {
    if ops != [] {
      ClockEnds(ops[0].now, ops[1..], end);
    }
  }

  /** The final report of a session. */
  method Conclude(ledger: BlockLedger, table: CallstackTable, ghost o: Options, ghost done: seq<Op<Backtrace>>,
                  ghost clock: int, end: int, ghost stopped: bool)
    returns (list: seq<Callstack>)
    requires Together(ledger, table) && Progress(o, done, ledger.view.model, clock, stopped) && clock <= end
    modifies ledger`view, ledger.view.known`stats
    ensures Together(ledger, table)
    ensures Right(list, ledger.view.model, end) && BooksAgree(ledger)
    ensures WellFormed(old(ledger.view.model))
    ensures ledger.view.model == Count(old(ledger.view.model), |old(ledger.view.model).live|, end)
    ensures LimitsOk(o, Session(ledger.view.model, end, stopped))
    ensures stopped <==> !Within(ledger.view.model, o.memblockLimit, o.callstackLimit)
    ensures TameAll(map[], done) ==> Tracked(ledger.view.model.live) == ReplayAll(map[], done)
  {
    hide Holds, SessionOk, CallstackTable.Valid, Balanced, Tracked, NoRepeats, TameAll, ReplayAll, Right, Count, Inv,
         Uncounted, LimitsOk, Within;
    ghost var l := ledger.view.model;
    SessionFacts(o, Session(l, clock, stopped));
    KnownFacts(ledger.view, ledger.hash, ledger.active, ledger.expire);
    UncountedFacts(l);
    list := Report(ledger, table, end, clock);
    KnownFacts(ledger.view, ledger.hash, ledger.active, ledger.expire);
    SameReport(list, l, end);
    CountKeepsLimits(o, Session(l, clock, stopped), end);
    LimitsMean(o, Session(ledger.view.model, end, stopped));
    forall c | c in ledger.view.known
      ensures Balanced(ledger.view.model, c)
    {
      InvBalanced(l, clock, c);
      CountKeepsBalance(l, end, c);
    }
  }

  lemma LimitsMean<C>(o: Options, s: Session<C>)
    requires LimitsOk(o, s)
    ensures s.stopped <==> !Within(s.ledger, o.memblockLimit, o.callstackLimit)
  {
  }

  lemma CountKeepsLimits<C>(o: Options, s: Session<C>, now: int)
    requires WellFormed(s.ledger) && LimitsOk(o, s)
    ensures LimitsOk(o, Session(Count(s.ledger, |s.ledger.live|, now), now, s.stopped))
  {
    hide Count;
    var l := s.ledger;
    var r := Count(l, |l.live|, now);
    CountKeys(l, now);
    forall c | c in l.accounts
      ensures r.accounts[c].stats.expiredCount == l.accounts[c].stats.expiredCount
    {
      CountKeepsCounters(l, |l.live|, now, c);
    }
    SameExpirations(l.byId, l.accounts, r.accounts);
  }

  lemma CountKeys<C>(l: LedgerModel.Ledger<C>, now: int)
    requires WellFormed(l)
    ensures var r := Count(l, |l.live|, now); r.byId == l.byId && r.accounts.Keys == l.accounts.Keys
  {
  }

  lemma {:induction false} SameExpirations<C>(ids: seq<C>, a: map<C, Account>, b: map<C, Account>)
    requires forall i :: 0 <= i < |ids| ==> ids[i] in a && ids[i] in b
    requires forall i :: 0 <= i < |ids| ==> a[ids[i]].stats.expiredCount == b[ids[i]].stats.expiredCount
    ensures Expirations(ids, a) == Expirations(ids, b)
  {
    if ids != [] {
      SameExpirations(ids[..|ids| - 1], a, b);
    }
  }

  lemma UncountedFacts<C>(l: LedgerModel.Ledger<C>)
    requires Uncounted(l)
    ensures forall c :: c in l.accounts ==> l.accounts[c].stats.unfreeMax == 0
  {
  }

  lemma InvBalanced<C>(l: LedgerModel.Ledger<C>, clock: int, c: C)
    requires Inv(l, clock) && c in l.accounts
    ensures WellFormed(l) && Balanced(l, c)
  {
  }

  /** The report is about blocks and their owners, which the count does not change. */
  lemma SameReport(list: seq<Callstack>, l: LedgerModel.Ledger<Callstack>, now: int)
    requires WellFormed(l) && Right(list, l, now)
    ensures Right(list, Count(l, |l.live|, now), now)
    ensures Count(l, |l.live|, now).live == l.live
  {
  }
}
