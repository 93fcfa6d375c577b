/** The tracer: breakpoint table, event loop and clean-up. Each method is proved
    against the protocol machine of module `Protocol`. */
module Monitor {
  import opened Basics
  import opened TargetText
  import opened Protocol
  import opened ProtocolRuns

  datatype Breakpoint = Breakpoint(entryAddress: nat, entryCode: bv64)

  datatype Reason = NotEnoughMemory | UnknownBreakpoint | TooManyLeaks

  const HOLD_MAX := 1000

  /** What the symbol table may answer: 0 for a missing API, otherwise a mapped
      address, and the words at two found addresses do not overlap. */
  ghost predicate SymbolsOk(text: Text, symbols: seq<nat>) {
    && |symbols| == 4
    && (forall i :: 0 <= i < 4 ==> symbols[i] + 8 <= |text|)
    && (forall i, j :: 0 <= i < j < 4 && symbols[i] != 0 && symbols[j] != 0 ==> Apart(symbols[i], symbols[j]))
  }

  /** The first `k` symbols, as a set. */
  ghost function FirstOf(symbols: seq<nat>, k: nat): set<nat>
    requires k <= |symbols|
  {
    set i | 0 <= i < k :: symbols[i]
  }

  /** One more API found: its word is still original, and patching it adds one trap. */
  lemma PatchNext(orig: Text, symbols: seq<nat>, k: nat)
    requires SymbolsOk(orig, symbols) && k < 4 && forall i :: 0 <= i <= k ==> symbols[i] != 0
    ensures var x := FirstOf(symbols, k);
            && Peek(Patched(orig, x), symbols[k]) == Peek(orig, symbols[k])
            && Poke(Patched(orig, x), symbols[k], TrapWord(Peek(orig, symbols[k])))
               == Patched(orig, FirstOf(symbols, k + 1))
  {
    var x := FirstOf(symbols, k);
    assert AloneInWord(x, symbols[k]) && symbols[k] !in x by {
      assert forall i :: 0 <= i < k ==> Apart(symbols[i], symbols[k]);
    }
    PeekUnpatched(orig, x, symbols[k]);
    SetTrap(orig, x, symbols[k]);
    assert x + {symbols[k]} == FirstOf(symbols, k + 1);
  }

  /** The texts through which a step from pending call `p` to `q` may pass. */
  ghost predicate Transient(tg: Target, p: Option<Call>, q: Option<Call>, t: Text) {
    exists x :: x <= EntrySet(tg) + Traps(tg, p) + Traps(tg, q) && t == Patched(tg.orig, x)
  }

  /** A thread that runs into a trap while the tracer is rewriting the text does
      what the protocol lets it do before or after that rewriting. */
  lemma TransientTrapIsEnabled(tg: Target, s: State, e: Event, t: Tid, text: Text)
    requires Inv(tg, s) && Enabled(tg, s, e) && e.Deliver? && e.t != t && !Owns(s, t)
    requires Transient(tg, s.pending, Next(tg, s, e).pending, text) && !Next(tg, s, e).done
    requires IsRunning(s, t) && IsRunning(Next(tg, s, e), t) && Next(tg, s, e).threads[t] == s.threads[t]
    requires var pc := s.threads[t].pc;
             && pc < |tg.orig| && text[pc] == TRAP && tg.orig[pc] != TRAP
             && (pc in EntrySet(tg) ==> GoodReturn(tg, s.threads[t].ret))
    ensures Enabled(tg, s, Trap(t)) || Enabled(tg, Next(tg, s, e), Trap(t))
  {
    var f := Next(tg, s, e);
    var x :| x <= EntrySet(tg) + Traps(tg, s.pending) + Traps(tg, f.pending) && text == Patched(tg.orig, x);
    assert s.threads[t].pc in x;
  }

  /** What a trap of a running thread changes. */
  function Trapping(s: State, t: Tid): State
    requires t in s.threads
  {
    SetThread(s, t, s.threads[t].(pc := s.threads[t].pc + 1, status := Trapped))
  }

  lemma WakeAndTrapCommute(s: State, t: Tid)
    requires t in s.threads && t !in s.held && forall h :: h in s.held ==> h in s.threads
    ensures t in WakeOne(s).threads && Trapping(WakeOne(s), t) == WakeOne(Trapping(s, t))
  {
    WakeCommutes(s, t, s.threads[t].(pc := s.threads[t].pc + 1, status := Trapped));
  }

  lemma ResumeAndTrapCommute(s: State, u: Tid, t: Tid, next: int)
    requires u in s.threads && t in s.threads && u != t
    ensures t in Resume(s, u, next).threads
    ensures Trapping(Resume(s, u, next), t) == Resume(Trapping(s, t), u, next)
  {
    assert Trapping(Resume(s, u, next), t).threads == Resume(Trapping(s, t), u, next).threads;
  }

  lemma OnTrapAndTrapCommute(tg: Target, s: State, u: Tid, t: Tid, fails: bool, next: int)
    requires u in s.threads && t in s.threads && u != t && t !in s.held && u !in s.held
    requires forall h :: h in s.held ==> h in s.threads
    ensures t in OnTrap(tg, s, u, fails, next).threads
    ensures Trapping(OnTrap(tg, s, u, fails, next), t) == OnTrap(tg, Trapping(s, t), u, fails, next)
  {
    hide EntryIndex, WakeOne, Resume;
    var th := s.threads[u];
    if s.pending.Some? && s.pending.value.owner != u {
      assert Trapping(OnTrap(tg, s, u, fails, next), t).threads == OnTrap(tg, Trapping(s, t), u, fails, next).threads;
    } else if s.pending.Some? && s.pending.value.ret == th.pc {
      if !fails {
        var r := AfterReturn(s, u);
        WakeAndTrapCommute(r, t);
        WakeCommutes(r, u, r.threads[u]);
        ResumeAndTrapCommute(WakeOne(r), u, t, next);
      }
    } else {
      match EntryIndex(tg, th.pc)
      case Some(i) =>
        var r := Note(s, Entered(u, i, th.ret, th.rdi, th.rsi)).(pending := Some(Call(u, i, th.ret, th.rdi, th.rsi)));
        ResumeAndTrapCommute(r, u, t, next);
      case None =>
        ResumeAndTrapCommute(Note(s, Stale(u, th.pc)), u, t, next);
    }
  }

  /** Where the protocol lets the trap come before the step, it may as well come after:
      the trap of one thread and the delivery of another's lead to the same state in
      either order. So it does not matter at which of the tracer's writes it is hit. */
  lemma TrapCommutes(tg: Target, s: State, e: Event, t: Tid)
    requires Inv(tg, s) && e.Deliver? && e.t != t && Enabled(tg, s, e) && Enabled(tg, s, Trap(t))
    ensures Inv(tg, Next(tg, s, Trap(t))) && Enabled(tg, Next(tg, s, Trap(t)), e)
    ensures t in Next(tg, s, e).threads
    ensures Next(tg, Next(tg, s, Trap(t)), e) == Trapping(Next(tg, s, e), t)
    ensures Enabled(tg, Next(tg, s, e), Trap(t)) ==>
              Inv(tg, Next(tg, s, e)) && Next(tg, Next(tg, s, e), Trap(t)) == Next(tg, Next(tg, s, Trap(t)), e)
  {
    hide OnTrap, Inv, TextOf, GoodReturn, EntrySet, MidStep;
    InvStep(tg, s, Trap(t));
    InvStep(tg, s, e);
    UnwoundIsMidStep(tg, s, e.t);
    var u := Unwound(s, e.t);
    MidStepFacts(tg, u, e.t);
    NotHeld(tg, s, t);
    OnTrapAndTrapCommute(tg, u, e.t, t, e.handlerFails, e.next);
    assert Unwound(Trapping(s, t), e.t).threads == Trapping(u, t).threads;
  }

  lemma NotHeld(tg: Target, s: State, t: Tid)
    requires Inv(tg, s) && IsRunning(s, t)
    ensures t !in s.held
  {
  }

  /** A thread without a pending call may run over any byte, whatever the text is at that
      moment: the protocol does not ask whether the byte is patched. */
  lemma TransientStepIsEnabled(tg: Target, s: State, t: Tid, th: Thread)
    requires !s.done && IsRunning(s, t) && !Owns(s, t) && th.status == Running
    ensures Enabled(tg, s, Execute(t, th))
  {
  }

  /** Every trap is at an entry or at a return address. */
  ghost predicate SaneTraps(tg: Target, x: set<nat>) {
    WellFormed(tg) && forall a :: a in x ==> a in EntrySet(tg) || GoodReturn(tg, a)
  }

  lemma EntryAlone(tg: Target, x: set<nat>, i: nat)
    requires SaneTraps(tg, x) && i < 4
    ensures AloneInWord(x, tg.entries[i])
  {
  }

  lemma ReturnAlone(tg: Target, x: set<nat>, ra: nat)
    requires x <= EntrySet(tg) + {ra} && GoodReturn(tg, ra)
    ensures AloneInWord(x, ra) && ra !in EntrySet(tg)
  {
  }

  lemma TrapsWhilePending(tg: Target, c: Call)
    requires WellFormed(tg) && c.bp < 4 && GoodReturn(tg, c.ret)
    ensures c.ret !in EntrySet(tg) && tg.entries[c.bp] in EntrySet(tg)
    ensures Traps(tg, Some(c)) == EntrySet(tg) - {tg.entries[c.bp]} + {c.ret}
    ensures Traps(tg, Some(c)) - {c.ret} == EntrySet(tg) - {tg.entries[c.bp]}
    ensures Traps(tg, Some(c)) - {c.ret} + {tg.entries[c.bp]} == EntrySet(tg)
  {
    assert c.ret !in EntrySet(tg) by { assert forall i :: 0 <= i < 4 ==> Apart(c.ret, tg.entries[i]); }
  }

  /** The entries that the clean-up writes when its first `missed` writes fail. */
  ghost function Rewritten(entries: seq<nat>, missed: nat, k: nat): set<nat>
    requires k <= |entries|
  {
    set i | missed <= i < k :: entries[i]
  }

  /** The traps that are left when the first `missed` of the clean-up's five writes fail:
      the entries in their order, then the return address. */
  ghost function Unrestored(tg: Target, p: Option<Call>, missed: nat): set<nat> {
    Traps(tg, p) - Rewritten(tg.entries, missed, |tg.entries|) - (if missed <= 4 && p.Some? then {p.value.ret} else {})
  }

  lemma PendingFacts(tg: Target, s: State)
    requires Inv(tg, s)
    ensures SaneTraps(tg, Traps(tg, s.pending)) && WellFormed(tg)
    ensures s.pending.Some? ==> Traps(tg, s.pending) <= EntrySet(tg) + {s.pending.value.ret}
    ensures s.pending.Some? ==> s.pending.value.bp < 4 && GoodReturn(tg, s.pending.value.ret)
  {
    if s.pending.Some? {
      TrapsWhilePending(tg, s.pending.value);
    }
  }

  /** All traps are gone if and only if no write failed, or only the first one did and
      there was no trap at the first entry because a call of it was pending. */
  lemma RestoredIff(tg: Target, s: State, missed: nat)
    requires Inv(tg, s) && forall i :: 0 <= i < |tg.entries| ==> tg.orig[tg.entries[i]] != TRAP
    ensures Patched(tg.orig, Unrestored(tg, s.pending, missed)) == tg.orig <==>
            missed == 0 || (missed == 1 && s.pending.Some? && s.pending.value.bp == 0)
  {
    hide Inv, Patched, Traps, EntrySet;
    var p, x := s.pending, Unrestored(tg, s.pending, missed);
    PendingFacts(tg, s);
    EntriesTrapped(tg, p);
    TrapsShow(tg.orig, x);
    if missed > 1 {
      var i := if p.Some? && p.value.bp == 0 then 1 else 0;
      assert tg.entries[i] in x;
    } else if missed == 1 && !(p.Some? && p.value.bp == 0) {
      assert tg.entries[0] in x;
    } else {
      forall a | a in Traps(tg, p)
        ensures a !in x
      {
        if !(p.Some? && a == p.value.ret) {
          var i :| 0 <= i < 4 && a == tg.entries[i] && (p.Some? ==> i != p.value.bp);
          assert missed <= i;
          assert a in Rewritten(tg.entries, missed, 4);
        }
      }
    }
  }

  /** Which entries are trapped at a wait point. */
  lemma EntriesTrapped(tg: Target, p: Option<Call>)
    requires WellFormed(tg) && (p.Some? ==> p.value.bp < 4 && GoodReturn(tg, p.value.ret))
    ensures forall a :: a in Traps(tg, p) <==>
              || (p.Some? && a == p.value.ret)
              || exists i :: 0 <= i < 4 && a == tg.entries[i] && (p.Some? ==> i != p.value.bp)
    ensures forall i, j :: 0 <= i < j < 4 ==> tg.entries[i] != tg.entries[j]
    ensures forall i :: 0 <= i < 4 && p.Some? ==> tg.entries[i] != p.value.ret
    ensures p.Some? ==> p.value.ret < |tg.orig| && tg.orig[p.value.ret] != TRAP
  {
    assert forall i, j :: 0 <= i < j < 4 ==> Apart(tg.entries[i], tg.entries[j]);
    if p.Some? {
      TrapsWhilePending(tg, p.value);
      forall i | 0 <= i < 4 && i != p.value.bp
        ensures tg.entries[i] in Traps(tg, p)
      {
        assert tg.entries[i] in EntrySet(tg);
      }
    }
  }

  /** Writing back the saved word at the pending return address. */
  lemma LastTrap(tg: Target, s: State, x: set<nat>)
    requires Inv(tg, s) && s.pending.Some? && x <= Traps(tg, s.pending)
    ensures var ra := s.pending.value.ret;
            && ra != 0 && ra + 8 <= |tg.orig|
            && Poke(Patched(tg.orig, x), ra, Peek(tg.orig, ra)) == Patched(tg.orig, x - {ra})
  {
    hide Peek, Poke, Patched, Inv;
    var ra := s.pending.value.ret;
    PendingFacts(tg, s);
    ReturnAlone(tg, x, ra);
    Restore(tg.orig, x, ra);
  }

  /** Every text that a fork can copy has sane traps, in the middle of a step as well. */
  lemma TransientIsSane(tg: Target, s: State, e: Event, x: set<nat>)
    requires Inv(tg, s) && Enabled(tg, s, e)
    requires x <= EntrySet(tg) + Traps(tg, s.pending) + Traps(tg, Next(tg, s, e).pending)
    ensures SaneTraps(tg, x)
  {
    hide Inv, Enabled, Next, GoodReturn, EntrySet, Traps;
    InvStep(tg, s, e);
    PendingFacts(tg, s);
    PendingFacts(tg, Next(tg, s, e));
  }

  /** The moments of a call, by whether a child forked then comes out clean: not while the
      trap at the return address is set, but between the two writes at the end of the call,
      and when no call is pending. */
  lemma ForkMoments(tg: Target, c: Call)
    requires WellFormed(tg) && c.bp < 4 && GoodReturn(tg, c.ret)
    ensures !(Traps(tg, Some(c)) <= EntrySet(tg))
    ensures Traps(tg, Some(c)) - {c.ret} <= EntrySet(tg)
    ensures Traps(tg, None) <= EntrySet(tg)
  {
    TrapsWhilePending(tg, c);
    assert c.ret in Traps(tg, Some(c));
  }

  /** What `OnTrap` does with a thread that must wait. */
  lemma ParkStep(tg: Target, s: State, t: Tid, fails: bool, next: int)
    requires MidStep(tg, s, t) && s.pending.Some? && s.pending.value.owner != t
    ensures t in s.threads && |s.held| + 1 < s.peak && forall h :: h in s.held ==> h in s.threads
    ensures var f := OnTrap(tg, s, t, fails, next);
            && Inv(tg, f) && !f.done && f.pending == s.pending && TextOf(tg, f) == TextOf(tg, s)
            && f.held == s.held + [t] && f.threads == s.threads[t := s.threads[t].(status := Held)]
  {
    MidStepFacts(tg, s, t);
    ParkKeepsInv(tg, s, t, fails, next);
  }

  /** What `OnTrap` does with the return of the pending call. */
  lemma ReturnStep(tg: Target, s: State, t: Tid, fails: bool, next: int)
    requires MidStep(tg, s, t) && s.pending.Some?
    requires s.pending.value.owner == t && s.pending.value.ret == s.threads[t].pc
    ensures forall h :: h in s.held ==> h in s.threads
    ensures s.pending.value.bp < 4 && GoodReturn(tg, s.pending.value.ret)
    ensures t in WakeOne(AfterReturn(s, t)).threads
    ensures var r, f := AfterReturn(s, t), OnTrap(tg, s, t, fails, next);
            && f == (if fails then r.(done := true) else Resume(WakeOne(r), t, next))
            && f.pending == None && !s.done
            && TextOf(tg, f) == Patched(tg.orig, EntrySet(tg))
            && Inv(tg, f)
  {
    MidStepFacts(tg, s, t);
    ReturnKeepsInv(tg, s, t, fails, next);
  }

  /** What `OnTrap` does with a trap that is no return. */
  lemma EntryOrLateStep(tg: Target, s: State, t: Tid, fails: bool, next: int)
    requires MidStep(tg, s, t)
    requires s.pending.Some? ==> s.pending.value.owner == t && s.pending.value.ret != s.threads[t].pc
    ensures WellFormed(tg) && |tg.entries| == 4 && t in s.threads && forall h :: h in s.held ==> h in s.threads
    ensures s.pending.Some? ==>
              s.pending.value.bp < 4 && GoodReturn(tg, s.pending.value.ret) && s.pending.value.ret != 0
    ensures var th, f, i := s.threads[t], OnTrap(tg, s, t, fails, next), EntryIndex(tg, s.threads[t].pc);
            && Inv(tg, f) && th.pc + 8 <= |tg.orig|
            && f.held == s.held && f.threads == s.threads[t := th.(status := if next < 0 then Stopped else Running)]
            && (f.done <==> next < 0)
            && (i.Some? ==> && GoodReturn(tg, th.ret) && th.ret + 8 <= |tg.orig|
                            && f.pending == Some(Call(t, i.value, th.ret, th.rdi, th.rsi)))
            && (i.None? ==> && s.pending == f.pending == None
                            && TextOf(tg, f) == Patched(tg.orig, EntrySet(tg))
                            && !IsBreakpoint(Patched(tg.orig, EntrySet(tg)), th.pc))
  {
    hide Peek, IsBreakpoint;
    MidStepFacts(tg, s, t);
    EntryOrStaleKeepsInv(tg, s, t, fails, next);
    IsBreakpointReadsOneByte(Patched(tg.orig, EntrySet(tg)), s.threads[t].pc);
  }

  /** Only a delivered trap changes the pending call or the held threads; any other event
      concerns one thread. */
  lemma QuietStep(tg: Target, s: State, e: Event)
    requires Inv(tg, s) && Enabled(tg, s, e) && !e.Deliver?
    ensures var f := Next(tg, s, e);
            f.pending == s.pending && f.held == s.held && TextOf(tg, f) == TextOf(tg, s) && !s.done && Inv(tg, f)
    ensures (e.Trap? || e.Alarm? || e.Terminate?) ==> e.t in s.threads
    ensures Next(tg, s, e).threads == QuietThreads(s.threads, e)
    ensures Next(tg, s, e).done <==> e.Quit? || e.Terminate? || (e.Alarm? && e.next < 0)
  {
    hide Inv, Patched, Traps;
    InvStep(tg, s, e);
  }

  function QuietThreads(ts: map<Tid, Thread>, e: Event): map<Tid, Thread>
    requires (e.Trap? || e.Alarm? || e.Terminate?) ==> e.t in ts
  {
    match e
    case Execute(t, th) => ts[t := th]
    case Trap(t) => ts[t := ts[t].(pc := ts[t].pc + 1, status := Trapped)]
    case Alarm(t, next) => ts[t := ts[t].(status := if next < 0 then Stopped else Running)]
    case Spawn(t, th) => ts[t := th]
    case Exit(t) => ts - {t}
    case Terminate(t) => ts[t := ts[t].(status := Stopped)]
    case Deliver(_, _, _) => ts
    case Forward(_) => ts
    case Quit => ts
  }

  /** A text with traps left in it differs from the original. */
  lemma TrapsShow(orig: Text, x: set<nat>)
    requires forall a :: a in x ==> a < |orig| && orig[a] != TRAP
    ensures Patched(orig, x) == orig <==> x == {}
  {
    assert Patched(orig, {}) == orig;
    SameTraps(orig, x, {});
  }

  lemma RunEnds(tg: Target, s: State, es: seq<Event>)
    requires Inv(tg, s) && IsRun(tg, s, es) && s.done
    ensures es == []
  {
  }

  lemma {:induction false} PeakGrows(tg: Target, s: State, es: seq<Event>)
    requires Inv(tg, s) && IsRun(tg, s, es)
    ensures s.peak <= Final(tg, s, es).peak
    decreases |es|
  {
    if es != [] {
      InvStep(tg, s, es[0]);
      assert s.peak <= Next(tg, s, es[0]).peak;
      PeakGrows(tg, Next(tg, s, es[0]), es[1..]);
    }
  }

  class Tracer {
    // The target, as the kernel keeps it.
    const main: Tid
    var text: Text
    var threads: map<Tid, Thread>
    // The tracer.
    var breakpoints: seq<Breakpoint>
    var bp: Option<nat>
    var returnAddress: nat
    var returnCode: bv64
    var arg1: Address
    var arg2: Address
    var lastThread: Tid
    const holdThreads: array<Tid>
    var holdThreadNum: nat
    // The protocol state it refines, and every text written so far.
    ghost var target: Target
    ghost var spec: State
    ghost var texts: seq<Text>

    ghost predicate PendingOk()
      reads this
    {
      match spec.pending
      case None => returnAddress == 0
      case Some(c) =>
        && c.ret + 8 <= |target.orig|
        && returnAddress == c.ret && returnCode == Peek(target.orig, c.ret)
        && bp == Some(c.bp) && arg1 == c.arg1 && arg2 == c.arg2 && lastThread == c.owner
    }

    ghost predicate TableOk()
      reads this
    {
      && WellFormed(target)
      && |breakpoints| == 4
      && forall i :: 0 <= i < 4 ==>
           breakpoints[i] == Breakpoint(target.entries[i], Peek(target.orig, target.entries[i]))
    }

    ghost predicate HoldOk()
      reads this, holdThreads
    {
      && holdThreads.Length == HOLD_MAX
      && holdThreadNum <= HOLD_MAX
      && holdThreads[..holdThreadNum] == spec.held
    }

    ghost predicate Valid()
      reads this, holdThreads
    {
      && Inv(target, spec) && TableOk() && PendingOk() && HoldOk()
      && text == TextOf(target, spec)
      && threads == spec.threads
    }

    constructor (text: Text, threads: map<Tid, Thread>, main: Tid)
      ensures this.text == text && this.threads == threads && this.main == main
      ensures bp == None && returnAddress == 0 && holdThreadNum == 0 && holdThreads.Length == HOLD_MAX
      ensures breakpoints == [] && fresh(holdThreads)
    {
      this.text, this.threads, this.main := text, threads, main;
      breakpoints, bp := [], None;
      returnAddress, returnCode, arg1, arg2, lastThread := 0, 0, 0, 0, 0;
      holdThreads := new Tid[HOLD_MAX];
      holdThreadNum := 0;
      target, spec, texts := Target(text, [], main), Init(threads), [];
    }

    /** PTRACE_POKETEXT. */
    method SetData(address: nat, data: bv64)
      requires address + 8 <= |text|
      modifies this`text, this`texts
      ensures text == Poke(old(text), address, data)
      ensures texts == old(texts) + [text]
    {
      text := Poke(text, address, data);
      texts := texts + [text];
    }

    /** breakpoint_init. When an API is missing the program exits on the spot, so
        the traps set for the APIs before it stay in the target. */
    method BreakpointInit(symbols: seq<nat>) returns (found: nat)
      requires SymbolsOk(text, symbols)
      requires threads != map[] && forall t :: t in threads ==> threads[t].status == Running
      requires bp == None && returnAddress == 0 && holdThreadNum == 0 && holdThreads.Length == HOLD_MAX
      requires breakpoints == []
      modifies this
      ensures found <= 4 && (found < 4 ==> symbols[found] == 0) && forall i :: 0 <= i < found ==> symbols[i] != 0
      ensures text == Patched(old(text), FirstOf(symbols, found))
      ensures found == 4 ==> Valid() && target == Target(old(text), symbols, main) && spec == Init(old(threads))
    {
      hide Peek, Poke, TrapWord;
      ghost var orig := text;
      found := 0;
      assert text == Patched(orig, FirstOf(symbols, 0));
      while found < 4
        invariant 0 <= found <= 4 && |text| == |orig|
        invariant forall i :: 0 <= i < found ==> symbols[i] != 0
        invariant text == Patched(orig, FirstOf(symbols, found))
        invariant |breakpoints| == found
        invariant forall i :: 0 <= i < found ==> breakpoints[i] == Breakpoint(symbols[i], Peek(orig, symbols[i]))
        invariant unchanged(`threads, `bp, `returnAddress, `holdThreadNum)
      {
        var address := symbols[found];
        if address == 0 {
          return;
        }
        PatchNext(orig, symbols, found);
        var code := Peek(text, address);
        breakpoints := breakpoints + [Breakpoint(address, code)];
        SetData(address, TrapWord(code));
        found := found + 1;
      }
      target, spec := Target(orig, symbols, main), Init(threads);
      assert WellFormed(target);
      assert FirstOf(symbols, 4) == EntrySet(target);
      InitInv(target, threads);
    }

    /** breakpoint_by_entry. */
    method BreakpointByEntry(address: nat) returns (r: Option<nat>)
      requires TableOk()
      ensures r == EntryIndex(target, address)
    {
      var i := 0;
      while i < 4
        invariant 0 <= i <= 4
        invariant EntryIndexFrom(target.entries, address, 0) == EntryIndexFrom(target.entries, address, i)
      {
        if address == breakpoints[i].entryAddress {
          return Some(i);
        }
        i := i + 1;
      }
      r := None;
    }

    /** Undo a pending call: original word at the return address, trap back at the
        entry. */
    method Rearm()
      requires TableOk() && PendingOk() && spec.pending.Some?
      requires spec.pending.value.bp < 4 && GoodReturn(target, spec.pending.value.ret)
      requires text == TextOf(target, spec)
      modifies this`text, this`texts
      ensures text == Patched(target.orig, EntrySet(target))
      ensures |texts| == |old(texts)| + 2 && old(texts) <= texts
      ensures forall k, q :: |old(texts)| <= k < |texts| ==> Transient(target, spec.pending, q, texts[k])
    {
      hide Peek, Poke, TrapWord;
      ghost var c := spec.pending.value;
      ghost var x := Traps(target, spec.pending);
      TrapsWhilePending(target, c);
      ReturnAlone(target, x, c.ret);
      Restore(target.orig, x, c.ret);
      SetData(returnAddress, returnCode);
      EntryAlone(target, x - {c.ret}, c.bp);
      SetTrap(target.orig, x - {c.ret}, target.entries[c.bp]);
      SetData(breakpoints[bp.value].entryAddress, TrapWord(breakpoints[bp.value].entryCode));
    }

    /** At a function entry: original word at the entry, trap at the return address. */
    method Arm(i: nat, ra: nat)
      requires TableOk() && i < 4 && GoodReturn(target, ra)
      requires text == Patched(target.orig, EntrySet(target))
      modifies this`text, this`texts, this`returnAddress, this`returnCode
      ensures returnAddress == ra && returnCode == Peek(target.orig, ra)
      ensures forall c: Call :: c.bp == i && c.ret == ra ==> text == Patched(target.orig, Traps(target, Some(c)))
      ensures |texts| == |old(texts)| + 2 && old(texts) <= texts
      ensures forall p, c: Call, k :: c.bp == i && c.ret == ra && |old(texts)| <= k < |texts| ==>
                                      Transient(target, p, Some(c), texts[k])
    {
      hide Peek, Poke, TrapWord;
      ghost var x := EntrySet(target);
      EntryAlone(target, x, i);
      Restore(target.orig, x, target.entries[i]);
      SetData(breakpoints[i].entryAddress, breakpoints[i].entryCode);
      ghost var y := x - {target.entries[i]};
      returnAddress := ra;
      ReturnAlone(target, y, ra);
      PeekUnpatched(target.orig, y, ra);
      returnCode := Peek(text, returnAddress);
      SetTrap(target.orig, y, ra);
      SetData(returnAddress, TrapWord(returnCode));
      forall c: Call | c.bp == i && c.ret == ra
        ensures Traps(target, Some(c)) == y + {ra}
      {
        TrapsWhilePending(target, c);
      }
    }

    /** Inside an iteration for a trap of thread `pid`, before the tracer reacts. */
    ghost predicate MidValid(pid: Tid)
      reads this, holdThreads
    {
      && MidStep(target, spec, pid) && TableOk() && PendingOk() && HoldOk()
      && text == TextOf(target, spec)
      && threads == spec.threads
    }

    /** Keep `pid` stopped: another thread is inside an API. */
    method Hold(pid: Tid, ghost fails: bool, ghost next: int)
      requires MidValid(pid) && spec.pending.Some? && spec.pending.value.owner != pid
      requires spec.peak <= HOLD_MAX + 1
      modifies this`threads, this`holdThreadNum, this`spec, holdThreads
      ensures Valid() && spec == OnTrap(target, old(spec), pid, fails, next) && !spec.done
    {
      hide Peek, Inv, MidStep, OnTrap, TextOf, WellFormed;
      ParkStep(target, spec, pid, fails, next);
      threads := threads[pid := threads[pid].(status := Held)];
      spec := OnTrap(target, spec, pid, fails, next);
      holdThreads[holdThreadNum] := pid;
      holdThreadNum := holdThreadNum + 1;
    }

    /** memblock_expire answers `next`; go on with thread `pid` unless it is negative. */
    method Continue(pid: Tid, next: int) returns (exit: Option<Reason>)
      requires pid in threads
      modifies this`threads
      ensures threads == old(threads)[pid := old(threads)[pid].(status := if next < 0 then Stopped else Running)]
      ensures exit.Some? <==> next < 0
      ensures exit != Some(UnknownBreakpoint)
    {
      if next < 0 {
        threads := threads[pid := threads[pid].(status := Stopped)];
        return Some(TooManyLeaks);
      }
      threads := threads[pid := threads[pid].(status := Running)];
      exit := None;
    }

    /** Wake the thread that was held last, if any. */
    method WakeHeld(ghost r: State)
      requires threads == r.threads && holdThreads.Length == HOLD_MAX && holdThreadNum <= HOLD_MAX
      requires holdThreads[..holdThreadNum] == r.held && forall h :: h in r.held ==> h in r.threads
      modifies this`threads, this`holdThreadNum
      ensures threads == WakeOne(r).threads
      ensures holdThreadNum <= HOLD_MAX && holdThreads[..holdThreadNum] == WakeOne(r).held
    {
      if holdThreadNum != 0 {
        holdThreadNum := holdThreadNum - 1;
        var h := holdThreads[holdThreadNum];
        assert h == r.held[holdThreadNum];
        threads := threads[h := threads[h].(status := Running)];
      }
    }

    /** The pending call of `pid` returns: run its handler, wake one held thread. */
    method AtReturn(pid: Tid, handlerFails: bool, next: int) returns (exit: Option<Reason>)
      requires MidValid(pid) && spec.pending.Some?
      requires spec.pending.value.owner == pid && spec.pending.value.ret == threads[pid].pc
      modifies this`text, this`texts, this`threads, this`holdThreadNum, this`spec, this`returnAddress
      ensures Valid() && spec == OnTrap(target, old(spec), pid, handlerFails, next)
      ensures spec.pending == None && (exit.Some? <==> spec.done)
      ensures exit != Some(UnknownBreakpoint)
      ensures old(texts) <= texts
      ensures forall k :: |old(texts)| <= k < |texts| ==> Transient(target, old(spec.pending), None, texts[k])
    {
      hide Peek, Inv, MidStep, GoodReturn, WellFormed, Transient, TextOf, Patched, OnTrap;
      ReturnStep(target, spec, pid, handlerFails, next);
      ghost var r := AfterReturn(spec, pid);
      ghost var f := OnTrap(target, spec, pid, handlerFails, next);
      Rearm();
      returnAddress := 0;
      if handlerFails {
        spec := f;
        return Some(NotEnoughMemory);
      }
      WakeHeld(r);
      exit := Continue(pid, next);
      spec := f;
    }

    /** `pid` is at a trap that is no return, and all four entries are patched. */
    ghost predicate Rearmed(pid: Tid)
      reads this, holdThreads
    {
      && MidStep(target, spec, pid) && TableOk() && HoldOk() && threads == spec.threads
      && (spec.pending.Some? ==> spec.pending.value.owner == pid && spec.pending.value.ret != threads[pid].pc)
      && text == Patched(target.orig, EntrySet(target))
    }

    /** Open a new call at entry `bp`; a call of the same thread that was still
        pending is forgotten. */
    method AtEntry(pid: Tid, ghost fails: bool, next: int) returns (exit: Option<Reason>)
      requires Rearmed(pid) && bp.Some? && bp == EntryIndex(target, threads[pid].pc)
      modifies this`text, this`texts, this`threads, this`spec, this`returnAddress, this`returnCode, this`arg1
      modifies this`arg2, this`lastThread
      ensures Valid() && spec == OnTrap(target, old(spec), pid, fails, next)
      ensures exit.Some? <==> spec.done
      ensures exit != Some(UnknownBreakpoint)
      ensures old(texts) <= texts
      ensures forall k, p :: |old(texts)| <= k < |texts| ==> Transient(target, p, spec.pending, texts[k])
    {
      hide Peek, Inv, MidStep, GoodReturn, WellFormed, OnTrap, Traps, Transient, Patched, EntryIndex, EntrySet;
      EntryOrLateStep(target, spec, pid, fails, next);
      ghost var f := OnTrap(target, spec, pid, fails, next);
      Arm(bp.value, threads[pid].ret);
      arg1, arg2, lastThread := threads[pid].rdi, threads[pid].rsi, pid;
      exit := Continue(pid, next);
      spec := f;
    }

    /** The trap has been removed since `pid` hit it; the original instruction is
        back, so the program counter points at no trap. */
    method AtLateTrap(pid: Tid, ghost fails: bool, next: int) returns (exit: Option<Reason>)
      requires Rearmed(pid) && EntryIndex(target, threads[pid].pc).None? && PendingOk()
      modifies this`threads, this`spec
      ensures Valid() && spec == OnTrap(target, old(spec), pid, fails, next)
      ensures exit.Some? <==> spec.done
      ensures exit != Some(UnknownBreakpoint)
    {
      hide Peek, Inv, MidStep, GoodReturn, WellFormed, IsBreakpoint, OnTrap, Traps, TextOf, Patched, EntryIndex,
           EntrySet;
      EntryOrLateStep(target, spec, pid, fails, next);
      if IsBreakpoint(text, threads[pid].pc) {
        assert false;
        return Some(UnknownBreakpoint);
      }
      ghost var f := OnTrap(target, spec, pid, fails, next);
      exit := Continue(pid, next);
      spec := f;
    }

    /** A trap that is no return: forget a pending call, then look up the entry. */
    method AtOther(pid: Tid, ghost fails: bool, next: int) returns (exit: Option<Reason>)
      requires MidValid(pid)
      requires spec.pending.Some? ==> spec.pending.value.owner == pid && spec.pending.value.ret != threads[pid].pc
      modifies this`text, this`texts, this`threads, this`spec, this`bp,
               this`returnAddress, this`returnCode, this`arg1, this`arg2, this`lastThread
      ensures Valid() && spec == OnTrap(target, old(spec), pid, fails, next)
      ensures exit.Some? <==> spec.done
      ensures exit != Some(UnknownBreakpoint)
      ensures old(texts) <= texts
      ensures forall k :: |old(texts)| <= k < |texts| ==> Transient(target, old(spec.pending), spec.pending, texts[k])
    {
      hide Peek, Inv, MidStep, GoodReturn, WellFormed, Transient, OnTrap, Patched, EntrySet, EntryIndex;
      EntryOrLateStep(target, spec, pid, fails, next);
      if returnAddress != 0 {
        Rearm();
      }
      ghost var passed := texts;
      bp := BreakpointByEntry(threads[pid].pc);
      if bp.Some? {
        exit := AtEntry(pid, fails, next);
      } else {
        exit := AtLateTrap(pid, fails, next);
      }
      assert forall k :: |old(texts)| <= k < |passed| ==> texts[k] == passed[k];
    }

    /** The body of the event loop for a delivered trap of thread `pid`: unwind the
        program counter, then hold the thread, or finish, replace or open a call,
        or let a late trap pass. */
    method HandleTrap(pid: Tid, handlerFails: bool, next: int) returns (exit: Option<Reason>)
      requires Valid() && Enabled(target, spec, Deliver(pid, handlerFails, next))
      requires spec.peak <= HOLD_MAX + 1
      modifies this, holdThreads
      ensures Valid() && target == old(target)
      ensures spec == Next(target, old(spec), Deliver(pid, handlerFails, next))
      ensures exit.Some? <==> spec.done
      ensures exit != Some(UnknownBreakpoint)
      ensures old(texts) <= texts
      ensures forall k :: |old(texts)| <= k < |texts| ==> Transient(target, old(spec.pending), spec.pending, texts[k])
    {
      hide Peek, Inv, MidStep, GoodReturn, WellFormed, Transient, OnTrap, Patched, EntrySet;
      UnwoundIsMidStep(target, spec, pid);
      MidStepFacts(target, Unwound(spec, pid), pid);
      threads := threads[pid := threads[pid].(pc := threads[pid].pc - 1, status := Stopped)];
      spec := Unwound(spec, pid);
      if returnAddress != 0 && lastThread != pid {
        Hold(pid, handlerFails, next);
        exit := None;
      } else if threads[pid].pc == returnAddress {
        exit := AtReturn(pid, handlerFails, next);
      } else {
        exit := AtOther(pid, handlerFails, next);
      }
    }

    /** Every other event: what the target does by itself, alarms, other stops. */
    method HandleOther(e: Event) returns (exit: bool)
      requires Valid() && Enabled(target, spec, e) && !e.Deliver?
      modifies this`threads, this`spec
      ensures Valid() && spec == Next(target, old(spec), e)
      ensures exit <==> spec.done
    {
      hide Peek, Inv, TextOf, Enabled, WellFormed, Next;
      QuietStep(target, spec, e);
      exit := false;
      ghost var f := Next(target, spec, e);
      match e {
        case Execute(t, th) => threads := threads[t := th];
        case Trap(t) => threads := threads[t := threads[t].(pc := threads[t].pc + 1, status := Trapped)];
        case Alarm(t, next) =>
          var reason := Continue(t, next);
          exit := reason.Some?;
        case Forward(t) =>
        case Spawn(t, th) => threads := threads[t := th];
        case Exit(t) => threads := threads - {t};
        case Terminate(t) =>
          threads := threads[t := threads[t].(status := Stopped)];
          exit := true;
        case Quit => exit := true;
      }
      spec := f;
    }

    /** breakpoint_cleanup, on the text of the target or of a forked child. The first
        `missed` writes fail because the thread they go through is not stopped yet. */
    method BreakpointCleanup(t: Text, missed: nat, ghost x: set<nat>) returns (r: Text)
      requires TableOk() && SaneTraps(target, x) && t == Patched(target.orig, x)
      ensures r == Patched(target.orig, x - Rewritten(target.entries, missed, 4))
    {
      hide Peek, Poke, Patched;
      r := t;
      var i := 0;
      assert x - Rewritten(target.entries, missed, 0) == x;
      while i < 4
        invariant 0 <= i <= 4
        invariant r == Patched(target.orig, x - Rewritten(target.entries, missed, i))
      {
        ghost var y := x - Rewritten(target.entries, missed, i);
        EntryAlone(target, y, i);
        Restore(target.orig, y, target.entries[i]);
        if i >= missed {
          assert y - {target.entries[i]} == x - Rewritten(target.entries, missed, i + 1);
          r := Poke(r, breakpoints[i].entryAddress, breakpoints[i].entryCode);
        } else {
          assert y == x - Rewritten(target.entries, missed, i + 1);
        }
        i := i + 1;
      }
    }

    /** A forked child is detached after the four entries of its own copy of the
        text are restored. `x` are the traps in the target's text at the moment of the
        fork, which may be in the middle of an iteration: the child's text is the
        original exactly when none of them was at a return address. */
    method DetachChild(child: Text, ghost x: set<nat>) returns (r: Text)
      requires TableOk() && SaneTraps(target, x) && child == Patched(target.orig, x)
      ensures r == Patched(target.orig, x - EntrySet(target))
      ensures r == target.orig <==> x <= EntrySet(target)
    {
      hide Peek, Patched;
      assert Rewritten(target.entries, 0, 4) == EntrySet(target);
      r := BreakpointCleanup(child, 0, x);
      TrapsShow(target.orig, x - EntrySet(target));
    }

    /** The end of the program: restore the entries and a pending return address. All
        writes go through the main thread; the first `missed` of them fail because it is
        not stopped yet. */
    method CleanUp(missed: nat)
      requires Valid()
      modifies this`text
      ensures text == Patched(target.orig, Unrestored(target, spec.pending, missed))
    {
      hide Peek, Poke, Inv, Traps, WellFormed, GoodReturn, EntrySet, Patched, Rewritten;
      PendingFacts(target, spec);
      ghost var x := Traps(target, spec.pending);
      text := BreakpointCleanup(text, missed, x);
      ghost var y := x - Rewritten(target.entries, missed, 4);
      if spec.pending.Some? {
        LastTrap(target, spec, y);
      }
      if returnAddress != 0 && missed <= 4 {
        text := Poke(text, returnAddress, returnCode);
      } else {
        assert Unrestored(target, spec.pending, missed) == y;
      }
    }

    /** The event loop and the clean-up behind it, for any run of the protocol. No write
        of the clean-up fails if the main thread is stopped when the loop ends. */
    method EventLoop(events: seq<Event>, missed: nat)
      requires Valid() && !spec.done && IsRun(target, spec, events)
      requires Final(target, spec, events).peak <= HOLD_MAX + 1
      modifies this, holdThreads
      ensures target == old(target) && spec == Final(target, old(spec), events)
      ensures text == Patched(target.orig, Unrestored(target, spec.pending, missed))
    {
      hide Inv, Enabled, Next, Unrestored;
      var i, exit := 0, false;
      ghost var end := Final(target, spec, events);
      while i < |events| && !exit
        invariant 0 <= i <= |events| && target == old(target)
        invariant Valid() && IsRun(target, spec, events[i..])
        invariant Final(target, spec, events[i..]) == end
        invariant exit <==> spec.done
      {
        var e := events[i];
        ghost var rest := events[i..];
        assert rest[0] == e && rest[1..] == events[i + 1..];
        PeakGrows(target, spec, rest);
        if e.Deliver? {
          var reason := HandleTrap(e.t, e.handlerFails, e.next);
          exit := reason.Some?;
        } else {
          exit := HandleOther(e);
        }
        i := i + 1;
      }
      if exit {
        RunEnds(target, spec, events[i..]);
      }
      CleanUp(missed);
    }
  }

  /** How many of the clean-up's writes fail if the main thread does not stop meanwhile. */
  ghost function Failing(tg: Target, s: State): nat {
    if Writable(tg, s) then 0 else 5
  }

  /** The whole program on a target: patch, run, clean up. `missed` is how many writes the
      clean-up makes before the main thread is stopped; none if the loop leaves it stopped.
      When all four APIs are found, the target's text ends as it began exactly if none
      was missed, or just the one at the entry of a pending call of the first API. So, if
      the main thread does not stop by itself in the middle of the clean-up: exactly if
      it is stopped when the loop ends. When an API is missing, the text ends as it began
      exactly if it was the first. */
  method Trace(text: Text, threads: map<Tid, Thread>, main: Tid, symbols: seq<nat>, events: seq<Event>, missed: nat)
    returns (final: Text)
    requires SymbolsOk(text, symbols) && forall i :: 0 <= i < 4 && symbols[i] != 0 ==> text[symbols[i]] != TRAP
    requires main in threads && forall t :: t in threads ==> threads[t].status == Running
    requires 0 !in symbols ==> Run(Target(text, symbols, main), threads, events)
    requires 0 !in symbols ==> End(Target(text, symbols, main), threads, events).peak <= HOLD_MAX + 1
    requires 0 !in symbols ==>
               var tg := Target(text, symbols, main);
               Writable(tg, End(tg, threads, events)) ==> missed == 0
    ensures 0 in symbols ==> (final == text <==> symbols[0] == 0)
    ensures 0 !in symbols ==>
              var tg := Target(text, symbols, main);
              var s := End(tg, threads, events);
              && (final == text <==> missed == 0 || (missed == 1 && s.pending.Some? && s.pending.value.bp == 0))
              && (missed == Failing(tg, s) ==> (final == text <==> Writable(tg, s)))
  {
    hide Inv, Patched, Peek, Unrestored;
    var tracer := new Tracer(text, threads, main);
    var found := tracer.BreakpointInit(symbols);
    if found == 4 {
      tracer.EventLoop(events, missed);
      RestoredIff(tracer.target, tracer.spec, missed);
    } else {
      var x := FirstOf(symbols, found);
      TrapsShow(text, x);
      assert found > 0 ==> symbols[0] in x;
    }
    final := tracer.text;
  }

  /** There is such a run for which the clean-up restores nothing at all. */
  lemma NothingIsRestored() returns (s: State)
    ensures Reaches(DEMO, Init(DEMO_THREADS), s) && s.done && !Writable(DEMO, s)
    ensures Patched(DEMO.orig, Unrestored(DEMO, s.pending, Failing(DEMO, s))) == TextOf(DEMO, s) != DEMO.orig
  {
    hide Reaches, Inv, Patched;
    s := MainCanBeLeftRunning();
    ReachesStep(DEMO, Init(DEMO_THREADS), s, Quit);
    assert Unrestored(DEMO, s.pending, 5) == Traps(DEMO, s.pending);
    RestoredIff(DEMO, s, 5);
  }
}
