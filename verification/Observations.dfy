/** What the entries in the log of a run stand for, in terms of the threads'
    registers at the moment they were made. */
module Observations {
  import opened Basics
  import opened TargetText
  import opened Protocol
  import opened ProtocolRuns

  /** `o` is true of thread `e.t`, whose trap is delivered in state `s`, or of the thread
      that is woken by it. The program counter of a trapped thread is one byte behind
      the trap. */
  ghost predicate IsTrue(tg: Target, s: State, e: Event, o: Observation) {
    && e.Deliver? && e.t in s.threads
    && var th := s.threads[e.t];
       match o
       case Entered(t, bp, ret, arg1, arg2) =>
         && t == e.t && bp < |tg.entries| && tg.entries[bp] + 1 == th.pc
         && ret == th.ret && arg1 == th.rdi && arg2 == th.rsi
         && (s.pending.Some? ==> s.pending.value.owner == t)
       case Returned(t, bp, pc, value, _, _) =>
         && t == e.t && pc + 1 == th.pc && value == th.rax
         && s.pending.Some? && s.pending.value.owner == t && s.pending.value.ret == pc && s.pending.value.bp == bp
       case Parked(t, pc) =>
         t == e.t && pc + 1 == th.pc && s.pending.Some? && s.pending.value.owner != t
       case Woken(t, pc) =>
         && s.held != [] && t == s.held[|s.held| - 1] && t in s.threads && s.threads[t].pc == pc
         && s.pending.Some? && s.pending.value.owner == e.t && s.pending.value.ret + 1 == th.pc
       case Stale(t, pc) =>
         t == e.t && pc + 1 == th.pc && s.pending.None? && pc !in EntrySet(tg)
  }

  /** A reaction to a trap adds at most two observations. */
  lemma DeliverLogs(tg: Target, s: State, t: Tid, fails: bool, next: int)
    requires MidStep(tg, s, t)
    ensures t in s.threads && forall h :: h in s.held ==> h in s.threads
    ensures s.log <= OnTrap(tg, s, t, fails, next).log
    ensures forall i :: |s.log| <= i < |OnTrap(tg, s, t, fails, next).log| ==>
              IsTrue(tg, SetThread(s, t, s.threads[t].(pc := s.threads[t].pc + 1)), Deliver(t, fails, next),
                     OnTrap(tg, s, t, fails, next).log[i])
  {
    hide MidStep, GoodReturn, EntryIndexFrom, WellFormed;
    MidStepFacts(tg, s, t);
    if s.pending.Some? && s.pending.value.owner == t {
      TrapOfOwner(tg, s, t);
    }
  }

  /** Every step only adds to the log, and what it adds is true. */
  lemma StepIsLoggedTruly(tg: Target, s: State, e: Event)
    requires Inv(tg, s) && Enabled(tg, s, e)
    ensures s.log <= Next(tg, s, e).log
    ensures forall i :: |s.log| <= i < |Next(tg, s, e).log| ==> IsTrue(tg, s, e, Next(tg, s, e).log[i])
  {
    hide OnTrap, TextOf, GoodReturn, MidStep, EntrySet, Inv, WakeOne;
    if e.Deliver? {
      UnwoundIsMidStep(tg, s, e.t);
      DeliverLogs(tg, Unwound(s, e.t), e.t, e.handlerFails, e.next);
    }
  }

  /** Every observation of a run was true when it was made: after the first `k` events
      of the run, on delivery of event `k`. */
  lemma {:induction false} RunIsLoggedTruly(tg: Target, s: State, es: seq<Event>, i: nat) returns (k: nat)
    requires Inv(tg, s) && IsRun(tg, s, es) && |s.log| <= i < |Final(tg, s, es).log|
    ensures k < |es| && IsRun(tg, s, es[..k])
    ensures IsTrue(tg, Final(tg, s, es[..k]), es[k], Final(tg, s, es).log[i])
    ensures IsRun(tg, s, es[..k + 1]) && |Final(tg, s, es[..k]).log| <= i < |Final(tg, s, es[..k + 1]).log|
    decreases |es|
  {
    hide Inv, Enabled, Next, IsTrue;
    var e, rest := es[0], es[1..];
    InvStep(tg, s, e);
    StepIsLoggedTruly(tg, s, e);
    var n := Next(tg, s, e);
    if i < |n.log| {
      LogGrows(tg, n, rest);
      k := 0;
      assert es[..1][1..] == [];
    } else {
      var j := RunIsLoggedTruly(tg, n, rest, i);
      k := j + 1;
      assert es[..k][1..] == rest[..j] && es[..k + 1][1..] == rest[..j + 1];
    }
  }

  lemma {:induction false} LogGrows(tg: Target, s: State, es: seq<Event>)
    requires Inv(tg, s) && IsRun(tg, s, es)
    ensures s.log <= Final(tg, s, es).log
    decreases |es|
  {
    if es != [] {
      InvStep(tg, s, es[0]);
      StepIsLoggedTruly(tg, s, es[0]);
      LogGrows(tg, Next(tg, s, es[0]), es[1..]);
    }
  }

  /** The log of every run from the start tells the truth about the registers. */
  lemma LogIsTrue(tg: Target, threads: map<Tid, Thread>, es: seq<Event>, i: nat) returns (k: nat)
    requires Run(tg, threads, es) && i < |End(tg, threads, es).log|
    ensures k < |es| && Run(tg, threads, es[..k])
    ensures IsTrue(tg, End(tg, threads, es[..k]), es[k], End(tg, threads, es).log[i])
    ensures Run(tg, threads, es[..k + 1]) && |End(tg, threads, es[..k]).log| <= i < |End(tg, threads, es[..k + 1]).log|
  {
    InitInv(tg, threads);
    k := RunIsLoggedTruly(tg, Init(threads), es, i);
  }

  lemma {:induction false} PrefixRun(tg: Target, s: State, es: seq<Event>, m: nat, n: nat)
    requires Inv(tg, s) && IsRun(tg, s, es) && m <= n <= |es|
    ensures IsRun(tg, s, es[..m]) && IsRun(tg, s, es[..n])
    ensures Final(tg, s, es[..m]).log <= Final(tg, s, es[..n]).log
    decreases |es|
  {
    hide Inv, Enabled, Next;
    if n > 0 {
      InvStep(tg, s, es[0]);
      var s1, rest := Next(tg, s, es[0]), es[1..];
      PrefixRun(tg, s1, rest, if m > 0 then m - 1 else 0, n - 1);
      assert es[..n][1..] == rest[..n - 1];
      if m > 0 {
        assert es[..m][1..] == rest[..m - 1];
      } else {
        LogGrows(tg, s, es[..n]);
      }
    }
  }

  lemma ReturnIsNoEntry(tg: Target, s: State)
    requires Inv(tg, s) && s.pending.Some?
    ensures forall i :: 0 <= i < |tg.entries| ==> tg.entries[i] != s.pending.value.ret
  {
  }

  /** The call that a handler is told about, in full. The handler run at position `i` of
      the log closes the entry at position `j`, the latest of its thread. That entry was
      logged at event `a`: the thread trapped at the entry of the handler's API, with the
      handler's arguments in its registers. The handler ran at the later event `b`: the
      thread trapped at the return address that lay on its stack at `a`, with the
      handler's result in its register. */
  lemma HandlersSeeTheCall(tg: Target, threads: map<Tid, Thread>, es: seq<Event>, i: nat)
    returns (j: nat, a: nat, b: nat)
    requires Run(tg, threads, es) && i < |End(tg, threads, es).log| && End(tg, threads, es).log[i].Returned?
    ensures Closes(End(tg, threads, es).log, j, i)
    ensures a < b < |es| && Run(tg, threads, es[..a]) && Run(tg, threads, es[..b]) && es[a].Deliver? && es[b].Deliver?
    ensures Run(tg, threads, es[..a + 1]) && |End(tg, threads, es[..a]).log| <= j < |End(tg, threads, es[..a + 1]).log|
    ensures Run(tg, threads, es[..b + 1]) && |End(tg, threads, es[..b]).log| <= i < |End(tg, threads, es[..b + 1]).log|
    ensures var o := End(tg, threads, es).log[i];
            && es[a].t == es[b].t == o.thread
            && o.thread in End(tg, threads, es[..a]).threads && o.thread in End(tg, threads, es[..b]).threads
            && var entry := End(tg, threads, es[..a]).threads[o.thread];
               var exit := End(tg, threads, es[..b]).threads[o.thread];
               && o.bp < |tg.entries| && entry.pc == tg.entries[o.bp] + 1
               && entry.rdi == o.arg1 && entry.rsi == o.arg2
               && exit.pc == entry.ret + 1 && exit.rax == o.value
  {
    hide Inv, Enabled, Next, Init, WellFormed;
    HandlersArePaired(tg, threads, es, i);
    var p :| Closes(End(tg, threads, es).log, p, i);
    j := p;
    a := LogIsTrue(tg, threads, es, j);
    b := LogIsTrue(tg, threads, es, i);
    InitInv(tg, threads);
    if b < a {
      PrefixRun(tg, Init(threads), es, b + 1, a);
      assert false;
    }
    if a == b {
      ReturnIsNoEntry(tg, End(tg, threads, es[..a]));
      assert false;
    }
  }

  // ----- Held threads are a stack

  /** What an observation does to the stack of parked threads. */
  function Stacked(h: seq<Tid>, o: Observation): seq<Tid> {
    match o
    case Parked(t, _) => h + [t]
    case Woken(_, _) => if h == [] then h else h[..|h| - 1]
    case _ => h
  }

  /** The threads that a log leaves parked, the one parked last at the end. */
  function ParkedBy(log: seq<Observation>): seq<Tid> {
    if log == [] then [] else Stacked(ParkedBy(log[..|log| - 1]), log[|log| - 1])
  }

  lemma ParkedByOne(log: seq<Observation>, o: Observation)
    ensures ParkedBy(log + [o]) == Stacked(ParkedBy(log), o)
  {
    assert (log + [o])[..|log|] == log;
  }

  lemma OnTrapIsStack(tg: Target, s: State, t: Tid, fails: bool, next: int)
    requires t in s.threads && s.held == ParkedBy(s.log) && forall h :: h in s.held ==> h in s.threads
    ensures var f := OnTrap(tg, s, t, fails, next); f.held == ParkedBy(f.log)
  {
    hide EntryIndex, ParkedBy;
    var th := s.threads[t];
    if s.pending.Some? && s.pending.value.owner != t {
      ParkedByOne(s.log, Parked(t, th.pc));
    } else if s.pending.Some? && s.pending.value.ret == th.pc {
      var r := AfterReturn(s, t);
      var c := s.pending.value;
      ParkedByOne(s.log, Returned(t, c.bp, th.pc, th.rax, c.arg1, c.arg2));
      if s.held != [] {
        var h := s.held[|s.held| - 1];
        assert h in s.threads;
        ParkedByOne(r.log, Woken(h, s.threads[h].pc));
      }
    } else {
      match EntryIndex(tg, th.pc)
      case Some(i) => ParkedByOne(s.log, Entered(t, i, th.ret, th.rdi, th.rsi));
      case None => ParkedByOne(s.log, Stale(t, th.pc));
    }
  }

  lemma {:induction false} HeldIsStack(tg: Target, s: State, es: seq<Event>)
    requires Inv(tg, s) && IsRun(tg, s, es) && s.held == ParkedBy(s.log)
    ensures Final(tg, s, es).held == ParkedBy(Final(tg, s, es).log)
    decreases |es|
  {
    hide ParkedBy, OnTrap, Inv, TextOf, GoodReturn, EntrySet, MidStep;
    if es != [] {
      var e := es[0];
      InvStep(tg, s, e);
      if e.Deliver? {
        UnwoundIsMidStep(tg, s, e.t);
        MidStepFacts(tg, Unwound(s, e.t), e.t);
        OnTrapIsStack(tg, Unwound(s, e.t), e.t, e.handlerFails, e.next);
      }
      HeldIsStack(tg, Next(tg, s, e), es[1..]);
    }
  }

  /** At the end of every run the held threads are those parked and not yet woken, and the
      one that will be woken next is the one parked last. */
  lemma LastParkedFirstWoken(tg: Target, threads: map<Tid, Thread>, es: seq<Event>)
    requires Run(tg, threads, es)
    ensures End(tg, threads, es).held == ParkedBy(End(tg, threads, es).log)
  {
    InitInv(tg, threads);
    HeldIsStack(tg, Init(threads), es);
  }

  // ----- Where stopped threads stand

  predicate Waiting(th: Thread) {
    th.status == Trapped || th.status == Held
  }

  /** The event is one of the thread's own, other than the delivery of its trap. */
  predicate Moves(e: Event, t: Tid) {
    match e
    case Execute(u, _) => u == t
    case Trap(u) => u == t
    case Spawn(u, _) => u == t
    case Exit(u) => u == t
    case _ => false
  }

  /** The trap is delivered: the program counter is moved back to it. */
  predicate MovedBack(before: Thread, after: Thread) {
    before.status == Trapped && after.status != Trapped && after.pc + 1 == before.pc
  }

  lemma OnTrapMoves(tg: Target, s: State, u: Tid, t: Tid, fails: bool, next: int)
    requires u in s.threads && u !in s.held && forall h :: h in s.held ==> h in s.threads
    requires t in OnTrap(tg, s, u, fails, next).threads
    ensures t in s.threads
    ensures var after := OnTrap(tg, s, u, fails, next).threads[t];
            && (t == u ==> after == s.threads[t].(status := after.status))
            && (t == u && s.threads[t].status != Trapped ==> after.status != Trapped)
            && (t != u ==> after == s.threads[t] || after.status == Running)
  {
    hide EntryIndex, WakeOne, Resume;
    if s.pending.Some? && s.pending.value.owner != u {
    } else if s.pending.Some? && s.pending.value.ret == s.threads[u].pc {
      var r := AfterReturn(s, u);
      if !fails {
        WakeMoves(r, u);
        WakeMoves(r, t);
        ResumeMoves(WakeOne(r), u, t, next);
      }
    } else {
      var th := s.threads[u];
      match EntryIndex(tg, th.pc)
      case Some(i) =>
        var entered := Note(s, Entered(u, i, th.ret, th.rdi, th.rsi));
        ResumeMoves(entered.(pending := Some(Call(u, i, th.ret, th.rdi, th.rsi))), u, t, next);
      case None =>
        ResumeMoves(Note(s, Stale(u, th.pc)), u, t, next);
    }
  }

  lemma WakeMoves(s: State, t: Tid)
    requires forall h :: h in s.held ==> h in s.threads
    ensures t in WakeOne(s).threads <==> t in s.threads
    ensures t in s.threads ==> WakeOne(s).threads[t] == s.threads[t] || WakeOne(s).threads[t].status == Running
    ensures t in s.threads && t !in s.held ==> WakeOne(s).threads[t] == s.threads[t]
  {
    if s.held != [] {
      assert s.held[|s.held| - 1] in s.threads;
    }
  }

  lemma ResumeMoves(s: State, u: Tid, t: Tid, next: int)
    requires u in s.threads
    ensures t in Resume(s, u, next).threads <==> t in s.threads
    ensures t in s.threads && t != u ==> Resume(s, u, next).threads[t] == s.threads[t]
    ensures t == u ==>
              var after := Resume(s, u, next).threads[t];
              after == s.threads[t].(status := after.status) && after.status != Trapped
  {
  }

  /** How a thread comes to wait in a step: by its trap, or by the delivery of it, or it
      waited before. */
  lemma WaitStep(tg: Target, s: State, e: Event, t: Tid)
    requires Inv(tg, s) && Enabled(tg, s, e) && t in Next(tg, s, e).threads
    requires Waiting(Next(tg, s, e).threads[t])
             || (e.Deliver? && e.t == t && Next(tg, s, e).threads[t].status == Stopped)
    ensures t in s.threads
    ensures var before, after := s.threads[t], Next(tg, s, e).threads[t];
            || (e == Trap(t) && after.pc == before.pc + 1 && after.status == Trapped)
            || (!Moves(e, t) && Waiting(before) && (after == before || MovedBack(before, after)))
  {
    hide OnTrap, Inv, TextOf, GoodReturn, EntrySet, MidStep;
    if e.Deliver? {
      UnwoundIsMidStep(tg, s, e.t);
      var u := Unwound(s, e.t);
      MidStepFacts(tg, u, e.t);
      OnTrapMoves(tg, u, e.t, t, e.handlerFails, e.next);
    }
  }

  /** The trap at event `k` is the last thing that thread `t` did, at address `a`. */
  ghost predicate TrappedLast(tg: Target, s: State, es: seq<Event>, n: nat, k: nat, t: Tid, a: nat)
    requires Inv(tg, s) && IsRun(tg, s, es) && n <= |es|
  {
    && k < n && es[k] == Trap(t) && (forall j :: k < j < n ==> !Moves(es[j], t))
    && t in StateAt(tg, s, es, k).threads && StateAt(tg, s, es, k).threads[t].pc == a
  }

  /** After the first `n` events of a run from the start, a thread that waits stands at the
      address of its last trap if and only if the trap has been delivered. */
  lemma {:induction false} WaitsAtItsTrap(tg: Target, s: State, es: seq<Event>, n: nat, t: Tid) returns (k: nat, a: nat)
    requires Inv(tg, s) && IsRun(tg, s, es) && n <= |es| && t in StateAt(tg, s, es, n).threads
    requires forall u :: u in s.threads ==> s.threads[u].status == Running
    requires var th := StateAt(tg, s, es, n).threads[t];
             Waiting(th) || (n > 0 && es[n - 1].Deliver? && es[n - 1].t == t && th.status == Stopped)
    ensures TrappedLast(tg, s, es, n, k, t, a)
    ensures var th := StateAt(tg, s, es, n).threads[t];
            th.pc == (if th.status == Trapped then a + 1 else a)
    decreases n
  {
    hide Inv, Enabled, Next;
    if n > 0 {
      var e, before := es[n - 1], StateAt(tg, s, es, n - 1);
      StateAfter(tg, s, es, n - 1);
      WaitStep(tg, before, e, t);
      if e == Trap(t) && StateAt(tg, s, es, n).threads[t].pc == before.threads[t].pc + 1 {
        k, a := n - 1, before.threads[t].pc;
      } else {
        k, a := WaitsAtItsTrap(tg, s, es, n - 1, t);
      }
    }
  }

  /** At the end of every run: a thread that is stopped after a trap stands at the address
      of the last trap it hit if and only if that trap was delivered. */
  lemma CounterIsBackIffDelivered(tg: Target, threads: map<Tid, Thread>, es: seq<Event>, t: Tid)
    returns (k: nat, a: nat)
    requires Run(tg, threads, es) && t in End(tg, threads, es).threads
    requires var th := End(tg, threads, es).threads[t];
             Waiting(th) || (es != [] && es[|es| - 1].Deliver? && es[|es| - 1].t == t && th.status == Stopped)
    ensures Inv(tg, Init(threads)) && TrappedLast(tg, Init(threads), es, |es|, k, t, a)
    ensures End(tg, threads, es).threads[t].pc == a <==> End(tg, threads, es).threads[t].status != Trapped
  {
    hide Inv, Enabled, Next;
    InitInv(tg, threads);
    k, a := WaitsAtItsTrap(tg, Init(threads), es, |es|, t);
  }

  /** And a trap can be lost: thread 1 traps at malloc, and the loop ends before that is
      reported. */
  lemma TrapCanBeLost() returns (s: State)
    ensures Reaches(DEMO, Init(DEMO_THREADS), s) && s.done
    ensures 1 in s.threads && s.threads[1].status == Trapped && s.threads[1].pc == DEMO.entries[0] + 1
  {
    hide Reaches, Traps, GoodReturn;
    DemoStart();
    DemoTraps();
    var s0 := Init(DEMO_THREADS);
    ReachesStep(DEMO, s0, s0, Trap(1));
    var s1 := Next(DEMO, s0, Trap(1));
    ReachesStep(DEMO, s0, s1, Quit);
    s := Next(DEMO, s1, Quit);
  }
}
