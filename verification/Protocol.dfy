/** The breakpoint protocol as a transition system: the threads of the target on
    one side, the tracer's event loop on the other. The tracer's memory writes do
    not appear here: the text at a wait point is defined outright by which call is
    pending (`TextOf`). `Monitor` shows that the event loop, which patches words
    step by step, keeps the real text equal to it. */
module Protocol {
  import opened Basics
  import opened TargetText

  /** What the tracer was given: the untouched text, the four API entries and the main
      thread, whose id is that of the process. */
  datatype Target = Target(orig: Text, entries: seq<nat>, main: Tid)

  predicate Apart(a: nat, b: nat) {
    a + 8 <= b || b + 8 <= a
  }

  ghost predicate WellFormed(tg: Target) {
    && |tg.entries| == 4
    && (forall i :: 0 <= i < 4 ==> tg.entries[i] != 0 && tg.entries[i] + 8 <= |tg.orig|)
    && (forall i, j :: 0 <= i < j < 4 ==> Apart(tg.entries[i], tg.entries[j]))
  }

  /** A return address the tracer can patch: mapped, not null, no trap of the
      program's own, and its word apart from the words of the four entries. */
  ghost predicate GoodReturn(tg: Target, ra: nat) {
    && ra != 0 && ra + 8 <= |tg.orig| && tg.orig[ra] != TRAP
    && forall i :: 0 <= i < |tg.entries| ==> Apart(ra, tg.entries[i])
  }

  datatype Status =
    | Running
    | Trapped  // stopped by the trap instruction, not yet reported
    | Held     // reported, kept stopped while another thread's call is pending
    | Stopped  // reported, left stopped because the event loop ended

  /** `ret` is the word on top of the thread's stack. */
  datatype Thread = Thread(pc: nat, ret: nat, rax: Address, rdi: Address, rsi: Address, status: Status)

  datatype Call = Call(owner: Tid, bp: nat, ret: nat, arg1: Address, arg2: Address)

  datatype Observation =
    | Entered(thread: Tid, bp: nat, ret: nat, arg1: Address, arg2: Address)
    | Returned(thread: Tid, bp: nat, pc: nat, value: Address, arg1: Address, arg2: Address)
    | Parked(thread: Tid, pc: nat)
    | Woken(thread: Tid, pc: nat)
    | Stale(thread: Tid, pc: nat)

  datatype State = State(
    threads: map<Tid, Thread>,
    pending: Option<Call>,
    held: seq<Tid>,
    peak: nat,  // most threads traced at one time so far
    done: bool,
    log: seq<Observation>)

  datatype Event =
    | Execute(t: Tid, after: Thread)
    | Trap(t: Tid)
    | Deliver(t: Tid, handlerFails: bool, next: int)  // `next`: result of memblock_expire
    | Alarm(t: Tid, next: int)
    | Forward(t: Tid)  // other stops, continued at once
    | Spawn(t: Tid, first: Thread)
    | Exit(t: Tid)
    | Terminate(t: Tid)  // stopped by the tracer's own SIGSTOP, on a signal to end
    | Quit               // waitpid error, target gone

  function EntrySet(tg: Target): set<nat> {
    set i | 0 <= i < |tg.entries| :: tg.entries[i]
  }

  /** The patched addresses at a wait point. */
  ghost function Traps(tg: Target, pending: Option<Call>): set<nat> {
    match pending
    case None => EntrySet(tg)
    case Some(c) => set a | a in EntrySet(tg) + {c.ret} && (c.bp < |tg.entries| ==> a != tg.entries[c.bp])
  }

  ghost function TextOf(tg: Target, s: State): Text {
    Patched(tg.orig, Traps(tg, s.pending))
  }

  ghost predicate IsRunning(s: State, t: Tid) {
    t in s.threads && s.threads[t].status == Running
  }

  ghost predicate Owns(s: State, t: Tid) {
    s.pending.Some? && s.pending.value.owner == t
  }

  /** A write to the target's memory through its main thread takes effect: the thread is
      there and stopped. */
  ghost predicate Writable(tg: Target, s: State) {
    tg.main in s.threads && s.threads[tg.main].status != Running
  }

  /** What the environment may do. A thread traps only on patched bytes and leaves only
      when its call is not pending. The owner of the pending call executes only unpatched
      bytes. Other threads run while the tracer rewrites the text; so a thread without a
      pending call may also trap at an entry that is patched only for a moment, or run
      over a byte that is unpatched only for a moment (`Transient` in module `Monitor`
      shows that this covers every intermediate text). */
  ghost predicate Enabled(tg: Target, s: State, e: Event) {
    && !s.done
    && match e
       case Execute(t, th) =>
         && IsRunning(s, t) && th.status == Running
         && (Owns(s, t) && s.threads[t].pc < |tg.orig| ==>
               TextOf(tg, s)[s.threads[t].pc] == tg.orig[s.threads[t].pc])
       case Trap(t) =>
         && IsRunning(s, t)
         && var pc := s.threads[t].pc;
            && pc < |tg.orig| && tg.orig[pc] != TRAP
            && (TextOf(tg, s)[pc] == TRAP || (pc in EntrySet(tg) && !Owns(s, t)))
            && (pc in EntrySet(tg) ==> GoodReturn(tg, s.threads[t].ret))
       case Deliver(t, _, _) => t in s.threads && s.threads[t].status == Trapped
       case Alarm(t, _) => IsRunning(s, t)
       case Forward(t) => IsRunning(s, t)
       case Spawn(t, th) => t !in s.threads && th.status == Running
       case Exit(t) => IsRunning(s, t) && !Owns(s, t)
       case Terminate(t) => IsRunning(s, t)
       case Quit => true
  }

  /** breakpoint_by_entry. */
  function EntryIndex(tg: Target, a: nat): (r: Option<nat>)
    ensures r.Some? ==> r.value < |tg.entries| && tg.entries[r.value] == a
    ensures r.None? ==> a !in EntrySet(tg)
  {
    EntryIndexFrom(tg.entries, a, 0)
  }

  function EntryIndexFrom(entries: seq<nat>, a: nat, i: nat): (r: Option<nat>)
    requires i <= |entries|
    ensures r.Some? ==> i <= r.value < |entries| && entries[r.value] == a
    ensures r.None? ==> forall j :: i <= j < |entries| ==> entries[j] != a
    decreases |entries| - i
  {
    if i == |entries| then None else if entries[i] == a then Some(i) else EntryIndexFrom(entries, a, i + 1)
  }

  function SetThread(s: State, t: Tid, th: Thread): State {
    s.(threads := s.threads[t := th])
  }

  function Note(s: State, o: Observation): State {
    s.(log := s.log + [o])
  }

  /** The end of an iteration: memblock_expire, then continue thread `t`. */
  function Resume(s: State, t: Tid, next: int): State
    requires t in s.threads
  {
    if next < 0 then SetThread(s, t, s.threads[t].(status := Stopped)).(done := true)
    else SetThread(s, t, s.threads[t].(status := Running))
  }

  /** Wake the most recently held thread, if any. */
  function WakeOne(s: State): State
    requires forall t :: t in s.held ==> t in s.threads
  {
    if s.held == [] then s
    else
      var t := s.held[|s.held| - 1];
      Note(SetThread(s, t, s.threads[t].(status := Running)), Woken(t, s.threads[t].pc))
      .(held := s.held[..|s.held| - 1])
  }

  /** The pending call is over and its handler has run. */
  function AfterReturn(s: State, t: Tid): State
    requires s.pending.Some? && t in s.threads
  {
    var c, th := s.pending.value, s.threads[t];
    Note(s, Returned(t, c.bp, th.pc, th.rax, c.arg1, c.arg2)).(pending := None)
  }

  /** One delivered trap. `s` already has the program counter unwound to `rip`. */
  function OnTrap(tg: Target, s: State, t: Tid, fails: bool, next: int): State
    requires t in s.threads
    requires forall h :: h in s.held ==> h in s.threads
  {
    var th := s.threads[t];
    if s.pending.Some? && s.pending.value.owner != t then
      Note(SetThread(s, t, th.(status := Held)), Parked(t, th.pc)).(held := s.held + [t])
    else if s.pending.Some? && s.pending.value.ret == th.pc then
      var r := AfterReturn(s, t);
      if fails then r.(done := true) else Resume(WakeOne(r), t, next)
    else
      match EntryIndex(tg, th.pc)
      case Some(i) =>
        var entered := Note(s, Entered(t, i, th.ret, th.rdi, th.rsi));
        Resume(entered.(pending := Some(Call(t, i, th.ret, th.rdi, th.rsi))), t, next)
      case None =>
        Resume(Note(s, Stale(t, th.pc)), t, next)
  }

  /** pc_unwind: the trap instruction is one byte long. */
  function Unwound(s: State, t: Tid): State
    requires t in s.threads && s.threads[t].pc > 0
  {
    SetThread(s, t, s.threads[t].(pc := s.threads[t].pc - 1, status := Stopped))
  }

  ghost function Next(tg: Target, s: State, e: Event): State
    requires Inv(tg, s) && Enabled(tg, s, e)
  {
    match e
    case Execute(t, th) => SetThread(s, t, th)
    case Trap(t) => SetThread(s, t, s.threads[t].(pc := s.threads[t].pc + 1, status := Trapped))
    case Deliver(t, fails, next) => OnTrap(tg, Unwound(s, t), t, fails, next)
    case Alarm(t, next) => Resume(s, t, next)
    case Forward(t) => s
    case Spawn(t, th) =>
      var s' := SetThread(s, t, th);
      s'.(peak := if |s'.threads| > s.peak then |s'.threads| else s.peak)
    case Exit(t) => s.(threads := s.threads - {t})
    case Terminate(t) => Resume(s, t, -1)
    case Quit => s.(done := true)
  }

  function Init(threads: map<Tid, Thread>): State {
    State(threads, None, [], |threads|, false, [])
  }

  // ----- What every step keeps

  /** The address at which a stopped thread hit its trap. */
  function TrapAddress(th: Thread): int {
    if th.status == Trapped then th.pc - 1 else th.pc
  }

  ghost predicate ThreadOk(tg: Target, th: Thread) {
    th.status == Trapped || th.status == Held ==>
      var a := TrapAddress(th);
      && 0 < a && a + 8 <= |tg.orig| && tg.orig[a] != TRAP
      && (a in EntrySet(tg) ==> GoodReturn(tg, th.ret))
  }

  ghost predicate CallOk(tg: Target, s: State, c: Call) {
    && c.bp < |tg.entries| && GoodReturn(tg, c.ret)
    && c.owner in s.threads && s.threads[c.owner].status != Held
    && (s.threads[c.owner].status == Trapped ==> TrapAddress(s.threads[c.owner]) in Traps(tg, Some(c)))
  }

  ghost predicate HeldOk(s: State) {
    && Distinct(s.held)
    && (forall t :: t in s.held <==> t in s.threads && s.threads[t].status == Held)
    && |s.held| < s.peak
    && (!s.done ==> forall t :: t in s.threads ==> s.threads[t].status != Stopped)
  }

  ghost predicate Inv(tg: Target, s: State) {
    && WellFormed(tg)
    && (forall t :: t in s.threads ==> ThreadOk(tg, s.threads[t]))
    && (s.pending.Some? ==> CallOk(tg, s, s.pending.value))
    && HeldOk(s)
    && |s.threads| <= s.peak
  }

  /** While a call is pending its owner is a traced thread that is not held. */
  lemma HeldFewerThanThreads(tg: Target, s: State)
    requires Inv(tg, s) && s.pending.Some?
    ensures |s.held| < |s.threads|
  {
    DistinctCount(s.held, s.threads.Keys - {s.pending.value.owner});
  }

  lemma InitInv(tg: Target, threads: map<Tid, Thread>)
    requires WellFormed(tg) && threads != map[]
    requires forall t :: t in threads ==> threads[t].status == Running
    ensures Inv(tg, Init(threads))
  {
  }

  // The step lemmas below handle one kind of event each.

  lemma ExecuteKeepsInv(tg: Target, s: State, t: Tid, th: Thread)
    requires Inv(tg, s) && IsRunning(s, t) && th.status == Running
    ensures Inv(tg, SetThread(s, t, th))
  {
    assert SetThread(s, t, th).threads.Keys == s.threads.Keys;
  }

  lemma TrapKeepsInv(tg: Target, s: State, t: Tid)
    requires Inv(tg, s) && Enabled(tg, s, Trap(t))
    ensures Inv(tg, Next(tg, s, Trap(t)))
  {
    hide TextOf, GoodReturn, Patched, Traps;
    TrapsArePatched(tg, s, t);
    assert Next(tg, s, Trap(t)).threads.Keys == s.threads.Keys;
  }

  /** A trapping thread stands on an address with a word behind it; if it owns the
      pending call, on one that is patched at wait points. */
  lemma TrapsArePatched(tg: Target, s: State, t: Tid)
    requires Inv(tg, s) && Enabled(tg, s, Trap(t))
    ensures var pc := s.threads[t].pc;
            && 0 < pc && pc + 8 <= |tg.orig| && tg.orig[pc] != TRAP
            && (pc in EntrySet(tg) ==> GoodReturn(tg, s.threads[t].ret))
            && (Owns(s, t) ==> pc in Traps(tg, s.pending))
  {
  }

  lemma AlarmKeepsInv(tg: Target, s: State, t: Tid, next: int)
    requires Inv(tg, s) && Enabled(tg, s, Alarm(t, next))
    ensures Inv(tg, Next(tg, s, Alarm(t, next)))
  {
    assert Next(tg, s, Alarm(t, next)).threads.Keys == s.threads.Keys;
  }

  lemma SpawnKeepsInv(tg: Target, s: State, t: Tid, th: Thread)
    requires Inv(tg, s) && Enabled(tg, s, Spawn(t, th))
    ensures Inv(tg, Next(tg, s, Spawn(t, th)))
  {
  }

  lemma ExitKeepsInv(tg: Target, s: State, t: Tid)
    requires Inv(tg, s) && Enabled(tg, s, Exit(t))
    ensures Inv(tg, Next(tg, s, Exit(t)))
  {
    assert (s.threads - {t}).Keys == s.threads.Keys - {t};
  }

  /** The state inside an iteration: thread `t` is stopped at its own trap address
      and everything else is as at a wait point. */
  ghost predicate MidStep(tg: Target, s: State, t: Tid) {
    && !s.done && t in s.threads && s.threads[t].status == Stopped
    && Inv(tg, SetThread(s, t, s.threads[t].(status := Running)))
    && ThreadOk(tg, s.threads[t].(status := Held))
    && (s.pending.Some? && s.pending.value.owner == t ==> s.threads[t].pc in Traps(tg, s.pending))
  }

  lemma UnwoundIsMidStep(tg: Target, s: State, t: Tid)
    requires Inv(tg, s) && !s.done && t in s.threads && s.threads[t].status == Trapped
    ensures s.threads[t].pc > 0 && MidStep(tg, Unwound(s, t), t)
  {
    var u := Unwound(s, t);
    var v := SetThread(u, t, u.threads[t].(status := Running));
    assert v.threads.Keys == s.threads.Keys;
  }

  lemma MidStepFacts(tg: Target, s: State, t: Tid)
    requires MidStep(tg, s, t)
    ensures WellFormed(tg) && t in s.threads && !s.done && t !in s.held && Distinct(s.held)
    ensures 0 < s.threads[t].pc && s.threads[t].pc + 8 <= |tg.orig| && tg.orig[s.threads[t].pc] != TRAP
    ensures s.threads[t].pc in EntrySet(tg) ==> GoodReturn(tg, s.threads[t].ret)
    ensures forall h :: h in s.held ==> h in s.threads
    ensures s.pending.Some? ==> s.pending.value.bp < 4 && GoodReturn(tg, s.pending.value.ret)
    ensures s.pending.Some? ==> s.pending.value.ret != 0
    ensures s.pending.Some? && s.pending.value.owner == t && s.pending.value.ret != s.threads[t].pc ==>
              s.threads[t].pc in EntrySet(tg)
  {
  }

  lemma ResumeKeepsInv(tg: Target, s: State, t: Tid, next: int)
    requires !s.done && t in s.threads
    requires Inv(tg, SetThread(s, t, s.threads[t].(status := Running)))
    ensures Inv(tg, Resume(s, t, next))
  {
    var v := SetThread(s, t, s.threads[t].(status := Running));
    assert Resume(s, t, next).threads.Keys == v.threads.Keys;
  }

  lemma ParkKeepsInv(tg: Target, s: State, t: Tid, fails: bool, next: int)
    requires MidStep(tg, s, t) && s.pending.Some? && s.pending.value.owner != t
    ensures Inv(tg, OnTrap(tg, s, t, fails, next))
  {
    var v := SetThread(s, t, s.threads[t].(status := Running));
    assert v.threads.Keys == s.threads.Keys;
    var r := OnTrap(tg, s, t, fails, next);
    assert r.threads.Keys == s.threads.Keys;
    assert t !in s.held;
    DistinctCount(r.held, r.threads.Keys - {s.pending.value.owner});
  }

  lemma WakeKeepsInv(tg: Target, s: State)
    requires Inv(tg, s) && !s.done
    ensures Inv(tg, WakeOne(s))
  {
    if s.held != [] {
      assert WakeOne(s).threads.Keys == s.threads.Keys;
      var t := s.held[|s.held| - 1];
      assert t in s.held;
      assert forall u :: u in s.held <==> u == t || u in s.held[..|s.held| - 1];
    }
  }

  lemma WakeCommutes(s: State, t: Tid, th: Thread)
    requires forall h :: h in s.held ==> h in s.threads
    requires t in s.threads && t !in s.held
    ensures SetThread(WakeOne(s), t, th) == WakeOne(SetThread(s, t, th))
    ensures WakeOne(s).threads.Keys == s.threads.Keys && WakeOne(s).threads[t] == s.threads[t]
  {
    if s.held != [] {
      var h := s.held[|s.held| - 1];
      assert h in s.held;
      assert SetThread(WakeOne(s), t, th).threads == WakeOne(SetThread(s, t, th)).threads;
    }
  }

  lemma ReturnKeepsInv(tg: Target, s: State, t: Tid, fails: bool, next: int)
    requires MidStep(tg, s, t) && s.pending.Some? && s.pending.value.owner == t
    requires s.pending.value.ret == s.threads[t].pc
    ensures Inv(tg, OnTrap(tg, s, t, fails, next))
  {
    var running := s.threads[t].(status := Running);
    var r := AfterReturn(s, t);
    var q := SetThread(r, t, running);
    assert Inv(tg, q) by {
      assert q == SetThread(s, t, running).(pending := None, log := r.log);
    }
    assert q.threads.Keys == s.threads.Keys && t !in s.held;
    if fails {
      assert OnTrap(tg, s, t, fails, next) == r.(done := true);
    } else {
      WakeKeepsInv(tg, q);
      WakeCommutes(r, t, running);
      ResumeKeepsInv(tg, WakeOne(r), t, next);
      assert OnTrap(tg, s, t, fails, next) == Resume(WakeOne(r), t, next);
    }
  }

  lemma EntryOrStaleKeepsInv(tg: Target, s: State, t: Tid, fails: bool, next: int)
    requires MidStep(tg, s, t)
    requires s.pending.Some? ==> s.pending.value.owner == t && s.pending.value.ret != s.threads[t].pc
    ensures Inv(tg, OnTrap(tg, s, t, fails, next))
  {
    var th := s.threads[t];
    var v := SetThread(s, t, th.(status := Running));
    match EntryIndex(tg, th.pc) {
      case Some(i) =>
        var r := Note(s, Entered(t, i, th.ret, th.rdi, th.rsi)).(pending := Some(Call(t, i, th.ret, th.rdi, th.rsi)));
        assert SetThread(r, t, th.(status := Running)) == v.(pending := r.pending, log := r.log);
        ResumeKeepsInv(tg, r, t, next);
      case None =>
        var r := Note(s, Stale(t, th.pc));
        assert SetThread(r, t, th.(status := Running)) == v.(log := r.log);
        ResumeKeepsInv(tg, r, t, next);
    }
  }

  lemma DeliverKeepsInv(tg: Target, s: State, t: Tid, fails: bool, next: int)
    requires Inv(tg, s) && Enabled(tg, s, Deliver(t, fails, next))
    ensures Inv(tg, Next(tg, s, Deliver(t, fails, next)))
  {
    UnwoundIsMidStep(tg, s, t);
    var u := Unwound(s, t);
    if u.pending.Some? && u.pending.value.owner != t {
      ParkKeepsInv(tg, u, t, fails, next);
    } else if u.pending.Some? && u.pending.value.ret == u.threads[t].pc {
      ReturnKeepsInv(tg, u, t, fails, next);
    } else {
      EntryOrStaleKeepsInv(tg, u, t, fails, next);
    }
  }

  lemma InvStep(tg: Target, s: State, e: Event)
    requires Inv(tg, s) && Enabled(tg, s, e)
    ensures Inv(tg, Next(tg, s, e))
  {
    match e
    case Execute(t, th) => ExecuteKeepsInv(tg, s, t, th);
    case Trap(t) => TrapKeepsInv(tg, s, t);
    case Deliver(t, fails, next) => DeliverKeepsInv(tg, s, t, fails, next);
    case Alarm(t, next) => AlarmKeepsInv(tg, s, t, next);
    case Spawn(t, th) => SpawnKeepsInv(tg, s, t, th);
    case Exit(t) => ExitKeepsInv(tg, s, t);
    case Terminate(t) => AlarmKeepsInv(tg, s, t, -1);
    case _ =>
  }
}
