/** The block ledger as plain values: live blocks in creation order, the first
    `split` of them expired, and one account per callstack. Module `Ledger` shows
    that the linked structures refine it. `C` identifies callstacks. */
module LedgerModel {
  import opened Basics

  datatype Block<C> = Block(pointer: Address, size: nat, create: int, cs: C)

  /** The counters of `struct callstack_s`. */
  datatype Stats = Stats(
    id: nat,
    allocCount: int, freeCount: int, expiredCount: int, freeExpiredCount: int,
    allocSize: int, freeSize: int, expiredSize: int, freeExpiredSize: int,
    freeMin: int, freeMax: int, freeTotal: int, unfreeMax: int)

  const ZERO := Stats(0, 0, 0, 0, 0, 0, 0, 0, 0, 0, 0, 0, 0)

  /** The counters together with what they summarize: the lifetimes of the freed
      blocks and the net in-place resizing of blocks after they expired. */
  datatype Account = Account(stats: Stats, freed: seq<int>, resized: int)

  const NEW_ACCOUNT := Account(ZERO, [], 0)

  /** `byId` lists the callstacks that ever expired, in the order of their ids. */
  datatype Ledger<C(==)> = Ledger(live: seq<Block<C>>, split: nat, accounts: map<C, Account>, byId: seq<C>)

  function Empty<C>(): Ledger<C> {
    Ledger([], 0, map[], [])
  }

  ghost predicate WellFormed<C>(l: Ledger<C>) {
    && l.split <= |l.live|
    && (forall i :: 0 <= i < |l.live| ==> l.live[i].cs in l.accounts)
  }

  // ----- Operations

  function Adopt<C>(l: Ledger<C>, cs: C): Ledger<C> {
    if cs in l.accounts then l else l.(accounts := l.accounts[cs := NEW_ACCOUNT])
  }

  function NewStats(s: Stats, size: nat): Stats {
    s.(allocCount := s.allocCount + 1, allocSize := s.allocSize + size)
  }

  /** memblock_new. */
  function New<C>(l: Ledger<C>, pointer: Address, size: nat, cs: C, now: int): Ledger<C> {
    var a := Adopt(l, cs);
    if pointer == 0 then a
    else
      var acc := a.accounts[cs];
      a.(live := a.live + [Block(pointer, size, now, cs)],
         accounts := a.accounts[cs := acc.(stats := NewStats(acc.stats, size))])
  }

  function DeleteStats(s: Stats, size: nat, expired: bool, freeTime: int): Stats {
    var e :=
      if expired then
        s.(freeExpiredCount := s.freeExpiredCount + 1, freeExpiredSize := s.freeExpiredSize + size)
      else s;
    e.(freeCount := e.freeCount + 1,
       freeSize := e.freeSize + size,
       freeTotal := e.freeTotal + freeTime,
       freeMax := if freeTime > e.freeMax then freeTime else e.freeMax,
       freeMin := if e.freeMin == 0 || freeTime < e.freeMin then freeTime else e.freeMin)
  }

  /** memblock_delete of the block at position `i`. */
  function Delete<C>(l: Ledger<C>, i: nat, now: int): Ledger<C>
    requires WellFormed(l) && i < |l.live|
  {
    var b := l.live[i];
    var acc := l.accounts[b.cs];
    var lifetime := now - b.create;
    l.(live := Remove(l.live, i),
       split := if i < l.split then l.split - 1 else l.split,
       accounts := l.accounts[b.cs := acc.(stats := DeleteStats(acc.stats, b.size, i < l.split, lifetime),
                                           freed := acc.freed + [lifetime])])
  }

  /** memblock_update_size of the block at position `i`. */
  function Resize<C>(l: Ledger<C>, i: nat, size: nat): Ledger<C>
    requires WellFormed(l) && i < |l.live|
  {
    var b := l.live[i];
    var acc := l.accounts[b.cs];
    var s := acc.stats;
    var delta := if i < l.split then size - b.size else 0;
    l.(live := l.live[i := b.(size := size)],
       accounts := l.accounts[b.cs := acc.(stats := s.(allocSize := s.allocSize - b.size + size),
                                           resized := acc.resized + delta)])
  }

  /** memblock_expire_one of the oldest active block. */
  function ExpireOne<C>(l: Ledger<C>): Ledger<C>
    requires WellFormed(l) && l.split < |l.live|
  {
    var b := l.live[l.split];
    var acc := l.accounts[b.cs];
    var s := acc.stats;
    var first := s.id == 0;
    l.(split := l.split + 1,
       byId := if first then l.byId + [b.cs] else l.byId,
       accounts := l.accounts[b.cs := acc.(stats := s.(
         id := if first then |l.byId| + 1 else s.id,
         expiredCount := s.expiredCount + 1,
         expiredSize := s.expiredSize + b.size))])
  }

  /** The limit checks behind memblock_expire_one. */
  predicate OverLimit(s: Stats, memblockLimit: int, callstackLimit: int) {
    s.id >= callstackLimit + 1 || s.expiredCount >= memblockLimit
  }

  /** memblock_expire: stops at the first block that is too young. */
  function Expire<C>(l: Ledger<C>, now: int, expire: int, memblockLimit: int,
                     callstackLimit: int): (r: (Ledger<C>, int))
    requires WellFormed(l)
    ensures r.0.live == l.live && l.split <= r.0.split <= |l.live| && WellFormed(r.0)
    decreases |l.live| - l.split
  {
    if l.split == |l.live| then (l, 0)
    else
      var b := l.live[l.split];
      if now - b.create < expire then (l, expire - (now - b.create) + 1)
      else
        var l' := ExpireOne(l);
        if OverLimit(l'.accounts[b.cs].stats, memblockLimit, callstackLimit) then (l', -1)
        else Expire(l', now, expire, memblockLimit, callstackLimit)
  }

  /** memblock_search: the newest live block with this pointer. */
  function Find<C>(live: seq<Block<C>>, pointer: Address): (r: Option<nat>)
    ensures r.Some? ==> r.value < |live| && live[r.value].pointer == pointer
                        && forall j :: r.value < j < |live| ==> live[j].pointer != pointer
    ensures r.None? ==> forall j :: 0 <= j < |live| ==> live[j].pointer != pointer
  {
    if live == [] then None
    else
      var n := |live| - 1;
      if live[n].pointer == pointer then Some(n) else Find(live[..n], pointer)
  }

  /** One visit of memblock_count. */
  function CountOne<C>(l: Ledger<C>, i: nat, now: int): Ledger<C>
    requires WellFormed(l) && i < |l.live|
  {
    var b := l.live[i];
    var acc := l.accounts[b.cs];
    if acc.stats.unfreeMax != 0 then l
    else l.(accounts := l.accounts[b.cs := acc.(stats := acc.stats.(unfreeMax := now - b.create))])
  }

  /** memblock_count up to position `n`. */
  function Count<C>(l: Ledger<C>, n: nat, now: int): (r: Ledger<C>)
    requires WellFormed(l) && n <= |l.live|
    ensures r.live == l.live && r.split == l.split && r.byId == l.byId && r.accounts.Keys == l.accounts.Keys
  {
    if n == 0 then l else CountOne(Count(l, n - 1, now), n - 1, now)
  }

  // ----- The handlers of the four APIs

  datatype Call =
    | Malloc(ret: Address, size: nat)
    | Free(pointer: Address)
    | Realloc(ret: Address, from: Address, size: nat)
    | Calloc(ret: Address, nmemb: nat, size: nat)

  /** The calls for which memblock_new is called, and so callstack_current. */
  predicate Allocates(call: Call) {
    call.Malloc? || call.Calloc? || (call.Realloc? && call.ret != call.from)
  }

  function DeleteFound<C>(l: Ledger<C>, pointer: Address, now: int): Ledger<C>
    requires WellFormed(l)
  {
    match Find(l.live, pointer)
    case None => l
    case Some(i) => Delete(l, i, now)
  }

  function ResizeFound<C>(l: Ledger<C>, pointer: Address, size: nat): Ledger<C>
    requires WellFormed(l)
  {
    match Find(l.live, pointer)
    case None => l
    case Some(i) => Resize(l, i, size)
  }

  /** The handlers. The clock is read when a block is deleted (`freed`) and when one is
      created (`now`); a realloc that moves does both. */
  function Handle<C>(l: Ledger<C>, call: Call, cs: C, freed: int, now: int): Ledger<C>
    requires WellFormed(l)
  {
    match call
    case Malloc(ret, size) => New(l, ret, size, cs, now)
    case Free(pointer) => DeleteFound(l, pointer, freed)
    case Realloc(ret, from, size) =>
      if ret == from then ResizeFound(l, from, size)
      else New(DeleteFound(l, from, freed), ret, size, cs, now)
    case Calloc(ret, nmemb, size) => New(l, ret, nmemb * size % WORD, cs, now)
  }
}
