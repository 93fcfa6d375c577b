/** The ledger against a plain map from pointers to sizes. */
module TrackedMap {
  import opened Basics
  import opened LedgerModel

  /** What the ledger would answer for each pointer: the size of its newest block. */
  function Tracked<C>(live: seq<Block<C>>): map<Address, nat> {
    if live == [] then map[]
    else
      var n := |live| - 1;
      Tracked(live[..n])[live[n].pointer := live[n].size]
  }

  ghost predicate NoRepeats<C>(live: seq<Block<C>>) {
    forall i, j :: 0 <= i < j < |live| ==> live[i].pointer != live[j].pointer
  }

  /** `Tracked` is what memblock_search sees. */
  lemma {:induction false} TrackedIsFound<C>(live: seq<Block<C>>, p: Address)
    ensures p in Tracked(live) <==> Find(live, p).Some?
    ensures Find(live, p).Some? ==> Tracked(live)[p] == live[Find(live, p).value].size
  {
    if live != [] && live[|live| - 1].pointer != p {
      var t := live[..|live| - 1];
      TrackedIsFound(t, p);
      assert Find(live, p) == Find(t, p);
      assert forall i :: 0 <= i < |t| ==> t[i] == live[i];
    } else if live != [] {
      assert Find(live, p) == Some(|live| - 1);
    }
  }

  /** What a call means for the set of allocated blocks, independently of the code:
      a failed realloc leaves the old block alone, one with size 0 frees it. */
  function Replay(m: map<Address, nat>, call: Call): map<Address, nat> {
    match call
    case Malloc(ret, size) => Allocated(m, ret, size)
    case Free(pointer) => m - {pointer}
    case Realloc(ret, from, size) =>
      if ret == from then (if from in m then m[from := size] else m)
      else if ret == 0 && size != 0 then m
      else Allocated(m - {from}, ret, size)
    case Calloc(ret, nmemb, size) => Allocated(m, ret, nmemb * size % WORD)
  }

  function Allocated(m: map<Address, nat>, ret: Address, size: nat): map<Address, nat> {
    if ret == 0 then m else m[ret := size]
  }

  /** The allocator hands out no pointer that is still tracked, and no realloc of a
      tracked block fails. */
  predicate Tame(m: map<Address, nat>, call: Call) {
    match call
    case Malloc(ret, _) => ret == 0 || ret !in m
    case Free(_) => true
    case Realloc(ret, from, size) =>
      ret == from || if ret == 0 then size == 0 || from !in m else ret !in m
    case Calloc(ret, _, _) => ret == 0 || ret !in m
  }

  lemma NewLive<C>(l: Ledger<C>, pointer: Address, size: nat, cs: C, now: int)
    requires WellFormed(l)
    ensures var r := New(l, pointer, size, cs, now);
            && WellFormed(r)
            && r.live == if pointer == 0 then l.live else l.live + [Block(pointer, size, now, cs)]
  {
  }

  lemma TrackedNew<C>(l: Ledger<C>, pointer: Address, size: nat, cs: C, now: int)
    requires WellFormed(l) && NoRepeats(l.live) && (pointer == 0 || pointer !in Tracked(l.live))
    ensures WellFormed(New(l, pointer, size, cs, now)) && NoRepeats(New(l, pointer, size, cs, now).live)
    ensures Tracked(New(l, pointer, size, cs, now).live) == Allocated(Tracked(l.live), pointer, size)
  {
    hide New;
    NewLive(l, pointer, size, cs, now);
    TrackedIsFound(l.live, pointer);
    assert (l.live + [Block(pointer, size, now, cs)])[..|l.live|] == l.live;
  }

  /** Removing a block removes its pointer if and only if no other live block has
      the same pointer; otherwise an older block shows through. */
  lemma {:induction false} TrackedRemove<C>(live: seq<Block<C>>, k: nat)
    requires k < |live|
    requires forall j :: k < j < |live| ==> live[j].pointer != live[k].pointer
    ensures Tracked(Remove(live, k)) == Tracked(live) - {live[k].pointer} <==>
            forall j :: 0 <= j < k ==> live[j].pointer != live[k].pointer
  {
    var p := live[k].pointer;
    var r := Remove(live, k);
    if j :| 0 <= j < k && live[j].pointer == p {
      assert r[j].pointer == p;
      TrackedIsFound(r, p);
    } else {
      TrackedRemoveOnly(live, k);
    }
  }

  lemma {:induction false} TrackedRemoveOnly<C>(live: seq<Block<C>>, k: nat)
    requires k < |live|
    requires forall j :: 0 <= j < |live| && j != k ==> live[j].pointer != live[k].pointer
    ensures Tracked(Remove(live, k)) == Tracked(live) - {live[k].pointer}
  {
    var n := |live| - 1;
    var r := Remove(live, k);
    if k == n {
      assert r == live[..n];
      TrackedIsFound(live[..n], live[k].pointer);
    } else {
      var t := live[..n];
      assert r[..n - 1] == Remove(t, k) && r[n - 1] == live[n];
      TrackedRemoveOnly(t, k);
    }
  }

  lemma {:induction false} TrackedUpdate<C>(live: seq<Block<C>>, k: nat, size: nat)
    requires k < |live|
    requires forall j :: k < j < |live| ==> live[j].pointer != live[k].pointer
    ensures Tracked(live[k := live[k].(size := size)]) == Tracked(live)[live[k].pointer := size]
  {
    var n := |live| - 1;
    var u := live[k := live[k].(size := size)];
    if k == n {
      assert u[..n] == live[..n];
    } else {
      assert u[..n] == live[..n][k := live[k].(size := size)];
      TrackedUpdate(live[..n], k, size);
    }
  }

  lemma TrackedDeleteFound<C>(l: Ledger<C>, pointer: Address, now: int)
    requires WellFormed(l) && NoRepeats(l.live)
    ensures WellFormed(DeleteFound(l, pointer, now)) && NoRepeats(DeleteFound(l, pointer, now).live)
    ensures Tracked(DeleteFound(l, pointer, now).live) == Tracked(l.live) - {pointer}
  {
    var i := Find(l.live, pointer);
    if i.Some? {
      TrackedRemoveOnly(l.live, i.value);
    } else {
      TrackedIsFound(l.live, pointer);
    }
  }

  lemma TrackedResizeFound<C>(l: Ledger<C>, pointer: Address, size: nat)
    requires WellFormed(l) && NoRepeats(l.live)
    ensures var r := ResizeFound(l, pointer, size);
            && WellFormed(r) && NoRepeats(r.live)
            && var m := Tracked(l.live);
               Tracked(r.live) == if pointer in m then m[pointer := size] else m
  {
    var i := Find(l.live, pointer);
    TrackedIsFound(l.live, pointer);
    if i.Some? {
      TrackedUpdate(l.live, i.value, size);
    }
  }

  /** One tame call changes the ledger as it changes the plain map. */
  lemma HandleReplays<C>(l: Ledger<C>, call: Call, cs: C, freed: int, now: int)
    requires WellFormed(l) && NoRepeats(l.live) && Tame(Tracked(l.live), call)
    ensures WellFormed(Handle(l, call, cs, freed, now)) && NoRepeats(Handle(l, call, cs, freed, now).live)
    ensures Tracked(Handle(l, call, cs, freed, now).live) == Replay(Tracked(l.live), call)
  {
    hide New, DeleteFound, ResizeFound, Tracked;
    match call
    case Malloc(ret, size) => TrackedNew(l, ret, size, cs, now);
    case Free(pointer) => TrackedDeleteFound(l, pointer, freed);
    case Realloc(ret, from, size) =>
      if ret == from {
        TrackedResizeFound(l, from, size);
      } else {
        TrackedDeleteFound(l, from, freed);
        TrackedNew(DeleteFound(l, from, freed), ret, size, cs, now);
      }
    case Calloc(ret, nmemb, size) => TrackedNew(l, ret, nmemb * size % WORD, cs, now);
  }

  ghost predicate LiveOnce<C>(live: seq<Block<C>>, p: Address) {
    forall i, j :: 0 <= i < j < |live| ==> live[i].pointer != p || live[j].pointer != p
  }

  /** What is tracked of the blocks before the newest one with pointer `p`. */
  function Older<C>(live: seq<Block<C>>, p: Address): map<Address, nat> {
    match Find(live, p)
    case None => map[]
    case Some(k) => Tracked(live[..k])
  }

  /** A free is replayed exactly if at most one live block has the pointer. */
  lemma FreeExact<C>(l: Ledger<C>, p: Address, cs: C, freed: int, now: int)
    requires WellFormed(l)
    ensures Tracked(Handle(l, Free(p), cs, freed, now).live) == Replay(Tracked(l.live), Free(p)) <==>
            LiveOnce(l.live, p)
  {
    TrackedIsFound(l.live, p);
    var k := Find(l.live, p);
    if k.Some? {
      TrackedRemove(l.live, k.value);
      if i, j :| 0 <= i < j < |l.live| && l.live[i].pointer == p && l.live[j].pointer == p {
        assert i < k.value;
      }
    }
  }

  /** What a deletion leaves: an older block with the same pointer shows through. */
  lemma {:induction false} TrackedAfterRemove<C>(live: seq<Block<C>>, k: nat)
    requires k < |live|
    requires forall j :: k < j < |live| ==> live[j].pointer != live[k].pointer
    ensures var p, older := live[k].pointer, Tracked(live[..k]);
            Tracked(Remove(live, k)) == if p in older then Tracked(live)[p := older[p]] else Tracked(live) - {p}
  {
    var n := |live| - 1;
    var r := Remove(live, k);
    if k == n {
      assert r == live[..n];
    } else {
      var t := live[..n];
      assert r[..n - 1] == Remove(t, k) && r[n - 1] == live[n] && t[..k] == live[..k];
      TrackedAfterRemove(t, k);
    }
  }

  lemma {:induction false} OlderIsTracked<C>(live: seq<Block<C>>, k: nat)
    requires k < |live|
    ensures live[k].pointer in Tracked(live[..k]) <==> exists j :: 0 <= j < k && live[j].pointer == live[k].pointer
  {
    var p, t := live[k].pointer, live[..k];
    TrackedIsFound(t, p);
    if j :| 0 <= j < k && live[j].pointer == p {
      assert t[j].pointer == p;
    }
  }

  lemma NewestIsTracked<C>(live: seq<Block<C>>, p: Address, k: nat)
    requires Find(live, p) == Some(k)
    ensures k < |live| && p in Tracked(live) && Tracked(live)[p] == live[k].size && live[k].pointer == p
    ensures forall j :: k < j < |live| ==> live[j].pointer != p
  {
    TrackedIsFound(live, p);
  }

  /** A realloc that returns NULL leaves a tracked block allocated unless its size is 0.
      The code forgets the newest block of the pointer, so what it tracks is right exactly
      in these cases: the pointer is not tracked; or it was a free, and no second block has
      the pointer; or it was not, and the block that shows through has the same size. */
  lemma FailedReallocExact<C>(l: Ledger<C>, from: Address, size: nat, cs: C, freed: int, now: int)
    requires WellFormed(l) && from != 0
    ensures var older := Older(l.live, from);
            var call := Realloc(0, from, size);
            Tracked(Handle(l, call, cs, freed, now).live) == Replay(Tracked(l.live), call) <==>
            || from !in Tracked(l.live)
            || (size == 0 && from !in older)
            || (size != 0 && from in older && older[from] == Tracked(l.live)[from])
  {
    hide Tracked;
    var m: map<Address, nat> := Tracked(l.live);
    TrackedIsFound(l.live, from);
    match Find(l.live, from)
    case None =>
      assert m - {from} == m;
    case Some(k) =>
      NewestIsTracked(l.live, from, k);
      TrackedAfterRemove(l.live, k);
      var older: map<Address, nat>, after: map<Address, nat> := Tracked(l.live[..k]), Tracked(Remove(l.live, k));
      assert Handle(l, Realloc(0, from, size), cs, freed, now).live == Remove(l.live, k);
      if from in older {
        assert from in after && after[from] == older[from];
        assert older[from] == m[from] ==> after == m;
        assert from !in m - {from};
      } else {
        assert from !in after && from in m;
      }
  }

  /** Without repeated pointers: exactly if it was a free or the block was not tracked. */
  lemma FailedReallocOfDistinct<C>(l: Ledger<C>, from: Address, size: nat, cs: C, freed: int, now: int)
    requires WellFormed(l) && NoRepeats(l.live) && from != 0
    ensures var call := Realloc(0, from, size);
            Tracked(Handle(l, call, cs, freed, now).live) == Replay(Tracked(l.live), call) <==>
            size == 0 || from !in Tracked(l.live)
  {
    hide Tracked, Handle, Replay;
    FailedReallocExact(l, from, size, cs, freed, now);
    TrackedIsFound(l.live, from);
    match Find(l.live, from)
    case None =>
    case Some(k) =>
      OlderIsTracked(l.live, k);
  }

  // ----- Exactly which calls are replayed, on any ledger

  /** What has to hold for a call to be replayed. Calls that only allocate or resize in
      place always are. One that gives up a pointer needs that no second block has it;
      unless it is a realloc that failed, for which the block that shows through must
      have the same size as the one that is forgotten. */
  ghost predicate Replayed<C>(live: seq<Block<C>>, call: Call) {
    match call
    case Malloc(_, _) => true
    case Calloc(_, _, _) => true
    case Free(p) => LiveOnce(live, p)
    case Realloc(ret, from, size) =>
      || ret == from
      || (if ret != 0 then LiveOnce(live, from)
          else
            || from !in Tracked(live)
            || (size == 0 && from !in Older(live, from))
            || (size != 0 && from in Older(live, from) && Older(live, from)[from] == Tracked(live)[from]))
  }

  lemma TrackedNewAny<C>(l: Ledger<C>, pointer: Address, size: nat, cs: C, now: int)
    requires WellFormed(l)
    ensures WellFormed(New(l, pointer, size, cs, now))
    ensures Tracked(New(l, pointer, size, cs, now).live) == Allocated(Tracked(l.live), pointer, size)
  {
    hide New;
    NewLive(l, pointer, size, cs, now);
    assert (l.live + [Block(pointer, size, now, cs)])[..|l.live|] == l.live;
  }

  lemma TrackedResizeAny<C>(l: Ledger<C>, pointer: Address, size: nat)
    requires WellFormed(l)
    ensures var m := Tracked(l.live);
            Tracked(ResizeFound(l, pointer, size).live) == if pointer in m then m[pointer := size] else m
  {
    TrackedIsFound(l.live, pointer);
    match Find(l.live, pointer)
    case None =>
    case Some(i) => TrackedUpdate(l.live, i, size);
  }

  /** What is left after the newest block of a pointer is deleted. */
  lemma TrackedDeleteAny<C>(l: Ledger<C>, p: Address, now: int)
    requires WellFormed(l)
    ensures WellFormed(DeleteFound(l, p, now))
    ensures var d, m := Tracked(DeleteFound(l, p, now).live), Tracked(l.live);
            && (d == m - {p} <==> LiveOnce(l.live, p))
            && (d != m - {p} ==> p in d)
            && forall q :: q != p ==> (q in d <==> q in m) && (q in m ==> d[q] == m[q])
  {
    hide Tracked;
    TrackedIsFound(l.live, p);
    match Find(l.live, p)
    case None =>
    case Some(k) =>
      NewestIsTracked(l.live, p, k);
      TrackedAfterRemove(l.live, k);
      OlderIsTracked(l.live, k);
      if i, j :| 0 <= i < j < |l.live| && l.live[i].pointer == p && l.live[j].pointer == p {
        assert i < k;
      }
  }

  lemma MovedReallocExact<C>(l: Ledger<C>, ret: Address, from: Address, size: nat, cs: C, freed: int, now: int)
    requires WellFormed(l) && ret != 0 && ret != from
    ensures var call := Realloc(ret, from, size);
            Tracked(Handle(l, call, cs, freed, now).live) == Replay(Tracked(l.live), call) <==> LiveOnce(l.live, from)
  {
    hide New, DeleteFound, Tracked, LiveOnce;
    var m: map<Address, nat> := Tracked(l.live);
    TrackedDeleteAny(l, from, freed);
    var d: map<Address, nat> := Tracked(DeleteFound(l, from, freed).live);
    TrackedNewAny(DeleteFound(l, from, freed), ret, size, cs, now);
    if d != m - {from} {
      assert from in d[ret := size] && from !in (m - {from})[ret := size];
    }
  }

  /** Every call, on every ledger: it changes the tracked blocks as it changes a plain map
      if and only if `Replayed` holds. */
  lemma HandleExact<C>(l: Ledger<C>, call: Call, cs: C, freed: int, now: int)
    requires WellFormed(l)
    ensures Tracked(Handle(l, call, cs, freed, now).live) == Replay(Tracked(l.live), call) <==> Replayed(l.live, call)
  {
    hide New, DeleteFound, ResizeFound, Tracked, LiveOnce, Older;
    match call
    case Malloc(ret, size) => TrackedNewAny(l, ret, size, cs, now);
    case Free(p) => TrackedDeleteAny(l, p, freed);
    case Realloc(ret, from, size) =>
      if ret == from {
        TrackedResizeAny(l, from, size);
      } else if ret != 0 {
        MovedReallocExact(l, ret, from, size, cs, freed, now);
      } else {
        FailedReallocExact(l, from, size, cs, freed, now);
      }
    case Calloc(ret, nmemb, size) => TrackedNewAny(l, ret, nmemb * size % WORD, cs, now);
  }
}
