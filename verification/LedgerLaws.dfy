/** What the counters of every callstack mean, in every reachable state. */
module LedgerLaws {
  import opened Basics
  import opened LedgerModel

  // ----- Independent definitions of what the counters should say

  function Blocks<C(==)>(s: seq<Block<C>>, c: C): nat {
    if s == [] then 0 else Blocks(s[..|s| - 1], c) + (if s[|s| - 1].cs == c then 1 else 0)
  }

  function Bytes<C(==)>(s: seq<Block<C>>, c: C): nat {
    if s == [] then 0 else Bytes(s[..|s| - 1], c) + (if s[|s| - 1].cs == c then s[|s| - 1].size else 0)
  }

  function Sum(s: seq<int>): int {
    if s == [] then 0 else Sum(s[..|s| - 1]) + s[|s| - 1]
  }

  ghost predicate IsMax(m: int, s: seq<int>) {
    (s == [] ==> m == 0) && (s != [] ==> m in s) && forall x :: x in s ==> x <= m
  }

  /** The part of `s` behind its last zero. */
  function SinceZero(s: seq<int>): (r: seq<int>)
    ensures forall x :: x in r ==> x != 0 && x in s
  {
    if s == [] || s[|s| - 1] == 0 then [] else SinceZero(s[..|s| - 1]) + [s[|s| - 1]]
  }

  ghost predicate IsMin(m: int, s: seq<int>) {
    (s == [] ==> m == 0) && (s != [] ==> m in s) && forall x :: x in s ==> m <= x
  }

  ghost predicate LifetimesOk(a: Account) {
    && (forall x :: x in a.freed ==> x >= 0)
    && a.stats.freeCount == |a.freed|
    && a.stats.freeTotal == Sum(a.freed)
    && IsMax(a.stats.freeMax, a.freed)
    && IsMin(a.stats.freeMin, SinceZero(a.freed))
  }

  /** The account of callstack `c` agrees with the blocks that are there. */
  ghost predicate Balanced<C>(l: Ledger<C>, c: C)
    requires c in l.accounts && l.split <= |l.live|
  {
    var a := l.accounts[c];
    var s := a.stats;
    && s.allocCount - s.freeCount == Blocks(l.live, c)
    && s.allocSize - s.freeSize == Bytes(l.live, c)
    && s.expiredCount - s.freeExpiredCount == Blocks(l.live[..l.split], c)
    && s.expiredSize - s.freeExpiredSize == Bytes(l.live[..l.split], c) - a.resized
    && LifetimesOk(a)
  }

  /** Ids are given out 1, 2, 3, ... in the order of `byId`, to those that expired. */
  ghost predicate IdsOk<C>(l: Ledger<C>) {
    && Distinct(l.byId)
    && (forall i :: 0 <= i < |l.byId| ==> l.byId[i] in l.accounts && l.accounts[l.byId[i]].stats.id == i + 1)
    && (forall c :: c in l.accounts ==> (c in l.byId <==> l.accounts[c].stats.id != 0))
    && (forall c :: c in l.accounts ==> (c in l.byId <==> l.accounts[c].stats.expiredCount != 0))
    && (forall c :: c in l.accounts ==> 0 <= l.accounts[c].stats.expiredCount)
  }

  /** Creation times do not decrease along the list and are not in the future. */
  ghost predicate Ordered<C>(l: Ledger<C>, clock: int) {
    && (forall i, j :: 0 <= i < j < |l.live| ==> l.live[i].create <= l.live[j].create)
    && (forall i :: 0 <= i < |l.live| ==> l.live[i].create <= clock)
  }

  ghost predicate Inv<C>(l: Ledger<C>, clock: int) {
    && WellFormed(l) && IdsOk(l) && Ordered(l, clock)
    && (forall i :: 0 <= i < |l.live| ==> l.live[i].pointer != 0)
    && (forall c :: c in l.accounts ==> Balanced(l, c))
  }

  // ----- How the reference sums change

  lemma {:induction false} SumsOfRemove<C>(s: seq<Block<C>>, k: nat, c: C)
    requires k < |s|
    ensures Blocks(Remove(s, k), c) == Blocks(s, c) - (if s[k].cs == c then 1 else 0)
    ensures Bytes(Remove(s, k), c) == Bytes(s, c) - (if s[k].cs == c then s[k].size else 0)
  {
    var n := |s| - 1;
    var r := Remove(s, k);
    if k == n {
      assert r == s[..n];
    } else {
      assert r[..n - 1] == Remove(s[..n], k) && r[n - 1] == s[n];
      SumsOfRemove(s[..n], k, c);
    }
  }

  lemma {:induction false} SumsOfUpdate<C>(s: seq<Block<C>>, k: nat, b: Block<C>, c: C)
    requires k < |s| && b.cs == s[k].cs
    ensures Blocks(s[k := b], c) == Blocks(s, c)
    ensures Bytes(s[k := b], c) == Bytes(s, c) + (if b.cs == c then b.size - s[k].size else 0)
  {
    var n := |s| - 1;
    if k == n {
      assert s[k := b][..n] == s[..n];
    } else {
      assert s[k := b][..n] == s[..n][k := b];
      SumsOfUpdate(s[..n], k, b, c);
    }
  }

  lemma FreedOne(a: Account, size: nat, expired: bool, t: int)
    requires LifetimesOk(a) && t >= 0
    ensures LifetimesOk(a.(stats := DeleteStats(a.stats, size, expired, t), freed := a.freed + [t]))
  {
    var f := a.freed + [t];
    assert f[..|f| - 1] == a.freed;
    assert forall x :: x in f <==> x in a.freed || x == t;
    var z := SinceZero(a.freed);
    if t != 0 {
      assert SinceZero(f) == z + [t];
      assert forall x :: x in z + [t] <==> x in z || x == t;
    }
  }

  // ----- Each primitive keeps the invariant

  lemma {:induction false} NoBlocks<C>(s: seq<Block<C>>, c: C)
    requires forall i :: 0 <= i < |s| ==> s[i].cs != c
    ensures Blocks(s, c) == 0 && Bytes(s, c) == 0
  {
    if s != [] {
      NoBlocks(s[..|s| - 1], c);
    }
  }

  lemma AdoptBalanced<C>(l: Ledger<C>, cs: C, c: C)
    requires WellFormed(l) && c in Adopt(l, cs).accounts && (c in l.accounts ==> Balanced(l, c))
    ensures Balanced(Adopt(l, cs), c)
  {
    if c !in l.accounts {
      NoBlocks(l.live, c);
      NoBlocks(l.live[..l.split], c);
    }
  }

  lemma AdoptKeepsIds<C>(l: Ledger<C>, cs: C)
    requires IdsOk(l)
    ensures IdsOk(Adopt(l, cs))
  {
  }

  lemma AdoptKeeps<C>(l: Ledger<C>, cs: C, clock: int)
    requires Inv(l, clock)
    ensures Inv(Adopt(l, cs), clock)
  {
    hide IdsOk, Balanced;
    var r := Adopt(l, cs);
    forall c | c in r.accounts
      ensures Balanced(r, c)
    {
      AdoptBalanced(l, cs, c);
    }
    AdoptKeepsIds(l, cs);
  }

  lemma NewBalanced<C>(l: Ledger<C>, pointer: Address, size: nat, cs: C, now: int, c: C)
    requires WellFormed(l) && cs in l.accounts && c in l.accounts && Balanced(l, c)
    ensures Balanced(New(l, pointer, size, cs, now), c)
  {
    hide LifetimesOk;
    var r := New(l, pointer, size, cs, now);
    if pointer != 0 {
      assert r.live[..|l.live|] == l.live && r.live[..l.split] == l.live[..l.split];
      assert LifetimesOk(r.accounts[c]) by { SameLifetimes(l.accounts[c], r.accounts[c]); }
    }
  }

  lemma SameLifetimes(a: Account, b: Account)
    requires LifetimesOk(a) && b.freed == a.freed && b.stats.freeCount == a.stats.freeCount
    requires b.stats.freeTotal == a.stats.freeTotal && b.stats.freeMax == a.stats.freeMax
    requires b.stats.freeMin == a.stats.freeMin
    ensures LifetimesOk(b)
  {
  }

  lemma NewKeepsIds<C>(l: Ledger<C>, pointer: Address, size: nat, cs: C, now: int)
    requires WellFormed(l) && IdsOk(l) && cs in l.accounts
    ensures IdsOk(New(l, pointer, size, cs, now))
  {
  }

  lemma NewKeeps<C>(l: Ledger<C>, pointer: Address, size: nat, cs: C, clock: int, now: int)
    requires Inv(l, clock) && clock <= now
    ensures Inv(New(l, pointer, size, cs, now), now)
  {
    hide Balanced, IdsOk;
    AdoptKeeps(l, cs, clock);
    var a := Adopt(l, cs);
    var r := New(a, pointer, size, cs, now);
    assert r == New(l, pointer, size, cs, now);
    forall c | c in r.accounts
      ensures Balanced(r, c)
    {
      NewBalanced(a, pointer, size, cs, now, c);
    }
    NewKeepsIds(a, pointer, size, cs, now);
  }

  /** The sums over all blocks and over the expired ones, after a deletion. */
  lemma DeleteSums<C>(l: Ledger<C>, i: nat, now: int, c: C)
    requires WellFormed(l) && i < |l.live|
    ensures var r, b := Delete(l, i, now), l.live[i];
            var one, size := if b.cs == c then 1 else 0, if b.cs == c then b.size else 0;
            && r.split <= |r.live|
            && Blocks(r.live, c) == Blocks(l.live, c) - one
            && Bytes(r.live, c) == Bytes(l.live, c) - size
            && Blocks(r.live[..r.split], c) == Blocks(l.live[..l.split], c) - (if i < l.split then one else 0)
            && Bytes(r.live[..r.split], c) == Bytes(l.live[..l.split], c) - (if i < l.split then size else 0)
  {
    hide Blocks, Bytes, DeleteStats;
    var r := Delete(l, i, now);
    SumsOfRemove(l.live, i, c);
    if i < l.split {
      SumsOfRemove(l.live[..l.split], i, c);
      assert r.live[..r.split] == Remove(l.live[..l.split], i);
    } else {
      assert r.live[..r.split] == l.live[..l.split];
    }
  }

  lemma DeleteBalanced<C>(l: Ledger<C>, i: nat, now: int, c: C)
    requires WellFormed(l) && i < |l.live| && c in l.accounts && Balanced(l, c) && l.live[i].create <= now
    ensures Balanced(Delete(l, i, now), c)
  {
    hide LifetimesOk, Blocks, Bytes, Remove;
    DeleteSums(l, i, now, c);
    if c == l.live[i].cs {
      FreedOne(l.accounts[c], l.live[i].size, i < l.split, now - l.live[i].create);
    }
  }

  lemma DeleteKeeps<C>(l: Ledger<C>, i: nat, clock: int, now: int)
    requires Inv(l, clock) && clock <= now && i < |l.live|
    ensures Inv(Delete(l, i, now), now)
  {
    hide Balanced, DeleteStats;
    var r := Delete(l, i, now);
    forall c | c in r.accounts
      ensures Balanced(r, c)
    {
      DeleteBalanced(l, i, now, c);
    }
    DeleteKeepsIds(l, i, now);
  }

  lemma DeleteKeepsIds<C>(l: Ledger<C>, i: nat, now: int)
    requires WellFormed(l) && IdsOk(l) && i < |l.live|
    ensures IdsOk(Delete(l, i, now))
  {
  }

  lemma ResizeBalanced<C>(l: Ledger<C>, i: nat, size: nat, c: C)
    requires WellFormed(l) && i < |l.live| && c in l.accounts && Balanced(l, c)
    ensures Balanced(Resize(l, i, size), c)
  {
    hide LifetimesOk;
    var r := Resize(l, i, size);
    SumsOfUpdate(l.live, i, r.live[i], c);
    if i < l.split {
      SumsOfUpdate(l.live[..l.split], i, r.live[i], c);
      assert r.live[..r.split] == l.live[..l.split][i := r.live[i]];
    } else {
      assert r.live[..r.split] == l.live[..l.split];
    }
    SameLifetimes(l.accounts[c], r.accounts[c]);
  }

  lemma ResizeKeeps<C>(l: Ledger<C>, i: nat, size: nat, clock: int)
    requires Inv(l, clock) && i < |l.live|
    ensures Inv(Resize(l, i, size), clock)
  {
    hide Balanced;
    var r := Resize(l, i, size);
    forall c | c in r.accounts
      ensures Balanced(r, c)
    {
      ResizeBalanced(l, i, size, c);
    }
  }

  lemma ExpireOneKeepsIds<C>(l: Ledger<C>)
    requires WellFormed(l) && IdsOk(l) && l.split < |l.live|
    ensures IdsOk(ExpireOne(l))
  {
    var r, cs := ExpireOne(l), l.live[l.split].cs;
    assert forall c :: c in r.byId <==> c in l.byId || (l.accounts[cs].stats.id == 0 && c == cs);
  }

  lemma ExpireOneBalanced<C>(l: Ledger<C>, c: C)
    requires WellFormed(l) && l.split < |l.live| && c in l.accounts && Balanced(l, c)
    ensures Balanced(ExpireOne(l), c)
  {
    hide LifetimesOk;
    var r := ExpireOne(l);
    assert l.live[..l.split + 1][..l.split] == l.live[..l.split];
    SameLifetimes(l.accounts[c], r.accounts[c]);
  }

  lemma ExpireOneKeeps<C>(l: Ledger<C>, clock: int)
    requires Inv(l, clock) && l.split < |l.live|
    ensures Inv(ExpireOne(l), clock)
  {
    hide IdsOk, Balanced;
    var r := ExpireOne(l);
    forall c | c in r.accounts
      ensures Balanced(r, c)
    {
      ExpireOneBalanced(l, c);
    }
    ExpireOneKeepsIds(l);
  }

  lemma {:induction false} ExpireKeeps<C>(l: Ledger<C>, clock: int, now: int, expire: int, ml: int, cl: int)
    requires Inv(l, clock) && clock <= now
    ensures Inv(Expire(l, now, expire, ml, cl).0, now)
    decreases |l.live| - l.split
  {
    hide IdsOk, Balanced;
    if l.split < |l.live| && now - l.live[l.split].create >= expire {
      ExpireOneKeeps(l, clock);
      ExpireKeeps(ExpireOne(l), clock, now, expire, ml, cl);
    }
  }

  lemma HandleKeeps<C>(l: Ledger<C>, call: Call, cs: C, clock: int, freed: int, now: int)
    requires Inv(l, clock) && clock <= freed <= now
    ensures Inv(Handle(l, call, cs, freed, now), now)
  {
    hide IdsOk, Balanced, New, Delete, Resize;
    match call
    case Malloc(ret, size) => NewKeeps(l, ret, size, cs, clock, now);
    case Free(pointer) =>
      if Find(l.live, pointer).Some? {
        DeleteKeeps(l, Find(l.live, pointer).value, clock, freed);
      }
    case Realloc(ret, from, size) =>
      var i := Find(l.live, from);
      if ret == from {
        if i.Some? { ResizeKeeps(l, i.value, size, clock); }
      } else if i.Some? {
        DeleteKeeps(l, i.value, clock, freed);
        NewKeeps(Delete(l, i.value, freed), ret, size, cs, freed, now);
      } else {
        NewKeeps(l, ret, size, cs, clock, now);
      }
    case Calloc(ret, nmemb, size) => NewKeeps(l, ret, nmemb * size % WORD, cs, clock, now);
  }
}
