/** Expiry, its limits, and the statistics of the final report. */
module ExpiryLaws {
  import opened Basics
  import opened LedgerModel
  import opened LedgerLaws

  // ----- The early-stopping scan equals a full scan

  /** The full scan: all blocks that are at least `expire` old. */
  function OldEnough<C>(s: seq<Block<C>>, now: int, expire: int): seq<Block<C>> {
    if s == [] then []
    else if now - s[0].create >= expire then [s[0]] + OldEnough(s[1..], now, expire)
    else OldEnough(s[1..], now, expire)
  }

  function TooYoung<C>(s: seq<Block<C>>, now: int, expire: int): seq<Block<C>> {
    if s == [] then []
    else if now - s[0].create < expire then [s[0]] + TooYoung(s[1..], now, expire)
    else TooYoung(s[1..], now, expire)
  }

  ghost predicate OldestFirst<C>(s: seq<Block<C>>) {
    forall i, j :: 0 <= i < j < |s| ==> s[i].create <= s[j].create
  }

  lemma {:induction false} AllYoung<C>(s: seq<Block<C>>, now: int, expire: int)
    requires OldestFirst(s) && s != [] && now - s[0].create < expire
    ensures OldEnough(s, now, expire) == [] && TooYoung(s, now, expire) == s
  {
    if |s| > 1 {
      assert s[1].create >= s[0].create;
      AllYoung(s[1..], now, expire);
    }
  }

  lemma OneOfActive<T>(s: seq<T>, i: nat, j: nat)
    requires i < j <= |s|
    ensures s[i..][1..] == s[i + 1..] && s[i..j] == [s[i]] + s[i + 1..j]
  {
  }

  /** With a clock that does not go back, what a run of memblock_expire that hits no
      limit moves is exactly what a scan of the whole active list would select. */
  lemma {:induction false} ExpireIsFullScan<C>(l: Ledger<C>, now: int, expire: int, ml: int, cl: int)
    requires WellFormed(l) && OldestFirst(l.live)
    requires Expire(l, now, expire, ml, cl).1 >= 0
    ensures var r := Expire(l, now, expire, ml, cl).0;
            && l.live[l.split..r.split] == OldEnough(l.live[l.split..], now, expire)
            && l.live[r.split..] == TooYoung(l.live[l.split..], now, expire)
    decreases |l.live| - l.split
  {
    hide OverLimit;
    var active := l.live[l.split..];
    if active != [] {
      if now - active[0].create < expire {
        AllYoung(active, now, expire);
      } else {
        ExpireIsFullScan(ExpireOne(l), now, expire, ml, cl);
        OneOfActive(l.live, l.split, Expire(l, now, expire, ml, cl).0.split);
      }
    }
  }

  /** The return value: 0 exactly when nothing is active any more; otherwise the
      alarm is set one second after the moment the next active block expires. */
  lemma {:induction false} ExpireReturns<C>(l: Ledger<C>, now: int, expire: int, ml: int, cl: int)
    requires WellFormed(l) && OldestFirst(l.live)
    requires Expire(l, now, expire, ml, cl).1 >= 0
    ensures var r := Expire(l, now, expire, ml, cl);
            && (r.1 == 0 <==> r.0.split == |l.live|)
            && (r.1 > 0 ==> && r.0.split < |l.live|
                            && r.1 == expire - (now - l.live[r.0.split].create) + 1
                            && forall i :: r.0.split <= i < |l.live| ==> r.1 <= expire - (now - l.live[i].create) + 1)
    decreases |l.live| - l.split
  {
    if l.split < |l.live| && now - l.live[l.split].create >= expire {
      ExpireReturns(ExpireOne(l), now, expire, ml, cl);
    }
  }

  // ----- Limits

  /** All expirations so far, over the callstacks that ever expired. */
  function Expirations<C>(ids: seq<C>, accounts: map<C, Account>): int
    requires forall i :: 0 <= i < |ids| ==> ids[i] in accounts
  {
    if ids == [] then 0
    else
      var n := |ids| - 1;
      Expirations(ids[..n], accounts) + accounts[ids[n]].stats.expiredCount
  }

  ghost predicate Within<C>(l: Ledger<C>, ml: int, cl: int) {
    |l.byId| <= cl && forall c :: c in l.accounts ==> l.accounts[c].stats.expiredCount < ml
  }

  lemma {:induction false} ExpirationsBound<C>(ids: seq<C>, accounts: map<C, Account>, most: int)
    requires forall i :: 0 <= i < |ids| ==> ids[i] in accounts && accounts[ids[i]].stats.expiredCount <= most
    ensures Expirations(ids, accounts) <= |ids| * most
  {
    if ids != [] {
      var n := |ids| - 1;
      ExpirationsBound(ids[..n], accounts, most);
      assert |ids| * most == n * most + most;
    }
  }

  /** While no limit was reached, at most `cl` callstacks expired fewer than `ml`
      blocks each. */
  lemma WithinBound<C>(l: Ledger<C>, ml: int, cl: int)
    requires IdsOk(l) && Within(l, ml, cl) && ml > 0
    ensures Expirations(l.byId, l.accounts) <= cl * (ml - 1)
  {
    ExpirationsBound(l.byId, l.accounts, ml - 1);
    MulLe(|l.byId|, cl, ml - 1);
  }

  lemma MulLe(a: int, b: int, c: int)
    requires a <= b && c >= 0
    ensures a * c <= b * c
  {
  }

  lemma {:induction false} ExpirationsUpdate<C>(ids: seq<C>, accounts: map<C, Account>, c: C, a: Account)
    requires Distinct(ids) && c in accounts && forall i :: 0 <= i < |ids| ==> ids[i] in accounts
    ensures Expirations(ids, accounts[c := a]) ==
            Expirations(ids, accounts) + (if c in ids then a.stats.expiredCount - accounts[c].stats.expiredCount else 0)
  {
    if ids != [] {
      var n := |ids| - 1;
      ExpirationsUpdate(ids[..n], accounts, c, a);
      assert forall x :: x in ids <==> x in ids[..n] || x == ids[n];
    }
  }

  lemma ExpireOneCountsOne<C>(l: Ledger<C>)
    requires WellFormed(l) && IdsOk(l) && l.split < |l.live|
    ensures IdsOk(ExpireOne(l))
    ensures Expirations(ExpireOne(l).byId, ExpireOne(l).accounts) == Expirations(l.byId, l.accounts) + 1
  {
    ExpireOneKeepsIds(l);
    var r, c := ExpireOne(l), l.live[l.split].cs;
    var a := r.accounts[c];
    assert r.accounts == l.accounts[c := a];
    ExpirationsUpdate(l.byId, l.accounts, c, a);
    if l.accounts[c].stats.id == 0 {
      assert r.byId[..|l.byId|] == l.byId;
    }
  }

  /** memblock_expire reports a limit if and only if one is reached: a callstack too many
      has expired blocks, or some callstack has expired as many as it may. Then it has
      expired just one block too many. */
  lemma {:induction false} ExpireLimits<C>(l: Ledger<C>, now: int, expire: int, ml: int, cl: int)
    requires WellFormed(l) && IdsOk(l) && Within(l, ml, cl) && ml > 0
    ensures var r := Expire(l, now, expire, ml, cl);
            && IdsOk(r.0)
            && (r.1 < 0 <==> !Within(r.0, ml, cl))
            && Expirations(r.0.byId, r.0.accounts) <= cl * (ml - 1) + (if r.1 < 0 then 1 else 0)
    decreases |l.live| - l.split
  {
    WithinBound(l, ml, cl);
    if l.split < |l.live| && now - l.live[l.split].create >= expire {
      ExpireOneCountsOne(l);
      var r, c := ExpireOne(l), l.live[l.split].cs;
      OverIffNotWithin(l, ml, cl);
      if !OverLimit(r.accounts[c].stats, ml, cl) {
        ExpireLimits(r, now, expire, ml, cl);
      }
    }
  }

  /** The checks behind one expiry find out whether a limit is reached. */
  lemma OverIffNotWithin<C>(l: Ledger<C>, ml: int, cl: int)
    requires WellFormed(l) && IdsOk(l) && Within(l, ml, cl) && l.split < |l.live|
    ensures var r := ExpireOne(l);
            OverLimit(r.accounts[l.live[l.split].cs].stats, ml, cl) <==> !Within(r, ml, cl)
  {
    var r, c := ExpireOne(l), l.live[l.split].cs;
    ExpireOneKeepsIds(l);
    assert c in r.byId;
    var i :| 0 <= i < |r.byId| && r.byId[i] == c;
    assert r.accounts[c].stats.id == i + 1;
  }

  // ----- Live and freed lifetimes

  /** `m` is the greatest age of a block of `c` among the first `n`; 0 if none. */
  ghost predicate GreatestAge<C>(m: int, live: seq<Block<C>>, n: nat, c: C, now: int)
    requires n <= |live|
  {
    && (forall i :: 0 <= i < n && live[i].cs == c ==> now - live[i].create <= m)
    && ((exists i :: 0 <= i < n && live[i].cs == c && now - live[i].create == m)
        || (m == 0 && forall i :: 0 <= i < n ==> live[i].cs != c))
  }

  /** memblock_count keeps the first age it sees, which is the greatest one. */
  lemma {:induction false} CountFindsOldest<C>(l: Ledger<C>, n: nat, clock: int, now: int, c: C)
    requires WellFormed(l) && Ordered(l, clock) && clock <= now && n <= |l.live|
    requires c in l.accounts && l.accounts[c].stats.unfreeMax == 0
    ensures c in Count(l, n, now).accounts
    ensures GreatestAge(Count(l, n, now).accounts[c].stats.unfreeMax, l.live, n, c, now)
  {
    if n > 0 {
      CountFindsOldest(l, n - 1, clock, now, c);
      var before := Count(l, n - 1, now).accounts[c].stats.unfreeMax;
      var m := Count(l, n, now).accounts[c].stats.unfreeMax;
      if l.live[n - 1].cs == c && before == 0 {
        assert m == now - l.live[n - 1].create;
      } else {
        assert m == before;
      }
    }
  }

  lemma {:induction false} SumBetween(s: seq<int>, low: int, high: int)
    requires forall x :: x in s ==> low <= x <= high
    ensures |s| * low <= Sum(s) <= |s| * high
  {
    if s != [] {
      var n := |s| - 1;
      assert forall x :: x in s[..n] ==> x in s;
      SumBetween(s[..n], low, high);
      assert |s| * low == n * low + low && |s| * high == n * high + high;
      assert s[n] in s;
    }
  }

  lemma {:induction false} NoZeroSeen(s: seq<int>)
    requires 0 !in s
    ensures SinceZero(s) == s
  {
    if s != [] {
      var t := s[..|s| - 1];
      assert s[|s| - 1] in s;
      assert forall x :: x in t ==> x in s;
      NoZeroSeen(t);
    }
  }

  /** The reported minimum is the least lifetime if and only if no block was freed in the
      second of its creation or the block freed last was. */
  lemma MinimumExactIff(a: Account)
    requires LifetimesOk(a) && a.freed != []
    ensures IsMin(a.stats.freeMin, a.freed) <==> 0 !in a.freed || a.freed[|a.freed| - 1] == 0
  {
    var last := a.freed[|a.freed| - 1];
    assert last in a.freed;
    if 0 !in a.freed {
      NoZeroSeen(a.freed);
    } else if last != 0 {
      assert a.stats.freeMin in SinceZero(a.freed);
    }
  }

  /** The reported average never exceeds the reported maximum, and it is at least the
      reported minimum whenever that is the least lifetime. */
  lemma AverageBetweenExtremes(a: Account)
    requires LifetimesOk(a) && a.freed != []
    ensures a.stats.freeTotal / a.stats.freeCount <= a.stats.freeMax
    ensures 0 !in a.freed || a.freed[|a.freed| - 1] == 0 ==> a.stats.freeMin <= a.stats.freeTotal / a.stats.freeCount
  {
    var s := a.stats;
    SumBetween(a.freed, 0, s.freeMax);
    DivBetween(s.freeTotal, s.freeCount, 0, s.freeMax);
    if 0 !in a.freed || a.freed[|a.freed| - 1] == 0 {
      MinimumExactIff(a);
      SumBetween(a.freed, s.freeMin, s.freeMax);
      DivBetween(s.freeTotal, s.freeCount, s.freeMin, s.freeMax);
    }
  }

  /** In the remaining case the reported minimum is the least lifetime behind the last
      zero, and positive. The average can then be on either side; which, is arithmetic. */
  lemma AverageOtherwise(a: Account)
    requires LifetimesOk(a) && 0 in a.freed && a.freed[|a.freed| - 1] != 0
    ensures a.stats.freeMin > 0 && IsMin(a.stats.freeMin, SinceZero(a.freed)) && SinceZero(a.freed) != []
    ensures a.stats.freeMin <= a.stats.freeTotal / a.stats.freeCount <==> |a.freed| * a.stats.freeMin <= Sum(a.freed)
  {
    var s := a.stats;
    assert s.freeMin in SinceZero(a.freed);
    var q := s.freeTotal / s.freeCount;
    assert s.freeCount * q <= s.freeTotal < s.freeCount * (q + 1);
    if s.freeMin <= q {
      MulLe(s.freeMin, q, s.freeCount);
    } else {
      MulLe(q + 1, s.freeMin, s.freeCount);
    }
  }

  lemma DivBetween(total: int, n: int, low: int, high: int)
    requires n > 0 && n * low <= total <= n * high
    ensures low <= total / n <= high
  {
    var q, r := total / n, total % n;
    assert total == n * q + r && 0 <= r < n;
    if q < low {
      MulLe(q + 1, low, n);
    } else if q > high {
      MulLe(high + 1, q, n);
    }
  }

  /** A block freed within the second of its creation resets the minimum: after the
      lifetimes 0 and then any `t`, the reported minimum is above the average. */
  lemma ZeroLifetimeResetsMinimum(t: int)
    requires t > 0
    ensures var s := DeleteStats(DeleteStats(ZERO, 1, false, 0), 1, false, t);
            s.freeMin == t && s.freeTotal / s.freeCount < s.freeMin
  {
  }
}
