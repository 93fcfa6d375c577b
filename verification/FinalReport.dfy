/** The statistics printed at the end of a session. */
module FinalReport {
  import opened Basics
  import opened LedgerModel
  import opened LedgerLaws
  import opened ExpiryLaws
  import opened Callstacks
  import opened Ledger
  import HashTables
  import Rings

  /** Counting ages touches no other counter. */
  lemma {:induction false} CountKeepsCounters<C>(l: LedgerModel.Ledger<C>, n: nat, now: int, c: C)
    requires WellFormed(l) && n <= |l.live| && c in l.accounts
    ensures var s, t := l.accounts[c].stats, Count(l, n, now).accounts[c].stats;
            t == s.(unfreeMax := t.unfreeMax)
  {
    if n > 0 {
      CountKeepsCounters(l, n - 1, now, c);
    }
  }

  /** So the books still balance behind the count. */
  lemma CountKeepsBalance<C>(l: LedgerModel.Ledger<C>, now: int, c: C)
    requires WellFormed(l) && c in l.accounts && Balanced(l, c)
    ensures WellFormed(Count(l, |l.live|, now)) && c in Count(l, |l.live|, now).accounts
    ensures Balanced(Count(l, |l.live|, now), c)
  {
    hide Blocks, Bytes, LifetimesOk;
    CountKeepsCounters(l, |l.live|, now, c);
    CountKeepsFreed(l, |l.live|, now, c);
    SameLifetimes(l.accounts[c], Count(l, |l.live|, now).accounts[c]);
  }

  lemma {:induction false} CountKeepsFreed<C>(l: LedgerModel.Ledger<C>, n: nat, now: int, c: C)
    requires WellFormed(l) && n <= |l.live| && c in l.accounts
    ensures var a, b := l.accounts[c], Count(l, n, now).accounts[c]; b.freed == a.freed && b.resized == a.resized
  {
    if n > 0 {
      CountKeepsFreed(l, n - 1, now, c);
    }
  }

  lemma {:induction false} OwnsSome<C>(s: seq<Block<C>>, c: C)
    ensures Blocks(s, c) > 0 <==> exists i :: 0 <= i < |s| && s[i].cs == c
  {
    if s != [] {
      var t := s[..|s| - 1];
      OwnsSome(t, c);
      if i :| 0 <= i < |t| && t[i].cs == c {
        assert s[i].cs == c;
      }
    }
  }

  lemma OwnsExpired<C>(m: LedgerModel.Ledger<C>, c: C)
    requires WellFormed(m)
    ensures Blocks(m.live[..m.split], c) > 0 <==> exists i :: 0 <= i < m.split && m.live[i].cs == c
  {
    var s := m.live[..m.split];
    OwnsSome(s, c);
    if i :| 0 <= i < m.split && m.live[i].cs == c {
      assert s[i].cs == c;
    }
    if i :| 0 <= i < |s| && s[i].cs == c {
      assert m.live[i].cs == c;
    }
  }

  /** What the counters of `c` mean after the count. */
  lemma LineMeaning<C>(m: LedgerModel.Ledger<C>, c: C, clock: int, now: int)
    requires Inv(m, clock) && clock <= now && c in m.accounts && m.accounts[c].stats.unfreeMax == 0
    ensures WellFormed(m) && c in Count(m, |m.live|, now).accounts
    ensures var t := Count(m, |m.live|, now).accounts[c].stats;
            && t.expiredCount - t.freeExpiredCount == Blocks(m.live[..m.split], c)
            && GreatestAge(t.unfreeMax, m.live, |m.live|, c, now)
  {
    assert Balanced(m, c);
    hide GreatestAge, Count;
    CountKeepsCounters(m, |m.live|, now, c);
    CountFindsOldest(m, |m.live|, clock, now, c);
  }

  /** `list` is right for the ledger `m`: exactly the callstacks that own an expired
      live block, once each, in the order of how many they own, and each shows the
      greatest age among its live blocks. */
  ghost predicate Right(list: seq<Callstack>, m: LedgerModel.Ledger<Callstack>, now: int)
    reads list
  {
    match m
    case Ledger(live, split, accounts, _) =>
      && split <= |live| && Distinct(list)
      && (forall c :: c in list ==> c in accounts && exists i :: 0 <= i < split && live[i].cs == c)
      && (forall i :: 0 <= i < split ==> live[i].cs in list)
      && (forall i, j :: 0 <= i < j < |list| ==> Blocks(live[..split], list[i]) <= Blocks(live[..split], list[j]))
      && (forall c :: c in list ==> GreatestAge(c.stats.unfreeMax, live, |live|, c, now))
  }

  /** A list selected and sorted by the counters is right. */
  lemma SelectionIsRight(list: seq<Callstack>, records: set<Callstack>, m: LedgerModel.Ledger<Callstack>, clock: int,
                         now: int)
    requires Inv(m, clock) && clock <= now && m.accounts.Keys <= records
    requires Distinct(list) && Ascending(list) && forall c :: c in list <==> c in records && MayLeak(c) != 0
    requires WellFormed(m)
    requires forall c: Callstack :: c in m.accounts ==>
               m.accounts[c].stats.unfreeMax == 0 && c.stats == Count(m, |m.live|, now).accounts[c].stats
    requires forall c :: c in records && c !in m.accounts ==> c.stats == ZERO
    ensures Right(list, m, now)
  {
    hide Inv, Count, GreatestAge, Blocks;
    forall c | c in records
      ensures MayLeak(c) == if c in m.accounts then Blocks(m.live[..m.split], c) else 0
      ensures c in m.accounts ==> GreatestAge(c.stats.unfreeMax, m.live, |m.live|, c, now)
      ensures Blocks(m.live[..m.split], c) > 0 <==> exists i :: 0 <= i < m.split && m.live[i].cs == c
    {
      if c in m.accounts {
        LineMeaning(m, c, clock, now);
      }
      OwnsExpired(m, c);
    }
  }

  /** callstack_report: age the live blocks, then select and sort the callstacks. */
  method Report(ledger: BlockLedger, table: CallstackTable, now: int, ghost clock: int) returns (list: seq<Callstack>)
    requires ledger.Valid() && table.Valid() && ledger.view.known <= table.records
    requires Inv(ledger.view.model, clock) && clock <= now
    requires forall c :: c in ledger.view.known ==> c.stats.unfreeMax == 0
    requires forall c :: c in table.records - ledger.view.known ==> c.stats == ZERO
    modifies ledger`view, ledger.view.known`stats
    ensures Right(list, old(ledger.view.model), now)
    ensures ledger.Valid() && ledger.view == old(ledger.view).(model := ledger.view.model)
    ensures ledger.view.model == Count(old(ledger.view.model), |old(ledger.view.model.live)|, now)
  {
    hide Holds, Inv, Count, Right, WellFormed, IsRecord, Ascending;
    ghost var m := ledger.view.model;
    KnownFacts(ledger.view, ledger.hash, ledger.active, ledger.expire);
    ledger.CountUnfreed(now);
    KnownFacts(ledger.view, ledger.hash, ledger.active, ledger.expire);
    list := table.Report();
    SelectionIsRight(list, table.records, m, clock, now);
  }

  lemma KnownFacts(v: View, h: HashTables.HashTable<Memblock?>, a: Rings.Link<Memblock?>, e: Rings.Link<Memblock?>)
    requires Holds(v, h, a, e)
    ensures WellFormed(v.model) && v.model.split <= |v.model.live| && v.model.accounts.Keys == v.known
    ensures forall c :: c in v.known ==> v.model.accounts[c].stats == c.stats
  {
    hide HashHolds, TwoRings, Serials;
  }
}
