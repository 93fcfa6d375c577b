/** Where the blocks of a valid ledger sit in its linked structures. */
module LedgerShape {
  import opened Basics
  import opened Rings
  import opened HashTables
  import opened Ledger

  /** A node of the table is at one position of one chain. */
  lemma OnePosition(h: HashTable<Memblock?>, n: HNode<Memblock?>) returns (k: nat)
    requires h.Valid() && n in h.nodes
    ensures var c := Slot(n.Key());
            && |h.chains| == HASH_SIZE && k < |h.chains[c]| && h.chains[c][k] == n
            && forall d, j :: 0 <= d < HASH_SIZE && 0 <= j < |h.chains[d]| && h.chains[d][j] == n ==> d == c && j == k
  {
    hide Slot, HNode.Key;
    var c := Slot(n.Key());
    k :| 0 <= k < |h.chains[c]| && h.chains[c][k] == n;
    forall d, j | 0 <= d < HASH_SIZE && 0 <= j < |h.chains[d]| && h.chains[d][j] == n
      ensures d == c && j == k
    {
      assert AllIn(d, h.chains[d]) && n in h.chains[d];
      assert Linked(c, h.chains[c]);
    }
  }

  lemma RingHolds(head: Link<Memblock?>, bs: seq<Memblock>, links: seq<Link<Memblock?>>, b: Memblock)
    requires BlockRing(head, bs, links)
    ensures b in bs ==> b.listNode in links
  {
    if i :| 0 <= i < |bs| && bs[i] == b {
      assert links[i] == b.listNode;
    }
  }

  /** Every live block is in exactly one bucket chain, once, and in exactly one of the
      two lists: the expired one if and only if its flag is set. */
  lemma OneBucketOneList(v: View, h: HashTable<Memblock?>, a: Link<Memblock?>, e: Link<Memblock?>, b: Memblock)
    returns (c: nat, k: nat)
    requires Holds(v, h, a, e) && b in v.Live()
    ensures |h.chains| == HASH_SIZE && c < HASH_SIZE && k < |h.chains[c]| && h.chains[c][k] == b.hashNode
    ensures forall d, j :: 0 <= d < HASH_SIZE && 0 <= j < |h.chains[d]| && h.chains[d][j] == b.hashNode ==>
              d == c && j == k
    ensures b.listNode in v.expiredLinks <==> b.expired
    ensures b.listNode in v.activeLinks <==> !b.expired
  {
    hide Slot, HNode.Key, HashTable.Valid, Ring, Serials, AllNewestFirst;
    k := OnePosition(h, b.hashNode);
    c := Slot(b.hashNode.Key());
    RingHolds(a, v.active, v.activeLinks, b);
    RingHolds(e, v.expired, v.expiredLinks, b);
    var i :| 0 <= i < |v.Live()| && v.Live()[i] == b;
    assert b.expired <==> i < |v.expired|;
    assert i < |v.expired| ==> v.expired[i] == b;
    assert i >= |v.expired| ==> v.active[i - |v.expired|] == b;
  }

  /** Nothing else is linked: the chains hold only live blocks. */
  lemma ChainHoldsLive(v: View, h: HashTable<Memblock?>, a: Link<Memblock?>, e: Link<Memblock?>, d: nat, j: nat)
    requires Holds(v, h, a, e) && d < |h.chains| && j < |h.chains[d]|
    ensures var n := h.chains[d][j]; n.entry != null && n.entry in v.Live() && n.entry.hashNode == n
  {
    hide Slot, HNode.Key, HashTable.Valid, TwoRings, Serials;
    h.ChainsHoldNodes();
    assert h.chains[d][j] in h.nodes;
  }

  /** The rings hold only live blocks. */
  lemma RingHoldsLive(v: View, h: HashTable<Memblock?>, a: Link<Memblock?>, e: Link<Memblock?>, l: Link<Memblock?>)
    requires Holds(v, h, a, e) && (l in v.expiredLinks || l in v.activeLinks)
    ensures l.entry != null && l.entry in v.Live() && l.entry.listNode == l
  {
    hide HashHolds, Ring, Serials;
    if i :| 0 <= i < |v.expiredLinks| && v.expiredLinks[i] == l {
      assert v.Live()[i] == l.entry;
    } else {
      var i :| 0 <= i < |v.activeLinks| && v.activeLinks[i] == l;
      assert v.Live()[|v.expired| + i] == l.entry;
    }
  }

  /** The expired list followed by the active list is in creation order, and the flag
      marks exactly the first part. */
  lemma CreationOrder(v: View, h: HashTable<Memblock?>, a: Link<Memblock?>, e: Link<Memblock?>, i: nat, j: nat)
    requires Holds(v, h, a, e) && i < j < |v.Live()|
    ensures v.Live()[i].serial < v.Live()[j].serial
    ensures v.Live()[j].expired ==> v.Live()[i].expired
    ensures v.Live()[i].expired <==> i < |v.expired|
  {
    hide HashHolds, TwoRings;
  }
}
