/** The block ledger on the heap: every block sits in one hash chain and in one of
    two rings at once. The methods refine the operations of module `LedgerModel`. */
module Ledger {
  import opened Basics
  import opened Rings
  import opened HashTables
  import opened LedgerModel
  import opened Callstacks

  /** struct memblock_s. `serial` numbers the blocks in creation order. */
  class Memblock {
    const listNode: Link<Memblock?>
    const hashNode: HNode<Memblock?>
    const pointer: Address
    var size: nat
    const create: int
    var expired: bool
    const callstack: Callstack
    ghost const serial: nat

    constructor (pointer: Address, size: nat, create: int, callstack: Callstack, ghost serial: nat)
      ensures this.pointer == pointer && this.size == size && this.create == create && !expired
      ensures this.callstack == callstack && this.serial == serial
      ensures listNode.entry == this && NodeOf(hashNode, this)
      ensures fresh(listNode) && fresh(hashNode)
    {
      this.pointer, this.size, this.create, this.expired := pointer, size, create, false;
      this.callstack, this.serial := callstack, serial;
      listNode := new Link<Memblock?>();
      hashNode := new HNode<Memblock?>(Words(pointer), [], serial);
      new;
      listNode.entry := this;
      hashNode.entry := this;
    }
  }

  function Links(bs: seq<Memblock>): (s: seq<Link<Memblock?>>)
    ensures |s| == |bs| && forall i :: 0 <= i < |bs| ==> s[i] == bs[i].listNode
  {
    seq(|bs|, i requires 0 <= i < |bs| => bs[i].listNode)
  }

  /** The ring at `head` holds the blocks `bs`; `links` are their nodes. */
  ghost predicate BlockRing(head: Link<Memblock?>, bs: seq<Memblock>, links: seq<Link<Memblock?>>)
    reads head, links
  {
    && links == Links(bs) && Ring(head, links)
    && forall i :: 0 <= i < |links| ==> links[i].entry == bs[i]
  }

  /** Serial numbers grow along the list and stay below `created`. */
  ghost predicate Serials(live: seq<Memblock>, created: nat) {
    && (forall i, j :: 0 <= i < j < |live| ==> live[i].serial < live[j].serial)
    && (forall i :: 0 <= i < |live| ==> live[i].serial < created)
  }

  ghost predicate NewestFirst(chain: seq<HNode<Memblock?>>) {
    forall i, j :: 0 <= i < j < |chain| ==> chain[i].stamp > chain[j].stamp
  }

  /** The node of a block, with the block's pointer as its key. */
  ghost predicate NodeOf(n: HNode<Memblock?>, b: Memblock)
    reads n
  {
    b.hashNode == n && n.entry == b && n.stamp == b.serial && n.mem == n.Key() == Words(b.pointer)
  }

  ghost predicate AllNewestFirst(chains: seq<seq<HNode<Memblock?>>>) {
    forall i :: 0 <= i < |chains| ==> NewestFirst(chains[i])
  }

  /** The hash table holds exactly the blocks `live`, newest first in each chain. */
  ghost predicate HashHolds(h: HashTable<Memblock?>, live: seq<Memblock>)
    reads h, h.buckets, h.nodes
  {
    && h.Valid()
    && (forall b :: b in live ==> b.hashNode in h.nodes && NodeOf(b.hashNode, b))
    && (forall n :: n in h.nodes ==> n.entry != null && n.entry in live && NodeOf(n, n.entry))
    && AllNewestFirst(h.chains)
  }

  /** The ledger `m` describes the blocks `live`, of which the first `split` are
      expired, and the callstacks `known`. */
  ghost predicate Describes(m: Ledger<Callstack>, live: seq<Memblock>, split: nat, known: set<Callstack>)
    reads live, known
  {
    && WellFormed(m) && |m.live| == |live| && m.split == split
    && (forall i :: 0 <= i < |live| ==>
          && m.live[i] == Block(live[i].pointer, live[i].size, live[i].create, live[i].callstack)
          && (live[i].expired <==> i < split))
    && m.accounts.Keys == known
    && (forall c :: c in known ==> m.accounts[c].stats == c.stats)
  }

  // ----- Searching the hash table

  lemma InItsChain(h: HashTable<Memblock?>, live: seq<Memblock>, b: Memblock)
    requires HashHolds(h, live) && b in live
    ensures |h.chains| == HASH_SIZE && b.hashNode in h.chains[Slot(Words(b.pointer))] && NodeOf(b.hashNode, b)
  {
    hide Slot, Words;
    assert b.hashNode in h.chains[Slot(b.hashNode.Key())];
  }

  /** The first match in the chain of `pointer` is the newest block with it. */
  lemma FirstMatchIsNewest(h: HashTable<Memblock?>, live: seq<Memblock>, pointer: Address, k: nat)
    requires HashHolds(h, live)
    requires var s := h.chains[Slot(Words(pointer))];
             && k < |s| && Words(pointer) <= s[k].mem && (forall j :: 0 <= j < k ==> !(Words(pointer) <= s[j].mem))
    ensures var p := h.chains[Slot(Words(pointer))][k];
            && p.entry != null && p.entry.pointer == pointer && p.entry in live
            && forall b :: b in live && b.pointer == pointer ==> b.serial <= p.entry.serial
  {
    hide Slot;
    var s := h.chains[Slot(Words(pointer))];
    assert s[k] in h.nodes;
    WordsInjective(pointer, s[k].entry.pointer);
    assert NewestFirst(s);
    forall b | b in live && b.pointer == pointer
      ensures b.serial <= s[k].entry.serial
    {
      InItsChain(h, live, b);
      var j :| 0 <= j < |s| && s[j] == b.hashNode;
      assert k <= j;
    }
  }

  /** memblock_search. */
  method SearchBlock(h: HashTable<Memblock?>, pointer: Address, ghost live: seq<Memblock>) returns (r: Memblock?)
    requires HashHolds(h, live)
    ensures r == null ==> forall b :: b in live ==> b.pointer != pointer
    ensures r != null ==> r in live && r.pointer == pointer
    ensures r != null ==> forall b :: b in live && b.pointer == pointer ==> b.serial <= r.serial
  {
    hide Slot, Words, NewestFirst, HashTable.Valid;
    var p, k := h.Search(Words(pointer));
    if p == null {
      forall b | b in live
        ensures b.pointer != pointer
      {
        InItsChain(h, live, b);
      }
      return null;
    }
    FirstMatchIsNewest(h, live, pointer, k);
    r := p.entry;
  }

  // ----- Entering and leaving the hash table

  method IndexBlock(h: HashTable<Memblock?>, b: Memblock, ghost live: seq<Memblock>)
    requires HashHolds(h, live) && NodeOf(b.hashNode, b) && b.hashNode !in h.nodes
    requires forall x :: x in live ==> x.serial < b.serial
    modifies h`chains, h`nodes, h.buckets, b.hashNode`next, b.hashNode`pprev, h.nodes`pprev
    ensures HashHolds(h, live + [b]) && h.nodes == old(h.nodes) + {b.hashNode}
  {
    hide Slot, Words, HashTable.Valid, HNode.Key, NewestFirst;
    h.ChainsHoldNodes();
    ghost var c, s := Slot(b.hashNode.Key()), h.chains[Slot(b.hashNode.Key())];
    forall n | n in s
      ensures n.stamp < b.serial
    {
      assert n in h.nodes && NodeOf(n, n.entry);
    }
    NewestFirstAdd(b.hashNode, s);
    h.Add(b.hashNode);
  }

  lemma NewestFirstAdd(n: HNode<Memblock?>, s: seq<HNode<Memblock?>>)
    requires NewestFirst(s) && forall m :: m in s ==> m.stamp < n.stamp
    ensures NewestFirst([n] + s)
  {
  }

  lemma NewestFirstRemove(s: seq<HNode<Memblock?>>, k: nat)
    requires NewestFirst(s) && k < |s|
    ensures NewestFirst(Remove(s, k))
  {
    RemoveShifts(s, k);
  }

  method UnindexBlock(h: HashTable<Memblock?>, b: Memblock, ghost live: seq<Memblock>, ghost i: nat)
    requires HashHolds(h, live) && i < |live| && b == live[i] && Distinct(live)
    modifies h`chains, h`nodes, h.buckets, h.nodes`next, h.nodes`pprev
    ensures HashHolds(h, Remove(live, i)) && h.nodes == old(h.nodes) - {b.hashNode}
  {
    hide Slot, Words, HashTable.Valid, HNode.Key, NewestFirst;
    h.ChainsHoldNodes();
    ghost var s := h.chains[Slot(b.hashNode.Key())];
    ghost var k := h.Delete(b.hashNode);
    NewestFirstRemove(s, k);
    RemoveShifts(live, i);
    forall n | n in h.nodes
      ensures n.entry in Remove(live, i)
    {
      InRemoved(live, i, n.entry);
    }
  }

  // ----- Entering and leaving a ring

  method AppendBlock(b: Memblock, head: Link<Memblock?>, ghost bs: seq<Memblock>, ghost links: seq<Link<Memblock?>>)
    requires BlockRing(head, bs, links) && b.listNode != head && b.listNode !in links && b.listNode.entry == b
    modifies head`next, head`prev, b.listNode`next, b.listNode`prev, links`next, links`prev
    ensures BlockRing(head, bs + [b], links + [b.listNode])
  {
    hide Ring;
    AddTail(b.listNode, head, links);
    assert Links(bs + [b]) == links + [b.listNode];
  }

  method DetachBlock(b: Memblock, ghost head: Link<Memblock?>, ghost bs: seq<Memblock>,
                     ghost links: seq<Link<Memblock?>>, ghost k: nat)
    requires BlockRing(head, bs, links) && k < |bs| && bs[k] == b
    modifies head`next, head`prev, links`next, links`prev
    ensures BlockRing(head, Remove(bs, k), Remove(links, k))
  {
    hide Ring;
    Rings.Delete(b.listNode, head, links, k);
    RemoveShifts(bs, k);
    RemoveShifts(links, k);
    assert Links(Remove(bs, k)) == Remove(links, k);
  }

  // ----- Keeping the books

  /** Book a new block `b` on its callstack. */
  method CreditNew(b: Memblock, ghost m: Ledger<Callstack>, ghost live: seq<Memblock>, ghost split: nat,
                   ghost known: set<Callstack>)
    requires Describes(m, live, split, known) && !b.expired && b.pointer != 0
    requires b.callstack !in known ==> b.callstack.stats == ZERO
    modifies b.callstack`stats
    ensures Describes(New(m, b.pointer, b.size, b.callstack, b.create), live + [b], split, known + {b.callstack})
  {
    b.callstack.stats := NewStats(b.callstack.stats, b.size);
  }

  /** Book the deletion of the `i`-th block. */
  method DebitDelete(b: Memblock, now: int, ghost m: Ledger<Callstack>, ghost live: seq<Memblock>, ghost split: nat,
                     ghost known: set<Callstack>, ghost i: nat)
    requires Describes(m, live, split, known) && i < |live| && live[i] == b
    modifies b.callstack`stats
    ensures Describes(LedgerModel.Delete(m, i, now), Remove(live, i), if i < split then split - 1 else split, known)
  {
    var freeTime := now - b.create;
    var cs := b.callstack;
    var s := cs.stats;
    if b.expired {
      s := s.(freeExpiredCount := s.freeExpiredCount + 1, freeExpiredSize := s.freeExpiredSize + b.size);
    }
    s := s.(freeCount := s.freeCount + 1, freeSize := s.freeSize + b.size, freeTotal := s.freeTotal + freeTime);
    if freeTime > s.freeMax {
      s := s.(freeMax := freeTime);
    }
    if s.freeMin == 0 || freeTime < s.freeMin {
      s := s.(freeMin := freeTime);
    }
    cs.stats := s;
    AfterDebit(m, live, split, known, i, now);
  }

  /** The callstack of the `i`-th block has been debited: the books are right without it. */
  lemma AfterDebit(m: Ledger<Callstack>, live: seq<Memblock>, split: nat, known: set<Callstack>, i: nat, now: int)
    requires WellFormed(m) && |m.live| == |live| && m.split == split && i < |live| && m.accounts.Keys == known
    requires forall j :: 0 <= j < |live| ==>
               && m.live[j] == Block(live[j].pointer, live[j].size, live[j].create, live[j].callstack)
               && (live[j].expired <==> j < split)
    requires var cs := live[i].callstack;
             && (forall c :: c in known && c != cs ==> m.accounts[c].stats == c.stats)
             && cs.stats == DeleteStats(m.accounts[cs].stats, live[i].size, live[i].expired, now - live[i].create)
    ensures Describes(LedgerModel.Delete(m, i, now), Remove(live, i), if i < split then split - 1 else split, known)
  {
    hide DeleteStats;
    RemoveShifts(live, i);
    RemoveShifts(m.live, i);
  }

  /** Book an in-place resize of the `i`-th block. */
  method BookResize(b: Memblock, size: nat, ghost m: Ledger<Callstack>, ghost live: seq<Memblock>, ghost split: nat,
                    ghost known: set<Callstack>, ghost i: nat)
    requires Describes(m, live, split, known) && i < |live| && live[i] == b && Distinct(live)
    modifies b.callstack`stats, b`size
    ensures Describes(Resize(m, i, size), live, split, known)
  {
    var cs := b.callstack;
    cs.stats := cs.stats.(allocSize := cs.stats.allocSize - b.size);
    cs.stats := cs.stats.(allocSize := cs.stats.allocSize + size);
    b.size := size;
  }

  /** Book the expiry of the oldest active block. */
  method BookExpiry(b: Memblock, callstackId: nat, ghost m: Ledger<Callstack>, ghost live: seq<Memblock>,
                    ghost known: set<Callstack>)
    returns (id: nat)
    requires Describes(m, live, m.split, known) && m.split < |live| && live[m.split] == b && Distinct(live)
    requires callstackId == |m.byId| + 1
    modifies b.callstack`stats, b`expired
    ensures Describes(ExpireOne(m), live, m.split + 1, known)
    ensures id == |ExpireOne(m).byId| + 1
  {
    b.expired := true;
    var cs := b.callstack;
    cs.stats := cs.stats.(expiredCount := cs.stats.expiredCount + 1, expiredSize := cs.stats.expiredSize + b.size);
    id := callstackId;
    if cs.stats.id == 0 {
      cs.stats := cs.stats.(id := callstackId);
      id := callstackId + 1;
    }
  }

  // ----- The ledger

  lemma SerialsDistinct(live: seq<Memblock>, created: nat)
    requires Serials(live, created)
    ensures Distinct(live)
  {
  }

  lemma SerialsAppend(live: seq<Memblock>, b: Memblock)
    requires Serials(live, b.serial)
    ensures Serials(live + [b], b.serial + 1) && forall x :: x in live ==> x.serial < b.serial
  {
  }

  lemma SerialsRemove(live: seq<Memblock>, created: nat, i: nat)
    requires Serials(live, created) && i < |live|
    ensures Serials(Remove(live, i), created)
  {
    RemoveShifts(live, i);
  }

  lemma RemoveFromParts<T>(s: seq<T>, t: seq<T>, i: nat)
    requires i < |s| + |t|
    ensures i < |s| ==> Remove(s + t, i) == Remove(s, i) + t
    ensures i >= |s| ==> Remove(s + t, i) == s + Remove(t, i - |s|)
  {
  }

  /** Two rings that share no node. */
  ghost predicate TwoRings(p: Link<Memblock?>, bs: seq<Memblock>, ls: seq<Link<Memblock?>>,
                           q: Link<Memblock?>, cs: seq<Memblock>, ms: seq<Link<Memblock?>>)
    reads p, ls, q, ms
  {
    && BlockRing(p, bs, ls) && BlockRing(q, cs, ms)
    && p != q && p !in ms && q !in ls && forall l :: l in ls ==> l !in ms
  }

  /** Append to the first of two rings; the second is not touched. */
  method AppendToFirst(b: Memblock, p: Link<Memblock?>, ghost bs: seq<Memblock>, ghost ls: seq<Link<Memblock?>>,
                       ghost q: Link<Memblock?>, ghost cs: seq<Memblock>, ghost ms: seq<Link<Memblock?>>)
    requires TwoRings(p, bs, ls, q, cs, ms) && b.listNode.entry == b
    requires b.listNode != p && b.listNode != q && b.listNode !in ls && b.listNode !in ms
    modifies p`next, p`prev, b.listNode`next, b.listNode`prev, ls`next, ls`prev
    ensures TwoRings(p, bs + [b], ls + [b.listNode], q, cs, ms)
  {
    hide BlockRing, Ring;
    AppendBlock(b, p, bs, ls);
    assert forall l :: l in [q] + ms ==> l !in [p, b.listNode] + ls;
    assert forall l :: l in [q] + ms ==> l.next == old(l.next) && l.prev == old(l.prev);
  }

  /** Unlink from the first of two rings; the second is not touched. */
  method DetachFromFirst(b: Memblock, ghost p: Link<Memblock?>, ghost bs: seq<Memblock>, ghost ls: seq<Link<Memblock?>>,
                         ghost q: Link<Memblock?>, ghost cs: seq<Memblock>, ghost ms: seq<Link<Memblock?>>,
                         ghost k: nat)
    requires TwoRings(p, bs, ls, q, cs, ms) && k < |bs| && bs[k] == b
    modifies p`next, p`prev, ls`next, ls`prev
    ensures TwoRings(p, Remove(bs, k), Remove(ls, k), q, cs, ms)
    ensures b.listNode !in Remove(ls, k) && b.listNode !in ms && b.listNode != p && b.listNode != q
    ensures b.listNode.entry == b
  {
    assert b.listNode == ls[k] && b.listNode in ls;
    hide Ring;
    DetachBlock(b, p, bs, ls, k);
    assert forall l :: l in [q] + ms ==> l !in [p] + ls;
    assert forall l :: l in [q] + ms ==> l.next == old(l.next) && l.prev == old(l.prev);
  }

  lemma TwoRingsSwap(p: Link<Memblock?>, bs: seq<Memblock>, ls: seq<Link<Memblock?>>,
                     q: Link<Memblock?>, cs: seq<Memblock>, ms: seq<Link<Memblock?>>)
    requires TwoRings(p, bs, ls, q, cs, ms)
    ensures TwoRings(q, cs, ms, p, bs, ls)
  {
  }

  lemma EmptyBlockRing(head: Link<Memblock?>)
    requires head.next == head && head.prev == head
    ensures BlockRing(head, [], [])
  {
    assert Links([]) == [];
  }

  lemma EmptyHash(h: HashTable<Memblock?>)
    requires h.Valid() && h.nodes == {} && forall b :: 0 <= b < HASH_SIZE ==> h.chains[b] == []
    ensures HashHolds(h, [])
  {
    hide HashTable.Valid;
    h.ChainsHoldNodes();
  }

  lemma NewFacts<C>(l: Ledger<C>, pointer: Address, size: nat, cs: C, now: int)
    ensures LedgerModel.New(l, pointer, size, cs, now).byId == l.byId
    ensures LedgerModel.New(l, 0, size, cs, now) == Adopt(l, cs)
  {
  }

  /** What the linked structures stand for: the blocks of the two lists with their
      nodes, the callstacks seen, and the ledger that is refined. */
  datatype View = View(
    expired: seq<Memblock>, active: seq<Memblock>,
    expiredLinks: seq<Link<Memblock?>>, activeLinks: seq<Link<Memblock?>>,
    known: set<Callstack>, model: Ledger<Callstack>, created: nat)
  {
    function Live(): seq<Memblock> {
      expired + active
    }
  }

  ghost predicate Holds(v: View, h: HashTable<Memblock?>, a: Link<Memblock?>, e: Link<Memblock?>)
    reads a, e, v.activeLinks, v.expiredLinks, h, h.buckets, h.nodes, v.expired, v.active, v.known
  {
    match v
    case View(expired, active, expiredLinks, activeLinks, known, model, created) =>
      && TwoRings(a, active, activeLinks, e, expired, expiredLinks)
      && HashHolds(h, expired + active) && Serials(expired + active, created)
      && Describes(model, expired + active, |expired|, known)
  }

  /** A moment inside an operation: the hash table holds `hashed`, the rings are as
      in `rings`, and the books describe `booked`. */
  datatype Stage = Stage(hashed: seq<Memblock>, rings: View, booked: seq<Memblock>, model: Ledger<Callstack>,
                         split: nat, known: set<Callstack>)

  ghost predicate During(s: Stage, h: HashTable<Memblock?>, a: Link<Memblock?>, e: Link<Memblock?>)
    reads a, e, s.rings.activeLinks, s.rings.expiredLinks, h, h.buckets, h.nodes, s.booked, s.known
  {
    match s
    case Stage(hashed, v, booked, model, split, known) =>
      && TwoRings(a, v.active, v.activeLinks, e, v.expired, v.expiredLinks)
      && HashHolds(h, hashed) && Describes(model, booked, split, known)
  }

  ghost function Elements<T>(s: seq<T>): set<T> {
    set x | x in s
  }

  /** The blocks and nodes that the ledger is made of. */
  ghost function Parts(v: View, nodes: set<HNode<Memblock?>>): set<object> {
    var links: set<object> := Elements(v.expiredLinks + v.activeLinks);
    var blocks: set<object> := Elements(v.expired + v.active);
    links + blocks + nodes
  }

  lemma PartsHave(v: View, nodes: set<HNode<Memblock?>>)
    ensures forall i :: 0 <= i < |v.expiredLinks| ==> v.expiredLinks[i] in Parts(v, nodes)
    ensures forall i :: 0 <= i < |v.activeLinks| ==> v.activeLinks[i] in Parts(v, nodes)
    ensures forall i :: 0 <= i < |v.expired| ==> v.expired[i] in Parts(v, nodes)
    ensures forall i :: 0 <= i < |v.active| ==> v.active[i] in Parts(v, nodes)
    ensures forall n :: n in nodes ==> n in Parts(v, nodes)
  {
    var links, blocks := v.expiredLinks + v.activeLinks, v.expired + v.active;
    assert forall i :: 0 <= i < |v.expiredLinks| ==> links[i] == v.expiredLinks[i];
    assert forall i :: 0 <= i < |v.activeLinks| ==> links[|v.expiredLinks| + i] == v.activeLinks[i];
    assert forall i :: 0 <= i < |v.expired| ==> blocks[i] == v.expired[i];
    assert forall i :: 0 <= i < |v.active| ==> blocks[|v.expired| + i] == v.active[i];
  }

  lemma PartsGrow(v: View, w: View, b: Memblock, nodes: set<HNode<Memblock?>>)
    requires w.expired == v.expired && w.active == v.active + [b]
    requires w.expiredLinks == v.expiredLinks && w.activeLinks == v.activeLinks + [b.listNode]
    ensures Parts(w, nodes + {b.hashNode}) == Parts(v, nodes) + {b, b.listNode, b.hashNode}
  {
    assert w.expired + w.active == (v.expired + v.active) + [b];
    assert w.expiredLinks + w.activeLinks == (v.expiredLinks + v.activeLinks) + [b.listNode];
    assert Elements(w.expired + w.active) == Elements(v.expired + v.active) + {b};
    assert Elements(w.expiredLinks + w.activeLinks) == Elements(v.expiredLinks + v.activeLinks) + {b.listNode};
  }

  lemma WithoutFacts(v: View, i: nat, m: Ledger<Callstack>)
    requires i < |v.Live()| && |v.activeLinks| == |v.active| && |v.expiredLinks| == |v.expired|
    ensures var w := Without(v, i, m); w.model == m && w.known == v.known
    ensures forall j :: 0 <= j < |Without(v, i, m).activeLinks| ==> Without(v, i, m).activeLinks[j] in v.activeLinks
  {
  }

  lemma PartsShrink(v: View, i: nat, m: Ledger<Callstack>, before: set<HNode<Memblock?>>, after: set<HNode<Memblock?>>)
    requires i < |v.Live()| && |v.activeLinks| == |v.active| && |v.expiredLinks| == |v.expired| && after <= before
    ensures Parts(Without(v, i, m), after) <= Parts(v, before)
  {
    var w := Without(v, i, m);
    RemoveFromParts(v.expired, v.active, i);
    RemoveFromParts(v.expiredLinks, v.activeLinks, i);
    assert Elements(w.expired + w.active) <= Elements(v.expired + v.active);
    assert Elements(w.expiredLinks + w.activeLinks) <= Elements(v.expiredLinks + v.activeLinks);
  }

  lemma SameParts(v: View, w: View, nodes: set<HNode<Memblock?>>)
    requires w == v.(model := w.model, known := w.known)
    ensures Parts(w, nodes) == Parts(v, nodes)
  {
  }

  lemma PartsMove(v: View, m: Ledger<Callstack>, nodes: set<HNode<Memblock?>>)
    requires v.active != [] && |v.activeLinks| == |v.active|
    ensures Parts(Expired(v, m), nodes) == Parts(v, nodes)
  {
    var w := Expired(v, m);
    assert w.expired + w.active == v.expired + v.active;
    assert w.expiredLinks + w.activeLinks == v.expiredLinks + v.activeLinks;
  }

  /** The stage at which nothing has been changed yet. */
  function Begin(v: View): Stage {
    Stage(v.Live(), v, v.Live(), v.model, |v.expired|, v.known)
  }

  lemma Opening(v: View, h: HashTable<Memblock?>, a: Link<Memblock?>, e: Link<Memblock?>)
    requires Holds(v, h, a, e)
    ensures During(Begin(v), h, a, e) && Serials(v.Live(), v.created)
    ensures |v.activeLinks| == |v.active| && |v.expiredLinks| == |v.expired|
    ensures WellFormed(v.model) && |v.model.live| == |v.Live()| && v.model.split == |v.expired|
    ensures forall i :: 0 <= i < |v.Live()| ==> v.Live()[i].callstack in v.known
  {
    assert forall i :: 0 <= i < |v.Live()| ==> v.model.live[i].cs == v.Live()[i].callstack;
  }

  lemma Closing(v: View, h: HashTable<Memblock?>, a: Link<Memblock?>, e: Link<Memblock?>)
    requires During(Begin(v), h, a, e) && Serials(v.Live(), v.created)
    ensures Holds(v, h, a, e)
  {
  }

  // Each of the next methods changes one of the structures and keeps the others.

  method Index(h: HashTable<Memblock?>, b: Memblock, ghost s: Stage, ghost a: Link<Memblock?>, ghost e: Link<Memblock?>)
    requires During(s, h, a, e) && NodeOf(b.hashNode, b) && b.hashNode !in h.nodes
    requires forall x :: x in s.hashed ==> x.serial < b.serial
    modifies h`chains, h`nodes, h.buckets, b.hashNode`next, b.hashNode`pprev, h.nodes`pprev
    ensures During(s.(hashed := s.hashed + [b]), h, a, e) && h.nodes == old(h.nodes) + {b.hashNode}
  {
    hide HashHolds, TwoRings, Describes, NodeOf;
    IndexBlock(h, b, s.hashed);
  }

  method Unindex(h: HashTable<Memblock?>, b: Memblock, ghost s: Stage, ghost i: nat, ghost a: Link<Memblock?>,
                 ghost e: Link<Memblock?>)
    requires During(s, h, a, e) && i < |s.hashed| && b == s.hashed[i] && Distinct(s.hashed)
    modifies h`chains, h`nodes, h.buckets, h.nodes`next, h.nodes`pprev
    ensures During(s.(hashed := Remove(s.hashed, i)), h, a, e) && h.nodes == old(h.nodes) - {b.hashNode}
  {
    hide HashHolds, TwoRings, Describes, Distinct;
    UnindexBlock(h, b, s.hashed, i);
  }

  method Credit(b: Memblock, ghost s: Stage, ghost h: HashTable<Memblock?>, ghost a: Link<Memblock?>,
                ghost e: Link<Memblock?>)
    requires During(s, h, a, e) && !b.expired && b.pointer != 0
    requires b.callstack !in s.known ==> b.callstack.stats == ZERO
    modifies b.callstack`stats
    ensures During(s.(booked := s.booked + [b], known := s.known + {b.callstack},
                      model := LedgerModel.New(s.model, b.pointer, b.size, b.callstack, b.create)), h, a, e)
  {
    hide HashHolds, TwoRings, Describes, LedgerModel.New;
    CreditNew(b, s.model, s.booked, s.split, s.known);
  }

  method Debit(b: Memblock, now: int, ghost s: Stage, ghost i: nat, ghost h: HashTable<Memblock?>,
               ghost a: Link<Memblock?>, ghost e: Link<Memblock?>)
    requires During(s, h, a, e) && i < |s.booked| && s.booked[i] == b
    requires WellFormed(s.model) && |s.model.live| == |s.booked|
    modifies b.callstack`stats
    ensures During(s.(booked := Remove(s.booked, i), model := LedgerModel.Delete(s.model, i, now),
                      split := if i < s.split then s.split - 1 else s.split), h, a, e)
  {
    hide HashHolds, TwoRings, Describes, LedgerModel.Delete;
    DebitDelete(b, now, s.model, s.booked, s.split, s.known, i);
  }

  /** list_add_tail to the active list. */
  method Append(b: Memblock, a: Link<Memblock?>, ghost s: Stage, ghost w: View, ghost h: HashTable<Memblock?>,
                ghost e: Link<Memblock?>)
    requires During(s, h, a, e) && b.listNode.entry == b && b.listNode != a && b.listNode != e
    requires b.listNode !in s.rings.activeLinks && b.listNode !in s.rings.expiredLinks
    requires w.active == s.rings.active + [b] && w.activeLinks == s.rings.activeLinks + [b.listNode]
    requires w.expired == s.rings.expired && w.expiredLinks == s.rings.expiredLinks
    modifies a`next, a`prev, b.listNode`next, b.listNode`prev, s.rings.activeLinks`next, s.rings.activeLinks`prev
    ensures During(s.(rings := w), h, a, e)
  {
    hide HashHolds, TwoRings, Describes;
    AppendToFirst(b, a, s.rings.active, s.rings.activeLinks, e, s.rings.expired, s.rings.expiredLinks);
  }

  /** The view after the block at position `i` left. */
  ghost function Without(v: View, i: nat, m: Ledger<Callstack>): (w: View)
    requires i < |v.Live()| && |v.activeLinks| == |v.active| && |v.expiredLinks| == |v.expired|
    ensures w.Live() == Remove(v.Live(), i) && w.model == m && w.known == v.known && w.created == v.created
    ensures |w.expired| == if i < |v.expired| then |v.expired| - 1 else |v.expired|
    ensures forall i :: 0 <= i < |w.activeLinks| ==> w.activeLinks[i] in v.activeLinks
  {
    RemoveFromParts(v.expired, v.active, i);
    if i < |v.expired| then
      v.(expired := Remove(v.expired, i), expiredLinks := Remove(v.expiredLinks, i), model := m)
    else
      var k := i - |v.expired|;
      v.(active := Remove(v.active, k), activeLinks := Remove(v.activeLinks, k), model := m)
  }

  /** list_del from whichever ring holds the block at position `i`. */
  method Unlink(b: Memblock, ghost s: Stage, ghost i: nat, ghost h: HashTable<Memblock?>, ghost a: Link<Memblock?>,
                ghost e: Link<Memblock?>)
    requires During(s, h, a, e)
    requires |s.rings.activeLinks| == |s.rings.active| && |s.rings.expiredLinks| == |s.rings.expired|
    requires i < |s.rings.Live()| && s.rings.Live()[i] == b
    modifies a`next, a`prev, s.rings.activeLinks`next, s.rings.activeLinks`prev
    modifies e`next, e`prev, s.rings.expiredLinks`next, s.rings.expiredLinks`prev
    ensures During(s.(rings := Without(s.rings, i, s.model)), h, a, e)
  {
    hide HashHolds, TwoRings, Describes;
    ghost var v, w, x := s.rings, Without(s.rings, i, s.model), i < |s.rings.expired|;
    if x {
      TwoRingsSwap(a, v.active, v.activeLinks, e, v.expired, v.expiredLinks);
    }
    DetachFromFirst(b, if x then e else a, if x then v.expired else v.active,
                    if x then v.expiredLinks else v.activeLinks,
                    if x then a else e, if x then v.active else v.expired, if x then v.activeLinks else v.expiredLinks,
                    if x then i else i - |v.expired|);
    if x {
      TwoRingsSwap(e, w.expired, w.expiredLinks, a, v.active, v.activeLinks);
    }
  }

  /** Enter `mb` into the hash table, the active list and the books. */
  method Enter(mb: Memblock, ghost v: View, h: HashTable<Memblock?>, a: Link<Memblock?>, ghost e: Link<Memblock?>)
    returns (ghost w: View)
    requires Holds(v, h, a, e) && NodeOf(mb.hashNode, mb) && mb.hashNode !in h.nodes
    requires mb.listNode.entry == mb && mb.listNode != a && mb.listNode != e
    requires mb.listNode !in v.activeLinks && mb.listNode !in v.expiredLinks
    requires !mb.expired && mb.pointer != 0 && mb.serial == v.created
    requires mb.callstack !in v.known ==> mb.callstack.stats == ZERO
    modifies a`next, a`prev, v.activeLinks`next, v.activeLinks`prev, mb.listNode`next, mb.listNode`prev
    modifies h`chains, h`nodes, h.buckets, h.nodes`pprev, mb.hashNode`next, mb.hashNode`pprev, mb.callstack`stats
    ensures Holds(w, h, a, e) && w.model == LedgerModel.New(v.model, mb.pointer, mb.size, mb.callstack, mb.create)
    ensures w.known == v.known + {mb.callstack}
    ensures Parts(w, h.nodes) == Parts(v, old(h.nodes)) + {mb, mb.listNode, mb.hashNode}
  {
    hide Holds, During, Serials, NodeOf, LedgerModel.New, Parts;
    Opening(v, h, a, e);
    ghost var s, live := Begin(v), v.Live();
    SerialsAppend(live, mb);
    w := View(v.expired, v.active + [mb], v.expiredLinks, v.activeLinks + [mb.listNode], v.known + {mb.callstack},
              LedgerModel.New(v.model, mb.pointer, mb.size, mb.callstack, mb.create), v.created + 1);
    assert w.Live() == live + [mb];
    PartsGrow(v, w, mb, h.nodes);
    Index(h, mb, s, a, e);
    s := s.(hashed := live + [mb]);
    Credit(mb, s, h, a, e);
    s := s.(booked := live + [mb], known := w.known, model := w.model);
    Append(mb, a, s, w, h, e);
    assert s.(rings := w) == Begin(w);
    Closing(w, h, a, e);
  }

  /** Take the block at position `i` out of the books, the hash table and its list. */
  method Leave(b: Memblock, now: int, ghost v: View, h: HashTable<Memblock?>, ghost a: Link<Memblock?>,
               ghost e: Link<Memblock?>, ghost i: nat)
    returns (ghost w: View)
    requires Holds(v, h, a, e) && i < |v.Live()| && v.Live()[i] == b
    requires |v.activeLinks| == |v.active| && |v.expiredLinks| == |v.expired| && WellFormed(v.model)
    requires |v.model.live| == |v.Live()|
    modifies a`next, a`prev, v.activeLinks`next, v.activeLinks`prev, e`next, e`prev, v.expiredLinks`next
    modifies v.expiredLinks`prev
    modifies h`chains, h`nodes, h.buckets, h.nodes`next, h.nodes`pprev, b.callstack`stats
    ensures Holds(w, h, a, e) && w == Without(v, i, LedgerModel.Delete(v.model, i, now))
    ensures h.nodes <= old(h.nodes) && w.known == v.known && Parts(w, h.nodes) <= Parts(v, old(h.nodes))
    ensures w.model == LedgerModel.Delete(v.model, i, now)
    ensures forall j :: 0 <= j < |w.activeLinks| ==> w.activeLinks[j] in v.activeLinks
  {
    hide Holds, During, Serials, LedgerModel.Delete, Without, Remove, Distinct, Parts;
    Opening(v, h, a, e);
    ghost var s, live, m := Begin(v), v.Live(), LedgerModel.Delete(v.model, i, now);
    SerialsDistinct(live, v.created);
    SerialsRemove(live, v.created, i);
    w := Without(v, i, m);
    WithoutFacts(v, i, m);
    Debit(b, now, s, i, h, a, e);
    s := s.(booked := Remove(live, i), model := m, split := |w.expired|);
    Unindex(h, b, s, i, a, e);
    PartsShrink(v, i, m, old(h.nodes), h.nodes);
    s := s.(hashed := Remove(live, i));
    Unlink(b, s, i, h, a, e);
    assert s.(rings := w) == Begin(w);
    Closing(w, h, a, e);
  }

  method NewBlock(pointer: Address, size: nat, cs: Callstack, now: int,
                  ghost v: View, h: HashTable<Memblock?>, a: Link<Memblock?>, ghost e: Link<Memblock?>)
    returns (ghost w: View)
    requires Holds(v, h, a, e) && (cs !in v.known ==> cs.stats == ZERO)
    modifies a`next, a`prev, v.activeLinks`next, v.activeLinks`prev, h`chains, h`nodes, h.buckets, h.nodes`pprev
    modifies cs`stats
    ensures Holds(w, h, a, e) && w.model == LedgerModel.New(v.model, pointer, size, cs, now)
    ensures w.known == v.known + {cs} && forall x :: x in Parts(w, h.nodes) && x !in Parts(v, old(h.nodes)) ==> fresh(x)
  {
    hide Holds, NodeOf, LedgerModel.New, Parts;
    if pointer == 0 {
      NewFacts(v.model, pointer, size, cs, now);
      AdoptHolds(v, h, a, e, cs);
      w := v.(model := Adopt(v.model, cs), known := v.known + {cs});
      SameParts(v, w, h.nodes);
    } else {
      var mb := new Memblock(pointer, size, now, cs, v.created);
      w := Enter(mb, v, h, a, e);
    }
  }

  /** In-place change of a size: only the block and its callstack change. */
  method ResizeBlock(b: Memblock, size: nat, ghost v: View, ghost h: HashTable<Memblock?>, ghost a: Link<Memblock?>,
                     ghost e: Link<Memblock?>, ghost i: nat)
    returns (ghost w: View)
    requires Holds(v, h, a, e) && i < |v.Live()| && v.Live()[i] == b && WellFormed(v.model)
    requires |v.model.live| == |v.Live()|
    modifies b.callstack`stats, b`size
    ensures Holds(w, h, a, e) && w == v.(model := Resize(v.model, i, size))
  {
    hide HashHolds, TwoRings, Serials, Describes, Resize;
    ghost var live := v.Live();
    SerialsDistinct(live, v.created);
    BookResize(b, size, v.model, live, |v.expired|, v.known, i);
    w := v.(model := Resize(v.model, i, size));
    assert w.Live() == live;
  }

  /** The view after the oldest active block moved to the expired ones. */
  function Expired(v: View, m: Ledger<Callstack>): (w: View)
    requires v.active != [] && |v.activeLinks| == |v.active|
    ensures w.Live() == v.Live()
  {
    v.(expired := v.expired + [v.active[0]], active := v.active[1..],
       expiredLinks := v.expiredLinks + [v.activeLinks[0]], activeLinks := v.activeLinks[1..], model := m)
  }

  method BookOldest(b: Memblock, callstackId: nat, ghost s: Stage, ghost h: HashTable<Memblock?>,
                    ghost a: Link<Memblock?>, ghost e: Link<Memblock?>)
    returns (id: nat)
    requires During(s, h, a, e) && WellFormed(s.model) && s.split == s.model.split < |s.booked| == |s.model.live|
    requires s.booked[s.split] == b && Distinct(s.booked) && callstackId == |s.model.byId| + 1
    modifies b.callstack`stats, b`expired
    ensures During(s.(model := ExpireOne(s.model), split := s.split + 1), h, a, e)
    ensures id == |ExpireOne(s.model).byId| + 1
  {
    hide HashHolds, TwoRings, Describes, ExpireOne, Distinct;
    id := BookExpiry(b, callstackId, s.model, s.booked, s.known);
  }

  /** list_del from the active list, list_add_tail to the expired one. */
  method MoveLink(b: Memblock, ghost s: Stage, ghost w: View, ghost h: HashTable<Memblock?>, ghost a: Link<Memblock?>,
                  e: Link<Memblock?>)
    requires During(s, h, a, e) && s.rings.active != [] && b == s.rings.active[0]
    requires |s.rings.activeLinks| == |s.rings.active|
    requires w == Expired(s.rings, w.model)
    modifies a`next, a`prev, s.rings.activeLinks`next, s.rings.activeLinks`prev
    modifies e`next, e`prev, s.rings.expiredLinks`next, s.rings.expiredLinks`prev
    ensures During(s.(rings := w), h, a, e)
  {
    hide HashHolds, TwoRings, Describes;
    ghost var v := s.rings;
    FirstNode(a, e, v);
    assert Remove(v.active, 0) == w.active && Remove(v.activeLinks, 0) == w.activeLinks;
    DetachFromFirst(b, a, v.active, v.activeLinks, e, v.expired, v.expiredLinks, 0);
    TwoRingsSwap(a, w.active, w.activeLinks, e, v.expired, v.expiredLinks);
    AppendToFirst(b, e, v.expired, v.expiredLinks, a, w.active, w.activeLinks);
    TwoRingsSwap(e, w.expired, w.expiredLinks, a, w.active, w.activeLinks);
  }

  lemma FirstNode(a: Link<Memblock?>, e: Link<Memblock?>, v: View)
    requires TwoRings(a, v.active, v.activeLinks, e, v.expired, v.expiredLinks) && v.active != []
    ensures v.activeLinks != [] && v.activeLinks[0] == v.active[0].listNode
  {
  }

  method MoveBlock(b: Memblock, callstackId: nat, ghost v: View, ghost h: HashTable<Memblock?>,
                   ghost a: Link<Memblock?>, e: Link<Memblock?>)
    returns (ghost w: View, id: nat)
    requires Holds(v, h, a, e) && v.active != [] && b == v.active[0]
    requires |v.activeLinks| == |v.active| && WellFormed(v.model) && |v.model.live| == |v.Live()|
    requires v.model.split == |v.expired|
    requires callstackId == |v.model.byId| + 1
    modifies a`next, a`prev, v.activeLinks`next, v.activeLinks`prev, e`next, e`prev, v.expiredLinks`next
    modifies v.expiredLinks`prev
    modifies b.callstack`stats, b`expired
    ensures w == Expired(v, ExpireOne(v.model)) && Holds(w, h, a, e) && id == |w.model.byId| + 1
  {
    hide Holds, During, Serials, ExpireOne, Distinct;
    Opening(v, h, a, e);
    ghost var s := Begin(v);
    SerialsDistinct(v.Live(), v.created);
    w := Expired(v, ExpireOne(v.model));
    id := BookOldest(b, callstackId, s, h, a, e);
    s := s.(model := w.model, split := |w.expired|);
    MoveLink(b, s, w, h, a, e);
    assert s.(rings := w) == Begin(w);
    Closing(w, h, a, e);
  }

  /** All nodes of `w` were nodes of `v`; only active blocks expire. */
  ghost predicate Narrowed(w: View, v: View) {
    match w
    case View(_, active, expiredLinks, activeLinks, known, _, _) =>
      && known == v.known
      && (forall i :: 0 <= i < |active| ==> active[i] in v.active)
      && (forall i :: 0 <= i < |activeLinks| ==> activeLinks[i] in v.activeLinks)
      && (forall i :: 0 <= i < |expiredLinks| ==> expiredLinks[i] in v.expiredLinks || expiredLinks[i] in v.activeLinks)
  }

  lemma NotNarrowed(v: View)
    ensures Narrowed(v, v)
  {
  }

  lemma NarrowedByOne(w: View, v: View, m: Ledger<Callstack>)
    requires Narrowed(w, v) && w.active != [] && |w.activeLinks| == |w.active|
    ensures Narrowed(Expired(w, m), v)
  {
  }

  /** What the walk may touch. */
  lemma NarrowedFacts(w: View, v: View)
    requires Narrowed(w, v)
    ensures w.known == v.known
    ensures forall i :: 0 <= i < |w.active| ==> w.active[i] in v.active
    ensures forall i :: 0 <= i < |w.activeLinks| ==> w.activeLinks[i] in v.activeLinks
    ensures forall i :: 0 <= i < |w.expiredLinks| ==>
              w.expiredLinks[i] in v.expiredLinks || w.expiredLinks[i] in v.activeLinks
  {
  }

  /** memblock_expire: walk the active list from its oldest block, moving blocks
      while the walk goes on (list_for_each_safe), until one is too young or a
      limit is reached. */
  method Walk(now: int, age: int, memblockLimit: int, callstackLimit: int, callstackId: nat,
              ghost v: View, ghost h: HashTable<Memblock?>, a: Link<Memblock?>, e: Link<Memblock?>)
    returns (next: int, ghost w: View, id: nat)
    requires Holds(v, h, a, e) && WellFormed(v.model) && callstackId == |v.model.byId| + 1
    modifies v.known`stats, v.active`expired, a`next, a`prev, v.activeLinks`next, v.activeLinks`prev
    modifies e`next, e`prev, v.expiredLinks`next, v.expiredLinks`prev
    ensures Holds(w, h, a, e) && w.known == v.known && Parts(w, h.nodes) == Parts(v, h.nodes)
    ensures id == |w.model.byId| + 1
    ensures (w.model, next) == LedgerModel.Expire(v.model, now, age, memblockLimit, callstackLimit)
  {
    hide Holds, ExpireOne, LedgerModel.Expire, At, OverLimit, Narrowed, Parts;
    w, id := v, callstackId;
    NotNarrowed(v);
    HeadFacts(w, h, a, e);
    var p := a.next;
    var safe := p.next;
    while p != a
      invariant Holds(w, h, a, e) && WellFormed(w.model) && Narrowed(w, v) && id == |w.model.byId| + 1
      invariant LedgerModel.Expire(w.model, now, age, memblockLimit, callstackLimit) ==
                LedgerModel.Expire(v.model, now, age, memblockLimit, callstackLimit)
      invariant w.known == v.known && Parts(w, h.nodes) == Parts(v, h.nodes)
      invariant p == At(a, w.activeLinks, 0) && (w.activeLinks != [] ==> safe == At(a, w.activeLinks, 1))
      decreases |w.active|
    {
      HeadFacts(w, h, a, e);
      ExpireUnfolds(w.model, now, age, memblockLimit, callstackLimit);
      var mb := p.entry;
      if now - mb.create < age {
        next := age - (now - mb.create) + 1;
        return;
      }
      NarrowedFacts(w, v);
      NarrowedByOne(w, v, ExpireOne(w.model));
      PartsMove(w, ExpireOne(w.model), h.nodes);
      w, id := MoveOldest(mb, id, w, h, a, e);
      HeadFacts(w, h, a, e);
      var cs := mb.callstack;
      StatsFact(w, h, a, e, cs);
      if cs.stats.id >= callstackLimit + 1 || cs.stats.expiredCount >= memblockLimit {
        next := -1;
        return;
      }
      p := safe;
      safe := p.next;
    }
    HeadFacts(w, h, a, e);
    ExpireUnfolds(w.model, now, age, memblockLimit, callstackLimit);
    next := 0;
  }

  /** memblock_expire_one of the oldest active block. */
  method MoveOldest(mb: Memblock, callstackId: nat, ghost v: View, ghost h: HashTable<Memblock?>,
                    ghost a: Link<Memblock?>, e: Link<Memblock?>)
    returns (ghost w: View, id: nat)
    requires Holds(v, h, a, e) && WellFormed(v.model) && v.active != [] && mb == v.active[0]
    requires callstackId == |v.model.byId| + 1
    requires |v.activeLinks| == |v.active| && v.model.split < |v.model.live| && mb.callstack in v.known
    modifies mb.callstack`stats, mb`expired, a`next, a`prev, v.activeLinks`next, v.activeLinks`prev
    modifies e`next, e`prev, v.expiredLinks`next, v.expiredLinks`prev
    ensures w == Expired(v, ExpireOne(v.model)) && Holds(w, h, a, e) && id == |w.model.byId| + 1
  {
    hide Holds, ExpireOne;
    Opening(v, h, a, e);
    w, id := MoveBlock(mb, callstackId, v, h, a, e);
  }

  lemma EmptyHolds(v: View, h: HashTable<Memblock?>, a: Link<Memblock?>, e: Link<Memblock?>)
    requires v == View([], [], [], [], {}, Empty(), 0) && a != e
    requires a.next == a && a.prev == a && e.next == e && e.prev == e
    requires h.Valid() && h.nodes == {} && forall b :: 0 <= b < HASH_SIZE ==> h.chains[b] == []
    ensures Holds(v, h, a, e) && Parts(v, h.nodes) == {}
  {
    hide HashTable.Valid, Slot, Words, BlockRing, HashHolds;
    EmptyBlockRing(a);
    EmptyBlockRing(e);
    EmptyHash(h);
    assert v.Live() == [];
  }

  class BlockLedger {
    const hash: HashTable<Memblock?>
    const active: Link<Memblock?>
    const expire: Link<Memblock?>
    var callstackId: nat
    ghost var view: View

    ghost predicate Valid()
      reads this, active, expire, view.activeLinks, view.expiredLinks, hash, hash.buckets, hash.nodes, view.expired
      reads view.active, view.known
    {
      Holds(view, hash, active, expire) && callstackId == |view.model.byId| + 1
    }

    constructor ()
      ensures Valid() && view.model == Empty() && view.known == {} && Parts(view, hash.nodes) == {}
      ensures fresh(hash) && fresh(hash.buckets) && fresh(active) && fresh(expire)
    {
      hash := new HashTable<Memblock?>();
      active := new Link<Memblock?>();
      expire := new Link<Memblock?>();
      callstackId := 1;
      view := View([], [], [], [], {}, Empty(), 0);
      new;
      hide Holds, HashTable.Valid, Parts;
      EmptyHolds(view, hash, active, expire);
    }

    /** memblock_search: the newest live block with this pointer. */
    method Search(pointer: Address) returns (r: Memblock?)
      requires Valid()
      ensures r == null <==> Find(view.model.live, pointer).None?
      ensures r != null ==> var i := Find(view.model.live, pointer).value; i < |view.Live()| && r == view.Live()[i]
    {
      hide TwoRings, HashHolds;
      ghost var live := view.Live();
      r := SearchBlock(hash, pointer, live);
      ghost var f := Find(view.model.live, pointer);
      assert forall i :: 0 <= i < |live| ==> live[i].pointer == view.model.live[i].pointer;
      if f.Some? {
        assert live[f.value] in live;
      }
    }

    /** memblock_new. */
    method New(pointer: Address, size: nat, cs: Callstack, now: int)
      requires Valid() && (cs !in view.known ==> cs.stats == ZERO)
      modifies this`view, active`next, active`prev, view.activeLinks`next, view.activeLinks`prev
      modifies hash`chains, hash`nodes, hash.buckets, hash.nodes`pprev, cs`stats
      ensures Valid() && view.model == LedgerModel.New(old(view.model), pointer, size, cs, now)
      ensures view.known == old(view.known) + {cs}
      ensures forall x :: x in Parts(view, hash.nodes) && x !in old(Parts(view, hash.nodes)) ==> fresh(x)
    {
      hide Holds, LedgerModel.New, Parts;
      NewFacts(view.model, pointer, size, cs, now);
      view := NewBlock(pointer, size, cs, now, view, hash, active, expire);
    }

    /** memblock_delete; `i` is the block's position among the live blocks. */
    method Delete(mb: Memblock?, now: int, ghost i: nat)
      requires Valid() && (mb != null ==> i < |view.Live()| && view.Live()[i] == mb)
      modifies this`view, active`next, active`prev, view.activeLinks`next, view.activeLinks`prev
      modifies expire`next, expire`prev, view.expiredLinks`next, view.expiredLinks`prev
      modifies hash`chains, hash`nodes, hash.buckets, hash.nodes`next, hash.nodes`pprev, view.known`stats
      ensures Valid()
      ensures view.model == if mb == null then old(view.model) else LedgerModel.Delete(old(view.model), i, now)
      ensures hash.nodes <= old(hash.nodes) && view.known == old(view.known)
      ensures Parts(view, hash.nodes) <= old(Parts(view, hash.nodes))
      ensures forall i :: 0 <= i < |view.activeLinks| ==> view.activeLinks[i] in old(view.activeLinks)
    {
      hide Holds, LedgerModel.Delete, Remove, Without, Parts, During, Serials, WellFormed, Begin;
      if mb != null {
        Opening(view, hash, active, expire);
        DeleteFacts(view.model, i, now);
        view := Leave(mb, now, view, hash, active, expire, i);
      }
    }

    /** memblock_update_size. */
    method UpdateSize(mb: Memblock?, size: nat, ghost i: nat)
      requires Valid() && (mb != null ==> i < |view.Live()| && view.Live()[i] == mb)
      modifies this`view, view.known`stats, view.expired`size, view.active`size
      ensures Valid()
      ensures view.model == if mb == null then old(view.model) else Resize(old(view.model), i, size)
      ensures view == old(view).(model := view.model)
    {
      hide Holds, LedgerModel.Resize;
      if mb != null {
        Opening(view, hash, active, expire);
        ResizeFacts(view.model, i, size);
        view := ResizeBlock(mb, size, view, hash, active, expire, i);
      }
    }

    /** memblock_expire_one of the oldest active block. */
    method ExpireOldest(mb: Memblock)
      requires Valid() && view.active != [] && mb == view.active[0]
      modifies this`view, this`callstackId, view.known`stats, view.active`expired
      modifies active`next, active`prev, view.activeLinks`next, view.activeLinks`prev
      modifies expire`next, expire`prev, view.expiredLinks`next, view.expiredLinks`prev
      ensures Valid() && view.model == ExpireOne(old(view.model))
      ensures |old(view.activeLinks)| == |old(view.active)| && view == Expired(old(view), view.model)
    {
      hide Holds, LedgerModel.ExpireOne;
      HeadFacts(view, hash, active, expire);
      view, callstackId := MoveOldest(mb, callstackId, view, hash, active, expire);
    }

    /** memblock_expire: walk the active list from its oldest block, moving blocks
        while the walk goes on (list_for_each_safe), until one is too young or a
        limit is reached. */
    method Expire(now: int, age: int, memblockLimit: int, callstackLimit: int) returns (next: int)
      requires Valid()
      modifies this`view, this`callstackId, view.known`stats, view.active`expired
      modifies active`next, active`prev, view.activeLinks`next, view.activeLinks`prev
      modifies expire`next, expire`prev, view.expiredLinks`next, view.expiredLinks`prev
      ensures Valid()
      ensures (view.model, next) == LedgerModel.Expire(old(view.model), now, age, memblockLimit, callstackLimit)
      ensures view.known == old(view.known) && Parts(view, hash.nodes) == old(Parts(view, hash.nodes))
    {
      hide Holds, LedgerModel.ExpireOne, LedgerModel.Expire, Parts;
      HeadFacts(view, hash, active, expire);
      next, view, callstackId := Walk(now, age, memblockLimit, callstackLimit, callstackId, view, hash, active, expire);
    }

    /** memblock_count: the expired list, then the active list. */
    method CountUnfreed(now: int)
      requires Valid()
      modifies this`view, view.known`stats
      ensures Valid() && view == old(view).(model := view.model)
      ensures view.model == Count(old(view.model), |old(view.model.live)|, now)
    {
      hide Holds, CountOne, Count;
      Opening(view, hash, active, expire);
      ghost var m := view.model;
      CountFacts(m, 0, now);
      CountFacts(m, |m.live|, now);
      ghost var w := CountList(expire, now, view, hash, active, expire, m, true);
      view := CountList(active, now, w, hash, active, expire, m, false);
    }

    /** memblock_delete(memblock_search(pointer)). */
    method DeletePointer(pointer: Address, now: int)
      requires Valid()
      modifies this`view, active`next, active`prev, view.activeLinks`next, view.activeLinks`prev
      modifies expire`next, expire`prev, view.expiredLinks`next, view.expiredLinks`prev
      modifies hash`chains, hash`nodes, hash.buckets, hash.nodes`next, hash.nodes`pprev, view.known`stats
      ensures Valid() && view.model == DeleteFound(old(view.model), pointer, now)
      ensures hash.nodes <= old(hash.nodes) && view.known == old(view.known)
      ensures Parts(view, hash.nodes) <= old(Parts(view, hash.nodes))
      ensures forall i :: 0 <= i < |view.activeLinks| ==> view.activeLinks[i] in old(view.activeLinks)
    {
      hide Holds, Find, LedgerModel.Delete, Parts;
      var mb := Search(pointer);
      Opening(view, hash, active, expire);
      Delete(mb, now, if mb == null then 0 else Find(view.model.live, pointer).value);
    }

    /** memblock_update_size(memblock_search(pointer), size). */
    method ResizePointer(pointer: Address, size: nat)
      requires Valid()
      modifies this`view, view.known`stats, view.expired`size, view.active`size
      ensures Valid() && view.model == ResizeFound(old(view.model), pointer, size)
      ensures view == old(view).(model := view.model)
    {
      hide Holds, Find, LedgerModel.Resize;
      var mb := Search(pointer);
      Opening(view, hash, active, expire);
      UpdateSize(mb, size, if mb == null then 0 else Find(view.model.live, pointer).value);
    }

    /** The handlers bph_malloc, bph_free, bph_realloc and bph_calloc. */
    method Handle(call: Call, cs: Callstack, freed: int, now: int)
      requires Valid() && (cs !in view.known ==> cs.stats == ZERO)
      modifies this`view, active`next, active`prev, view.activeLinks`next, view.activeLinks`prev
      modifies expire`next, expire`prev, view.expiredLinks`next, view.expiredLinks`prev, view.expired`size
      modifies view.active`size
      modifies hash`chains, hash`nodes, hash.buckets, hash.nodes`next, hash.nodes`pprev, view.known`stats, cs`stats
      ensures Valid() && view.model == LedgerModel.Handle(old(view.model), call, cs, freed, now)
      ensures view.known == if Allocates(call) then old(view.known) + {cs} else old(view.known)
      ensures forall x :: x in Parts(view, hash.nodes) && x !in old(Parts(view, hash.nodes)) ==> fresh(x)
    {
      hide Holds, LedgerModel.New, DeleteFound, ResizeFound, Parts;
      Opening(view, hash, active, expire);
      match call {
        case Malloc(ret, size) => New(ret, size, cs, now);
        case Free(pointer) => DeletePointer(pointer, freed);
        case Realloc(ret, from, size) =>
          if ret == from {
            ResizePointer(from, size);
            SameParts(old(view), view, hash.nodes);
          } else {
            DeletePointer(from, freed);
            New(ret, size, cs, now);
          }
        case Calloc(ret, nmemb, size) => New(ret, nmemb * size % WORD, cs, now);
      }
    }
  }

  /** One visit of memblock_count. */
  method CountBlock(b: Memblock, now: int, ghost v: View, ghost h: HashTable<Memblock?>, ghost a: Link<Memblock?>,
                    ghost e: Link<Memblock?>, ghost i: nat)
    returns (ghost w: View)
    requires Holds(v, h, a, e) && i < |v.Live()| && v.Live()[i] == b && WellFormed(v.model)
    requires |v.model.live| == |v.Live()|
    modifies b.callstack`stats
    ensures Holds(w, h, a, e) && w == v.(model := CountOne(v.model, i, now))
  {
    hide HashHolds, TwoRings, Serials, Describes;
    CountBooked(b, now, v.model, v.Live(), |v.expired|, v.known, i);
    w := v.(model := CountOne(v.model, i, now));
    assert w.Live() == v.Live();
  }

  method CountBooked(b: Memblock, now: int, ghost m: Ledger<Callstack>, ghost live: seq<Memblock>, ghost split: nat,
                     ghost known: set<Callstack>, ghost i: nat)
    requires Describes(m, live, split, known) && i < |live| && live[i] == b
    modifies b.callstack`stats
    ensures Describes(CountOne(m, i, now), live, split, known)
  {
    var cs := b.callstack;
    if cs.stats.unfreeMax == 0 {
      cs.stats := cs.stats.(unfreeMax := now - b.create);
    }
  }

  lemma CountFacts<C>(l: Ledger<C>, n: nat, now: int)
    requires WellFormed(l) && n <= |l.live|
    ensures Count(l, n, now).byId == l.byId && (n == 0 ==> Count(l, n, now) == l)
  {
  }

  lemma CountStep<C>(l: Ledger<C>, n: nat, now: int)
    requires WellFormed(l) && n < |l.live|
    ensures WellFormed(Count(l, n, now)) && |Count(l, n, now).live| == |l.live|
    ensures Count(l, n + 1, now) == CountOne(Count(l, n, now), n, now)
  {
  }

  /** Where the walk over one of the lists stands at position `k`. */
  lemma WalkFacts(v: View, h: HashTable<Memblock?>, a: Link<Memblock?>, e: Link<Memblock?>, x: bool, k: nat)
    requires Holds(v, h, a, e)
    ensures var head, bs := if x then e else a, if x then v.expired else v.active;
            var ls := if x then v.expiredLinks else v.activeLinks;
            && |ls| == |bs| && head.next == At(head, ls, 0)
            && (k == |bs| ==> At(head, ls, k) == head)
            && (k < |bs| ==> var l := At(head, ls, k); l != head && l.entry == bs[k] && l.next == At(head, ls, k + 1))
    ensures WellFormed(v.model) && |v.model.live| == |v.Live()|
    ensures forall i :: 0 <= i < |v.Live()| ==> v.Live()[i].callstack in v.known
  {
    hide HashHolds, Serials, Describes;
    Opening(v, h, a, e);
    assert At(a, v.activeLinks, -1) == a && At(e, v.expiredLinks, -1) == e;
  }

  /** list_for_each over the expired list (`x`) or the active list; `m` is the ledger
      before the whole count. */
  method CountList(head: Link<Memblock?>, now: int, ghost v: View, ghost h: HashTable<Memblock?>,
                   ghost a: Link<Memblock?>, ghost e: Link<Memblock?>, ghost m: Ledger<Callstack>, ghost x: bool)
    returns (ghost w: View)
    requires Holds(v, h, a, e) && head == (if x then e else a) && WellFormed(m) && |m.live| == |v.Live()|
    requires v.model == Count(m, if x then 0 else |v.expired|, now)
    modifies v.known`stats
    ensures Holds(w, h, a, e)
    ensures w == v.(model := Count(m, if x then |v.expired| else |v.Live()|, now))
  {
    hide Holds, At, CountOne, Count;
    ghost var bs, ls := if x then v.expired else v.active, if x then v.expiredLinks else v.activeLinks;
    ghost var base := if x then 0 else |v.expired|;
    ghost var k := 0;
    w := v;
    WalkFacts(w, h, a, e, x, 0);
    var p := head.next;
    while p != head
      invariant 0 <= k <= |bs| && p == At(head, ls, k)
      invariant Holds(w, h, a, e) && w == v.(model := Count(m, base + k, now))
      decreases |bs| - k
    {
      WalkFacts(w, h, a, e, x, k);
      var mb := p.entry;
      assert mb == w.Live()[base + k];
      CountStep(m, base + k, now);
      w := CountBlock(mb, now, w, h, a, e, base + k);
      WalkFacts(w, h, a, e, x, k);
      p := p.next;
      k := k + 1;
    }
    WalkFacts(w, h, a, e, x, k);
  }

  /** The beginning of the active list, and what the ledger says about it. */
  lemma HeadFacts(v: View, h: HashTable<Memblock?>, a: Link<Memblock?>, e: Link<Memblock?>)
    requires Holds(v, h, a, e)
    ensures WellFormed(v.model) && |v.activeLinks| == |v.active|
    ensures a.next == At(a, v.activeLinks, 0) && a.next != null && a.next.next != null
    ensures v.active == [] ==> At(a, v.activeLinks, 0) == a && v.model.split == |v.model.live|
    ensures v.active != [] ==>
              && At(a, v.activeLinks, 0) == v.activeLinks[0] != a
              && v.activeLinks[0].next == At(a, v.activeLinks, 1) == At(a, v.activeLinks[1..], 0)
              && v.activeLinks[0].entry == v.active[0] && v.model.split < |v.model.live|
              && v.model.live[v.model.split].create == v.active[0].create
              && v.model.live[v.model.split].cs == v.active[0].callstack && v.active[0].callstack in v.known
  {
    hide HashHolds, Serials;
    var links := v.activeLinks;
    assert At(a, links, -1) == a && a.next == At(a, links, 0);
    if v.active != [] {
      assert At(a, links, 0).next == At(a, links, 1);
      assert (v.expired + v.active)[|v.expired|] == v.active[0];
    }
  }

  lemma StatsFact(v: View, h: HashTable<Memblock?>, a: Link<Memblock?>, e: Link<Memblock?>, c: Callstack)
    requires Holds(v, h, a, e) && c in v.known
    ensures c in v.model.accounts && v.model.accounts[c].stats == c.stats
  {
    hide HashHolds, Serials, TwoRings;
  }

  lemma ExpireUnfolds<C>(l: Ledger<C>, now: int, age: int, ml: int, cl: int)
    requires WellFormed(l)
    ensures l.split == |l.live| ==> LedgerModel.Expire(l, now, age, ml, cl) == (l, 0)
    ensures l.split < |l.live| && now - l.live[l.split].create < age ==>
              LedgerModel.Expire(l, now, age, ml, cl) == (l, age - (now - l.live[l.split].create) + 1)
    ensures l.split < |l.live| && now - l.live[l.split].create >= age ==>
              var r := ExpireOne(l);
              && WellFormed(r) && l.live[l.split].cs in r.accounts
              && var s := r.accounts[l.live[l.split].cs].stats;
                 LedgerModel.Expire(l, now, age, ml, cl) ==
                 if s.id >= cl + 1 || s.expiredCount >= ml then (r, -1) else LedgerModel.Expire(r, now, age, ml, cl)
  {
  }

  lemma ResizeFacts<C>(l: Ledger<C>, i: nat, size: nat)
    requires WellFormed(l) && i < |l.live|
    ensures Resize(l, i, size).byId == l.byId
  {
  }

  lemma DeleteFacts<C>(l: Ledger<C>, i: nat, now: int)
    requires WellFormed(l) && i < |l.live|
    ensures LedgerModel.Delete(l, i, now).byId == l.byId
  {
  }

  lemma AdoptHolds(v: View, h: HashTable<Memblock?>, a: Link<Memblock?>, e: Link<Memblock?>, cs: Callstack)
    requires Holds(v, h, a, e) && (cs !in v.known ==> cs.stats == ZERO)
    ensures Holds(v.(model := Adopt(v.model, cs), known := v.known + {cs}), h, a, e)
  {
    hide TwoRings, HashHolds;
  }
}
