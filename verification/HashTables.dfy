/** Hash tables of chained intrusive nodes (`hlist_head`, `hlist_node`). */
module HashTables {
  import opened Basics

  const HASH_SIZE := 29989

  /** A 32-bit word of a key. */
  type Word = n: nat | n < 0x1_0000_0000

  /** The target of a `pprev` pointer: the `first` field of a bucket or the `next`
      field of a node. */
  datatype PPrev<T(0)> = Nowhere | HeadOf(bucket: nat) | NextOf(node: HNode<T>)

  /** A node embedded in a structure. The key lies behind the node in memory: `mem`
      is what can be read there, the key's words first and then whatever follows. */
  class HNode<T(0)> {
    var next: HNode?<T>
    var pprev: PPrev<T>
    const mem: seq<Word>
    const keyLength: nat
    var entry: T
    ghost const stamp: nat  // when the structure was created

    constructor (key: seq<Word>, beyond: seq<Word>, ghost stamp: nat)
      ensures mem == key + beyond && keyLength == |key| && Key() == key && this.stamp == stamp
    {
      next, pprev := null, Nowhere;
      mem, keyLength := key + beyond, |key|;
      this.stamp := stamp;
    }

    function Key(): seq<Word> {
      if keyLength <= |mem| then mem[..keyLength] else mem
    }
  }

  function Both(x: bv32, y: bv32): bv32 {
    x ^ y
  }

  function AsBits(w: Word): bv32 {
    w as bv32
  }

  function Xor(key: seq<Word>): bv32 {
    if key == [] then 0 else Both(Xor(key[..|key| - 1]), AsBits(key[|key| - 1]))
  }

  function Slot(key: seq<Word>): (r: nat)
    ensures r < HASH_SIZE
  {
    (Xor(key) as int) % HASH_SIZE
  }

  /** hash_slot. */
  method HashSlot(key: seq<Word>) returns (r: nat)
    ensures r == Slot(key) && r < HASH_SIZE
  {
    hide Both, AsBits;
    var n: bv32 := 0;
    var i := 0;
    while i < |key|
      invariant 0 <= i <= |key| && n == Xor(key[..i])
    {
      assert key[..i + 1][..i] == key[..i];
      n := Both(n, AsBits(key[i]));
      i := i + 1;
    }
    assert key[..i] == key;
    r := (n as int) % HASH_SIZE;
  }

  lemma BothZero(x: bv32)
    ensures Both(x, 0) == x && Both(0, x) == x
  {
  }

  lemma BothAssociates(x: bv32, y: bv32, z: bv32)
    ensures Both(Both(x, y), z) == Both(x, Both(y, z))
  {
  }

  /** The words of a key count each by itself. */
  lemma {:induction false} XorConcat(a: seq<Word>, b: seq<Word>)
    ensures Xor(a + b) == Both(Xor(a), Xor(b))
  {
    hide Both, AsBits;
    if b == [] {
      assert a + b == a;
      BothZero(Xor(a));
    } else {
      var n := |b| - 1;
      XorConcat(a, b[..n]);
      assert (a + b)[..|a| + n] == a + b[..n];
      BothAssociates(Xor(a), Xor(b[..n]), AsBits(b[n]));
    }
  }

  lemma XorOfOne(w: Word)
    ensures Xor([w]) == w as bv32
  {
    assert [w][..0] == [];
    BothZero(AsBits(w));
  }

  /** What the `next` field of the `i`-th node of a chain holds. */
  function After<T(0)>(s: seq<HNode<T>>, i: nat): HNode?<T> {
    if i + 1 < |s| then s[i + 1] else null
  }

  /** Where the pointer to the `i`-th node of the chain of bucket `b` is stored. */
  function Before<T(0)>(b: nat, s: seq<HNode<T>>, i: nat): PPrev<T>
    requires i < |s|
  {
    if i == 0 then HeadOf(b) else NextOf(s[i - 1])
  }

  function First<T(0)>(s: seq<HNode<T>>): HNode?<T> {
    if s == [] then null else s[0]
  }

  /** The nodes `s` are linked, in this order, as the chain of bucket `b`. */
  ghost predicate Linked<T(0)>(b: nat, s: seq<HNode<T>>)
    reads s
  {
    && (forall i :: 0 <= i < |s| ==> s[i].next == After(s, i))
    && (forall i :: 0 <= i < |s| ==> s[i].pprev == Before(b, s, i))
    && (forall i, j :: 0 <= i < j < |s| ==> s[i] != s[j])
  }

  /** All nodes of `s` hash to bucket `b`. */
  ghost predicate AllIn<T(0)>(b: nat, s: seq<HNode<T>>) {
    forall n :: n in s ==> Slot(n.Key()) == b
  }

  lemma BucketsApart<T(0)>(b: nat, s: seq<HNode<T>>, c: nat, t: seq<HNode<T>>)
    requires AllIn(b, s) && AllIn(c, t) && b != c
    ensures forall n :: n in t ==> n !in s
  {
  }

  lemma RemovedOnce<T(0)>(b: nat, s: seq<HNode<T>>, k: nat)
    requires Linked(b, s) && k < |s|
    ensures s[k] !in Remove(s, k)
  {
    RemoveShifts(s, k);
  }

  /** The `next` fields of the chain `s`, except that the `k`-th node is bypassed. */
  ghost predicate NextBypasses<T(0)>(s: seq<HNode<T>>, k: nat)
    reads s
  {
    && (forall j :: 0 <= j < |s| && j != k && j != k - 1 ==> s[j].next == After(s, j))
    && (0 < k < |s| ==> s[k - 1].next == After(s, k))
  }

  ghost predicate PprevBypasses<T(0)>(b: nat, s: seq<HNode<T>>, k: nat)
    reads s
  {
    && (forall j :: 0 <= j < |s| && j != k && j != k + 1 ==> s[j].pprev == Before(b, s, j))
    && (k + 1 < |s| ==> s[k + 1].pprev == Before(b, s, k))
  }

  lemma RelinkedNext<T(0)>(s: seq<HNode<T>>, k: nat)
    requires k < |s| && NextBypasses(s, k)
    ensures forall i :: 0 <= i < |s| - 1 ==> Remove(s, k)[i].next == After(Remove(s, k), i)
  {
    RemoveShifts(s, k);
    forall i | 0 <= i < |s| - 1
      ensures Remove(s, k)[i].next == After(Remove(s, k), i)
    {
      assert i >= k ==> s[i + 1].next == After(s, i + 1);
      assert i < k - 1 ==> s[i].next == After(s, i);
    }
  }

  lemma RelinkedPprev<T(0)>(b: nat, s: seq<HNode<T>>, k: nat)
    requires k < |s| && PprevBypasses(b, s, k)
    ensures forall i :: 0 <= i < |s| - 1 ==> Remove(s, k)[i].pprev == Before(b, Remove(s, k), i)
  {
    RemoveShifts(s, k);
    forall i | 0 <= i < |s| - 1
      ensures Remove(s, k)[i].pprev == Before(b, Remove(s, k), i)
    {
      assert i > k ==> s[i + 1].pprev == Before(b, s, i + 1);
      assert i < k ==> s[i].pprev == Before(b, s, i);
    }
  }

  lemma Relinked<T(0)>(b: nat, s: seq<HNode<T>>, k: nat)
    requires k < |s| && forall i, j :: 0 <= i < j < |s| ==> s[i] != s[j]
    requires NextBypasses(s, k) && PprevBypasses(b, s, k)
    ensures Linked(b, Remove(s, k))
  {
    hide After, Before, NextBypasses, PprevBypasses;
    RemoveShifts(s, k);
    RelinkedNext(s, k);
    RelinkedPprev(b, s, k);
  }

  lemma FirstOfRemoved<T(0)>(s: seq<HNode<T>>, k: nat)
    requires k < |s|
    ensures First(Remove(s, k)) == if k == 0 then After(s, 0) else s[0]
  {
  }

  class HashTable<T(0)> {
    const buckets: array<HNode?<T>>
    ghost var chains: seq<seq<HNode<T>>>
    ghost var nodes: set<HNode<T>>

    ghost predicate Valid()
      reads this, buckets, nodes
    {
      && buckets.Length == HASH_SIZE == |chains|
      && (forall b, n :: 0 <= b < HASH_SIZE && n in chains[b] ==> n in nodes)
      && (forall b :: 0 <= b < HASH_SIZE ==> AllIn(b, chains[b]))
      && (forall n :: n in nodes ==> n in chains[Slot(n.Key())])
      && (forall b :: 0 <= b < HASH_SIZE ==> buckets[b] == First(chains[b]))
      && (forall b :: 0 <= b < HASH_SIZE ==> Linked(b, chains[b]))
    }

    lemma ChainsHoldNodes()
      requires Valid()
      ensures |chains| == HASH_SIZE
      ensures forall b, n :: 0 <= b < HASH_SIZE && n in chains[b] ==> n in nodes
      ensures forall n :: n in nodes ==> n in chains[Slot(n.Key())]
    {
    }

    /** How the chain of bucket `b` is linked. */
    lemma ChainFacts(b: nat)
      requires Valid() && b < HASH_SIZE
      ensures buckets.Length == HASH_SIZE == |chains| && buckets[b] == First(chains[b]) && Distinct(chains[b])
      ensures forall i :: 0 <= i < |chains[b]| ==> chains[b][i].next == After(chains[b], i) && chains[b][i] in nodes
      ensures forall n :: n in nodes ==> (Slot(n.Key()) == b <==> n in chains[b])
    {
      assert Linked(b, chains[b]) && AllIn(b, chains[b]);
    }

    constructor ()
      ensures Valid() && nodes == {} && fresh(buckets)
      ensures forall b :: 0 <= b < HASH_SIZE ==> chains[b] == []
    {
      buckets := new HNode?<T>[HASH_SIZE](_ => null);
      chains := seq(HASH_SIZE, _ => []);
      nodes := {};
    }

    /** hlist_add_head. */
    method AddHead(node: HNode<T>, b: nat, ghost s: seq<HNode<T>>)
      requires b < buckets.Length && buckets[b] == First(s) && Linked(b, s) && node !in s
      modifies buckets, node`next, node`pprev, s`pprev
      ensures buckets[b] == node && Linked(b, [node] + s)
      ensures forall c :: 0 <= c < buckets.Length && c != b ==> buckets[c] == old(buckets[c])
    {
      var first := buckets[b];
      node.next := first;
      if first != null {
        first.pprev := NextOf(node);
      }
      buckets[b] := node;
      node.pprev := HeadOf(b);
    }

    /** __hlist_del: make the neighbours point past the node. */
    method Bypass(node: HNode<T>, ghost b: nat, ghost s: seq<HNode<T>>, ghost k: nat)
      requires b < buckets.Length && buckets[b] == First(s) && Linked(b, s) && k < |s| && s[k] == node
      modifies buckets, s`next, s`pprev
      ensures buckets[b] == (if k == 0 then After(s, 0) else s[0])
      ensures NextBypasses(s, k) && PprevBypasses(b, s, k)
      ensures forall c :: 0 <= c < buckets.Length && c != b ==> buckets[c] == old(buckets[c])
    {
      assert node.next == After(s, k) && node.pprev == Before(b, s, k);
      var next, pprev := node.next, node.pprev;
      match pprev {
        case HeadOf(bucket) => buckets[bucket] := next;
        case NextOf(n) => n.next := next;
      }
      if next != null {
        next.pprev := pprev;
      }
    }

    /** hlist_del: unlink through `pprev`, without knowing the bucket. */
    method Unlink(node: HNode<T>, ghost b: nat, ghost s: seq<HNode<T>>, ghost k: nat)
      requires b < buckets.Length && buckets[b] == First(s) && Linked(b, s) && k < |s| && s[k] == node
      modifies buckets, s`next, s`pprev
      ensures buckets[b] == First(Remove(s, k)) && Linked(b, Remove(s, k)) && node.next == null && node.pprev == Nowhere
      ensures forall c :: 0 <= c < buckets.Length && c != b ==> buckets[c] == old(buckets[c])
    {
      hide After, Before;
      Bypass(node, b, s, k);
      node.next, node.pprev := null, Nowhere;
      Relinked(b, s, k);
      FirstOfRemoved(s, k);
    }

    /** hash_add: first in the bucket of the node's key. */
    method Add(node: HNode<T>)
      requires Valid() && node !in nodes
      modifies this`chains, this`nodes, buckets, node`next, node`pprev, nodes`pprev
      ensures Valid()
      ensures nodes == old(nodes) + {node}
      ensures var b := Slot(node.Key()); chains == old(chains)[b := [node] + old(chains[b])]
    {
      hide Slot, HNode.Key, Linked, After, Before;
      var b := HashSlot(node.Key());
      ghost var s := chains[b];
      assert AllIn(b, s) && AllIn(b, [node] + s);
      AddHead(node, b, s);
      forall c | 0 <= c < HASH_SIZE && c != b
        ensures Linked(c, chains[c])
      {
        BucketsApart(b, [node] + s, c, chains[c]);
        assert old(Linked(c, chains[c]));
        assert forall n :: n in chains[c] ==> n !in [node] + s && n as object != buckets;
        assert forall n :: n in chains[c] ==> n.next == old(n.next) && n.pprev == old(n.pprev);
        assert unchanged(chains[c]);
      }
      chains := chains[b := [node] + s];
      nodes := nodes + {node};
    }

    /** hash_delete. */
    method Delete(node: HNode<T>) returns (ghost k: nat)
      requires Valid() && node in nodes
      modifies this`chains, this`nodes, buckets, nodes`next, nodes`pprev
      ensures Valid()
      ensures nodes == old(nodes) - {node}
      ensures var b := Slot(node.Key());
              && k < |old(chains[b])| && old(chains[b])[k] == node
              && chains == old(chains)[b := Remove(old(chains[b]), k)]
    {
      hide Slot, HNode.Key, Linked, After, Before;
      ghost var b := Slot(node.Key());
      ghost var s := chains[b];
      k :| 0 <= k < |s| && s[k] == node;
      assert AllIn(b, s) && AllIn(b, Remove(s, k));
      RemovedOnce(b, s, k);
      Unlink(node, b, s, k);
      forall c | 0 <= c < HASH_SIZE && c != b
        ensures Linked(c, chains[c])
      {
        BucketsApart(b, s, c, chains[c]);
        assert old(Linked(c, chains[c]));
        assert forall n :: n in chains[c] ==> n !in s && n as object != buckets;
        assert forall n :: n in chains[c] ==> n.next == old(n.next) && n.pprev == old(n.pprev);
        assert unchanged(chains[c]);
      }
      forall n | n in nodes && n != node
        ensures Slot(n.Key()) == b ==> n in Remove(s, k)
      {
        if Slot(n.Key()) == b {
          InRemoved(s, k, n);
        }
      }
      chains := chains[b := Remove(s, k)];
      nodes := nodes - {node};
    }

    /** hash_search: the first node of the key's bucket behind which `key` can be
        read. Only `|key|` words are compared, so a longer stored key matches too. */
    method Search(key: seq<Word>) returns (r: HNode?<T>, ghost k: nat)
      requires Valid()
      ensures var s := chains[Slot(key)];
              && k <= |s| && (r == null <==> k == |s|)
              && (r != null ==> s[k] == r && key <= r.mem)
              && forall j :: 0 <= j < k ==> !(key <= s[j].mem)
    {
      var b := HashSlot(key);
      r := buckets[b];
      ghost var s := chains[b];
      k := 0;
      assert Linked(b, s);
      while r != null
        invariant 0 <= k <= |s| && r == (if k < |s| then s[k] else null)
        invariant forall j :: 0 <= j < k ==> !(key <= s[j].mem)
        decreases |s| - k
      {
        if key <= r.mem {
          return;
        }
        r := r.next;
        k := k + 1;
      }
    }
  }
}
