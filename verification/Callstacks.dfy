/** Callstacks: one record per backtrace, found again by its backtrace. */
module Callstacks {
  import opened Basics
  import opened HashTables
  import opened LedgerModel

  const HALF := 0x1_0000_0000

  /** The 32-bit words of a 64-bit value in memory. */
  function Words(p: Address): seq<Word> {
    [p % HALF, p / HALF]
  }

  lemma WordsInjective(p: Address, q: Address)
    requires Words(p) == Words(q)
    ensures p == q
  {
    assert Words(p)[0] == Words(q)[0] && Words(p)[1] == Words(q)[1];
  }

  /** The words of a backtrace in memory. */
  function KeyOf(ips: seq<Address>): (k: seq<Word>)
    ensures |k| == 2 * |ips|
    ensures forall i :: 0 <= i < |ips| ==> k[2 * i..2 * i + 2] == Words(ips[i])
  {
    if ips == [] then []
    else
      var n := |ips| - 1;
      var k := KeyOf(ips[..n]);
      assert (k + Words(ips[n]))[2 * n..] == Words(ips[n]);
      k + Words(ips[n])
  }

  /** Keys are prefixes of each other exactly as the backtraces are. */
  lemma PrefixOfKeys(q: seq<Address>, s: seq<Address>)
    ensures KeyOf(q) <= KeyOf(s) <==> q <= s
  {
    var a, b := KeyOf(q), KeyOf(s);
    if a <= b {
      forall i | 0 <= i < |q|
        ensures q[i] == s[i]
      {
        assert a[2 * i..2 * i + 2] == b[2 * i..2 * i + 2];
        WordsInjective(q[i], s[i]);
      }
    }
    if q <= s {
      PrefixKey(s, |q|);
      assert q == s[..|q|];
    }
  }

  lemma {:induction false} PrefixKey(s: seq<Address>, n: nat)
    requires n <= |s|
    ensures KeyOf(s[..n]) <= KeyOf(s)
  {
    if n < |s| {
      var m := |s| - 1;
      PrefixKey(s[..m], n);
      assert s[..m][..n] == s[..n];
    } else {
      assert s[..n] == s;
    }
  }

  /** Neither backtrace is a proper prefix of the other. */
  predicate PrefixFree(q: seq<Address>, s: seq<Address>) {
    q == s || (!(q <= s) && !(s <= q))
  }

  /** A stored record answers a query, whatever lies behind it in memory, exactly if
      the backtraces are equal, provided neither is a proper prefix of the other. */
  lemma MatchIsEquality(q: seq<Address>, s: seq<Address>, beyond: seq<Word>)
    requires PrefixFree(q, s)
    ensures KeyOf(q) <= KeyOf(s) + beyond <==> q == s
  {
    PrefixOfKeys(q, s);
    PrefixOfKeys(s, q);
    if KeyOf(q) <= KeyOf(s) + beyond {
      OneIsPrefix(KeyOf(q), KeyOf(s), beyond);
    }
  }

  /** The comparison tells two backtraces apart, whatever lies behind the stored one in
      memory, exactly when neither is a proper prefix of the other. */
  lemma MatchExactIff(q: seq<Address>, s: seq<Address>)
    ensures (forall beyond: seq<Word> :: KeyOf(q) <= KeyOf(s) + beyond <==> q == s) <==> PrefixFree(q, s)
  {
    hide KeyOf;
    if PrefixFree(q, s) {
      forall beyond: seq<Word>
        ensures KeyOf(q) <= KeyOf(s) + beyond <==> q == s
      {
        MatchIsEquality(q, s, beyond);
      }
    } else {
      var beyond := Confuser(q, s);
      assert KeyOf(q) <= KeyOf(s) + beyond;
    }
  }

  /** Memory contents that make the query match a record of which it is a proper prefix
      or a proper extension. */
  lemma Confuser(q: seq<Address>, s: seq<Address>) returns (beyond: seq<Word>)
    requires q <= s || s <= q
    ensures KeyOf(q) <= KeyOf(s) + beyond
  {
    hide KeyOf;
    PrefixOfKeys(q, s);
    PrefixOfKeys(s, q);
    beyond := if q <= s then [] else KeyOf(q)[|KeyOf(s)|..];
  }

  lemma OneIsPrefix<T>(a: seq<T>, b: seq<T>, c: seq<T>)
    requires a <= b + c
    ensures a <= b || b <= a
  {
    if |a| <= |b| {
      assert a == (b + c)[..|a|] == b[..|a|];
    } else {
      assert b == (b + c)[..|b|] == a[..|b|];
    }
  }

  lemma XorZero(k: seq<Word>)
    ensures Xor(k + [0]) == Xor(k)
  {
    hide Xor, Both;
    XorConcat(k, [0]);
    XorOfOne(0);
    ZeroWord();
    BothZero(Xor(k));
  }

  lemma ZeroWord()
    ensures (0 as Word) as bv32 == 0
  {
  }

  lemma AppendZero(q: seq<Address>)
    ensures KeyOf(q + [0]) == KeyOf(q) + [0, 0]
  {
    assert (q + [0])[..|q|] == q;
  }

  lemma SameSlot(k: seq<Word>)
    ensures Slot(k + [0, 0]) == Slot(k)
  {
    hide Xor;
    assert k + [0, 0] == k + [0] + [0];
    XorZero(k);
    XorZero(k + [0]);
  }

  /** Without that condition any backtrace can be taken for another one: for the stored
      extension of it by a zero, and, if zeros follow the stored record in memory, the
      extension for the record itself. Both are in the same bucket. */
  lemma PrefixIsConfused(q: seq<Address>)
    ensures q != q + [0] && Slot(KeyOf(q)) == Slot(KeyOf(q + [0]))
    ensures KeyOf(q) <= KeyOf(q + [0])
    ensures KeyOf(q + [0]) <= KeyOf(q) + Words(0)
  {
    hide KeyOf, Slot;
    AppendZero(q);
    SameSlot(KeyOf(q));
    assert |q + [0]| == |q| + 1;
  }

  class Callstack {
    const ips: seq<Address>
    const hashNode: HNode<Callstack?>
    var stats: Stats

    constructor (ips: seq<Address>, beyond: seq<Word>, ghost stamp: nat)
      ensures this.ips == ips && stats == ZERO && hashNode.entry == this && fresh(hashNode)
      ensures hashNode.Key() == KeyOf(ips) && hashNode.mem == KeyOf(ips) + beyond
    {
      this.ips, stats := ips, ZERO;
      hashNode := new HNode<Callstack?>(KeyOf(ips), beyond, stamp);
      new;
      hashNode.entry := this;
    }
  }

  ghost predicate IsRecord(n: HNode<Callstack?>)
    reads n
  {
    n.entry != null && n.entry.hashNode == n && n.Key() == KeyOf(n.entry.ips) && n.Key() <= n.mem
  }

  class CallstackTable {
    const hash: HashTable<Callstack?>
    ghost var records: set<Callstack>

    ghost predicate Valid()
      reads this, hash, hash.buckets, hash.nodes
    {
      && hash.Valid()
      && (forall n :: n in hash.nodes ==> IsRecord(n) && n.entry in records)
      && (forall c :: c in records ==> c.hashNode in hash.nodes && c.hashNode.entry == c)
    }

    constructor ()
      ensures Valid() && records == {} && fresh(hash) && fresh(hash.buckets) && hash.nodes == {}
    {
      hash := new HashTable<Callstack?>();
      records := {};
    }

    /** No two records for one backtrace. */
    ghost predicate NoTwins()
      reads this
    {
      forall c, d :: c in records && d in records && c.ips == d.ips ==> c == d
    }

    ghost predicate PrefixFreeWith(ips: seq<Address>)
      reads this
    {
      forall c :: c in records ==> PrefixFree(ips, c.ips)
    }

    /** The search of callstack_current. */
    method FindRecord(ips: seq<Address>) returns (cs: Callstack?)
      requires Valid()
      ensures cs != null ==> cs in records && KeyOf(ips) <= cs.hashNode.mem
      ensures cs == null ==> forall c :: c in records && BucketOf(c) == Slot(KeyOf(ips)) ==>
                !(KeyOf(ips) <= c.hashNode.mem)
      ensures PrefixFreeWith(ips) && cs != null ==> cs.ips == ips
      ensures PrefixFreeWith(ips) && cs == null ==> forall c :: c in records ==> c.ips != ips
    {
      hide Slot, KeyOf, HashTable.Valid, HNode.Key, PrefixFree;
      hash.ChainsHoldNodes();
      var p, k := hash.Search(KeyOf(ips));
      ghost var s := hash.chains[Slot(KeyOf(ips))];
      forall c | c in records
        ensures PrefixFree(ips, c.ips) ==> (KeyOf(ips) <= c.hashNode.mem <==> c.ips == ips)
        ensures BucketOf(c) == Slot(KeyOf(ips)) ==> c.hashNode in s
      {
        assert IsRecord(c.hashNode);
        if PrefixFree(ips, c.ips) {
          RecordMatches(c.hashNode, ips);
        }
      }
      if p == null {
        return null;
      }
      assert p in hash.nodes && IsRecord(p);
      cs := p.entry;
    }

    /** A new record for a backtrace. */
    method AddRecord(ips: seq<Address>, beyond: seq<Word>) returns (cs: Callstack)
      requires Valid()
      modifies this`records, hash`chains, hash`nodes, hash.buckets, hash.nodes`pprev
      ensures Valid() && fresh(cs) && records == old(records) + {cs}
      ensures forall n :: n in hash.nodes && n !in old(hash.nodes) ==> fresh(n)
      ensures cs.ips == ips && cs.stats == ZERO && KeyOf(ips) <= cs.hashNode.mem
    {
      hide Slot, KeyOf, HashTable.Valid, HNode.Key;
      cs := new Callstack(ips, beyond, 0);
      hash.Add(cs.hashNode);
      records := records + {cs};
    }

    /** callstack_current. Whatever is stored, the answer is a record that matches the
        query, and a new one is made only if none in its bucket does. When the query
        is prefix-free with respect to the table, the answer is the record of exactly
        this backtrace: the old one if there is one. */
    method Current(ips: seq<Address>, beyond: seq<Word>) returns (cs: Callstack)
      requires Valid()
      modifies this`records, hash`chains, hash`nodes, hash.buckets, hash.nodes`pprev
      ensures Valid() && records == old(records) + {cs}
      ensures forall n :: n in hash.nodes && n !in old(hash.nodes) ==> fresh(n)
      ensures KeyOf(ips) <= cs.hashNode.mem
      ensures cs !in old(records) ==>
                && cs.ips == ips && cs.stats == ZERO && fresh(cs)
                && forall c :: c in old(records) && BucketOf(c) == Slot(KeyOf(ips)) ==> !(KeyOf(ips) <= c.hashNode.mem)
      ensures old(PrefixFreeWith(ips)) ==>
                && cs.ips == ips
                && (cs in old(records) <==> exists c :: c in old(records) && c.ips == ips)
                && (old(NoTwins()) ==> NoTwins())
    {
      hide Valid, PrefixFreeWith, KeyOf, Slot;
      var found := FindRecord(ips);
      if found != null {
        cs := found;
        assert records + {cs} == records;
      } else {
        cs := AddRecord(ips, beyond);
      }
    }

    /** callstack_report: the records with unfreed expired blocks, fewest first. */
    method Report() returns (list: seq<Callstack>)
      requires Valid()
      ensures Distinct(list) && Ascending(list)
      ensures forall c :: c in list <==> c in records && MayLeak(c) != 0
    {
      hide Slot, KeyOf, HashTable.Valid, HNode.Key, MayLeak;
      list := [];
      var i := 0;
      while i < HASH_SIZE
        invariant 0 <= i <= HASH_SIZE && Collected(list, records, i)
      {
        list := CollectBucket(i, list);
        i := i + 1;
      }
      list := Sort(list);
    }

    /** The chain of bucket `b`, behind the buckets below it. */
    method CollectBucket(b: nat, list: seq<Callstack>) returns (r: seq<Callstack>)
      requires Valid() && b < HASH_SIZE && Collected(list, records, b)
      ensures Collected(r, records, b + 1)
    {
      hide Slot, KeyOf, HashTable.Valid, HNode.Key, MayLeak, Gathered, Distinct;
      hash.ChainFacts(b);
      GatherNone(list, records, b);
      ghost var s, k := hash.chains[b], 0;
      r := list;
      var p := hash.buckets[b];
      while p != null
        invariant 0 <= k <= |s| && p == (if k < |s| then s[k] else null)
        invariant Gathered(r, records, b, s[..k])
        decreases |s| - k
      {
        var cs := p.entry;
        assert p in hash.nodes && IsRecord(p) && s[..k + 1] == s[..k] + [p];
        GatherOne(r, records, b, s[..k], cs);
        if MayLeak(cs) != 0 {
          r := r + [cs];
        }
        p := p.next;
        k := k + 1;
      }
      assert s[..k] == s;
      GatherAll(r, records, b, s);
    }
  }

  lemma RecordMatches(n: HNode<Callstack?>, ips: seq<Address>)
    requires IsRecord(n) && PrefixFree(ips, n.entry.ips)
    ensures KeyOf(ips) <= n.mem <==> n.entry.ips == ips
    ensures n.entry.ips == ips ==> Slot(n.Key()) == Slot(KeyOf(ips))
  {
    var beyond := n.mem[|n.Key()|..];
    assert n.mem == n.Key() + beyond;
    MatchIsEquality(ips, n.entry.ips, beyond);
  }

  // ----- The final report

  /** How many expired blocks of the callstack were not freed, by its counters. */
  function MayLeak(c: Callstack): int
    reads c
  {
    c.stats.expiredCount - c.stats.freeExpiredCount
  }

  ghost predicate Ascending(s: seq<Callstack>)
    reads s
  {
    forall i, j :: 0 <= i < j < |s| ==> MayLeak(s[i]) <= MayLeak(s[j])
  }

  ghost function BucketOf(c: Callstack): nat {
    Slot(KeyOf(c.ips))
  }

  /** `list` has the records of the buckets below `b` with unfreed expired blocks,
      once each. */
  ghost predicate Collected(list: seq<Callstack>, records: set<Callstack>, b: nat)
    reads list, records
  {
    && Distinct(list)
    && (forall c :: c in list ==> c in records && MayLeak(c) != 0 && BucketOf(c) < b)
    && (forall c :: c in records && MayLeak(c) != 0 && BucketOf(c) < b ==> c in list)
  }

  /** As `Collected`, and in addition the records of the nodes in `s`. */
  ghost predicate Gathered(list: seq<Callstack>, records: set<Callstack>, b: nat, s: seq<HNode<Callstack?>>)
    reads list, records
  {
    && Distinct(list)
    && (forall c :: c in list ==> c in records && MayLeak(c) != 0 && (BucketOf(c) < b || c.hashNode in s))
    && (forall c :: c in records && MayLeak(c) != 0 && (BucketOf(c) < b || c.hashNode in s) ==> c in list)
  }

  lemma GatherNone(list: seq<Callstack>, records: set<Callstack>, b: nat)
    requires Collected(list, records, b)
    ensures Gathered(list, records, b, [])
  {
    hide MayLeak, BucketOf;
  }

  lemma GatherOne(list: seq<Callstack>, records: set<Callstack>, b: nat, s: seq<HNode<Callstack?>>, cs: Callstack)
    requires Gathered(list, records, b, s) && cs in records && BucketOf(cs) == b && cs.hashNode !in s
    requires forall c :: c in records && c.hashNode == cs.hashNode ==> c == cs
    ensures Gathered(if MayLeak(cs) != 0 then list + [cs] else list, records, b, s + [cs.hashNode])
  {
    hide MayLeak, BucketOf;
    assert cs !in list;
  }

  lemma GatherAll(list: seq<Callstack>, records: set<Callstack>, b: nat, s: seq<HNode<Callstack?>>)
    requires Gathered(list, records, b, s)
    requires forall c :: c in records ==> (c.hashNode in s <==> BucketOf(c) == b)
    ensures Collected(list, records, b + 1)
  {
    hide MayLeak, BucketOf;
  }

  /** array_sort with callstack_cmp. */
  method Sort(s: seq<Callstack>) returns (r: seq<Callstack>)
    requires Distinct(s)
    ensures Distinct(r) && Ascending(r) && forall c :: c in r <==> c in s
  {
    r := [];
    var n := 0;
    while n < |s|
      invariant 0 <= n <= |s| && Distinct(r) && Ascending(r)
      invariant forall c :: c in r <==> c in s[..n]
    {
      var k := 0;
      while k < |r| && MayLeak(r[k]) < MayLeak(s[n])
        invariant 0 <= k <= |r| && forall i :: 0 <= i < k ==> MayLeak(r[i]) < MayLeak(s[n])
      {
        k := k + 1;
      }
      assert s[..n + 1] == s[..n] + [s[n]] && s[n] !in r;
      InsertAt(r, k, s[n]);
      r := Inserted(r, k, s[n]);
      n := n + 1;
    }
    assert s[..n] == s;
  }

  function Inserted(r: seq<Callstack>, k: nat, c: Callstack): (t: seq<Callstack>)
    requires k <= |r|
    ensures |t| == |r| + 1
    ensures forall i :: 0 <= i < |t| ==> t[i] == if i < k then r[i] else if i == k then c else r[i - 1]
  {
    r[..k] + [c] + r[k..]
  }

  lemma InsertedHas(r: seq<Callstack>, k: nat, c: Callstack, x: Callstack)
    requires k <= |r|
    ensures x in Inserted(r, k, c) <==> x in r || x == c
  {
    var t := Inserted(r, k, c);
    assert t[k] == c;
    if i :| 0 <= i < |r| && r[i] == x {
      assert t[if i < k then i else i + 1] == x;
    }
  }

  lemma InsertedDistinct(r: seq<Callstack>, k: nat, c: Callstack)
    requires k <= |r| && Distinct(r) && c !in r
    ensures Distinct(Inserted(r, k, c))
  {
  }

  lemma InsertedAscends(r: seq<Callstack>, k: nat, c: Callstack)
    requires k <= |r| && Ascending(r) && (k < |r| ==> MayLeak(c) <= MayLeak(r[k]))
    requires forall i :: 0 <= i < k ==> MayLeak(r[i]) <= MayLeak(c)
    ensures Ascending(Inserted(r, k, c))
  {
    hide MayLeak;
  }

  lemma InsertAt(r: seq<Callstack>, k: nat, c: Callstack)
    requires Distinct(r) && Ascending(r) && k <= |r| && c !in r
    requires forall i :: 0 <= i < k ==> MayLeak(r[i]) <= MayLeak(c)
    requires k < |r| ==> MayLeak(c) <= MayLeak(r[k])
    ensures var t := Inserted(r, k, c); Distinct(t) && Ascending(t) && forall x :: x in t <==> x in r || x == c
  {
    hide Inserted, MayLeak, Distinct, Ascending;
    InsertedDistinct(r, k, c);
    InsertedAscends(r, k, c);
    forall x: Callstack
      ensures x in Inserted(r, k, c) <==> x in r || x == c
    {
      InsertedHas(r, k, c, x);
    }
  }
}
