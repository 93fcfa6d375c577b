/** The cache of unwind information in front of the library's look-up. */
module ProcInfoCache {
  import opened Basics
  import opened HashTables
  import opened LedgerModel
  import opened Callstacks

  /** What a look-up delivers: a negative code, or a code with the information. */
  datatype Info = Failed(code: int) | Found(code: int, info: seq<nat>)

  /** A look-up of `ip`, and what the library would answer at that moment. */
  datatype Query = Query(ip: Address, answer: Info)

  // ----- What the cache should do

  /** The library's first answer for every address asked so far. */
  function FirstAnswers(qs: seq<Query>): map<Address, Info> {
    if qs == [] then map[]
    else
      var m, q := FirstAnswers(qs[..|qs| - 1]), qs[|qs| - 1];
      if q.ip in m then m else m[q.ip := q.answer]
  }

  /** Position `i` holds the first query for `ip`. */
  ghost predicate FirstFor(qs: seq<Query>, i: int, ip: Address) {
    0 <= i < |qs| && qs[i].ip == ip && forall j :: 0 <= j < i ==> qs[j].ip != ip
  }

  lemma {:induction false} FirstAnswerOf(qs: seq<Query>, i: nat, ip: Address)
    requires FirstFor(qs, i, ip)
    ensures ip in FirstAnswers(qs) && FirstAnswers(qs)[ip] == qs[i].answer
  {
    var n := |qs| - 1;
    if i < n {
      FirstAnswerOf(qs[..n], i, ip);
    } else {
      NotAsked(qs[..n], ip);
    }
  }

  lemma {:induction false} NotAsked(qs: seq<Query>, ip: Address)
    requires forall j :: 0 <= j < |qs| ==> qs[j].ip != ip
    ensures ip !in FirstAnswers(qs)
  {
    if qs != [] {
      NotAsked(qs[..|qs| - 1], ip);
    }
  }

  lemma {:induction false} HasFirst(qs: seq<Query>, i: nat) returns (k: nat)
    requires i < |qs|
    ensures k <= i && FirstFor(qs, k, qs[i].ip)
  {
    if j :| 0 <= j < i && qs[j].ip == qs[i].ip {
      k := HasFirst(qs, j);
    } else {
      k := i;
    }
  }

  /** The cache cannot be noticed: every query is answered as the library would. */
  ghost predicate Transparent(qs: seq<Query>) {
    forall i :: 0 <= i < |qs| ==> qs[i].ip in FirstAnswers(qs) && FirstAnswers(qs)[qs[i].ip] == qs[i].answer
  }

  /** The library's answer depends on the address alone: not on the thread, nor on what
      else is asked for, nor on the time. */
  ghost predicate Functional(qs: seq<Query>) {
    forall i, j :: 0 <= i < j < |qs| && qs[i].ip == qs[j].ip ==> qs[i].answer == qs[j].answer
  }

  lemma TransparentIffFunctional(qs: seq<Query>)
    ensures Transparent(qs) <==> Functional(qs)
  {
    hide FirstAnswers;
    if Functional(qs) {
      forall i | 0 <= i < |qs|
        ensures qs[i].ip in FirstAnswers(qs) && FirstAnswers(qs)[qs[i].ip] == qs[i].answer
      {
        var k := HasFirst(qs, i);
        FirstAnswerOf(qs, k, qs[i].ip);
      }
    }
  }

  // ----- The cache

  class InfoRecord {
    const ip: Address
    const info: Info
    const hashNode: HNode<InfoRecord?>

    constructor (ip: Address, info: Info, beyond: seq<Word>)
      ensures this.ip == ip && this.info == info && HoldsInfo(hashNode) && hashNode.entry == this && fresh(hashNode)
    {
      this.ip, this.info := ip, info;
      hashNode := new HNode<InfoRecord?>(Words(ip), beyond, 0);
      new;
      hashNode.entry := this;
    }
  }

  ghost predicate HoldsInfo(n: HNode<InfoRecord?>)
    reads n
  {
    n.entry != null && n.entry.hashNode == n && n.Key() == Words(n.entry.ip) && n.Key() <= n.mem
  }

  lemma MatchIsSameAddress(n: HNode<InfoRecord?>, ip: Address)
    requires HoldsInfo(n)
    ensures Words(ip) <= n.mem <==> n.entry.ip == ip
  {
    if Words(ip) <= n.mem {
      assert Words(ip) == n.mem[..2] == Words(n.entry.ip);
      WordsInjective(ip, n.entry.ip);
    }
  }

  class Cache {
    const hash: HashTable<InfoRecord?>
    ghost var records: map<Address, InfoRecord>
    ghost var queries: seq<Query>

    /** The table holds one record for each address, with the first answer for it. */
    ghost predicate Valid()
      reads this, hash, hash.buckets, hash.nodes
    {
      && Indexed(hash, records)
      && Contents(records) == FirstAnswers(queries)
    }

    constructor ()
      ensures Valid() && queries == []
    {
      hash := new HashTable<InfoRecord?>();
      records, queries := map[], [];
    }

    /** _ptr_find_proc_info; `answer` is what the library would say now. */
    method Find(ip: Address, answer: Info, beyond: seq<Word>) returns (r: Info)
      requires Valid()
      modifies this`queries, this`records, hash`chains, hash`nodes, hash.buckets, hash.nodes`pprev
      ensures Valid() && queries == old(queries) + [Query(ip, answer)]
      ensures ip in FirstAnswers(queries) && r == FirstAnswers(queries)[ip]
    {
      hide Indexed, FirstAnswers, Contents;
      OneMore(queries, Query(ip, answer));
      ContentsOf(records, ip);
      queries := queries + [Query(ip, answer)];
      var p := Lookup(hash, ip, records);
      if p != null {
        return p.info;
      }
      var ii := new InfoRecord(ip, answer, beyond);
      ContentsAdd(records, ii);
      Enter(hash, ii, records);
      records := records[ip := ii];
      r := ii.info;
    }
  }

  ghost predicate Indexed(h: HashTable<InfoRecord?>, records: map<Address, InfoRecord>)
    reads h, h.buckets, h.nodes
  {
    && h.Valid()
    && (forall n :: n in h.nodes ==> HoldsInfo(n) && n.entry.ip in records && records[n.entry.ip] == n.entry)
    && (forall ip :: ip in records ==>
          records[ip].ip == ip && records[ip].hashNode in h.nodes && records[ip].hashNode.entry == records[ip])
  }

  method Lookup(h: HashTable<InfoRecord?>, ip: Address, ghost records: map<Address, InfoRecord>)
    returns (r: InfoRecord?)
    requires Indexed(h, records)
    ensures r == if ip in records then records[ip] else null
  {
    hide Slot, Words, HashTable.Valid, HNode.Key;
    h.ChainsHoldNodes();
    var p, k := h.Search(Words(ip));
    if p != null {
      MatchIsSameAddress(p, ip);
      return p.entry;
    }
    if ip in records {
      MatchIsSameAddress(records[ip].hashNode, ip);
      assert false;
    }
    r := null;
  }

  method Enter(h: HashTable<InfoRecord?>, ii: InfoRecord, ghost records: map<Address, InfoRecord>)
    requires Indexed(h, records) && ii.ip !in records && HoldsInfo(ii.hashNode) && ii.hashNode.entry == ii
    requires ii.hashNode !in h.nodes
    modifies h`chains, h`nodes, h.buckets, ii.hashNode`next, ii.hashNode`pprev, h.nodes`pprev
    ensures Indexed(h, records[ii.ip := ii])
  {
    hide Slot, Words, HashTable.Valid, HNode.Key;
    h.Add(ii.hashNode);
  }

  lemma ContentsOf(records: map<Address, InfoRecord>, ip: Address)
    ensures ip in Contents(records) <==> ip in records
    ensures ip in records ==> Contents(records)[ip] == records[ip].info
  {
  }

  lemma ContentsAdd(records: map<Address, InfoRecord>, ii: InfoRecord)
    ensures Contents(records[ii.ip := ii]) == Contents(records)[ii.ip := ii.info]
  {
  }

  ghost function Contents(records: map<Address, InfoRecord>): map<Address, Info> {
    map ip | ip in records :: records[ip].info
  }

  lemma OneMore(qs: seq<Query>, q: Query)
    ensures var m := FirstAnswers(qs); FirstAnswers(qs + [q]) == if q.ip in m then m else m[q.ip := q.answer]
  {
    assert (qs + [q])[..|qs|] == qs;
  }
}
