/** The ten unwind spaces, kept in a ring in the order of their last use. */
module UnwindSpaces {
  import opened Basics
  import opened Rings

  const SPACE_MAX := 10

  // ----- Recency, independently of the ring

  /** The distinct threads of a history, most recently used first. */
  function Recent(history: seq<Tid>): (r: seq<Tid>)
    ensures forall t :: t in r <==> t in history
  {
    if history == [] then []
    else
      var n := |history| - 1;
      assert forall t :: t in history <==> t in history[..n] || t == history[n];
      [history[n]] + Dropped(Recent(history[..n]), history[n])
  }

  /** `s` without any `t`. */
  function Dropped(s: seq<Tid>, t: Tid): (r: seq<Tid>)
    ensures forall x :: x in r <==> x in s && x != t
  {
    if s == [] then [] else if s[0] == t then Dropped(s[1..], t) else [s[0]] + Dropped(s[1..], t)
  }

  function LastUse(history: seq<Tid>, t: Tid): (i: nat)
    requires t in history
    ensures i < |history| && history[i] == t
  {
    var n := |history| - 1;
    if history[n] == t then n else LastUse(history[..n], t)
  }

  lemma {:induction false} DroppedAbsent(s: seq<Tid>, t: Tid)
    requires t !in s
    ensures Dropped(s, t) == s
  {
    if s != [] {
      DroppedAbsent(s[1..], t);
    }
  }

  lemma {:induction false} DroppedAt(s: seq<Tid>, k: nat)
    requires Distinct(s) && k < |s|
    ensures Dropped(s, s[k]) == Remove(s, k)
  {
    if k == 0 {
      DroppedAbsent(s[1..], s[0]);
      assert Remove(s, 0) == s[1..];
    } else {
      DroppedAt(s[1..], k - 1);
      assert Remove(s, k) == [s[0]] + Remove(s[1..], k - 1);
    }
  }

  lemma {:induction false} RecentDistinct(history: seq<Tid>)
    ensures Distinct(Recent(history))
  {
    if history != [] {
      var n := |history| - 1;
      var r, t := Recent(history[..n]), history[n];
      RecentDistinct(history[..n]);
      if t in r {
        var k :| 0 <= k < |r| && r[k] == t;
        DroppedAt(r, k);
        RemoveShifts(r, k);
      } else {
        DroppedAbsent(r, t);
      }
    }
  }

  /** The thread ids in list order after `history`: the most recent distinct threads,
      then unused slots. */
  function Slots(history: seq<Tid>): (s: seq<Tid>)
    ensures |s| == SPACE_MAX
  {
    var r := Recent(history);
    seq(SPACE_MAX, i => if 0 <= i < |r| then r[i] else 0)
  }

  function Used(history: seq<Tid>): nat {
    if |Recent(history)| < SPACE_MAX then |Recent(history)| else SPACE_MAX
  }

  /** Where the search stops: the first unused slot, the thread itself, or the end. */
  ghost predicate StopsAt(s: seq<Tid>, t: Tid, k: nat) {
    && k < |s|
    && (forall i :: 0 <= i < k ==> s[i] != 0 && s[i] != t)
    && (s[k] == 0 || s[k] == t || k == |s| - 1)
  }

  /** One more use of `t`: it moves, or comes, to the front. */
  lemma RecentStep(history: seq<Tid>, t: Tid)
    ensures t !in Recent(history) ==> Recent(history + [t]) == [t] + Recent(history)
    ensures forall j :: 0 <= j < |Recent(history)| && Recent(history)[j] == t ==>
                        Recent(history + [t]) == [t] + Remove(Recent(history), j)
  {
    var r, h := Recent(history), history + [t];
    assert h[..|history|] == history;
    assert Recent(h) == [t] + Dropped(r, t);
    RecentDistinct(history);
    if t in r {
      forall j | 0 <= j < |r| && r[j] == t
        ensures Dropped(r, t) == Remove(r, j)
      {
        DroppedAt(r, j);
      }
    } else {
      DroppedAbsent(r, t);
    }
  }

  lemma LastUseStep(h: seq<Tid>, t: Tid, x: Tid)
    requires x in h + [t]
    ensures x == t ==> LastUse(h + [t], x) == |h|
    ensures x != t ==> x in h && LastUse(h + [t], x) == LastUse(h, x) < |h|
  {
    assert (h + [t])[..|h|] == h;
  }

  /** Behind its first element, `Recent` keeps the order it had. */
  lemma RecentTail(h: seq<Tid>, t: Tid, i: nat, j: nat) returns (a: nat, b: nat)
    requires 0 < i < j < |Recent(h + [t])|
    ensures a < b < |Recent(h)| && Recent(h)[a] == Recent(h + [t])[i] && Recent(h)[b] == Recent(h + [t])[j]
  {
    hide Recent;
    var r := Recent(h);
    RecentStep(h, t);
    a, b := i - 1, j - 1;
    if t in r {
      var k :| 0 <= k < |r| && r[k] == t;
      assert Recent(h + [t]) == [t] + Remove(r, k);
      RemoveShifts(r, k);
      a, b := if a < k then a else a + 1, if b < k then b else b + 1;
    }
  }

  /** `Recent` is ordered by the time of last use. */
  lemma {:induction false} RecentByLastUse(history: seq<Tid>, i: nat, j: nat)
    requires i < j < |Recent(history)|
    ensures Recent(history)[i] in history && Recent(history)[j] in history
    ensures LastUse(history, Recent(history)[i]) > LastUse(history, Recent(history)[j])
  {
    var x, y := Recent(history)[i], Recent(history)[j];
    assert x in history && y in history;
    hide Dropped, LastUse;
    var n := |history| - 1;
    var h, t := history[..n], history[n];
    assert history == h + [t];
    RecentDistinct(history);
    LastUseStep(h, t, x);
    LastUseStep(h, t, y);
    if i > 0 {
      var a, b := RecentTail(h, t, i, j);
      RecentByLastUse(h, a, b);
    }
  }

  /** The search stops at the thread's own slot, or else at the first unused one, or
      else at the last. */
  lemma SearchStop(history: seq<Tid>, t: Tid, k: nat)
    requires 0 !in history && t != 0 && StopsAt(Slots(history), t, k)
    ensures k < SPACE_MAX
    ensures forall j :: 0 <= j < |Recent(history)| && Recent(history)[j] == t ==>
              k == if j < SPACE_MAX then j else SPACE_MAX - 1
    ensures t !in Recent(history) ==> k == Used(history) || k == Used(history) - 1 == SPACE_MAX - 1
    ensures k < |Recent(history)| ==> Slots(history)[k] == Recent(history)[k] != 0
    ensures k >= |Recent(history)| ==> Slots(history)[k] == 0
  {
    hide Recent;
    var r, s := Recent(history), Slots(history);
    RecentDistinct(history);
    assert forall i :: 0 <= i < |r| ==> r[i] in history;
    assert |r| < SPACE_MAX ==> s[|r|] == 0;
    forall j | 0 <= j < |r| && r[j] == t
      ensures k == if j < SPACE_MAX then j else SPACE_MAX - 1
    {
      if j < SPACE_MAX {
        assert s[j] == t;
      }
    }
  }

  /** Moving the slot where the search stops to the front, for thread `t`, is what one
      more use of `t` does to the recency order. If another thread is evicted, it is
      the least recently used one that has a slot. */
  lemma MoveToFront(history: seq<Tid>, t: Tid, k: nat)
    requires 0 !in history && t != 0 && StopsAt(Slots(history), t, k)
    ensures Slots(history + [t]) == [t] + Remove(Slots(history), k)
    ensures Slots(history)[k] != t && Slots(history)[k] != 0 ==> k == SPACE_MAX - 1 && t !in Slots(history)
    ensures Used(history + [t]) == if Slots(history)[k] == 0 then Used(history) + 1 else Used(history)
  {
    hide Recent, StopsAt;
    var r, s := Recent(history), Slots(history);
    SearchStop(history, t, k);
    RecentStep(history, t);
    RemoveShifts(s, k);
    if t in r {
      var j :| 0 <= j < |r| && r[j] == t;
      RecentDistinct(history);
      RemoveShifts(r, j);
    }
  }

  // ----- The ring of slots

  /** struct thread_space_s; `uptInfo` is the thread for which the unwind state was
      created. */
  class ThreadSpace {
    const node: Link<ThreadSpace?>
    var threadId: Tid
    var uptInfo: Tid

    constructor ()
      ensures threadId == 0 && node.entry == this && fresh(node)
    {
      threadId, uptInfo := 0, 0;
      node := new Link<ThreadSpace?>();
      new;
      node.entry := this;
    }
  }

  function Nodes(ss: seq<ThreadSpace>): (r: seq<Link<ThreadSpace?>>)
    ensures |r| == |ss| && forall i :: 0 <= i < |ss| ==> r[i] == ss[i].node
  {
    seq(|ss|, i requires 0 <= i < |ss| => ss[i].node)
  }

  ghost predicate SpaceRing(head: Link<ThreadSpace?>, order: seq<ThreadSpace>, links: seq<Link<ThreadSpace?>>)
    reads head, links
  {
    && links == Nodes(order) && Ring(head, links)
    && forall i :: 0 <= i < |links| ==> links[i].entry == order[i]
  }

  function Ids(order: seq<ThreadSpace>): (r: seq<Tid>)
    reads order
    ensures |r| == |order| && forall i :: 0 <= i < |order| ==> r[i] == order[i].threadId
  {
    if order == [] then [] else Ids(order[..|order| - 1]) + [order[|order| - 1].threadId]
  }

  /** Every used slot unwinds the thread it is labelled with. */
  ghost predicate Labelled(order: seq<ThreadSpace>)
    reads order
  {
    forall i :: 0 <= i < |order| && order[i].threadId != 0 ==> order[i].uptInfo == order[i].threadId
  }

  /** The slots in list order with their nodes, and the backtraces so far. */
  datatype View = View(order: seq<ThreadSpace>, links: seq<Link<ThreadSpace?>>, history: seq<Tid>)

  /** The slots are ten different ones, each with its own list node. */
  ghost predicate Wired(head: Link<ThreadSpace?>, spaces: seq<ThreadSpace>, nodes: seq<Link<ThreadSpace?>>)
    reads nodes
  {
    && |spaces| == SPACE_MAX && Distinct(spaces) && nodes == Nodes(spaces) && head !in nodes
    && forall i :: 0 <= i < SPACE_MAX ==> nodes[i].entry == spaces[i]
  }

  /** The ring is set up, and the slots in list order are those that the history of
      backtraces prescribes. */
  ghost predicate Holds(v: View, head: Link<ThreadSpace?>, spaces: seq<ThreadSpace>, nodes: seq<Link<ThreadSpace?>>)
    reads head, v.links, v.order
  {
    match v
    case View(order, links, history) =>
      && SpaceRing(head, order, links) && Distinct(order) && Labelled(order) && 0 !in history
      && |order| == |links| == SPACE_MAX && Ids(order) == Slots(history)
      && (forall i :: 0 <= i < |links| ==> links[i] in nodes) && (forall i :: 0 <= i < |order| ==> order[i] in spaces)
  }

  /** Give the slot at position `k` to `thread` unless it has it already; the order in
      mind is the one in which that slot comes first. */
  method Relabel(sp: ThreadSpace, thread: Tid, ghost order: seq<ThreadSpace>, ghost k: nat)
    returns (made: bool, evicted: bool)
    requires Distinct(order) && Labelled(order) && k < |order| && sp == order[k] && thread != 0
    modifies sp`threadId, sp`uptInfo
    ensures sp.threadId == sp.uptInfo == thread
    ensures var t := [sp] + Remove(order, k);
            Distinct(t) && Labelled(t) && Ids(t) == [thread] + Remove(old(Ids(order)), k)
    ensures made == (old(Ids(order))[k] != thread) && evicted == (made && old(Ids(order))[k] != 0)
  {
    hide Ids;
    RemoveShifts(order, k);
    RemoveShifts(Ids(order), k);
    made, evicted := false, false;
    if sp.threadId != thread {
      evicted := sp.threadId != 0;
      made := true;
      sp.uptInfo := thread;
      sp.threadId := thread;
    }
  }

  lemma UnusedSlots(order: seq<ThreadSpace>)
    requires |order| == SPACE_MAX && forall i :: 0 <= i < SPACE_MAX ==> order[i].threadId == 0
    ensures Ids(order) == Slots([])
  {
    hide Ids;
    assert Recent([]) == [];
  }

  lemma EmptyTest(head: Link<ThreadSpace?>, order: seq<ThreadSpace>, links: seq<Link<ThreadSpace?>>)
    requires SpaceRing(head, order, links)
    ensures head.next == head <==> order == []
    ensures |links| == |order|
  {
    assert At(head, links, -1).next == At(head, links, 0);
  }

  /** list_del, then list_add: first in the list. */
  method Promote(sp: ThreadSpace, head: Link<ThreadSpace?>, ghost order: seq<ThreadSpace>,
                 ghost links: seq<Link<ThreadSpace?>>, ghost k: nat)
    requires SpaceRing(head, order, links) && k < |order| == |links| && sp == order[k]
    modifies head`next, head`prev, links`next, links`prev
    ensures SpaceRing(head, [sp] + Remove(order, k), [sp.node] + Remove(links, k))
  {
    RemovedLink(head, links, k);
    RemoveShifts(links, k);
    RemoveShifts(order, k);
    Rings.Delete(sp.node, head, links, k);
    assert Nodes(Remove(order, k)) == Remove(links, k);
    AddSpace(sp, head, Remove(order, k), Remove(links, k));
  }

  lemma RemovedLink(head: Link<ThreadSpace?>, links: seq<Link<ThreadSpace?>>, k: nat)
    requires Ring(head, links) && k < |links|
    ensures links[k] !in Remove(links, k) && links[k] != head
  {
    RemoveShifts(links, k);
  }

  method AddSpace(sp: ThreadSpace, head: Link<ThreadSpace?>, ghost order: seq<ThreadSpace>,
                  ghost links: seq<Link<ThreadSpace?>>)
    requires SpaceRing(head, order, links) && sp.node != head && sp.node !in links && sp.node.entry == sp
    modifies head`next, head`prev, sp.node`next, sp.node`prev, links`next, links`prev
    ensures SpaceRing(head, [sp] + order, [sp.node] + links)
  {
    hide Ring;
    Rings.Add(sp.node, head, links);
    assert Nodes([sp] + order) == [sp.node] + links;
  }

  /** The first call: link all slots, each at the front. */
  method Setup(head: Link<ThreadSpace?>, spaces: seq<ThreadSpace>, ghost nodes: seq<Link<ThreadSpace?>>)
    returns (ghost v: View)
    requires Wired(head, spaces, nodes) && head.next == head.prev == head
    requires forall i :: 0 <= i < SPACE_MAX ==> spaces[i].threadId == 0
    modifies head`next, head`prev, nodes`next, nodes`prev
    ensures Holds(v, head, spaces, nodes) && v.history == [] && Wired(head, spaces, nodes)
  {
    assert SpaceRing(head, [], []) by { assert Nodes([]) == []; }
    hide Recent, SpaceRing, Ids, Slots;
    ghost var order: seq<ThreadSpace>, links: seq<Link<ThreadSpace?>> := [], [];
    assert Distinct(nodes);
    var i := 0;
    while i < SPACE_MAX
      invariant 0 <= i <= SPACE_MAX && |order| == |links| == i && Wired(head, spaces, nodes)
      invariant SpaceRing(head, order, links)
      invariant forall j :: 0 <= j < i ==> order[j] == spaces[i - 1 - j] && links[j] == nodes[i - 1 - j]
    {
      AddSpace(spaces[i], head, order, links);
      order, links := [spaces[i]] + order, [spaces[i].node] + links;
      i := i + 1;
    }
    UnusedSlots(order);
    v := View(order, links, []);
  }

  /** Find the slot for `thread`, walking from the front of the list. */
  method FindSlot(thread: Tid, head: Link<ThreadSpace?>, ghost order: seq<ThreadSpace>,
                  ghost links: seq<Link<ThreadSpace?>>)
    returns (sp: ThreadSpace, ghost k: nat)
    requires SpaceRing(head, order, links) && order != []
    ensures k < |order| == |links| && sp == order[k] && links[k] == sp.node && StopsAt(Ids(order), thread, k)
  {
    hide Ids;
    k := 0;
    assert At(head, links, -1) == head && At(head, links, 0) == links[0];
    var p := head.next;
    sp := p.entry;
    while p != head
      invariant 0 <= k <= |order| && p == At(head, links, k)
      invariant forall i :: 0 <= i < k ==> Ids(order)[i] != 0 && Ids(order)[i] != thread
      invariant sp == order[if k == 0 then 0 else k - 1]
      decreases |order| - k
    {
      assert At(head, links, k).next == At(head, links, k + 1);
      sp := p.entry;
      if sp.threadId == 0 || sp.threadId == thread {
        return;
      }
      p := p.next;
      k := k + 1;
    }
    k := k - 1;
  }

  /** The view after `thread` used the slot at position `k`. */
  ghost function Touched(v: View, k: nat, thread: Tid): View
    requires k < |v.order| == |v.links|
  {
    View([v.order[k]] + Remove(v.order, k), [v.links[k]] + Remove(v.links, k), v.history + [thread])
  }

  lemma TouchedHolds(v: View, k: nat, thread: Tid, head: Link<ThreadSpace?>, spaces: seq<ThreadSpace>,
                     nodes: seq<Link<ThreadSpace?>>)
    requires k < |v.order| == |v.links| == SPACE_MAX && thread != 0 && 0 !in v.history
    requires forall i :: 0 <= i < SPACE_MAX ==> v.links[i] in nodes && v.order[i] in spaces
    requires var w := Touched(v, k, thread);
             && SpaceRing(head, w.order, w.links) && Distinct(w.order) && Labelled(w.order)
             && Ids(w.order) == Slots(w.history)
    ensures Holds(Touched(v, k, thread), head, spaces, nodes)
  {
    hide SpaceRing, Distinct, Labelled, Ids, Slots;
    RemoveShifts(v.order, k);
    RemoveShifts(v.links, k);
  }

  lemma HoldsParts(v: View, head: Link<ThreadSpace?>, spaces: seq<ThreadSpace>, nodes: seq<Link<ThreadSpace?>>)
    requires Holds(v, head, spaces, nodes)
    ensures SpaceRing(head, v.order, v.links) && Distinct(v.order) && Labelled(v.order) && 0 !in v.history
    ensures |v.order| == |v.links| == SPACE_MAX && Ids(v.order) == Slots(v.history)
    ensures (forall i :: 0 <= i < SPACE_MAX ==> v.links[i] in nodes && v.order[i] in spaces)
  {
  }

  /** Find, relabel and promote the slot for `thread`. */
  method Use(thread: Tid, ghost v: View, head: Link<ThreadSpace?>, ghost spaces: seq<ThreadSpace>,
             ghost nodes: seq<Link<ThreadSpace?>>)
    returns (sp: ThreadSpace, made: bool, evicted: bool, ghost w: View)
    requires Holds(v, head, spaces, nodes) && thread != 0 && Wired(head, spaces, nodes)
    modifies head`next, head`prev, v.links`next, v.links`prev, v.order`threadId, v.order`uptInfo
    ensures Holds(w, head, spaces, nodes) && w.history == v.history + [thread] && Wired(head, spaces, nodes)
    ensures sp.threadId == sp.uptInfo == thread && w.order != [] && sp == w.order[0]
    ensures Used(w.history) == Used(v.history) + (if made then 1 else 0) - (if evicted then 1 else 0)
    ensures evicted ==> sp == v.order[SPACE_MAX - 1] && thread !in Slots(v.history)
  {
    hide Recent, Slots, Used, SpaceRing, StopsAt, Ids, Labelled, Distinct, Holds, Nodes;
    HoldsParts(v, head, spaces, nodes);
    ghost var k;
    sp, k := FindSlot(thread, head, v.order, v.links);
    MoveToFront(v.history, thread, k);
    w := Touched(v, k, thread);
    made, evicted := Relabel(sp, thread, v.order, k);
    assert Labelled(w.order) && Distinct(w.order) && Ids(w.order) == Slots(w.history);
    Promote(sp, head, v.order, v.links, k);
    TouchedHolds(v, k, thread, head, spaces, nodes);
  }

  lemma HoldsFacts(v: View, head: Link<ThreadSpace?>, spaces: seq<ThreadSpace>, nodes: seq<Link<ThreadSpace?>>)
    requires Holds(v, head, spaces, nodes)
    ensures head.next != head
    ensures (forall i :: 0 <= i < |v.links| ==> v.links[i] in nodes)
    ensures (forall i :: 0 <= i < |v.order| ==> v.order[i] in spaces)
  {
    EmptyTest(head, v.order, v.links);
  }

  lemma WiredFacts(head: Link<ThreadSpace?>, spaces: seq<ThreadSpace>, nodes: seq<Link<ThreadSpace?>>)
    requires Wired(head, spaces, nodes)
    ensures |spaces| == SPACE_MAX
  {
  }

  class Spaces {
    const head: Link<ThreadSpace?>
    const spaces: seq<ThreadSpace>
    var created: nat
    var destroyed: nat
    ghost const nodes: seq<Link<ThreadSpace?>>
    ghost var view: View

    /** Before the first backtrace nothing is linked. */
    ghost predicate Unused()
      reads this, head, spaces
    {
      && head.next == head.prev == head && view == View([], [], [])
      && forall i :: 0 <= i < |spaces| ==> spaces[i].threadId == 0
    }

    /** As many unwind spaces exist as slots are used. */
    ghost predicate Valid()
      reads this, head, nodes, view.links, view.order, spaces
    {
      && Wired(head, spaces, nodes)
      && (Unused() || Holds(view, head, spaces, nodes))
      && created == destroyed + Used(view.history)
    }

    constructor ()
      ensures Valid() && view.history == []
    {
      var ss: seq<ThreadSpace> := [];
      while |ss| < SPACE_MAX
        invariant |ss| <= SPACE_MAX && Distinct(ss)
        invariant forall i :: 0 <= i < |ss| ==>
                    fresh(ss[i]) && fresh(ss[i].node) && ss[i].threadId == 0 && ss[i].node.entry == ss[i]
      {
        var sp := new ThreadSpace();
        ss := ss + [sp];
      }
      spaces, nodes := ss, Nodes(ss);
      head := new Link<ThreadSpace?>();
      created, destroyed := 0, 0;
      view := View([], [], []);
    }

    /** ptr_backtrace, up to the unwinding itself: the slot returned unwinds `thread`
        and is now the first in the list. */
    method Acquire(thread: Tid) returns (sp: ThreadSpace)
      requires Valid() && thread != 0
      modifies this`view, this`created, this`destroyed, head`next, head`prev, nodes`next, nodes`prev, spaces`threadId
      modifies spaces`uptInfo
      ensures Valid() && view.history == old(view.history) + [thread]
      ensures sp.threadId == sp.uptInfo == thread && view.order != [] && sp == view.order[0]
    {
      hide Used, Holds, Wired;
      if !Unused() {
        HoldsFacts(view, head, spaces, nodes);
      }
      WiredFacts(head, spaces, nodes);
      if head.next == head {
        view := Setup(head, spaces, nodes);
      }
      HoldsFacts(view, head, spaces, nodes);
      var made, evicted;
      ghost var w;
      sp, made, evicted, w := Use(thread, view, head, spaces, nodes);
      if evicted {
        destroyed := destroyed + 1;
      }
      if made {
        created := created + 1;
      }
      view := w;
    }
  }
}
