/** Circular doubly linked lists with a list head (`struct list_head`). */
module Rings {
  import opened Basics

  /** A node embedded in a structure; `entry` stands for what `list_entry` computes
      from the node's address. A list head has no entry of interest. */
  class Link<T(0)> {
    var next: Link?<T>
    var prev: Link?<T>
    var entry: T

    /** LIST_HEAD_INIT: a node linked to itself. */
    constructor ()
      ensures next == this && prev == this
    {
      next, prev := this, this;
    }
  }

  /** Position `i` of the ring: the list head sits before the first node and after
      the last. */
  function At<T(0)>(head: Link<T>, s: seq<Link<T>>, i: int): Link<T> {
    if 0 <= i < |s| then s[i] else head
  }

  /** The ring at `head` holds exactly the nodes `s`, in this order. */
  ghost predicate Ring<T(0)>(head: Link<T>, s: seq<Link<T>>)
    reads head, s
  {
    && head !in s
    && (forall i, j :: 0 <= i < j < |s| ==> s[i] != s[j])
    && (forall i :: -1 <= i < |s| ==> At(head, s, i).next == At(head, s, i + 1))
    && (forall i :: -1 <= i < |s| ==> At(head, s, i + 1).prev == At(head, s, i))
  }

  /** __list_add between the neighbours at positions `k - 1` and `k`. */
  method Insert<T(0)>(node: Link<T>, prev: Link<T>, next: Link<T>, ghost head: Link<T>, ghost s: seq<Link<T>>,
                  ghost k: nat)
    requires Ring(head, s) && k <= |s| && prev == At(head, s, k - 1) && next == At(head, s, k)
    requires node != head && node !in s
    modifies next`prev, node`next, node`prev, prev`next
    ensures Ring(head, s[..k] + [node] + s[k..])
  {
    next.prev := node;
    node.next := next;
    node.prev := prev;
    prev.next := node;
    ghost var t := s[..k] + [node] + s[k..];
    forall i | -1 <= i < |t|
      ensures At(head, t, i).next == At(head, t, i + 1) && At(head, t, i + 1).prev == At(head, t, i)
    {
      if i < k - 1 {
        assert At(head, t, i) == At(head, s, i) && At(head, t, i + 1) == At(head, s, i + 1);
      } else if i > k {
        assert At(head, t, i) == At(head, s, i - 1) && At(head, t, i + 1) == At(head, s, i);
      }
    }
  }

  /** list_add: first in the list. */
  method Add<T(0)>(node: Link<T>, head: Link<T>, ghost s: seq<Link<T>>)
    requires Ring(head, s) && node != head && node !in s
    modifies head`next, head`prev, node`next, node`prev, s`next, s`prev
    ensures Ring(head, [node] + s)
  {
    assert At(head, s, 0) == old(head.next) by { assert At(head, s, -1) == head; }
    Insert(node, head, head.next, head, s, 0);
    assert s[..0] + [node] + s[0..] == [node] + s;
  }

  /** list_add_tail: last in the list. */
  method AddTail<T(0)>(node: Link<T>, head: Link<T>, ghost s: seq<Link<T>>)
    requires Ring(head, s) && node != head && node !in s
    modifies head`next, head`prev, node`next, node`prev, s`next, s`prev
    ensures Ring(head, s + [node])
  {
    assert At(head, s, |s|) == head && head.prev == At(head, s, |s| - 1);
    Insert(node, head.prev, head, head, s, |s|);
    assert s[..|s|] + [node] + s[|s|..] == s + [node];
  }

  /** list_del: the node alone tells its neighbours. */
  method Delete<T(0)>(node: Link<T>, ghost head: Link<T>, ghost s: seq<Link<T>>, ghost k: nat)
    requires Ring(head, s) && k < |s| && node == s[k]
    modifies head`next, head`prev, s`next, s`prev
    ensures Ring(head, Remove(s, k)) && node.next == null && node.prev == null
  {
    assert node == At(head, s, k) && node.prev == At(head, s, k - 1) && node.next == At(head, s, k + 1);
    node.next.prev := node.prev;
    node.prev.next := node.next;
    node.next, node.prev := null, null;
    ghost var t := Remove(s, k);
    forall i | -1 <= i < |t|
      ensures At(head, t, i).next == At(head, t, i + 1) && At(head, t, i + 1).prev == At(head, t, i)
    {
      if i < k - 1 {
        assert At(head, t, i) == At(head, s, i) && At(head, t, i + 1) == At(head, s, i + 1);
      } else if i > k - 1 {
        assert At(head, t, i) == At(head, s, i + 1) && At(head, t, i + 1) == At(head, s, i + 2);
      }
    }
  }
}
