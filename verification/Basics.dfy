/** Small notions that several parts of the model share. */
module Basics {

  const WORD := 0x1_0000_0000_0000_0000

  /** uintptr_t. */
  type Address = p: nat | p < WORD

  /** The id of a thread. */
  type Tid = nat

  datatype Option<+T> = None | Some(value: T)

  ghost predicate Distinct<T>(s: seq<T>) {
    forall i, j :: 0 <= i < j < |s| ==> s[i] != s[j]
  }

  /** `s` without the element at position `k`. */
  function Remove<T>(s: seq<T>, k: nat): (r: seq<T>)
    requires k < |s|
    ensures |r| == |s| - 1
  {
    s[..k] + s[k + 1..]
  }

  lemma RemoveShifts<T>(s: seq<T>, k: nat)
    requires k < |s|
    ensures forall i :: 0 <= i < k ==> Remove(s, k)[i] == s[i]
    ensures forall i :: k <= i < |s| - 1 ==> Remove(s, k)[i] == s[i + 1]
  {
  }

  lemma InRemoved<T>(s: seq<T>, k: nat, x: T)
    requires k < |s| && x in s && x != s[k]
    ensures x in Remove(s, k)
  {
    var i :| 0 <= i < |s| && s[i] == x;
    assert Remove(s, k)[if i < k then i else i - 1] == x;
  }

  lemma DistinctCount<T>(s: seq<T>, u: set<T>)
    requires Distinct(s) && forall x :: x in s ==> x in u
    ensures |s| <= |u|
  {
    if s != [] {
      var last := |s| - 1;
      DistinctCount(s[..last], u - {s[last]});
    }
  }
}
