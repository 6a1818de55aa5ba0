/** Linear search over sequences: the shape of every "loop over the list and
    return the first element that matches" in the source. */
module Seqs {
  import opened Wrappers

  /** The position of the first element satisfying `p`, or `None` when no element does. */
  function FirstIndex<T>(s: seq<T>, p: T -> bool): (r: Option<nat>)
    ensures r.None? <==> forall i :: 0 <= i < |s| ==> !p(s[i])
    ensures r.Some? ==> r.value < |s| && p(s[r.value])
    ensures r.Some? ==> forall j :: 0 <= j < r.value ==> !p(s[j])
  {
    if |s| == 0 then None
    else if p(s[0]) then Some(0)
    else
      match FirstIndex(s[1..], p)
      case None => None
      case Some(k) => Some(k + 1)
  }

  /** The first element satisfying `p`, or `None` (Java's null) when no element does. */
  function FindFirst<T>(s: seq<T>, p: T -> bool): (r: Option<T>)
    ensures r.None? <==> forall i :: 0 <= i < |s| ==> !p(s[i])
    ensures r.Some? ==> exists i :: 0 <= i < |s| && s[i] == r.value && p(s[i]) &&
                          forall j :: 0 <= j < i ==> !p(s[j])
  {
    match FirstIndex(s, p)
    case None => None
    case Some(i) => Some(s[i])
  }

  /** Two sequences that agree everywhere except at position `i`. */
  ghost predicate OnlyChangedAt<T>(s: seq<T>, t: seq<T>, i: nat) {
    |s| == |t| && i < |s| && forall j :: 0 <= j < |s| && j != i ==> s[j] == t[j]
  }

  /** The first index satisfying `p` is the one before which nothing does. */
  lemma FirstIndexIsUnique<T>(s: seq<T>, p: T -> bool, i: nat)
    requires i < |s| && p(s[i]) && forall j :: 0 <= j < i ==> !p(s[j])
    ensures FirstIndex(s, p) == Some(i)
  {
  }

  /** Sequences that match two predicates at the same positions have the same first match. */
  lemma FirstIndexSamePattern<T>(s: seq<T>, t: seq<T>, p: T -> bool, q: T -> bool)
    requires |s| == |t|
    requires forall i :: 0 <= i < |s| ==> p(s[i]) == q(t[i])
    ensures FirstIndex(s, p) == FirstIndex(t, q)
  {
    match FirstIndex(s, p)
    case None =>
    case Some(i) => FirstIndexIsUnique(t, q, i);
  }

  /** Appending an element that does not match leaves the first match unchanged. */
  lemma FindFirstAppendNonMatching<T>(s: seq<T>, x: T, p: T -> bool)
    requires !p(x)
    ensures FindFirst(s + [x], p) == FindFirst(s, p)
  {
    match FirstIndex(s, p)
    case None =>
    case Some(i) => FirstIndexIsUnique(s + [x], p, i);
  }
}
