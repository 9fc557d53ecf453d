/** Edges as ordered pairs of vertex ids, and the orders the converters use on them. */
module Edges {

  /** An edge `(u, v)`: source `u`, target `v`. Ids are unbounded here; the
      programs store them as 32- or 64-bit words. */
  type Edge = (nat, nat)

  /** The largest 64-bit vertex id; the k-way merger uses it as its end-of-stream sentinel. */
  const MaxNodeId: nat := 0xFFFF_FFFF_FFFF_FFFF

  /** `a < b` on `std::pair`: lexicographic on `(first, second)`. */
  predicate LexLess(a: (nat, nat), b: (nat, nat))
  {
    a.0 < b.0 || (a.0 == b.0 && a.1 < b.1)
  }

  predicate LexLeq(a: (nat, nat), b: (nat, nat))
  {
    !LexLess(b, a)
  }

  /** Non-decreasing in lexicographic order. */
  predicate LexSorted(s: seq<Edge>)
  {
    forall i, j :: 0 <= i < j < |s| ==> LexLeq(s[i], s[j])
  }

  /** Strictly increasing in lexicographic order (sorted, no duplicates). */
  predicate LexStrictlySorted(s: seq<Edge>)
  {
    forall i, j :: 0 <= i < j < |s| ==> LexLess(s[i], s[j])
  }

  /** Non-decreasing by source id only. */
  predicate SourceSorted(s: seq<Edge>)
  {
    forall i, j :: 0 <= i < j < |s| ==> s[i].0 <= s[j].0
  }

  /** Moving the head of `r` to the end of `a` keeps the concatenation. */
  lemma AppendShift(a: seq<Edge>, e: Edge, r: seq<Edge>, r': seq<Edge>)
    requires r == [e] + r'
    ensures a + r == (a + [e]) + r'
  {
  }

  /** The targets of `s`, in order. */
  function Targets(s: seq<Edge>): (r: seq<nat>)
    ensures |r| == |s|
    ensures forall i :: 0 <= i < |s| ==> r[i] == s[i].1
  {
    if s == [] then [] else [s[0].1] + Targets(s[1..])
  }

  lemma {:induction false} TargetsAppend(a: seq<Edge>, b: seq<Edge>)
    ensures Targets(a + b) == Targets(a) + Targets(b)
  {
    if a == [] {
      assert a + b == b;
    } else {
      assert (a + b)[1..] == a[1..] + b;
      TargetsAppend(a[1..], b);
    }
  }

  lemma LexSortedIsSourceSorted(s: seq<Edge>)
    requires LexSorted(s)
    ensures SourceSorted(s)
  {
  }
}
