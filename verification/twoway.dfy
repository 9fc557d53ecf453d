/** The two-way merger of `edges2parhip.cc`: a forward and a reverse edge
    file merged by comparing whole `(u, v)` pairs. */
module TwoWayMerge {
  import opened Edges
  import opened SortedStreams

  /** The merge order: stream 0's head goes first when stream 1 is empty or
      the head of stream 0 is lexicographically smaller; otherwise, ties
      included, stream 1's head goes first. */
  function TwoMerge(a: seq<Edge>, b: seq<Edge>): (r: seq<Edge>)
    ensures |r| == |a| + |b|
    ensures forall e :: e in r ==> e in a || e in b
    decreases |a| + |b|
  {
    if a == [] && b == [] then []
    else if b == [] || (a != [] && LexLess(a[0], b[0])) then [a[0]] + TwoMerge(a[1..], b)
    else [b[0]] + TwoMerge(a, b[1..])
  }

  /** Every record of both inputs is emitted exactly once. */
  lemma {:induction false} TwoMergePermutation(a: seq<Edge>, b: seq<Edge>)
    ensures multiset(TwoMerge(a, b)) == multiset(a) + multiset(b)
    ensures |TwoMerge(a, b)| == |a| + |b|
    decreases |a| + |b|
  {
    if a == [] && b == [] {
    } else if b == [] || (a != [] && LexLess(a[0], b[0])) {
      TwoMergePermutation(a[1..], b);
      ConsMultiset(a[0], a[1..], b, TwoMerge(a[1..], b));
      assert a == [a[0]] + a[1..];
    } else {
      TwoMergePermutation(a, b[1..]);
      ConsMultiset(b[0], b[1..], a, TwoMerge(a, b[1..]));
      assert b == [b[0]] + b[1..];
    }
  }

  lemma ConsMultiset(e: Edge, s: seq<Edge>, t: seq<Edge>, r: seq<Edge>)
    requires multiset(r) == multiset(s) + multiset(t) || multiset(r) == multiset(t) + multiset(s)
    ensures multiset([e] + r) == multiset([e] + s) + multiset(t)
    ensures multiset([e] + r) == multiset(t) + multiset([e] + s)
  {
  }

  /** A sorted sequence stays sorted under a head no larger than any of its elements. */
  lemma SortedCons(head: Edge, rest: seq<Edge>)
    requires LexSorted(rest)
    requires forall x :: x in rest ==> LexLeq(head, x)
    ensures LexSorted([head] + rest)
  {
    var r := [head] + rest;
    forall i, j | 0 <= i < j < |r|
      ensures LexLeq(r[i], r[j])
    {
      if i == 0 {
        assert r[j] == rest[j - 1];
      } else {
        assert r[i] == rest[i - 1] && r[j] == rest[j - 1];
      }
    }
  }

  /** A lower bound of both inputs bounds every emitted record. */
  lemma MergeBounded(m: Edge, a: seq<Edge>, b: seq<Edge>)
    requires forall x :: x in a ==> LexLeq(m, x)
    requires forall x :: x in b ==> LexLeq(m, x)
    ensures forall x :: x in TwoMerge(a, b) ==> LexLeq(m, x)
  {
    TwoMergePermutation(a, b);
    forall x | x in TwoMerge(a, b)
      ensures LexLeq(m, x)
    {
      assert x in multiset(TwoMerge(a, b));
    }
  }

  /** Merging two lexicographically sorted inputs gives a sorted output. */
  lemma {:induction false} TwoMergeSorted(a: seq<Edge>, b: seq<Edge>)
    requires LexSorted(a) && LexSorted(b)
    ensures LexSorted(TwoMerge(a, b))
    decreases |a| + |b|
  {
    if a == [] && b == [] {
    } else if b == [] || (a != [] && LexLess(a[0], b[0])) {
      TwoMergeSorted(a[1..], b);
      assert forall x :: x in a[1..] ==> LexLeq(a[0], x);
      MergeBounded(a[0], a[1..], b);
      SortedCons(a[0], TwoMerge(a[1..], b));
    } else {
      TwoMergeSorted(a, b[1..]);
      assert forall x :: x in b[1..] ==> LexLeq(b[0], x);
      MergeBounded(b[0], a, b[1..]);
      SortedCons(b[0], TwoMerge(a, b[1..]));
    }
  }

  /** Equal heads: stream 1's copy is emitted first. */
  lemma TiesGoToSecond(e: Edge, a: seq<Edge>, b: seq<Edge>)
    ensures TwoMerge([e] + a, [e] + b) == [e] + TwoMerge([e] + a, b)
  {
    assert ([e] + b)[1..] == b;
  }

  /** The whole pair decides: `[(0,5)]` and `[(0,1)]` merge as `(0,1), (0,5)`. */
  lemma TargetsCompared()
    ensures TwoMerge([(0, 5)], [(0, 1)]) == [(0, 1), (0, 5)]
  {
    assert TwoMerge([(0, 5)], []) == [(0, 5)];
  }

  /** One step of the merge order from the two heads. */
  lemma TwoMergeUnfold(a: seq<Edge>, b: seq<Edge>)
    requires a != [] || b != []
    ensures b == [] || (a != [] && LexLess(a[0], b[0])) ==> TwoMerge(a, b) == [a[0]] + TwoMerge(a[1..], b)
    ensures !(b == [] || (a != [] && LexLess(a[0], b[0]))) ==> TwoMerge(a, b) == [b[0]] + TwoMerge(a, b[1..])
  {
  }

  /** One iteration of the merge loop, given the two fetched heads: emits
      the chosen head and advances its stream. */
  method Step(bank: StreamBank, hasA: bool, a: Edge, hasB: bool, b: Edge) returns (e: Edge)
    requires bank.Valid() && |bank.files| == 2 && (hasA || hasB)
    requires hasA == (bank.idx[0] < |bank.files[0]|) && (hasA ==> a == bank.files[0][bank.idx[0]])
    requires hasB == (bank.idx[1] < |bank.files[1]|) && (hasB ==> b == bank.files[1][bank.idx[1]])
    modifies bank, bank.bufs
    ensures bank.Valid()
    ensures bank.idx[0] + bank.idx[1] == old(bank.idx[0] + bank.idx[1]) + 1
    ensures old(Pending(bank)) == [e] + Pending(bank)
  {
    ghost var ra := bank.files[0][bank.idx[0]..];
    ghost var rb := bank.files[1][bank.idx[1]..];
    TwoMergeUnfold(ra, rb);
    if !hasB || (hasA && LexLess(a, b)) {
      assert ra[1..] == bank.files[0][bank.idx[0] + 1..];
      e := a;
      bank.Advance(0);
    } else {
      assert rb[1..] == bank.files[1][bank.idx[1] + 1..];
      e := b;
      bank.Advance(1);
    }
  }

  /** The merge loop of `for_each_edge`: fetch both heads, emit and advance
      the chosen one, until both streams are exhausted. Returns the edges
      passed to the callback, in order. */
  method ForEachEdge(bank: StreamBank) returns (emitted: seq<Edge>)
    requires bank.Valid() && |bank.files| == 2
    modifies bank, bank.bufs
    ensures bank.Valid()
    ensures emitted == TwoMerge(bank.files[0][old(bank.idx[0])..], bank.files[1][old(bank.idx[1])..])
    ensures bank.idx[0] == |bank.files[0]| && bank.idx[1] == |bank.files[1]|
  {
    ghost var files := bank.files;
    ghost var whole := Pending(bank);
    var a: Edge, b: Edge := (0, 0), (0, 0);
    var hasA, hasB;
    hasA, a := bank.TryGet(0, a);
    hasB, b := bank.TryGet(1, b);
    emitted := [];
    while hasA || hasB
      invariant bank.Valid() && bank.files == files
      invariant hasA == (bank.idx[0] < |files[0]|) && (hasA ==> a == files[0][bank.idx[0]])
      invariant hasB == (bank.idx[1] < |files[1]|) && (hasB ==> b == files[1][bank.idx[1]])
      invariant whole == emitted + Pending(bank)
      decreases |files[0]| - bank.idx[0] + |files[1]| - bank.idx[1]
    {
      ghost var rest := Pending(bank);
      var e := Step(bank, hasA, a, hasB, b);
      AppendShift(emitted, e, rest, Pending(bank));
      emitted := emitted + [e];
      hasA, a := bank.TryGet(0, a);
      hasB, b := bank.TryGet(1, b);
    }
    assert files[0][bank.idx[0]..] == [] && files[1][bank.idx[1]..] == [];
  }

  /** What the merge has still to emit. */
  ghost function Pending(bank: StreamBank): seq<Edge>
    reads bank
    requires bank.Shape() && |bank.files| == 2
  {
    TwoMerge(bank.files[0][bank.idx[0]..], bank.files[1][bank.idx[1]..])
  }
}
