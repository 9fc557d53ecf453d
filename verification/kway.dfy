/** The k-way merger of `edges2parhip64.cc`: B sorted edge streams merged
    through a tournament tree whose nodes hold `(source id, stream index)`. */
module KWayMerge {
  import opened Edges
  import opened SortedStreams

  /** An emitted record together with the stream it came from. */
  datatype Tagged = Tagged(edge: Edge, stream: nat)

  /** A tournament-tree node: the source id of a stream's head and the stream index. */
  type Entry = (nat, nat)

  /** `std::min` on pairs: the second argument only when it is strictly smaller. */
  function MinEntry(a: Entry, b: Entry): (r: Entry)
    ensures r == a || r == b
    ensures LexLeq(r, a) && LexLeq(r, b)
  {
    if LexLess(b, a) then b else a
  }

  lemma LexLeqAntisymmetric(a: Entry, b: Entry)
    requires LexLeq(a, b) && LexLeq(b, a)
    ensures a == b
  {
  }

  lemma LexLeqTransitive(a: Entry, b: Entry, c: Entry)
    requires LexLeq(a, b) && LexLeq(b, c)
    ensures LexLeq(a, c)
  {
  }

  // ---------------------------------------------------------------------
  // Reference definition of the merge order

  /** A cursor (record index) per stream, none past its file's end. */
  ghost predicate Cursors(files: seq<seq<Edge>>, idx: seq<nat>)
  {
    |idx| == |files| && forall c :: 0 <= c < |files| ==> idx[c] <= |files[c]|
  }

  /** The key a stream competes with: the source id of its head, or the
      sentinel once it is exhausted. */
  function HeadKey(files: seq<seq<Edge>>, idx: seq<nat>, c: nat): nat
    requires |idx| == |files| && c < |files|
  {
    if idx[c] < |files[c]| then files[c][idx[c]].0 else MaxNodeId
  }

  /** The smallest `(key, stream)` among streams `0..k`. */
  function Winner(files: seq<seq<Edge>>, idx: seq<nat>, k: nat): (w: Entry)
    requires |idx| == |files| && 1 <= k <= |files|
    ensures w.1 < k && w == (HeadKey(files, idx, w.1), w.1)
    ensures forall c :: 0 <= c < k ==> LexLeq(w, (HeadKey(files, idx, c), c))
  {
    if k == 1 then (HeadKey(files, idx, 0), 0)
    else MinEntry(Winner(files, idx, k - 1), (HeadKey(files, idx, k - 1), k - 1))
  }

  /** Records not yet consumed in streams `0..k`. */
  function Remaining(files: seq<seq<Edge>>, idx: seq<nat>, k: nat): nat
    requires |idx| == |files| && k <= |files|
  {
    if k == 0 then 0
    else Remaining(files, idx, k - 1) + (if idx[k - 1] <= |files[k - 1]| then |files[k - 1]| - idx[k - 1] else 0)
  }

  lemma {:induction false} RemainingStep(files: seq<seq<Edge>>, idx: seq<nat>, b: nat, k: nat)
    requires Cursors(files, idx) && b < |files| && idx[b] < |files[b]| && k <= |files|
    ensures Cursors(files, idx[b := idx[b] + 1])
    ensures Remaining(files, idx[b := idx[b] + 1], k) == Remaining(files, idx, k) - (if b < k then 1 else 0)
  {
    if k > 0 {
      RemainingStep(files, idx, b, k - 1);
    }
  }

  /** The merge order: while the smallest `(key, stream)` has a key below the
      sentinel, emit the head of that stream and advance it. Equal keys go
      in stream order; targets are never compared. */
  function KMerge(files: seq<seq<Edge>>, idx: seq<nat>): (r: seq<Tagged>)
    requires Cursors(files, idx) && |files| >= 1
    ensures |r| <= Remaining(files, idx, |files|)
    ensures forall i :: 0 <= i < |r| ==> r[i].stream < |files|
    decreases Remaining(files, idx, |files|)
  {
    var w := Winner(files, idx, |files|);
    if w.0 < MaxNodeId then
      var b := w.1;
      RemainingStep(files, idx, b, |files|);
      [Tagged(files[b][idx[b]], b)] + KMerge(files, idx[b := idx[b] + 1])
    else
      []
  }

  function Untag(t: seq<Tagged>): (r: seq<Edge>)
    ensures |r| == |t|
    ensures forall i :: 0 <= i < |t| ==> r[i] == t[i].edge
  {
    if t == [] then [] else [t[0].edge] + Untag(t[1..])
  }

  /** The key an emitted record was selected by. */
  function Key(t: Tagged): Entry
  {
    (t.edge.0, t.stream)
  }

  // ---------------------------------------------------------------------
  // Properties of the merge order

  /** Every emitted record is at least the first winner. */
  lemma {:induction false} KMergeAbove(files: seq<seq<Edge>>, idx: seq<nat>)
    requires Cursors(files, idx) && |files| >= 1
    requires forall c :: 0 <= c < |files| ==> SourceSorted(files[c])
    ensures forall x :: x in KMerge(files, idx) ==> LexLeq(Winner(files, idx, |files|), Key(x))
    decreases Remaining(files, idx, |files|)
  {
    var w := Winner(files, idx, |files|);
    if w.0 < MaxNodeId {
      var b := w.1;
      var idx' := idx[b := idx[b] + 1];
      RemainingStep(files, idx, b, |files|);
      KMergeAbove(files, idx');
      WinnerStep(files, idx);
      var w' := Winner(files, idx', |files|);
      var rest := KMerge(files, idx');
      assert KMerge(files, idx) == [Tagged(files[b][idx[b]], b)] + rest;
      forall x | x in rest
        ensures LexLeq(w, Key(x))
      {
        assert LexLeq(w', Key(x));
      }
    }
  }

  /** Advancing the winning stream never lowers the winner. */
  lemma WinnerStep(files: seq<seq<Edge>>, idx: seq<nat>)
    requires Cursors(files, idx) && |files| >= 1
    requires forall c :: 0 <= c < |files| ==> SourceSorted(files[c])
    requires Winner(files, idx, |files|).0 < MaxNodeId
    ensures var b := Winner(files, idx, |files|).1;
      idx[b] < |files[b]| &&
      LexLeq(Winner(files, idx, |files|), Winner(files, idx[b := idx[b] + 1], |files|))
  {
    var w := Winner(files, idx, |files|);
    var b := w.1;
    var idx' := idx[b := idx[b] + 1];
    var w' := Winner(files, idx', |files|);
    var c := w'.1;
    if c != b {
      assert HeadKey(files, idx', c) == HeadKey(files, idx, c);
    } else if idx'[b] < |files[b]| {
      assert files[b][idx[b]].0 <= files[b][idx'[b]].0;
    }
  }

  /** Ordered by `(source, stream)`. */
  ghost predicate KeySorted(t: seq<Tagged>)
  {
    forall i, j :: 0 <= i < j < |t| ==> LexLeq(Key(t[i]), Key(t[j]))
  }

  /** With every input sorted by source, the merge emits records in
      non-decreasing source order, and records with equal sources in
      ascending stream order. */
  lemma {:induction false} KMergeSorted(files: seq<seq<Edge>>, idx: seq<nat>)
    requires Cursors(files, idx) && |files| >= 1
    requires forall c :: 0 <= c < |files| ==> SourceSorted(files[c])
    ensures KeySorted(KMerge(files, idx))
    decreases Remaining(files, idx, |files|)
  {
    var w := Winner(files, idx, |files|);
    if w.0 < MaxNodeId {
      var b := w.1;
      var idx' := idx[b := idx[b] + 1];
      RemainingStep(files, idx, b, |files|);
      var head := Tagged(files[b][idx[b]], b);
      assert KMerge(files, idx) == [head] + KMerge(files, idx');
      KMergeSorted(files, idx');
      KMergeAbove(files, idx');
      WinnerStep(files, idx);
      ConsKeySorted(head, KMerge(files, idx'), Winner(files, idx', |files|));
    }
  }

  /** A record whose key is at most a bound below every key of a sorted
      list extends it to a sorted list. */
  lemma ConsKeySorted(head: Tagged, rest: seq<Tagged>, bound: Entry)
    requires KeySorted(rest) && LexLeq(Key(head), bound)
    requires forall x :: x in rest ==> LexLeq(bound, Key(x))
    ensures KeySorted([head] + rest)
  {
    var t := [head] + rest;
    forall i, j | 0 <= i < j < |t|
      ensures LexLeq(Key(t[i]), Key(t[j]))
    {
      assert t[j] == rest[j - 1];
      if i == 0 {
        assert t[j] in rest;
        LexLeqTransitive(Key(head), bound, Key(t[j]));
      } else {
        assert t[i] == rest[i - 1];
      }
    }
  }

  /** Records of every stream from its cursor on, counted with multiplicity. */
  function RemainingRecords(files: seq<seq<Edge>>, idx: seq<nat>, k: nat): multiset<Edge>
    requires |idx| == |files| && k <= |files|
  {
    if k == 0 then multiset{} else RemainingRecords(files, idx, k - 1) + Tail(files, idx, k - 1)
  }

  lemma TailStep(s: seq<Edge>, i: nat)
    requires i < |s|
    ensures multiset(s[i..]) == multiset{s[i]} + multiset(s[i + 1..])
  {
    assert s[i..] == [s[i]] + s[i + 1..];
  }

  /** The records of stream c from its cursor on. */
  function Tail(files: seq<seq<Edge>>, idx: seq<nat>, c: nat): multiset<Edge>
    requires |idx| == |files| && c < |files|
  {
    if idx[c] <= |files[c]| then multiset(files[c][idx[c]..]) else multiset{}
  }

  lemma TailAdvanced(files: seq<seq<Edge>>, idx: seq<nat>, b: nat)
    requires |idx| == |files| && b < |files| && idx[b] < |files[b]|
    ensures Tail(files, idx, b) == multiset{files[b][idx[b]]} + Tail(files, idx[b := idx[b] + 1], b)
  {
    var s := files[b];
    assert s[idx[b]..] == [s[idx[b]]] + s[idx[b] + 1..];
  }

  lemma TailOther(files: seq<seq<Edge>>, idx: seq<nat>, b: nat, c: nat)
    requires |idx| == |files| && b < |files| && c < |files| && b != c
    ensures Tail(files, idx, c) == Tail(files, idx[b := idx[b] + 1], c)
  {
  }

  lemma UnionMoved(r: multiset<Edge>, t: multiset<Edge>, t': multiset<Edge>, x: multiset<Edge>)
    requires t == x + t'
    ensures r + t == (r + t') + x
  {
  }

  lemma UnionKept(r: multiset<Edge>, r': multiset<Edge>, t: multiset<Edge>, x: multiset<Edge>)
    requires r == r' + x
    ensures r + t == (r' + t) + x
  {
  }

  /** Advancing stream b changes nothing in streams `0..k` when k <= b. */
  lemma {:induction false} RemainingRecordsAbove(files: seq<seq<Edge>>, idx: seq<nat>, b: nat, k: nat)
    requires |idx| == |files| && b < |files| && k <= b
    ensures RemainingRecords(files, idx, k) == RemainingRecords(files, idx[b := idx[b] + 1], k)
  {
    if k > 0 {
      RemainingRecordsAbove(files, idx, b, k - 1);
      TailOther(files, idx, b, k - 1);
    }
  }

  /** Advancing stream b (b < k) removes exactly its head from the records left. */
  lemma {:induction false} RemainingRecordsBelow(files: seq<seq<Edge>>, idx: seq<nat>, b: nat, k: nat)
    requires |idx| == |files| && b < k <= |files| && idx[b] < |files[b]|
    ensures RemainingRecords(files, idx, k) ==
      RemainingRecords(files, idx[b := idx[b] + 1], k) + multiset{files[b][idx[b]]}
  {
    var idx' := idx[b := idx[b] + 1];
    var x := multiset{files[b][idx[b]]};
    if b == k - 1 {
      RemainingRecordsAbove(files, idx, b, k - 1);
      TailAdvanced(files, idx, b);
      UnionMoved(RemainingRecords(files, idx', k - 1), Tail(files, idx, k - 1), Tail(files, idx', k - 1), x);
    } else {
      RemainingRecordsBelow(files, idx, b, k - 1);
      TailOther(files, idx, b, k - 1);
      UnionKept(RemainingRecords(files, idx, k - 1), RemainingRecords(files, idx', k - 1), Tail(files, idx, k - 1), x);
    }
  }

  /** Source ids strictly below the sentinel. */
  ghost predicate BelowSentinel(files: seq<seq<Edge>>)
  {
    forall c, i :: 0 <= c < |files| && 0 <= i < |files[c]| ==> files[c][i].0 < MaxNodeId
  }

  lemma {:induction false} RemainingRecordsEmpty(files: seq<seq<Edge>>, idx: seq<nat>, k: nat)
    requires Cursors(files, idx) && k <= |files|
    requires forall c :: 0 <= c < k ==> idx[c] == |files[c]|
    ensures RemainingRecords(files, idx, k) == multiset{}
  {
    if k > 0 {
      RemainingRecordsEmpty(files, idx, k - 1);
      assert files[k - 1][idx[k - 1]..] == [];
    }
  }

  /** Once the smallest key is the sentinel, every stream is exhausted. */
  lemma AllExhausted(files: seq<seq<Edge>>, idx: seq<nat>)
    requires Cursors(files, idx) && |files| >= 1 && BelowSentinel(files)
    requires Winner(files, idx, |files|).0 >= MaxNodeId
    ensures forall c :: 0 <= c < |files| ==> idx[c] == |files[c]|
  {
    var w := Winner(files, idx, |files|);
    forall c | 0 <= c < |files|
      ensures idx[c] == |files[c]|
    {
      assert LexLeq(w, (HeadKey(files, idx, c), c));
    }
  }

  /** With every source id below the sentinel, the merge emits exactly the
      records not yet consumed, each once. */
  lemma {:induction false} KMergeEmitsRemaining(files: seq<seq<Edge>>, idx: seq<nat>)
    requires Cursors(files, idx) && |files| >= 1
    requires BelowSentinel(files)
    ensures multiset(Untag(KMerge(files, idx))) == RemainingRecords(files, idx, |files|)
    decreases Remaining(files, idx, |files|)
  {
    var w := Winner(files, idx, |files|);
    if w.0 < MaxNodeId {
      var b := w.1;
      var idx' := idx[b := idx[b] + 1];
      KMergeUnfold(files, idx, b, idx');
      RemainingRecordsBelow(files, idx, b, |files|);
      KMergeEmitsRemaining(files, idx');
    } else {
      AllExhausted(files, idx);
      RemainingRecordsEmpty(files, idx, |files|);
    }
  }

  /** All records of all streams, stream after stream. */
  function Concat(files: seq<seq<Edge>>): seq<Edge>
  {
    if files == [] then [] else Concat(files[..|files| - 1]) + files[|files| - 1]
  }

  lemma {:induction false} RemainingRecordsFromStart(files: seq<seq<Edge>>, k: nat)
    requires k <= |files|
    ensures Cursors(files, seq(|files|, c => 0))
    ensures RemainingRecords(files, seq(|files|, c => 0), k) == multiset(Concat(files[..k]))
  {
    var zero := seq(|files|, c => 0);
    if k > 0 {
      RemainingRecordsFromStart(files, k - 1);
      assert files[..k][..k - 1] == files[..k - 1];
      assert files[k - 1][zero[k - 1]..] == files[k - 1];
    }
  }

  /** A merge from the start emits a permutation of all inputs: every record
      of every stream exactly once. */
  lemma KMergePermutation(files: seq<seq<Edge>>)
    requires |files| >= 1 && BelowSentinel(files)
    ensures Cursors(files, seq(|files|, c => 0))
    ensures multiset(Untag(KMerge(files, seq(|files|, c => 0)))) == multiset(Concat(files))
    ensures |KMerge(files, seq(|files|, c => 0))| == |Concat(files)|
  {
    var zero := seq(|files|, c => 0);
    RemainingRecordsFromStart(files, |files|);
    assert files[..|files|] == files;
    KMergeEmitsRemaining(files, zero);
    assert |multiset(Untag(KMerge(files, zero)))| == |multiset(Concat(files))|;
  }

  /** A record whose source is the largest id looks like the end of its
      stream: it is never emitted. */
  lemma {:induction false} SentinelCollision(files: seq<seq<Edge>>, idx: seq<nat>)
    requires Cursors(files, idx) && |files| >= 1
    ensures forall t :: t in KMerge(files, idx) ==> t.edge.0 < MaxNodeId
    decreases Remaining(files, idx, |files|)
  {
    var w := Winner(files, idx, |files|);
    if w.0 < MaxNodeId {
      var b := w.1;
      RemainingStep(files, idx, b, |files|);
      SentinelCollision(files, idx[b := idx[b] + 1]);
    }
  }

  /** A single stream holding one record with the largest source merges to nothing. */
  lemma SentinelExample()
    ensures KMerge([[(MaxNodeId, 7)]], [0]) == []
  {
  }

  /** Targets play no part in the order: `[(0,5)]` and `[(0,1)]` merge as
      `(0,5), (0,1)`. */
  lemma TargetsNotCompared()
    ensures Untag(KMerge([[(0, 5)], [(0, 1)]], [0, 0])) == [(0, 5), (0, 1)]
  {
    var files := [[(0, 5)], [(0, 1)]];
    assert Winner(files, [0, 0], 2) == (0, 0);
    assert Winner(files, [1, 0], 2) == (0, 1);
    assert Winner(files, [1, 1], 2).0 == MaxNodeId;
  }

  // ---------------------------------------------------------------------
  // The tournament tree

  /** Node i (1 <= i < B) holds the smaller of its children. */
  ghost predicate NodeOk(t: seq<Entry>, i: nat)
    requires 2 * i + 1 < |t|
  {
    t[i] == MinEntry(t[2 * i], t[2 * i + 1])
  }

  /** Leaf B + c holds `(key of stream c, c)`. */
  ghost predicate LeavesOk(t: seq<Entry>, keys: seq<nat>)
    requires |t| == 2 * |keys|
  {
    forall c :: 0 <= c < |keys| ==> t[|keys| + c] == (keys[c], c)
  }

  ghost predicate TreeOk(t: seq<Entry>, keys: seq<nat>)
  {
    && |t| == 2 * |keys|
    && LeavesOk(t, keys)
    && forall i :: 1 <= i < |keys| ==> NodeOk(t, i)
  }

  function Keys(files: seq<seq<Edge>>, idx: seq<nat>): (keys: seq<nat>)
    requires |idx| == |files|
    ensures |keys| == |files|
    ensures forall c :: 0 <= c < |files| ==> keys[c] == HeadKey(files, idx, c)
  {
    seq(|files|, c requires 0 <= c < |files| => HeadKey(files, idx, c))
  }

  lemma {:induction false} RootBelow(t: seq<Entry>, keys: seq<nat>, j: nat)
    requires TreeOk(t, keys) && 1 <= j < |t|
    ensures LexLeq(t[1], t[j])
  {
    if j > 1 {
      RootBelow(t, keys, j / 2);
      assert NodeOk(t, j / 2);
    }
  }

  lemma {:induction false} NodeIsLeaf(t: seq<Entry>, keys: seq<nat>, i: nat)
    requires TreeOk(t, keys) && 1 <= i < |t|
    ensures t[i].1 < |keys| && t[i] == t[|keys| + t[i].1]
    decreases |t| - i
  {
    if i < |keys| {
      assert NodeOk(t, i);
      if t[i] == t[2 * i] {
        NodeIsLeaf(t, keys, 2 * i);
      } else {
        NodeIsLeaf(t, keys, 2 * i + 1);
      }
    } else {
      var c := i - |keys|;
      assert t[|keys| + c] == (keys[c], c);
    }
  }

  lemma RootAtMostWinner(t: seq<Entry>, files: seq<seq<Edge>>, idx: seq<nat>)
    requires |files| >= 1 && |idx| == |files|
    requires TreeOk(t, Keys(files, idx))
    ensures LexLeq(t[1], Winner(files, idx, |files|))
  {
    var keys := Keys(files, idx);
    var w := Winner(files, idx, |files|);
    RootBelow(t, keys, |files| + w.1);
    assert t[|files| + w.1] == (keys[w.1], w.1);
  }

  lemma WinnerAtMostRoot(t: seq<Entry>, files: seq<seq<Edge>>, idx: seq<nat>)
    requires |files| >= 1 && |idx| == |files|
    requires TreeOk(t, Keys(files, idx))
    ensures LexLeq(Winner(files, idx, |files|), t[1])
  {
    var keys := Keys(files, idx);
    NodeIsLeaf(t, keys, 1);
    var c := t[1].1;
    assert t[|files| + c] == (keys[c], c);
  }

  /** The root of a consistent tree is the reference winner. */
  lemma RootIsWinner(t: seq<Entry>, files: seq<seq<Edge>>, idx: seq<nat>)
    requires |files| >= 1 && |idx| == |files|
    requires TreeOk(t, Keys(files, idx))
    ensures t[1] == Winner(files, idx, |files|)
  {
    RootAtMostWinner(t, files, idx);
    WinnerAtMostRoot(t, files, idx);
    LexLeqAntisymmetric(t[1], Winner(files, idx, |files|));
  }

  /** j is i or one of its ancestors. */
  ghost predicate OnPath(j: nat, i: nat)
    decreases i
  {
    i > 0 && (j == i || OnPath(j, i / 2))
  }

  // ---------------------------------------------------------------------
  // The merger

  /** The tree build at the start of `for_each_edge`: leaf `B + b` gets the
      head key of stream b, then nodes `B-1` down to 1 take the smaller child. */
  method BuildTree(bank: StreamBank) returns (tree: array<Entry>)
    requires bank.Valid() && |bank.files| >= 1
    ensures fresh(tree)
    ensures TreeOk(tree[..], Keys(bank.files, bank.idx))
  {
    var B := |bank.files|;
    tree := new Entry[2 * B];
    for b := 0 to B
      invariant forall c :: 0 <= c < b ==> tree[B + c] == (HeadKey(bank.files, bank.idx, c), c)
    {
      var e := bank.Get(b);
      tree[B + b] := (e.0, b);
    }
    BuildInner(tree, B, Keys(bank.files, bank.idx));
  }

  /** The second loop of the initialisation: each internal node, from the
      last one up to the root, becomes the smaller of its children. */
  method BuildInner(tree: array<Entry>, B: nat, ghost keys: seq<nat>)
    requires |keys| == B >= 1 && tree.Length == 2 * B
    requires LeavesOk(tree[..], keys)
    modifies tree
    ensures TreeOk(tree[..], keys)
  {
    var i := B - 1;
    while i > 0
      invariant 0 <= i < B
      invariant LeavesOk(tree[..], keys)
      invariant forall j :: i < j < B ==> NodeOk(tree[..], j)
    {
      ghost var before := tree[..];
      tree[i] := MinEntry(tree[i * 2], tree[i * 2 + 1]);
      assert tree[..] == before[i := tree[i]];
      forall j | i - 1 < j < B
        ensures NodeOk(tree[..], j)
      {
        if j != i {
          assert NodeOk(before, j);
        }
      }
      i := i - 1;
    }
  }

  /** One round of the merge order: the winner's head is emitted and its
      stream advanced. */
  lemma KMergeUnfold(files: seq<seq<Edge>>, idx: seq<nat>, b: nat, idx': seq<nat>)
    requires Cursors(files, idx) && |files| >= 1
    requires Winner(files, idx, |files|).0 < MaxNodeId && b == Winner(files, idx, |files|).1
    requires idx' == idx[b := idx[b] + 1]
    ensures idx[b] < |files[b]| && Cursors(files, idx')
    ensures Remaining(files, idx', |files|) < Remaining(files, idx, |files|)
    ensures Untag(KMerge(files, idx)) == [files[b][idx[b]]] + Untag(KMerge(files, idx'))
  {
    RemainingStep(files, idx, b, |files|);
    assert KMerge(files, idx) == [Tagged(files[b][idx[b]], b)] + KMerge(files, idx');
  }

  lemma KeysStep(files: seq<seq<Edge>>, idx: seq<nat>, b: nat)
    requires |idx| == |files| && b < |files|
    ensures forall c :: 0 <= c < |files| && c != b ==>
      Keys(files, idx[b := idx[b] + 1])[c] == Keys(files, idx)[c]
  {
  }

  /** Changing leaf `B + b` to the new key of stream b leaves every node
      consistent except possibly the leaf's parent and its ancestors. */
  lemma LeafChanged(before: seq<Entry>, after: seq<Entry>, keys: seq<nat>, keys': seq<nat>, b: nat)
    requires TreeOk(before, keys) && b < |keys| && |keys'| == |keys|
    requires forall c :: 0 <= c < |keys| && c != b ==> keys'[c] == keys[c]
    requires after == before[|keys| + b := (keys'[b], b)]
    ensures LeavesOk(after, keys')
    ensures forall j :: 1 <= j < |keys| && j != (|keys| + b) / 2 ==> NodeOk(after, j)
  {
    forall j | 1 <= j < |keys| && j != (|keys| + b) / 2
      ensures NodeOk(after, j)
    {
      assert NodeOk(before, j);
    }
  }

  /** One iteration of the merge loop: emits the head of the stream at the
      root, advances that stream, refreshes its leaf and the path above it. */
  method Pop(bank: StreamBank, tree: array<Entry>, B: nat) returns (e: Edge)
    requires bank.Valid() && |bank.files| == B >= 1
    requires tree.Length == 2 * B && tree !in bank.bufs
    requires TreeOk(tree[..], Keys(bank.files, bank.idx)) && tree[1].0 < MaxNodeId
    modifies bank, bank.bufs, tree
    ensures bank.Valid() && Cursors(bank.files, bank.idx)
    ensures TreeOk(tree[..], Keys(bank.files, bank.idx))
    ensures Remaining(bank.files, bank.idx, B) < Remaining(bank.files, old(bank.idx), B)
    ensures Untag(KMerge(bank.files, old(bank.idx))) == [e] + Untag(KMerge(bank.files, bank.idx))
  {
    ghost var files := bank.files;
    ghost var idx := bank.idx;
    RootIsWinner(tree[..], files, idx);
    var b := tree[1].1;
    ghost var idx' := idx[b := idx[b] + 1];
    KMergeUnfold(files, idx, b, idx');
    ghost var t0 := tree[..];
    var next;
    e, next := Consume(bank, b);
    assert tree[..] == t0;
    KeysStep(files, idx, b);
    Replay(tree, B, Keys(files, idx), Keys(files, bank.idx), b, next.0);
  }

  /** `l(get(b)); advance(b);` then `get(b)` for the new leaf. */
  method Consume(bank: StreamBank, b: nat) returns (e: Edge, next: Edge)
    requires bank.Valid() && b < |bank.files| && bank.idx[b] < |bank.files[b]|
    modifies bank, bank.bufs[b]
    ensures bank.Valid()
    ensures bank.idx == old(bank.idx)[b := old(bank.idx[b]) + 1]
    ensures e == bank.files[b][old(bank.idx[b])]
    ensures next == bank.Head(b)
  {
    e := bank.Get(b);
    bank.Advance(b);
    next := bank.Get(b);
  }

  /** Stores the new key of stream b in its leaf and recomputes the path to the root. */
  method Replay(tree: array<Entry>, B: nat, ghost keys: seq<nat>, ghost keys': seq<nat>, b: nat, key: nat)
    requires |keys| == B && |keys'| == B && b < B && tree.Length == 2 * B
    requires TreeOk(tree[..], keys)
    requires forall c :: 0 <= c < B && c != b ==> keys'[c] == keys[c]
    requires key == keys'[b]
    modifies tree
    ensures TreeOk(tree[..], keys')
  {
    ghost var before := tree[..];
    tree[B + b] := (key, b);
    LeafChanged(before, tree[..], keys, keys', b);
    UpdatePath(tree, B, keys', b);
  }

  /** `for_each_edge`: builds the tournament tree over the stream heads, then
      repeatedly emits the head of the stream at the root, advances it and
      recomputes the path from its leaf to the root, until the root key is
      the sentinel. Returns the edges passed to the callback, in order. */
  method ForEachEdge(bank: StreamBank) returns (emitted: seq<Edge>)
    requires bank.Valid() && |bank.files| >= 1
    modifies bank, bank.bufs
    ensures bank.Valid()
    ensures emitted == Untag(KMerge(bank.files, old(bank.idx)))
    ensures forall c :: 0 <= c < |bank.files| ==> HeadKey(bank.files, bank.idx, c) >= MaxNodeId
    ensures BelowSentinel(bank.files) ==> forall c :: 0 <= c < |bank.files| ==> bank.idx[c] == |bank.files[c]|
  {
    var B := |bank.files|;
    ghost var files := bank.files;
    ghost var idx0 := bank.idx;
    var tree := BuildTree(bank);
    emitted := [];
    while tree[1].0 < MaxNodeId
      invariant bank.Valid() && bank.files == files && Cursors(files, bank.idx)
      invariant tree !in bank.bufs
      invariant TreeOk(tree[..], Keys(files, bank.idx))
      invariant Untag(KMerge(files, idx0)) == emitted + Untag(KMerge(files, bank.idx))
      decreases Remaining(files, bank.idx, B)
    {
      ghost var before := emitted;
      ghost var idx := bank.idx;
      var e := Pop(bank, tree, B);
      emitted := emitted + [e];
      AppendShift(before, e, Untag(KMerge(files, idx)), Untag(KMerge(files, bank.idx)));
    }
    RootIsWinner(tree[..], files, bank.idx);
    if BelowSentinel(files) {
      ExhaustedAtSentinel(files, bank.idx);
    }
  }

  /** With every source below the sentinel, a head key at the sentinel
      means the stream is exhausted. */
  lemma ExhaustedAtSentinel(files: seq<seq<Edge>>, idx: seq<nat>)
    requires Cursors(files, idx) && BelowSentinel(files)
    requires forall c :: 0 <= c < |files| ==> HeadKey(files, idx, c) >= MaxNodeId
    ensures forall c :: 0 <= c < |files| ==> idx[c] == |files[c]|
  {
    forall c | 0 <= c < |files|
      ensures idx[c] == |files[c]|
    {
      assert HeadKey(files, idx, c) >= MaxNodeId;
    }
  }

  /** Recomputes the nodes from leaf `B + b` up to the root after that leaf changed. */
  method UpdatePath(tree: array<Entry>, B: nat, ghost keys: seq<nat>, b: nat)
    requires |keys| == B && b < B && tree.Length == 2 * B
    requires LeavesOk(tree[..], keys)
    requires forall j :: 1 <= j < |keys| && j != (|keys| + b) / 2 ==> NodeOk(tree[..], j)
    modifies tree
    ensures TreeOk(tree[..], keys)
    ensures forall c :: |keys| <= c < tree.Length ==> tree[c] == old(tree[c])
  {
    var i := (B + b) / 2;
    while i > 0
      invariant 0 <= i < B
      invariant LeavesOk(tree[..], keys)
      invariant forall c :: B <= c < tree.Length ==> tree[c] == old(tree[c])
      invariant forall j :: 1 <= j < B && !OnPath(j, i) ==> NodeOk(tree[..], j)
    {
      tree[i] := MinEntry(tree[i * 2], tree[i * 2 + 1]);
      forall j | 1 <= j < B && !OnPath(j, i / 2)
        ensures NodeOk(tree[..], j)
      {
        if j != i {
          assert !OnPath(j, i);
          assert i / 2 > 0 ==> OnPath(i / 2, i / 2);
        }
      }
      i := i / 2;
    }
  }
}
