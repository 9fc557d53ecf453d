/** The CSR construction shared by both converters' `main`: degree counting
    over the merged edges (pass 1), the exclusive prefix sum, the offset
    bias, and the batched adjacency writes (pass 2). */
module Csr {
  import opened Arith
  import opened Edges
  import opened Bytes
  import Parhip

  // ---------------------------------------------------------------------
  // Reference definitions

  /** Out-degree of u: the number of edges with source u. */
  function Degree(es: seq<Edge>, u: nat): nat
  {
    if es == [] then 0 else Degree(es[..|es| - 1], u) + (if es[|es| - 1].0 == u then 1 else 0)
  }

  /** The number of vertices the converters count: one more than the largest
      source id, or 0 without edges. Target ids play no part. */
  function NumVertices(es: seq<Edge>): (n: nat)
    ensures forall i :: 0 <= i < |es| ==> es[i].0 < n
    ensures es == [] <==> n == 0
    ensures es != [] ==> exists i :: 0 <= i < |es| && es[i].0 + 1 == n
  {
    if es == [] then 0
    else
      var init := es[..|es| - 1];
      var p := NumVertices(init);
      var s := es[|es| - 1].0 + 1;
      assert forall i :: 0 <= i < |init| ==> init[i] == es[i];
      if p < s then s else p
  }

  /** The number of edges whose source is below k. */
  function Below(es: seq<Edge>, k: nat): (r: nat)
    ensures r <= |es|
  {
    if es == [] then 0 else Below(es[..|es| - 1], k) + (if es[|es| - 1].0 < k then 1 else 0)
  }

  function Sum(s: seq<nat>): nat
  {
    if s == [] then 0 else Sum(s[..|s| - 1]) + s[|s| - 1]
  }

  /** The degrees of vertices `0..NumVertices(es)`. */
  function Degrees(es: seq<Edge>): (d: seq<nat>)
    ensures |d| == NumVertices(es)
    ensures forall u :: 0 <= u < |d| ==> d[u] == Degree(es, u)
  {
    seq(NumVertices(es), u requires 0 <= u => Degree(es, u))
  }

  // ---------------------------------------------------------------------
  // Properties of the reference definitions

  lemma {:induction false} DegreeBeyond(es: seq<Edge>, u: nat)
    requires u >= NumVertices(es)
    ensures Degree(es, u) == 0
  {
    if es != [] {
      var init := es[..|es| - 1];
      assert forall i :: 0 <= i < |init| ==> init[i] == es[i];
      DegreeBeyond(init, u);
    }
  }

  lemma {:induction false} BelowStep(es: seq<Edge>, k: nat)
    ensures Below(es, k + 1) == Below(es, k) + Degree(es, k)
  {
    if es != [] {
      BelowStep(es[..|es| - 1], k);
    }
  }

  lemma {:induction false} BelowAll(es: seq<Edge>, k: nat)
    requires k >= NumVertices(es)
    ensures Below(es, k) == |es|
  {
    if es != [] {
      var init := es[..|es| - 1];
      assert forall i :: 0 <= i < |init| ==> init[i] == es[i];
      BelowAll(init, k);
    }
  }

  lemma {:induction false} BelowZero(es: seq<Edge>)
    ensures Below(es, 0) == 0
  {
    if es != [] {
      BelowZero(es[..|es| - 1]);
    }
  }

  lemma {:induction false} BelowMonotone(es: seq<Edge>, j: nat, k: nat)
    requires j <= k
    ensures Below(es, j) <= Below(es, k)
  {
    if es != [] {
      BelowMonotone(es[..|es| - 1], j, k);
    }
  }

  /** The prefix sums of the degrees count the edges below each vertex. */
  lemma {:induction false} SumDegrees(es: seq<Edge>, k: nat)
    requires k <= NumVertices(es)
    ensures Sum(Degrees(es)[..k]) == Below(es, k)
  {
    if k > 0 {
      var d := Degrees(es);
      PrefixSumStep(d, k - 1);
      SumDegrees(es, k - 1);
      BelowStep(es, k - 1);
    } else {
      assert Degrees(es)[..0] == [];
      BelowZero(es);
    }
  }

  /** The degrees add up to the number of edges. */
  lemma DegreesSumToEdgeCount(es: seq<Edge>)
    ensures Sum(Degrees(es)) == |es|
  {
    var d := Degrees(es);
    assert d[..|d|] == d;
    SumDegrees(es, |d|);
    BelowAll(es, |d|);
  }

  /** On a source-sorted list, the edges below k are exactly its first
      `Below(es, k)` edges. */
  lemma {:induction false} BelowSplits(es: seq<Edge>, k: nat)
    requires SourceSorted(es)
    ensures forall i :: 0 <= i < Below(es, k) ==> es[i].0 < k
    ensures forall i :: Below(es, k) <= i < |es| ==> es[i].0 >= k
  {
    if es != [] {
      var init := es[..|es| - 1];
      assert forall i :: 0 <= i < |init| ==> init[i] == es[i];
      BelowSplits(init, k);
    }
  }

  /** On a source-sorted list, the edges of vertices `[b, e)` are the
      contiguous run `es[Below(es, b) .. Below(es, e)]`. */
  lemma VertexRange(es: seq<Edge>, b: nat, e: nat)
    requires SourceSorted(es) && b <= e
    ensures Below(es, b) <= Below(es, e)
    ensures forall i :: Below(es, b) <= i < Below(es, e) ==> b <= es[i].0 < e
    ensures forall i :: 0 <= i < |es| && b <= es[i].0 < e ==> Below(es, b) <= i < Below(es, e)
  {
    BelowSplits(es, b);
    BelowSplits(es, e);
  }

  /** Sums of prefixes: `Sum(s[..i+1]) = Sum(s[..i]) + s[i]`, and they never decrease. */
  lemma PrefixSumStep(s: seq<nat>, i: nat)
    requires i < |s|
    ensures Sum(s[..i + 1]) == Sum(s[..i]) + s[i]
  {
    assert s[..i + 1][..i] == s[..i];
  }

  lemma {:induction false} PrefixSumMonotone(s: seq<nat>, i: nat, j: nat)
    requires i <= j <= |s|
    ensures Sum(s[..i]) <= Sum(s[..j])
    decreases j - i
  {
    if i < j {
      PrefixSumStep(s, j - 1);
      PrefixSumMonotone(s, i, j - 1);
    }
  }

  // ---------------------------------------------------------------------
  // The passes

  /** The first loop of pass one: for every edge, grow the degree array to
      cover its source, then count the edge. */
  method CountDegrees(es: seq<Edge>) returns (xadj: seq<nat>)
    ensures xadj == Degrees(es)
  {
    xadj := [];
    for i := 0 to |es|
      invariant |xadj| == NumVertices(es[..i])
      invariant forall u :: 0 <= u < |xadj| ==> xadj[u] == Degree(es[..i], u)
    {
      var u := es[i].0;
      xadj := GrowTo(xadj, es[..i], u);
      CountStep(es, i);
      xadj := xadj[u := xadj[u] + 1];
    }
    assert es[..|es|] == es;
  }

  /** `xadj.resize(u + 1)` when u is not yet covered: the new entries are
      zero, which is the degree of every vertex not seen so far. */
  method GrowTo(xadj: seq<nat>, before: seq<Edge>, u: nat) returns (r: seq<nat>)
    requires |xadj| == NumVertices(before)
    requires forall w :: 0 <= w < |xadj| ==> xadj[w] == Degree(before, w)
    ensures |r| == if u < |xadj| then |xadj| else u + 1
    ensures forall w :: 0 <= w < |r| ==> r[w] == Degree(before, w)
  {
    r := xadj;
    while |r| <= u
      invariant |xadj| <= |r| <= if u < |xadj| then |xadj| else u + 1
      invariant forall w :: 0 <= w < |r| ==> r[w] == Degree(before, w)
    {
      DegreeBeyond(before, |r|);
      r := r + [0];
    }
  }

  /** Counting edge i on top of the edges before it. */
  lemma CountStep(es: seq<Edge>, i: nat)
    requires i < |es|
    ensures NumVertices(es[..i + 1]) == if es[i].0 < NumVertices(es[..i]) then NumVertices(es[..i]) else es[i].0 + 1
    ensures forall w :: Degree(es[..i + 1], w) == Degree(es[..i], w) + (if w == es[i].0 then 1 else 0)
  {
    assert es[..i + 1][..i] == es[..i];
  }

  /** `std::exclusive_scan` in place: entry i becomes the sum of the entries before it. */
  method ExclusiveScan(a: array<nat>)
    modifies a
    ensures forall i :: 0 <= i < a.Length ==> a[i] == Sum(old(a[..])[..i])
  {
    ghost var orig := a[..];
    var acc := 0;
    for i := 0 to a.Length
      invariant acc == Sum(orig[..i])
      invariant forall k :: 0 <= k < i ==> a[k] == Sum(orig[..k])
      invariant forall k :: i <= k < a.Length ==> a[k] == orig[k]
    {
      var x := a[i];
      a[i] := acc;
      PrefixSumStep(orig, i);
      acc := acc + x;
    }
  }

  /** Where vertex i's adjacency starts in the file, in bytes: past the
      header, past the n+1 offset words, then `x` ids of `idBytes` bytes. */
  function Offset(n: nat, x: nat, idBytes: nat): (r: nat)
    ensures Parhip.HeaderBytes + (n + 1) * 8 <= r
    ensures idBytes > 0 ==> (r - (Parhip.HeaderBytes + (n + 1) * 8)) / idBytes == x
  {
    MulDiv(x, idBytes);
    Parhip.HeaderBytes + (n + 1) * 8 + x * idBytes
  }

  /** Turns every prefix sum into an absolute byte offset. */
  method AddOffsets(a: array<nat>, n: nat, idBytes: nat)
    modifies a
    ensures forall i :: 0 <= i < a.Length ==> a[i] == Offset(n, old(a[i]), idBytes)
  {
    for i := 0 to a.Length
      invariant forall k :: 0 <= k < i ==> a[k] == Offset(n, old(a[k]), idBytes)
      invariant forall k :: i <= k < a.Length ==> a[k] == old(a[k])
    {
      a[i] := Offset(n, a[i], idBytes);
    }
  }

  /** The offset words a converter writes: entry i is the byte offset in
      the file at which the adjacency of vertex i starts. */
  function XadjWords(es: seq<Edge>, idBytes: nat): (r: seq<nat>)
    ensures |r| == NumVertices(es) + 1
    ensures forall i :: 0 <= i < |r| ==> r[i] == Offset(NumVertices(es), Below(es, i), idBytes)
  {
    var n := NumVertices(es);
    seq(n + 1, i requires 0 <= i => Offset(n, Below(es, i), idBytes))
  }

  /** Pass 1 and the offset computation: the degree vector of the merged
      edges grown to n entries, one more zero entry, the exclusive prefix
      sum (whose last entry is m), and the bias turning counts into byte
      offsets. */
  method BuildXadj(es: seq<Edge>, idBytes: nat) returns (n: nat, m: nat, xadj: array<nat>)
    ensures n == NumVertices(es) && m == |es|
    ensures fresh(xadj) && xadj[..] == XadjWords(es, idBytes)
  {
    var deg := CountDegrees(es);
    n := |deg|;
    xadj := new nat[n + 1](i requires 0 <= i < n + 1 => if i < n then deg[i] else 0);
    ghost var counts := xadj[..];
    ExclusiveScan(xadj);
    forall i | 0 <= i <= n
      ensures xadj[i] == Below(es, i)
    {
      assert counts[..i] == deg[..i];
      SumDegrees(es, i);
    }
    m := xadj[n];
    BelowAll(es, n);
    AddOffsets(xadj, n, idBytes);
  }

  /** The whole output file: version, n and m, the n+1 offset words (all
      8 bytes wide), then the targets of all edges at `idBytes` bytes each.
      Its length is the offset one past the last vertex. */
  function Layout(es: seq<Edge>, version: bv64, idBytes: nat): (file: seq<Byte>)
    ensures |file| == Offset(NumVertices(es), |es|, idBytes)
  {
    HeaderWords(version, NumVertices(es), |es|)
      + EncodeAll(XadjWords(es, idBytes), 8) + EncodeAll(Targets(es), idBytes)
  }

  /** The version, n and m as three 8-byte words. */
  function HeaderWords(version: bv64, n: nat, m: nat): (r: seq<Byte>)
    ensures |r| == Parhip.HeaderBytes
  {
    Encode(version as nat, 8) + Encode(n, 8) + Encode(m, 8)
  }

  /** The number of records per adjacency batch (`buf_size`). */
  const AdjncyBatch: nat := 1048576

  function Flatten(bs: seq<seq<nat>>): seq<nat>
  {
    if bs == [] then [] else Flatten(bs[..|bs| - 1]) + bs[|bs| - 1]
  }

  lemma FlattenSnoc(bs: seq<seq<nat>>, b: seq<nat>)
    ensures Flatten(bs + [b]) == Flatten(bs) + b
  {
    assert (bs + [b])[..|bs|] == bs;
  }

  /** Writing one more batch: the bytes written so far stay the encoding of
      everything flushed. */
  lemma FlushStep(out: seq<Byte>, flushes: seq<seq<nat>>, adjncy: seq<nat>, idBytes: nat)
    requires out == EncodeAll(Flatten(flushes), idBytes)
    ensures out + EncodeAll(adjncy, idBytes) == EncodeAll(Flatten(flushes + [adjncy]), idBytes)
  {
    FlattenSnoc(flushes, adjncy);
    EncodeAllAppend(Flatten(flushes), adjncy, idBytes);
  }

  lemma TargetsSnoc(es: seq<Edge>, i: nat)
    requires i < |es|
    ensures Targets(es[..i + 1]) == Targets(es[..i]) + [es[i].1]
  {
    assert es[..i + 1] == es[..i] + [es[i]];
    TargetsAppend(es[..i], [es[i]]);
  }

  /** The body of the pass-2 callback: appends one target to the batch and
      writes the batch out when it is full. */
  method PushTarget(out: seq<Byte>, flushes: seq<seq<nat>>, adjncy: seq<nat>, t: nat, idBytes: nat, batch: nat)
    returns (out': seq<Byte>, flushes': seq<seq<nat>>, adjncy': seq<nat>)
    requires out == EncodeAll(Flatten(flushes), idBytes) && |adjncy| < batch
    requires forall k :: 0 <= k < |flushes| ==> |flushes[k]| == batch
    ensures Flatten(flushes') + adjncy' == Flatten(flushes) + adjncy + [t]
    ensures out' == EncodeAll(Flatten(flushes'), idBytes) && |adjncy'| < batch
    ensures forall k :: 0 <= k < |flushes'| ==> |flushes'[k]| == batch
  {
    out', flushes', adjncy' := out, flushes, adjncy + [t];
    if |adjncy'| == batch {
      FlushStep(out, flushes, adjncy', idBytes);
      FlattenSnoc(flushes, adjncy');
      out' := out + EncodeAll(adjncy', idBytes);
      flushes' := flushes + [adjncy'];
      adjncy' := [];
    }
  }

  /** Pass 2: collects targets into a batch, writing the batch whenever it
      reaches `batch` entries and once more at the end if it is not empty.
      Returns the bytes written and the batches flushed. */
  method WriteAdjncy(es: seq<Edge>, idBytes: nat, batch: nat) returns (out: seq<Byte>, flushes: seq<seq<nat>>)
    requires batch > 0
    ensures Flatten(flushes) == Targets(es)
    ensures forall i :: 0 <= i < |flushes| ==> 0 < |flushes[i]| <= batch
    ensures forall i :: 0 <= i < |flushes| - 1 ==> |flushes[i]| == batch
    ensures out == EncodeAll(Targets(es), idBytes)
  {
    var adjncy: seq<nat> := [];
    out, flushes := [], [];
    for i := 0 to |es|
      invariant Flatten(flushes) + adjncy == Targets(es[..i])
      invariant out == EncodeAll(Flatten(flushes), idBytes)
      invariant |adjncy| < batch
      invariant forall k :: 0 <= k < |flushes| ==> |flushes[k]| == batch
    {
      TargetsSnoc(es, i);
      out, flushes, adjncy := PushTarget(out, flushes, adjncy, es[i].1, idBytes, batch);
    }
    if |adjncy| > 0 {
      FlushStep(out, flushes, adjncy, idBytes);
      FlattenSnoc(flushes, adjncy);
      out := out + EncodeAll(adjncy, idBytes);
      flushes := flushes + [adjncy];
    }
    assert es[..|es|] == es;
  }
}
