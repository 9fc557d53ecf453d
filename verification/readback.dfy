/** What a ParHiP reader sees in a file written by either converter: the
    header words come back, the normalised offset array is the prefix sum
    of the degrees, and the adjacency fetched for a vertex range is the
    targets of exactly the edges whose sources lie in that range. */
module Readback {
  import opened Arith
  import opened Edges
  import opened Bytes
  import opened Parhip
  import opened Csr

  /** The two version words the converters write, with the vertex-id width
      each one announces: 3 for 8-byte ids, 11 for 4-byte ids. */
  predicate ConverterFormat(version: bv64, idBytes: nat)
  {
    (version == 3 && idBytes == 8) || (version == 11 && idBytes == 4)
  }

  /** Everything the written words must fit: every target fits the id width
      and the largest offset fits 64 bits. */
  predicate Fits(es: seq<Edge>, idBytes: nat)
  {
    && (forall i :: 0 <= i < |es| ==> es[i].1 < Pow256(idBytes))
    && Offset(NumVertices(es), |es|, idBytes) < Pow256(8)
  }

  /** The prefix sums a reader should see: vertex i's edges start at Below(es, i). */
  function EdgeStarts(es: seq<Edge>): (r: seq<nat>)
    ensures |r| == NumVertices(es) + 1
    ensures forall i :: 0 <= i < |r| ==> r[i] == Below(es, i)
  {
    seq(NumVertices(es) + 1, i requires 0 <= i => Below(es, i))
  }

  lemma FormatWidths(version: bv64, idBytes: nat, h: Header)
    requires ConverterFormat(version, idBytes) && h.version == DecodeVersion(version)
    ensures EdgeIDWidth(h) == 8 && VertexIDWidth(h) == idBytes
    ensures Pow2(VertexIDShift(h)) == idBytes
  {
    assert Pow2(2) == 4 && Pow2(3) == 8;
  }

  /** The header words at the start of a written file. */
  lemma LayoutHeader(es: seq<Edge>, version: bv64, idBytes: nat)
    ensures var file := Layout(es, version, idBytes);
      && |file| >= HeaderBytes
      && file[0..8] == Encode(version as nat, 8)
      && file[8..16] == Encode(NumVertices(es), 8)
      && file[16..24] == Encode(|es|, 8)
  {
    var file := Layout(es, version, idBytes);
    var head := HeaderWords(version, NumVertices(es), |es|);
    assert file[..HeaderBytes] == head;
    assert file[0..8] == head[0..8];
    assert file[8..16] == head[8..16];
    assert file[16..24] == head[16..24];
  }

  /** The offset words and the targets of a written file. */
  lemma LayoutSections(es: seq<Edge>, version: bv64, idBytes: nat)
    ensures var file := Layout(es, version, idBytes);
      var start := HeaderBytes + (NumVertices(es) + 1) * 8;
      && start <= |file|
      && file[HeaderBytes .. start] == EncodeAll(XadjWords(es, idBytes), 8)
      && file[start..] == EncodeAll(Targets(es), idBytes)
  {
    var file := Layout(es, version, idBytes);
    var head := HeaderWords(version, NumVertices(es), |es|);
    var x, t := EncodeAll(XadjWords(es, idBytes), 8), EncodeAll(Targets(es), idBytes);
    assert file == head + x + t;
    assert file[HeaderBytes .. HeaderBytes + |x|] == x;
    assert file[HeaderBytes + |x| ..] == t;
  }

  /** Where the largest offset fits 64 bits, so do n and m. */
  lemma CountsFit(n: nat, m: nat, idBytes: nat)
    requires idBytes >= 1 && Offset(n, m, idBytes) < Pow256(8)
    ensures n < Pow256(8) && m < Pow256(8)
  {
    MulMono(1, idBytes, m);
  }

  /** The header of a written file reads back as the version, n and m. */
  lemma HeaderReadsBack(es: seq<Edge>, version: bv64, idBytes: nat, file: seq<Byte>)
    requires ConverterFormat(version, idBytes) && Fits(es, idBytes)
    requires file == Layout(es, version, idBytes)
    ensures |file| >= HeaderBytes
    ensures ReadHeader(file) == Header(DecodeVersion(version), NumVertices(es), |es|)
  {
    CountsFit(NumVertices(es), |es|, idBytes);
    LayoutHeader(es, version, idBytes);
    ReadHeaderOfWritten(file, version, NumVertices(es), |es|);
  }

  /** Every written offset word fits 64 bits. */
  lemma XadjWordsFit(es: seq<Edge>, idBytes: nat)
    requires Fits(es, idBytes)
    ensures forall i :: 0 <= i < NumVertices(es) + 1 ==> XadjWords(es, idBytes)[i] < Pow256(8)
  {
    var n := NumVertices(es);
    forall i | 0 <= i < n + 1
      ensures XadjWords(es, idBytes)[i] < Pow256(8)
    {
      MulMono(Below(es, i), |es|, idBytes);
    }
  }

  /** The offset array read back from a file holding the written offset
      words, once normalised, is the prefix sum of the degrees: entry i
      counts the edges of vertices below i. */
  lemma XadjReadsBack(es: seq<Edge>, idBytes: nat, file: seq<Byte>, h: Header)
    requires Fits(es, idBytes)
    requires h.n == NumVertices(es) && EdgeIDWidth(h) == 8 && Pow2(VertexIDShift(h)) == idBytes
    requires HeaderBytes + (h.n + 1) * 8 <= |file|
    requires file[HeaderBytes .. HeaderBytes + (h.n + 1) * 8] == EncodeAll(XadjWords(es, idBytes), 8)
    ensures Normalized(RawXadj(file, h), VertexIDShift(h), EdgeIDWidth(h)) == EdgeStarts(es)
  {
    var words := XadjWords(es, idBytes);
    XadjWordsFit(es, idBytes);
    RawXadjOfWritten(file, h, words);
    BelowZero(es);
    NormalizedUndoesBias(words, EdgeStarts(es), HeaderBytes + (h.n + 1) * 8, idBytes, VertexIDShift(h), 8);
  }

  lemma TargetsSlice(es: seq<Edge>, i: nat, j: nat)
    requires i <= j <= |es|
    ensures Targets(es)[i..j] == Targets(es[i..j])
  {
    var whole, part := Targets(es)[i..j], Targets(es[i..j]);
    forall k | 0 <= k < j - i
      ensures whole[k] == part[k]
    {
      assert whole[k] == es[i + k].1 && part[k] == es[i..j][k].1;
    }
  }

  lemma SuffixSlice(file: seq<Byte>, start: nat, enc: seq<Byte>, a: nat, b: nat)
    requires start <= |file| && file[start..] == enc && a <= b <= |enc|
    ensures start + a <= start + b <= |file| && file[start + a .. start + b] == enc[a..b]
  {
    assert |enc| == |file| - start;
    forall k | 0 <= k < b - a
      ensures file[start + a .. start + b][k] == enc[a..b][k]
    {
      assert file[start + a + k] == file[start..][a + k];
    }
  }

  /** Edges `lo..hi` occupy bytes `lo * w .. hi * w` of an adjacency
      section holding all targets at width w. */
  lemma AdjncyBytes(file: seq<Byte>, start: nat, es: seq<Edge>, idBytes: nat, lo: nat, hi: nat)
    requires start <= |file| && file[start..] == EncodeAll(Targets(es), idBytes)
    requires lo <= hi <= |es|
    ensures start + lo * idBytes <= start + hi * idBytes <= |file|
    ensures file[start + lo * idBytes .. start + hi * idBytes] == EncodeAll(Targets(es[lo..hi]), idBytes)
  {
    EncodeAllSlice(Targets(es), idBytes, lo, hi);
    MulMono(0, lo, idBytes);
    var a: nat, b: nat := lo * idBytes, hi * idBytes;
    SuffixSlice(file, start, EncodeAll(Targets(es), idBytes), a, b);
    TargetsSlice(es, lo, hi);
  }

  /** Fetching the adjacency of vertices `[begin, min(end, n))` from a
      written file, with the header read from it and the normalised offsets,
      yields the targets of the edges `es[Below(es, begin) .. Below(es,
      min(end, n))]`. */
  lemma AdjncyReadsBack(es: seq<Edge>, idBytes: nat, file: seq<Byte>, h: Header, begin: nat, end: nat)
    requires h.n == NumVertices(es) && EdgeIDWidth(h) == 8 && VertexIDWidth(h) == idBytes
    requires HeaderBytes + (h.n + 1) * 8 <= |file|
    requires file[HeaderBytes + (h.n + 1) * 8 ..] == EncodeAll(Targets(es), idBytes)
    requires begin <= Min(end, h.n)
    ensures Below(es, begin) <= Below(es, Min(end, h.n))
    ensures Fetchable(file, h, EdgeStarts(es), begin, end)
    ensures ReadAdjncy(file, h, EdgeStarts(es), begin, end)
      == AdjncyChunk(EncodeAll(Targets(es[Below(es, begin) .. Below(es, Min(end, h.n))]), idBytes), Min(end, h.n) - begin)
  {
    var last := Min(end, h.n);
    var lo, hi := Below(es, begin), Below(es, last);
    var start := HeaderBytes + (h.n + 1) * 8;
    BelowMonotone(es, begin, last);
    AdjncyBytes(file, start, es, idBytes, lo, hi);
    ReadAdjncyRange(file, h, EdgeStarts(es), begin, end, start, lo, hi, idBytes);
  }

  /** The adjacency a reader fetches from `file` for the single vertex u
      is the targets of the edges `es[Below(es, u) .. Below(es, u + 1)]`,
      and these are exactly the edges of `es` whose source is u. */
  predicate ReadsNeighbours(es: seq<Edge>, idBytes: nat, file: seq<Byte>, h: Header, u: nat)
  {
    && Below(es, u) <= Below(es, u + 1)
    && Fetchable(file, h, EdgeStarts(es), u, u + 1)
    && ReadAdjncy(file, h, EdgeStarts(es), u, u + 1).data
      == EncodeAll(Targets(es[Below(es, u) .. Below(es, u + 1)]), idBytes)
    && (forall i :: Below(es, u) <= i < Below(es, u + 1) ==> es[i].0 == u)
    && (forall i :: 0 <= i < |es| && es[i].0 == u ==> Below(es, u) <= i < Below(es, u + 1))
  }

  /** On a source-sorted list, the adjacency fetched for the single vertex
      u is the targets of exactly the edges whose source is u, in order. */
  lemma VertexNeighbours(es: seq<Edge>, idBytes: nat, file: seq<Byte>, h: Header, u: nat)
    requires SourceSorted(es)
    requires h.n == NumVertices(es) && EdgeIDWidth(h) == 8 && VertexIDWidth(h) == idBytes
    requires HeaderBytes + (h.n + 1) * 8 <= |file|
    requires file[HeaderBytes + (h.n + 1) * 8 ..] == EncodeAll(Targets(es), idBytes)
    requires u < h.n
    ensures ReadsNeighbours(es, idBytes, file, h, u)
  {
    assert Min(u + 1, h.n) == u + 1;
    var lo, hi := Below(es, u), Below(es, u + 1);
    assert lo <= hi && Fetchable(file, h, EdgeStarts(es), u, u + 1)
      && ReadAdjncy(file, h, EdgeStarts(es), u, u + 1).data == EncodeAll(Targets(es[lo .. hi]), idBytes)
    by {
      AdjncyReadsBack(es, idBytes, file, h, u, u + 1);
    }
    VertexRange(es, u, u + 1);
  }

  /** `VertexNeighbours` for a file a converter wrote from a source-sorted
      edge list. */
  lemma WrittenNeighbours(es: seq<Edge>, version: bv64, idBytes: nat, file: seq<Byte>, h: Header, u: nat)
    requires SourceSorted(es) && ConverterFormat(version, idBytes)
    requires file == Layout(es, version, idBytes)
    requires h == Header(DecodeVersion(version), NumVertices(es), |es|)
    requires u < h.n
    ensures ReadsNeighbours(es, idBytes, file, h, u)
  {
    LayoutSections(es, version, idBytes);
    FormatWidths(version, idBytes, h);
    VertexNeighbours(es, idBytes, file, h, u);
  }

  /** The offset array read back from a written file, once normalised, is
      the prefix sum of the degrees: entry i counts the edges of vertices
      below i. */
  lemma WrittenXadjReadsBack(es: seq<Edge>, version: bv64, idBytes: nat, file: seq<Byte>, h: Header)
    requires ConverterFormat(version, idBytes) && Fits(es, idBytes)
    requires file == Layout(es, version, idBytes)
    requires h == Header(DecodeVersion(version), NumVertices(es), |es|)
    ensures HeaderBytes + (h.n + 1) * EdgeIDWidth(h) <= |file|
    ensures Normalized(RawXadj(file, h), VertexIDShift(h), EdgeIDWidth(h)) == EdgeStarts(es)
  {
    LayoutSections(es, version, idBytes);
    FormatWidths(version, idBytes, h);
    XadjReadsBack(es, idBytes, file, h);
  }

  /** The adjacency fetched from a written file for vertices
      `[begin, min(end, n))`, with the header and the normalised offsets,
      is the targets of the edges `es[Below(es, begin) .. Below(es,
      min(end, n))]`; on a source-sorted list these are exactly the edges
      whose source lies in that range (`VertexRange`). */
  lemma WrittenAdjncyReadsBack(es: seq<Edge>, version: bv64, idBytes: nat, file: seq<Byte>, h: Header, begin: nat, end: nat)
    requires ConverterFormat(version, idBytes)
    requires file == Layout(es, version, idBytes)
    requires h == Header(DecodeVersion(version), NumVertices(es), |es|)
    requires begin <= Min(end, h.n)
    ensures Below(es, begin) <= Below(es, Min(end, h.n))
    ensures Fetchable(file, h, EdgeStarts(es), begin, end)
    ensures ReadAdjncy(file, h, EdgeStarts(es), begin, end)
      == AdjncyChunk(EncodeAll(Targets(es[Below(es, begin) .. Below(es, Min(end, h.n))]), idBytes), Min(end, h.n) - begin)
  {
    LayoutSections(es, version, idBytes);
    FormatWidths(version, idBytes, h);
    AdjncyReadsBack(es, idBytes, file, h, begin, end);
  }
}
