/** The ParHiP binary graph format: the bit-packed version word, the
    24-byte header, the width and shift accessors, and the random-access
    reader that normalises the on-disk offset array and fetches the
    adjacency bytes of a range of vertices. */
module Parhip {
  import opened Arith
  import opened Bytes

  /** Six independent flags describing what the file stores and at which width. */
  datatype Version = Version(
    hasEdgeWeights: bool,
    hasVertexWeights: bool,
    has32BitEdgeIds: bool,
    has32BitVertexIds: bool,
    has32BitVertexWeights: bool,
    has32BitEdgeWeights: bool)

  datatype Header = Header(version: Version, n: nat, m: nat)

  /** Version, n and m, one 8-byte word each. */
  const HeaderBytes: nat := 24

  /** `static_cast<int>(flag)` as a word. */
  function Flag(b: bool): bv64
  {
    if b then 1 else 0
  }

  /** Packs the flags into bits 0-4. The two weight-presence bits are stored
      inverted; vertex-id width and vertex-weight width share bit 3. */
  function EncodeVersion(v: Version): (r: bv64)
    ensures r < 32
    ensures (r & 1 == 0) == v.hasEdgeWeights
    ensures (r & 2 == 0) == v.hasVertexWeights
    ensures (r & 4 != 0) == v.has32BitEdgeIds
    ensures (r & 8 != 0) == (v.has32BitVertexIds || v.has32BitVertexWeights)
    ensures (r & 16 != 0) == v.has32BitEdgeWeights
  {
    var edgeWeightsBit := Flag(v.hasEdgeWeights) ^ 1;
    var vertexWeightsBit := (Flag(v.hasVertexWeights) ^ 1) << 1;
    var edgeIdWidthBit := Flag(v.has32BitEdgeIds) << 2;
    var vertexIdWidthBit := Flag(v.has32BitVertexIds) << 3;
    var vertexWeightWidthBit := Flag(v.has32BitVertexWeights) << 3;
    var edgeWeightWidthBit := Flag(v.has32BitEdgeWeights) << 4;
    vertexWeightsBit | edgeWeightsBit | edgeIdWidthBit
      | vertexIdWidthBit | vertexWeightWidthBit | edgeWeightWidthBit
  }

  /** Reads the flags back: bits 0 and 1 inverted, bits 2 to 5 directly.
      Every word below 16 is the encoding of what it decodes to. */
  function DecodeVersion(x: bv64): (v: Version)
    ensures x < 16 ==> EncodeVersion(v) == x
  {
    Version(
      hasEdgeWeights := x & 1 == 0,
      hasVertexWeights := x & 2 == 0,
      has32BitEdgeIds := x & 4 != 0,
      has32BitVertexIds := x & 8 != 0,
      has32BitVertexWeights := x & 16 != 0,
      has32BitEdgeWeights := x & 32 != 0)
  }

  /** What survives `DecodeVersion(EncodeVersion(v))`: the decoder looks for
      the weight-width flags one bit higher than the encoder puts them, so
      the six flags come back unchanged exactly when both weight-width
      flags are false. */
  lemma DecodeEncodeVersion(v: Version)
    ensures var d := DecodeVersion(EncodeVersion(v));
      && d.hasEdgeWeights == v.hasEdgeWeights
      && d.hasVertexWeights == v.hasVertexWeights
      && d.has32BitEdgeIds == v.has32BitEdgeIds
      && d.has32BitVertexIds == (v.has32BitVertexIds || v.has32BitVertexWeights)
      && d.has32BitVertexWeights == v.has32BitEdgeWeights
      && !d.has32BitEdgeWeights
    ensures DecodeVersion(EncodeVersion(v)) == v
      <==> !v.has32BitVertexWeights && !v.has32BitEdgeWeights
  {
  }

  /** Two different versions share a word: 32-bit vertex weights are
      announced as 32-bit vertex ids. */
  lemma VersionCollision()
    ensures var ids := Version(true, true, false, true, false, false);
      var weights := Version(true, true, false, false, true, false);
      ids != weights && EncodeVersion(ids) == EncodeVersion(weights) == 8
  {
  }

  /** The packing `DecodeVersion` reads: the same bits 0 to 3, with the
      vertex-weight width at bit 4 and the edge-weight width at bit 5. */
  function EncodeVersionIntended(v: Version): (r: bv64)
    ensures r < 64
    ensures DecodeVersion(r) == v
  {
    var edgeWeightsBit := Flag(v.hasEdgeWeights) ^ 1;
    var vertexWeightsBit := (Flag(v.hasVertexWeights) ^ 1) << 1;
    var edgeIdWidthBit := Flag(v.has32BitEdgeIds) << 2;
    var vertexIdWidthBit := Flag(v.has32BitVertexIds) << 3;
    var vertexWeightWidthBit := Flag(v.has32BitVertexWeights) << 4;
    var edgeWeightWidthBit := Flag(v.has32BitEdgeWeights) << 5;
    vertexWeightsBit | edgeWeightsBit | edgeIdWidthBit
      | vertexIdWidthBit | vertexWeightWidthBit | edgeWeightWidthBit
  }

  /** Every word below 64 is the intended encoding of what it decodes to,
      and the two encoders agree whenever both weight-width flags are false,
      as they are for every file the converters write. */
  lemma IntendedEncoding(x: bv64, v: Version)
    ensures x < 64 ==> EncodeVersionIntended(DecodeVersion(x)) == x
    ensures !v.has32BitVertexWeights && !v.has32BitEdgeWeights ==> EncodeVersionIntended(v) == EncodeVersion(v)
  {
  }

  /** Words 16 to 63 do not survive `EncodeVersion(DecodeVersion(x))`. */
  lemma EncodeDecodeVersionAbove15(x: bv64)
    requires 16 <= x < 64
    ensures EncodeVersion(DecodeVersion(x)) != x
  {
  }

  function VertexIDShift(h: Header): (s: nat)
    ensures s == 2 || s == 3
  {
    if h.version.has32BitVertexIds then 2 else 3
  }

  /** Bytes per vertex id: 4 with a set flag, else 8; always 2^shift. */
  function VertexIDWidth(h: Header): (w: nat)
    ensures w == Pow2(VertexIDShift(h))
    ensures w == 4 <==> h.version.has32BitVertexIds
  {
    if h.version.has32BitVertexIds then 4 else 8
  }

  function EdgeIDShift(h: Header): (s: nat)
    ensures s == 2 || s == 3
  {
    if h.version.has32BitEdgeIds then 2 else 3
  }

  function EdgeIDWidth(h: Header): (w: nat)
    ensures w == Pow2(EdgeIDShift(h))
    ensures w == 4 <==> h.version.has32BitEdgeIds
  {
    if h.version.has32BitEdgeIds then 4 else 8
  }

  function VertexWeightShift(h: Header): (s: nat)
    ensures s == 2 || s == 3
  {
    if h.version.has32BitVertexWeights then 2 else 3
  }

  function VertexWeightWidth(h: Header): (w: nat)
    ensures w == Pow2(VertexWeightShift(h))
    ensures w == 4 <==> h.version.has32BitVertexWeights
  {
    if h.version.has32BitVertexWeights then 4 else 8
  }

  function EdgeWeightShift(h: Header): (s: nat)
    ensures s == 2 || s == 3
  {
    if h.version.has32BitEdgeWeights then 2 else 3
  }

  function EdgeWeightWidth(h: Header): (w: nat)
    ensures w == Pow2(EdgeWeightShift(h))
    ensures w == 4 <==> h.version.has32BitEdgeWeights
  {
    if h.version.has32BitEdgeWeights then 4 else 8
  }

  /** The three header words at the start of the file. */
  function ReadHeader(file: seq<Byte>): (h: Header)
    requires |file| >= HeaderBytes
    ensures h.n < Pow256(8) && h.m < Pow256(8)
  {
    var version := Decode(file[0..8]);
    assert Pow256(8) == 0x1_0000_0000_0000_0000;
    Header(DecodeVersion(version as bv64), Decode(file[8..16]), Decode(file[16..24]))
  }

  /** A file that starts with the three words written by a converter reads back as them. */
  lemma ReadHeaderOfWritten(file: seq<Byte>, version: bv64, n: nat, m: nat)
    requires n < Pow256(8) && m < Pow256(8) && |file| >= HeaderBytes
    requires file[0..8] == Encode(version as nat, 8)
    requires file[8..16] == Encode(n, 8)
    requires file[16..24] == Encode(m, 8)
    ensures ReadHeader(file) == Header(DecodeVersion(version), n, m)
  {
    assert Pow256(8) == 0x1_0000_0000_0000_0000;
    DecodeEncode(version as nat, 8);
    DecodeEncode(n, 8);
    DecodeEncode(m, 8);
  }

  /** The n+1 on-disk offset words, read at edge-id width right after the header. */
  function RawXadj(file: seq<Byte>, h: Header): (raw: seq<nat>)
    requires HeaderBytes + (h.n + 1) * EdgeIDWidth(h) <= |file|
    ensures |raw| == h.n + 1
    ensures forall i :: 0 <= i < |raw| ==> raw[i] < Pow256(EdgeIDWidth(h))
  {
    var w := EdgeIDWidth(h);
    var bytes := file[HeaderBytes .. HeaderBytes + (h.n + 1) * w];
    var raw := DecodeAll(bytes, w, h.n + 1);
    DecodeAllBound(bytes, w, h.n + 1);
    raw
  }

  lemma {:induction false} DecodeAllBound(bs: seq<Byte>, w: nat, k: nat)
    requires |bs| == k * w
    ensures forall i :: 0 <= i < k ==> DecodeAll(bs, w, k)[i] < Pow256(w)
  {
    if k > 0 {
      DecodeAllBound(bs[w..], w, k - 1);
    }
  }

  /** `(x - x[0]) >> shift` on every entry, with the subtraction wrapping at
      the width of the stored words. */
  function Normalized(s: seq<nat>, shift: nat, width: nat): (r: seq<nat>)
    requires |s| > 0
    ensures |r| == |s|
  {
    seq(|s|, i requires 0 <= i < |s| => Rebase(s[i], s[0], shift, width))
  }

  /** One entry of the normalisation: unsigned subtraction at the given
      width, then a right shift. */
  function Rebase(x: nat, offset: nat, shift: nat, width: nat): (r: nat)
    ensures r < Pow256(width)
    ensures offset <= x < offset + Pow256(width) ==> r == ShiftRight(x - offset, shift)
    ensures x == offset ==> r == 0
  {
    ModBelow(x - offset, Pow256(width));
    ShiftRight((x - offset) % Pow256(width), shift)
  }

  /** `x >> k` on an unsigned word. */
  function ShiftRight(x: nat, k: nat): (r: nat)
    ensures r <= x
  {
    if k == 0 then x else ShiftRight(x / 2, k - 1)
  }

  /** The in-place normalisation loop of `ReadXadj`. */
  method NormalizeXadj(xadj: array<nat>, shift: nat, width: nat)
    requires xadj.Length > 0
    modifies xadj
    ensures xadj[..] == Normalized(old(xadj[..]), shift, width)
  {
    ghost var raw := xadj[..];
    var offset := xadj[0];
    var i := 0;
    while i < xadj.Length
      invariant 0 <= i <= xadj.Length
      invariant forall k :: 0 <= k < i ==> xadj[k] == Normalized(raw, shift, width)[k]
      invariant forall k :: i <= k < xadj.Length ==> xadj[k] == raw[k]
    {
      xadj[i] := Rebase(xadj[i], offset, shift, width);
      i := i + 1;
    }
  }

  /** Reads the offset array and normalises it: biased byte offsets become
      logical edge ids. */
  method ReadXadj(file: seq<Byte>, h: Header) returns (xadj: array<nat>)
    requires HeaderBytes + (h.n + 1) * EdgeIDWidth(h) <= |file|
    ensures fresh(xadj)
    ensures xadj[..] == Normalized(RawXadj(file, h), VertexIDShift(h), EdgeIDWidth(h))
  {
    var raw := RawXadj(file, h);
    xadj := new nat[h.n + 1](i requires 0 <= i < h.n + 1 => raw[i]);
    assert xadj[..] == raw;
    NormalizeXadj(xadj, VertexIDShift(h), EdgeIDWidth(h));
  }

  lemma NormalizedStartsAtZero(s: seq<nat>, shift: nat, width: nat)
    requires |s| > 0
    ensures Normalized(s, shift, width)[0] == 0
  {
    ShiftRightMultiple(0, shift);
  }

  /** On non-decreasing words that fit the width, normalisation keeps the order. */
  lemma NormalizedMonotone(s: seq<nat>, shift: nat, width: nat)
    requires |s| > 0
    requires forall i :: 0 <= i < |s| ==> s[i] < Pow256(width)
    requires forall i, j :: 0 <= i <= j < |s| ==> s[i] <= s[j]
    ensures forall i, j :: 0 <= i <= j < |s| ==>
      Normalized(s, shift, width)[i] <= Normalized(s, shift, width)[j]
  {
    var r := Normalized(s, shift, width);
    forall i, j | 0 <= i <= j < |s|
      ensures r[i] <= r[j]
    {
      DivModUnique(s[i] - s[0], Pow256(width), 0, s[i] - s[0]);
      DivModUnique(s[j] - s[0], Pow256(width), 0, s[j] - s[0]);
      ShiftRightMonotone(s[i] - s[0], s[j] - s[0], shift);
    }
  }

  lemma {:induction false} ShiftRightMonotone(a: nat, b: nat, k: nat)
    requires a <= b
    ensures ShiftRight(a, k) <= ShiftRight(b, k)
  {
    if k > 0 {
      ShiftRightMonotone(a / 2, b / 2, k - 1);
    }
  }

  /** Shifting `q * 2^k` right by k gives q. */
  lemma {:induction false} ShiftRightMultiple(q: nat, k: nat)
    ensures ShiftRight(q * Pow2(k), k) == q
  {
    if k > 0 {
      var y := q * Pow2(k - 1);
      MulTwice(q, Pow2(k - 1));
      assert (q * Pow2(k)) / 2 == y;
      ShiftRightMultiple(q, k - 1);
    }
  }

  /** Normalisation undoes the writer's bias: offsets `bias + k[i] * 2^shift`
      with `k[0] = 0` come back as exactly `k`. */
  lemma NormalizedUndoesBias(s: seq<nat>, k: seq<nat>, bias: nat, unit: nat, shift: nat, width: nat)
    requires |s| == |k| > 0 && k[0] == 0 && unit == Pow2(shift)
    requires forall i :: 0 <= i < |k| ==> s[i] == bias + k[i] * unit
    requires forall i :: 0 <= i < |k| ==> s[i] < Pow256(width)
    ensures Normalized(s, shift, width) == k
  {
    forall i | 0 <= i < |k|
      ensures Normalized(s, shift, width)[i] == k[i]
    {
      RebaseBiased(s[i], bias, k[i], shift, width);
    }
  }

  /** One entry `bias + q * 2^shift` that fits the width rebases to q. */
  lemma RebaseBiased(x: nat, bias: nat, q: nat, shift: nat, width: nat)
    requires x == bias + q * Pow2(shift) && x < Pow256(width)
    ensures Rebase(x, bias, shift, width) == q
  {
    ShiftRightMultiple(q, shift);
  }

  /** The bytes of the adjacency data of vertices `[begin, end)` and the number of vertices. */
  datatype AdjncyChunk = AdjncyChunk(data: seq<Byte>, vertices: nat)

  /** Where `ReadAdjncy` seeks: past the header and the offset array, then
      `xadj[begin]` vertex ids into the adjacency array. */
  function AdjncyOffset(h: Header, xadj: seq<nat>, begin: nat): (r: nat)
    requires begin < |xadj|
    ensures var start := HeaderBytes + (h.n + 1) * EdgeIDWidth(h);
      && start <= r
      && (r - start) / VertexIDWidth(h) == xadj[begin]
      && (r - start) % VertexIDWidth(h) == 0
  {
    MulDiv(xadj[begin], VertexIDWidth(h));
    HeaderBytes + (h.n + 1) * EdgeIDWidth(h) + xadj[begin] * VertexIDWidth(h)
  }

  /** The range `[begin, min(end, n))` has offsets in order, and its
      adjacency data lies inside the file. */
  predicate Fetchable(file: seq<Byte>, h: Header, xadj: seq<nat>, begin: nat, end: nat)
  {
    && Min(end, h.n) < |xadj|
    && begin <= Min(end, h.n)
    && xadj[begin] <= xadj[Min(end, h.n)]
    && AdjncyOffset(h, xadj, begin) + (xadj[Min(end, h.n)] - xadj[begin]) * VertexIDWidth(h) <= |file|
  }

  /** Fetches the adjacency data of vertices `[begin, min(end, n))` using the
      normalised offsets. `begin` is not clamped, so it must not exceed the
      clamped end. */
  function ReadAdjncy(file: seq<Byte>, h: Header, xadj: seq<nat>, begin: nat, end: nat): (r: AdjncyChunk)
    requires Fetchable(file, h, xadj, begin, end)
    ensures r.vertices + begin == Min(end, h.n)
    ensures |r.data| == (xadj[Min(end, h.n)] - xadj[begin]) * VertexIDWidth(h)
    ensures r.data == file[AdjncyOffset(h, xadj, begin) .. AdjncyOffset(h, xadj, begin) + |r.data|]
  {
    var last := Min(end, h.n);
    var offset := AdjncyOffset(h, xadj, begin);
    var nbytes := (xadj[last] - xadj[begin]) * VertexIDWidth(h);
    AdjncyChunk(file[offset .. offset + nbytes], last - begin)
  }

  lemma RawXadjDecodes(file: seq<Byte>, h: Header, bytes: seq<Byte>)
    requires HeaderBytes + (h.n + 1) * EdgeIDWidth(h) <= |file|
    requires bytes == file[HeaderBytes .. HeaderBytes + (h.n + 1) * EdgeIDWidth(h)]
    ensures RawXadj(file, h) == DecodeAll(bytes, EdgeIDWidth(h), h.n + 1)
  {
  }

  /** The offset words read back from a file that holds their encoding. */
  lemma RawXadjOfWritten(file: seq<Byte>, h: Header, words: seq<nat>)
    requires EdgeIDWidth(h) == 8 && |words| == h.n + 1
    requires HeaderBytes + (h.n + 1) * 8 <= |file|
    requires file[HeaderBytes .. HeaderBytes + (h.n + 1) * 8] == EncodeAll(words, 8)
    requires forall i :: 0 <= i < |words| ==> words[i] < Pow256(8)
    ensures RawXadj(file, h) == words
  {
    var w := EdgeIDWidth(h);
    var bytes := file[HeaderBytes .. HeaderBytes + (h.n + 1) * w];
    assert bytes == EncodeAll(words, 8);
    DecodeAllEncodeAll(words, 8);
    RawXadjDecodes(file, h, bytes);
  }

  /** The chunk read for `[begin, end)` is the bytes from the start of
      vertex `begin`'s adjacency (`lo` ids after the offset array) to the
      start of vertex `min(end, n)`'s (`hi` ids after it). */
  lemma ReadAdjncyRange(file: seq<Byte>, h: Header, xadj: seq<nat>, begin: nat, end: nat,
                         start: nat, lo: nat, hi: nat, w: nat)
    requires Min(end, h.n) < |xadj| && begin <= Min(end, h.n)
    requires xadj[begin] == lo && xadj[Min(end, h.n)] == hi && lo <= hi && w == VertexIDWidth(h)
    requires start == HeaderBytes + (h.n + 1) * EdgeIDWidth(h) && start + hi * w <= |file|
    ensures Fetchable(file, h, xadj, begin, end)
    ensures start + lo * w <= start + hi * w
    ensures ReadAdjncy(file, h, xadj, begin, end) == AdjncyChunk(file[start + lo * w .. start + hi * w], Min(end, h.n) - begin)
  {
    MulSub(lo, hi, w);
  }
}
