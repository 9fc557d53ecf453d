/** The k-way converter `edges2parhip64`: any number of binary edge files,
    each sorted by source, merged by a tournament tree into one ParHiP file
    with 64-bit vertex and edge ids. */
module Edges2Parhip64 {
  import opened Bytes
  import opened Edges
  import opened Parhip
  import opened Csr
  import SortedStreams
  import opened KWayMerge
  import opened Readback

  import opened Options

  /** Why a run stops with exit status 1 before writing anything. */
  datatype Error =
    | Usage                        // fewer than two arguments
    | CannotReadInput(input: nat)  // the first input (by position) that cannot be opened
    | CannotWriteOutput

  datatype Outcome = Failed(error: Error) | Written(file: seq<Byte>)

  /** Records per stream buffer, and ids per adjacency batch. */
  const BufSize: nat := 1048576
  /** `sizeof(Edge)` for a pair of 64-bit ids. */
  const EdgeBytes: nat := 16
  /** `sizeof(NodeID)`. */
  const IdBytes: nat := 8

  /** The converter's own copy of the version packer. Its bit layout is that
      of `EncodeVersion`: bits 0 and 1 say that there are no edge and no
      vertex weights, bit 2 marks 32-bit edge ids, bit 3 32-bit vertex ids
      or 32-bit vertex weights, bit 4 32-bit edge weights, and no higher bit
      is ever set. */
  function BuildVersion(hasVertexWeights: bool, hasEdgeWeights: bool, has32BitEdgeIds: bool,
                        has32BitVertexIds: bool, has32BitVertexWeights: bool, has32BitEdgeWeights: bool): (r: bv64)
    ensures r < 32
    ensures (r & 1 != 0) == !hasEdgeWeights
    ensures (r & 2 != 0) == !hasVertexWeights
    ensures (r & 4 != 0) == has32BitEdgeIds
    ensures (r & 8 != 0) == (has32BitVertexIds || has32BitVertexWeights)
    ensures (r & 16 != 0) == has32BitEdgeWeights
    ensures r == EncodeVersion(Version(hasEdgeWeights, hasVertexWeights, has32BitEdgeIds,
                                       has32BitVertexIds, has32BitVertexWeights, has32BitEdgeWeights))
  {
    var edgeWeightsBit := Flag(hasEdgeWeights) ^ 1;
    var vertexWeightsBit := (Flag(hasVertexWeights) ^ 1) << 1;
    var edgeIdWidthBit := Flag(has32BitEdgeIds) << 2;
    var vertexIdWidthBit := Flag(has32BitVertexIds) << 3;
    var vertexWeightWidthBit := Flag(has32BitVertexWeights) << 3;
    var edgeWeightWidthBit := Flag(has32BitEdgeWeights) << 4;
    vertexWeightsBit | edgeWeightsBit | edgeIdWidthBit
      | vertexIdWidthBit | vertexWeightWidthBit | edgeWeightWidthBit
  }

  /** The word this converter writes: no weights, 64-bit ids. It announces
      8-byte vertex ids and 8-byte edge ids to a reader. */
  lemma VersionWord()
    ensures BuildVersion(false, false, false, false, false, false) == 3
    ensures ConverterFormat(3, IdBytes)
    ensures var h := Header(DecodeVersion(3), 0, 0);
      VertexIDWidth(h) == 8 && EdgeIDWidth(h) == 8 && !h.version.hasEdgeWeights && !h.version.hasVertexWeights
  {
  }

  /** Position of the first input that cannot be opened, or the number of
      inputs when all of them can. */
  function FirstUnreadable(inputs: seq<Option<seq<Edge>>>): (r: nat)
    ensures r <= |inputs|
    ensures forall i :: 0 <= i < r ==> inputs[i].Some?
    ensures r < |inputs| ==> inputs[r].None?
  {
    if inputs == [] then 0
    else if inputs[0].None? then 0
    else 1 + FirstUnreadable(inputs[1..])
  }

  function Contents(inputs: seq<Option<seq<Edge>>>): (files: seq<seq<Edge>>)
    requires forall i :: 0 <= i < |inputs| ==> inputs[i].Some?
    ensures |files| == |inputs|
    ensures forall i :: 0 <= i < |inputs| ==> inputs[i] == Some(files[i])
  {
    seq(|inputs|, i requires 0 <= i < |inputs| => inputs[i].value)
  }

  /** The edges the merger hands to the callback, from the start of every file. */
  function Merged(files: seq<seq<Edge>>): seq<Edge>
    requires |files| >= 1
  {
    KMergeFromStart(files);
    Untag(KMerge(files, seq(|files|, c => 0)))
  }

  lemma KMergeFromStart(files: seq<seq<Edge>>)
    ensures Cursors(files, seq(|files|, c => 0))
  {
  }

  /** `main`: `inputs` are the files named after the output, `None` for one
      that cannot be opened; `outputWritable` says whether the output can be
      created. The checks come in that order and stop the run before
      anything is written. Otherwise two passes of the merger produce the
      header, the offset array and the adjacency array. */
  method Run(inputs: seq<Option<seq<Edge>>>, outputWritable: bool) returns (result: Outcome)
    ensures |inputs| == 0 ==> result == Failed(Usage)
    ensures |inputs| > 0 && FirstUnreadable(inputs) < |inputs|
      ==> result == Failed(CannotReadInput(FirstUnreadable(inputs)))
    ensures |inputs| > 0 && FirstUnreadable(inputs) == |inputs| && !outputWritable
      ==> result == Failed(CannotWriteOutput)
    ensures |inputs| > 0 && FirstUnreadable(inputs) == |inputs| && outputWritable
      ==> result == Written(Layout(Merged(Contents(inputs)), 3, IdBytes))
  {
    if |inputs| == 0 {
      return Failed(Usage);
    }
    var files: seq<seq<Edge>> := [];
    for b := 0 to |inputs|
      invariant |files| == b
      invariant forall i :: 0 <= i < b ==> inputs[i] == Some(files[i])
    {
      if inputs[b].None? {
        return Failed(CannotReadInput(b));
      }
      files := files + [inputs[b].value];
    }
    if !outputWritable {
      return Failed(CannotWriteOutput);
    }
    assert files == Contents(inputs);
    KMergeFromStart(files);

    // First pass: degrees, prefix sums and offsets.
    var bank := new SortedStreams.StreamBank(files, BufSize, EdgeBytes);
    var edges := KWayMerge.ForEachEdge(bank);
    var n, m, xadj := BuildXadj(edges, IdBytes);
    var version := BuildVersion(false, false, false, IdBytes == 4, false, false);
    var out := Encode(version as nat, 8) + Encode(n, 8) + Encode(m, 8) + EncodeAll(xadj[..], 8);

    // Second pass: the targets, in batches.
    var bank' := new SortedStreams.StreamBank(files, BufSize, EdgeBytes);
    var again := KWayMerge.ForEachEdge(bank');
    var adjncy, _ := WriteAdjncy(again, IdBytes, BufSize);
    out := out + adjncy;
    return Written(out);
  }

  /** What a successful run writes, in terms of its inputs: every record of
      every input file exactly once, grouped by source, with `n` one more
      than the largest source below the sentinel. */
  lemma MergedIsSortedPermutation(files: seq<seq<Edge>>)
    requires |files| >= 1 && BelowSentinel(files)
    requires forall c :: 0 <= c < |files| ==> SourceSorted(files[c])
    ensures multiset(Merged(files)) == multiset(Concat(files))
    ensures SourceSorted(Merged(files))
  {
    var zero := seq(|files|, c => 0);
    KMergePermutation(files);
    KMergeSorted(files, zero);
    var t := KMerge(files, zero);
    forall i, j | 0 <= i < j < |Untag(t)|
      ensures Untag(t)[i].0 <= Untag(t)[j].0
    {
      assert LexLeq(Key(t[i]), Key(t[j]));
    }
  }

  /** A reader of the written file finds, for every vertex u, exactly the
      targets of the input edges whose source is u. */
  lemma OutputNeighbours(files: seq<seq<Edge>>, file: seq<Byte>, h: Header, u: nat)
    requires |files| >= 1 && BelowSentinel(files)
    requires forall c :: 0 <= c < |files| ==> SourceSorted(files[c])
    requires file == Layout(Merged(files), 3, IdBytes)
    requires h == Header(DecodeVersion(3), NumVertices(Merged(files)), |Merged(files)|)
    requires u < h.n
    ensures ReadsNeighbours(Merged(files), IdBytes, file, h, u)
  {
    MergedIsSortedPermutation(files);
    VersionWord();
    WrittenNeighbours(Merged(files), 3, IdBytes, file, h, u);
  }
}
