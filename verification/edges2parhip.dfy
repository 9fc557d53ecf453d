/** The two-way converter `edges2parhip`: a forward and a reverse binary
    edge file of 32-bit ids, each sorted by `(u, v)`, merged pairwise into
    one ParHiP file with 32-bit vertex ids and 64-bit edge ids. The version
    packer is the same code as the k-way converter's and is shared with it. */
module Edges2Parhip {
  import opened Bytes
  import opened Edges
  import opened Parhip
  import opened Csr
  import SortedStreams
  import opened TwoWayMerge
  import opened Readback
  import Edges2Parhip64

  import opened Options

  /** Why a run stops with exit status 1 before writing anything. */
  datatype Error =
    | Usage             // not exactly three arguments
    | OutputExists
    | CannotOpenFirst
    | CannotOpenSecond
    | SizeMismatch      // the two inputs differ in size

  datatype Outcome = Failed(error: Error) | Written(file: seq<Byte>)

  /** Records per stream buffer, and ids per adjacency batch. */
  const BufSize: nat := 1048576
  /** `sizeof(Edge)` for a pair of 32-bit ids. */
  const EdgeBytes: nat := 8
  /** `sizeof(NodeID)`. */
  const IdBytes: nat := 4

  /** The word this converter writes: no weights, 32-bit vertex ids. It
      announces 4-byte vertex ids and 8-byte edge ids to a reader. */
  lemma VersionWord()
    ensures Edges2Parhip64.BuildVersion(false, false, false, true, false, false) == 11
    ensures ConverterFormat(11, IdBytes)
    ensures var h := Header(DecodeVersion(11), 0, 0);
      VertexIDWidth(h) == 4 && EdgeIDWidth(h) == 8 && !h.version.hasEdgeWeights && !h.version.hasVertexWeights
  {
  }

  /** `main`: `args` is the number of command-line arguments, `outputExists`
      whether the output path already names a file, `first` and `second` the
      two inputs (`None` for one that cannot be opened), as records decoded
      from pairs of 32-bit words, so every id is below 2^32; no contract
      here depends on that bound. The checks come in
      that order and stop the run before the output is created. Otherwise
      two passes of the merger produce the header, the offset array and the
      adjacency array. */
  method Run(args: nat, outputExists: bool, first: Option<seq<Edge>>, second: Option<seq<Edge>>)
    returns (result: Outcome)
    ensures args != 3 ==> result == Failed(Usage)
    ensures args == 3 && outputExists ==> result == Failed(OutputExists)
    ensures args == 3 && !outputExists && first.None? ==> result == Failed(CannotOpenFirst)
    ensures args == 3 && !outputExists && first.Some? && second.None? ==> result == Failed(CannotOpenSecond)
    ensures args == 3 && !outputExists && first.Some? && second.Some? && |first.value| != |second.value|
      ==> result == Failed(SizeMismatch)
    ensures args == 3 && !outputExists && first.Some? && second.Some? && |first.value| == |second.value|
      ==> result == Written(Layout(TwoMerge(first.value, second.value), 11, IdBytes))
  {
    if args != 3 {
      return Failed(Usage);
    }
    if outputExists {
      return Failed(OutputExists);
    }
    if first.None? {
      return Failed(CannotOpenFirst);
    }
    if second.None? {
      return Failed(CannotOpenSecond);
    }
    var a, b := first.value, second.value;
    if |a| * EdgeBytes != |b| * EdgeBytes {
      return Failed(SizeMismatch);
    }
    assert a[0..] == a && b[0..] == b;

    // First pass: degrees, prefix sums and offsets.
    var bank := new SortedStreams.StreamBank([a, b], BufSize, EdgeBytes);
    var edges := TwoWayMerge.ForEachEdge(bank);
    var n, m, xadj := BuildXadj(edges, IdBytes);
    var version := Edges2Parhip64.BuildVersion(false, false, false, true, false, false);
    var out := Encode(version as nat, 8) + Encode(n, 8) + Encode(m, 8) + EncodeAll(xadj[..], 8);

    // Second pass: the targets, in batches.
    var bank' := new SortedStreams.StreamBank([a, b], BufSize, EdgeBytes);
    var again := TwoWayMerge.ForEachEdge(bank');
    var adjncy, _ := WriteAdjncy(again, IdBytes, BufSize);
    out := out + adjncy;
    return Written(out);
  }

  /** What a successful run writes, in terms of its inputs: every record of
      both files exactly once, in lexicographic order. */
  lemma MergedIsSortedPermutation(a: seq<Edge>, b: seq<Edge>)
    requires LexSorted(a) && LexSorted(b)
    ensures multiset(TwoMerge(a, b)) == multiset(a) + multiset(b)
    ensures |TwoMerge(a, b)| == |a| + |b|
    ensures LexSorted(TwoMerge(a, b))
  {
    TwoMergePermutation(a, b);
    TwoMergeSorted(a, b);
  }

  /** A reader of the written file finds, for every vertex u, exactly the
      targets of the input edges whose source is u, in ascending order. */
  lemma OutputNeighbours(a: seq<Edge>, b: seq<Edge>, file: seq<Byte>, h: Header, u: nat)
    requires LexSorted(a) && LexSorted(b)
    requires file == Layout(TwoMerge(a, b), 11, IdBytes)
    requires h == Header(DecodeVersion(11), NumVertices(TwoMerge(a, b)), |TwoMerge(a, b)|)
    requires u < h.n
    ensures ReadsNeighbours(TwoMerge(a, b), IdBytes, file, h, u)
  {
    TwoMergeSorted(a, b);
    LexSortedIsSourceSorted(TwoMerge(a, b));
    VersionWord();
    WrittenNeighbours(TwoMerge(a, b), 11, IdBytes, file, h, u);
  }
}
