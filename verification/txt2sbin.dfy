/** `txt2sbin`: reads a text edge list, makes every edge undirected by
    orienting it from the smaller to the larger 32-bit id, drops self-loops,
    sorts, removes duplicates and writes the edges as a binary file of
    32-bit id pairs. */
module Txt2Sbin {
  import opened Options
  import opened Bytes
  import opened Edges
  import opened Toker

  /** 2^32: ids are cast to `uint32_t` when read. */
  const U32: nat := 0x1_0000_0000
  /** `sizeof(NodeID)`. */
  const IdBytes: nat := 4

  /** Why a run stops before writing anything: with exit status 1, or, for
      `BadBound` and `CannotReserve`, by an exception nothing catches. */
  datatype Error =
    | Usage            // not exactly three arguments
    | BadBound         // `std::stoull` rejects the edge bound
    | CannotOpenInput
    | CannotOpenOutput
    | CannotReserve    // `reserve` throws for the requested capacity

  /** `max_edges`: the bound, given in billions, times 10^9 in 64-bit
      unsigned arithmetic. It only wraps around past 2^64. */
  function MaxEdges(billions: nat): (r: nat)
    ensures r < U64
    ensures billions * 1_000_000_000 < U64 ==> r == billions * 1_000_000_000
  {
    (billions * 1_000_000_000) % U64
  }

  /** A bound of 18446744074 billion wraps around to a capacity below one billion. */
  lemma MaxEdgesWraps()
    ensures MaxEdges(18_446_744_074) == 290_448_384
  {
  }

  /** The four figures of the closing report. */
  datatype Summary = Summary(read: nat, kept: nat, duplicates: nat, selfLoops: nat)

  datatype Outcome = Failed(error: Error) | Written(file: seq<Byte>, summary: Summary)

  /** What one line contributes to the edge list: the pair with both ids
      truncated to 32 bits, smaller id first, or nothing for a self-loop. */
  function Oriented(p: (nat, nat)): (r: seq<Edge>)
    ensures r == [] <==> p.0 % U32 == p.1 % U32
    ensures r != [] ==>
      && |r| == 1 && r[0].0 < r[0].1 < U32
      && {r[0].0, r[0].1} == {p.0 % U32, p.1 % U32}
  {
    var u, v := p.0 % U32, p.1 % U32;
    if u < v then [(u, v)] else if v < u then [(v, u)] else []
  }

  /** The edge list after the first n lines. */
  function Canonical(ps: seq<(nat, nat)>, n: nat): seq<Edge>
    requires n <= |ps|
  {
    if n == 0 then [] else Canonical(ps, n - 1) + Oriented(ps[n - 1])
  }

  /** Self-loops among the first n lines, after truncation. */
  function SelfLoops(ps: seq<(nat, nat)>, n: nat): nat
    requires n <= |ps|
  {
    if n == 0 then 0 else SelfLoops(ps, n - 1) + (if ps[n - 1].0 % U32 == ps[n - 1].1 % U32 then 1 else 0)
  }

  /** Every line is either kept as an edge or counted as a self-loop. */
  lemma {:induction false} CanonicalCount(ps: seq<(nat, nat)>, n: nat)
    requires n <= |ps|
    ensures |Canonical(ps, n)| + SelfLoops(ps, n) == n
  {
    if n > 0 {
      CanonicalCount(ps, n - 1);
    }
  }

  /** The edge list holds exactly the oriented non-loop lines. */
  lemma CanonicalMembers(ps: seq<(nat, nat)>, n: nat, e: Edge)
    requires n <= |ps|
    ensures e in Canonical(ps, n) <==> exists i :: 0 <= i < n && Oriented(ps[i]) == [e]
  {
    if e in Canonical(ps, n) {
      var i := CanonicalSource(ps, n, e);
    }
    if exists i :: 0 <= i < n && Oriented(ps[i]) == [e] {
      var i :| 0 <= i < n && Oriented(ps[i]) == [e];
      CanonicalHas(ps, n, i, e);
    }
  }

  /** The line an edge of the list comes from. */
  lemma {:induction false} CanonicalSource(ps: seq<(nat, nat)>, n: nat, e: Edge) returns (i: nat)
    requires n <= |ps| && e in Canonical(ps, n)
    ensures i < n && Oriented(ps[i]) == [e]
  {
    var o := Oriented(ps[n - 1]);
    if e in o {
      i := n - 1;
    } else {
      i := CanonicalSource(ps, n - 1, e);
    }
  }

  lemma {:induction false} CanonicalHas(ps: seq<(nat, nat)>, n: nat, i: nat, e: Edge)
    requires i < n <= |ps| && Oriented(ps[i]) == [e]
    ensures e in Canonical(ps, n)
  {
    var front, last := Canonical(ps, n - 1), Oriented(ps[n - 1]);
    assert Canonical(ps, n) == front + last;
    if i < n - 1 {
      CanonicalHas(ps, n - 1, i, e);
      assert e in front;
    } else {
      assert last == [e];
    }
  }

  /** Inserts x before the first element not below it. */
  function Insert(x: Edge, s: seq<Edge>): (r: seq<Edge>)
    ensures |r| == |s| + 1
  {
    if s == [] then [x]
    else if LexLeq(x, s[0]) then [x] + s
    else [s[0]] + Insert(x, s[1..])
  }

  lemma {:induction false} InsertPermutation(x: Edge, s: seq<Edge>)
    ensures multiset(Insert(x, s)) == multiset(s) + multiset{x}
  {
    if s != [] && !LexLeq(x, s[0]) {
      InsertPermutation(x, s[1..]);
      assert s == [s[0]] + s[1..];
    }
  }

  /** Inserting into a sorted list keeps it sorted. */
  lemma {:induction false} InsertSorted(x: Edge, s: seq<Edge>)
    requires LexSorted(s)
    ensures LexSorted(Insert(x, s))
  {
    if s != [] && !LexLeq(x, s[0]) {
      var t := Insert(x, s[1..]);
      InsertSorted(x, s[1..]);
      InsertPermutation(x, s[1..]);
      forall j | 0 <= j < |t|
        ensures LexLeq(s[0], t[j])
      {
        assert t[j] in multiset(t);
        if t[j] != x {
          assert t[j] in multiset(s[1..]);
          var i :| 0 <= i < |s[1..]| && s[1..][i] == t[j];
          assert s[i + 1] == t[j];
        }
      }
      var r := Insert(x, s);
      assert r == [s[0]] + t;
      forall i, j | 0 <= i < j < |r|
        ensures LexLeq(r[i], r[j])
      {
        if i > 0 {
          assert r[i] == t[i - 1] && r[j] == t[j - 1];
        } else {
          assert r[j] == t[j - 1];
        }
      }
    }
  }

  /** The stand-in for the parallel sort: insertion sort. Any algorithm that
      returns a sorted permutation returns this list
      (`SortedPermutationUnique`). */
  function SortEdges(s: seq<Edge>): (r: seq<Edge>)
    ensures |r| == |s|
  {
    if s == [] then [] else Insert(s[0], SortEdges(s[1..]))
  }

  /** The sort returns a sorted permutation of its input. */
  lemma {:induction false} SortEdgesCorrect(s: seq<Edge>)
    ensures multiset(SortEdges(s)) == multiset(s)
    ensures LexSorted(SortEdges(s))
  {
    if s != [] {
      SortEdgesCorrect(s[1..]);
      InsertPermutation(s[0], SortEdges(s[1..]));
      InsertSorted(s[0], SortEdges(s[1..]));
      assert s == [s[0]] + s[1..];
    }
  }

  /** Pairs are totally ordered, so a list has one sorted permutation. */
  lemma {:induction false} SortedPermutationUnique(a: seq<Edge>, b: seq<Edge>)
    requires LexSorted(a) && LexSorted(b) && multiset(a) == multiset(b)
    ensures a == b
  {
    if a != [] {
      SortedHeads(a, b);
      SortedHeads(b, a);
      assert a[0] == b[0];
      TailPermutation(a, b);
      SortedPermutationUnique(a[1..], b[1..]);
      assert a == [a[0]] + a[1..] && b == [b[0]] + b[1..];
    }
  }

  /** The head of a sorted list is at most every element of its permutations. */
  lemma SortedHeads(a: seq<Edge>, b: seq<Edge>)
    requires LexSorted(b) && multiset(a) == multiset(b) && a != []
    ensures b != [] && LexLeq(b[0], a[0])
  {
    assert a[0] in multiset(b);
    var j :| 0 <= j < |b| && b[j] == a[0];
  }

  lemma TailPermutation(a: seq<Edge>, b: seq<Edge>)
    requires a != [] && b != [] && a[0] == b[0] && multiset(a) == multiset(b)
    ensures multiset(a[1..]) == multiset(b[1..])
  {
    assert a == [a[0]] + a[1..] && b == [b[0]] + b[1..];
    forall y
      ensures multiset(a[1..])[y] == multiset(b[1..])[y]
    {
      assert multiset(a)[y] == multiset{a[0]}[y] + multiset(a[1..])[y];
      assert multiset(b)[y] == multiset{b[0]}[y] + multiset(b[1..])[y];
    }
  }

  /** `std::unique` on the first n elements: every run of equal neighbours
      collapsed to its first element. */
  function Dedup(s: seq<Edge>, n: nat): (r: seq<Edge>)
    requires n <= |s|
    ensures |r| <= n
    ensures n > 0 ==> |r| > 0 && r[|r| - 1] == s[n - 1]
  {
    if n == 0 then []
    else if n > 1 && s[n - 1] == s[n - 2] then Dedup(s, n - 1)
    else Dedup(s, n - 1) + [s[n - 1]]
  }

  /** Removing neighbouring duplicates keeps exactly the values there were. */
  lemma {:induction false} DedupMembers(s: seq<Edge>, n: nat, x: Edge)
    requires n <= |s|
    ensures x in Dedup(s, n) <==> x in s[..n]
  {
    if n > 0 {
      DedupMembers(s, n - 1, x);
      assert s[..n] == s[..n - 1] + [s[n - 1]];
      if n > 1 && s[n - 1] == s[n - 2] {
        assert s[n - 2] in Dedup(s, n - 1);
      }
    }
  }

  /** On a sorted list the result is strictly increasing: no duplicates. */
  lemma {:induction false} DedupStrict(s: seq<Edge>, n: nat)
    requires n <= |s| && LexSorted(s)
    ensures LexStrictlySorted(Dedup(s, n))
  {
    if n > 1 {
      DedupStrict(s, n - 1);
      var d := Dedup(s, n - 1);
      if s[n - 1] != s[n - 2] {
        assert LexLess(s[n - 2], s[n - 1]);
        forall i | 0 <= i < |d|
          ensures LexLess(d[i], s[n - 1])
        {
          if i < |d| - 1 {
            assert LexLess(d[i], d[|d| - 1]);
          }
        }
      }
    }
  }

  /** `std::unique` in place: moves the first element of every run of equal
      neighbours to the front and returns how many there are. */
  method Unique(a: array<Edge>) returns (k: nat)
    modifies a
    ensures k <= a.Length
    ensures a[..k] == Dedup(old(a[..]), a.Length)
  {
    if a.Length == 0 {
      return 0;
    }
    ghost var s := a[..];
    var r := 0;
    for i := 1 to a.Length
      invariant r < i
      invariant a[..r + 1] == Dedup(s, i)
      invariant a[i..] == s[i..]
    {
      assert a[i] == s[i] && a[r] == s[i - 1];
      if a[r] != a[i] {
        r := r + 1;
        a[r] := a[i];
        assert a[..r + 1] == a[..r] + [s[i]];
      }
      assert a[i + 1..] == s[i + 1..];
    }
    k := r + 1;
  }

  /** The ids of the edges, back to back, as the output stores them. */
  function EdgeWords(es: seq<Edge>): (r: seq<nat>)
    ensures |r| == 2 * |es|
  {
    if es == [] then [] else [es[0].0, es[0].1] + EdgeWords(es[1..])
  }

  lemma {:induction false} EdgeWordsBounded(es: seq<Edge>)
    requires forall i :: 0 <= i < |es| ==> es[i].0 < U32 && es[i].1 < U32
    ensures forall j :: 0 <= j < |EdgeWords(es)| ==> EdgeWords(es)[j] < U32
  {
    if es != [] {
      EdgeWordsBounded(es[1..]);
    }
  }

  /** A reader of the output file gets the edges back, two 32-bit words each. */
  lemma OutputReadsBack(es: seq<Edge>)
    requires forall i :: 0 <= i < |es| ==> es[i].0 < U32 && es[i].1 < U32
    ensures DecodeAll(EncodeAll(EdgeWords(es), IdBytes), IdBytes, 2 * |es|) == EdgeWords(es)
  {
    assert Pow256(IdBytes) == U32 by {
      assert Pow256(1) == 256;
      assert Pow256(2) == 65536;
      assert Pow256(3) == 16777216;
    }
    EdgeWordsBounded(es);
    DecodeAllEncodeAll(EdgeWords(es), IdBytes);
  }

  /** The edges a run keeps from the lines `ps`. */
  function Kept(ps: seq<(nat, nat)>): seq<Edge>
  {
    var sorted := SortEdges(Canonical(ps, |ps|));
    Dedup(sorted, |sorted|)
  }

  /** What a successful run writes and reports for the lines `ps`. */
  function Converted(ps: seq<(nat, nat)>): Outcome
  {
    var kept := Kept(ps);
    Written(EncodeAll(EdgeWords(kept), IdBytes),
            Summary(|ps|, |kept|, |Canonical(ps, |ps|)| - |kept|, SelfLoops(ps, |ps|)))
  }

  /** The output is the set of undirected edges of the input without
      self-loops, each once, smaller id first, in increasing order; and the
      report accounts for every line. */
  lemma KeptIsEdgeSet(ps: seq<(nat, nat)>)
    ensures var kept := Kept(ps);
      && LexStrictlySorted(kept)
      && (forall i :: 0 <= i < |kept| ==> kept[i].0 < kept[i].1 < U32)
      && (forall e :: e in kept <==> exists i :: 0 <= i < |ps| && Oriented(ps[i]) == [e])
      && |kept| + (|Canonical(ps, |ps|)| - |kept|) + SelfLoops(ps, |ps|) == |ps|
  {
    var sorted := SortEdges(Canonical(ps, |ps|));
    SortEdgesCorrect(Canonical(ps, |ps|));
    DedupStrict(sorted, |sorted|);
    CanonicalCount(ps, |ps|);
    forall e
      ensures e in Kept(ps) <==> exists i :: 0 <= i < |ps| && Oriented(ps[i]) == [e]
    {
      KeptMember(ps, e);
    }
    forall i | 0 <= i < |Kept(ps)|
      ensures Kept(ps)[i].0 < Kept(ps)[i].1 < U32
    {
      KeptMember(ps, Kept(ps)[i]);
      CanonicalShape(ps, |ps|, Kept(ps)[i]);
    }
  }

  /** An edge is kept exactly when some line orients to it. */
  lemma KeptMember(ps: seq<(nat, nat)>, e: Edge)
    ensures e in Kept(ps) <==> e in Canonical(ps, |ps|)
    ensures e in Kept(ps) <==> exists i :: 0 <= i < |ps| && Oriented(ps[i]) == [e]
  {
    var c := Canonical(ps, |ps|);
    var sorted := SortEdges(c);
    SortEdgesCorrect(c);
    DedupMembers(sorted, |sorted|, e);
    assert sorted[..|sorted|] == sorted;
    assert e in sorted <==> e in multiset(sorted);
    assert e in c <==> e in multiset(c);
    CanonicalMembers(ps, |ps|, e);
  }

  /** Every edge of the list has its smaller id first, and both fit 32 bits. */
  lemma {:induction false} CanonicalShape(ps: seq<(nat, nat)>, n: nat, e: Edge)
    requires n <= |ps| && e in Canonical(ps, n)
    ensures e.0 < e.1 < U32
  {
    if e !in Oriented(ps[n - 1]) {
      CanonicalShape(ps, n - 1, e);
    }
  }

  /** Once reading gets stuck, every round reads `(0, 0)`, a self-loop that
      adds no edge, and does not move the cursor: the parsing loop never
      ends. */
  lemma StuckRoundIsSelfLoop(text: seq<char>)
    requires Stuck(text)
    ensures var e := PairsEnd(text, SpacesEnd(text, 0));
      && ScanEnd(text, e) == e && ScanValue(text, e) == 0
      && Oriented((ScanValue(text, e), ScanValue(text, e))) == []
  {
    StuckEnd(text, SpacesEnd(text, 0));
  }

  /** `main`: `args` is the number of command-line arguments, `bound` what
      `std::stoull` makes of the third one (`None` when it throws), `input`
      the text of the input file (`None` when it cannot be opened),
      `outputWritable` whether the output file can be created and
      `reservable` whether `reserve` succeeds for a given capacity. */
  method Run(args: nat, bound: Option<nat>, input: Option<seq<char>>, outputWritable: bool, reservable: nat -> bool)
    returns (result: Outcome)
    requires args == 3 && bound.Some? && input.Some? && outputWritable && reservable(MaxEdges(bound.value))
      ==> !Stuck(input.value)
    ensures args != 3 ==> result == Failed(Usage)
    ensures args == 3 && bound.None? ==> result == Failed(BadBound)
    ensures args == 3 && bound.Some? && input.None? ==> result == Failed(CannotOpenInput)
    ensures args == 3 && bound.Some? && input.Some? && !outputWritable ==> result == Failed(CannotOpenOutput)
    ensures args == 3 && bound.Some? && input.Some? && outputWritable && !reservable(MaxEdges(bound.value))
      ==> result == Failed(CannotReserve)
    ensures args == 3 && bound.Some? && input.Some? && outputWritable && reservable(MaxEdges(bound.value))
      ==> result == Converted(TextPairs(input.value))
  {
    if args != 3 {
      return Failed(Usage);
    }
    if bound.None? {
      return Failed(BadBound);
    }
    var maxEdges := MaxEdges(bound.value);
    if input.None? {
      return Failed(CannotOpenInput);
    }
    if !outputWritable {
      return Failed(CannotOpenOutput);
    }
    if !reservable(maxEdges) {
      return Failed(CannotReserve);
    }
    result := Convert(input.value);
  }

  /** The body of the parsing loop for line k, read as `(line0, line1)`. */
  method AddLine(edges: seq<Edge>, selfLoops: nat, line0: nat, line1: nat, ghost ps: seq<(nat, nat)>, ghost k: nat)
    returns (edges': seq<Edge>, selfLoops': nat)
    requires k < |ps| && ps[k] == (line0, line1)
    requires edges == Canonical(ps, k) && selfLoops == SelfLoops(ps, k)
    ensures edges' == Canonical(ps, k + 1) && selfLoops' == SelfLoops(ps, k + 1)
  {
    var u, v := line0 % U32, line1 % U32;
    edges', selfLoops' := edges, selfLoops;
    if u < v {
      edges' := edges + [(u, v)];
    } else if v < u {
      edges' := edges + [(v, u)];
    } else {
      selfLoops' := selfLoops + 1;
    }
  }

  /** The parsing loop of `main`: the edge list and the self-loop count. */
  method Parse(text: seq<char>) returns (edges: seq<Edge>, selfLoops: nat)
    requires !Stuck(text)
    ensures edges == Canonical(TextPairs(text), |TextPairs(text)|)
    ensures selfLoops == SelfLoops(TextPairs(text), |TextPairs(text)|)
  {
    var toker := new MappedFileToker(text);
    toker.SkipSpaces();
    ghost var ps := TextPairs(text);
    ghost var k := 0;

    edges := [];
    selfLoops := 0;
    while toker.ValidPosition()
      invariant toker.Valid() && toker.contents == text
      invariant toker.position < |text| ==> !IsSpace(text[toker.position])
      invariant PairsEnd(text, toker.position) == |text|
      invariant Remaining(text, toker.position, ps, k)
      invariant edges == Canonical(ps, k)
      invariant selfLoops == SelfLoops(ps, k)
      decreases |text| - toker.position
    {
      PairsStep(text, toker.position);
      assert k < |ps|;
      var line0, line1 := ReadLine(toker, ps, k);
      edges, selfLoops := AddLine(edges, selfLoops, line0, line1, ps, k);
      k := k + 1;
    }
    assert Pairs(text, toker.position) == [];
  }

  /** Parsing, sorting, duplicate removal and the output of `main`. */
  method Convert(text: seq<char>) returns (result: Outcome)
    requires !Stuck(text)
    ensures result == Converted(TextPairs(text))
  {
    var edges, selfLoops := Parse(text);
    CanonicalCount(TextPairs(text), |TextPairs(text)|);

    var sorted := SortEdges(edges);
    var before := |sorted|;
    var a := new Edge[before](i requires 0 <= i < before => sorted[i]);
    assert a[..] == sorted;
    var after := Unique(a);
    var duplicates := before - after;
    var kept := a[..after];
    var file := EncodeAll(EdgeWords(kept), IdBytes);
    result := Written(file, Summary(after + duplicates + selfLoops, after, duplicates, selfLoops));
  }
}
