/** `countstxt`: reads a text edge list, one `u v` pair per line, checks
    that it is sorted lexicographically and counts its edges by kind. */
module CountsTxt {
  import opened Options
  import opened Edges
  import opened Toker
  import Txt2Sbin

  /** The five counters the tool prints. */
  datatype Counts = Counts(edges: nat, multiEdges: nat, forward: nat, selfLoops: nat, backward: nat)

  datatype Outcome =
    | Usage                                               // no input named
    | CannotOpen
    | NotSorted(line: nat, previous: Edge, current: Edge) // the first edge below its predecessor, 1-based
    | Report(counts: Counts)

  /** The edge each edge is compared with: its predecessor, and `(0, 0)`
      for the first one. */
  function Prev(es: seq<Edge>, i: nat): Edge
    requires i <= |es|
  {
    if i == 0 then (0, 0) else es[i - 1]
  }

  /** The counters after the first n edges of `es`, taken in order. An
      edge is a multi-edge when it equals the edge before it. */
  function Tally(es: seq<Edge>, n: nat): (c: Counts)
    requires n <= |es|
    ensures c.edges == n
  {
    if n == 0 then Counts(0, 0, 0, 0, 0)
    else
      var c := Tally(es, n - 1);
      var e := es[n - 1];
      Counts(c.edges + 1,
             c.multiEdges + (if n > 1 && Prev(es, n - 1) == e then 1 else 0),
             c.forward + (if e.0 < e.1 then 1 else 0),
             c.selfLoops + (if e.0 == e.1 then 1 else 0),
             c.backward + (if e.0 > e.1 then 1 else 0))
  }

  /** Every edge is exactly one of forward, self-loop or backward, and
      only edges after the first can repeat their predecessor. */
  lemma {:induction false} TallyPartition(es: seq<Edge>, n: nat)
    requires n <= |es|
    ensures var c := Tally(es, n);
      c.selfLoops + c.forward + c.backward == c.edges
      && c.multiEdges + (if n == 0 then 0 else 1) <= c.edges
  {
    if n > 0 {
      TallyPartition(es, n - 1);
    }
  }

  /** The counters after one more edge, as the reading loop updates them. */
  lemma TallyStep(es: seq<Edge>, k: nat, c: Counts, prev: Edge, e: Edge)
    requires k < |es| && c == Tally(es, k) && prev == Prev(es, k) && e == es[k]
    ensures Tally(es, k + 1) ==
      Counts(k + 1,
             c.multiEdges + (if k > 0 && prev == e then 1 else 0),
             c.forward + (if e.0 < e.1 then 1 else 0),
             c.selfLoops + (if e.0 == e.1 then 1 else 0),
             c.backward + (if e.0 > e.1 then 1 else 0))
  {
  }

  /** A multi-edge is exactly an entry that `std::unique` removes: the
      multi-edges of a list and the length of the list with neighbouring
      duplicates collapsed add up to its length. */
  lemma {:induction false} MultiEdgesAreDuplicates(es: seq<Edge>, n: nat)
    requires n <= |es|
    ensures Tally(es, n).multiEdges + |Txt2Sbin.Dedup(es, n)| == n
  {
    if n > 0 {
      MultiEdgesAreDuplicates(es, n - 1);
    }
  }

  /** Index of the first edge at or after i that lies lexicographically
      below the edge it is compared with, or `|es|` when there is none. */
  function FirstDescent(es: seq<Edge>, i: nat): (r: nat)
    requires i <= |es|
    ensures i <= r <= |es|
    ensures forall j :: i <= j < r ==> !LexLess(es[j], Prev(es, j))
    ensures r < |es| ==> LexLess(es[r], Prev(es, r))
    decreases |es| - i
  {
    if i == |es| then i
    else if LexLess(es[i], Prev(es, i)) then i
    else FirstDescent(es, i + 1)
  }

  /** The first edge is never rejected: no pair lies below `(0, 0)`. */
  lemma FirstEdgeAccepted(es: seq<Edge>)
    requires es != []
    ensures FirstDescent(es, 0) > 0
  {
  }

  /** A list passes the check exactly when it is sorted. */
  lemma {:induction false} NoDescentIffSorted(es: seq<Edge>)
    ensures FirstDescent(es, 0) == |es| <==> LexSorted(es)
  {
    if FirstDescent(es, 0) == |es| {
      AdjacentSorted(es);
    } else {
      var r := FirstDescent(es, 0);
      if r > 0 {
        assert LexLess(es[r], es[r - 1]);
      }
    }
  }

  lemma {:induction false} AdjacentSorted(es: seq<Edge>)
    requires forall i :: 0 < i < |es| ==> LexLeq(es[i - 1], es[i])
    ensures LexSorted(es)
  {
    if |es| > 1 {
      var front := es[..|es| - 1];
      forall i | 0 < i < |front|
        ensures LexLeq(front[i - 1], front[i])
      {
        assert front[i - 1] == es[i - 1] && front[i] == es[i];
      }
      AdjacentSorted(front);
      forall i, j | 0 <= i < j < |es|
        ensures LexLeq(es[i], es[j])
      {
        if j < |es| - 1 {
          assert front[i] == es[i] && front[j] == es[j];
        } else if i < j - 1 {
          assert front[i] == es[i] && front[j - 1] == es[j - 1];
        }
      }
    }
  }

  /** No edge before index k lies below the edge it is compared with. */
  predicate AcceptedBefore(es: seq<Edge>, k: nat)
    requires k <= |es|
  {
    forall i :: 0 <= i < k ==> !LexLess(es[i], Prev(es, i))
  }

  /** What the tool reports for the edge list `es`: the counters exactly
      when the list is sorted, and otherwise the first line whose edge lies
      below its predecessor, all lines before it being sorted. */
  function Verdict(es: seq<Edge>): (r: Outcome)
    ensures r.Report? || r.NotSorted?
    ensures r.Report? <==> LexSorted(es)
    ensures r.NotSorted? ==>
      && 1 <= r.line <= |es|
      && r.current == es[r.line - 1] && r.previous == Prev(es, r.line - 1)
      && LexLess(r.current, r.previous)
      && LexSorted(es[..r.line - 1])
  {
    var k := FirstDescent(es, 0);
    NoDescentIffSorted(es);
    if k < |es| then
      SortedBefore(es, k);
      NotSorted(k + 1, Prev(es, k), es[k])
    else
      Report(Tally(es, |es|))
  }

  /** The edges before the first descent are sorted. */
  lemma SortedBefore(es: seq<Edge>, k: nat)
    requires k <= |es| && AcceptedBefore(es, k)
    ensures LexSorted(es[..k])
  {
    var front := es[..k];
    forall i | 0 < i < |front|
      ensures LexLeq(front[i - 1], front[i])
    {
      assert !LexLess(es[i], Prev(es, i));
    }
    AdjacentSorted(front);
  }

  /** The check stops at the first edge that lies below its predecessor. */
  lemma Rejected(es: seq<Edge>, k: nat, prev: Edge, e: Edge)
    requires k < |es| && AcceptedBefore(es, k) && prev == Prev(es, k) && e == es[k]
    requires LexLess(e, prev)
    ensures Verdict(es) == NotSorted(k + 1, prev, e)
  {
    assert FirstDescent(es, 0) == k;
  }

  lemma AcceptStep(es: seq<Edge>, k: nat)
    requires k < |es| && AcceptedBefore(es, k) && !LexLess(es[k], Prev(es, k))
    ensures AcceptedBefore(es, k + 1)
  {
  }

  lemma Accepted(es: seq<Edge>)
    requires AcceptedBefore(es, |es|)
    ensures Verdict(es) == Report(Tally(es, |es|))
  {
    assert FirstDescent(es, 0) == |es|;
  }

  /** The edges the reading loop compares, in order: the pairs of the text
      and, when reading gets stuck before the end, the `(0, 0)` that every
      round reads from there on. */
  function Compared(text: seq<char>): seq<Edge>
  {
    TextPairs(text) + (if Stuck(text) then [(0, 0)] else [])
  }

  /** The texts on which `main` finishes: those it reads to the end, and
      those on which it rejects an edge before or at the first stuck round. */
  predicate Halts(text: seq<char>)
  {
    !Stuck(text) || Verdict(Compared(text)).NotSorted?
  }

  /** The first descent of a list with one more edge `x`: the old one, or
      `x` itself when it lies below the last edge, or none. */
  lemma {:induction false} FirstDescentSnoc(es: seq<Edge>, x: Edge, i: nat)
    requires i <= |es|
    ensures FirstDescent(es + [x], i) ==
      if FirstDescent(es, i) < |es| then FirstDescent(es, i)
      else if LexLess(x, Prev(es, |es|)) then |es| else |es| + 1
    decreases |es| - i
  {
    var xs := es + [x];
    assert Prev(xs, i) == Prev(es, i);
    if i < |es| {
      assert xs[i] == es[i];
      if !LexLess(es[i], Prev(es, i)) {
        FirstDescentSnoc(es, x, i + 1);
      }
    } else {
      assert xs[i] == x;
      if !LexLess(x, Prev(es, |es|)) {
        assert FirstDescent(xs, i + 1) == |es| + 1;
      }
    }
  }

  /** On text where reading gets stuck, a descent among the pairs read is
      reported as usual. Otherwise the stuck round is compared as `(0, 0)`:
      it is rejected as line `|pairs| + 1` when the last pair read is not
      `(0, 0)`, and when it is, `main` never finishes. */
  lemma StuckVerdict(text: seq<char>)
    requires Stuck(text)
    ensures var ps := TextPairs(text);
      && (FirstDescent(ps, 0) < |ps| ==> Halts(text) && Verdict(Compared(text)) == Verdict(ps))
      && (FirstDescent(ps, 0) == |ps| && Prev(ps, |ps|) != (0, 0) ==>
            Halts(text) && Verdict(Compared(text)) == NotSorted(|ps| + 1, Prev(ps, |ps|), (0, 0)))
      && (FirstDescent(ps, 0) == |ps| && Prev(ps, |ps|) == (0, 0) ==> !Halts(text))
  {
    var ps := TextPairs(text);
    var es := Compared(text);
    FirstDescentSnoc(ps, (0, 0), 0);
    var k := FirstDescent(ps, 0);
    if k < |ps| {
      assert es[k] == ps[k] && Prev(es, k) == Prev(ps, k);
    } else {
      assert es[k] == (0, 0) && Prev(es, k) == Prev(ps, k);
    }
  }

  /** On text the tool finishes, a round at a position p inside the text
      from which no pair is left is the stuck round. Once every pair read is
      accepted, the `(0, 0)` it reads lies below the last pair and is
      rejected. */
  lemma StuckRoundRejected(text: seq<char>, p: nat)
    requires p < |text| && !IsSpace(text[p]) && Pairs(text, p) == []
    requires PairsEnd(text, p) == PairsEnd(text, SpacesEnd(text, 0))
    requires Halts(text) && AcceptedBefore(Compared(text), |TextPairs(text)|)
    ensures var ps, es := TextPairs(text), Compared(text);
      |es| == |ps| + 1 && es[|ps|] == (0, 0) && LexLess((0, 0), Prev(es, |ps|))
  {
    PairsStep(text, p);
    assert Stuck(text);
    var ps := TextPairs(text);
    var es := Compared(text);
    forall i | 0 <= i < |ps|
      ensures !LexLess(ps[i], Prev(ps, i))
    {
      assert es[i] == ps[i] && Prev(es, i) == Prev(ps, i);
    }
    assert Prev(es, |ps|) == Prev(ps, |ps|);
    StuckVerdict(text);
  }

  /** Text made only of digits and whitespace is read to the end. */
  lemma WellFormedHalts(text: seq<char>)
    requires WellFormed(text)
    ensures Halts(text) && Compared(text) == TextPairs(text)
  {
    WellFormedReadsToEnd(text, SpacesEnd(text, 0));
  }

  /** `5 5 x`: the stray `x` stops reading, and the stuck round is rejected
      as line 2. */
  lemma StrayCharacterRejected()
    ensures Verdict(Compared("5 5 x")) == NotSorted(2, (5, 5), (0, 0))
  {
    var s := "5 5 x";
    assert DigitsEnd(s, 0) == 1 && DigitsEnd(s, 2) == 3 && DigitsEnd(s, 4) == 4;
    assert ScanEnd(s, 0) == 2 && ScanEnd(s, 2) == 4 && ScanEnd(s, 4) == 4;
    assert s[0..1] == ['5'] && s[2..3] == ['5'];
    assert ScanValue(s, 0) == 5 && ScanValue(s, 2) == 5;
    assert Pairs(s, 4) == [] && PairsEnd(s, 4) == 4;
    assert TextPairs(s) == [(5, 5)] && Stuck(s);
    StuckVerdict(s);
  }

  /** An empty input holds no pair: the counters are all zero. */
  lemma EmptyInputReported()
    ensures Halts("") && Verdict(Compared("")) == Report(Counts(0, 0, 0, 0, 0))
  {
    assert TextPairs("") == [] && !Stuck("");
  }

  /** `main`: `args` is the number of command-line arguments, `input` the
      text of the file, `None` when it cannot be opened. */
  method Run(args: nat, input: Option<seq<char>>) returns (result: Outcome)
    requires args >= 1 && input.Some? ==> Halts(input.value)
    ensures args < 1 ==> result == Usage
    ensures args >= 1 && input.None? ==> result == CannotOpen
    ensures args >= 1 && input.Some? ==> result == Verdict(Compared(input.value))
  {
    if args < 1 {
      return Usage;
    }
    if input.None? {
      return CannotOpen;
    }
    result := Scan(input.value);
  }

  /** The reading loop of `main`, over the text of the input. The five
      counters are kept together in one `Counts` record. */
  method Scan(text: seq<char>) returns (result: Outcome)
    requires Halts(text)
    ensures result == Verdict(Compared(text))
  {
    var toker := new MappedFileToker(text);
    toker.SkipSpaces();
    ghost var ps := TextPairs(text);
    ghost var es := Compared(text);
    assert ps <= es;

    var prevU: nat, prevV: nat := 0, 0;
    var counts := Counts(0, 0, 0, 0, 0);
    while toker.ValidPosition()
      invariant toker.Valid() && toker.contents == text
      invariant toker.position < |text| ==> !IsSpace(text[toker.position])
      invariant PairsEnd(text, toker.position) == PairsEnd(text, SpacesEnd(text, 0))
      invariant Remaining(text, toker.position, ps, counts.edges)
      invariant counts == Tally(es, counts.edges)
      invariant (prevU, prevV) == Prev(es, counts.edges)
      invariant AcceptedBefore(es, counts.edges)
      decreases |text| - toker.position
    {
      if counts.edges == |ps| {
        StuckRoundRejected(text, toker.position);
      }
      var u, v;
      u, v, counts := ReadAndCount(toker, ps, es, counts, (prevU, prevV));
      if prevU > u || (prevU == u && prevV > v) {
        return NotSorted(counts.edges, (prevU, prevV), (u, v));
      }
      prevU, prevV := u, v;
    }
    assert Pairs(text, toker.position) == [] && es == ps;
    Accepted(es);
    return Report(counts);
  }

  /** One turn of the reading loop up to the order check: the next line is
      read and counted, and the edge it holds either ends the scan with the
      verdict or extends the accepted prefix. */
  method ReadAndCount(toker: MappedFileToker, ghost ps: seq<Edge>, ghost es: seq<Edge>, counts: Counts, prev: Edge)
    returns (u: nat, v: nat, next: Counts)
    requires toker.Valid() && toker.ValidPosition() && !IsSpace(toker.Current())
    requires Remaining(toker.contents, toker.position, ps, counts.edges) && ps <= es
    requires counts.edges == |ps| ==> |es| == |ps| + 1 && es[|ps|] == (0, 0) && LexLess((0, 0), prev)
    requires counts == Tally(es, counts.edges) && prev == Prev(es, counts.edges)
    requires AcceptedBefore(es, counts.edges)
    modifies toker
    ensures toker.Valid()
    ensures toker.position < |toker.contents| ==> !IsSpace(toker.contents[toker.position])
    ensures PairsEnd(toker.contents, toker.position) == PairsEnd(toker.contents, old(toker.position))
    ensures counts.edges < |es| && es[counts.edges] == (u, v)
    ensures next.edges == counts.edges + 1
    ensures next == Tally(es, next.edges)
    ensures LexLess((u, v), prev) ==> Verdict(es) == NotSorted(next.edges, prev, (u, v))
    ensures !LexLess((u, v), prev) ==>
      && toker.position > old(toker.position)
      && Remaining(toker.contents, toker.position, ps, next.edges)
      && AcceptedBefore(es, next.edges)
  {
    u, v := ReadLine(toker, ps, counts.edges);
    next := Count(es, counts, prev, (u, v));
    if LexLess((u, v), prev) {
      Rejected(es, counts.edges, prev, (u, v));
    } else {
      AcceptStep(es, counts.edges);
    }
  }

  /** The counter updates for one more edge `e`, whose predecessor is `prev`. */
  method Count(ghost es: seq<Edge>, c: Counts, prev: Edge, e: Edge) returns (next: Counts)
    requires c.edges < |es| && c == Tally(es, c.edges)
    requires prev == Prev(es, c.edges) && e == es[c.edges]
    ensures next == Tally(es, c.edges + 1)
  {
    TallyStep(es, c.edges, c, prev, e);
    var (u, v) := e;
    var multiEdges := c.multiEdges + (if c.edges > 0 && prev.0 == u && prev.1 == v then 1 else 0);
    var selfLoops := c.selfLoops + (if u == v then 1 else 0);
    var forward := c.forward + (if u < v then 1 else 0);
    var backward := c.backward + (if u > v then 1 else 0);
    next := Counts(c.edges + 1, multiEdges, forward, selfLoops, backward);
  }
}
