/** The METIS text serialiser: a header line `n m/2 [fmt]`, then one line
    per vertex listing its neighbours 1-based, optionally with vertex and
    edge weights. The buffered writer it uses is modelled by the tokens it
    is asked to write; flushing changes nothing the file shows. */
module Metis {
  import opened Options

  /** What one call of the writer appends: an integer in decimal, or a character. */
  datatype Token = Int(value: int) | Char(c: char)

  datatype Header = Header(n: nat, m: nat, hasVertexWeights: bool, hasEdgeWeights: bool)

  /** The text output: everything written so far, as tokens. */
  class TextOutput {
    var tokens: seq<Token>

    constructor()
      ensures tokens == []
    {
      tokens := [];
    }

    method WriteInt(x: int)
      modifies this
      ensures tokens == old(tokens) + [Int(x)]
    {
      tokens := tokens + [Int(x)];
    }

    method WriteChar(c: char)
      modifies this
      ensures tokens == old(tokens) + [Char(c)]
    {
      tokens := tokens + [Char(c)];
    }
  }

  /** A flag written as an integer. */
  function Flag(b: bool): int
  {
    if b then 1 else 0
  }

  /** The header line: `n`, the number of undirected edges and, when there
      are weights, the METIS format code written digit by digit: `1` for
      edge weights only, `1` `0` for vertex weights only, `1` `1` for both. */
  function HeaderTokens(h: Header): seq<Token>
  {
    [Int(h.n), Char(' '), Int(h.m / 2)]
      + (if h.hasVertexWeights then [Char(' '), Int(1), Int(Flag(h.hasEdgeWeights))]
         else if h.hasEdgeWeights then [Char(' '), Int(Flag(h.hasEdgeWeights))]
         else [])
      + [Char('\n')]
  }

  /** A reader of the header line: the vertex count, the edge count (read
      as undirected and doubled), and the weight flags from the format code. */
  function ParseHeader(ts: seq<Token>): Option<Header>
  {
    if |ts| < 4 || !ts[0].Int? || ts[1] != Char(' ') || !ts[2].Int? || ts[0].value < 0 || ts[2].value < 0 then None
    else
      var n, half, rest := ts[0].value, ts[2].value, ts[3..];
      if rest == [Char('\n')] then Some(Header(n, 2 * half, false, false))
      else if rest == [Char(' '), Int(1), Char('\n')] then Some(Header(n, 2 * half, false, true))
      else if |rest| == 4 && rest[..2] == [Char(' '), Int(1)] && rest[2].Int? && 0 <= rest[2].value <= 1 && rest[3] == Char('\n')
      then Some(Header(n, 2 * half, true, rest[2].value == 1))
      else None
  }

  /** `WriteHeader`: the edge count must be even, since every undirected
      edge is stored twice. */
  method WriteHeader(out: TextOutput, header: Header)
    requires header.m % 2 == 0
    modifies out
    ensures out.tokens == old(out.tokens) + HeaderTokens(header)
  {
    out.WriteInt(header.n);
    out.WriteChar(' ');
    out.WriteInt(header.m / 2);
    if header.hasVertexWeights || header.hasEdgeWeights {
      out.WriteChar(' ');
      if header.hasVertexWeights {
        out.WriteInt(Flag(header.hasVertexWeights));
        out.WriteInt(Flag(header.hasEdgeWeights));
      } else {
        out.WriteInt(Flag(header.hasEdgeWeights));
      }
    }
    out.WriteChar('\n');
  }

  /** Reading the header line back gives the header that was written. */
  lemma HeaderReadsBack(h: Header)
    requires h.m % 2 == 0
    ensures ParseHeader(HeaderTokens(h)) == Some(h)
  {
    var ts := HeaderTokens(h);
    assert ts[..3] == [Int(h.n), Char(' '), Int(h.m / 2)];
    if h.hasVertexWeights {
      assert ts[3..] == [Char(' '), Int(1), Int(Flag(h.hasEdgeWeights)), Char('\n')];
    } else if h.hasEdgeWeights {
      assert ts[3..] == [Char(' '), Int(1), Char('\n')];
    } else {
      assert ts[3..] == [Char('\n')];
    }
  }

  /** The arrays of one chunk: `xadj` holds the offsets of vertices 0..n,
      `adjncy` and `ewgt` start at offset `xadj[0]`. Every index the writer
      reads must lie inside them. */
  predicate IndicesOk(n: nat, xadj: seq<nat>, adjncy: seq<nat>, ewgt: Option<seq<int>>)
  {
    n < |xadj| && forall u :: 0 <= u < n ==> RangeOk(xadj, adjncy, ewgt, u)
  }

  /** Every edge of vertex u indexes the chunk. */
  predicate RangeOk(xadj: seq<nat>, adjncy: seq<nat>, ewgt: Option<seq<int>>, u: nat)
    requires u + 1 < |xadj|
  {
    forall e :: xadj[u] <= e < xadj[u + 1] ==> EdgeOk(xadj, adjncy, ewgt, e)
  }

  predicate EdgeOk(xadj: seq<nat>, adjncy: seq<nat>, ewgt: Option<seq<int>>, e: nat)
    requires |xadj| > 0
  {
    xadj[0] <= e && e - xadj[0] < |adjncy| && (ewgt.Some? ==> e - xadj[0] < |ewgt.value|)
  }

  /** The tokens for edge e: its target 1-based, then its weight if any. */
  function EdgeTokens(xadj: seq<nat>, adjncy: seq<nat>, ewgt: Option<seq<int>>, e: nat): seq<Token>
    requires |xadj| > 0 && EdgeOk(xadj, adjncy, ewgt, e)
  {
    [Int(adjncy[e - xadj[0]] + 1), Char(' ')]
      + (if ewgt.Some? then [Int(ewgt.value[e - xadj[0]]), Char(' ')] else [])
  }

  /** The edges of vertex u in order, one token sequence each. A range
      whose end lies below its start is empty. */
  function EdgeList(xadj: seq<nat>, adjncy: seq<nat>, ewgt: Option<seq<int>>, u: nat): (r: seq<seq<Token>>)
    requires u + 1 < |xadj| && RangeOk(xadj, adjncy, ewgt, u)
  {
    var d := if xadj[u] <= xadj[u + 1] then xadj[u + 1] - xadj[u] else 0;
    seq(d, i requires 0 <= i < d => EdgeTokens(xadj, adjncy, ewgt, xadj[u] + i))
  }

  /** The vertex weight and its separator, when there are vertex weights. */
  function WeightTokens(vwgt: Option<seq<int>>, u: nat): seq<Token>
    requires vwgt.Some? ==> u < |vwgt.value|
  {
    if vwgt.Some? then [Int(vwgt.value[u]), Char(' ')] else []
  }

  /** Line u: its weight, its edges, a line feed. */
  function VertexLine(n: nat, xadj: seq<nat>, adjncy: seq<nat>, vwgt: Option<seq<int>>, ewgt: Option<seq<int>>, u: nat): seq<Token>
    requires IndicesOk(n, xadj, adjncy, ewgt) && u < n
    requires vwgt.Some? ==> n <= |vwgt.value|
  {
    WeightTokens(vwgt, u) + Join(EdgeList(xadj, adjncy, ewgt, u)) + [Char('\n')]
  }

  /** The lines of vertices 0 up to (not including) k. */
  function LineList(n: nat, xadj: seq<nat>, adjncy: seq<nat>, vwgt: Option<seq<int>>, ewgt: Option<seq<int>>, k: nat): seq<seq<Token>>
    requires IndicesOk(n, xadj, adjncy, ewgt) && k <= n
    requires vwgt.Some? ==> n <= |vwgt.value|
  {
    seq(k, u requires 0 <= u < k => VertexLine(n, xadj, adjncy, vwgt, ewgt, u))
  }

  /** The pieces written one after the other. */
  function Join<T>(ls: seq<seq<T>>): seq<T>
  {
    if ls == [] then [] else Join(ls[..|ls| - 1]) + ls[|ls| - 1]
  }

  lemma AppendAssoc<T>(a: seq<T>, b: seq<T>, c: seq<T>)
    ensures (a + b) + c == a + (b + c)
  {
  }

  lemma JoinSnoc<T>(ls: seq<seq<T>>, l: seq<T>)
    ensures Join(ls + [l]) == Join(ls) + l
  {
    assert (ls + [l])[..|ls|] == ls;
  }

  /** Writing piece k after the first k pieces of `ls` writes the first k + 1. */
  lemma JoinPrefixStep<T>(written: seq<T>, ls: seq<seq<T>>, k: nat)
    requires k < |ls|
    ensures written + Join(ls[..k]) + ls[k] == written + Join(ls[..k + 1])
  {
    assert ls[..k + 1] == ls[..k] + [ls[k]];
    JoinSnoc(ls[..k], ls[k]);
    AppendAssoc(written, Join(ls[..k]), ls[k]);
  }

  /** `WriteXadjAdjncy`: one line per vertex of the chunk, vertex 0 first. */
  method WriteXadjAdjncy(out: TextOutput, n: nat, xadj: seq<nat>, adjncy: seq<nat>,
                         vwgt: Option<seq<int>>, ewgt: Option<seq<int>>)
    requires IndicesOk(n, xadj, adjncy, ewgt)
    requires vwgt.Some? ==> n <= |vwgt.value|
    modifies out
    ensures out.tokens == old(out.tokens) + Join(LineList(n, xadj, adjncy, vwgt, ewgt, n))
  {
    for u := 0 to n
      invariant out.tokens == old(out.tokens) + Join(LineList(n, xadj, adjncy, vwgt, ewgt, u))
    {
      ghost var prev := Join(LineList(n, xadj, adjncy, vwgt, ewgt, u));
      WriteLine(out, n, xadj, adjncy, vwgt, ewgt, u);
      LineListSnoc(n, xadj, adjncy, vwgt, ewgt, u);
      AppendAssoc(old(out.tokens), prev, VertexLine(n, xadj, adjncy, vwgt, ewgt, u));
    }
  }

  /** The lines up to k + 1 are those up to k and line k. */
  lemma LineListSnoc(n: nat, xadj: seq<nat>, adjncy: seq<nat>, vwgt: Option<seq<int>>, ewgt: Option<seq<int>>, k: nat)
    requires IndicesOk(n, xadj, adjncy, ewgt) && k < n
    requires vwgt.Some? ==> n <= |vwgt.value|
    ensures Join(LineList(n, xadj, adjncy, vwgt, ewgt, k + 1))
      == Join(LineList(n, xadj, adjncy, vwgt, ewgt, k)) + VertexLine(n, xadj, adjncy, vwgt, ewgt, k)
  {
    var lines, line := LineList(n, xadj, adjncy, vwgt, ewgt, k), VertexLine(n, xadj, adjncy, vwgt, ewgt, k);
    var next := LineList(n, xadj, adjncy, vwgt, ewgt, k + 1);
    assert |next| == |lines + [line]|;
    forall i | 0 <= i < |next|
      ensures next[i] == (lines + [line])[i]
    {
    }
    assert next == lines + [line];
    JoinSnoc(lines, line);
  }

  /** One turn of the outer loop of `WriteXadjAdjncy`: line u. */
  method WriteLine(out: TextOutput, n: nat, xadj: seq<nat>, adjncy: seq<nat>,
                   vwgt: Option<seq<int>>, ewgt: Option<seq<int>>, u: nat)
    requires IndicesOk(n, xadj, adjncy, ewgt) && u < n
    requires vwgt.Some? ==> n <= |vwgt.value|
    modifies out
    ensures out.tokens == old(out.tokens) + VertexLine(n, xadj, adjncy, vwgt, ewgt, u)
  {
    if vwgt.Some? {
      out.WriteInt(vwgt.value[u]);
      out.WriteChar(' ');
    }
    ghost var mid := out.tokens;
    WriteEdges(out, xadj, adjncy, ewgt, u);
    out.WriteChar('\n');
    assert out.tokens == old(out.tokens) + (WeightTokens(vwgt, u) + Join(EdgeList(xadj, adjncy, ewgt, u)) + [Char('\n')]);
  }

  /** One turn of the inner loop of `WriteXadjAdjncy`: edge e. */
  method WriteEdge(out: TextOutput, xadj: seq<nat>, adjncy: seq<nat>, ewgt: Option<seq<int>>, e: nat)
    requires |xadj| > 0 && EdgeOk(xadj, adjncy, ewgt, e)
    modifies out
    ensures out.tokens == old(out.tokens) + EdgeTokens(xadj, adjncy, ewgt, e)
  {
    var offset := xadj[0];
    out.WriteInt(adjncy[e - offset] + 1);
    out.WriteChar(' ');
    if ewgt.Some? {
      out.WriteInt(ewgt.value[e - offset]);
      out.WriteChar(' ');
    }
  }

  /** The inner loop of `WriteXadjAdjncy`: the edges of vertex u. */
  method WriteEdges(out: TextOutput, xadj: seq<nat>, adjncy: seq<nat>, ewgt: Option<seq<int>>, u: nat)
    requires u + 1 < |xadj| && RangeOk(xadj, adjncy, ewgt, u)
    modifies out
    ensures out.tokens == old(out.tokens) + Join(EdgeList(xadj, adjncy, ewgt, u))
  {
    var offset := xadj[0];
    ghost var es := EdgeList(xadj, adjncy, ewgt, u);
    var e := xadj[u];
    if xadj[u + 1] < e {
      assert es == [];
      return;
    }
    assert es[..0] == [];
    while e < xadj[u + 1]
      invariant xadj[u] <= e <= xadj[u + 1]
      invariant out.tokens == old(out.tokens) + Join(es[..e - xadj[u]])
      decreases xadj[u + 1] - e
    {
      assert EdgeOk(xadj, adjncy, ewgt, e);
      WriteEdge(out, xadj, adjncy, ewgt, e);
      assert es[e - xadj[u]] == EdgeTokens(xadj, adjncy, ewgt, e);
      JoinPrefixStep(old(out.tokens), es, e - xadj[u]);
      e := e + 1;
    }
    assert es[..e - xadj[u]] == es;
  }

  /** With non-decreasing offsets, the writer stays inside arrays of
      `xadj[n] - xadj[0]` entries: a chunk of the adjacency array with its
      own slice of offsets can be written on its own. */
  lemma MonotoneIndicesOk(n: nat, xadj: seq<nat>, adjncy: seq<nat>, ewgt: Option<seq<int>>)
    requires n < |xadj| && forall u :: 0 <= u < n ==> xadj[u] <= xadj[u + 1]
    requires xadj[n] - xadj[0] <= |adjncy| && (ewgt.Some? ==> xadj[n] - xadj[0] <= |ewgt.value|)
    ensures IndicesOk(n, xadj, adjncy, ewgt)
  {
    forall u | 0 <= u < n
      ensures RangeOk(xadj, adjncy, ewgt, u)
    {
      OffsetsBetween(n, xadj, 0, u);
      OffsetsBetween(n, xadj, u + 1, n);
    }
  }

  lemma {:induction false} OffsetsBetween(n: nat, xadj: seq<nat>, i: nat, j: nat)
    requires n < |xadj| && forall u :: 0 <= u < n ==> xadj[u] <= xadj[u + 1]
    requires i <= j <= n
    ensures xadj[i] <= xadj[j]
    decreases j - i
  {
    if i < j {
      OffsetsBetween(n, xadj, i + 1, j);
    }
  }

  /** Line feeds among the tokens. */
  function Newlines(ts: seq<Token>): nat
  {
    multiset(ts)[Char('\n')]
  }

  /** Pieces with one line feed each hold as many together as there are
      pieces; pieces without one hold none together. */
  lemma {:induction false} JoinNewlines(ls: seq<seq<Token>>, c: nat)
    requires c <= 1 && forall i :: 0 <= i < |ls| ==> Newlines(ls[i]) == c
    ensures Newlines(Join(ls)) == if c == 0 then 0 else |ls|
  {
    if ls != [] {
      var front := ls[..|ls| - 1];
      assert forall i :: 0 <= i < |front| ==> front[i] == ls[i];
      JoinNewlines(front, c);
      assert Join(ls) == Join(front) + ls[|ls| - 1];
      assert multiset(Join(ls)) == multiset(Join(front)) + multiset(ls[|ls| - 1]);
    }
  }

  /** The edges of a line hold no line feed. */
  lemma EdgesNoNewline(xadj: seq<nat>, adjncy: seq<nat>, ewgt: Option<seq<int>>, u: nat)
    requires u + 1 < |xadj| && RangeOk(xadj, adjncy, ewgt, u)
    ensures Newlines(Join(EdgeList(xadj, adjncy, ewgt, u))) == 0
  {
    var es := EdgeList(xadj, adjncy, ewgt, u);
    forall i | 0 <= i < |es|
      ensures Newlines(es[i]) == 0
    {
      assert EdgeOk(xadj, adjncy, ewgt, xadj[u] + i);
      var t := EdgeTokens(xadj, adjncy, ewgt, xadj[u] + i);
      assert multiset(t)[Char('\n')] == 0;
    }
    JoinNewlines(es, 0);
  }

  /** Every vertex line holds exactly one line feed, at its end. */
  lemma VertexLineNewlines(n: nat, xadj: seq<nat>, adjncy: seq<nat>, vwgt: Option<seq<int>>, ewgt: Option<seq<int>>, u: nat)
    requires IndicesOk(n, xadj, adjncy, ewgt) && u < n
    requires vwgt.Some? ==> n <= |vwgt.value|
    ensures var line := VertexLine(n, xadj, adjncy, vwgt, ewgt, u);
      Newlines(line) == 1 && line[|line| - 1] == Char('\n')
  {
    EdgesNoNewline(xadj, adjncy, ewgt, u);
    var w := WeightTokens(vwgt, u);
    assert multiset(w)[Char('\n')] == 0;
    Terminated(w, Join(EdgeList(xadj, adjncy, ewgt, u)));
  }

  /** Two runs without a line feed, then a line feed. */
  lemma Terminated(w: seq<Token>, es: seq<Token>)
    requires Newlines(w) == 0 && Newlines(es) == 0
    ensures var line := w + es + [Char('\n')];
      Newlines(line) == 1 && line[|line| - 1] == Char('\n')
  {
    assert multiset(w + es + [Char('\n')]) == multiset(w) + multiset(es) + multiset([Char('\n')]);
  }

  /** The writer emits exactly n lines, one per vertex, in vertex order. */
  lemma LinesCount(n: nat, xadj: seq<nat>, adjncy: seq<nat>, vwgt: Option<seq<int>>, ewgt: Option<seq<int>>)
    requires IndicesOk(n, xadj, adjncy, ewgt)
    requires vwgt.Some? ==> n <= |vwgt.value|
    ensures Newlines(Join(LineList(n, xadj, adjncy, vwgt, ewgt, n))) == n
  {
    var ls := LineList(n, xadj, adjncy, vwgt, ewgt, n);
    forall u | 0 <= u < n
      ensures Newlines(ls[u]) == 1
    {
      VertexLineNewlines(n, xadj, adjncy, vwgt, ewgt, u);
    }
    JoinNewlines(ls, 1);
  }

  /** The integers among the tokens, in order. */
  function Ints(ts: seq<Token>): seq<int>
  {
    if ts == [] then [] else Ints(ts[..|ts| - 1]) + (if ts[|ts| - 1].Int? then [ts[|ts| - 1].value] else [])
  }

  lemma {:induction false} IntsAppend(a: seq<Token>, b: seq<Token>)
    ensures Ints(a + b) == Ints(a) + Ints(b)
    decreases |b|
  {
    if b != [] {
      assert (a + b)[..|a + b| - 1] == a + b[..|b| - 1];
      IntsAppend(a, b[..|b| - 1]);
    } else {
      assert a + b == a;
    }
  }

  /** The integers of each piece. */
  function IntsEach(ls: seq<seq<Token>>): seq<seq<int>>
  {
    seq(|ls|, i requires 0 <= i < |ls| => Ints(ls[i]))
  }

  /** The integers of pieces written one after the other are those of
      each piece, one after the other. */
  lemma {:induction false} IntsJoin(ls: seq<seq<Token>>)
    ensures Ints(Join(ls)) == Join(IntsEach(ls))
  {
    if ls != [] {
      var front, last := ls[..|ls| - 1], ls[|ls| - 1];
      IntsJoin(front);
      assert Join(ls) == Join(front) + last;
      IntsAppend(Join(front), last);
      assert IntsEach(ls) == IntsEach(front) + [Ints(last)];
      JoinSnoc(IntsEach(front), Ints(last));
    }
  }

  /** Pieces of one element each, one after the other. */
  lemma {:induction false} JoinSingletons<T>(ls: seq<seq<T>>)
    requires forall i :: 0 <= i < |ls| ==> |ls[i]| == 1
    ensures |Join(ls)| == |ls|
    ensures forall i :: 0 <= i < |ls| ==> Join(ls)[i] == ls[i][0]
  {
    if ls != [] {
      var front := ls[..|ls| - 1];
      assert forall i :: 0 <= i < |front| ==> front[i] == ls[i];
      JoinSingletons(front);
    }
  }

  /** Pieces of two elements each, one after the other. */
  lemma {:induction false} JoinPairs<T>(ls: seq<seq<T>>)
    requires forall i :: 0 <= i < |ls| ==> |ls[i]| == 2
    ensures |Join(ls)| == 2 * |ls|
    ensures forall i :: 0 <= i < |ls| ==> Join(ls)[2 * i] == ls[i][0] && Join(ls)[2 * i + 1] == ls[i][1]
  {
    if ls != [] {
      var front := ls[..|ls| - 1];
      assert forall i :: 0 <= i < |front| ==> front[i] == ls[i];
      JoinPairs(front);
    }
  }

  /** The numbers a reader finds for edge e: its target plus one, then
      its weight when there are edge weights. */
  function EdgeNumbers(xadj: seq<nat>, adjncy: seq<nat>, ewgt: Option<seq<int>>, e: nat): seq<int>
    requires |xadj| > 0 && EdgeOk(xadj, adjncy, ewgt, e)
  {
    [adjncy[e - xadj[0]] + 1] + (if ewgt.Some? then [ewgt.value[e - xadj[0]]] else [])
  }

  lemma EdgeInts(xadj: seq<nat>, adjncy: seq<nat>, ewgt: Option<seq<int>>, e: nat)
    requires |xadj| > 0 && EdgeOk(xadj, adjncy, ewgt, e)
    ensures Ints(EdgeTokens(xadj, adjncy, ewgt, e)) == EdgeNumbers(xadj, adjncy, ewgt, e)
  {
    var a := adjncy[e - xadj[0]] + 1;
    IntsAppend([Int(a)], [Char(' ')]);
    if ewgt.Some? {
      var w := ewgt.value[e - xadj[0]];
      IntsAppend([Int(a), Char(' ')], [Int(w), Char(' ')]);
      IntsAppend([Int(w)], [Char(' ')]);
    }
  }

  /** The numbers of each edge of vertex u, edge by edge. */
  lemma EdgeListNumbers(xadj: seq<nat>, adjncy: seq<nat>, ewgt: Option<seq<int>>, u: nat)
    requires u + 1 < |xadj| && RangeOk(xadj, adjncy, ewgt, u)
    ensures forall e :: xadj[u] <= e < xadj[u + 1] ==>
      && EdgeOk(xadj, adjncy, ewgt, e)
      && e - xadj[u] < |EdgeList(xadj, adjncy, ewgt, u)|
      && IntsEach(EdgeList(xadj, adjncy, ewgt, u))[e - xadj[u]] == EdgeNumbers(xadj, adjncy, ewgt, e)
    ensures forall i :: 0 <= i < |IntsEach(EdgeList(xadj, adjncy, ewgt, u))| ==>
      |IntsEach(EdgeList(xadj, adjncy, ewgt, u))[i]| == if ewgt.Some? then 2 else 1
  {
    var es := EdgeList(xadj, adjncy, ewgt, u);
    forall i | 0 <= i < |es|
      ensures |IntsEach(es)[i]| == if ewgt.Some? then 2 else 1
    {
      var e := xadj[u] + i;
      assert EdgeOk(xadj, adjncy, ewgt, e);
      assert es[i] == EdgeTokens(xadj, adjncy, ewgt, e);
      EdgeInts(xadj, adjncy, ewgt, e);
    }
    forall e | xadj[u] <= e < xadj[u + 1]
      ensures EdgeOk(xadj, adjncy, ewgt, e) && e - xadj[u] < |es| && IntsEach(es)[e - xadj[u]] == EdgeNumbers(xadj, adjncy, ewgt, e)
    {
      assert EdgeOk(xadj, adjncy, ewgt, e);
      assert es[e - xadj[u]] == EdgeTokens(xadj, adjncy, ewgt, e);
      EdgeInts(xadj, adjncy, ewgt, e);
    }
  }

  /** Reading the numbers of vertex u's edges back, without edge weights:
      one number per edge, in order, the target plus one. A reader that
      subtracts one recovers the 0-based targets. */
  lemma EdgesReadBack(xadj: seq<nat>, adjncy: seq<nat>, u: nat)
    requires u + 1 < |xadj| && RangeOk(xadj, adjncy, None, u)
    ensures var vs := Ints(Join(EdgeList(xadj, adjncy, None, u)));
      && |vs| == |EdgeList(xadj, adjncy, None, u)|
      && forall e :: xadj[u] <= e < xadj[u + 1] ==>
           EdgeOk(xadj, adjncy, None, e) && vs[e - xadj[u]] == adjncy[e - xadj[0]] + 1
  {
    var es := EdgeList(xadj, adjncy, None, u);
    var ns := IntsEach(es);
    IntsJoin(es);
    EdgeListNumbers(xadj, adjncy, None, u);
    JoinSingletons(ns);
    forall e | xadj[u] <= e < xadj[u + 1]
      ensures EdgeOk(xadj, adjncy, None, e) && Join(ns)[e - xadj[u]] == adjncy[e - xadj[0]] + 1
    {
      assert EdgeOk(xadj, adjncy, None, e);
    }
  }

  /** Reading the numbers of vertex u's edges back, with edge weights: two
      numbers per edge, in order, the target plus one and the weight. */
  lemma WeightedEdgesReadBack(xadj: seq<nat>, adjncy: seq<nat>, ewgt: seq<int>, u: nat)
    requires u + 1 < |xadj| && RangeOk(xadj, adjncy, Some(ewgt), u)
    ensures var vs := Ints(Join(EdgeList(xadj, adjncy, Some(ewgt), u)));
      && |vs| == 2 * |EdgeList(xadj, adjncy, Some(ewgt), u)|
      && forall e :: xadj[u] <= e < xadj[u + 1] ==>
           && EdgeOk(xadj, adjncy, Some(ewgt), e)
           && vs[2 * (e - xadj[u])] == adjncy[e - xadj[0]] + 1
           && vs[2 * (e - xadj[u]) + 1] == ewgt[e - xadj[0]]
  {
    var es := EdgeList(xadj, adjncy, Some(ewgt), u);
    var ns := IntsEach(es);
    IntsJoin(es);
    EdgeListNumbers(xadj, adjncy, Some(ewgt), u);
    JoinPairs(ns);
    forall e | xadj[u] <= e < xadj[u + 1]
      ensures EdgeOk(xadj, adjncy, Some(ewgt), e)
        && Join(ns)[2 * (e - xadj[u])] == adjncy[e - xadj[0]] + 1
        && Join(ns)[2 * (e - xadj[u]) + 1] == ewgt[e - xadj[0]]
    {
      assert EdgeOk(xadj, adjncy, Some(ewgt), e);
    }
  }

  /** The numbers on line u: the vertex weight first, when there is one,
      then the numbers of its edges. */
  lemma VertexLineInts(n: nat, xadj: seq<nat>, adjncy: seq<nat>, vwgt: Option<seq<int>>, ewgt: Option<seq<int>>, u: nat)
    requires IndicesOk(n, xadj, adjncy, ewgt) && u < n
    requires vwgt.Some? ==> n <= |vwgt.value|
    ensures Ints(VertexLine(n, xadj, adjncy, vwgt, ewgt, u))
      == (if vwgt.Some? then [vwgt.value[u]] else []) + Ints(Join(EdgeList(xadj, adjncy, ewgt, u)))
  {
    var w := WeightTokens(vwgt, u);
    var es := Join(EdgeList(xadj, adjncy, ewgt, u));
    IntsAppend(w + es, [Char('\n')]);
    IntsAppend(w, es);
    assert Ints([Char('\n')]) == [];
    if vwgt.Some? {
      IntsAppend([Int(vwgt.value[u])], [Char(' ')]);
      assert w == [Int(vwgt.value[u])] + [Char(' ')];
    }
  }
}
