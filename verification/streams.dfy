/** The buffered input side shared by both mergers: one sorted binary edge
    file per stream, read sequentially through a fixed-size buffer, with a
    byte cursor per stream (the `_sizes`, `_curs` and `_bufs` members and the
    `refill`, `get` and `advance` methods of both `Merger` classes). */
module SortedStreams {
  import opened Arith
  import opened Edges

  /** First record index of the window of size s that holds record i. */
  function WindowStart(i: nat, s: nat): nat
    requires s > 0
  {
    i - i % s
  }

  /** `buf` holds the window of `file` that contains record i, and `file` has
      been read up to `pos`, the end of that window. */
  ghost predicate WindowOk(file: seq<Edge>, buf: seq<Edge>, i: nat, pos: nat, s: nat)
    requires s > 0
  {
    var ws := WindowStart(i, s);
    && pos == Min(|file|, ws + s)
    && pos - ws <= |buf|
    && forall k :: 0 <= k < pos - ws ==> buf[k] == file[ws + k]
  }

  /** Inside a window, moving to the next record keeps the same window. */
  lemma WindowStep(file: seq<Edge>, buf: seq<Edge>, i: nat, pos: nat, s: nat)
    requires s > 0 && WindowOk(file, buf, i, pos, s) && (i + 1) % s != 0
    ensures WindowOk(file, buf, i + 1, pos, s)
  {
    NextWindow(i, s);
    assert WindowStart(i + 1, s) == WindowStart(i, s);
  }

  /** Leaving the last record of a full window: the file has been read
      exactly up to the new cursor. */
  lemma WindowEnd(file: seq<Edge>, buf: seq<Edge>, i: nat, pos: nat, s: nat)
    requires s > 0 && WindowOk(file, buf, i, pos, s) && (i + 1) % s == 0 && i < |file|
    ensures pos == i + 1
  {
    NextWindow(i, s);
  }

  class StreamBank {
    /** The contents of the input files, one per stream. */
    const files: seq<seq<Edge>>
    /** Records per buffer (the `buf_size` template parameter). */
    const bufSize: nat
    /** Bytes per record (`sizeof(Edge)`). */
    const edgeBytes: nat
    /** File sizes in bytes. */
    const sizes: seq<nat>
    const bufs: seq<array<Edge>>
    /** Byte cursors: how far each stream has been consumed. */
    var curs: seq<nat>
    /** How many records have been read from each file into its buffer so far
        (the position of the underlying input stream). */
    var readPos: seq<nat>
    /** Record index of each cursor. */
    ghost var idx: seq<nat>

    /** Everything but the buffer contents. */
    ghost predicate Shape()
      reads this
    {
      && bufSize > 0 && edgeBytes > 0
      && |sizes| == |files| && |bufs| == |files|
      && |curs| == |files| && |readPos| == |files| && |idx| == |files|
      && (forall b :: 0 <= b < |files| ==> sizes[b] == |files[b]| * edgeBytes)
      && (forall b :: 0 <= b < |files| ==> bufs[b].Length == bufSize)
      && (forall b, c :: 0 <= b < c < |files| ==> bufs[b] != bufs[c])
      && (forall b :: 0 <= b < |files| ==> curs[b] == idx[b] * edgeBytes && idx[b] <= |files[b]|)
    }

    /** The buffer of stream b holds the window of its file that contains the
        cursor, and the stream has been read up to the end of that window. */
    ghost predicate Windowed(b: nat)
      reads this, bufs
      requires Shape() && b < |files|
    {
      WindowOk(files[b], bufs[b][..], idx[b], readPos[b], bufSize)
    }

    ghost predicate Valid()
      reads this, bufs
    {
      Shape() && forall b :: 0 <= b < |files| ==> Windowed(b)
    }

    /** The record at the cursor of stream b, or the sentinel once it is exhausted. */
    ghost function Head(b: nat): Edge
      reads this
      requires Shape() && b < |files|
    {
      if idx[b] < |files[b]| then files[b][idx[b]] else (MaxNodeId, MaxNodeId)
    }

    constructor (files: seq<seq<Edge>>, bufSize: nat, edgeBytes: nat)
      requires bufSize > 0 && edgeBytes > 0
      ensures Valid()
      ensures this.files == files && this.bufSize == bufSize && this.edgeBytes == edgeBytes
      ensures idx == seq(|files|, b => 0)
      ensures forall b :: 0 <= b < |bufs| ==> fresh(bufs[b])
    {
      var bs: seq<array<Edge>> := [];
      var i := 0;
      while i < |files|
        invariant 0 <= i <= |files| && |bs| == i
        invariant forall b :: 0 <= b < i ==> fresh(bs[b]) && bs[b].Length == bufSize
        invariant forall b, c :: 0 <= b < c < i ==> bs[b] != bs[c]
      {
        var buf := new Edge[bufSize];
        bs := bs + [buf];
        i := i + 1;
      }
      this.files := files;
      this.bufSize := bufSize;
      this.edgeBytes := edgeBytes;
      sizes := seq(|files|, b requires 0 <= b < |files| => |files[b]| * edgeBytes);
      bufs := bs;
      curs := seq(|files|, b => 0);
      readPos := seq(|files|, b => 0);
      idx := seq(|files|, b => 0);
      new;
      var b := 0;
      while b < |files|
        invariant 0 <= b <= |files|
        invariant Shape() && this.files == files && this.bufSize == bufSize && this.edgeBytes == edgeBytes
        invariant idx == seq(|files|, b => 0) && curs == seq(|files|, b => 0)
        invariant forall c :: 0 <= c < b ==> Windowed(c)
        invariant forall c :: b <= c < |files| ==> readPos[c] == 0
        invariant forall c :: 0 <= c < |bufs| ==> fresh(bufs[c])
      {
        var _ := Refill(b);
        b := b + 1;
      }
    }

    /** Reads the next window of stream b into its buffer, unless the cursor
        is at the end of the file: `min(buffer bytes, remaining bytes)` bytes
        from where the previous read stopped. */
    method Refill(b: nat) returns (ok: bool)
      requires Shape() && b < |files|
      requires readPos[b] == idx[b] && idx[b] % bufSize == 0
      modifies this, bufs[b]
      ensures Shape() && Windowed(b)
      ensures ok == (old(idx[b]) < |files[b]|)
      ensures curs == old(curs) && idx == old(idx)
      ensures readPos == old(readPos)[b := Min(|files[b]|, old(idx[b]) + bufSize)]
      ensures forall c :: 0 <= c < |files| && c != b && old(Windowed(c)) ==> Windowed(c)
    {
      if curs[b] == sizes[b] {
        MulCancel(idx[b], |files[b]|, edgeBytes);
        return false;
      }
      ghost var left := |files[b]| - idx[b];
      assert sizes[b] - curs[b] == left * edgeBytes;
      RecordsToRead(bufSize, edgeBytes, left);
      var n := Min(bufSize * edgeBytes, sizes[b] - curs[b]);
      var count := n / edgeBytes;
      assert count == Min(bufSize, left);
      var buf := bufs[b];
      var from := readPos[b];
      forall j | 0 <= j < count {
        buf[j] := files[b][from + j];
      }
      readPos := readPos[b := from + count];
      ok := true;
      assert WindowStart(idx[b], bufSize) == from;
    }

    /** `get` of the k-way merger: the record at the cursor of stream b, or
        the sentinel `(max, max)` when the stream is exhausted. */
    method Get(b: nat) returns (e: Edge)
      requires Valid() && b < |files|
      ensures e == Head(b)
    {
      assert Windowed(b);
      MulDiv(idx[b], edgeBytes);
      if curs[b] == sizes[b] {
        MulCancel(idx[b], |files[b]|, edgeBytes);
        e := (MaxNodeId, MaxNodeId);
      } else {
        e := bufs[b][(curs[b] / edgeBytes) % bufSize];
      }
    }

    /** `get` of the two-way merger: false once stream b is exhausted (the
        caller's edge is then left as it was), else true and the record at
        the cursor. */
    method TryGet(b: nat, prior: Edge) returns (has: bool, e: Edge)
      requires Valid() && b < |files|
      ensures has == (idx[b] < |files[b]|)
      ensures e == if has then files[b][idx[b]] else prior
    {
      assert Windowed(b);
      MulDiv(idx[b], edgeBytes);
      if curs[b] == sizes[b] {
        MulCancel(idx[b], |files[b]|, edgeBytes);
        return false, prior;
      }
      has, e := true, bufs[b][(curs[b] / edgeBytes) % bufSize];
    }

    /** Moves the cursor of stream b past one record, refilling the buffer
        when the cursor reaches a multiple of the buffer size in bytes. */
    method Advance(b: nat)
      requires Valid() && b < |files| && idx[b] < |files[b]|
      modifies this, bufs[b]
      ensures Valid()
      ensures idx == old(idx)[b := old(idx[b]) + 1]
      ensures curs == old(curs)[b := old(curs[b]) + edgeBytes]
    {
      ghost var i := idx[b];
      assert Windowed(b);
      Boundary(i + 1, bufSize, edgeBytes);
      assert curs[b] + edgeBytes == (i + 1) * edgeBytes;
      curs := curs[b := curs[b] + edgeBytes];
      idx := idx[b := i + 1];
      assert Shape();
      assert forall c :: 0 <= c < |files| && c != b ==> old(Windowed(c)) ==> Windowed(c);
      if curs[b] % (bufSize * edgeBytes) == 0 {
        WindowEnd(files[b], bufs[b][..], i, readPos[b], bufSize);
        var _ := Refill(b);
      } else {
        WindowStep(files[b], bufs[b][..], i, readPos[b], bufSize);
      }
    }
  }
}
