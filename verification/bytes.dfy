/** Fixed-width little-endian words. The converters write raw integer words
    to their binary files; here a file is a byte sequence and every word is
    encoded and decoded explicitly at its width. */
module Bytes {
  import opened Arith

  type Byte = x: int | 0 <= x < 256

  /** 256^w: one more than the largest value a w-byte word holds. */
  function Pow256(w: nat): (r: nat)
    ensures r >= 1
  {
    if w == 0 then 1 else 256 * Pow256(w - 1)
  }

  /** 2^k, for the shift amounts of the ParHiP accessors. */
  function Pow2(k: nat): (r: nat)
    ensures r >= 1
  {
    if k == 0 then 1 else 2 * Pow2(k - 1)
  }

  /** The w low-order bytes of x, least significant first. */
  function Encode(x: nat, w: nat): (r: seq<Byte>)
    ensures |r| == w
  {
    if w == 0 then [] else [(x % 256) as Byte] + Encode(x / 256, w - 1)
  }

  /** The value of a little-endian byte string. */
  function Decode(bs: seq<Byte>): (r: nat)
    ensures r < Pow256(|bs|)
  {
    if bs == [] then 0 else bs[0] + 256 * Decode(bs[1..])
  }

  /** Decoding an encoded word gives the value back whenever it fits the width. */
  lemma {:induction false} DecodeEncode(x: nat, w: nat)
    requires x < Pow256(w)
    ensures Decode(Encode(x, w)) == x
  {
    if w > 0 {
      var e := Encode(x, w);
      assert e[1..] == Encode(x / 256, w - 1);
      DecodeEncode(x / 256, w - 1);
    }
  }

  /** Words of width w, back to back. */
  function EncodeAll(xs: seq<nat>, w: nat): (r: seq<Byte>)
    ensures |r| == |xs| * w
  {
    if xs == [] then [] else Encode(xs[0], w) + EncodeAll(xs[1..], w)
  }

  /** Splits a byte string of k words of width w into those words. */
  function DecodeAll(bs: seq<Byte>, w: nat, k: nat): (r: seq<nat>)
    requires |bs| == k * w
    ensures |r| == k
  {
    if k == 0 then [] else [Decode(bs[..w])] + DecodeAll(bs[w..], w, k - 1)
  }

  lemma {:induction false} EncodeAllAppend(a: seq<nat>, b: seq<nat>, w: nat)
    ensures EncodeAll(a + b, w) == EncodeAll(a, w) + EncodeAll(b, w)
  {
    if a == [] {
      assert a + b == b;
    } else {
      assert (a + b)[1..] == a[1..] + b;
      EncodeAllAppend(a[1..], b, w);
    }
  }

  /** Words i..j of an encoded array occupy exactly bytes i*w..j*w. */
  lemma EncodeAllSlice(xs: seq<nat>, w: nat, i: nat, j: nat)
    requires i <= j <= |xs|
    ensures i * w <= j * w <= |xs| * w
    ensures EncodeAll(xs, w)[i * w .. j * w] == EncodeAll(xs[i..j], w)
  {
    assert xs == xs[..i] + xs[i..j] + xs[j..];
    EncodeAllAppend(xs[..i] + xs[i..j], xs[j..], w);
    EncodeAllAppend(xs[..i], xs[i..j], w);
    MulMono(i, j, w);
    MulMono(j, |xs|, w);
  }

  /** Decoding an encoded array gives the words back when each fits the width. */
  lemma {:induction false} DecodeAllEncodeAll(xs: seq<nat>, w: nat)
    requires forall i :: 0 <= i < |xs| ==> xs[i] < Pow256(w)
    ensures DecodeAll(EncodeAll(xs, w), w, |xs|) == xs
  {
    var e := EncodeAll(xs, w);
    if xs != [] {
      assert e[..w] == Encode(xs[0], w);
      assert e[w..] == EncodeAll(xs[1..], w);
      DecodeEncode(xs[0], w);
      DecodeAllEncodeAll(xs[1..], w);
    }
  }
}
