/** Facts about integer division and remainder that the solver does not find alone. */
module Arith {

  function Min(a: nat, b: nat): nat
  {
    if a <= b then a else b
  }

  /** x = q*d + r with 0 <= r < d fixes the quotient and the remainder. */
  lemma DivModUnique(x: int, d: int, q: int, r: int)
    requires d > 0 && 0 <= r < d && x == q * d + r
    ensures x / d == q && x % d == r
  {
    var q', r' := x / d, x % d;
    assert x == q' * d + r';
    if q' > q {
      MulAtLeast(q', q, d);
      assert false;
    } else if q' < q {
      MulAtLeast(q, q', d);
      assert false;
    }
  }

  /** A remainder leaves a value below the divisor as it is. */
  lemma ModBelow(v: int, d: int)
    requires d > 0
    ensures 0 <= v < d ==> v % d == v
  {
    if 0 <= v < d {
      DivModUnique(v, d, 0, v);
    }
  }

  lemma MulAtLeast(a: int, b: int, d: int)
    requires a > b && d > 0
    ensures a * d - b * d >= d
  {
    var k := a - b;
    assert a * d - b * d == k * d;
    assert k * d == (k - 1) * d + d;
    assert (k - 1) * d >= 0;
  }

  lemma MulMono(a: nat, b: nat, w: nat)
    requires a <= b
    ensures a * w <= b * w
  {
  }

  lemma MulTwice(q: nat, p: nat)
    ensures q * (2 * p) == 2 * (q * p)
  {
  }

  lemma MulSub(a: nat, b: nat, w: nat)
    requires a <= b
    ensures (b - a) * w == b * w - a * w
  {
  }

  /** Multiplying by a positive factor and dividing by it again is the identity. */
  lemma MulDiv(k: nat, e: nat)
    ensures e > 0 ==> (k * e) / e == k && (k * e) % e == 0
  {
    if e > 0 {
      DivModUnique(k * e, e, k, 0);
    }
  }

  lemma MulCancel(a: nat, b: nat, e: nat)
    requires e > 0 && a * e == b * e
    ensures a == b
  {
    MulDiv(a, e);
    MulDiv(b, e);
  }

  /** A byte cursor `i * e` is a multiple of a buffer of `s * e` bytes
      exactly when the record index i is a multiple of s. */
  lemma ModScale(i: nat, s: nat, e: nat)
    requires s > 0 && e > 0
    ensures (i * e) % (s * e) == (i % s) * e
  {
    var q, r := i / s, i % s;
    assert i == q * s + r;
    assert i * e == q * (s * e) + r * e;
    MulMono(r, s - 1, e);
    assert r * e < s * e;
    DivModUnique(i * e, s * e, q, r * e);
  }

  /** Stepping a record index forward by one within a buffer window. */
  lemma ModSucc(i: nat, s: nat)
    requires s > 0
    ensures (i + 1) % s == 0 ==> i % s == s - 1
    ensures (i + 1) % s != 0 ==> (i + 1) % s == i % s + 1
  {
    var q, r := i / s, i % s;
    if r + 1 < s {
      DivModUnique(i + 1, s, q, r + 1);
    } else {
      DivModUnique(i + 1, s, q + 1, 0);
    }
  }

  /** The window of s records that holds index i starts at `i - i % s`; the
      next index stays in that window unless it is a multiple of s, in which
      case it is the end of the window. */
  lemma NextWindow(i: nat, s: nat)
    requires s > 0
    ensures (i + 1) % s != 0 ==> (i + 1) - (i + 1) % s == i - i % s
    ensures (i + 1) % s == 0 ==> i - i % s + s == i + 1
  {
    ModSucc(i, s);
  }

  /** Bytes left in a file, capped at one buffer, as whole records. */
  lemma RecordsToRead(s: nat, e: nat, left: nat)
    requires s > 0 && e > 0
    ensures var n := if s * e <= left * e then s * e else left * e;
      n / e == (if s <= left then s else left) && n == (n / e) * e
  {
    if s <= left {
      MulMono(s, left, e);
      MulDiv(s, e);
    } else {
      MulMono(left, s, e);
      MulDiv(left, e);
      if s * e <= left * e {
        MulMono(left + 1, s, e);
        assert false;
      }
    }
  }

  /** A byte cursor `i * e` sits on a buffer boundary of `s * e` bytes
      exactly when the record index i is a multiple of s. */
  lemma Boundary(i: nat, s: nat, e: nat)
    requires s > 0 && e > 0
    ensures (i * e) % (s * e) == 0 <==> i % s == 0
  {
    ModScale(i, s, e);
    if i % s != 0 {
      MulMono(1, i % s, e);
    }
  }
  /** Adding a multiple of m does not change the remainder. */
  lemma ModPlusMultiple(x: nat, k: nat, m: nat)
    requires m > 0
    ensures (x + k * m) % m == x % m
  {
    assert x + k * m == (x / m + k) * m + x % m;
    DivModUnique(x + k * m, m, x / m + k, x % m);
  }

  /** One step of a decimal accumulator kept modulo m: reducing before the
      step gives the same remainder as reducing after it. */
  lemma ModAccumulate(v: nat, d: nat, m: nat)
    requires m > 0
    ensures ((v % m) * 10 + d) % m == (v * 10 + d) % m
  {
    var q := v / m;
    assert v == q * m + v % m;
    assert v * 10 + d == ((v % m) * 10 + d) + (q * 10) * m;
    ModPlusMultiple((v % m) * 10 + d, q * 10, m);
  }
}
