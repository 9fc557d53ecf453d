/** The text tokenizer shared by the text tools: a cursor over a mapped
    file, moved forward over whitespace, over lines and over unsigned
    decimal numbers. Each moving method is specified by a function on the
    contents that says where the cursor ends up. */
module Toker {
  import opened Arith

  /** `std::isspace` in the C locale: space, and tab through carriage return. */
  predicate IsSpace(c: char)
  {
    c == ' ' || ('\t' <= c <= '\r')
  }

  /** `std::isdigit`. */
  predicate IsDigit(c: char)
  {
    '0' <= c <= '9'
  }

  predicate AllDigits(ds: seq<char>)
  {
    forall i :: 0 <= i < |ds| ==> IsDigit(ds[i])
  }

  /** 2^64: the scanner accumulates in a `uint64_t`. */
  const U64: nat := 0x1_0000_0000_0000_0000

  /** The unbounded value of a run of decimal digits, read left to right. */
  function Value(ds: seq<char>): nat
    requires AllDigits(ds)
  {
    if ds == [] then 0 else Value(ds[..|ds| - 1]) * 10 + (ds[|ds| - 1] as int - '0' as int)
  }

  /** Where a run of whitespace that starts at p ends. */
  function SpacesEnd(s: seq<char>, p: nat): (r: nat)
    requires p <= |s|
    ensures p <= r <= |s|
    ensures forall k :: p <= k < r ==> IsSpace(s[k])
    ensures r < |s| ==> !IsSpace(s[r])
    decreases |s| - p
  {
    if p < |s| && IsSpace(s[p]) then SpacesEnd(s, p + 1) else p
  }

  /** Where a run of digits that starts at p ends. */
  function DigitsEnd(s: seq<char>, p: nat): (r: nat)
    requires p <= |s|
    ensures p <= r <= |s|
    ensures forall k :: p <= k < r ==> IsDigit(s[k])
    ensures AllDigits(s[p..r])
    ensures r < |s| ==> !IsDigit(s[r])
    decreases |s| - p
  {
    if p < |s| && IsDigit(s[p]) then DigitsEnd(s, p + 1) else p
  }

  /** Just past the first line feed at or after p, or the end of the text
      when there is none. */
  function LineEnd(s: seq<char>, p: nat): (r: nat)
    requires p <= |s|
    ensures p <= r <= |s|
    ensures forall k :: p <= k < r - 1 ==> s[k] != '\n'
    ensures r == |s| || (r > p && s[r - 1] == '\n')
    ensures r == |s| && (r == p || s[r - 1] != '\n') ==> forall k :: p <= k < |s| ==> s[k] != '\n'
    decreases |s| - p
  {
    if p == |s| then p else if s[p] == '\n' then p + 1 else LineEnd(s, p + 1)
  }

  /** The number a scan from p returns: the digits there, modulo 2^64. */
  function ScanValue(s: seq<char>, p: nat): (r: nat)
    requires p <= |s|
    ensures r < U64
  {
    Value(s[p..DigitsEnd(s, p)]) % U64
  }

  /** Where a scan from p leaves the cursor: past the digits and the
      whitespace after them. */
  function ScanEnd(s: seq<char>, p: nat): (r: nat)
    requires p <= |s|
    ensures DigitsEnd(s, p) <= r <= |s|
    ensures r < |s| ==> !IsSpace(s[r])
  {
    SpacesEnd(s, DigitsEnd(s, p))
  }

  /** A scan from a character that is neither a digit nor whitespace
      returns 0 and leaves the cursor where it was. */
  lemma ScanStuck(s: seq<char>, p: nat)
    requires p < |s| && !IsDigit(s[p]) && !IsSpace(s[p])
    ensures ScanValue(s, p) == 0 && ScanEnd(s, p) == p
  {
    assert s[p..p] == [];
  }

  /** The value of a digit run followed by one more digit. */
  lemma ValueSnoc(ds: seq<char>, c: char)
    requires AllDigits(ds) && IsDigit(c)
    ensures AllDigits(ds + [c])
    ensures Value(ds + [c]) == Value(ds) * 10 + (c as int - '0' as int)
  {
    assert (ds + [c])[..|ds|] == ds;
  }

  /** One step of `ScanUInt`'s loop keeps the accumulator equal to the
      value of the digits read so far, modulo 2^64. */
  lemma AccumulateStep(s: seq<char>, start: nat, p: nat, number: nat, digit: int)
    requires start <= p < |s| && IsDigit(s[p]) && AllDigits(s[start..p])
    requires number == Value(s[start..p]) % U64 && digit == s[p] as int - '0' as int
    ensures AllDigits(s[start..p + 1])
    ensures (number * 10 + digit) % U64 == Value(s[start..p + 1]) % U64
  {
    assert s[start..p + 1] == s[start..p] + [s[p]];
    var ds := s[start..p];
    ValueSnoc(ds, s[p]);
    var v := Value(ds);
    assert Value(s[start..p + 1]) == v * 10 + digit;
    ModAccumulate(v, digit, U64);
  }

  class MappedFileToker {
    /** The mapped file. */
    const contents: seq<char>
    var position: nat

    ghost predicate Valid()
      reads this
    {
      position <= |contents|
    }

    /** Maps the file and starts at its first byte. */
    constructor(text: seq<char>)
      ensures contents == text && position == 0 && Valid()
    {
      contents := text;
      position := 0;
    }

    /** The cursor is inside the file. At the end of it, by contrast, no
        move goes anywhere and a scan reads 0. */
    predicate ValidPosition()
      reads this
      ensures ValidPosition() ==> Valid() && LineEnd(contents, position) > position
      ensures Valid() && !ValidPosition() ==>
        && SpacesEnd(contents, position) == position
        && LineEnd(contents, position) == position
        && ScanEnd(contents, position) == position
        && ScanValue(contents, position) == 0
    {
      position < |contents|
    }

    /** The character under the cursor: it decides which of the moves
        advances from here. */
    function Current(): (c: char)
      reads this
      requires ValidPosition()
      ensures IsSpace(c) <==> SpacesEnd(contents, position) > position
      ensures IsDigit(c) <==> DigitsEnd(contents, position) > position
      ensures c == '\n' ==> LineEnd(contents, position) == position + 1
      ensures c != '\n' ==> LineEnd(contents, position) == LineEnd(contents, position + 1)
    {
      contents[position]
    }

    /** Unguarded, as in the source: every caller checks `ValidPosition` first. */
    method Advance()
      modifies this
      ensures position == old(position) + 1
    {
      position := position + 1;
    }

    method SkipSpaces()
      requires Valid()
      modifies this
      ensures Valid()
      ensures position == SpacesEnd(contents, old(position))
    {
      while ValidPosition() && IsSpace(Current())
        invariant Valid() && old(position) <= position
        invariant SpacesEnd(contents, position) == SpacesEnd(contents, old(position))
        decreases |contents| - position
      {
        Advance();
      }
    }

    method SkipLine()
      requires Valid()
      modifies this
      ensures Valid()
      ensures position == LineEnd(contents, old(position))
    {
      while ValidPosition() && Current() != '\n'
        invariant Valid() && old(position) <= position
        invariant LineEnd(contents, position) == LineEnd(contents, old(position))
        decreases |contents| - position
      {
        Advance();
      }
      if ValidPosition() {
        Advance();
      }
    }

    /** Reads the digits under the cursor into a 64-bit accumulator that
        wraps around, then skips the whitespace after them. */
    method ScanUInt() returns (number: nat)
      requires Valid()
      modifies this
      ensures Valid()
      ensures number == ScanValue(contents, old(position))
      ensures position == ScanEnd(contents, old(position))
    {
      var start := position;
      number := 0;
      while ValidPosition() && IsDigit(Current())
        invariant Valid() && start <= position
        invariant DigitsEnd(contents, position) == DigitsEnd(contents, start)
        invariant AllDigits(contents[start..position])
        invariant number == Value(contents[start..position]) % U64
        decreases |contents| - position
      {
        var digit := Current() as int - '0' as int;
        AccumulateStep(contents, start, position, number, digit);
        number := (number * 10 + digit) % U64;
        Advance();
      }
      SkipSpaces();
    }

    /** Moves exactly as `ScanUInt` does, without computing the value. */
    method SkipUInt()
      requires Valid()
      modifies this
      ensures Valid()
      ensures position == ScanEnd(contents, old(position))
    {
      while ValidPosition() && IsDigit(Current())
        invariant Valid() && old(position) <= position
        invariant DigitsEnd(contents, position) == DigitsEnd(contents, old(position))
        decreases |contents| - position
      {
        Advance();
      }
      SkipSpaces();
    }
  }

  /** Text made only of digits and whitespace. */
  predicate WellFormed(s: seq<char>)
  {
    forall i :: 0 <= i < |s| ==> IsDigit(s[i]) || IsSpace(s[i])
  }

  /** Where the text tools' reading loop, `u = ScanUInt(); v = ScanUInt();`
      for as long as the cursor is inside the file, stops advancing: the end
      of the text, or the first line start p from which both scans leave the
      cursor at p. From there on every round reads `(0, 0)` and stays put. */
  function PairsEnd(s: seq<char>, p: nat): (r: nat)
    requires p <= |s| && (p < |s| ==> !IsSpace(s[p]))
    ensures p <= r <= |s|
    ensures r < |s| ==> !IsSpace(s[r]) && ScanEnd(s, ScanEnd(s, r)) == r
    decreases |s| - p
  {
    if p == |s| then p
    else
      var next := ScanEnd(s, ScanEnd(s, p));
      if next == p then p else PairsEnd(s, next)
  }

  /** The pairs the reading loop reads from p on while it advances: two
      scans per round, values modulo 2^64, regardless of where lines break.
      A missing last number reads as 0. */
  function Pairs(s: seq<char>, p: nat): seq<(nat, nat)>
    requires p <= |s| && (p < |s| ==> !IsSpace(s[p]))
    decreases |s| - p
  {
    if p == |s| then []
    else
      var q := ScanEnd(s, p);
      var next := ScanEnd(s, q);
      if next == p then [] else [(ScanValue(s, p), ScanValue(s, q))] + Pairs(s, next)
  }

  /** The pairs of a whole text: the tools skip leading whitespace first. */
  function TextPairs(s: seq<char>): seq<(nat, nat)>
  {
    Pairs(s, SpacesEnd(s, 0))
  }

  /** The reading loop stops advancing before the end of the text. */
  predicate Stuck(s: seq<char>)
  {
    PairsEnd(s, SpacesEnd(s, 0)) < |s|
  }

  /** One round of the reading loop from a non-space position p: two scans,
      regardless of where lines break. Either the cursor moves on and the
      pair is the first of those read from p, or neither scan moves it, both
      read 0, and reading stops at p. */
  lemma {:induction false} PairsStep(s: seq<char>, p: nat)
    requires p < |s| && !IsSpace(s[p])
    ensures var q := ScanEnd(s, p);
      var next := ScanEnd(s, q);
      && (next == p ==> q == p && ScanValue(s, p) == 0 && Pairs(s, p) == [] && PairsEnd(s, p) == p)
      && (next != p ==>
            && next > p
            && Pairs(s, p) == [(ScanValue(s, p), ScanValue(s, q))] + Pairs(s, next)
            && PairsEnd(s, p) == PairsEnd(s, next))
      && (q == |s| ==> ScanValue(s, q) == 0)
  {
    var q := ScanEnd(s, p);
    if ScanEnd(s, q) == p {
      assert s[p..DigitsEnd(s, p)] == [];
    }
    if q == |s| {
      assert s[q..DigitsEnd(s, q)] == [];
    }
  }

  /** Where reading stops before the end, the scans read 0 and do not move,
      and no pair is read from there on. */
  lemma {:induction false} StuckEnd(s: seq<char>, p: nat)
    requires p <= |s| && (p < |s| ==> !IsSpace(s[p])) && PairsEnd(s, p) < |s|
    ensures var e := PairsEnd(s, p);
      ScanEnd(s, e) == e && ScanValue(s, e) == 0 && Pairs(s, e) == []
    decreases |s| - p
  {
    PairsStep(s, p);
    var next := ScanEnd(s, ScanEnd(s, p));
    if next != p {
      StuckEnd(s, next);
    }
  }

  /** On text made only of digits and whitespace every round advances, so
      reading reaches the end. */
  lemma {:induction false} WellFormedReadsToEnd(s: seq<char>, p: nat)
    requires WellFormed(s) && p <= |s| && (p < |s| ==> !IsSpace(s[p]))
    ensures PairsEnd(s, p) == |s|
    decreases |s| - p
  {
    if p < |s| {
      PairsStep(s, p);
      assert IsDigit(s[p]);
      assert DigitsEnd(s, p) > p;
      WellFormedReadsToEnd(s, ScanEnd(s, ScanEnd(s, p)));
    }
  }

  /** The text from p on holds exactly the pairs of `es` from index k on. */
  predicate Remaining(text: seq<char>, p: nat, es: seq<(nat, nat)>, k: nat)
    requires p <= |text| && (p < |text| ==> !IsSpace(text[p]))
  {
    k <= |es| && Pairs(text, p) == es[k..]
  }

  /** `u = ScanUInt(); v = ScanUInt();` at a non-space position, where the
      rest of the text holds the pairs from index k on: reads pair k and
      moves on, or, once every pair is read, reads `(0, 0)` and stays. */
  method ReadLine(toker: MappedFileToker, ghost es: seq<(nat, nat)>, ghost k: nat) returns (u: nat, v: nat)
    requires toker.Valid() && toker.ValidPosition() && !IsSpace(toker.Current())
    requires Remaining(toker.contents, toker.position, es, k)
    modifies toker
    ensures toker.Valid()
    ensures toker.position < |toker.contents| ==> !IsSpace(toker.contents[toker.position])
    ensures PairsEnd(toker.contents, toker.position) == PairsEnd(toker.contents, old(toker.position))
    ensures k < |es| ==>
      && toker.position > old(toker.position) && es[k] == (u, v)
      && Remaining(toker.contents, toker.position, es, k + 1)
    ensures k == |es| ==> toker.position == old(toker.position) && u == 0 && v == 0
  {
    PairsStep(toker.contents, toker.position);
    if k < |es| {
      assert es[k..][1..] == es[k + 1..];
    }
    u := toker.ScanUInt();
    v := toker.ScanUInt();
  }
}
