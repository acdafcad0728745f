/** Runes from bytes that arrive in pieces: UTF-8 with its cut-off ends, and UTF-16 turned into UTF-8. */
module Unicode {
  type Bytes = seq<int>

  const REPLACEMENT := 0xFFFD

  // ------------------------------------------------------------------ UTF-8

  /** How many bytes a rune has that begins with this one; one also where no rune begins so. */
  function Need(first: int): (n: int)
    ensures 1 <= n <= 4
  {
    if first < 0xC2 then 1 else if first < 0xE0 then 2 else if first < 0xF0 then 3 else if first < 0xF5 then 4 else 1
  }

  /** The second bytes that may follow. */
  function Low(first: int): int
  {
    if first == 0xE0 then 0xA0 else if first == 0xF0 then 0x90 else 0x80
  }

  function High(first: int): int
  {
    if first == 0xED then 0x9F else if first == 0xF4 then 0x8F else 0xBF
  }

  predicate Second(first: int, b: int)
  {
    Low(first) <= b <= High(first)
  }

  predicate Later(b: int)
  {
    0x80 <= b <= 0xBF
  }

  /** Enough bytes to tell the first rune, be it a malformed one. */
  predicate FullRune(b: Bytes)
  {
    |b| > 0
    && (|b| >= Need(b[0]) || (|b| > 1 && !Second(b[0], b[1])) || (|b| > 2 && !Later(b[2])))
  }

  /** The first rune and how many bytes it takes. */
  function DecodeRune(b: Bytes): (r: (int, int))
    requires b != []
    ensures 1 <= r.1 <= |b|
  {
    var n := Need(b[0]);
    if n == 1 then (if b[0] < 0x80 then b[0] else REPLACEMENT, 1)
    else if |b| < n || !Second(b[0], b[1]) then (REPLACEMENT, 1)
    else if n == 2 then ((b[0] % 32) * 64 + b[1] % 64, 2)
    else if !Later(b[2]) then (REPLACEMENT, 1)
    else if n == 3 then ((b[0] % 16) * 4096 + (b[1] % 64) * 64 + b[2] % 64, 3)
    else if !Later(b[3]) then (REPLACEMENT, 1)
    else ((b[0] % 8) * 262144 + (b[1] % 64) * 4096 + (b[2] % 64) * 64 + b[3] % 64, 4)
  }

  /** More bytes do not change a rune that is full. */
  lemma FullStays(b: Bytes, more: Bytes)
    requires FullRune(b)
    ensures FullRune(b + more) && DecodeRune(b + more) == DecodeRune(b)
  {
    var all := b + more;
    assert all[0] == b[0] && (|b| > 1 ==> all[1] == b[1]) && (|b| > 2 ==> all[2] == b[2]) && (|b| > 3 ==> all[3] == b[3]);
  }

  /** The runes that the bytes hold. */
  function Runes(b: Bytes): seq<int>
    decreases |b|
  {
    if !FullRune(b) then [] else [DecodeRune(b).0] + Runes(b[DecodeRune(b).1..])
  }

  /** The bytes after the last full rune. */
  function CutOff(b: Bytes): (r: Bytes)
    ensures !FullRune(r) && |r| <= 3
    decreases |b|
  {
    if !FullRune(b) then b else CutOff(b[DecodeRune(b).1..])
  }

  /** Bytes that come in two pieces hold the runes of the first, then those of its cut-off end with the second. */
  lemma {:induction false} RunesSplit(a: Bytes, b: Bytes)
    ensures Runes(a + b) == Runes(a) + Runes(CutOff(a) + b)
    ensures CutOff(a + b) == CutOff(CutOff(a) + b)
    decreases |a|
  {
    if FullRune(a) {
      FullStays(a, b);
      var (r, n) := DecodeRune(a);
      assert (a + b)[n..] == a[n..] + b;
      RunesSplit(a[n..], b);
    }
  }

  function EncodeRune(r: int): Bytes
  {
    if r < 0 || r > 0x10FFFF || 0xD800 <= r <= 0xDFFF then EncodeRune3(REPLACEMENT)
    else if r < 0x80 then [r]
    else if r < 0x800 then [0xC0 + r / 64, 0x80 + r % 64]
    else if r < 0x10000 then EncodeRune3(r)
    else [0xF0 + r / 262144, 0x80 + r / 4096 % 64, 0x80 + r / 64 % 64, 0x80 + r % 64]
  }

  function EncodeRune3(r: int): Bytes
  {
    [0xE0 + r / 4096, 0x80 + r / 64 % 64, 0x80 + r % 64]
  }

  predicate IsScalar(r: int)
  {
    0 <= r <= 0x10FFFF && !(0xD800 <= r <= 0xDFFF)
  }

  /** A number in base 64. */
  lemma Digits(r: int)
    requires 0 <= r <= 0x10FFFF
    ensures r == r / 64 * 64 + r % 64 && r / 64 == r / 4096 * 64 + r / 64 % 64 && r / 4096 == r / 262144 * 64 + r / 4096 % 64
  {
    assert r / 4096 == r / 64 / 64 && r / 262144 == r / 4096 / 64;
  }

  lemma Decode3(s: Bytes, r: int)
    requires 0x800 <= r < 0x10000 && IsScalar(r) && EncodeRune3(r) <= s
    ensures FullRune(s) && DecodeRune(s) == (r, 3)
  {
    var x, y, z := r / 4096, r / 64 % 64, r % 64;
    assert r == x * 4096 + y * 64 + z by { Digits(r); }
    assert s[0] == 0xE0 + x && s[1] == 0x80 + y && s[2] == 0x80 + z;
    assert s[0] % 16 == x && s[1] % 64 == y && s[2] % 64 == z;
    assert Second(s[0], s[1]);
  }

  lemma Decode4(s: Bytes, r: int)
    requires 0x10000 <= r <= 0x10FFFF && EncodeRune(r) <= s
    ensures FullRune(s) && DecodeRune(s) == (r, 4)
  {
    var w, x, y, z := r / 262144, r / 4096 % 64, r / 64 % 64, r % 64;
    assert r == w * 262144 + x * 4096 + y * 64 + z by { Digits(r); }
    assert s[0] == 0xF0 + w && s[1] == 0x80 + x && s[2] == 0x80 + y && s[3] == 0x80 + z;
    assert s[0] % 8 == w && s[1] % 64 == x && s[2] % 64 == y && s[3] % 64 == z;
    assert Second(s[0], s[1]);
  }

  /** A rune written is the rune read, whatever follows. */
  lemma EncodeDecode(r: int, rest: Bytes)
    requires IsScalar(r)
    ensures FullRune(EncodeRune(r) + rest) && DecodeRune(EncodeRune(r) + rest) == (r, |EncodeRune(r)|)
    ensures Runes(EncodeRune(r) + rest) == [r] + Runes(rest)
  {
    var s := EncodeRune(r) + rest;
    if r >= 0x800 {
      if r < 0x10000 { Decode3(s, r); } else { Decode4(s, r); }
    }
    assert s[|EncodeRune(r)|..] == rest;
  }

  // ------------------------------------------------------------------ UTF-16

  predicate IsHigh(v: int)
  {
    0xD800 <= v <= 0xDBFF
  }

  predicate IsLow(v: int)
  {
    0xDC00 <= v <= 0xDFFF
  }

  function Unit(b0: int, b1: int, littleEndian: bool): int
  {
    if littleEndian then b1 * 256 + b0 else b0 * 256 + b1
  }

  function Pair(high: int, low: int): int
  {
    if IsLow(low) then (high - 0xD800) * 1024 + (low - 0xDC00) + 0x10000 else REPLACEMENT
  }

  /** What the converter has made of the units so far: text, and a high surrogate that waits for its other half
      (zero for none). */
  datatype Wide = Wide(text: Bytes, high: int)

  function Next(w: Wide, v: int): Wide
  {
    if w.high != 0 then
      var text := w.text + EncodeRune(Pair(w.high, v));
      if IsLow(v) then Wide(text, 0) else Fresh(text, v)
    else Fresh(w.text, v)
  }

  function Fresh(text: Bytes, v: int): Wide
  {
    if IsHigh(v) then Wide(text, v) else Wide(text + EncodeRune(v), 0)
  }

  /** The text of the units, in order; a last odd byte is not part of it. */
  function Convert(w: Wide, b: Bytes, littleEndian: bool): Wide
    decreases |b|
  {
    if |b| < 2 then w else Convert(Next(w, Unit(b[0], b[1], littleEndian)), b[2..], littleEndian)
  }

  function Odd(b: Bytes): Bytes
  {
    if |b| % 2 == 0 then [] else [b[|b| - 1]]
  }

  /** Units that come in two pieces are those of the first, then those of its odd byte with the second. */
  lemma {:induction false} ConvertSplit(w: Wide, a: Bytes, b: Bytes, littleEndian: bool)
    ensures Convert(w, a + b, littleEndian) == Convert(Convert(w, a, littleEndian), Odd(a) + b, littleEndian)
    ensures Odd(a + b) == Odd(Odd(a) + b)
    decreases |a|
  {
    if |a| < 2 {
      assert Odd(a) == a;
    } else {
      OddTail(a);
      OddTail(a + b);
      assert (a + b)[2..] == a[2..] + b;
      ConvertSplit(Next(w, Unit(a[0], a[1], littleEndian)), a[2..], b, littleEndian);
    }
  }

  lemma OddTail(b: Bytes)
    requires |b| >= 2
    ensures Odd(b[2..]) == Odd(b)
  {}

  // ------------------------------------------------------------------ the runes of UTF-16

  /** What a unit adds, by the definition of UTF-16: a rune, two, or none yet; a half without its other half
      is a replacement. */
  function NextRunes(high: int, v: int): seq<int>
  {
    if high != 0 then (if IsLow(v) then [Pair(high, v)] else [REPLACEMENT] + FreshRunes(v)) else FreshRunes(v)
  }

  function FreshRunes(v: int): seq<int>
  {
    if IsHigh(v) then [] else [if IsLow(v) then REPLACEMENT else v]
  }

  lemma Whole(text: Bytes, r: int)
    requires CutOff(text) == [] && (IsScalar(r) || IsLow(r))
    ensures CutOff(text + EncodeRune(r)) == []
    ensures Runes(text + EncodeRune(r)) == Runes(text) + [if IsLow(r) then REPLACEMENT else r]
  {
    var s := if IsLow(r) then REPLACEMENT else r;
    RunesSplit(text, EncodeRune(r));
    EncodeDecode(s, []);
    assert EncodeRune(s) == EncodeRune(r) && EncodeRune(s) + [] == EncodeRune(s) && [] + EncodeRune(r) == EncodeRune(r);
    assert EncodeRune(r)[|EncodeRune(r)|..] == [];
  }

  /** One unit more: the text reads as before, and then as what the unit adds. */
  lemma WideReads(w: Wide, v: int)
    requires CutOff(w.text) == [] && (w.high == 0 || IsHigh(w.high)) && 0 <= v < 0x10000
    ensures var n := Next(w, v);
      CutOff(n.text) == [] && (n.high == 0 || IsHigh(n.high)) && Runes(n.text) == Runes(w.text) + NextRunes(w.high, v)
  {
    if w.high != 0 {
      var first := Pair(w.high, v);
      Whole(w.text, first);
      var text := w.text + EncodeRune(first);
      if !IsLow(v) && !IsHigh(v) { Whole(text, v); }
    } else if !IsHigh(v) {
      Whole(w.text, v);
    }
  }

  function Units(b: Bytes, littleEndian: bool): seq<int>
    decreases |b|
  {
    if |b| < 2 then [] else [Unit(b[0], b[1], littleEndian)] + Units(b[2..], littleEndian)
  }

  /** UTF-16 as it is defined, without a state: a high surrogate and the low one behind it are one rune, any other
      surrogate is a replacement, and a high one at the end is not a rune yet. */
  function Utf16(units: seq<int>): seq<int>
    decreases |units|
  {
    if units == [] || (|units| == 1 && IsHigh(units[0])) then []
    else if IsHigh(units[0]) then
      if IsLow(units[1]) then [Pair(units[0], units[1])] + Utf16(units[2..]) else [REPLACEMENT] + Utf16(units[1..])
    else [if IsLow(units[0]) then REPLACEMENT else units[0]] + Utf16(units[1..])
  }

  /** The unit that waits, if any. */
  function Waiting(high: int): seq<int>
  {
    if high == 0 then [] else [high]
  }

  lemma UnitTaken(high: int, v: int, next: int, units: seq<int>)
    requires high == 0 || IsHigh(high)
    requires next == if IsHigh(v) then v else 0
    ensures Utf16(Waiting(high) + ([v] + units)) == NextRunes(high, v) + Utf16(Waiting(next) + units)
  {
    var more := [v] + units;
    assert more[1..] == units;
    FreshTaken(v, next, units);
    if high != 0 {
      var all := [high] + more;
      assert all[1..] == more && all[2..] == units;
      assert IsLow(v) ==> Waiting(next) + units == units;
    } else {
      assert Waiting(high) + more == more;
    }
  }

  lemma FreshTaken(v: int, next: int, units: seq<int>)
    requires next == if IsHigh(v) then v else 0
    ensures Utf16([v] + units) == FreshRunes(v) + Utf16(Waiting(next) + units)
  {
    assert ([v] + units)[1..] == units;
    if IsHigh(v) { assert Waiting(next) == [v]; } else { assert Waiting(next) + units == units; }
  }

  /** The converter is between runes. */
  predicate Ready(w: Wide)
  {
    CutOff(w.text) == [] && (w.high == 0 || IsHigh(w.high))
  }

  lemma NextReads(w: Wide, v: int, units: seq<int>)
    requires Ready(w) && 0 <= v < 0x10000
    ensures var n := Next(w, v);
      && Ready(n) && n.high == (if IsHigh(v) then v else 0)
      && Runes(n.text) + Utf16(Waiting(n.high) + units) == Runes(w.text) + Utf16(Waiting(w.high) + ([v] + units))
  {
    var n := Next(w, v);
    WideReads(w, v);
    UnitTaken(w.high, v, n.high, units);
    InOrder(Runes(w.text), NextRunes(w.high, v), Utf16(Waiting(n.high) + units));
  }

  lemma InOrder(a: seq<int>, b: seq<int>, c: seq<int>)
    ensures a + b + c == a + (b + c)
  {}

  /** The converted text reads as exactly the runes that all the units stand for, behind those of the text there
      was; what waits at the end is a high surrogate in the last unit. */
  lemma {:induction false} ConvertReads(w: Wide, b: Bytes, littleEndian: bool)
    requires Ready(w) && forall i :: 0 <= i < |b| ==> 0 <= b[i] < 256
    ensures var c, units := Convert(w, b, littleEndian), Waiting(w.high) + Units(b, littleEndian);
      && Ready(c) && Runes(c.text) == Runes(w.text) + Utf16(units) && Waiting(c.high) == Left(units)
    decreases |b|
  {
    if |b| < 2 {
      assert Runes(w.text) + [] == Runes(w.text) && Waiting(w.high) + [] == Waiting(w.high);
    } else {
      var v, rest := Unit(b[0], b[1], littleEndian), b[2..];
      var units := Units(rest, littleEndian);
      NextReads(w, v, units);
      ConvertReads(Next(w, v), rest, littleEndian);
      LeftStays(w.high, v, units);
    }
  }

  /** A high surrogate in the last unit, if there is one. */
  function Left(units: seq<int>): seq<int>
  {
    if units != [] && IsHigh(units[|units| - 1]) then [units[|units| - 1]] else []
  }

  lemma LeftStays(high: int, v: int, units: seq<int>)
    ensures Left(Waiting(if IsHigh(v) then v else 0) + units) == Left(Waiting(high) + ([v] + units))
  {}
}
