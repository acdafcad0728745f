/** The byte range a buyer asks for.  Whatever the header says, an accepted range lies inside the file. */
module DoorRange {
  import opened Decimal

  const MAX_INT := 0x7FFF_FFFF_FFFF_FFFF

  datatype Option<T> = None | Some(value: T)

  /** Bytes `start..end` inclusive; `partial` when the buyer named a range at all. */
  datatype Range = Range(start: int, end: int, partial: bool)

  function Min(x: int, y: int): int { if x <= y then x else y }

  function Max(x: int, y: int): int { if x >= y then x else y }

  predicate AllDigits(s: string)
  {
    forall i :: 0 <= i < |s| ==> IsDigit(s[i])
  }

  /** A 64-bit number in decimal, with an optional sign. */
  function ParseInt(s: string): (r: Option<int>)
    ensures r.Some? ==> -MAX_INT - 1 <= r.value <= MAX_INT
  {
    var signed := s != [] && (s[0] == '+' || s[0] == '-');
    var digits := if signed then s[1..] else s;
    if digits == [] || !AllDigits(digits) then None
    else
      var n := if signed && s[0] == '-' then 0 - ValueOf(digits) else ValueOf(digits);
      if -MAX_INT - 1 <= n <= MAX_INT then Some(n) else None
  }

  /** The text before and after the first dash. */
  function Cut(s: string): (r: Option<(string, string)>)
    ensures r.None? <==> '-' !in s
    ensures r.Some? ==> s == r.value.0 + "-" + r.value.1 && '-' !in r.value.0
  {
    if s == [] then None
    else if s[0] == '-' then Some(([], s[1..]))
    else
      match Cut(s[1..])
      case None => None
      case Some((a, b)) => Some(([s[0]] + a, b))
  }

  const PREFIX := "bytes="

  function ParseRange(s: string, size: int): (r: Option<Range>)
    requires size <= MAX_INT
    ensures r.Some? ==> 0 <= r.value.start <= r.value.end < size
  {
    if size <= 0 then None
    else if s == "" then Some(Range(0, size - 1, false))
    else if !(PREFIX <= s) || ',' in s then None
    else
      match Cut(s[|PREFIX|..])
      case None => None
      case Some((a, b)) => if a == "" then Suffix(b, size) else Between(a, b, size)
  }

  /** The last bytes of the file. */
  function Suffix(b: string, size: int): (r: Option<Range>)
    requires 0 < size <= MAX_INT
    ensures r.Some? ==> 0 <= r.value.start <= r.value.end < size
  {
    match ParseInt(b)
    case None => None
    case Some(n) => if n <= 0 then None else Some(Range(Max(0, size - n), size - 1, true))
  }

  function Between(a: string, b: string, size: int): (r: Option<Range>)
    requires 0 < size <= MAX_INT
    ensures r.Some? ==> 0 <= r.value.start <= r.value.end < size
  {
    match ParseInt(a)
    case None => None
    case Some(start) =>
      if start < 0 || start >= size then None
      else if b == "" then Some(Range(start, size - 1, true))
      else
        match ParseInt(b)
        case None => None
        case Some(end) => if end < start then None else Some(Range(start, Min(end, size - 1), true))
  }

  // ------------------------------------------------------------------ what a well-formed request gets

  lemma NumberParsed(n: nat)
    ensures AllDigits(Digits(n))
    ensures ParseInt(Digits(n)) == if n <= MAX_INT then Some(n) else None
  {
    DigitsRead(n);
  }

  lemma {:induction false} CutAt(a: string, b: string)
    requires '-' !in a
    ensures Cut(a + "-" + b) == Some((a, b))
  {
    var s := a + "-" + b;
    if a == [] {
      assert s == "-" + b && s[1..] == b;
    } else {
      assert s[1..] == a[1..] + "-" + b && s[0] == a[0] && a == [a[0]] + a[1..];
      CutAt(a[1..], b);
    }
  }

  /** Behind the prefix, a text without commas is parsed by its two halves. */
  lemma Halves(a: string, b: string, size: int)
    requires 0 < size <= MAX_INT && '-' !in a && ',' !in a && ',' !in b
    ensures ParseRange(PREFIX + a + "-" + b, size) == if a == "" then Suffix(b, size) else Between(a, b, size)
  {
    var s := PREFIX + a + "-" + b;
    assert s == PREFIX + (a + "-" + b);
    assert s[|PREFIX|..] == a + "-" + b;
    CutAt(a, b);
  }

  /** `bytes=S-E`, for any numbers: the bytes of the file among `S..E`, or nothing when there are none
      or a number passes 63 bits. */
  lemma AskedRange(start: nat, end: nat, size: int)
    requires 0 < size <= MAX_INT
    ensures ParseRange(PREFIX + Digits(start) + "-" + Digits(end), size)
            == if start < size && start <= end <= MAX_INT then Some(Range(start, Min(end, size - 1), true)) else None
  {
    NumberParsed(start);
    NumberParsed(end);
    Halves(Digits(start), Digits(end), size);
  }

  /** `bytes=S-`: everything from `S` on. */
  lemma AskedRest(start: nat, size: int)
    requires 0 < size <= MAX_INT
    ensures ParseRange(PREFIX + Digits(start) + "-" + "", size)
            == if start < size then Some(Range(start, size - 1, true)) else None
  {
    NumberParsed(start);
    Halves(Digits(start), "", size);
  }

  /** `bytes=-N`: the last `N` bytes, or the whole file when it is shorter. */
  lemma AskedSuffix(n: nat, size: int)
    requires 0 < size <= MAX_INT
    ensures ParseRange(PREFIX + "" + "-" + Digits(n), size)
            == if 0 < n <= MAX_INT then Some(Range(Max(0, size - n), size - 1, true)) else None
  {
    NumberParsed(n);
    Halves("", Digits(n), size);
  }
}
