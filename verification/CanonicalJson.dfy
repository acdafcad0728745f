/** Canonical JSON: one text for every value of integers, strings, booleans, null, arrays and objects, and a
    parser of JSON that reads it back. */
module CanonicalJson {
  import opened Decimal
  import opened Naming

  datatype Value = Null | Bool(b: bool) | Number(n: int) | Str(s: string) | Arr(items: seq<Value>) | Obj(fields: map<string, Value>)

  datatype Option<T> = None | Some(value: T)

  const LIMIT := 32

  // ------------------------------------------------------------------ printing

  function PrintNumber(n: int): string
  {
    if n < 0 then "-" + Digits(-n) else Digits(n)
  }

  /** Quotation marks, backslashes and control characters are escaped; nothing else is. */
  function Escape(c: char): string
  {
    if c == '\"' then "\\\""
    else if c == '\\' then "\\\\"
    else if c as int == 8 then "\\b"
    else if c as int == 12 then "\\f"
    else if c as int == 10 then "\\n"
    else if c as int == 13 then "\\r"
    else if c as int == 9 then "\\t"
    else if c as int < 32 then "\\u00" + [Digit(c as int / 16), Digit(c as int % 16)]
    else [c]
  }

  function Escaped(s: string): string
  {
    if s == [] then [] else Escape(s[0]) + Escaped(s[1..])
  }

  function PrintString(s: string): string
  {
    "\"" + Escaped(s) + "\""
  }

  ghost function Print(v: Value): string
    decreases v, 1, 0
  {
    match v
    case Null => "null"
    case Bool(b) => if b then "true" else "false"
    case Number(n) => PrintNumber(n)
    case Str(s) => PrintString(s)
    case Arr(items) => "[" + PrintItems(items) + "]"
    case Obj(fields) => "{" + PrintFields(v, InOrder(fields.Keys)) + "}"
  }

  ghost function PrintItems(items: seq<Value>): string
    decreases items, 0, 0
  {
    if items == [] then ""
    else if |items| == 1 then Print(items[0])
    else Print(items[0]) + "," + PrintItems(items[1..])
  }

  ghost function PrintFields(v: Value, keys: seq<string>): string
    requires v.Obj? && forall i :: 0 <= i < |keys| ==> keys[i] in v.fields
    decreases v, 0, |keys|
  {
    if keys == [] then ""
    else if |keys| == 1 then PrintField(v, keys[0])
    else PrintField(v, keys[0]) + "," + PrintFields(v, keys[1..])
  }

  ghost function PrintField(v: Value, key: string): string
    requires v.Obj? && key in v.fields
    decreases v, 0, 0
  {
    PrintString(key) + ":" + Print(v.fields[key])
  }

  /** How deep arrays and objects are nested. */
  ghost function Depth(v: Value): nat
    decreases v, 1, 0
  {
    match v
    case Arr(items) => if items == [] then 0 else 1 + DeepestItem(items)
    case Obj(fields) => if fields == map[] then 0 else 1 + DeepestField(v, InOrder(fields.Keys))
    case _ => 0
  }

  ghost function DeepestItem(items: seq<Value>): nat
    decreases items, 0, 0
  {
    if items == [] then 0 else Max(Depth(items[0]), DeepestItem(items[1..]))
  }

  ghost function DeepestField(v: Value, keys: seq<string>): nat
    requires v.Obj? && forall i :: 0 <= i < |keys| ==> keys[i] in v.fields
    decreases v, 0, |keys|
  {
    if keys == [] then 0 else Max(Depth(v.fields[keys[0]]), DeepestField(v, keys[1..]))
  }

  function Max(a: nat, b: nat): nat
  {
    if a < b then b else a
  }

  // ------------------------------------------------------------------ parsing

  predicate IsSpace(c: char)
  {
    c == ' ' || c == '\t' || c == '\n' || c == '\r'
  }

  function Skip(s: string): (r: string)
    ensures |r| <= |s| && (r != [] ==> !IsSpace(r[0]))
  {
    if s != [] && IsSpace(s[0]) then Skip(s[1..]) else s
  }

  function HexOf(c: char): int
  {
    if '0' <= c <= '9' then c as int - '0' as int
    else if 'a' <= c <= 'f' then c as int - 'a' as int + 10
    else if 'A' <= c <= 'F' then c as int - 'A' as int + 10
    else -1
  }

  /** Four hexadecimal digits. */
  function Hex4(s: string): Option<int>
  {
    if |s| < 4 || HexOf(s[0]) < 0 || HexOf(s[1]) < 0 || HexOf(s[2]) < 0 || HexOf(s[3]) < 0 then None
    else Some(((HexOf(s[0]) * 16 + HexOf(s[1])) * 16 + HexOf(s[2])) * 16 + HexOf(s[3]))
  }

  predicate IsHigh(v: int) { 0xD800 <= v <= 0xDBFF }

  predicate IsLow(v: int) { 0xDC00 <= v <= 0xDFFF }

  /** The character an escape stands for, and what follows it; half a surrogate pair reads as a replacement. */
  function Unescape(s: string): (r: Option<(char, string)>)
    ensures r.Some? ==> |r.value.1| < |s|
  {
    if s == [] then None
    else if s[0] == '\"' || s[0] == '\\' || s[0] == '/' then Some((s[0], s[1..]))
    else if s[0] == 'b' then Some((8 as char, s[1..]))
    else if s[0] == 'f' then Some((12 as char, s[1..]))
    else if s[0] == 'n' then Some((10 as char, s[1..]))
    else if s[0] == 'r' then Some((13 as char, s[1..]))
    else if s[0] == 't' then Some((9 as char, s[1..]))
    else if s[0] == 'u' && Hex4(s[1..]).Some? then
      var v := Hex4(s[1..]).value;
      if IsHigh(v) then
        if |s| > 6 && s[5] == '\\' && s[6] == 'u' && Hex4(s[7..]).Some? && IsLow(Hex4(s[7..]).value) then
          Some((((v - 0xD800) * 1024 + (Hex4(s[7..]).value - 0xDC00) + 0x10000) as char, s[11..]))
        else Some((0xFFFD as char, s[5..]))
      else if IsLow(v) then Some((0xFFFD as char, s[5..]))
      else if 0 <= v < 0xD800 || 0xE000 <= v <= 0xFFFF then Some((v as char, s[5..]))
      else None
    else None
  }

  /** The rest of a string after its opening quotation mark. */
  function ParseChars(s: string): (r: Option<(string, string)>)
    ensures r.Some? ==> |r.value.1| < |s|
    decreases |s|
  {
    if s == [] || s[0] as int < 32 then None
    else if s[0] == '\"' then Some(([], s[1..]))
    else if s[0] == '\\' then
      match Unescape(s[1..])
      case None => None
      case Some((c, rest)) =>
        match ParseChars(rest)
        case None => None
        case Some((more, after)) => Some(([c] + more, after))
    else
      match ParseChars(s[1..])
      case None => None
      case Some((more, after)) => Some(([s[0]] + more, after))
  }

  /** The digits in front. */
  function Leading(s: string): (r: string)
    ensures |r| <= |s| && r == s[..|r|] && forall i :: 0 <= i < |r| ==> IsDigit(r[i])
    ensures |r| < |s| ==> !IsDigit(s[|r|])
  {
    if s != [] && IsDigit(s[0]) then [s[0]] + Leading(s[1..]) else []
  }

  /** An integer without leading zeros; fractions and exponents are no part of this model. */
  function ParseNumber(s: string): (r: Option<(Value, string)>)
    ensures r.Some? ==> |r.value.1| < |s|
  {
    var negative := s != [] && s[0] == '-';
    ParseDigits(if negative then s[1..] else s, negative)
  }

  function ParseDigits(t: string, negative: bool): (r: Option<(Value, string)>)
    ensures r.Some? ==> |r.value.1| < |t|
  {
    var d := Leading(t);
    var rest := t[|d|..];
    if d == [] || (d[0] == '0' && |d| > 1) || (rest != [] && (rest[0] == '.' || rest[0] == 'e' || rest[0] == 'E')) then None
    else Some((Number(if negative then 0 - ValueOf(d) else ValueOf(d)), rest))
  }

  function ParseWord(s: string, word: string, v: Value): (r: Option<(Value, string)>)
    requires word != []
    ensures r.Some? ==> |r.value.1| < |s|
  {
    if word <= s then Some((v, s[|word|..])) else None
  }

  /** A value and what follows it; `left` is how much deeper arrays and objects may nest. */
  function ParseValue(s: string, left: int): (r: Option<(Value, string)>)
    ensures r.Some? ==> |r.value.1| < |s|
    decreases |s|, 2
  {
    var t := Skip(s);
    if left < 0 || t == [] then None
    else if t[0] == 'n' then ParseWord(t, "null", Null)
    else if t[0] == 't' then ParseWord(t, "true", Bool(true))
    else if t[0] == 'f' then ParseWord(t, "false", Bool(false))
    else if t[0] == '\"' then
      match ParseChars(t[1..])
      case None => None
      case Some((str, rest)) => Some((Str(str), rest))
    else if t[0] == '[' then
      var u := Skip(t[1..]);
      if u != [] && u[0] == ']' then Some((Arr([]), u[1..]))
      else
        match ParseItems(u, left - 1)
        case None => None
        case Some((items, rest)) => Some((Arr(items), rest))
    else if t[0] == '{' then
      var u := Skip(t[1..]);
      if u != [] && u[0] == '}' then Some((Obj(map[]), u[1..]))
      else
        match ParseFields(u, left - 1, map[])
        case None => None
        case Some((fields, rest)) => Some((Obj(fields), rest))
    else ParseNumber(t)
  }

  /** One item or more, up to the closing bracket. */
  function ParseItems(s: string, left: int): (r: Option<(seq<Value>, string)>)
    ensures r.Some? ==> |r.value.1| < |s|
    decreases |s|, 3
  {
    match ParseValue(s, left)
    case None => None
    case Some((v, rest)) =>
      var u := Skip(rest);
      if u == [] then None
      else if u[0] == ']' then Some(([v], u[1..]))
      else if u[0] != ',' then None
      else
        match ParseItems(u[1..], left)
        case None => None
        case Some((more, after)) => Some(([v] + more, after))
  }

  /** One field or more, up to the closing brace; a name that was there already is refused. */
  function ParseFields(s: string, left: int, known: map<string, Value>): (r: Option<(map<string, Value>, string)>)
    ensures r.Some? ==> |r.value.1| < |s|
    decreases |s|, 3
  {
    var t := Skip(s);
    if t == [] || t[0] != '\"' then None
    else
      match ParseChars(t[1..])
      case None => None
      case Some((key, afterKey)) =>
        var c := Skip(afterKey);
        if c == [] || c[0] != ':' || key in known then None
        else
          match ParseValue(c[1..], left)
          case None => None
          case Some((v, afterValue)) =>
            var u := Skip(afterValue);
            if u == [] then None
            else if u[0] == '}' then Some((known[key := v], u[1..]))
            else if u[0] != ',' then None
            else ParseFields(u[1..], left, known[key := v])
  }

  /** The one value that a text is, within the nesting limit. */
  function Decode(raw: string): Option<Value>
  {
    match ParseValue(raw, LIMIT)
    case None => None
    case Some((v, rest)) => if Skip(rest) == [] then Some(v) else None
  }

  // ------------------------------------------------------------------ reading back what was printed

  lemma {:induction false} LeadingOf(d: string, rest: string)
    requires (forall i :: 0 <= i < |d| ==> IsDigit(d[i])) && (rest != [] ==> !IsDigit(rest[0]))
    ensures Leading(d + rest) == d
  {
    if d != [] {
      assert (d + rest)[1..] == d[1..] + rest;
      LeadingOf(d[1..], rest);
    } else {
      assert d + rest == rest;
    }
  }

  /** What may come after a value: nothing that could belong to a number. */
  predicate Ends(rest: string)
  {
    rest != [] ==> !IsDigit(rest[0]) && rest[0] != '.' && rest[0] != 'e' && rest[0] != 'E'
  }

  lemma NumberRead(n: int, rest: string)
    requires Ends(rest)
    ensures ParseNumber(PrintNumber(n) + rest) == Some((Number(n), rest))
    ensures PrintNumber(n)[0] == '-' || IsDigit(PrintNumber(n)[0])
  {
    var m := if n < 0 then -n else n;
    DigitsTaken(m, rest, n < 0);
    var d := Digits(m);
    if n < 0 {
      Signed(d, rest);
    } else {
      assert PrintNumber(n) + rest == d + rest;
    }
  }

  lemma Signed(d: string, rest: string)
    ensures ("-" + d + rest)[0] == '-' && ("-" + d + rest)[1..] == d + rest
  {}

  /** Digits are taken up to what follows them. */
  lemma DigitsTaken(m: nat, rest: string, negative: bool)
    requires Ends(rest)
    ensures ParseDigits(Digits(m) + rest, negative) == Some((Number(if negative then 0 - m else m), rest))
    ensures (Digits(m) + rest)[0] == Digits(m)[0] != '-'
  {
    var d := Digits(m);
    DigitsRead(m);
    LeadingOf(d, rest);
    assert (d + rest)[|d|..] == rest;
  }

  /** The character and then whatever the rest reads as. */
  function Then(c: char, r: Option<(string, string)>): Option<(string, string)>
  {
    if r.None? then None else Some(([c] + r.value.0, r.value.1))
  }

  lemma HexRead(h: int, l: int, rest: string)
    requires 0 <= h < 2 && 0 <= l < 16
    ensures Unescape(['u', '0', '0', Digit(h), Digit(l)] + rest) == Some(((h * 16 + l) as char, rest))
  {
    var s := ['u', '0', '0', Digit(h), Digit(l)] + rest;
    assert s[1..] == ['0', '0', Digit(h), Digit(l)] + rest && s[5..] == rest;
    assert HexOf(Digit(h)) == h && HexOf(Digit(l)) == l;
  }

  lemma ControlRead(c: char, rest: string)
    requires c as int < 32
    ensures ParseChars("\\u00" + [Digit(c as int / 16), Digit(c as int % 16)] + rest) == Then(c, ParseChars(rest))
  {
    var h, l := c as int / 16, c as int % 16;
    var s := "\\u00" + [Digit(h), Digit(l)] + rest;
    HexRead(h, l, rest);
    assert s[1..] == ['u', '0', '0', Digit(h), Digit(l)] + rest;
  }

  lemma EscapeRead(c: char, rest: string)
    ensures ParseChars(Escape(c) + rest) == Then(c, ParseChars(rest))
  {
    var e := Escape(c);
    if |e| == 1 {
      PlainRead(c, rest);
    } else if |e| == 2 {
      ShortRead(c, rest);
    } else {
      ControlRead(c, rest);
    }
  }

  lemma PlainRead(c: char, rest: string)
    requires |Escape(c)| == 1
    ensures ParseChars(Escape(c) + rest) == Then(c, ParseChars(rest))
  {
    assert ([c] + rest)[1..] == rest;
  }

  lemma ShortRead(c: char, rest: string)
    requires |Escape(c)| == 2
    ensures ParseChars(Escape(c) + rest) == Then(c, ParseChars(rest))
  {
    var e := Escape(c);
    assert e == ['\\', e[1]];
  }

  lemma {:induction false} CharsRead(str: string, rest: string)
    ensures ParseChars(Escaped(str) + "\"" + rest) == Some((str, rest))
  {
    if str == [] {
      assert Escaped(str) + "\"" + rest == "\"" + rest;
      assert ("\"" + rest)[1..] == rest;
    } else {
      var more := Escaped(str[1..]) + "\"" + rest;
      assert Escaped(str) + "\"" + rest == Escape(str[0]) + more;
      CharsRead(str[1..], rest);
      EscapeRead(str[0], more);
      assert [str[0]] + str[1..] == str;
    }
  }

  /** The characters that a printed value can begin with. */
  predicate Begins(s: string)
  {
    s != [] && (s[0] == '-' || IsDigit(s[0]) || s[0] == '\"' || s[0] == '[' || s[0] == '{' || s[0] == 'n' || s[0] == 't' || s[0] == 'f')
  }

  lemma PrintBegins(v: Value)
    ensures Begins(Print(v))
  {
    if v.Number? { NumberRead(v.n, []); }
  }

  lemma StringRead(str: string, rest: string)
    ensures (PrintString(str) + rest)[0] == '\"' && ParseChars((PrintString(str) + rest)[1..]) == Some((str, rest))
  {
    assert (PrintString(str) + rest)[1..] == Escaped(str) + "\"" + rest;
    CharsRead(str, rest);
  }

  lemma WordRead(v: Value, rest: string, left: int)
    requires v.Null? || v.Bool?
    requires Depth(v) <= left
    ensures ParseValue(Print(v) + rest, left) == Some((v, rest))
  {}

  lemma NumberValueRead(n: int, rest: string, left: int)
    requires 0 <= left && Ends(rest)
    ensures ParseValue(Print(Number(n)) + rest, left) == Some((Number(n), rest))
  {
    NumberRead(n, rest);
    NumberBegins(PrintNumber(n) + rest, left);
  }

  lemma NumberBegins(s: string, left: int)
    requires 0 <= left && s != [] && (s[0] == '-' || IsDigit(s[0]))
    ensures ParseValue(s, left) == ParseNumber(s)
  {}

  lemma StrRead(str: string, rest: string, left: int)
    requires 0 <= left
    ensures ParseValue(Print(Str(str)) + rest, left) == Some((Str(str), rest))
  {
    StringRead(str, rest);
  }

  /** A printed value is read as itself, whatever follows it. */
  lemma {:induction false} ValueRead(v: Value, rest: string, left: int)
    requires Depth(v) <= left && Ends(rest)
    ensures ParseValue(Print(v) + rest, left) == Some((v, rest))
    decreases v, 1, 0
  {
    match v
    case Null => WordRead(v, rest, left);
    case Bool(b) => WordRead(v, rest, left);
    case Number(n) => NumberValueRead(n, rest, left);
    case Str(str) => StrRead(str, rest, left);
    case Arr(items) => ArrRead(items, rest, left);
    case Obj(fields) => ObjRead(v, rest, left);
  }

  lemma LastItem(s: string, v: Value, rest: string, left: int)
    requires ParseValue(s, left) == Some((v, "]" + rest))
    ensures ParseItems(s, left) == Some(([v], rest))
  {
    assert ("]" + rest)[1..] == rest;
  }

  lemma MoreItems(s: string, v: Value, more: string, left: int, items: seq<Value>, rest: string)
    requires ParseValue(s, left) == Some((v, "," + more)) && ParseItems(more, left) == Some((items, rest))
    ensures ParseItems(s, left) == Some(([v] + items, rest))
  {
    assert ("," + more)[1..] == more;
  }

  lemma OpenBracket(inner: string, left: int, items: seq<Value>, rest: string)
    requires left >= 0 && Begins(inner) && ParseItems(inner, left - 1) == Some((items, rest))
    ensures ParseValue("[" + inner, left) == Some((Arr(items), rest))
  {
    assert ("[" + inner)[1..] == inner;
  }

  lemma NoItems(rest: string, left: int)
    requires left >= 0
    ensures ParseValue("[" + ("]" + rest), left) == Some((Arr([]), rest))
  {
    var inner := "]" + rest;
    assert inner[1..] == rest && ("[" + inner)[1..] == inner;
  }

  lemma {:induction false} ArrRead(items: seq<Value>, rest: string, left: int)
    requires (if items == [] then 0 else 1 + DeepestItem(items)) <= left
    ensures ParseValue("[" + PrintItems(items) + "]" + rest, left) == Some((Arr(items), rest))
    decreases items, 1, 0
  {
    var inner := PrintItems(items) + "]" + rest;
    assert "[" + PrintItems(items) + "]" + rest == "[" + inner;
    if items == [] {
      assert inner == "]" + rest;
      NoItems(rest, left);
    } else {
      ItemsRead(items, rest, left - 1);
      OpenBracket(inner, left, items, rest);
    }
  }

  lemma {:induction false} ItemsRead(items: seq<Value>, rest: string, left: int)
    requires items != [] && DeepestItem(items) <= left
    ensures ParseItems(PrintItems(items) + "]" + rest, left) == Some((items, rest))
    ensures Begins(PrintItems(items))
    decreases items, 0, 0
  {
    PrintBegins(items[0]);
    if |items| == 1 {
      ValueRead(items[0], "]" + rest, left);
      OneItem(items, rest, left);
    } else {
      ValueRead(items[0], "," + (PrintItems(items[1..]) + "]" + rest), left);
      ItemsRead(items[1..], rest, left);
      ItemAndMore(items, rest, left);
    }
  }

  lemma {:induction false} OneItem(items: seq<Value>, rest: string, left: int)
    requires |items| == 1 && ParseValue(Print(items[0]) + ("]" + rest), left) == Some((items[0], "]" + rest))
    ensures ParseItems(PrintItems(items) + "]" + rest, left) == Some((items, rest))
  {
    LastItem(Print(items[0]) + ("]" + rest), items[0], rest, left);
    assert PrintItems(items) + "]" + rest == Print(items[0]) + ("]" + rest) && [items[0]] == items;
  }

  lemma {:induction false} ItemAndMore(items: seq<Value>, rest: string, left: int)
    requires |items| > 1
    requires var more := PrintItems(items[1..]) + "]" + rest;
      ParseValue(Print(items[0]) + ("," + more), left) == Some((items[0], "," + more))
      && ParseItems(more, left) == Some((items[1..], rest))
    ensures ParseItems(PrintItems(items) + "]" + rest, left) == Some((items, rest))
  {
    AfterFirst(Print(items[0]), items[0], PrintItems(items[1..]), items[1..], rest, left);
    assert [items[0]] + items[1..] == items;
  }

  lemma AfterFirst(first: string, v: Value, others: string, items: seq<Value>, rest: string, left: int)
    requires ParseValue(first + ("," + (others + "]" + rest)), left) == Some((v, "," + (others + "]" + rest)))
    requires ParseItems(others + "]" + rest, left) == Some((items, rest))
    ensures ParseItems(first + "," + others + "]" + rest, left) == Some(([v] + items, rest))
  {
    MoreItems(first + ("," + (others + "]" + rest)), v, others + "]" + rest, left, items, rest);
    Joins(first, ",", others, "]", rest);
  }

  lemma Joins(a: string, b: string, c: string, d: string, e: string)
    ensures a + b + c + d + e == a + (b + (c + d + e)) && a + d + e == a + (d + e)
  {}

  /** The fields of these names, put to those known already. */
  function Added(v: Value, keys: seq<string>, known: map<string, Value>): map<string, Value>
    requires v.Obj? && forall i :: 0 <= i < |keys| ==> keys[i] in v.fields
    decreases |keys|
  {
    if keys == [] then known else Added(v, keys[1..], known[keys[0] := v.fields[keys[0]]])
  }

  lemma {:induction false} AddedAll(v: Value, keys: seq<string>, known: map<string, Value>)
    requires v.Obj? && forall i :: 0 <= i < |keys| ==> keys[i] in v.fields
    requires forall k :: k in known ==> k in v.fields && known[k] == v.fields[k]
    ensures forall k :: k in Added(v, keys, known) <==> k in known || k in keys
    ensures forall k :: k in Added(v, keys, known) ==> k in v.fields && Added(v, keys, known)[k] == v.fields[k]
    decreases |keys|
  {
    if keys != [] { AddedAll(v, keys[1..], known[keys[0] := v.fields[keys[0]]]); }
  }

  lemma {:induction false} ObjRead(v: Value, rest: string, left: int)
    requires v.Obj? && Depth(v) <= left
    ensures ParseValue(Print(v) + rest, left) == Some((v, rest))
    decreases v, 0, |v.fields| + 3
  {
    if v.fields == map[] {
    } else {
      NonEmptyRead(v, InOrder(v.fields.Keys), rest, left);
    }
  }

  lemma {:induction false} NonEmptyRead(v: Value, keys: seq<string>, rest: string, left: int)
    requires v.Obj? && v.fields != map[] && keys == InOrder(v.fields.Keys) && 1 + DeepestField(v, keys) <= left
    ensures ParseValue(Print(v) + rest, left) == Some((v, rest))
    decreases v, 0, |v.fields| + 2
  {
    KeysOf(v);
    FieldsRead(v, keys, map[], rest, left - 1);
    FieldsOfRead(v, rest, left);
  }

  lemma {:induction false} FieldsOfRead(v: Value, rest: string, left: int)
    requires v.Obj? && left >= 0 && InOrder(v.fields.Keys) != []
    requires var keys := InOrder(v.fields.Keys);
      ParseFields(PrintFields(v, keys) + "}" + rest, left - 1, map[]) == Some((Added(v, keys, map[]), rest))
    ensures ParseValue(Print(v) + rest, left) == Some((v, rest))
  {
    AllAdded(v);
    FieldsBegin(v, InOrder(v.fields.Keys));
    Braced(v, rest, left);
  }

  lemma AllAdded(v: Value)
    requires v.Obj?
    ensures Added(v, InOrder(v.fields.Keys), map[]) == v.fields
  {
    AddedAll(v, InOrder(v.fields.Keys), map[]);
  }

  lemma {:induction false} Braced(v: Value, rest: string, left: int)
    requires v.Obj? && left >= 0
    requires var fields := PrintFields(v, InOrder(v.fields.Keys));
      fields != [] && fields[0] == '\"' && ParseFields(fields + "}" + rest, left - 1, map[]) == Some((v.fields, rest))
    ensures ParseValue(Print(v) + rest, left) == Some((v, rest))
  {
    var inner := PrintFields(v, InOrder(v.fields.Keys)) + "}" + rest;
    assert Print(v) + rest == "{" + inner;
    OpenBrace(inner, left, v.fields, rest);
  }

  lemma OpenBrace(inner: string, left: int, fields: map<string, Value>, rest: string)
    requires left >= 0 && inner != [] && inner[0] == '\"' && ParseFields(inner, left - 1, map[]) == Some((fields, rest))
    ensures ParseValue("{" + inner, left) == Some((Obj(fields), rest))
  {
    assert ("{" + inner)[1..] == inner;
  }

  lemma KeysOf(v: Value)
    requires v.Obj? && v.fields != map[]
    ensures InOrder(v.fields.Keys) != [] && |InOrder(v.fields.Keys)| <= |v.fields| + 1
  {
    var keys := InOrder(v.fields.Keys);
    assert v.fields.Keys != {};
    SortedSize(keys, v.fields.Keys);
    assert |v.fields| == |v.fields.Keys|;
  }

  lemma {:induction false} SortedSize(keys: seq<string>, names: set<string>)
    requires Sorted(keys) && forall k :: k in keys <==> k in names
    ensures |keys| == |names|
    decreases |keys|
  {
    if keys == [] {
      assert names == {};
    } else {
      assert keys == [keys[0]] + keys[1..];
      SortedSize(keys[1..], names - {keys[0]});
    }
  }

  /** One field is read: its name, then its value. */
  lemma {:induction false} FieldRead(v: Value, key: string, rest: string, left: int)
    requires v.Obj? && key in v.fields && Depth(v.fields[key]) <= left && Ends(rest)
    ensures FieldAt(PrintField(v, key) + rest, key, v.fields[key], rest, left)
    decreases v, 0, 0
  {
    ValueRead(v.fields[key], rest, left);
    NamedValue(key, v.fields[key], Print(v.fields[key]), rest, left);
  }

  lemma NamedValue(key: string, x: Value, printed: string, rest: string, left: int)
    requires ParseValue(printed + rest, left) == Some((x, rest))
    ensures FieldAt(PrintString(key) + ":" + printed + rest, key, x, rest, left)
  {
    StringRead(key, ":" + (printed + rest));
    assert PrintString(key) + ":" + printed + rest == PrintString(key) + (":" + (printed + rest));
    assert (":" + (printed + rest))[1..] == printed + rest;
  }

  lemma MoreFields(s: string, key: string, v: Value, after: string, more: string, left: int, known: map<string, Value>)
    requires s != [] && s[0] == '\"' && ParseChars(s[1..]) == Some((key, after)) && key !in known
    requires after != [] && after[0] == ':' && ParseValue(after[1..], left) == Some((v, "," + more))
    ensures ParseFields(s, left, known) == ParseFields(more, left, known[key := v])
  {
    assert ("," + more)[1..] == more;
  }

  lemma {:induction false} FieldsRead(v: Value, keys: seq<string>, known: map<string, Value>, rest: string, left: int)
    requires v.Obj? && keys != [] && Sorted(keys) && |keys| <= |v.fields| + 1
    requires forall i :: 0 <= i < |keys| ==> keys[i] in v.fields && keys[i] !in known
    requires DeepestField(v, keys) <= left
    ensures ParseFields(PrintFields(v, keys) + "}" + rest, left, known) == Some((Added(v, keys, known), rest))
    decreases v, 0, |keys|
  {
    var key, x := keys[0], v.fields[keys[0]];
    if |keys| == 1 {
      FieldRead(v, key, "}" + rest, left);
      OneField(v, keys, known, rest, left);
    } else {
      FieldRead(v, key, "," + (PrintFields(v, keys[1..]) + "}" + rest), left);
      FieldAndMore(v, keys, known, rest, left);
      FieldsRead(v, keys[1..], known[key := x], rest, left);
    }
  }

  /** A text begins with a field of this name and value, and goes on with `rest`. */
  predicate FieldAt(s: string, key: string, x: Value, rest: string, left: int)
  {
    && s != [] && s[0] == '\"' && ParseChars(s[1..]).Some? && ParseChars(s[1..]).value.0 == key
    && var after := ParseChars(s[1..]).value.1;
       after != [] && after[0] == ':' && ParseValue(after[1..], left) == Some((x, rest))
  }

  lemma {:induction false} OneField(v: Value, keys: seq<string>, known: map<string, Value>, rest: string, left: int)
    requires v.Obj? && |keys| == 1 && keys[0] in v.fields && keys[0] !in known
    requires FieldAt(PrintField(v, keys[0]) + ("}" + rest), keys[0], v.fields[keys[0]], "}" + rest, left)
    ensures ParseFields(PrintFields(v, keys) + "}" + rest, left, known) == Some((Added(v, keys, known), rest))
  {
    var s := PrintField(v, keys[0]) + ("}" + rest);
    assert keys[1..] == [] && PrintFields(v, keys) + "}" + rest == s;
  }

  lemma {:induction false} FieldAndMore(v: Value, keys: seq<string>, known: map<string, Value>, rest: string, left: int)
    requires v.Obj? && |keys| > 1 && (forall i :: 0 <= i < |keys| ==> keys[i] in v.fields) && keys[0] !in known
    requires var more := PrintFields(v, keys[1..]) + "}" + rest;
      FieldAt(PrintField(v, keys[0]) + ("," + more), keys[0], v.fields[keys[0]], "," + more, left)
    ensures ParseFields(PrintFields(v, keys) + "}" + rest, left, known)
      == ParseFields(PrintFields(v, keys[1..]) + "}" + rest, left, known[keys[0] := v.fields[keys[0]]])
  {
    AfterField(PrintField(v, keys[0]), keys[0], v.fields[keys[0]], PrintFields(v, keys[1..]), known, rest, left);
  }

  lemma AfterField(first: string, key: string, x: Value, others: string, known: map<string, Value>, rest: string, left: int)
    requires FieldAt(first + ("," + (others + "}" + rest)), key, x, "," + (others + "}" + rest), left) && key !in known
    ensures ParseFields(first + "," + others + "}" + rest, left, known) == ParseFields(others + "}" + rest, left, known[key := x])
  {
    var s := first + ("," + (others + "}" + rest));
    MoreFields(s, key, x, ParseChars(s[1..]).value.1, others + "}" + rest, left, known);
    Joins(first, ",", others, "}", rest);
  }

  lemma {:induction false} FieldsBegin(v: Value, keys: seq<string>)
    requires v.Obj? && keys != [] && forall i :: 0 <= i < |keys| ==> keys[i] in v.fields
    ensures PrintFields(v, keys) != [] && PrintFields(v, keys)[0] == '\"'
  {}

  // ------------------------------------------------------------------ what is parsed is not too deep

  lemma {:induction false} ShallowFields(v: Value, keys: seq<string>, left: int)
    requires v.Obj? && (forall i :: 0 <= i < |keys| ==> keys[i] in v.fields) && left >= 0
    requires forall k :: k in v.fields ==> Depth(v.fields[k]) <= left
    ensures DeepestField(v, keys) <= left
    decreases |keys|
  {
    if keys != [] { ShallowFields(v, keys[1..], left); }
  }

  lemma {:induction false} ParsedDepth(s: string, left: int)
    requires ParseValue(s, left).Some?
    ensures left >= 0 && Depth(ParseValue(s, left).value.0) <= left
    decreases |s|, 2
  {
    var t := Skip(s);
    if t[0] == '[' {
      var u := Skip(t[1..]);
      if !(u != [] && u[0] == ']') { ParsedItems(u, left - 1); }
    } else if t[0] == '{' {
      var u := Skip(t[1..]);
      if !(u != [] && u[0] == '}') {
        ParsedFields(u, left - 1, map[]);
        ObjDepth(ParseFields(u, left - 1, map[]).value.0, left);
      }
    } else {
      FlatDepth(t);
    }
  }

  lemma ObjDepth(fields: map<string, Value>, left: int)
    requires left >= 1 && forall k :: k in fields ==> Depth(fields[k]) <= left - 1
    ensures Depth(Obj(fields)) <= left
  {
    ShallowFields(Obj(fields), InOrder(fields.Keys), left - 1);
  }

  lemma FlatDepth(t: string)
    ensures ParseNumber(t).Some? ==> Depth(ParseNumber(t).value.0) == 0
  {}

  lemma {:induction false} ParsedItems(s: string, left: int)
    requires ParseItems(s, left).Some?
    ensures left >= 0 && DeepestItem(ParseItems(s, left).value.0) <= left
    decreases |s|, 3
  {
    ParsedDepth(s, left);
    var (v, rest) := ParseValue(s, left).value;
    var u := Skip(rest);
    if u[0] == ',' { ParsedItems(u[1..], left); }
  }

  lemma {:induction false} ParsedFields(s: string, left: int, known: map<string, Value>)
    requires ParseFields(s, left, known).Some?
    requires forall k :: k in known ==> Depth(known[k]) <= left
    ensures left >= 0 && forall k :: k in ParseFields(s, left, known).value.0 ==> Depth(ParseFields(s, left, known).value.0[k]) <= left
    decreases |s|, 3
  {
    var t := Skip(s);
    var (key, afterKey) := ParseChars(t[1..]).value;
    var c := Skip(afterKey);
    ParsedDepth(c[1..], left);
    var (v, afterValue) := ParseValue(c[1..], left).value;
    var u := Skip(afterValue);
    if u[0] == ',' { ParsedFields(u[1..], left, known[key := v]); }
  }

  // ------------------------------------------------------------------ the theorems

  /** Printing and then parsing gives the value back. */
  lemma RoundTrip(v: Value)
    requires Depth(v) <= LIMIT
    ensures Decode(Print(v)) == Some(v)
  {
    ValueRead(v, [], LIMIT);
    assert Print(v) + [] == Print(v);
  }

  /** No two values share a canonical text, however deep they are. */
  lemma PrintInjective(v: Value, w: Value)
    requires Print(v) == Print(w)
    ensures v == w
  {
    var left := Max(Depth(v), Depth(w));
    ValueRead(v, [], left);
    ValueRead(w, [], left);
  }

  /** The value of a text that is canonical. */
  ghost function RequireCanonical(raw: string): Option<Value>
  {
    match Decode(raw)
    case None => None
    case Some(v) => if Print(v) == raw then Some(v) else None
  }

  /** Exactly the printed values within the nesting limit are accepted, each as itself. */
  lemma AcceptedExactly(raw: string, v: Value)
    ensures RequireCanonical(raw) == Some(v) <==> raw == Print(v) && Depth(v) <= LIMIT
  {
    if RequireCanonical(raw) == Some(v) { ParsedDepth(raw, LIMIT); }
    if raw == Print(v) && Depth(v) <= LIMIT { RoundTrip(v); }
  }
}
