/** Inspecting a file as it is written in pieces: its runes, tokens, shingle votes and scripts do not depend on
    how it was cut. */
module Inspection {
  import opened Unicode
  import opened Shingles

  /** Unicode's tables and the first 64 bits of SHA-256, as the inspection uses them. */
  datatype Tables = Tables(letter: int -> bool, digit: int -> bool, lower: int -> int, script: int -> int, sha: Bytes -> int)

  const SCRIPTS := 5
  const FRAME := 5
  const BATCH := 16384
  const TOKEN := 256

  /** One of five scripts for every letter. */
  function ScriptOf(t: Tables, r: int): int
  {
    if 0 <= t.script(r) < SCRIPTS then t.script(r) else SCRIPTS - 1
  }

  function Count(t: Tables, runes: seq<int>, s: int): nat
  {
    if runes == [] then 0
    else
      var r := runes[|runes| - 1];
      Count(t, runes[..|runes| - 1], s) + if t.letter(r) && ScriptOf(t, r) == s then 1 else 0
  }

  /** Tokens that have ended, and the one that goes on. */
  datatype Tokens = Tokens(done: seq<Bytes>, rest: Bytes)

  function Ended(k: Tokens): Tokens
  {
    if k.rest == [] then k else Tokens(k.done + [k.rest], [])
  }

  function TokensOf(t: Tables, runes: seq<int>): Tokens
  {
    if runes == [] then Tokens([], [])
    else
      var k, r := TokensOf(t, runes[..|runes| - 1]), runes[|runes| - 1];
      if t.letter(r) || t.digit(r) then Tokens(k.done, k.rest + EncodeRune(t.lower(r))) else Ended(k)
  }

  function Hashes(t: Tables, done: seq<Bytes>): (r: seq<int>)
    ensures |r| == |done| && forall i :: 0 <= i < |r| ==> r[i] == t.sha(done[i])
  {
    seq(|done|, i requires 0 <= i < |done| => t.sha(done[i]))
  }

  /** A number as eight bytes, most significant first. */
  function Bytes8(v: int): Bytes
  {
    seq(8, i => v / Pow256(7 - i) % 256)
  }

  function Pow256(i: int): int
    ensures Pow256(i) > 0
  {
    if i <= 0 then 1 else 256 * Pow256(i - 1)
  }

  function FrameOf(hashes: seq<int>): Bytes
  {
    if hashes == [] then [] else FrameOf(hashes[..|hashes| - 1]) + Bytes8(hashes[|hashes| - 1])
  }

  /** The shingles: the hash of every five tokens in a row. */
  function ShinglesOf(t: Tables, hashes: seq<int>): seq<int>
  {
    if |hashes| < FRAME then []
    else ShinglesOf(t, hashes[..|hashes| - 1]) + [t.sha(FrameOf(hashes[|hashes| - FRAME..]))]
  }

  // ------------------------------------------------------------------ what a whole file comes to

  predicate IsWide(input: Bytes)
  {
    |input| >= 2 && ((input[0] == 0xFF && input[1] == 0xFE) || (input[0] == 0xFE && input[1] == 0xFF))
  }

  function Converted(input: Bytes): Wide
    requires |input| >= 2
  {
    Convert(Wide([], 0), input[2..], input[0] == 0xFF)
  }

  /** The text seen of a file that has been written so far. */
  function TextOf(input: Bytes): Bytes
  {
    if |input| < 2 then [] else if IsWide(input) then Converted(input).text else input
  }

  /** The text of a whole file: a cut-off end of UTF-16 reads as a replacement. */
  function FinalText(input: Bytes): Bytes
  {
    if |input| < 2 then input
    else if IsWide(input) && (Converted(input).high != 0 || Odd(input[2..]) != []) then
      Converted(input).text + EncodeRune(REPLACEMENT)
    else TextOf(input)
  }

  /** Tokens, scripts and similarity hash votes. */
  datatype Found = Found(tokens: int, scripts: seq<int>, votes: seq<int>)

  function FoundIn(t: Tables, input: Bytes): Found
  {
    FoundOf(t, Runes(FinalText(input)))
  }

  function FoundOf(t: Tables, runes: seq<int>): Found
  {
    var done := Ended(TokensOf(t, runes)).done;
    var shingles := ShinglesOf(t, Hashes(t, done));
    Found(|done|, seq(SCRIPTS, i => Count(t, runes, i)), seq(BITS, i requires 0 <= i < BITS => Votes(shingles, i)))
  }

  // ------------------------------------------------------------------ one rune, one token

  /** The last hashes, each in the place of its number modulo five. */
  ghost predicate Ring(ring: seq<int>, hashes: seq<int>)
  {
    |ring| == FRAME && forall j :: 0 <= j < |hashes| && |hashes| - FRAME <= j ==> ring[j % FRAME] == hashes[j]
  }

  lemma RingNext(ring: seq<int>, hashes: seq<int>, h: int)
    requires Ring(ring, hashes)
    ensures Ring(ring[|hashes| % FRAME := h], hashes + [h])
  {
    var n := |hashes|;
    forall j | 0 <= j <= n && n + 1 - FRAME <= j
      ensures ring[n % FRAME := h][j % FRAME] == (hashes + [h])[j]
    {
      if j < n { assert 0 < n - j < FRAME; }
    }
  }

  /** The frame as the ring gives it: the last five hashes, oldest first. */
  method Frame(ring: seq<int>, tokens: nat, ghost hashes: seq<int>) returns (frame: Bytes)
    requires Ring(ring, hashes) && tokens == |hashes| >= FRAME
    ensures frame == LastFrame(hashes)
  {
    ghost var last := hashes[tokens - FRAME..];
    frame := [];
    for i := 0 to FRAME
      invariant frame == FrameOf(last[..i])
    {
      assert last[..i + 1][..i] == last[..i];
      assert last[i] == hashes[tokens - FRAME + i];
      frame := frame + Bytes8(ring[(tokens - FRAME + i) % FRAME]);
    }
    assert last[..FRAME] == last;
  }

  function LastFrame(hashes: seq<int>): Bytes
    requires |hashes| >= FRAME
  {
    FrameOf(hashes[|hashes| - FRAME..])
  }

  lemma ShinglesNext(t: Tables, done: seq<Bytes>, token: Bytes)
    ensures var hashes, after := Hashes(t, done), Hashes(t, done + [token]);
      && after == hashes + [t.sha(token)]
      && (|after| < FRAME ==> ShinglesOf(t, after) == ShinglesOf(t, hashes))
      && (|after| >= FRAME ==> ShinglesOf(t, after) == ShinglesOf(t, hashes) + [t.sha(LastFrame(after))])
  {
    var hashes, after := Hashes(t, done), Hashes(t, done + [token]);
    assert after == hashes + [t.sha(token)];
    assert after[..|done|] == hashes;
  }

  /** The text of whole units, after `before`; and the half pair and the odd byte that wait. */
  lemma OneUnit(w: Wide, b: Bytes, littleEndian: bool)
    requires |b| >= 2
    ensures Convert(w, b, littleEndian) == Convert(Next(w, Unit(b[0], b[1], littleEndian)), b[2..], littleEndian)
    ensures Odd(b) == Odd(b[2..])
  {}

  method TakeUnits(high0: int, b: Bytes, littleEndian: bool, ghost before: Bytes) returns (text: Bytes, high: int, rest: Bytes)
    ensures Wide(before + text, high) == Convert(Wide(before, high0), b, littleEndian) && rest == Odd(b)
  {
    text, high, rest := [], high0, b;
    ghost var whole, odd := Convert(Wide(before, high0), b, littleEndian), Odd(b);
    assert before + [] == before;
    while |rest| >= 2
      invariant Convert(Wide(before + text, high), rest, littleEndian) == whole && Odd(rest) == odd
      decreases |rest|
    {
      var v := Unit(rest[0], rest[1], littleEndian);
      OneUnit(Wide(before + text, high), rest, littleEndian);
      rest := rest[2..];
      text, high := TakeUnit(text, high, v, before);
    }
  }

  method TakeUnit(text0: Bytes, high0: int, v: int, ghost before: Bytes) returns (text: Bytes, high: int)
    ensures Wide(before + text, high) == Next(Wide(before + text0, high0), v)
  {
    text, high := text0, high0;
    if high != 0 {
      text := Append(text, Pair(high, v), before);
      high := 0;
      if IsLow(v) { return; }
    }
    if IsHigh(v) {
      high := v;
    } else {
      text := Append(text, v, before);
    }
  }

  method Append(text0: Bytes, r: int, ghost before: Bytes) returns (text: Bytes)
    ensures before + text == before + text0 + EncodeRune(r)
  {
    text := text0 + EncodeRune(r);
  }

  lemma ConvertedMore(input: Bytes, b: Bytes)
    requires |input| >= 2
    ensures Converted(input + b) == Convert(Converted(input), Odd(input[2..]) + b, input[0] == 0xFF)
    ensures Odd((input + b)[2..]) == Odd(Odd(input[2..]) + b)
    ensures IsWide(input + b) == IsWide(input) && (input + b)[0] == input[0]
  {
    assert (input + b)[2..] == input[2..] + b;
    ConvertSplit(Wide([], 0), input[2..], b, input[0] == 0xFF);
  }

  /** What is known of a file after its first two bytes. */
  ghost predicate Decided(input: Bytes, text: Bytes, wide: bool, littleEndian: bool, tail: Bytes, high: int)
  {
    && |input| >= 2 && wide == IsWide(input) && littleEndian == (input[0] == 0xFF)
    && (if wide then text == Converted(input).text && tail == Odd(input[2..]) && high == Converted(input).high
        else text == input && tail == [] && high == 0)
  }

  /** The runes taken in so far, as tokens, votes and scripts. */
  class TokenScan {
    const t: Tables
    var token: Bytes
    var tokenHash: Option
    var shingle: seq<int>
    var tokens: nat
    var shingleCounts: Counts
    var votes: seq<int>
    var scripts: seq<int>

    /** The runes, and the tokens that have ended. */
    ghost var runes: seq<int>
    ghost var done: seq<Bytes>

    constructor (t: Tables)
      ensures Valid() && this.t == t && runes == []
    {
      this.t := t;
      token, tokenHash, shingle, tokens := [], None, seq(FRAME, i => 0), 0;
      shingleCounts, votes, scripts := map[], seq(BITS, i => 0), seq(SCRIPTS, i => 0);
      runes, done := [], [];
      new;
      forall i: nat | i < BITS ensures TalliedAt(votes, map[], [], i) {}
      assert Hashes(t, done) == [];
    }

    /** The token that goes on: what has gone to its hash already, and the rest. */
    function Token(): Bytes
      reads `token, `tokenHash
    {
      (if tokenHash.Some? then tokenHash.hashed else []) + token
    }

    ghost predicate Voted()
      reads `shingle, `tokens, `shingleCounts, `votes, `done
    {
      && tokens == |done| && Ring(shingle, Hashes(t, done))
      && Tallied(votes, shingleCounts, ShinglesOf(t, Hashes(t, done)))
    }

    ghost predicate Valid()
      reads this
    {
      && Voted() && Tokens(done, Token()) == TokensOf(t, runes) && (token == [] ==> tokenHash.None?)
      && |scripts| == SCRIPTS && forall s :: 0 <= s < SCRIPTS ==> scripts[s] == Count(t, runes, s)
    }

    /** A token ends: its hash joins the last four, and the five make a shingle. */
    method FlushToken()
      requires Voted() && (token == [] ==> tokenHash.None?)
      modifies `token, `tokenHash, `shingle, `tokens, `shingleCounts, `votes, `done
      ensures Voted() && token == [] && tokenHash.None?
      ensures done == old(Ended(Tokens(done, Token())).done)
    {
      if token == [] && tokenHash.None? { return; }
      var whole := Token();
      token, tokenHash := [], None;
      EndToken(whole);
    }

    method EndToken(whole: Bytes)
      requires Voted()
      modifies `shingle, `tokens, `shingleCounts, `votes, `done
      ensures Voted() && done == old(done) + [whole]
    {
      ghost var hashes, after := Hashes(t, done), Hashes(t, done + [whole]);
      ghost var shingles := ShinglesOf(t, hashes);
      ShinglesNext(t, done, whole);
      var h := t.sha(whole);
      RingNext(shingle, hashes, h);
      shingle := shingle[tokens % FRAME := h];
      tokens := tokens + 1;
      if tokens >= FRAME {
        var frame := Frame(shingle, tokens, after);
        Vote(t.sha(frame), shingles);
      }
      done := done + [whole];
    }

    /** Counts a shingle, and turns the counts into votes when there are many. */
    method Vote(v: int, ghost shingles: seq<int>)
      requires Tallied(votes, shingleCounts, shingles)
      modifies `shingleCounts, `votes
      ensures Tallied(votes, shingleCounts, shingles + [v])
    {
      TallyOne(votes, shingleCounts, shingles, v);
      shingleCounts := Bumped(shingleCounts, v);
      if |shingleCounts| >= BATCH {
        votes := Flush(votes, shingleCounts, shingles + [v]);
        shingleCounts := map[];
      }
    }

    /** One rune: it counts for its script, and goes on with the token or ends it. */
    method TakeRune(r: int)
      requires Valid()
      modifies `token, `tokenHash, `shingle, `tokens, `shingleCounts, `votes, `scripts, `done, `runes
      ensures Valid() && runes == old(runes) + [r]
    {
      forall s | 0 <= s < SCRIPTS ensures Count(t, runes + [r], s) == Count(t, runes, s) + if t.letter(r) && ScriptOf(t, r) == s then 1 else 0 {
      }
      runes := runes + [r];
      if t.letter(r) { scripts := scripts[ScriptOf(t, r) := scripts[ScriptOf(t, r)] + 1]; }
      if t.letter(r) || t.digit(r) { Extend(EncodeRune(t.lower(r))); } else { FlushToken(); }
    }

    /** Beyond 256 bytes a token goes to its hash piece by piece. */
    method Extend(b: Bytes)
      requires b != [] && (token == [] ==> tokenHash.None?)
      modifies `token, `tokenHash
      ensures Token() == old(Token()) + b && token != []
    {
      if |token| >= TOKEN {
        tokenHash := Some((if tokenHash.Some? then tokenHash.hashed else []) + token);
        token := [];
      }
      token := token + b;
    }

    /** The runes of these bytes, one by one; what is left is the start of a rune that is cut off. */
    method TakeRunes(b: Bytes) returns (rest: Bytes)
      requires Valid()
      modifies `token, `tokenHash, `shingle, `tokens, `shingleCounts, `votes, `scripts, `done, `runes
      ensures Valid() && runes == old(runes) + Runes(b) && rest == CutOff(b)
    {
      rest := b;
      assert runes + Runes(rest) == old(runes) + Runes(b);
      while FullRune(rest)
        invariant Valid() && runes + Runes(rest) == old(runes) + Runes(b) && CutOff(rest) == CutOff(b)
        decreases |rest|
      {
        var (r, n) := DecodeRune(rest);
        assert runes + Runes(rest) == (runes + [r]) + Runes(rest[n..]);
        TakeRune(r);
        rest := rest[n..];
      }
    }

    /** The last token ends and all votes are counted. */
    method Finish() returns (found: Found)
      requires Valid()
      modifies this
      ensures found == FoundOf(t, old(runes))
    {
      FlushToken();
      ghost var shingles := ShinglesOf(t, Hashes(t, done));
      votes := Flush(votes, shingleCounts, shingles);
      shingleCounts := map[];
      found := Found(tokens, scripts, votes);
      assert votes == FoundOf(t, runes).votes by {
        forall i: nat | i < BITS ensures votes[i] == Votes(shingles, i) { assert TalliedAt(votes, map[], shingles, i); }
      }
    }
  }

  class FileInspection {
    const scan: TokenScan
    var decided: bool
    var wideUTF16: bool
    var littleEndian: bool
    var start: Bytes
    var wideTail: Bytes
    var highSurrogate: int
    var utfTail: Bytes

    /** What has been written, and the text it gave. */
    ghost var input: Bytes
    ghost var text: Bytes

    constructor (t: Tables)
      ensures Valid() && Written() && scan.t == t && input == [] && fresh(scan)
    {
      scan := new TokenScan(t);
      decided, wideUTF16, littleEndian, start, wideTail, highSurrogate := false, false, false, [], [], 0;
      utfTail, input, text := [], [], [];
    }

    /** The runes taken in are those of the text, and the end that is cut off waits. */
    ghost predicate Valid()
      reads `text, `utfTail, scan
    {
      scan.Valid() && scan.runes == Runes(text) && utfTail == CutOff(text)
    }

    /** The text is that of what has been written. */
    ghost predicate Written()
      reads `text, `input, `decided, `start, `wideUTF16, `littleEndian, `wideTail, `highSurrogate
    {
      if decided then Decided(input, text, wideUTF16, littleEndian, wideTail, highSurrogate)
      else start == input && |input| < 2 && text == [] && wideTail == [] && highSurrogate == 0
    }

    /** More text. */
    method WriteText(b: Bytes)
      requires Valid()
      modifies scan, `utfTail, `text
      ensures Valid() && text == old(text) + b
    {
      RunesSplit(text, b);
      utfTail := scan.TakeRunes(utfTail + b);
      text := text + b;
    }

    /** More UTF-16: whole units become text, an odd byte and half a pair wait. */
    method WriteWide(b: Bytes)
      requires Valid() && Decided(input, text, true, littleEndian, wideTail, highSurrogate)
      modifies scan, `utfTail, `text, `wideTail, `highSurrogate, `input
      ensures Valid() && input == old(input) + b && Decided(input, text, true, littleEndian, wideTail, highSurrogate)
    {
      ConvertedMore(input, b);
      var added;
      added, highSurrogate, wideTail := TakeUnits(highSurrogate, wideTail + b, littleEndian, text);
      input := input + b;
      WriteText(added);
    }

    /** Once two bytes have come, they decide whether the file is UTF-16. */
    method Decide() returns (two: Bytes)
      requires !decided && |start| == 2 && wideTail == [] && highSurrogate == 0
      modifies `decided, `wideUTF16, `littleEndian, `start
      ensures decided && two == old(start) && start == [] && wideUTF16 == IsWide(two) && littleEndian == (two[0] == 0xFF)
      ensures Decided(two, if wideUTF16 then [] else two, wideUTF16, littleEndian, wideTail, highSurrogate)
    {
      decided, two := true, start;
      wideUTF16 := (two[0] == 0xFF && two[1] == 0xFE) || (two[0] == 0xFE && two[1] == 0xFF);
      littleEndian := two[0] == 0xFF;
      TwoBytes(two);
      start := [];
    }

    /** The next bytes of the file. */
    method Write(b: Bytes)
      requires Valid() && Written()
      modifies this, scan
      ensures Valid() && Written() && input == old(input) + b
    {
      var rest := b;
      if !decided {
        rest := Begin(b);
        if !decided { return; }
      }
      if wideUTF16 {
        WriteWide(rest);
      } else {
        WriteText(rest);
        input := input + rest;
      }
    }

    /** Takes up to two bytes to decide on; what is left of the piece comes after them. */
    method Begin(b: Bytes) returns (rest: Bytes)
      requires Valid() && Written() && !decided
      modifies this, scan
      ensures Valid() && Written() && input + rest == old(input) + b && (decided <==> |input| == 2)
      ensures !decided ==> input == old(input) + b
    {
      rest := TakeStart(b);
      input := start;
      if |start| < 2 {
        assert rest == [] && input + [] == input;
      } else {
        Settle();
      }
    }

    /** Up to two bytes wait until there are two. */
    method TakeStart(b: Bytes) returns (rest: Bytes)
      requires |start| < 2
      modifies `start
      ensures start + rest == old(start) + b && |start| <= 2 && (|start| < 2 ==> rest == [])
    {
      var take := if 2 - |start| < |b| then 2 - |start| else |b|;
      start := start + b[..take];
      rest := b[take..];
      assert b[..take] + b[take..] == b;
    }

    /** The first two bytes decide, and are text themselves when the file is not UTF-16. */
    method Settle()
      requires Valid() && !decided && |start| == 2 && start == input && text == [] && wideTail == [] && highSurrogate == 0
      modifies scan, `decided, `wideUTF16, `littleEndian, `start, `utfTail, `text
      ensures Valid() && decided && Decided(input, text, wideUTF16, littleEndian, wideTail, highSurrogate)
    {
      var two := Decide();
      if !wideUTF16 { WriteText(two); }
    }

    /** The end of the file: what waits is taken in. */
    method Finish() returns (found: Found)
      requires Valid() && Written()
      modifies this, scan
      ensures found == FoundIn(scan.t, input) && input == old(input)
    {
      FinishText();
      found := scan.Finish();
    }

    /** A file of fewer than two bytes is text. */
    method FinishShort()
      requires Valid() && Written() && !decided
      modifies scan, `decided, `start, `utfTail, `text
      ensures Valid() && text == FinalText(input) && highSurrogate == 0 && wideTail == []
    {
      FinalShort(input);
      WriteText(start);
      start, decided := [], true;
    }

    method FinishText()
      requires Valid() && Written()
      modifies scan, `decided, `start, `wideTail, `highSurrogate, `utfTail, `text
      ensures Valid() && text == FinalText(input)
    {
      if !decided {
        FinishShort();
      }
      if highSurrogate != 0 || wideTail != [] {
        WriteText(EncodeRune(REPLACEMENT));
        highSurrogate, wideTail := 0, [];
      }
    }
  }

  lemma FinalShort(input: Bytes)
    requires |input| < 2
    ensures FinalText(input) == input == [] + input
  {}

  lemma TwoBytes(input: Bytes)
    requires |input| == 2
    ensures Converted(input) == Wide([], 0) && Odd(input[2..]) == [] && [] + input == input
  {
    assert input[2..] == [];
  }

  datatype Option = None | Some(hashed: Bytes)

  function Joined(pieces: seq<Bytes>): Bytes
  {
    if pieces == [] then [] else Joined(pieces[..|pieces| - 1]) + pieces[|pieces| - 1]
  }

  /** However a file is cut into pieces, inspecting it finds the same. */
  method Inspect(t: Tables, pieces: seq<Bytes>) returns (found: Found)
    ensures found == FoundIn(t, Joined(pieces))
  {
    var f := new FileInspection(t);
    for i := 0 to |pieces|
      invariant fresh(f) && fresh(f.scan) && f.scan.t == t && f.Valid() && f.Written() && f.input == Joined(pieces[..i])
    {
      f.Write(pieces[i]);
      assert pieces[..i + 1][..i] == pieces[..i];
    }
    assert pieces[..|pieces|] == pieces;
    found := f.Finish();
  }
}
