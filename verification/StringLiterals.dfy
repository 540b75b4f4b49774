/** String literals there and back: the stringifier escapes and quotes bytes, the lexer scans the
    quoted text in chunks of 32 bytes, the parser undoes the escapes. */
module StringLiterals {
  import opened Words

  const NUL: u8 := 0
  const TAB: u8 := 9
  const NEWLINE: u8 := 10
  const RETURN: u8 := 13
  const QUOTE: u8 := 34
  const APOSTROPHE: u8 := 39
  const ZERO: u8 := 48
  const BACKSLASH: u8 := 92
  const LETTER_N: u8 := 110
  const LETTER_R: u8 := 114
  const LETTER_T: u8 := 116
  const CHUNK: nat := 32

  // ---- writing --------------------------------------------------------------------------------------

  function EscapeByte(c: u8): (r: seq<u8>)
    ensures 1 <= |r| <= 2
  {
    if c == NEWLINE then [BACKSLASH, LETTER_N]
    else if c == RETURN then [BACKSLASH, LETTER_R]
    else if c == TAB then [BACKSLASH, LETTER_T]
    else if c == BACKSLASH then [BACKSLASH, BACKSLASH]
    else if c == QUOTE then [BACKSLASH, QUOTE]
    else if c == NUL then [BACKSLASH, ZERO]
    else [c]
  }

  function Escaped(data: seq<u8>): seq<u8> {
    if data == [] then [] else EscapeByte(data[0]) + Escaped(data[1..])
  }

  function Quoted(data: seq<u8>): seq<u8> { [QUOTE] + Escaped(data) + [QUOTE] }

  lemma {:induction false} EscapedPush(data: seq<u8>, c: u8)
    ensures Escaped(data + [c]) == Escaped(data) + EscapeByte(c)
  {
    if data == [] {
      assert data + [c] == [c] && [c][1..] == [];
    } else {
      assert (data + [c])[1..] == data[1..] + [c];
      EscapedPush(data[1..], c);
    }
  }

  /** `AcuAstStringifier_AppendEscapedStr`. */
  method AppendEscaped(buffer: seq<u8>, data: seq<u8>) returns (r: seq<u8>)
    ensures r == buffer + Quoted(data)
  {
    hide EscapeByte;
    r := buffer + [QUOTE];
    for i := 0 to |data|
      invariant r == buffer + [QUOTE] + Escaped(data[..i])
    {
      EscapedPush(data[..i], data[i]);
      assert data[..i + 1] == data[..i] + [data[i]];
      r := r + EscapeByte(data[i]);
    }
    assert data[..|data|] == data;
    r := r + [QUOTE];
  }

  // ---- finding the end of a run of plain bytes ------------------------------------------------------

  /** The bytes at which the chunk scan stops. */
  predicate IsStop(c: u8) { c == QUOTE || c == BACKSLASH || c == NUL || c == NEWLINE }

  /** `_mm256_movemask_epi8`: one bit per byte, the first byte lowest. */
  function MoveMask(matches: seq<bool>): nat {
    if matches == [] then 0 else (if matches[0] then 1 else 0) + 2 * MoveMask(matches[1..])
  }

  /** The mask is zero exactly when nothing matches, and otherwise its trailing zeros count the bytes
      before the first match. */
  lemma {:induction false} MaskFindsFirst(matches: seq<bool>)
    ensures MoveMask(matches) == 0 <==> forall i :: 0 <= i < |matches| ==> !matches[i]
    ensures MoveMask(matches) > 0 ==>
              var k := TrailingZeros(MoveMask(matches));
              k < |matches| && matches[k] && forall i :: 0 <= i < k ==> !matches[i]
  {
    if matches != [] {
      MaskFindsFirst(matches[1..]);
      var rest := MoveMask(matches[1..]);
      assert forall i :: 0 < i < |matches| ==> matches[i] == matches[1..][i - 1];
      if !matches[0] && rest > 0 {
        assert MoveMask(matches) == 2 * rest && TrailingZeros(2 * rest) == 1 + TrailingZeros(rest);
        assert matches[1..][TrailingZeros(rest)];
      }
    }
  }

  /** The source text is followed by a zero byte and a whole chunk of readable bytes. */
  predicate Padded(buf: seq<u8>, limit: nat) { limit + CHUNK <= |buf| && buf[limit] == NUL }

  /** `at` is the first stop at or behind `from`. */
  predicate FirstStop(buf: seq<u8>, from: nat, at: nat) {
    from <= at < |buf| && IsStop(buf[at]) && forall i :: from <= i < at ==> !IsStop(buf[i])
  }

  /** `find_string_end_avx2`: chunk by chunk, the same byte a bytewise search finds. */
  method FindStringEnd(buf: seq<u8>, limit: nat, from: nat) returns (at: nat)
    requires Padded(buf, limit) && from <= limit
    ensures FirstStop(buf, from, at) && at <= limit
  {
    var ptr := from;
    while true
      invariant from <= ptr <= limit && forall i :: from <= i < ptr ==> !IsStop(buf[i])
      decreases limit - ptr
    {
      var matches := seq(CHUNK, i requires 0 <= i < CHUNK => IsStop(buf[ptr + i]));
      var mask := MoveMask(matches);
      MaskFindsFirst(matches);
      if mask != 0 {
        at := ptr + TrailingZeros(mask);
        assert forall i :: ptr <= i < at ==> IsStop(buf[i]) == matches[i - ptr];
        return;
      }
      assert forall i :: ptr <= i < ptr + CHUNK ==> IsStop(buf[i]) == matches[i - ptr];
      ptr := ptr + CHUNK;
    }
  }

  // ---- scanning -------------------------------------------------------------------------------------

  predicate IsEscapeLetter(c: u8) {
    c == LETTER_N || c == LETTER_R || c == LETTER_T || c == BACKSLASH || c == QUOTE || c == ZERO
  }

  /** Scanning byte by byte from behind the opening quote: the index behind the closing one. */
  function ScanFrom(buf: seq<u8>, limit: nat, i: nat): Option<nat>
    decreases limit - i
  {
    if i >= limit || i + 1 >= |buf| then None
    else if buf[i] == QUOTE then Some(i + 1)
    else if buf[i] == BACKSLASH then
      if IsEscapeLetter(buf[i + 1]) then ScanFrom(buf, limit, i + 2) else None
    else if IsStop(buf[i]) then None
    else ScanFrom(buf, limit, i + 1)
  }

  lemma {:induction false} ScanSkips(buf: seq<u8>, limit: nat, i: nat, at: nat)
    requires Padded(buf, limit) && FirstStop(buf, i, at) && at <= limit
    ensures ScanFrom(buf, limit, i) == ScanFrom(buf, limit, at)
    decreases at - i
  {
    if i < at {
      ScanSkips(buf, limit, i + 1, at);
    }
  }

  /** `scan_string`: the index behind the string, if it is one. */
  method ScanString(buf: seq<u8>, limit: nat, start: nat) returns (end: Option<nat>)
    requires Padded(buf, limit) && start <= limit
    ensures end == ScanFrom(buf, limit, start)
  {
    var current := start;
    while true
      invariant start <= current <= limit && ScanFrom(buf, limit, current) == ScanFrom(buf, limit, start)
      decreases limit - current
    {
      var at := FindStringEnd(buf, limit, current);
      ScanSkips(buf, limit, current, at);
      if at >= limit { return None; }
      if buf[at] == QUOTE { return Some(at + 1); }
      if buf[at] == BACKSLASH {
        if !IsEscapeLetter(buf[at + 1]) { return None; }
        current := at + 2;
      } else {
        return None;
      }
    }
  }

  // ---- undoing the escapes --------------------------------------------------------------------------

  function UnescapeLetter(c: u8): u8 {
    if c == LETTER_N then NEWLINE
    else if c == LETTER_T then TAB
    else if c == LETTER_R then RETURN
    else if c == ZERO then NUL
    else c
  }

  predicate KnownEscape(c: u8) { IsEscapeLetter(c) || c == APOSTROPHE }

  function Unescaped(raw: seq<u8>): seq<u8> {
    if raw == [] then []
    else if raw[0] == BACKSLASH && |raw| > 1 then [UnescapeLetter(raw[1])] + Unescaped(raw[2..])
    else [raw[0]] + Unescaped(raw[1..])
  }

  /** Every escape in the text is one the parser knows. */
  predicate EscapesKnown(raw: seq<u8>) {
    raw == [] ||
    if raw[0] == BACKSLASH && |raw| > 1 then KnownEscape(raw[1]) && EscapesKnown(raw[2..])
    else EscapesKnown(raw[1..])
  }

  lemma {:induction false} NothingToUnescape(raw: seq<u8>, rest: seq<u8>)
    requires BACKSLASH !in raw
    ensures Unescaped(raw + rest) == raw + Unescaped(rest)
    ensures EscapesKnown(raw + rest) == EscapesKnown(rest)
  {
    if raw == [] {
      assert raw + rest == rest;
    } else {
      assert (raw + rest)[1..] == raw[1..] + rest;
      NothingToUnescape(raw[1..], rest);
    }
  }

  lemma EmptyText()
    ensures Unescaped([]) == [] && EscapesKnown([])
  {
  }

  /** What one turn of the unescaping loop reads, at `i`. */
  lemma UnescapeStep(raw: seq<u8>, i: nat)
    requires i < |raw|
    ensures if raw[i] == BACKSLASH && i + 1 < |raw| then
              Unescaped(raw[i..]) == [UnescapeLetter(raw[i + 1])] + Unescaped(raw[i + 2..]) &&
              EscapesKnown(raw[i..]) == (KnownEscape(raw[i + 1]) && EscapesKnown(raw[i + 2..]))
            else
              Unescaped(raw[i..]) == [raw[i]] + Unescaped(raw[i + 1..]) &&
              EscapesKnown(raw[i..]) == EscapesKnown(raw[i + 1..])
  {
    var rest := raw[i..];
    assert rest[1..] == raw[i + 1..];
    if i + 1 < |raw| { assert rest[2..] == raw[i + 2..] && rest[1] == raw[i + 1]; }
  }

  /** `AcuParser_ParseStringLiteralValue`: the value, and whether an unknown escape was reported. */
  method ParseStringValue(raw: seq<u8>) returns (value: seq<u8>, ok: bool)
    ensures value == Unescaped(raw) && ok == EscapesKnown(raw)
  {
    hide UnescapeLetter;
    hide KnownEscape;
    hide Unescaped;
    hide EscapesKnown;
    EmptyText();
    var slash := 0;
    while slash < |raw| && raw[slash] != BACKSLASH
      invariant slash <= |raw| && BACKSLASH !in raw[..slash]
    {
      slash := slash + 1;
    }
    NothingToUnescape(raw[..slash], raw[slash..]);
    assert raw == raw[..slash] + raw[slash..];
    if slash == |raw| {
      assert raw[slash..] == [];
      return raw, true;
    }
    value, ok := raw[..slash], true;
    var i := slash;
    while i < |raw|
      invariant slash <= i <= |raw|
      invariant value + Unescaped(raw[i..]) == Unescaped(raw)
      invariant (ok && EscapesKnown(raw[i..])) == EscapesKnown(raw)
    {
      var c := raw[i];
      UnescapeStep(raw, i);
      if c == BACKSLASH && i + 1 < |raw| {
        i := i + 1;
        if !KnownEscape(raw[i]) { ok := false; }
        c := UnescapeLetter(raw[i]);
      }
      value := value + [c];
      i := i + 1;
    }
    assert raw[i..] == [];
  }

  // ---- the round trip -------------------------------------------------------------------------------

  lemma EscapeByteShape(c: u8)
    ensures var e := EscapeByte(c);
            if |e| == 2 then e[0] == BACKSLASH && IsEscapeLetter(e[1]) && UnescapeLetter(e[1]) == c
            else e == [c] && !IsStop(c)
  {
  }

  /** Unescaping undoes escaping, for every byte string. */
  lemma {:induction false} UnescapedEscaped(data: seq<u8>)
    ensures Unescaped(Escaped(data)) == data && EscapesKnown(Escaped(data))
  {
    hide EscapeByte;
    hide UnescapeLetter;
    hide IsEscapeLetter;
    if data != [] {
      var e, rest := EscapeByte(data[0]), Escaped(data[1..]);
      EscapeByteShape(data[0]);
      UnescapedEscaped(data[1..]);
      assert (e + rest)[|e|..] == rest;
    }
  }

  /** Escaped text holds nothing at which scanning would end. */
  lemma {:induction false} ScanPassesEscaped(buf: seq<u8>, limit: nat, i: nat, data: seq<u8>)
    requires limit <= |buf| && i + |Escaped(data)| < limit && buf[i..i + |Escaped(data)|] == Escaped(data)
    ensures ScanFrom(buf, limit, i) == ScanFrom(buf, limit, i + |Escaped(data)|)
    decreases data
  {
    hide EscapeByte;
    hide IsEscapeLetter;
    if data != [] {
      var e, rest := EscapeByte(data[0]), Escaped(data[1..]);
      EscapeByteShape(data[0]);
      var text := buf[i..i + |Escaped(data)|];
      assert buf[i] == text[0] == e[0];
      assert |e| == 2 ==> buf[i + 1] == text[1] == e[1];
      assert buf[i + |e|..i + |e| + |rest|] == text[|e|..] == rest;
      ScanPassesEscaped(buf, limit, i + |e|, data[1..]);
    }
  }

  /** The quoted, escaped form of any bytes is scanned as one string token of exactly its length (as
      long as the 16-bit token length holds it), and the text between its quotes unescapes to the
      bytes. */
  lemma StringRoundTrip(buf: seq<u8>, limit: nat, start: nat, data: seq<u8>)
    requires Padded(buf, limit) && start + |Quoted(data)| <= limit
    requires buf[start..start + |Quoted(data)|] == Quoted(data) && |Quoted(data)| <= 0xFFFF
    ensures ScanFrom(buf, limit, start + 1) == Some(start + |Quoted(data)|)
    ensures var length := |Quoted(data)| % 0x1_0000;
            var text := buf[start + 1..start + length - 1];
            length == |Quoted(data)| && Unescaped(text) == data && EscapesKnown(text)
  {
    var quoted, n := buf[start..start + |Quoted(data)|], |Escaped(data)|;
    SliceOfSlice(buf, start, start + n + 2, 1, 1 + n);
    assert quoted[1..1 + n] == Escaped(data);
    assert buf[start + 1 + n] == quoted[1 + n] == QUOTE;
    ScanPassesEscaped(buf, limit, start + 1, data);
    UnescapedEscaped(data);
  }

  lemma SliceOfSlice(buf: seq<u8>, lo: nat, hi: nat, a: nat, b: nat)
    requires a <= b && lo + b <= hi <= |buf|
    ensures buf[lo..hi][a..b] == buf[lo + a..lo + b]
  {
    var x, y := buf[lo..hi][a..b], buf[lo + a..lo + b];
    forall k | 0 <= k < b - a ensures x[k] == y[k] {
      assert x[k] == buf[lo..hi][a + k];
    }
  }
}
