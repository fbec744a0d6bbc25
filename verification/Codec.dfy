/** Percent-encoding. Text is a sequence of bytes; a Rust `str` is one that is valid UTF-8. */
module Codec {
  import opened Wrappers

  type Byte = b: int | 0 <= b < 256
  type Bytes = seq<Byte>

  const PERCENT: Byte := 37

  datatype DecodeError = BadEscape | BadUtf8

  function Hex(value: Byte): (digit: Option<int>)
    ensures digit.Some? ==> 0 <= digit.value < 16
  {
    if 48 <= value <= 57 then Some(value - 48)
    else if 97 <= value <= 102 then Some(value - 97 + 10)
    else if 65 <= value <= 70 then Some(value - 65 + 10)
    else None
  }

  /** `s` starts with `%` and two hexadecimal digits. */
  predicate StartsWithEscape(s: Bytes) {
    |s| >= 3 && s[0] == PERCENT && Hex(s[1]).Some? && Hex(s[2]).Some?
  }

  function EscapedByte(s: Bytes): Byte
    requires StartsWithEscape(s)
  {
    Hex(s[1]).value * 16 + Hex(s[2]).value
  }

  /** Byte-at-a-time decoding, as in section 2.1 of RFC 3986; `None` for a bad escape. */
  function Unescape(s: Bytes): Option<Bytes> {
    if s == [] then Some([])
    else if s[0] != PERCENT then Prepend([s[0]], Unescape(s[1..]))
    else if StartsWithEscape(s) then Prepend([EscapedByte(s)], Unescape(s[3..]))
    else None
  }

  function Prepend(prefix: Bytes, rest: Option<Bytes>): Option<Bytes> {
    match rest
    case None => None
    case Some(bytes) => Some(prefix + bytes)
  }

  /** Every `%` that is not part of an earlier escape starts one. */
  predicate WellEscaped(s: Bytes) {
    || s == []
    || (s[0] != PERCENT && WellEscaped(s[1..]))
    || (StartsWithEscape(s) && WellEscaped(s[3..]))
  }

  predicate Continuation(b: Byte) {
    0x80 <= b < 0xC0
  }

  /** Well-formed UTF-8 (section 4 of RFC 3629). */
  predicate ValidUtf8(s: Bytes) {
    || s == []
    || (s[0] < 0x80 && ValidUtf8(s[1..]))
    || (|s| >= 2 && 0xC2 <= s[0] < 0xE0 && Continuation(s[1]) && ValidUtf8(s[2..]))
    || (|s| >= 3 && 0xE0 <= s[0] < 0xF0 && Continuation(s[1]) && Continuation(s[2])
        && (s[0] == 0xE0 ==> s[1] >= 0xA0) && (s[0] == 0xED ==> s[1] < 0xA0) && ValidUtf8(s[3..]))
    || (|s| >= 4 && 0xF0 <= s[0] < 0xF5 && Continuation(s[1]) && Continuation(s[2]) && Continuation(s[3])
        && (s[0] == 0xF0 ==> s[1] >= 0x90) && (s[0] == 0xF4 ==> s[1] < 0x90) && ValidUtf8(s[4..]))
  }

  /** What decoding `s` gives. */
  function Decode(s: Bytes): Result<Bytes, DecodeError> {
    match Unescape(s)
    case None => Failure(BadEscape)
    case Some(bytes) => if ValidUtf8(bytes) then Success(bytes) else Failure(BadUtf8)
  }

  /** How many bytes from `index` on are not `%`, up to the next one. */
  method LiteralRun(bytes: Bytes, index: nat) returns (run: nat)
    requires index <= |bytes|
    ensures index + run <= |bytes| && PERCENT !in bytes[index..index + run]
    ensures index + run == |bytes| || bytes[index + run] == PERCENT
  {
    run := 0;
    while index + run < |bytes| && bytes[index + run] != PERCENT
      invariant index + run <= |bytes| && PERCENT !in bytes[index..index + run]
    {
      run := run + 1;
    }
  }

  lemma {:induction false} RunIsCopied(s: Bytes, run: nat)
    requires run <= |s| && PERCENT !in s[..run]
    ensures Unescape(s) == Prepend(s[..run], Unescape(s[run..]))
  {
    if run > 0 {
      assert s[..run][0] == s[0];
      assert forall b :: b in s[1..][..run - 1] ==> b in s[..run];
      RunIsCopied(s[1..], run - 1);
      assert s[1..][run - 1..] == s[run..];
      PrependTwice([s[0]], s[1..][..run - 1], Unescape(s[run..]));
      assert [s[0]] + s[1..][..run - 1] == s[..run];
    } else {
      assert s[0..] == s;
      PrependNothing(Unescape(s));
    }
  }

  lemma PrependNothing(rest: Option<Bytes>)
    ensures Prepend([], rest) == rest
  {
    if rest.Some? {
      assert [] + rest.value == rest.value;
    }
  }

  lemma PrependTwice(a: Bytes, b: Bytes, rest: Option<Bytes>)
    ensures Prepend(a, Prepend(b, rest)) == Prepend(a + b, rest)
  {
    if rest.Some? {
      assert a + (b + rest.value) == a + b + rest.value;
    }
  }

  /** `percent_decode`, which copies whole literal runs: the same as decoding byte by byte. */
  method PercentDecode(value: Bytes) returns (decoded: Result<Bytes, DecodeError>)
    ensures decoded == Decode(value)
  {
    var output: Bytes := [];
    var index := 0;
    assert value[0..] == value;
    PrependNothing(Unescape(value));
    while index < |value|
      invariant 0 <= index <= |value|
      invariant Unescape(value) == Prepend(output, Unescape(value[index..]))
    {
      var run := LiteralRun(value, index);
      assert value[index..][..run] == value[index..index + run];
      RunIsCopied(value[index..], run);
      assert value[index..][run..] == value[index + run..];
      PrependTwice(output, value[index..index + run], Unescape(value[index + run..]));
      output := output + value[index..index + run];
      index := index + run;
      if index == |value| {
        break;
      }
      if index + 2 >= |value| {
        return Failure(BadEscape);
      }
      var high := Hex(value[index + 1]);
      if high.None? {
        return Failure(BadEscape);
      }
      var low := Hex(value[index + 2]);
      if low.None? {
        return Failure(BadEscape);
      }
      assert value[index..][3..] == value[index + 3..];
      PrependTwice(output, [high.value * 16 + low.value], Unescape(value[index + 3..]));
      output := output + [high.value * 16 + low.value];
      index := index + 3;
    }
    assert value[index..] == [];
    assert output + [] == output;
    return if ValidUtf8(output) then Success(output) else Failure(BadUtf8);
  }

  /** `valid_percent_encoding` */
  method ValidPercentEncoding(value: Bytes) returns (valid: bool)
    ensures valid == WellEscaped(value)
  {
    var index := 0;
    while index < |value|
      invariant 0 <= index <= |value|
      invariant WellEscaped(value) == WellEscaped(value[index..])
    {
      if value[index] == PERCENT {
        if index + 2 >= |value| || Hex(value[index + 1]).None? || Hex(value[index + 2]).None? {
          return false;
        }
        assert value[index..][3..] == value[index + 3..];
        index := index + 3;
      } else {
        assert value[index..][1..] == value[index + 1..];
        index := index + 1;
      }
    }
    return true;
  }

  /** `decode_query_component`: the shortcut for text without `%` changes nothing. */
  method DecodeQueryComponent(value: Bytes) returns (decoded: Result<Bytes, DecodeError>)
    requires ValidUtf8(value)
    ensures decoded == Decode(value)
  {
    if PERCENT in value {
      decoded := PercentDecode(value);
    } else {
      PlainTextIsItself(value);
      decoded := Success(value);
    }
  }

  /** A bad escape is reported exactly when the encoding is not valid. */
  lemma {:induction false} BadEscapeExactly(s: Bytes)
    ensures Unescape(s).Some? <==> WellEscaped(s)
  {
    if s != [] {
      if s[0] != PERCENT {
        BadEscapeExactly(s[1..]);
      } else if StartsWithEscape(s) {
        BadEscapeExactly(s[3..]);
      }
    }
  }

  /** Text without `%` decodes to itself. */
  lemma PlainTextIsItself(s: Bytes)
    requires PERCENT !in s
    ensures Unescape(s) == Some(s) && WellEscaped(s)
  {
    RunIsCopied(s, |s|);
    assert s[..|s|] == s && s[|s|..] == [] && s + [] == s;
    BadEscapeExactly(s);
  }

  // ---- Encoding, the inverse ----

  const LOWER := "0123456789abcdef"
  const UPPER := "0123456789ABCDEF"

  /** `value` is a digit for `digit`, in either case. */
  predicate IsDigit(value: Byte, digit: int) {
    0 <= digit < 16 && (value == LOWER[digit] as int || value == UPPER[digit] as int)
  }

  /** The digits are those of both cases, and no other byte. */
  lemma HexExactly(value: Byte, digit: int)
    ensures Hex(value) == Some(digit) <==>
      0 <= digit < 16 && (value == "0123456789abcdef"[digit] as int || value == "0123456789ABCDEF"[digit] as int)
    ensures Hex(value) == Some(digit) <==> IsDigit(value, digit)
  {
    if 0 <= digit < 16 {
      assert LOWER[digit] as int == if digit < 10 then 48 + digit else 87 + digit;
      assert UPPER[digit] as int == if digit < 10 then 48 + digit else 55 + digit;
    }
  }

  /** `text` writes the bytes of `s` one by one: any but `%` as itself, and any as `%` and its two digits. */
  ghost predicate Writes(text: Bytes, s: Bytes) {
    if s == [] then text == []
    else
      || (text != [] && text[0] == s[0] != PERCENT && Writes(text[1..], s[1..]))
      || (|text| >= 3 && text[0] == PERCENT && IsDigit(text[1], s[0] / 16) && IsDigit(text[2], s[0] % 16)
          && Writes(text[3..], s[1..]))
  }

  /** Decoding is the inverse of writing, whatever was escaped and in whichever case. */
  lemma {:induction false} DecodingUndoesWriting(text: Bytes, s: Bytes)
    ensures Unescape(text) == Some(s) <==> Writes(text, s)
    decreases |text|
  {
    if text != [] {
      var step := if text[0] == PERCENT then 3 else 1;
      if s != [] && step <= |text| {
        DecodingUndoesWriting(text[step..], s[1..]);
        EscapeExactly(text, s[0]);
        assert [s[0]] + s[1..] == s;
      }
      FirstDecoded(text);
    }
  }

  lemma Nibbles(high: int, low: int, byte: Byte)
    requires 0 <= high < 16 && 0 <= low < 16
    ensures high * 16 + low == byte <==> high == byte / 16 && low == byte % 16
  {
  }

  lemma EscapeExactly(text: Bytes, byte: Byte)
    requires text != []
    ensures StartsWithEscape(text) && EscapedByte(text) == byte <==>
      |text| >= 3 && text[0] == PERCENT && IsDigit(text[1], byte / 16) && IsDigit(text[2], byte % 16)
  {
    if |text| >= 3 {
      HexExactly(text[1], byte / 16);
      HexExactly(text[2], byte % 16);
      hide Hex, IsDigit;
      if StartsWithEscape(text) {
        Nibbles(Hex(text[1]).value, Hex(text[2]).value, byte);
      }
    }
  }

  lemma FirstDecoded(text: Bytes)
    requires text != []
    ensures Unescape(text) != Some([])
  {
  }

  /** An encoder that may leave any byte other than `%` as it is, and writes digits in either case. */
  function Escape(s: Bytes, keep: Byte -> bool, lower: Byte -> bool): Bytes {
    if s == [] then []
    else if s[0] != PERCENT && keep(s[0]) then [s[0]] + Escape(s[1..], keep, lower)
    else
      var digits := if lower(s[0]) then LOWER else UPPER;
      [PERCENT, digits[s[0] / 16] as Byte, digits[s[0] % 16] as Byte] + Escape(s[1..], keep, lower)
  }

  /** Decoding undoes every such encoder. */
  lemma {:induction false} DecodingUndoesEncoding(s: Bytes, keep: Byte -> bool, lower: Byte -> bool)
    ensures Unescape(Escape(s, keep, lower)) == Some(s)
  {
    if s != [] {
      DecodingUndoesEncoding(s[1..], keep, lower);
      var rest := Escape(s[1..], keep, lower);
      var e := Escape(s, keep, lower);
      if s[0] != PERCENT && keep(s[0]) {
        assert e[1..] == rest;
      } else {
        assert e[3..] == rest;
        EscapeExactly(e, s[0]);
      }
      assert [s[0]] + s[1..] == s;
    }
  }

  // ---- UTF-8 ----

  /** A Unicode scalar value. */
  ghost predicate IsScalar(c: int) {
    0 <= c < 0xD800 || 0xE000 <= c < 0x11_0000
  }

  /** The bytes of one scalar value: six bits to a continuation byte. */
  function Utf8Of(c: int): (s: Bytes)
    requires IsScalar(c)
    ensures s != []
  {
    if c < 0x80 then [c]
    else if c < 0x800 then [0xC0 + c / 64, 0x80 + c % 64]
    else if c < 0x1_0000 then [0xE0 + c / 4096, 0x80 + c / 64 % 64, 0x80 + c % 64]
    else [0xF0 + c / 262144, 0x80 + c / 4096 % 64, 0x80 + c / 64 % 64, 0x80 + c % 64]
  }

  ghost predicate AllScalars(cs: seq<int>) {
    forall k :: 0 <= k < |cs| ==> IsScalar(cs[k])
  }

  function Utf8(cs: seq<int>): Bytes
    requires AllScalars(cs)
  {
    if cs == [] then [] else Utf8Of(cs[0]) + Utf8(cs[1..])
  }

  /** Text starting with one scalar value is valid exactly when what follows is. */
  lemma FirstScalar(c: int, rest: Bytes)
    requires IsScalar(c)
    ensures ValidUtf8(Utf8Of(c) + rest) <==> ValidUtf8(rest)
  {
    var s := Utf8Of(c) + rest;
    assert s[|Utf8Of(c)|..] == rest;
  }

  /** The valid texts are exactly the encodings of lists of scalar values. */
  lemma ValidUtf8Exactly(s: Bytes)
    ensures ValidUtf8(s) <==> exists cs :: AllScalars(cs) && Utf8(cs) == s
  {
    if ValidUtf8(s) {
      var cs := ValidIsScalars(s);
    }
    forall cs | AllScalars(cs) && Utf8(cs) == s
      ensures ValidUtf8(s)
    {
      ScalarsAreValid(cs);
    }
  }

  lemma {:induction false} ScalarsAreValid(cs: seq<int>)
    requires AllScalars(cs)
    ensures ValidUtf8(Utf8(cs))
  {
    if cs != [] {
      ScalarsAreValid(cs[1..]);
      FirstScalar(cs[0], Utf8(cs[1..]));
    }
  }

  lemma {:induction false} ValidIsScalars(s: Bytes) returns (cs: seq<int>)
    requires ValidUtf8(s)
    ensures AllScalars(cs) && Utf8(cs) == s
  {
    if s == [] {
      cs := [];
    } else {
      var c := FirstOf(s);
      var rest := ValidIsScalars(s[|Utf8Of(c)|..]);
      cs := [c] + rest;
    }
  }

  /** The scalar value of four groups of six bits or fewer, and the groups got back from it. */
  lemma SixBits(a: int, b: int, c: int, d: int) returns (whole: int)
    requires 0 <= b < 64 && 0 <= c < 64 && 0 <= d < 64
    ensures whole == 262144 * a + 4096 * b + 64 * c + d
    ensures whole / 262144 == a && whole / 4096 == 64 * a + b && whole / 64 == 4096 * a + 64 * b + c
    ensures whole / 4096 % 64 == b && whole / 64 % 64 == c && whole % 64 == d
  {
    whole := 262144 * a + 4096 * b + 64 * c + d;
  }

  /** Valid text starts with the encoding of a scalar value. */
  lemma FirstOf(s: Bytes) returns (c: int)
    requires s != [] && ValidUtf8(s)
    ensures IsScalar(c) && Utf8Of(c) <= s && ValidUtf8(s[|Utf8Of(c)|..])
  {
    if s[0] < 0x80 {
      c := s[0];
    } else if s[0] < 0xE0 {
      c := SixBits(0, 0, s[0] - 0xC0, s[1] - 0x80);
    } else if s[0] < 0xF0 {
      c := SixBits(0, s[0] - 0xE0, s[1] - 0x80, s[2] - 0x80);
    } else {
      c := SixBits(s[0] - 0xF0, s[1] - 0x80, s[2] - 0x80, s[3] - 0x80);
    }
    FirstScalar(c, s[|Utf8Of(c)|..]);
  }
}
