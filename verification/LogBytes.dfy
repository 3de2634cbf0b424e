/** Bytes, UTF-8 and the escaping of lib/zlog/zap_text_encoder.go. */
module LogBytes {
  import opened Options

  type Byte = b: int | 0 <= b < 256
  type Bytes = seq<Byte>

  const TAB: Byte := 9
  const NEWLINE: Byte := 10
  const RETURN: Byte := 13
  const SPACE: Byte := 32
  const QUOTE: Byte := 34
  const COMMA: Byte := 44
  const COLON: Byte := 58
  const EQUALS: Byte := 61
  const LBRACKET: Byte := 91
  const BACKSLASH: Byte := 92
  const RBRACKET: Byte := 93
  const LBRACE: Byte := 123
  const RBRACE: Byte := 125

  // ---------------------------------------------------------------- UTF-8

  const RUNE_SELF := 0x80
  const RUNE_ERROR := 0xFFFD

  datatype Rune = Rune(value: int, size: nat)

  predicate Continuation(b: Byte) {
    0x80 <= b < 0xC0
  }

  /** The range of the second byte after each lead byte of a longer sequence (section 4 of RFC 3629). */
  predicate Second(lead: Byte, b: Byte) {
    if lead == 0xE0 then 0xA0 <= b < 0xC0
    else if lead == 0xED then 0x80 <= b < 0xA0
    else if lead == 0xF0 then 0x90 <= b < 0xC0
    else if lead == 0xF4 then 0x80 <= b < 0x90
    else Continuation(b)
  }

  /** Six more bits from a continuation byte. */
  function Bits(high: int, b: int): int {
    high * 64 + (b - 0x80)
  }

  /** utf8.DecodeRune: an ill-formed sequence gives the error rune and size 1. */
  function DecodeRune(s: Bytes): (r: Rune)
    requires s != []
    ensures 1 <= r.size <= 4 && r.size <= |s|
    ensures r.size > 1 ==> forall i :: 0 <= i < r.size ==> s[i] >= 0x80
    ensures s[0] >= 0x80 && r.size == 1 ==> r.value == RUNE_ERROR
    ensures s[0] < 0x80 ==> r.value == s[0] && r.size == 1
  {
    var b0 := s[0];
    if b0 < 0x80 then Rune(b0, 1)
    else if 0xC2 <= b0 < 0xE0 then
      if |s| > 1 && Continuation(s[1]) then Rune(Bits(b0 - 0xC0, s[1]), 2) else Rune(RUNE_ERROR, 1)
    else if 0xE0 <= b0 < 0xF0 then
      if |s| > 2 && Second(b0, s[1]) && Continuation(s[2]) then
        Rune(Bits(Bits(b0 - 0xE0, s[1]), s[2]), 3)
      else Rune(RUNE_ERROR, 1)
    else if 0xF0 <= b0 < 0xF5 then
      if |s| > 3 && Second(b0, s[1]) && Continuation(s[2]) && Continuation(s[3]) then
        Rune(Bits(Bits(Bits(b0 - 0xF0, s[1]), s[2]), s[3]), 4)
      else Rune(RUNE_ERROR, 1)
    else Rune(RUNE_ERROR, 1)
  }

  /** A Unicode scalar value: a code point that is no surrogate. */
  predicate IsScalar(r: int) {
    0 <= r < 0xD800 || 0xE000 <= r < 0x110000
  }

  /** UTF-8 of a scalar value (section 3 of RFC 3629). */
  function Utf8(r: int): Bytes
    requires IsScalar(r)
  {
    if r < 0x80 then [r]
    else if r < 0x800 then [0xC0 + r / 64, 0x80 + r % 64]
    else if r < 0x10000 then [0xE0 + r / 4096, 0x80 + r / 64 % 64, 0x80 + r % 64]
    else [0xF0 + r / 262144, 0x80 + r / 4096 % 64, 0x80 + r / 64 % 64, 0x80 + r % 64]
  }

  /** Every scalar value is decoded from its encoding, whatever follows. */
  lemma Decodes(r: int, rest: Bytes)
    requires IsScalar(r)
    ensures DecodeRune(Utf8(r) + rest) == Rune(r, |Utf8(r)|)
  {
    var s := Utf8(r) + rest;
    if r < 0x80 {
      assert s[0] == r;
    } else if r < 0x800 {
      assert s[0] == 0xC0 + r / 64 && s[1] == 0x80 + r % 64;
    } else if r < 0x10000 {
      assert s[0] == 0xE0 + r / 4096 && s[1] == 0x80 + r / 64 % 64 && s[2] == 0x80 + r % 64;
      Digits64(r);
    } else {
      assert s[0] == 0xF0 + r / 262144 && s[1] == 0x80 + r / 4096 % 64;
      assert s[2] == 0x80 + r / 64 % 64 && s[3] == 0x80 + r % 64;
      Digits64(r);
    }
  }

  lemma Digits64(r: int)
    requires 0 <= r < 0x110000
    ensures r == r / 64 * 64 + r % 64 && r / 64 == r / 4096 * 64 + r / 64 % 64
    ensures r / 4096 == r / 262144 * 64 + r / 4096 % 64
  {
  }

  /** And nothing else is: a sequence that is not ill-formed starts with the encoding of the value it gives. */
  lemma DecodedWasEncoded(s: Bytes)
    requires s != [] && DecodeRune(s) != Rune(RUNE_ERROR, 1)
    ensures var d := DecodeRune(s); IsScalar(d.value) && Utf8(d.value) == s[..d.size]
  {
    var d := DecodeRune(s);
    assert s[..d.size] == if d.size == 1 then [s[0]] else if d.size == 2 then [s[0], s[1]]
                          else if d.size == 3 then [s[0], s[1], s[2]] else [s[0], s[1], s[2], s[3]];
    if d.size == 2 {
      TwoDecoded(s[0], s[1]);
    } else if d.size == 3 {
      ThreeDecoded(s[0], s[1], s[2]);
    } else if d.size == 4 {
      FourDecoded(s[0], s[1], s[2], s[3]);
    }
  }

  lemma TwoDecoded(a: Byte, b: Byte)
    requires 0xC2 <= a < 0xE0 && Continuation(b)
    ensures var r := Bits(a - 0xC0, b); IsScalar(r) && Utf8(r) == [a, b]
  {
    TwoBytes(a - 0xC0, b - 0x80);
  }

  lemma ThreeDecoded(a: Byte, b: Byte, c: Byte)
    requires 0xE0 <= a < 0xF0 && Second(a, b) && Continuation(c)
    ensures var r := Bits(Bits(a - 0xE0, b), c); IsScalar(r) && Utf8(r) == [a, b, c]
  {
    ThreeBytes(a - 0xE0, b - 0x80, c - 0x80);
  }

  lemma FourDecoded(a: Byte, b: Byte, c: Byte, d: Byte)
    requires 0xF0 <= a < 0xF5 && Second(a, b) && Continuation(c) && Continuation(d)
    ensures var r := Bits(Bits(Bits(a - 0xF0, b), c), d); IsScalar(r) && Utf8(r) == [a, b, c, d]
  {
    FourBytes(a - 0xF0, b - 0x80, c - 0x80, d - 0x80);
  }

  lemma TwoBytes(a: int, b: int)
    requires 0 <= b < 64
    ensures (a * 64 + b) / 64 == a && (a * 64 + b) % 64 == b
  {
  }

  lemma ThreeBytes(a: int, b: int, c: int)
    requires 0 <= b < 64 && 0 <= c < 64
    ensures var r := (a * 64 + b) * 64 + c; r / 4096 == a && r / 64 % 64 == b && r % 64 == c
  {
    var r := (a * 64 + b) * 64 + c;
    assert r / 64 == a * 64 + b;
  }

  lemma FourBytes(a: int, b: int, c: int, d: int)
    requires 0 <= b < 64 && 0 <= c < 64 && 0 <= d < 64
    ensures var r := ((a * 64 + b) * 64 + c) * 64 + d;
            r / 262144 == a && r / 4096 % 64 == b && r / 64 % 64 == c && r % 64 == d
  {
    var r := ((a * 64 + b) * 64 + c) * 64 + d;
    assert r / 64 == (a * 64 + b) * 64 + c;
    ThreeBytes(a, b, c);
    assert r / 4096 == a * 64 + b;
  }

  predicate IllFormed(s: Bytes)
    requires s != []
  {
    DecodeRune(s) == Rune(RUNE_ERROR, 1)
  }

  /** Every byte belongs to a well-formed sequence. */
  predicate ValidUTF8(s: Bytes)
    decreases |s|
  {
    s != [] ==> !IllFormed(s) && ValidUTF8(s[DecodeRune(s).size..])
  }

  const REPLACEMENT: Bytes := [0xEF, 0xBF, 0xBD]

  /** Each ill-formed byte replaced by U+FFFD. */
  function Sanitized(s: Bytes): Bytes
    decreases |s|
  {
    if s == [] then []
    else if IllFormed(s) then REPLACEMENT + Sanitized(s[1..])
    else s[..DecodeRune(s).size] + Sanitized(s[DecodeRune(s).size..])
  }

  lemma {:induction false} SanitizedValid(s: Bytes)
    requires ValidUTF8(s)
    ensures Sanitized(s) == s
    decreases |s|
  {
    if s != [] {
      var n := DecodeRune(s).size;
      SanitizedValid(s[n..]);
      assert s == s[..n] + s[n..];
    }
  }

  // ---------------------------------------------------------------- escaping

  function HexDigit(n: int): Byte
    requires 0 <= n < 16
  {
    if n < 10 then 48 + n else 87 + n
  }

  /** What tryAddRuneSelf appends for a byte below RuneSelf. */
  function EscapedSelf(b: Byte): Bytes
    requires b < RUNE_SELF
  {
    if 0x20 <= b && b != BACKSLASH && b != QUOTE then [b]
    else if b == BACKSLASH || b == QUOTE then [BACKSLASH, b]
    else if b == NEWLINE then [BACKSLASH, 110]
    else if b == RETURN then [BACKSLASH, 114]
    else if b == TAB then [BACKSLASH, 116]
    else [BACKSLASH, 117, 48, 48, HexDigit(b / 16), HexDigit(b % 16)]
  }

  /** The text \\ufffd. */
  const ESCAPED_ERROR: Bytes := [BACKSLASH, 117, 102, 102, 102, 100]

  /** How many bytes one round of the escaping loop consumes. */
  function UnitSize(s: Bytes): (n: nat)
    requires s != []
    ensures 1 <= n <= |s|
  {
    if s[0] < RUNE_SELF || IllFormed(s) then 1 else DecodeRune(s).size
  }

  /** What that round appends. */
  function EscapedUnit(s: Bytes): Bytes
    requires s != []
  {
    if s[0] < RUNE_SELF then EscapedSelf(s[0])
    else if IllFormed(s) then ESCAPED_ERROR
    else s[..DecodeRune(s).size]
  }

  function Escaped(s: Bytes): Bytes
    decreases |s|
  {
    if s == [] then [] else EscapedUnit(s) + Escaped(s[UnitSize(s)..])
  }

  predicate Special(b: Byte) {
    b <= 0x20 || b == BACKSLASH || b == QUOTE || b == LBRACKET || b == RBRACKET || b == EQUALS
  }

  predicate NeedsQuotes(s: Bytes) {
    exists i :: 0 <= i < |s| && Special(s[i])
  }

  function Quoted(s: Bytes): Bytes {
    if NeedsQuotes(s) then [QUOTE] + Escaped(s) + [QUOTE] else Escaped(s)
  }

  // ---------------------------------------------------------------- reading JSON string bodies

  function HexValue(b: Byte): Option<int> {
    if 48 <= b <= 57 then Some(b - 48)
    else if 97 <= b <= 102 then Some(b - 87)
    else if 65 <= b <= 70 then Some(b - 55)
    else None
  }

  function HexFour(a: Byte, b: Byte, c: Byte, d: Byte): Option<int> {
    if HexValue(a).Some? && HexValue(b).Some? && HexValue(c).Some? && HexValue(d).Some? then
      Some(((HexValue(a).value * 16 + HexValue(b).value) * 16 + HexValue(c).value) * 16 + HexValue(d).value)
    else None
  }

  /** UTF-8 of a code point of the basic multilingual plane. */
  function EncodeRune(r: int): Bytes
    requires 0 <= r < 0x10000
  {
    if r < 0x80 then [r]
    else if r < 0x800 then [0xC0 + r / 64, 0x80 + r % 64]
    else [0xE0 + r / 4096, 0x80 + r / 64 % 64, 0x80 + r % 64]
  }

  /** One character of a JSON string body (section 7 of RFC 8259): the bytes it takes and stands for.
      An escaped surrogate is refused. */
  datatype Char = Char(size: nat, text: Bytes)

  function ReadEscape(s: Bytes): (r: Option<Char>)
    requires s != [] && s[0] == BACKSLASH
    ensures r.Some? ==> 2 <= r.value.size <= |s|
  {
    if |s| < 2 then None
    else if s[1] == QUOTE || s[1] == BACKSLASH || s[1] == 47 then Some(Char(2, [s[1]]))
    else if s[1] == 98 then Some(Char(2, [8]))
    else if s[1] == 102 then Some(Char(2, [12]))
    else if s[1] == 110 then Some(Char(2, [NEWLINE]))
    else if s[1] == 114 then Some(Char(2, [RETURN]))
    else if s[1] == 116 then Some(Char(2, [TAB]))
    else if s[1] == 117 && |s| >= 6 then
      var code := HexFour(s[2], s[3], s[4], s[5]);
      if code.Some? && 0 <= code.value < 0x10000 && !(0xD800 <= code.value < 0xE000) then
        Some(Char(6, EncodeRune(code.value)))
      else None
    else None
  }

  function ReadChar(s: Bytes): (r: Option<Char>)
    requires s != []
    ensures r.Some? ==> 1 <= r.value.size <= |s|
  {
    if s[0] == BACKSLASH then ReadEscape(s)
    else if s[0] < 0x20 || s[0] == QUOTE || IllFormed(s) then None
    else Some(Char(DecodeRune(s).size, s[..DecodeRune(s).size]))
  }

  /** The text of a whole JSON string body, if it is one. */
  function Unescaped(s: Bytes): Option<Bytes>
    decreases |s|
  {
    if s == [] then Some([])
    else
      var c := ReadChar(s);
      if c.None? then None
      else
        var rest := Unescaped(s[c.value.size..]);
        if rest.None? then None else Some(c.value.text + rest.value)
  }

  // ---------------------------------------------------------------- escaping round trip

  lemma EscapeSelfReads(b: Byte, rest: Bytes)
    requires b < RUNE_SELF
    ensures ReadChar(EscapedSelf(b) + rest) == Some(Char(|EscapedSelf(b)|, [b]))
  {
    var s := EscapedSelf(b) + rest;
    if 0x20 <= b && b != BACKSLASH && b != QUOTE {
      assert s[0] == b && s[..1] == [b];
    } else if b == BACKSLASH || b == QUOTE || b == NEWLINE || b == RETURN || b == TAB {
      assert s[0] == BACKSLASH && s[1] == EscapedSelf(b)[1];
    } else {
      assert s[0] == BACKSLASH && s[1] == 117 && s[2] == 48 && s[3] == 48;
      assert s[4] == HexDigit(b / 16) && s[5] == HexDigit(b % 16);
      assert HexValue(s[4]) == Some(b / 16) && HexValue(s[5]) == Some(b % 16);
      assert HexFour(s[2], s[3], s[4], s[5]) == Some(b);
    }
  }

  /** Decoding looks at no byte after the sequence it decodes. */
  lemma DecodePrefix(s: Bytes, rest: Bytes)
    requires s != [] && !IllFormed(s)
    ensures var n := DecodeRune(s).size; DecodeRune(s[..n] + rest) == DecodeRune(s)
  {
    var n := DecodeRune(s).size;
    var t := s[..n] + rest;
    assert forall i :: 0 <= i < n ==> t[i] == s[i];
  }

  lemma EscapeUnitReads(s: Bytes, rest: Bytes)
    requires s != []
    ensures ReadChar(EscapedUnit(s) + rest)
         == Some(Char(|EscapedUnit(s)|, if IllFormed(s) then REPLACEMENT else s[..DecodeRune(s).size]))
  {
    var t := EscapedUnit(s) + rest;
    if s[0] < RUNE_SELF {
      EscapeSelfReads(s[0], rest);
      assert s[..1] == [s[0]];
    } else if IllFormed(s) {
      assert t[0] == BACKSLASH && t[1] == 117 && t[2] == 102 && t[3] == 102 && t[4] == 102 && t[5] == 100;
      assert HexFour(t[2], t[3], t[4], t[5]) == Some(RUNE_ERROR);
      assert EncodeRune(RUNE_ERROR) == REPLACEMENT;
    } else {
      DecodePrefix(s, rest);
      assert t[..DecodeRune(s).size] == s[..DecodeRune(s).size];
    }
  }

  /** For every byte string the escaped text is a JSON string body, and what it stands for is the input
      with each ill-formed byte replaced by U+FFFD. */
  lemma {:induction false} EscapeRoundTrip(s: Bytes)
    ensures Unescaped(Escaped(s)) == Some(Sanitized(s))
    decreases |s|
  {
    if s != [] {
      var n := UnitSize(s);
      var rest := Escaped(s[n..]);
      EscapeUnitReads(s, rest);
      EscapeRoundTrip(s[n..]);
      var t := EscapedUnit(s) + rest;
      assert t[|EscapedUnit(s)|..] == rest;
    }
  }

  /** Byte i stands after a backslash that is not itself escaped. */
  predicate IsEscaped(t: Bytes, i: nat)
    requires i <= |t|
  {
    i > 0 && t[i - 1] == BACKSLASH && !IsEscaped(t, i - 1)
  }

  /** No control byte is left, and every quote is escaped. */
  lemma {:induction false} EscapedClean(s: Bytes)
    ensures forall i :: 0 <= i < |Escaped(s)| ==> Escaped(s)[i] >= 0x20
    ensures forall i :: 0 <= i < |Escaped(s)| && Escaped(s)[i] == QUOTE ==> IsEscaped(Escaped(s), i)
    decreases |s|
  {
    if s != [] {
      var u, rest := EscapedUnit(s), Escaped(s[UnitSize(s)..]);
      EscapedClean(s[UnitSize(s)..]);
      UnitClean(s, rest);
      forall i | |u| <= i < |Escaped(s)| && Escaped(s)[i] == QUOTE
        ensures IsEscaped(Escaped(s), i)
      {
        IsEscapedShift(u, rest, i - |u|);
      }
    }
  }

  lemma {:induction false} IsEscapedShift(u: Bytes, rest: Bytes, k: nat)
    requires k <= |rest| && !IsEscaped(u + rest, |u|)
    ensures IsEscaped(u + rest, |u| + k) <==> IsEscaped(rest, k)
    decreases k
  {
    if k > 0 {
      IsEscapedShift(u, rest, k - 1);
      assert (u + rest)[|u| + k - 1] == rest[k - 1];
    }
  }

  /** Within one round's output every quote is escaped, and what follows starts afresh. */
  lemma UnitClean(s: Bytes, rest: Bytes)
    requires s != []
    ensures var u := EscapedUnit(s);
            && (forall i :: 0 <= i < |u| ==> u[i] >= 0x20)
            && (forall i :: 0 <= i < |u| && u[i] == QUOTE ==> IsEscaped(u + rest, i))
            && !IsEscaped(u + rest, |u|)
  {
    var u := EscapedUnit(s);
    var t := u + rest;
    assert forall i :: 0 <= i < |u| ==> t[i] == u[i];
    if s[0] < RUNE_SELF && u[0] == BACKSLASH {
      assert !IsEscaped(t, 0) && IsEscaped(t, 1) && !IsEscaped(t, 2);
    }
  }
}
