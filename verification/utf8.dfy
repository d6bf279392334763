/** The parts of Go's `unicode/utf8`, `unicode` and `strings` packages that the
    validator and the JSON encoder rely on, written over byte sequences:
    well-formedness (`utf8.ValidString`), rune counting
    (`utf8.RuneCountInString`), the encoding behind `string(rune(i))`, the
    U+FFFD coercion `encoding/json` applies to ill-formed strings, and the
    blankness test `strings.TrimSpace(s) == ""`. */
module Utf8 {
  import opened GoText

  predicate InRange(b: byte, lo: int, hi: int) {
    lo <= b as int <= hi
  }

  predicate IsContinuation(b: byte) {
    InRange(b, 0x80, 0xBF)
  }

  /** A Unicode scalar value: a code point that is not a surrogate. */
  predicate IsScalar(cp: int) {
    0 <= cp <= 0x10FFFF && !(0xD800 <= cp <= 0xDFFF)
  }

  /** Number of bytes UTF-8 uses for the scalar value `cp`. */
  function EncodedLen(cp: int): nat {
    if cp < 0x80 then 1 else if cp < 0x800 then 2 else if cp < 0x10000 then 3 else 4
  }

  /** Byte length of the well-formed UTF-8 sequence that starts `s`, or 0 when
      `s` is empty or starts with an ill-formed one. The accepted second bytes
      follow Go's table: E0 needs A0..BF (no overlong forms), ED needs 80..9F
      (no surrogates), F0 needs 90..BF and F4 needs 80..8F (nothing above
      U+10FFFF). */
  function RuneLen(s: Bytes): (n: nat)
    ensures n <= 4 && n <= |s|
  {
    if |s| == 0 then 0
    else if s[0] < 0x80 then 1
    else if InRange(s[0], 0xC2, 0xDF) then
      (if |s| >= 2 && IsContinuation(s[1]) then 2 else 0)
    else if InRange(s[0], 0xE0, 0xEF) then
      var lo := if s[0] == 0xE0 then 0xA0 else 0x80;
      var hi := if s[0] == 0xED then 0x9F else 0xBF;
      (if |s| >= 3 && InRange(s[1], lo, hi) && IsContinuation(s[2]) then 3 else 0)
    else if InRange(s[0], 0xF0, 0xF4) then
      var lo := if s[0] == 0xF0 then 0x90 else 0x80;
      var hi := if s[0] == 0xF4 then 0x8F else 0xBF;
      (if |s| >= 4 && InRange(s[1], lo, hi) && IsContinuation(s[2]) && IsContinuation(s[3]) then 4 else 0)
    else 0
  }

  /** The scalar value encoded by the well-formed sequence that starts `s`;
      it is encoded in exactly as many bytes as UTF-8 prescribes. */
  function DecodeRune(s: Bytes): (cp: int)
    requires RuneLen(s) > 0
    ensures IsScalar(cp)
    ensures EncodedLen(cp) == RuneLen(s)
  {
    var n := RuneLen(s);
    if n == 1 then s[0] as int
    else if n == 2 then (s[0] as int - 0xC0) * 64 + (s[1] as int - 0x80)
    else if n == 3 then
      (s[0] as int - 0xE0) * 4096 + (s[1] as int - 0x80) * 64 + (s[2] as int - 0x80)
    else
      (s[0] as int - 0xF0) * 262144 + (s[1] as int - 0x80) * 4096
      + (s[2] as int - 0x80) * 64 + (s[3] as int - 0x80)
  }

  const ReplacementChar: Bytes := [0xEF, 0xBF, 0xBD]

  /** Go's `string(rune(cp))`: the UTF-8 encoding of `cp`, or of U+FFFD when
      `cp` is negative, a surrogate or above U+10FFFF. Decoding gives the code
      point back. */
  function EncodeRune(cp: int): (r: Bytes)
    ensures |r| >= 1 && RuneLen(r) == |r|
    ensures IsScalar(cp) ==> DecodeRune(r) == cp
    ensures !IsScalar(cp) ==> r == ReplacementChar
  {
    if !IsScalar(cp) then ReplacementChar
    else if cp < 0x80 then [cp as byte]
    else if cp < 0x800 then Encode2(cp)
    else if cp < 0x10000 then Encode3(cp)
    else Encode4(cp)
  }

  function Encode2(cp: int): (r: Bytes)
    requires 0x80 <= cp < 0x800
    ensures |r| == 2 && RuneLen(r) == 2 && DecodeRune(r) == cp
  {
    var hi, lo := cp / 64, cp % 64;
    assert cp == hi * 64 + lo;
    [(0xC0 + hi) as byte, (0x80 + lo) as byte]
  }

  function Encode3(cp: int): (r: Bytes)
    requires 0x800 <= cp < 0x10000 && !(0xD800 <= cp <= 0xDFFF)
    ensures |r| == 3 && RuneLen(r) == 3 && DecodeRune(r) == cp
  {
    var q, lo := cp / 64, cp % 64;
    var hi, mid := q / 64, q % 64;
    assert cp == hi * 4096 + mid * 64 + lo;
    [(0xE0 + hi) as byte, (0x80 + mid) as byte, (0x80 + lo) as byte]
  }

  function Encode4(cp: int): (r: Bytes)
    requires 0x10000 <= cp <= 0x10FFFF
    ensures |r| == 4 && RuneLen(r) == 4 && DecodeRune(r) == cp
  {
    var q, lo := cp / 64, cp % 64;
    var q2, mid := q / 64, q % 64;
    var hi, mid2 := q2 / 64, q2 % 64;
    assert cp == hi * 262144 + mid2 * 4096 + mid * 64 + lo;
    [(0xF0 + hi) as byte, (0x80 + mid2) as byte, (0x80 + mid) as byte, (0x80 + lo) as byte]
  }

  /** `utf8.ValidString`: the whole sequence splits into well-formed runes. */
  predicate Valid(s: Bytes)
    decreases |s|
  {
    |s| == 0 || (RuneLen(s) > 0 && Valid(s[RuneLen(s)..]))
  }

  /** `utf8.RuneCountInString`: each well-formed sequence counts as one rune,
      and so does each byte that does not start one. */
  function RuneCount(s: Bytes): (n: nat)
    ensures n <= |s|
    ensures n == 0 <==> |s| == 0
    decreases |s|
  {
    if |s| == 0 then 0
    else if RuneLen(s) > 0 then 1 + RuneCount(s[RuneLen(s)..])
    else 1 + RuneCount(s[1..])
  }

  /** The decoder only looks at the bytes of the first rune. */
  lemma RuneLenOfPrefix(a: Bytes, b: Bytes)
    requires |a| > 0 && RuneLen(a) == |a|
    ensures RuneLen(a + b) == |a|
    ensures (a + b)[|a|..] == b
  {
  }

  /** UTF-8 encoding of a Dafny string (a sequence of scalar values). */
  function Encode(s: string): Bytes {
    if |s| == 0 then [] else EncodeRune(s[0] as int) + Encode(s[1..])
  }

  /** Every encoded string is well formed and has one rune per character. */
  lemma {:induction false} EncodeIsValid(s: string)
    ensures Valid(Encode(s))
    ensures RuneCount(Encode(s)) == |s|
  {
    if |s| > 0 {
      var head := EncodeRune(s[0] as int);
      RuneLenOfPrefix(head, Encode(s[1..]));
      EncodeIsValid(s[1..]);
    }
  }

  /** The U+FFFD coercion `json.Marshal` applies to a Go string: every byte
      that does not start a well-formed rune becomes U+FFFD. The result is
      always well formed. */
  function Coerce(s: Bytes): (r: Bytes)
    ensures Valid(r)
    decreases |s|
  {
    if |s| == 0 then []
    else if RuneLen(s) > 0 then
      var rest := Coerce(s[RuneLen(s)..]);
      RuneLenOfPrefix(s[..RuneLen(s)], rest);
      s[..RuneLen(s)] + rest
    else
      var rest := Coerce(s[1..]);
      RuneLenOfPrefix(ReplacementChar, rest);
      ReplacementChar + rest
  }

  /** Coercion leaves a well-formed string alone. */
  lemma {:induction false} CoerceKeepsValid(s: Bytes)
    requires Valid(s)
    ensures Coerce(s) == s
    decreases |s|
  {
    if |s| > 0 {
      CoerceKeepsValid(s[RuneLen(s)..]);
    }
  }

  /** `unicode.IsSpace`: the Latin-1 spaces and the other White_Space code points. */
  predicate IsSpaceRune(cp: int) {
    cp == 0x09 || cp == 0x0A || cp == 0x0B || cp == 0x0C || cp == 0x0D || cp == 0x20
    || cp == 0x85 || cp == 0xA0 || cp == 0x1680 || (0x2000 <= cp <= 0x200A)
    || cp == 0x2028 || cp == 0x2029 || cp == 0x202F || cp == 0x205F || cp == 0x3000
  }

  /** Length of the white-space rune that starts `s`, or 0 if there is none. */
  function SpaceLen(s: Bytes): nat {
    if RuneLen(s) > 0 && IsSpaceRune(DecodeRune(s)) then RuneLen(s) else 0
  }

  /** `strings.TrimSpace(s) == ""`: decoded from the left, `s` is white space
      only (a byte that starts no well-formed rune decodes as U+FFFD, which is
      not white space). */
  predicate IsBlank(s: Bytes)
    decreases |s|
  {
    |s| == 0 || (SpaceLen(s) > 0 && IsBlank(s[SpaceLen(s)..]))
  }

  /** A blank string is well-formed UTF-8. */
  lemma {:induction false} BlankIsValid(s: Bytes)
    requires IsBlank(s)
    ensures Valid(s)
    decreases |s|
  {
    if |s| > 0 {
      BlankIsValid(s[SpaceLen(s)..]);
    }
  }

  predicate IsAsciiSpace(c: char) {
    c as int == 0x09 || c as int == 0x0A || c as int == 0x0B || c as int == 0x0C
    || c as int == 0x0D || c as int == 0x20
  }

  /** On ASCII text, blank means: every character is one of the six ASCII spaces. */
  lemma {:induction false} AsciiBlank(s: string)
    requires IsAscii(s)
    ensures IsBlank(Lit(s)) <==> forall i :: 0 <= i < |s| ==> IsAsciiSpace(s[i])
    decreases |s|
  {
    if |s| > 0 {
      var b := Lit(s);
      assert b[1..] == Lit(s[1..]);
      AsciiBlank(s[1..]);
      if !IsAsciiSpace(s[0]) {
        assert SpaceLen(b) == 0;
      } else {
        assert SpaceLen(b) == 1;
        assert forall i :: 1 <= i < |s| ==> s[1..][i - 1] == s[i];
      }
    }
  }
}
