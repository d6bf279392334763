/** Go strings as the gateway sees them: immutable byte sequences. This module
    holds the byte type, ASCII literals, the `%d` rendering used by the error
    messages, and the substring test the transport error classifier uses. */
module GoText {
  import opened Wrappers

  newtype byte = x: int | 0 <= x < 256

  type Bytes = seq<byte>

  predicate IsAscii(s: string) {
    forall i :: 0 <= i < |s| ==> s[i] as int < 128
  }

  /** The bytes of an ASCII string literal, the way Go stores a literal. */
  function Lit(s: string): (r: Bytes)
    requires IsAscii(s)
    ensures |r| == |s|
    ensures forall i :: 0 <= i < |s| ==> r[i] as int == s[i] as int
  {
    seq(|s|, i requires 0 <= i < |s| => s[i] as int as byte)
  }

  /** The marker appended to text cut short. */
  const Ellipsis: Bytes := Lit("...")

  predicate IsDigit(b: byte) {
    '0' as int <= b as int <= '9' as int
  }

  predicate AllDigits(s: Bytes) {
    forall i :: 0 <= i < |s| ==> IsDigit(s[i])
  }

  /** Decimal digits of `n`, most significant first, no leading zeros. */
  function NatDigits(n: nat): (r: Bytes)
    ensures |r| >= 1 && AllDigits(r)
    ensures |r| > 1 ==> r[0] != '0' as int as byte
    decreases n
  {
    if n < 10 then [(48 + n) as byte] else NatDigits(n / 10) + [(48 + n % 10) as byte]
  }

  /** `fmt.Sprintf("%d", n)` for an int. */
  function Itoa(n: int): Bytes {
    if n < 0 then ['-' as int as byte] + NatDigits(-n) else NatDigits(n)
  }

  /** The value of a run of decimal digits. */
  function DigitsValue(s: Bytes): nat
    requires AllDigits(s)
  {
    if |s| == 0 then 0 else DigitsValue(s[..|s| - 1]) * 10 + (s[|s| - 1] as int - 48)
  }

  /** Reads back a decimal integer with an optional leading minus sign. */
  function Atoi(s: Bytes): Option<int> {
    if |s| > 0 && s[0] == '-' as int as byte then
      (if |s| > 1 && AllDigits(s[1..]) then var v: int := DigitsValue(s[1..]); Some(-v) else None)
    else if |s| > 0 && AllDigits(s) then Some(DigitsValue(s))
    else None
  }

  lemma {:induction false} DigitsValueOfNatDigits(n: nat)
    ensures DigitsValue(NatDigits(n)) == n
    decreases n
  {
    if n >= 10 {
      var p := NatDigits(n / 10);
      var r := NatDigits(n);
      assert r == p + [(48 + n % 10) as byte];
      assert r[..|r| - 1] == p;
      DigitsValueOfNatDigits(n / 10);
    }
  }

  /** `%d` is a faithful decimal rendering: reading it back gives the number. */
  lemma AtoiItoa(n: int)
    ensures Atoi(Itoa(n)) == Some(n)
  {
    if n < 0 {
      var r := Itoa(n);
      assert r[1..] == NatDigits(-n);
      DigitsValueOfNatDigits(-n);
    } else {
      DigitsValueOfNatDigits(n);
    }
  }

  /** Go's `strings.Contains`. */
  predicate Contains(hay: Bytes, needle: Bytes) {
    exists i :: 0 <= i <= |hay| - |needle| && OccursAt(hay, needle, i)
  }

  predicate OccursAt(hay: Bytes, needle: Bytes, i: int)
    requires 0 <= i <= |hay| - |needle|
  {
    hay[i..i + |needle|] == needle
  }
}
