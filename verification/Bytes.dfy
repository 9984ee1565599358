/** Byte strings, the decimal text that std::to_chars and std::from_chars produce and accept,
    and the small option type used across the model. */
module Bytes {

  newtype byte = x: int | 0 <= x < 256

  type Str = seq<byte>

  datatype Option<+T> = None | Some(value: T)

  const CR: byte := 13
  const LF: byte := 10
  const CRLF: Str := [13, 10]
  const MINUS: byte := 45
  const PLUS: byte := 43

  const INT64_MAX: int := 0x7FFF_FFFF_FFFF_FFFF
  const INT64_MIN: int := -0x8000_0000_0000_0000
  const UINT64_MAX: int := 0xFFFF_FFFF_FFFF_FFFF

  predicate IsInt64(n: int) { INT64_MIN <= n <= INT64_MAX }

  /** The bytes of a C++ string literal. */
  function Text(s: string): (b: Str) {
    seq(|s|, i requires 0 <= i < |s| => (s[i] as int % 256) as byte)
  }

  /** The ASCII effect of std::toupper on one byte. */
  function Upper(c: byte): byte {
    if 97 <= c <= 122 then c - 32 else c
  }

  function UpperAll(s: Str): (u: Str) {
    seq(|s|, i requires 0 <= i < |s| => Upper(s[i]))
  }

  predicate IsDigit(c: byte) { 48 <= c <= 57 }

  /** What std::to_chars prints for an unsigned value. */
  function Digits(n: nat): (s: Str)
    ensures |s| > 0
    ensures forall i :: 0 <= i < |s| ==> IsDigit(s[i])
  {
    if n < 10 then [48 + (n as byte)] else Digits(n / 10) + [48 + ((n % 10) as byte)]
  }

  /** What std::to_chars and std::to_string print for a signed value. */
  function SignedDigits(n: int): (s: Str) {
    if n < 0 then [MINUS] + Digits(-n) else Digits(n)
  }

  function DigitsValue(s: Str): nat
    requires forall i :: 0 <= i < |s| ==> IsDigit(s[i])
  {
    if s == [] then 0
    else
      assert IsDigit(s[|s| - 1]);
      10 * DigitsValue(s[..|s| - 1]) + (s[|s| - 1] as int - 48)
  }

  predicate AllDigits(s: Str) {
    |s| > 0 && forall i :: 0 <= i < |s| ==> IsDigit(s[i])
  }

  /** std::from_chars into a signed 64-bit integer, accepted only when it consumes all of s: an
      optional minus sign, at least one digit, and a value in range. */
  function FromChars(s: Str): (r: Option<int>)
    ensures r.Some? ==> IsInt64(r.value)
  {
    var negative := s != [] && s[0] == MINUS;
    var body := if negative then s[1..] else s;
    if !AllDigits(body) then None
    else
      var magnitude: int := DigitsValue(body);
      var v := if negative then -magnitude else magnitude;
      if IsInt64(v) then Some(v) else None
  }

  lemma {:induction false} DigitsRoundTrip(n: nat)
    ensures DigitsValue(Digits(n)) == n
  {
    var s := Digits(n);
    if n < 10 {
      assert s[..|s| - 1] == [];
    } else {
      DigitsRoundTrip(n / 10);
      assert s[..|s| - 1] == Digits(n / 10);
    }
  }

  lemma FromCharsDigits(n: nat)
    requires n <= INT64_MAX
    ensures FromChars(Digits(n)) == Some(n)
  {
    DigitsRoundTrip(n);
  }

  lemma FromCharsSigned(n: int)
    requires IsInt64(n)
    ensures FromChars(SignedDigits(n)) == Some(n)
  {
    if n < 0 {
      DigitsRoundTrip(-n);
      assert SignedDigits(n)[1..] == Digits(-n);
    } else {
      DigitsRoundTrip(n);
    }
  }

  /** Leading zeros make DigitsValue non-injective; two texts without them that denote the same
      number are equal, so a printed number is its only canonical text. */
  lemma {:induction false} DigitsCanonical(s: Str)
    requires AllDigits(s) && (s[0] != 48 || |s| == 1)
    ensures Digits(DigitsValue(s)) == s
  {
    var t := s[..|s| - 1];
    if |s| == 1 {
      assert t == [];
    } else {
      DigitsCanonical(t);
      DigitsPositive(t);
      assert s == t + [s[|s| - 1]];
    }
  }

  lemma {:induction false} DigitsPositive(s: Str)
    requires AllDigits(s) && s[0] != 48
    ensures DigitsValue(s) > 0
  {
    if |s| > 1 { DigitsPositive(s[..|s| - 1]); }
  }
}
