/** Bytes and decimal text, as both wire codecs and the cache keys use them. */
module Bytes {
  import opened Common

  type byte = b: int | 0 <= b < 256
  type bytes = seq<byte>

  const CR: byte := 13
  const LF: byte := 10
  const CRLF: bytes := [CR, LF]
  const MINUS: byte := 45
  const PLUS: byte := 43
  const ZERO: byte := 48

  const MAX_INT: int := 0x7fff_ffff_ffff_ffff

  predicate IsDigit(b: byte)
  {
    48 <= b <= 57
  }

  /** `%d` of a non-negative number. */
  function Digits(n: nat): (r: bytes)
    ensures r != [] && forall i | 0 <= i < |r| :: IsDigit(r[i])
  {
    if n < 10 then [48 + n] else Digits(n / 10) + [48 + n % 10]
  }

  /** `%d`. */
  function Itoa(n: int): (r: bytes)
    ensures r != []
  {
    if n < 0 then [MINUS] + Digits(-n) else Digits(n)
  }

  /** The value of a string of digits. */
  function DigitsValue(s: bytes): nat
    requires forall i | 0 <= i < |s| :: IsDigit(s[i])
  {
    if s == [] then 0 else
      var last: int := s[|s| - 1];
      assert IsDigit(s[|s| - 1]);
      DigitsValue(s[..|s| - 1]) * 10 + last - 48
  }

  predicate AllDigits(s: bytes)
  {
    forall i | 0 <= i < |s| :: IsDigit(s[i])
  }

  /** What follows an optional sign. */
  function Unsigned(s: bytes): bytes
  {
    if s != [] && (s[0] == MINUS || s[0] == PLUS) then s[1..] else s
  }

  /** `strconv.Atoi`: an optional sign and at least one digit, within 64 bits. */
  function Atoi(s: bytes): Option<int>
  {
    var digits := Unsigned(s);
    if digits == [] || !AllDigits(digits) then None
    else
      var v: int := DigitsValue(digits);
      if s[0] == MINUS then (if v <= MAX_INT + 1 then Some(-v) else None)
      else if v <= MAX_INT then Some(v) else None
  }

  lemma {:induction false} DigitsRoundTrip(n: nat)
    ensures DigitsValue(Digits(n)) == n
  {
    var r := Digits(n);
    if n < 10 {
      assert r[..0] == [];
    } else {
      DigitsRoundTrip(n / 10);
      assert r[..|r| - 1] == Digits(n / 10);
    }
  }

  /** No number but zero itself is printed with a leading zero. */
  lemma {:induction false} NoLeadingZero(n: nat)
    ensures Digits(n)[0] == 48 <==> n == 0
    ensures |Digits(n)| > 1 ==> n > 0
  {
    if n >= 10 {
      NoLeadingZero(n / 10);
    }
  }

  /** What `%d` prints, `Atoi` reads back. */
  lemma AtoiInvertsItoa(n: int)
    requires -MAX_INT - 1 <= n <= MAX_INT
    ensures Atoi(Itoa(n)) == Some(n)
  {
    DigitsRoundTrip(if n < 0 then -n else n);
    if n < 0 {
      assert Itoa(n)[1..] == Digits(-n);
    }
  }

  /** Anything but digits after the first character is no number. */
  lemma AtoiRejects(s: bytes, i: nat)
    requires 0 < i < |s| && !IsDigit(s[i])
    ensures Atoi(s).None?
  {
    var digits := Unsigned(s);
    assert digits[if digits == s then i else i - 1] == s[i];
    assert !AllDigits(digits);
  }

  lemma ItoaInjective(m: int, n: int)
    requires Itoa(m) == Itoa(n)
    ensures m == n
  {
    DigitsRoundTrip(if m < 0 then -m else m);
    DigitsRoundTrip(if n < 0 then -n else n);
    assert m < 0 <==> Itoa(m)[0] == MINUS;
    assert n < 0 <==> Itoa(n)[0] == MINUS;
    if m < 0 {
      assert Itoa(m)[1..] == Digits(-m) && Itoa(n)[1..] == Digits(-n);
    }
  }

  lemma ItoaClean(n: int)
    ensures CR !in Itoa(n) && LF !in Itoa(n)
  {
  }
}
