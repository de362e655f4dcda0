/** Decimal numerals: Go's strconv.ParseInt in base 10 for 32 bits, and fmt's %d. */
module Numerals {

  const MAX_INT32 := 0x7FFF_FFFF
  const MAX_UINT32 := 0xFFFF_FFFF

  predicate IsDigit(c: char) {
    '0' <= c <= '9'
  }

  function DigitValue(c: char): (d: nat)
    requires IsDigit(c)
    ensures d < 10
  {
    (c - '0') as int
  }

  datatype Digits = Number(n: nat) | Malformed | TooLarge

  /** Reads digits until the end, the first that is none, or the first that leaves 32 bits. */
  function ReadDigits(s: string, acc: nat): (r: Digits)
    requires acc <= MAX_UINT32
    ensures r.Number? ==> acc <= r.n <= MAX_UINT32
  {
    if s == "" then Number(acc)
    else if !IsDigit(s[0]) then Malformed
    else if acc * 10 + DigitValue(s[0]) > MAX_UINT32 then TooLarge
    else ReadDigits(s[1..], acc * 10 + DigitValue(s[0]))
  }

  /** The two results of strconv.ParseInt: out of range, the value is the nearest bound. */
  datatype Parsed = Parsed(value: int, ok: bool)

  function ParseInt32(s: string): (r: Parsed)
    ensures -MAX_INT32 - 1 <= r.value <= MAX_INT32
  {
    if s == "" then Parsed(0, false)
    else
      var signed := s[0] == '+' || s[0] == '-';
      var digits := if signed then s[1..] else s;
      if digits == "" then Parsed(0, false)
      else
        match ReadDigits(digits, 0)
        case Malformed => Parsed(0, false)
        case TooLarge => Parsed(if s[0] == '-' then -MAX_INT32 - 1 else MAX_INT32, false)
        case Number(n) =>
          if s[0] == '-' then
            if n > MAX_INT32 + 1 then Parsed(-MAX_INT32 - 1, false) else Parsed(0 - n, true)
          else
            if n > MAX_INT32 then Parsed(MAX_INT32, false) else Parsed(n, true)
  }

  /** %d of a natural number. */
  function Format(n: nat): (s: string)
    ensures |s| > 0 && forall c :: c in s ==> IsDigit(c)
  {
    var last := ['0' + (n % 10) as char];
    if n < 10 then last else Format(n / 10) + last
  }

  function ValueOf(s: string): nat
    requires forall c :: c in s ==> IsDigit(c)
  {
    if s == "" then 0 else ValueOf(s[..|s| - 1]) * 10 + DigitValue(s[|s| - 1])
  }

  lemma {:induction false} ValueOfFormat(n: nat)
    ensures ValueOf(Format(n)) == n
  {
    var last := ['0' + (n % 10) as char];
    if n < 10 {
      assert Format(n)[..0] == "";
    } else {
      ValueOfFormat(n / 10);
      assert (Format(n / 10) + last)[..|Format(n)| - 1] == Format(n / 10);
    }
  }

  /** Different numbers have different numerals. */
  lemma {:induction false} FormatInjective(m: nat, n: nat)
    ensures Format(m) == Format(n) <==> m == n
  {
    ValueOfFormat(m);
    ValueOfFormat(n);
  }

  predicate AllDigits(s: string) {
    forall c :: c in s ==> IsDigit(c)
  }

  lemma {:induction false} ValueOfGrows(a: string, b: string)
    requires AllDigits(a) && AllDigits(b)
    ensures AllDigits(a + b) && ValueOf(a) <= ValueOf(a + b)
  {
    if b == "" {
      assert a + b == a;
    } else {
      var n := |b| - 1;
      ValueOfGrows(a, b[..n]);
      assert (a + b)[..|a + b| - 1] == a + b[..n];
    }
  }

  /** Reading on after `a` reads the number that all digits together make, if it fits. */
  lemma {:induction false} ReadDigitsIs(a: string, s: string)
    requires AllDigits(a) && ValueOf(a) <= MAX_UINT32
    ensures AllDigits(s) ==>
      ReadDigits(s, ValueOf(a)) == (if ValueOf(a + s) <= MAX_UINT32 then Number(ValueOf(a + s)) else TooLarge)
    ensures !AllDigits(s) ==> !ReadDigits(s, ValueOf(a)).Number?
    decreases |s|
  {
    if s == "" {
      assert a + s == a;
    } else if IsDigit(s[0]) {
      var now := a + [s[0]];
      assert now[..|now| - 1] == a && now + s[1..] == a + s;
      if ValueOf(now) <= MAX_UINT32 {
        ReadDigitsIs(now, s[1..]);
      } else if AllDigits(s) {
        ValueOfGrows(now, s[1..]);
      }
    }
  }

  predicate HasSign(s: string) {
    s != "" && (s[0] == '+' || s[0] == '-')
  }

  /** The number that a numeral stands for. */
  function NumberOf(negative: bool, digits: string): int
    requires AllDigits(digits)
  {
    if negative then 0 - ValueOf(digits) else ValueOf(digits)
  }

  predicate FitsInt32(n: int) {
    -MAX_INT32 - 1 <= n <= MAX_INT32
  }

  /** A numeral is digits, maybe after a sign. It stands for its number, cut off at the bounds of 32
      bits; anything else is an error, and so is a number that was cut off. */
  lemma {:induction false} ParseInt32Is(s: string, digits: string, negative: bool)
    requires digits == if HasSign(s) then s[1..] else s
    requires negative <==> s != "" && s[0] == '-'
    ensures digits == "" || !AllDigits(digits) ==> !ParseInt32(s).ok
    ensures digits != "" && AllDigits(digits) ==>
      && (ParseInt32(s).ok <==> FitsInt32(NumberOf(negative, digits)))
      && (ParseInt32(s).ok ==> ParseInt32(s).value == NumberOf(negative, digits))
      && (NumberOf(negative, digits) > MAX_INT32 ==> ParseInt32(s).value == MAX_INT32)
      && (NumberOf(negative, digits) < -MAX_INT32 - 1 ==> ParseInt32(s).value == -MAX_INT32 - 1)
  {
    ReadDigitsIs("", digits);
    assert "" + digits == digits;
  }
}
