/** Decimal text of integers: what `str(n)` prints and what `int(text)` reads back. */
module Decimal {
  import opened Wrappers

  const DIGITS := "0123456789"

  predicate IsDigit(c: char) {
    '0' <= c <= '9'
  }

  function DigitValue(c: char): nat
    requires IsDigit(c)
  {
    c as int - '0' as int
  }

  /** Digits of a natural number, most significant first, without leading zeros. */
  function Digits(n: nat): (s: string)
    ensures s != [] && forall i :: 0 <= i < |s| ==> IsDigit(s[i])
  {
    if n < 10 then [DIGITS[n]] else Digits(n / 10) + [DIGITS[n % 10]]
  }

  /** `str(n)`. */
  function Print(n: int): (s: string)
    ensures s != [] && (s[0] == '-' || IsDigit(s[0]))
  {
    if n < 0 then ['-'] + Digits(-n) else Digits(n)
  }

  function ParseDigits(s: string): Option<nat> {
    if s == [] || !IsDigit(s[|s| - 1]) then None
    else if |s| == 1 then Some(DigitValue(s[0]))
    else match ParseDigits(s[..|s| - 1])
      case None => None
      case Some(high) => Some(10 * high + DigitValue(s[|s| - 1]))
  }

  /** `int(text)`: an optional sign and at least one digit; `None` stands for ValueError. */
  function Parse(s: string): Option<int> {
    if s != [] && s[0] == '-' then
      var magnitude := ParseDigits(s[1..]);
      if magnitude.None? then None else Some(-(magnitude.value as int))
    else
      ParseDigits(if s != [] && s[0] == '+' then s[1..] else s)
  }

  lemma {:induction false} ParseDigitsOfDigits(n: nat)
    ensures ParseDigits(Digits(n)) == Some(n)
  {
    if n >= 10 {
      ParseDigitsOfDigits(n / 10);
      var s := Digits(n);
      assert s[..|s| - 1] == Digits(n / 10);
      assert DigitValue(DIGITS[n % 10]) == n % 10;
    }
  }

  lemma ParseOfMinus(s: string)
    ensures Parse(['-'] + s) ==
      (if ParseDigits(s).None? then None else Some(-(ParseDigits(s).value as int)))
  {
    assert (['-'] + s)[1..] == s;
  }

  lemma ParseOfUnsigned(s: string)
    requires s != [] && IsDigit(s[0])
    ensures Parse(s) == ParseDigits(s)
  {
  }

  /** `int(str(n)) == n`. */
  lemma ParseOfPrint(n: int)
    ensures Parse(Print(n)) == Some(n)
  {
    var magnitude: nat := if n < 0 then -n else n;
    ParseDigitsOfDigits(magnitude);
    if n < 0 {
      ParseOfMinus(Digits(magnitude));
    } else {
      ParseOfUnsigned(Digits(magnitude));
    }
  }

  lemma PrintInjective(a: int, b: int)
    requires Print(a) == Print(b)
    ensures a == b
  {
    ParseOfPrint(a);
    ParseOfPrint(b);
  }

  predicate AllDigits(s: string) {
    s != [] && forall i :: 0 <= i < |s| ==> IsDigit(s[i])
  }

  lemma {:induction false} ParseDigitsAccepts(s: string)
    ensures ParseDigits(s).Some? <==> AllDigits(s)
    decreases |s|
  {
    if |s| > 1 {
      ParseDigitsAccepts(s[..|s| - 1]);
      assert s == s[..|s| - 1] + [s[|s| - 1]];
    }
  }

  /** `int` accepts exactly an optional sign followed by digits: no point, no letter, no second sign. */
  lemma ParseAcceptsExactly(s: string)
    ensures Parse(s).Some? <==> AllDigits(s) || (s != [] && (s[0] == '-' || s[0] == '+') && AllDigits(s[1..]))
  {
    ParseDigitsAccepts(s);
    if s != [] { ParseDigitsAccepts(s[1..]); }
  }

  /** Leading zeros do not matter. */
  lemma {:induction false} LeadingZero(s: string)
    requires AllDigits(s)
    ensures ParseDigits(['0'] + s) == ParseDigits(s)
    decreases |s|
  {
    var padded := ['0'] + s;
    assert padded[|padded| - 1] == s[|s| - 1];
    assert padded[..|padded| - 1] == ['0'] + s[..|s| - 1];
    if |s| > 1 { LeadingZero(s[..|s| - 1]); }
  }

  function TenTo(k: nat): nat {
    if k == 0 then 1 else 10 * TenTo(k - 1)
  }

  /** The number that a text means by place value: the first digit counts most. */
  function PlaceValue(s: string): int
    requires forall i :: 0 <= i < |s| ==> IsDigit(s[i])
  {
    if s == [] then 0 else (s[0] as int - '0' as int) * TenTo(|s| - 1) + PlaceValue(s[1..])
  }

  lemma {:induction false} PlaceValueSnoc(s: string, d: char)
    requires IsDigit(d) && forall i :: 0 <= i < |s| ==> IsDigit(s[i])
    ensures PlaceValue(s + [d]) == 10 * PlaceValue(s) + (d as int - '0' as int)
    decreases |s|
  {
    if s != [] {
      PlaceValueSnoc(s[1..], d);
      assert (s + [d])[1..] == s[1..] + [d];
      TenTimes(s[0] as int - '0' as int, |s| - 1);
    } else {
      assert ([] + [d])[1..] == [];
    }
  }

  lemma TenTimes(d: nat, k: nat)
    ensures d * TenTo(k + 1) == 10 * (d * TenTo(k))
  {
  }

  /** A printed number is its decimal text, without leading zeros. */
  lemma {:induction false} DigitsAreDecimal(n: nat)
    ensures PlaceValue(Digits(n)) == n && (n > 0 ==> Digits(n)[0] != '0')
    decreases n
  {
    if n >= 10 {
      DigitsAreDecimal(n / 10);
      PlaceValueSnoc(Digits(n / 10), DIGITS[n % 10]);
    }
  }

  lemma PrintIsDecimal(n: int)
    ensures n >= 0 ==> Print(n) == Digits(n) && PlaceValue(Digits(n)) == n
    ensures n < 0 ==> Print(n) == ['-'] + Digits(-n) && PlaceValue(Digits(-n)) == -n
  {
    DigitsAreDecimal(if n < 0 then -n else n);
  }
}
