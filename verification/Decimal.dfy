/** Decimal numerals, as `strconv.FormatInt`, `strconv.ParseInt` and `fmt`'s `%d` write and read them. */
module Decimal {

  predicate IsDigit(c: char) {
    '0' <= c <= '9'
  }

  predicate AllDigits(s: string) {
    forall i :: 0 <= i < |s| ==> IsDigit(s[i])
  }

  /** The shortest decimal numeral of `n`. */
  function Digits(n: nat): (s: string)
    ensures |s| > 0 && AllDigits(s)
  {
    if n < 10 then [('0' as int + n) as char] else Digits(n / 10) + [('0' as int + n % 10) as char]
  }

  /** The number a digit string denotes; leading zeros are allowed and the empty string denotes zero. */
  function Value(s: string): nat
    requires AllDigits(s)
  {
    if s == [] then 0 else 10 * Value(s[..|s| - 1]) + (s[|s| - 1] as int - '0' as int)
  }

  lemma {:induction false} ValueGrows(s: string)
    requires AllDigits(s) && s != "" && s[0] != '0'
    ensures Value(s) > 0
  {
    if |s| > 1 {
      ValueGrows(s[..|s| - 1]);
    }
  }

  /** A digit string without leading zeros is the numeral of its value, so numerals are the shortest ones. */
  lemma {:induction false} NumeralOfValue(s: string)
    requires AllDigits(s) && s != "" && (|s| == 1 || s[0] != '0')
    ensures Digits(Value(s)) == s
  {
    var front, d := s[..|s| - 1], s[|s| - 1] as int - '0' as int;
    assert s == front + [s[|s| - 1]];
    if |s| > 1 {
      ValueGrows(front);
      NumeralOfValue(front);
      assert Value(s) / 10 == Value(front) && Value(s) % 10 == d;
    }
  }

  lemma {:induction false} DigitsRoundTrip(n: nat)
    ensures Value(Digits(n)) == n
  {
    if n >= 10 {
      DigitsRoundTrip(n / 10);
      assert Digits(n)[..|Digits(n)| - 1] == Digits(n / 10);
    } else {
      assert Digits(n)[..0] == [];
    }
  }

  /** `%d` of a possibly negative integer. */
  function Numeral(n: int): (s: string) {
    if n < 0 then "-" + Digits(-n) else Digits(n)
  }

  lemma NumeralInjective(a: int, b: int)
    requires Numeral(a) == Numeral(b)
    ensures a == b
  {
    assert a >= 0 ==> IsDigit(Numeral(a)[0]);
    assert b >= 0 ==> IsDigit(Numeral(b)[0]);
    if a < 0 && b < 0 {
      assert Numeral(a)[1..] == Digits(-a) && Numeral(b)[1..] == Digits(-b);
      DigitsRoundTrip(-a);
      DigitsRoundTrip(-b);
    } else if a >= 0 && b >= 0 {
      DigitsRoundTrip(a);
      DigitsRoundTrip(b);
    }
  }
}
