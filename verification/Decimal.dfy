/** String(n) for whole numbers (Number::toString, section 6.1.6.1.20 of ECMA-262,
    below 10^21) and padStart with zeros. */
module Decimal {

  function Digit(d: int): char
    requires 0 <= d < 10
  {
    '0' + d as char
  }

  function Digits(n: nat): (s: string)
    ensures s != [] && forall i :: 0 <= i < |s| ==> '0' <= s[i] <= '9'
  {
    if n < 10 then [Digit(n)] else Digits(n / 10) + [Digit(n % 10)]
  }

  function Text(n: int): string {
    if n < 0 then "-" + Digits(-n) else Digits(n)
  }

  /** padStart(2, "0"). */
  function Padded(n: nat): string {
    if |Digits(n)| < 2 then "0" + Digits(n) else Digits(n)
  }

  predicate AllDigits(s: string) { forall i :: 0 <= i < |s| ==> '0' <= s[i] <= '9' }

  /** The number a run of digits stands for. */
  function Value(s: string): nat
    requires AllDigits(s)
  {
    if s == [] then 0 else 10 * Value(s[..|s| - 1]) + (s[|s| - 1] - '0') as int
  }

  lemma {:induction false} DigitsRead(n: nat)
    ensures Value(Digits(n)) == n
  {
    if n >= 10 {
      DigitsRead(n / 10);
      assert Digits(n)[..|Digits(n)| - 1] == Digits(n / 10);
    } else {
      assert Digits(n)[..0] == [];
    }
  }

  lemma {:induction false} LeadingZero(s: string)
    requires AllDigits(s)
    ensures Value("0" + s) == Value(s)
    decreases |s|
  {
    if s == [] {
      assert ("0" + s)[..0] == [];
    } else {
      var t := s[..|s| - 1];
      LeadingZero(t);
      assert ("0" + s)[..|s|] == "0" + t;
    }
  }

  lemma PaddedRead(n: nat)
    ensures AllDigits(Padded(n)) && Value(Padded(n)) == n
  {
    DigitsRead(n);
    LeadingZero(Digits(n));
  }

  lemma DigitsIdentify(m: nat, n: nat)
    requires Digits(m) == Digits(n)
    ensures m == n
  {
    DigitsRead(m);
    DigitsRead(n);
  }

  lemma TextIdentifies(m: int, n: int)
    ensures Text(m) == Text(n) <==> m == n
  {
    hide Digits;
    if Text(m) == Text(n) {
      assert (m < 0 <==> Text(m)[0] == '-') && (n < 0 <==> Text(n)[0] == '-');
      if m < 0 {
        assert Text(m)[1..] == Digits(-m) && Text(n)[1..] == Digits(-n);
        DigitsIdentify(-m, -n);
      } else {
        DigitsIdentify(m, n);
      }
    }
  }

  lemma PaddedIdentifies(m: nat, n: nat)
    ensures Padded(m) == Padded(n) <==> m == n
  {
    PaddedRead(m);
    PaddedRead(n);
  }

  lemma {:induction false} DigitsPlain(n: nat)
    ensures |Digits(n)| > 1 <==> n >= 10
    ensures n >= 10 ==> Digits(n)[0] != '0'
  {
    if n >= 10 {
      DigitsPlain(n / 10);
    }
  }

  /** The text of a number is a minus sign if it is negative, then its digits in base ten, of
      which only a lone one is 0; padded, it is one of two digits at least. */
  lemma TextReads(n: int)
    ensures var s := if n < 0 then Text(n)[1..] else Text(n);
            && (n < 0 ==> Text(n)[0] == '-')
            && AllDigits(s) && Value(s) == (if n < 0 then -n else n)
            && s != [] && (|s| > 1 ==> s[0] != '0')
    ensures 0 <= n < 10 ==> Padded(n) == "0" + Text(n)
    ensures n >= 10 ==> Padded(n) == Text(n)
  {
    hide Digits;
    var m := if n < 0 then -n else n;
    DigitsRead(m);
    DigitsPlain(m);
    assert n < 0 ==> Text(n)[1..] == Digits(m);
  }
}
