/** Printing and parsing of decimal numerals: Python's `str(n)`, `f"{n:02d}"`, `str.isdigit` and `int`. */
module Decimal {
  import opened Common

  const DIGITS := "0123456789"

  function Show(n: nat): (s: string)
    ensures s != [] && IsDigits(s)
    ensures n >= 10 ==> |s| >= 2
  {
    if n < 10 then [DIGITS[n]] else Show(n / 10) + [DIGITS[n % 10]]
  }

  /** `f"{n:02d}"` */
  function Show02(n: nat): (s: string)
    ensures |s| >= 2 && IsDigits(s)
  {
    if n < 10 then "0" + Show(n) else Show(n)
  }

  predicate IsDigit(c: char) {
    '0' <= c <= '9'
  }

  /** `str.isdigit` on ASCII text, apart from its answer on the empty string. */
  predicate IsDigits(s: string) {
    forall i :: 0 <= i < |s| ==> IsDigit(s[i])
  }

  function Value(s: string): nat
    requires IsDigits(s)
  {
    if s == [] then 0
    else 10 * Value(s[..|s| - 1]) + (s[|s| - 1] as int - '0' as int)
  }

  /** A positive replicate number written as text, as the summariser reads it back. */
  function ReadPositive(s: string): Option<nat> {
    if s != [] && IsDigits(s) && Value(s) > 0 then Some(Value(s)) else None
  }

  lemma {:induction false} ValueOfShow(n: nat)
    ensures Value(Show(n)) == n
  {
    if n < 10 {
      assert Show(n)[..0] == [];
    } else {
      ValueOfShow(n / 10);
      assert Show(n)[..|Show(n)| - 1] == Show(n / 10);
    }
  }

  lemma {:induction false} ValueIgnoresLeadingZero(s: string)
    requires IsDigits(s)
    ensures Value("0" + s) == Value(s)
  {
    var padded := "0" + s;
    if s != [] {
      ValueIgnoresLeadingZero(s[..|s| - 1]);
      assert padded[..|padded| - 1] == "0" + s[..|s| - 1];
    } else {
      assert padded == "0" && padded[..0] == [];
    }
  }

  /** The two-digit replicate label reads back to the replicate it was printed from. */
  lemma LabelRoundTrip(n: nat)
    requires n > 0
    ensures ReadPositive(Show02(n)) == Some(n)
  {
    ValueOfShow(n);
    ValueIgnoresLeadingZero(Show(n));
  }

  lemma LabelInjective(a: nat, b: nat)
    ensures Show02(a) == Show02(b) ==> a == b
  {
    ValueOfShow(a);
    ValueOfShow(b);
    ValueIgnoresLeadingZero(Show(a));
    ValueIgnoresLeadingZero(Show(b));
  }

  /** A replicate label below one hundred is its two digits; a longer one does not start with a zero. */
  lemma LabelText(n: nat)
    ensures n < 100 ==>
              |Show02(n)| == 2 && Show02(n)[0] as int == '0' as int + n / 10
                  && Show02(n)[1] as int == '0' as int + n % 10
    ensures n >= 100 ==> Show02(n)[0] != '0'
  {
    NoLeadingZero(n);
    assert forall d :: 0 <= d < 10 ==> DIGITS[d] as int == '0' as int + d;
  }

  lemma {:induction false} NoLeadingZero(n: nat)
    ensures n > 0 ==> Show(n)[0] != '0'
  {
    if n >= 10 { NoLeadingZero(n / 10); }
  }
}
