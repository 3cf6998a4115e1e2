/** Decimal numerals, as the numbers at the end of generated names. */
module Decimal {
  function Digit(n: nat): char
    requires n < 10
  {
    "0123456789"[n]
  }

  function Numeral(n: nat): (s: string)
    ensures s != ""
  {
    if n < 10 then [Digit(n)] else Numeral(n / 10) + [Digit(n % 10)]
  }

  /** The number a row of digits stands for. */
  function Value(s: string): int {
    if s == "" then 0 else 10 * Value(s[..|s| - 1]) + (s[|s| - 1] as int - '0' as int)
  }

  /** A numeral reads back as its number, in digits of which the first is no zero unless it is the only one. */
  lemma {:induction false} NumeralReads(n: nat)
    ensures Value(Numeral(n)) == n && (n > 0 ==> Numeral(n)[0] != '0')
    ensures forall i :: 0 <= i < |Numeral(n)| ==> '0' <= Numeral(n)[i] <= '9'
  {
    if n >= 10 {
      NumeralReads(n / 10);
      assert Numeral(n)[..|Numeral(n)| - 1] == Numeral(n / 10);
      DigitReads(n % 10);
    } else {
      DigitReads(n);
      assert Numeral(n)[..0] == "";
    }
  }

  lemma DigitReads(n: nat)
    requires n < 10
    ensures Digit(n) as int == '0' as int + n
  {}

  lemma NumeralIsInjective(m: nat, n: nat)
    requires Numeral(m) == Numeral(n)
    ensures m == n
  {
    NumeralReads(m);
    NumeralReads(n);
  }

  /** `f"{base}-{n}"` */
  function Suffixed(base: string, n: nat): string {
    base + "-" + Numeral(n)
  }

  /** Different numbers give different names. */
  lemma SuffixedIsInjective(base: string, m: nat, n: nat)
    ensures Suffixed(base, m) == Suffixed(base, n) <==> m == n
  {
    if Suffixed(base, m) == Suffixed(base, n) {
      assert Suffixed(base, m)[|base| + 1..] == Numeral(m);
      assert Suffixed(base, n)[|base| + 1..] == Numeral(n);
      NumeralIsInjective(m, n);
    }
  }
}
