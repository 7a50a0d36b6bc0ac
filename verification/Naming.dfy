/** Decimal numerals and the search for a name that is not taken yet. */
module Naming {
  function Digit(d: nat): char
    requires d < 10
  {
    "0123456789"[d]
  }

  /** The %d rendering of a natural number. */
  function Decimal(n: nat): (s: string)
    ensures s != []
  {
    if n < 10 then [Digit(n)] else Decimal(n / 10) + [Digit(n % 10)]
  }

  lemma {:induction false} DecimalInjective(m: nat, n: nat)
    requires Decimal(m) == Decimal(n)
    ensures m == n
  {
    var a, b := Decimal(m), Decimal(n);
    assert a[|a| - 1] == Digit(m % 10) && b[|b| - 1] == Digit(n % 10);
    if m >= 10 && n >= 10 {
      assert Decimal(m / 10) == a[..|a| - 1] && Decimal(n / 10) == b[..|b| - 1];
      DecimalInjective(m / 10, n / 10);
    }
  }

  /** The number that a string of digits stands for. */
  function Value(s: string): int { if s == [] then 0 else 10 * Value(s[..|s| - 1]) + (s[|s| - 1] as int - '0' as int) }

  /** The rendering stands for its number, in digits only and without leading zeros. */
  lemma {:induction false} DecimalValue(n: nat)
    ensures Value(Decimal(n)) == n && forall c <- Decimal(n) :: '0' <= c <= '9'
    ensures n > 0 ==> Decimal(n)[0] != '0'
  {
    if n < 10 {
      assert [Digit(n)][..0] == [];
    } else {
      DecimalValue(n / 10);
      assert (Decimal(n / 10) + [Digit(n % 10)])[..|Decimal(n / 10)|] == Decimal(n / 10);
    }
  }

  function Numbered(stem: string, k: nat): string { stem + Decimal(k) }

  lemma NumberedInjective(stem: string, j: nat, k: nat)
    requires Numbered(stem, j) == Numbered(stem, k)
    ensures j == k
  {
    assert Decimal(j) == Numbered(stem, j)[|stem|..];
    assert Decimal(k) == Numbered(stem, k)[|stem|..];
    DecimalInjective(j, k);
  }

  lemma {:induction false} NumberedTaken(stem: string, lo: nat, n: nat, taken: set<string>)
    requires forall k :: lo <= k < lo + n ==> Numbered(stem, k) in taken
    ensures n <= |taken|
  {
    if n > 0 {
      var last := Numbered(stem, lo + n - 1);
      forall k | lo <= k < lo + n - 1 ensures Numbered(stem, k) in taken - {last} {
        if Numbered(stem, k) == last {
          NumberedInjective(stem, k, lo + n - 1);
        }
      }
      NumberedTaken(stem, lo, n - 1, taken - {last});
    }
  }

  /** The search for a free number terminates: among |taken| + 1 numbered names one is free. */
  method FreeNumber(stem: string, lo: nat, taken: set<string>) returns (k: nat)
    ensures lo <= k <= lo + |taken| && Numbered(stem, k) !in taken
    ensures forall j :: lo <= j < k ==> Numbered(stem, j) in taken
  {
    k := lo;
    while Numbered(stem, k) in taken
      invariant lo <= k <= lo + |taken|
      invariant forall j :: lo <= j < k ==> Numbered(stem, j) in taken
      decreases lo + |taken| - k
    {
      NumberedTaken(stem, lo, k + 1 - lo, taken);
      k := k + 1;
    }
  }
}
