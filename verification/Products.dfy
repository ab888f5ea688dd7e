/** Facts about products that the solver is spared elsewhere. */
module Products {
  lemma TimesLess(a: int, b: int, n: nat)
    requires a < b
    ensures a * n + n <= b * n
  {
    assert (b - a - 1) * n >= 0;
    assert b * n == a * n + n + (b - a - 1) * n;
  }

  lemma TimesAtLeast(a: int, b: int, n: nat)
    requires a <= b
    ensures a * n <= b * n
  {
    if a < b {
      TimesLess(a, b, n);
    }
  }

  lemma Multiples(n: int, k: int)
    ensures (n - 1) * k + k == n * k
  {
  }

  lemma Distribute(a: nat, b: nat, n: nat)
    ensures (a + b) * n == a * n + b * n
  {
  }
}
