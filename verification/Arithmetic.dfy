// Multiplication and division over symbolic sizes.
module Arithmetic {
  // Product, quotient and remainder by repeated addition and subtraction: in proofs over symbolic
  // sizes they behave better than *, / and %, to which TimesIsProduct and QuotIsQuotient tie them.
  function Times(a: int, b: nat): nat
    decreases a
  {
    if a <= 0 then 0 else Times(a - 1, b) + b
  }

  function Quot(x: nat, n: nat): nat
    requires n >= 1
    decreases x
  {
    if x < n then 0 else 1 + Quot(x - n, n)
  }

  function Rem(x: nat, n: nat): (r: nat)
    requires n >= 1
    ensures r < n
    decreases x
  {
    if x < n then x else Rem(x - n, n)
  }

  lemma TimesIsProduct(a: nat, b: nat)
    ensures Times(a, b) == a * b
  {
    if a > 0 {
      TimesIsProduct(a - 1, b);
      assert a * b == (a - 1) * b + b;
    }
  }

  lemma QuotientOf(x: nat, n: nat, i: nat)
    requires i < n
    ensures Times(x, n) + i >= 0
    ensures Quot(Times(x, n) + i, n) == x && Rem(Times(x, n) + i, n) == i
  {
    if x > 0 {
      QuotientOf(x - 1, n, i);
    }
  }

  lemma SplitAt(x: nat, n: nat)
    requires n >= 1
    ensures x == Times(Quot(x, n), n) + Rem(x, n)
    ensures Rem(x, n) < n
    decreases x
  {
    if x >= n {
      SplitAt(x - n, n);
    }
  }

  lemma QuotIsQuotient(x: nat, n: nat)
    requires n >= 1
    ensures Quot(x, n) == x / n && Rem(x, n) == x % n
  {
    SplitAt(x, n);
    TimesIsProduct(Quot(x, n), n);
    Unique(x / n, x % n, Quot(x, n), Rem(x, n), n);
  }

  lemma {:induction false} TimesMono(a: nat, b: nat, n: nat)
    requires a <= b
    ensures Times(a, n) <= Times(b, n)
    decreases b
  {
    if a < b {
      TimesMono(a, b - 1, n);
    } else if a > 0 {
      TimesMono(a - 1, b - 1, n);
    }
  }

  // Quotient and remainder are unique.
  lemma Unique(q: nat, r: nat, x: nat, i: nat, n: nat)
    requires r < n && i < n && q * n + r == x * n + i
    ensures q == x && r == i
  {
    assert (q + 1) * n == q * n + n && (x + 1) * n == x * n + n;
    if q < x {
      ProductMono(q + 1, x, n);
    } else if x < q {
      ProductMono(x + 1, q, n);
    }
  }

  lemma ProductMono(a: nat, b: nat, n: nat)
    requires a <= b
    ensures a * n <= b * n
  {
  }

  lemma {:induction false} TimesAdds(a: nat, b: nat, n: nat)
    ensures Times(a + b, n) == Times(a, n) + Times(b, n)
  {
    if a > 0 {
      TimesAdds(a - 1, b, n);
    }
  }

  lemma {:induction false} TimesAssociates(q: nat, b: nat, n: nat)
    ensures Times(q, Times(b, n)) == Times(Times(q, b), n)
  {
    if q > 0 {
      TimesAssociates(q - 1, b, n);
      TimesAdds(Times(q - 1, b), b, n);
    }
  }

  // Dividing by n and then by b is dividing by b * n.
  lemma DivideTwice(x: nat, n: nat, b: nat)
    requires n >= 1 && b >= 1
    ensures Times(b, n) >= 1
    ensures Quot(Quot(x, n), b) == Quot(x, Times(b, n))
  {
    var y := Quot(x, n);
    TimesMono(1, b, n);
    RestFits(Rem(y, b), Rem(x, n), n, b);
    SplitTwice(x, n, b);
    QuotientIs(x, Quot(y, b), Times(b, n), Times(Rem(y, b), n) + Rem(x, n));
  }

  lemma RestFits(i: nat, j: nat, n: nat, b: nat)
    requires i < b && j < n
    ensures Times(i, n) + j < Times(b, n)
  {
    TimesMono(i + 1, b, n);
  }

  lemma QuotientIs(x: nat, q: nat, m: nat, rest: nat)
    requires rest < m && x == Times(q, m) + rest
    ensures Quot(x, m) == q && Rem(x, m) == rest
  {
    QuotientOf(q, m, rest);
  }

  lemma SplitTwice(x: nat, n: nat, b: nat)
    requires n >= 1 && b >= 1
    ensures var y := Quot(x, n);
            x == Times(Quot(y, b), Times(b, n)) + (Times(Rem(y, b), n) + Rem(x, n))
  {
    var y := Quot(x, n);
    SplitAt(x, n);
    SplitAt(y, b);
    TimesAdds(Times(Quot(y, b), b), Rem(y, b), n);
    TimesAssociates(Quot(y, b), b, n);
  }

  // ---- powers of two ----

  function Pow2(n: nat): (r: nat)
    ensures r >= 1
  {
    if n == 0 then 1 else 2 * Pow2(n - 1)
  }

  lemma {:induction false} Pow2Add(a: nat, b: nat)
    ensures Pow2(a + b) == Pow2(a) * Pow2(b)
  {
    if a > 0 {
      Pow2Add(a - 1, b);
      assert Pow2(a + b) == 2 * Pow2(a - 1 + b);
    }
  }

  lemma {:induction false} Pow2Mono(a: nat, b: nat)
    requires a <= b
    ensures Pow2(a) <= Pow2(b)
  {
    if a < b {
      Pow2Mono(a, b - 1);
    }
  }

  lemma LargePowers()
    ensures Pow2(1) == 2 && Pow2(31) == 0x8000_0000 && Pow2(62) == 0x4000_0000_0000_0000
  {
    assert Pow2(4) == 16;
    Pow2Add(4, 4);
    Pow2Add(8, 8);
    Pow2Add(16, 8);
    Pow2Add(24, 4);
    Pow2Add(28, 3);
    Pow2Add(31, 31);
  }
}
