// The shifts, & and | of unsigned words, bit by bit on natural numbers.
module Bits {
  import opened Arithmetic

  function ShiftRight(x: nat, k: nat): nat
    decreases k
  {
    if k == 0 then x else ShiftRight(x / 2, k - 1)
  }

  function ShiftLeft(x: nat, k: nat): nat
    decreases k
  {
    if k == 0 then x else 2 * ShiftLeft(x, k - 1)
  }

  function And(x: nat, y: nat): nat
    decreases x
  {
    if x == 0 || y == 0 then 0
    else 2 * And(x / 2, y / 2) + if x % 2 == 1 && y % 2 == 1 then 1 else 0
  }

  function Or(x: nat, y: nat): nat
    decreases x
  {
    if x == 0 then y
    else if y == 0 then x
    else 2 * Or(x / 2, y / 2) + if x % 2 == 1 || y % 2 == 1 then 1 else 0
  }

  // Shifting right drops the low bits.
  lemma {:induction false} ShiftRightDivides(x: nat, k: nat)
    ensures ShiftRight(x, k) == Quot(x, Pow2(k))
    decreases k
  {
    if k == 0 {
      QuotIsQuotient(x, 1);
    } else {
      ShiftRightDivides(x / 2, k - 1);
      QuotIsQuotient(x, 2);
      DivideTwice(x, 2, Pow2(k - 1));
      TimesIsProduct(Pow2(k - 1), 2);
    }
  }

  lemma {:induction false} ShiftLeftMultiplies(x: nat, k: nat)
    ensures ShiftLeft(x, k) == Times(x, Pow2(k))
  {
    if k == 0 {
      TimesIsProduct(x, 1);
    } else {
      ShiftLeftMultiplies(x, k - 1);
      TimesDouble(x, Pow2(k - 1));
    }
  }

  lemma {:induction false} TimesDouble(a: nat, n: nat)
    ensures Times(a, 2 * n) == 2 * Times(a, n)
  {
    if a > 0 {
      TimesDouble(a - 1, n);
    }
  }

  // Masking keeps the low bits.
  lemma {:induction false} AndMaskIsRemainder(x: nat, k: nat)
    ensures And(x, Pow2(k) - 1) == Rem(x, Pow2(k))
    decreases k
  {
    if k > 0 {
      AndMaskIsRemainder(x / 2, k - 1);
      HalfRemainder(x, Pow2(k - 1));
      MaskHalves(Pow2(k - 1));
    }
  }

  lemma MaskHalves(m: nat)
    requires m >= 1
    ensures (2 * m - 1) / 2 == m - 1 && (2 * m - 1) % 2 == 1
  {
  }

  lemma HalfRemainder(x: nat, m: nat)
    requires m >= 1
    ensures Rem(x, 2 * m) == 2 * Rem(x / 2, m) + x % 2
  {
    SplitAt(x / 2, m);
    TimesDouble(Quot(x / 2, m), m);
    QuotientOf(Quot(x / 2, m), 2 * m, 2 * Rem(x / 2, m) + x % 2);
  }

  // Fields that do not overlap: | is +.
  lemma {:induction false} OrAdds(x: nat, k: nat, y: nat)
    requires y < Pow2(k)
    ensures Or(ShiftLeft(x, k), y) == ShiftLeft(x, k) + y
    decreases k
  {
    if k > 0 {
      OrAdds(x, k - 1, y / 2);
      assert ShiftLeft(x, k) / 2 == ShiftLeft(x, k - 1) && ShiftLeft(x, k) % 2 == 0;
    }
  }
}
