// The compile-time constants of MemoryConstants.h, kept symbolic.
module MemoryConstants {
  import opened Arithmetic

  const TWO64: nat := 0x1_0000_0000_0000_0000

  // What the page-table code needs to know of the constants.
  datatype Sizes = Sizes(pageSize: nat, depth: nat, frames: nat, pages: nat) {
    ghost predicate Valid() {
      && pageSize >= 2
      && depth >= 1
      && depth + 1 <= frames <= 0x8000_0000 // a frame number is stored in a 32-bit word
      && 1 <= pages <= Power(pageSize, depth)
      && 4 * pages <= TWO64
    }
  }

  function Power(b: nat, e: nat): nat {
    if e == 0 then 1 else Times(Power(b, e - 1), b)
  }

  datatype Constants = Constants(offsetWidth: nat, physicalWidth: nat, virtualWidth: nat) {
    ghost predicate Valid() {
      && 1 <= offsetWidth < virtualWidth <= 62
      && offsetWidth <= 30 // the entries of a table are counted in an int
      && offsetWidth <= physicalWidth <= offsetWidth + 31
      && TablesDepth() + 1 <= NumFrames()
    }

    function PageSize(): nat { Pow2(offsetWidth) }

    function RamSize(): nat { Pow2(physicalWidth) }

    function VirtualMemorySize(): nat { Pow2(virtualWidth) }

    function NumFrames(): nat { RamSize() / PageSize() }

    function NumPages(): nat { VirtualMemorySize() / PageSize() }

    // CEIL((virtualWidth - offsetWidth) / offsetWidth)
    function TablesDepth(): nat
      requires 1 <= offsetWidth <= virtualWidth
    {
      (virtualWidth - offsetWidth + offsetWidth - 1) / offsetWidth
    }

    // OFFSET_MASK
    function OffsetMask(): nat { PageSize() - 1 }

    // (virtualAddr >> tablesWidth) & OFFSET_MASK, with tablesWidth counted for k levels
    function Index(virtualAddr: nat, k: nat): nat {
      Rem(Quot(virtualAddr, Pow2(Times(k, offsetWidth))), PageSize())
    }

    function TableSizes(): Sizes
      requires 1 <= offsetWidth <= virtualWidth
    {
      Sizes(PageSize(), TablesDepth(), NumFrames(), NumPages())
    }
  }

  lemma {:induction false} PowerOfPow2(w: nat, k: nat)
    ensures Power(Pow2(w), k) == Pow2(Times(k, w))
  {
    if k > 0 {
      PowerOfPow2(w, k - 1);
      Pow2Add(Times(k - 1, w), w);
      TimesIsProduct(Pow2(Times(k - 1, w)), Pow2(w));
    }
  }

  lemma DivideExact(a: nat, b: nat)
    requires b <= a
    ensures Pow2(a) / Pow2(b) == Pow2(a - b)
    ensures Pow2(a) == Times(Pow2(a - b), Pow2(b))
  {
    Pow2Add(a - b, b);
    TimesIsProduct(Pow2(a - b), Pow2(b));
    QuotientOf(Pow2(a - b), Pow2(b), 0);
    QuotIsQuotient(Pow2(a), Pow2(b));
  }

  // The depth really is the ceiling that the macro computes.
  lemma DepthIsCeiling(c: Constants)
    requires 1 <= c.offsetWidth < c.virtualWidth
    ensures c.TablesDepth() >= 1
    ensures Times(c.TablesDepth() - 1,
            c.offsetWidth) < c.virtualWidth - c.offsetWidth <= Times(c.TablesDepth(), c.offsetWidth)
  {
    var w, n := c.offsetWidth, c.virtualWidth - 1;
    SplitAt(n, w);
    QuotIsQuotient(n, w);
    assert c.TablesDepth() == Quot(n, w);
  }

  // The macros give sizes on which every theorem of this project applies.
  lemma SizesAreValid(c: Constants)
    requires c.Valid()
    ensures c.TableSizes().Valid()
    ensures Times(c.NumFrames(), c.PageSize()) == c.RamSize()
    ensures Times(c.NumPages(), c.PageSize()) == c.VirtualMemorySize()
  {
    var w, v, d := c.offsetWidth, c.virtualWidth, c.TablesDepth();
    DivideExact(c.physicalWidth, w);
    DivideExact(v, w);
    DepthIsCeiling(c);
    Pow2Mono(1, w);
    Pow2Mono(c.physicalWidth - w, 31);
    PowerOfPow2(w, d);
    Pow2Mono(v - w, Times(d, w));
    Pow2Mono(v - w, 62);
    LargePowers();
  }
}
