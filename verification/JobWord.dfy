// The packed 64-bit progress word: stage in bits 62-63, total pairs in 31-61, processed in 0-30.
module JobWord {
  import opened Arithmetic
  import opened Bits

  const FIELD: nat := 0x8000_0000 // 2^31
  const STAGE_UNIT: nat := 0x4000_0000_0000_0000 // 2^62
  const WORD: int := 0x1_0000_0000_0000_0000 // 2^64

  const WORD32: int := 0x1_0000_0000 // 2^32

  const UNDEFINED_STAGE := 0
  const MAP_STAGE := 1
  const SHUFFLE_STAGE := 2
  const REDUCE_STAGE := 3

  function GetStage(val: nat): nat { val / STAGE_UNIT }

  function GetTotalPairs(val: nat): nat { val / FIELD % FIELD }

  function GetPairsProcessed(val: nat): nat { val % FIELD }

  // The value that setAtomicVar stores: shifting is multiplying, and the shifted fields do not
  // overlap, so | is +.
  function SetAtomicVar(stage: nat, totalPairs: nat): nat {
    Times(stage, STAGE_UNIT) + Times(totalPairs, FIELD)
  }

  // fetch_add, with the wrap-around of the unsigned word written out.
  function FetchAdd(val: nat, k: int): nat
    requires val < WORD && -WORD < k < WORD
  {
    if val + k < 0 then val + k + WORD
    else if val + k >= WORD then val + k - WORD
    else val + k
  }

  // The same on the 32-bit atomicShuffle.
  function FetchAdd32(val: nat, k: int): nat
    requires val < WORD32 && -WORD32 < k < WORD32
  {
    if val + k < 0 then val + k + WORD32
    else if val + k >= WORD32 then val + k - WORD32
    else val + k
  }

  lemma FetchAddWraps(val: nat, k: int)
    ensures val < WORD && -WORD < k < WORD ==> FetchAdd(val, k) == (val + k) % WORD
    ensures val < WORD32 && -WORD32 < k < WORD32 ==> FetchAdd32(val, k) == (val + k) % WORD32
  {
  }

  ghost predicate Fits(stage: nat, total: nat, processed: nat) {
    stage <= 3 && total < FIELD && processed < FIELD
  }

  function Pack(stage: nat, total: nat, processed: nat): nat {
    SetAtomicVar(stage, total) + processed
  }

  lemma PackUnpack(stage: nat, total: nat, processed: nat)
    requires Fits(stage, total, processed)
    ensures var v := Pack(stage, total, processed);
            && v < WORD
            && GetStage(v) == stage && GetTotalPairs(v) == total && GetPairsProcessed(v) == processed
  {
    TimesIsProduct(stage, STAGE_UNIT);
    TimesIsProduct(total, FIELD);
    var v := stage * STAGE_UNIT + total * FIELD + processed;
    var low := total * FIELD + processed;
    assert v == stage * STAGE_UNIT + low && low < STAGE_UNIT;
    assert v == (stage * FIELD + total) * FIELD + processed;
    assert v / FIELD == stage * FIELD + total;
  }

  lemma UnpackPack(val: nat)
    requires val < WORD
    ensures Fits(GetStage(val), GetTotalPairs(val), GetPairsProcessed(val))
    ensures Pack(GetStage(val), GetTotalPairs(val), GetPairsProcessed(val)) == val
  {
    TimesIsProduct(GetStage(val), STAGE_UNIT);
    TimesIsProduct(GetTotalPairs(val), FIELD);
    assert val / FIELD / FIELD == val / STAGE_UNIT;
  }

  // Adding to the processed field carries into no other field while the sum fits.
  lemma AddProcessed(stage: nat, total: nat, processed: nat, k: int)
    requires Fits(stage, total, processed) && 0 <= processed + k < FIELD
    ensures Pack(stage, total, processed) < WORD
    ensures FetchAdd(Pack(stage, total, processed), k) == Pack(stage, total, processed + k)
  {
    PackUnpack(stage, total, processed);
    PackUnpack(stage, total, processed + k);
  }

  const STAGE_OFFSET: nat := 62
  const TOTAL_PAIRS_OFFSET: nat := 31

  // The getters as they are written, with a right shift and a mask.
  lemma GettersShiftAndMask(val: nat)
    ensures var mask := ShiftLeft(1, TOTAL_PAIRS_OFFSET) - 1;
            && mask >= 0
            && GetStage(val) == ShiftRight(val, STAGE_OFFSET)
            && GetTotalPairs(val) == And(ShiftRight(val, TOTAL_PAIRS_OFFSET), mask)
            && GetPairsProcessed(val) == And(val, mask)
  {
    Offsets();
    ShiftLeftMultiplies(1, TOTAL_PAIRS_OFFSET);
    TimesIsProduct(1, FIELD);
    ShiftRightDivides(val, STAGE_OFFSET);
    ShiftRightDivides(val, TOTAL_PAIRS_OFFSET);
    QuotIsQuotient(val, STAGE_UNIT);
    QuotIsQuotient(val, FIELD);
    QuotIsQuotient(val / FIELD, FIELD);
    AndMaskIsRemainder(val / FIELD, TOTAL_PAIRS_OFFSET);
    AndMaskIsRemainder(val, TOTAL_PAIRS_OFFSET);
  }

  // The stored value as it is written: two left shifts and an or, in which no bit is shifted out.
  lemma SetterShiftsAndOrs(stage: nat, total: nat)
    requires Fits(stage, total, 0)
    ensures SetAtomicVar(stage, total) == Or(ShiftLeft(stage, STAGE_OFFSET), ShiftLeft(total, TOTAL_PAIRS_OFFSET))
    ensures SetAtomicVar(stage, total) < WORD
  {
    Offsets();
    ShiftLeftMultiplies(stage, STAGE_OFFSET);
    ShiftLeftMultiplies(total, TOTAL_PAIRS_OFFSET);
    TimesIsProduct(total, FIELD);
    OrAdds(stage, STAGE_OFFSET, ShiftLeft(total, TOTAL_PAIRS_OFFSET));
    PackUnpack(stage, total, 0);
  }

  lemma Offsets()
    ensures Pow2(STAGE_OFFSET) == STAGE_UNIT && Pow2(TOTAL_PAIRS_OFFSET) == FIELD
  {
    LargePowers();
  }

  // The same three fields with the shifts and masks of the source, on 64-bit words.
  lemma ShiftsAndMasks(stage: bv64, total: bv64, processed: bv64)
    requires stage < 4 && total < 0x8000_0000 && processed < 0x8000_0000
    ensures var w := ((stage << 62) | (total << 31)) + processed;
            var mask := ((1 as bv64) << 31) - 1;
            && w >> 62 == stage && (w >> 31) & mask == total && w & mask == processed
  {
  }
}
