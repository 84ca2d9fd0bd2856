// What the calls make of the swap: which pages go there, and how many.
module SwapTraffic {
  import opened Arithmetic
  import opened MemoryConstants
  import opened PageTree
  import opened Relinking
  import opened FrameAllocation
  import opened EvictionRule
  import opened FetchRule
  import opened AddressTranslation
  import opened FlatMemory

  // ---- one iteration ----

  // The next node on the way to page p is not there.
  ghost predicate Faults(z: Sizes, m: Memory, p: nat, depth: nat)
    requires z.pageSize >= 1 && depth < z.depth
  {
    !Live(z, m.ram, depth + 1, Prefix(z, p, depth + 1))
  }

  // Whether the iteration at `depth` has to swap a page out.
  ghost predicate Evicts(z: Sizes, m: Memory, p: nat, depth: nat, cur: int)
    requires z.pageSize >= 1 && depth < z.depth
  {
    Faults(z, m, p, depth) && MustEvict(z, m.ram, cur)
  }

  // m1 has the pages of m, less those in `out`, and p if it is `in`; in swap it is the other way round.
  ghost predicate Exchanges(z: Sizes, m: Memory, m1: Memory, out: set<nat>, into: set<nat>)
    requires z.pageSize >= 1
  {
    && (forall q: nat :: Mapped(z, m1.ram, q) <==> (Mapped(z, m.ram, q) && q !in out) || q in into)
    && m1.swap.Keys == m.swap.Keys + out - into
  }

  function IfLast(z: Sizes, depth: nat, p: nat): set<nat> {
    if depth + 1 == z.depth then {p} else {}
  }

  lemma HungExchanges(z: Sizes, m: Memory, p: nat, depth: nat, g: int)
    requires CanHang(z, m, p, depth, g)
    ensures Exchanges(z, m, Hung(z, m, p, depth, g), {}, IfLast(z, depth, p))
  {
    var content := HungIsLinked(z, m, p, depth, g);
    LinkWalks(z, m.ram, depth + 1, Prefix(z, p, depth + 1), g, content);
    assert depth + 1 == z.depth ==> Prefix(z, p, depth + 1) == p;
  }

  lemma TakenOutExchanges(z: Sizes, m: Memory, d: nat, x: nat)
    requires LooseInv(z, m) && Unlinkable(z, m.ram, d, x)
    ensures Exchanges(z, m, TakenOut(z, m, d, x), if d == z.depth then {x} else {}, {})
  {
    UnlinkWalks(z, m.ram, d, x);
  }

  lemma FetchExchanges(z: Sizes, m: Memory, p: nat, depth: nat, top: nat) returns (out: set<nat>)
    requires Faulting(z, m, p, depth) && UsesExactly(z, m.ram, top)
    ensures var cur := Walk(z, m.ram, depth, Prefix(z, p, depth));
            && Exchanges(z, m, Fetch(z, m, p, cur).0, out, {})
            && (if MustEvict(z, m.ram, cur) then exists v: nat :: IsVictim(z, m.ram, p, v) && out == {v} else out == {})
  {
    FullIffTop(z, m.ram, top);
    var d, x := FetchIs(z, m, p, depth, top);
    out := {};
    if SomeReclaimable(z, m.ram, Walk(z, m.ram, depth, Prefix(z, p, depth))) {
      TakenOutExchanges(z, m, d, x);
    } else if top + 1 == z.frames {
      out := {x};
      TakenOutExchanges(z, m, d, x);
    }
  }

  // A page is swapped out exactly if the iteration has to; p is brought in by the last iteration.
  lemma FaultExchanges(z: Sizes, m: Memory, p: nat, depth: nat, cur: nat) returns (out: set<nat>)
    requires AtTable(z, m, p, depth, cur) && depth < z.depth && Faults(z, m, p, depth)
    ensures Exchanges(z, m, Step(z, m, p, depth, cur).0, out, IfLast(z, depth, p))
    ensures if MustEvict(z, m.ram, cur) then exists v: nat :: IsVictim(z, m.ram, p, v) && out == {v} else out == {}
  {
    var top: nat :| UsesExactly(z, m.ram, top);
    var (m1, g) := Fetch(z, m, p, cur);
    FaultingStep(z, m, p, depth, cur);
    ServeFault(z, m, p, depth, top);
    HungExchanges(z, m1, p, depth, g);
    out := FetchExchanges(z, m, p, depth, top);
  }

  lemma PlainExchanges(z: Sizes, m: Memory, p: nat, depth: nat, cur: nat)
    requires AtTable(z, m, p, depth, cur) && depth < z.depth && !Faults(z, m, p, depth)
    ensures Step(z, m, p, depth, cur).0 == m && (depth + 1 == z.depth ==> Mapped(z, m.ram, p))
  {
    PlainStep(z, m, p, depth, cur);
  }

  // ---- a whole translation ----

  // How many of the iterations from `depth` on have to swap a page out.
  ghost function Evictions(z: Sizes, m: Memory, p: nat, depth: nat, cur: int): nat
    requires z.pageSize >= 1 && depth <= z.depth
    decreases z.depth - depth
  {
    if depth == z.depth || cur < 0 then 0
    else
      var (m1, next) := Step(z, m, p, depth, cur);
      (if Evicts(z, m, p, depth, cur) then 1 else 0) + Evictions(z, m1, p, depth + 1, next)
  }

  // The swap has gained the n pages that are no longer mapped, and lost p, if it was there.
  ghost predicate Swaps(z: Sizes, m: Memory, m1: Memory, p: nat, n: nat)
    requires z.pageSize >= 1
  {
    && Mapped(z, m1.ram, p) && (forall q: nat :: Mapped(z, m1.ram, q) ==> Mapped(z, m.ram, q) || q == p)
    && (forall q: nat :: q in m1.swap <==> q != p && (q in m.swap || (Mapped(z, m.ram, q) && !Mapped(z, m1.ram, q))))
    && |m1.swap| + (if p in m.swap then 1 else 0) == |m.swap| + n
  }

  // One iteration before the rest of them.
  lemma Compose(z: Sizes, m: Memory, m1: Memory, m2: Memory, p: nat, v: nat, evicts: bool, last: bool, n: nat)
    requires z.pageSize >= 1 && SwapIsSeparate(z, m) && Swaps(z, m1, m2, p, n)
    requires Exchanges(z, m, m1, if evicts then {v} else {}, if last then {p} else {})
    requires evicts ==> Mapped(z, m.ram, v) && v != p
    requires last ==> m2 == m1 && n == 0 && !Mapped(z, m.ram, p)
    ensures Swaps(z, m, m2, p, n + if evicts then 1 else 0)
  {
  }

  lemma {:induction false} TranslateSwaps(z: Sizes, m: Memory, p: nat, depth: nat, cur: int)
    requires AtTable(z, m, p, depth, cur)
    ensures Swaps(z, m, Translate(z, m, p, depth, cur).0, p, Evictions(z, m, p, depth, cur))
    decreases z.depth - depth
  {
    if depth < z.depth {
      StepKeeps(z, m, p, depth, cur);
      var (m1, next) := Step(z, m, p, depth, cur);
      TranslateSwaps(z, m1, p, depth + 1, next);
      if Faults(z, m, p, depth) {
        FaultSwaps(z, m, p, depth, cur);
      } else {
        PlainExchanges(z, m, p, depth, cur);
      }
    }
  }

  lemma FaultSwaps(z: Sizes, m: Memory, p: nat, depth: nat, cur: nat)
    requires AtTable(z, m, p, depth, cur) && depth < z.depth && Faults(z, m, p, depth)
    requires var (m1, next) := Step(z, m, p, depth, cur);
             Swaps(z, m1, Translate(z, m1, p, depth + 1, next).0, p, Evictions(z, m1, p, depth + 1, next))
    ensures Swaps(z, m, Translate(z, m, p, depth, cur).0, p, Evictions(z, m, p, depth, cur))
  {
    var (m1, next) := Step(z, m, p, depth, cur);
    var out := FaultExchanges(z, m, p, depth, cur);
    var v: nat := if v: nat :| IsVictim(z, m.ram, p, v) && out == {v} then v else 0;
    RequestedIsDead(z, m.ram, p, depth);
    Compose(z, m, m1, Translate(z, m1, p, depth + 1, next).0, p, v, MustEvict(z, m.ram, cur), depth + 1 == z.depth,
      Evictions(z, m1, p, depth + 1, next));
  }

  // ---- a whole call ----

  // Main result on swapping: the pages that a call swaps out are those that lose their frame, one for
  // each iteration that finds RAM full and no table to reclaim; the addressed page leaves the swap.
  lemma CallSwaps(z: Sizes, m: Memory, op: Op)
    requires Inv(z, m)
    ensures var p, m1 := Quot(op.addr, z.pageSize), Call(z, m, op).0;
            if op.addr < VirtualSize(z) then Swaps(z, m, m1, p, Evictions(z, m, p, 0, 0)) else m1 == m
  {
    if op.addr < VirtualSize(z) {
      var p, offset := Quot(op.addr, z.pageSize), Rem(op.addr, z.pageSize);
      AddressInRange(z, op.addr);
      PrefixRoot(z, p);
      TranslateSwaps(z, m, p, 0, 0);
      if op.Write? {
        TranslateFromRoot(z, m, p);
        var (m1, f) := Translate(z, m, p, 0, 0);
        TablesUntouched(z, m1.ram, SetEntry(m1.ram, f, offset, op.value), p);
      }
    }
  }

  lemma {:induction false} MappedStays(z: Sizes, m: Memory, p: nat, depth: nat, cur: int)
    requires AtTable(z, m, p, depth, cur) && Mapped(z, m.ram, p)
    ensures Translate(z, m, p, depth, cur) == (m, Walk(z, m.ram, z.depth, p))
    ensures Evictions(z, m, p, depth, cur) == 0
    decreases z.depth - depth
  {
    if depth < z.depth {
      PathIsLive(z, m.ram, p, z.depth, depth + 1);
      PlainStep(z, m, p, depth, cur);
      MappedStays(z, m, p, depth + 1, Walk(z, m.ram, depth + 1, Prefix(z, p, depth + 1)));
    }
  }

  // A call to a mapped page moves nothing: a read leaves the whole memory as it is, and a write all but
  // one word of RAM.
  lemma HitMovesNothing(z: Sizes, m: Memory, op: Op)
    requires Inv(z, m) && op.addr < VirtualSize(z) && Mapped(z, m.ram, Quot(op.addr, z.pageSize))
    ensures var p, offset := Quot(op.addr, z.pageSize), Rem(op.addr, z.pageSize);
            Call(z, m, op).0 ==
            if op.Read? then m else m.(ram := SetEntry(m.ram, Walk(z, m.ram, z.depth, p), offset, op.value))
  {
    AddressInRange(z, op.addr);
    PrefixRoot(z, Quot(op.addr, z.pageSize));
    MappedStays(z, m, Quot(op.addr, z.pageSize), 0, 0);
  }

  // ---- a working set that fits ----

  lemma StepTop(z: Sizes, m: Memory, p: nat, depth: nat, cur: nat, top: nat) returns (top1: nat)
    requires AtTable(z, m, p, depth, cur) && depth < z.depth && UsesExactly(z, m.ram, top)
    ensures var (m1, next) := Step(z, m, p, depth, cur);
            AtTable(z, m1, p, depth + 1, next) && UsesExactly(z, m1.ram, top1) && top1 <= top + 1
    ensures top + 1 < z.frames ==> !Evicts(z, m, p, depth, cur)
  {
    StepKeeps(z, m, p, depth, cur);
    FullIffTop(z, m.ram, top);
    top1 := top;
    if Faults(z, m, p, depth) {
      FaultingStep(z, m, p, depth, cur);
      ServeFault(z, m, p, depth, top);
      if !UsesExactly(z, Step(z, m, p, depth, cur).0.ram, top) {
        top1 := top + 1;
      }
    } else {
      PlainStep(z, m, p, depth, cur);
    }
  }

  // With a free frame for every level nothing is evicted.
  lemma {:induction false} RoomForAll(z: Sizes, m: Memory, p: nat, depth: nat, cur: int, top: nat) returns (top1: nat)
    requires AtTable(z, m, p, depth, cur) && UsesExactly(z, m.ram, top) && top + (z.depth - depth) < z.frames
    ensures Evictions(z, m, p, depth, cur) == 0
    ensures UsesExactly(z, Translate(z, m, p, depth, cur).0.ram, top1) && top1 <= top + (z.depth - depth)
    decreases z.depth - depth
  {
    if depth == z.depth {
      top1 := top;
    } else {
      var (m1, next) := Step(z, m, p, depth, cur);
      top1 := StepTop(z, m, p, depth, cur, top);
      top1 := RoomForAll(z, m1, p, depth + 1, next, top1);
    }
  }

  lemma EqualBySize(a: set<nat>, b: set<nat>)
    requires a <= b && |a| >= |b|
    ensures a == b
  {
    assert |b - a| == |b| - |b * a| && b * a == a;
  }

  lemma SubsetSize(a: set<nat>, b: set<nat>)
    requires a <= b
    ensures |a| <= |b|
  {
    assert |b - a| == |b| - |b * a| && b * a == a;
  }

  // Where nothing is evicted, no page loses its frame.
  lemma NothingLost(z: Sizes, m: Memory, m1: Memory, p: nat)
    requires z.pageSize >= 1 && SwapIsSeparate(z, m) && Swaps(z, m, m1, p, 0)
    ensures m1.swap.Keys == m.swap.Keys - {p}
    ensures forall q: nat :: Mapped(z, m.ram, q) ==> Mapped(z, m1.ram, q)
  {
    EqualBySize(m.swap.Keys - {p}, m1.swap.Keys);
    forall q: nat | Mapped(z, m.ram, q)
      ensures Mapped(z, m1.ram, q)
    {
      assert q in m1.swap <==> q in m1.swap.Keys;
    }
  }

  function PagesOf(z: Sizes, ops: seq<Op>): set<nat>
    requires z.pageSize >= 1
    decreases |ops|
  {
    if ops == [] then {}
    else (if ops[0].addr < VirtualSize(z) then {Quot(ops[0].addr, z.pageSize)} else {}) + PagesOf(z, ops[1..])
  }

  // The pages that the calls address and that have no frame yet.
  ghost function Missing(z: Sizes, m: Memory, ops: seq<Op>): set<nat>
    requires z.pageSize >= 1
  {
    set q | q in PagesOf(z, ops) && !Mapped(z, m.ram, q)
  }

  lemma SameTop(z: Sizes, ram: Ram, ram1: Ram, top: nat)
    requires z.pageSize >= 1 && UsesExactly(z, ram, top)
    requires forall d: nat, x: nat :: d <= z.depth ==> Walk(z, ram1, d, x) == Walk(z, ram, d, x)
    ensures UsesExactly(z, ram1, top)
  {
    forall f: nat | f <= top
      ensures FrameInUse(z, ram1, f)
    {
      assert FrameInUse(z, ram, f);
      var d: nat, x: nat :| Live(z, ram, d, x) && Walk(z, ram, d, x) == f;
      InUse(z, ram1, d, x);
    }
  }

  // What a call takes of the free frames, if there are enough of them.
  lemma CallFits(z: Sizes, m: Memory, op: Op, top: nat) returns (top1: nat)
    requires Inv(z, m) && UsesExactly(z, m.ram, top) && op.addr < VirtualSize(z)
    requires !Mapped(z, m.ram, Quot(op.addr, z.pageSize)) ==> top + z.depth < z.frames
    ensures Swaps(z, m, Call(z, m, op).0, Quot(op.addr, z.pageSize), 0)
    ensures UsesExactly(z, Call(z, m, op).0.ram, top1)
    ensures top1 <= top + if Mapped(z, m.ram, Quot(op.addr, z.pageSize)) then 0 else z.depth
  {
    var p, offset := Quot(op.addr, z.pageSize), Rem(op.addr, z.pageSize);
    AddressInRange(z, op.addr);
    PrefixRoot(z, p);
    CallSwaps(z, m, op);
    if Mapped(z, m.ram, p) {
      top1 := top;
      MappedStays(z, m, p, 0, 0);
    } else {
      top1 := RoomForAll(z, m, p, 0, 0, top);
    }
    if op.Write? {
      TranslateFromRoot(z, m, p);
      var (m1, f) := Translate(z, m, p, 0, 0);
      TablesUntouched(z, m1.ram, SetEntry(m1.ram, f, offset, op.value), p);
      SameTop(z, m1.ram, SetEntry(m1.ram, f, offset, op.value), top1);
    }
  }

  // Once a call has brought its page in, that page is missing no more.
  lemma FewerMissing(z: Sizes, m: Memory, m1: Memory, ops: seq<Op>, p: nat)
    requires z.pageSize >= 1 && ops != [] && ops[0].addr < VirtualSize(z) && p == Quot(ops[0].addr, z.pageSize)
    requires Mapped(z, m1.ram, p) && forall q: nat :: Mapped(z, m.ram, q) ==> Mapped(z, m1.ram, q)
    ensures |Missing(z, m1, ops[1..])| <= |Missing(z, m, ops) - {p}|
  {
    SubsetSize(Missing(z, m1, ops[1..]), Missing(z, m, ops) - {p});
  }

  // Frames enough for k pages are enough for one of them, and then for the rest.
  lemma RoomForRest(top: nat, top1: nat, k: nat, k1: nat, depth: nat, frames: nat, missing: bool)
    requires top + Times(k, depth) < frames && top1 <= top + (if missing then depth else 0)
    requires k1 <= k && (missing ==> k1 < k)
    ensures top1 + Times(k1, depth) < frames
  {
    if missing {
      TimesMono(k1, k - 1, depth);
    } else {
      TimesMono(k1, k, depth);
    }
  }

  lemma MissingCounts(z: Sizes, m: Memory, ops: seq<Op>, p: nat)
    requires z.pageSize >= 1 && ops != [] && ops[0].addr < VirtualSize(z) && p == Quot(ops[0].addr, z.pageSize)
    ensures var k, k1 := |Missing(z, m, ops)|, |Missing(z, m, ops) - {p}|;
            k1 <= k && (!Mapped(z, m.ram, p) ==> k1 < k)
  {
    if !Mapped(z, m.ram, p) {
      assert p in Missing(z, m, ops);
    } else {
      assert Missing(z, m, ops) - {p} == Missing(z, m, ops);
    }
  }

  lemma FirstFits(z: Sizes, m: Memory, ops: seq<Op>, top: nat) returns (top1: nat)
    requires Inv(z, m) && UsesExactly(z, m.ram, top) && ops != [] && ops[0].addr < VirtualSize(z)
    requires top + Times(|Missing(z, m, ops)|, z.depth) < z.frames
    ensures var p, m1 := Quot(ops[0].addr, z.pageSize), Call(z, m, ops[0]).0;
            && UsesExactly(z, m1.ram, top1) && top1 + Times(|Missing(z, m1, ops[1..])|, z.depth) < z.frames
            && m1.swap.Keys == m.swap.Keys - {p} && forall q: nat :: Mapped(z, m.ram, q) ==> Mapped(z, m1.ram, q)
  {
    var p, m1, k := Quot(ops[0].addr, z.pageSize), Call(z, m, ops[0]).0, |Missing(z, m, ops)|;
    MissingCounts(z, m, ops, p);
    if !Mapped(z, m.ram, p) {
      TimesMono(1, k, z.depth);
    }
    top1 := CallFits(z, m, ops[0], top);
    NothingLost(z, m, m1, p);
    FewerMissing(z, m, m1, ops, p);
    RoomForRest(top, top1, k, |Missing(z, m1, ops[1..])|, z.depth, z.frames, !Mapped(z, m.ram, p));
  }

  lemma RefusedCall(z: Sizes, m: Memory, ops: seq<Op>)
    requires z.pageSize >= 1 && ops != [] && ops[0].addr >= VirtualSize(z)
    ensures Call(z, m, ops[0]).0 == m && AfterRun(z, m, ops) == AfterRun(z, m, ops[1..])
    ensures PagesOf(z, ops) == PagesOf(z, ops[1..]) && Missing(z, m, ops[1..]) == Missing(z, m, ops)
  {
  }

  // Calls whose pages fit into the free frames, tables included, swap nothing out.
  lemma {:induction false} WorkingSetFits(z: Sizes, m: Memory, ops: seq<Op>, top: nat)
    requires Inv(z, m) && UsesExactly(z, m.ram, top)
    requires top + Times(|Missing(z, m, ops)|, z.depth) < z.frames
    ensures AfterRun(z, m, ops).swap.Keys == m.swap.Keys - PagesOf(z, ops)
    ensures forall q: nat :: Mapped(z, m.ram, q) ==> Mapped(z, AfterRun(z, m, ops).ram, q)
    decreases |ops|
  {
    if ops != [] {
      CallKeepsInv(z, m, ops[0]);
      if ops[0].addr < VirtualSize(z) {
        var top1 := FirstFits(z, m, ops, top);
        WorkingSetFits(z, Call(z, m, ops[0]).0, ops[1..], top1);
      } else {
        RefusedCall(z, m, ops);
        WorkingSetFits(z, m, ops[1..], top);
      }
    }
  }
}
