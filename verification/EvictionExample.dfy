// A run in which the page evicted is one step away from the requested one, cyclically, while another
// mapped page is eight steps away.
module EvictionExample {
  import opened Arithmetic
  import opened MemoryConstants
  import opened PageTree
  import opened Relinking
  import opened FrameAllocation
  import opened AddressTranslation
  import opened FlatMemory
  import opened EvictionRule

  // 16 pages of 16 words, one level of tables, three frames.
  const EXAMPLE := Sizes(16, 1, 3, 16)

  // The root table once page 8 leads to frame a and page 15 to frame b (0: not mapped), and two frames
  // with whatever they hold.
  function ExampleRam(a: nat, b: nat, f1: Frame, f2: Frame): Ram {
    [seq(16, i => if i == 8 then a else if i == 15 then b else 0), f1, f2]
  }

  function ExampleMemory(a: nat, b: nat, f1: Frame, f2: Frame): Memory {
    Memory(ExampleRam(a, b, f1, f2), map[])
  }

  lemma ExampleIsValid()
    ensures EXAMPLE.Valid() && VirtualSize(EXAMPLE) == 256
  {
    assert Power(16, 0) == 1 && Power(16, 1) == Times(1, 16) && Times(0, 16) == 0;
    TimesIsProduct(16, 16);
  }

  // The frame that the root table gives for page x.
  function Target(a: nat, b: nat, x: nat): int {
    var e := if x == 8 then a else if x == 15 then b else 0;
    if e == 0 then -1 else e
  }

  lemma ExampleWalks(a: nat, b: nat, f1: Frame, f2: Frame, d: nat, x: nat)
    requires d <= 1
    ensures Walk(EXAMPLE, ExampleRam(a, b, f1, f2), d, x) ==
            if d == 0 then (if x == 0 then 0 else -1) else Target(a, b, x)
  {
    if d == 1 {
      var ram := ExampleRam(a, b, f1, f2);
      QuotIsQuotient(x, 16);
      assert Up(EXAMPLE, x) == x / 16 && Slot(EXAMPLE, x) == x % 16;
      assert Walk(EXAMPLE, ram, 0, Up(EXAMPLE, x)) == if x < 16 then 0 else -1;
      assert x < 16 ==> Entry(ram, 0, x) == if x == 8 then a else if x == 15 then b else 0;
    }
  }

  // Page 8 in frame 1 or nowhere, and then page 15 in frame 2 or nowhere.
  ghost predicate InOrder(a: nat, b: nat, f1: Frame, f2: Frame) {
    |f1| == |f2| == 16 && ((a == 0 && b == 0) || (a == 1 && (b == 0 || b == 2)))
  }

  lemma ExampleUses(a: nat, b: nat, f1: Frame, f2: Frame)
    requires InOrder(a, b, f1, f2)
    ensures UsesExactly(EXAMPLE, ExampleRam(a, b, f1, f2), if b > 0 then 2 else a)
  {
    var ram, top := ExampleRam(a, b, f1, f2), if b > 0 then 2 else a;
    forall d: nat, x: nat | Live(EXAMPLE, ram, d, x)
      ensures Walk(EXAMPLE, ram, d, x) <= top
    {
      ExampleWalks(a, b, f1, f2, d, x);
    }
    ExampleWalks(a, b, f1, f2, 0, 0);
    ExampleWalks(a, b, f1, f2, 1, 8);
    ExampleWalks(a, b, f1, f2, 1, 15);
    InUse(EXAMPLE, ram, 0, 0);
    if a > 0 {
      InUse(EXAMPLE, ram, 1, 8);
    }
    if b > 0 {
      InUse(EXAMPLE, ram, 1, 15);
    }
  }

  lemma ExampleInv(a: nat, b: nat, f1: Frame, f2: Frame)
    requires InOrder(a, b, f1, f2)
    ensures Inv(EXAMPLE, ExampleMemory(a, b, f1, f2))
    ensures UsesExactly(EXAMPLE, ExampleRam(a, b, f1, f2), if b > 0 then 2 else a)
  {
    var ram := ExampleRam(a, b, f1, f2);
    ExampleIsValid();
    ExampleUses(a, b, f1, f2);
    forall d: nat, x: nat | d <= 1
      ensures Walk(EXAMPLE, ram, d, x) == if d == 0 then (if x == 0 then 0 else -1) else Target(a, b, x)
    {
      ExampleWalks(a, b, f1, f2, d, x);
    }
  }

  // With one level of tables nothing can be reclaimed.
  lemma ExampleSearch(a: nat, b: nat, f1: Frame, f2: Frame, p: nat)
    requires InOrder(a, b, f1, f2)
    ensures var r := SearchResult(EXAMPLE, ExampleRam(a, b, f1, f2), p, 0);
            r.newFrame == 0 && r.maxFrame == if b > 0 then 2 else a
  {
    var ram, top := ExampleRam(a, b, f1, f2), if b > 0 then 2 else a;
    ExampleInv(a, b, f1, f2);
    CounterIsTop(EXAMPLE, ram, p, 0, top);
    var n := EmptyTableFound(EXAMPLE, ram, p, 0);
  }

  // The entry that the walk for page p reads, and where it is.
  lemma ExampleFault(a: nat, b: nat, f1: Frame, f2: Frame, p: nat)
    requires InOrder(a, b, f1, f2) && p < 16 && Target(a, b, p) == -1
    ensures EXAMPLE.Valid() && Faulting(EXAMPLE, ExampleMemory(a, b, f1, f2), p, 0)
    ensures Prefix(EXAMPLE, p, 0) == 0 && Prefix(EXAMPLE, p, 1) == p && Slot(EXAMPLE, p) == p
    ensures Peek(EXAMPLE, ExampleRam(a, b, f1, f2), Times(0, 16) + p) == 0
    ensures forall v :: Poke(EXAMPLE, ExampleRam(a, b, f1, f2), Times(0, 16) + p, v) ==
                        SetEntry(ExampleRam(a, b, f1, f2), 0, p, v)
  {
    var ram := ExampleRam(a, b, f1, f2);
    ExampleIsValid();
    ExampleInv(a, b, f1, f2);
    PrefixRoot(EXAMPLE, p);
    QuotIsQuotient(p, 16);
    ExampleWalks(a, b, f1, f2, 0, 0);
    ExampleWalks(a, b, f1, f2, 1, p);
    forall v
      ensures Poke(EXAMPLE, ram, Times(0, 16) + p, v) == SetEntry(ram, 0, p, v)
    {
      AtAddress(EXAMPLE, ram, 0, p, v);
    }
    AtAddress(EXAMPLE, ram, 0, p, 0);
  }

  // With one level of tables, a call for page p that faults gets a frame for it and links that frame.
  lemma FaultingCall(z: Sizes, m: Memory, p: nat)
    requires Faulting(z, m, p, 0) && z.depth == 1 && Times(p, z.pageSize) < VirtualSize(z)
    ensures Call(z, m, Read(Times(p, z.pageSize))).0 == Hung(z, Fetch(z, m, p, 0).0, p, 0, Fetch(z, m, p, 0).1)
  {
    PrefixRoot(z, p);
    QuotientOf(p, z.pageSize, 0);
    LastFault(z, m, p, 0, 0);
  }

  // While a frame is left it gets the next one, and a page never seen before keeps what is in it.
  lemma FaultingCallMaps(z: Sizes, m: Memory, p: nat, top: nat)
    requires Faulting(z, m, p, 0) && z.depth == 1 && Times(p, z.pageSize) < VirtualSize(z)
    requires UsesExactly(z, m.ram, top) && top + 1 < z.frames && p !in m.swap
    requires SearchResult(z, m.ram, p, 0).newFrame == 0
    ensures Call(z, m, Read(Times(p, z.pageSize))).0 == m.(ram := SetEntry(m.ram, 0, Slot(z, p), top + 1))
  {
    CounterIsTop(z, m.ram, p, 0, top);
    FaultingCall(z, m, p);
    PrefixRoot(z, p);
    var ram := SetEntry(m.ram, 0, Slot(z, p), top + 1);
    assert ram[top + 1 := ram[top + 1]] == ram;
    assert m.swap - {p} == m.swap;
  }

  lemma FaultingCallEvicts(z: Sizes, m: Memory, p: nat, q: nat)
    requires Faulting(z, m, p, 0) && z.depth == 1 && UsesExactly(z, m.ram, z.frames - 1)
    requires SearchResult(z, m.ram, p, 0).newFrame == 0 && HighestMapped(z, m.ram, q) && q > p
    requires Times(p, z.pageSize) < VirtualSize(z)
    ensures Call(z, m, Read(Times(p, z.pageSize))).0.swap.Keys == m.swap.Keys + {q} - {p}
  {
    PrefixRoot(z, p);
    assert Walk(z, m.ram, 0, 0) == 0;
    FaultEvictsHighest(z, m, p, 0, q);
    WalkInRange(z, m.ram, z.depth, q);
    FaultingCall(z, m, p);
  }

  // While a frame is left, a fault on page p gives it the next one.
  lemma ExampleMaps(a: nat, b: nat, f1: Frame, f2: Frame, p: nat)
    requires InOrder(a, b, f1, f2) && b == 0 && p < 16 && Target(a, b, p) == -1
    ensures Call(EXAMPLE, ExampleMemory(a, b, f1, f2), Read(16 * p)).0 ==
            Memory(SetEntry(ExampleRam(a, b, f1, f2), 0, p, a + 1), map[])
  {
    ReadyToMap(a, b, f1, f2, p);
    FaultingCallMaps(EXAMPLE, ExampleMemory(a, b, f1, f2), p, a);
  }

  // So pages 8 and 15 get the two frames.
  lemma MapsPage8(f1: Frame, f2: Frame)
    requires |f1| == |f2| == 16
    ensures Call(EXAMPLE, ExampleMemory(0, 0, f1, f2), Read(16 * 8)).0 == ExampleMemory(1, 0, f1, f2)
  {
    ExampleMaps(0, 0, f1, f2, 8);
    ExampleLinks(0, 0, f1, f2, 8);
  }

  lemma MapsPage15(f1: Frame, f2: Frame)
    requires |f1| == |f2| == 16
    ensures Call(EXAMPLE, ExampleMemory(1, 0, f1, f2), Read(16 * 15)).0 == ExampleMemory(1, 2, f1, f2)
  {
    ExampleMaps(1, 0, f1, f2, 15);
    ExampleLinks(1, 0, f1, f2, 15);
  }

  lemma ReadyToMap(a: nat, b: nat, f1: Frame, f2: Frame, p: nat)
    requires InOrder(a, b, f1, f2) && b == 0 && p < 16 && Target(a, b, p) == -1
    ensures Faulting(EXAMPLE, ExampleMemory(a, b, f1, f2), p, 0) && UsesExactly(EXAMPLE, ExampleRam(a, b, f1, f2), a)
    ensures SearchResult(EXAMPLE, ExampleRam(a, b, f1, f2), p, 0).newFrame == 0
    ensures Times(p, 16) == 16 * p < VirtualSize(EXAMPLE) && Slot(EXAMPLE, p) == p
  {
    ExampleIsValid();
    ExampleInv(a, b, f1, f2);
    ExampleSearch(a, b, f1, f2, p);
    ExampleFault(a, b, f1, f2, p);
    TimesIsProduct(p, 16);
  }

  lemma ExampleLinks(a: nat, b: nat, f1: Frame, f2: Frame, p: nat)
    requires p == 8 || p == 15
    ensures SetEntry(ExampleRam(a, b, f1, f2), 0, p, a + 1) ==
            if p == 8 then ExampleRam(a + 1, b, f1, f2) else ExampleRam(a, a + 1, f1, f2)
  {
    var ram := SetEntry(ExampleRam(a, b, f1, f2), 0, p, a + 1);
    assert ram[0] == (if p == 8 then ExampleRam(a + 1, b, f1, f2) else ExampleRam(a, a + 1, f1, f2))[0];
  }

  // The fault on page 0 with pages 8 and 15 mapped swaps out page 15, and no other.
  lemma ExampleEvicts(f1: Frame, f2: Frame)
    requires |f1| == |f2| == 16
    ensures Call(EXAMPLE, ExampleMemory(1, 2, f1, f2), Read(0)).0.swap.Keys == {15}
  {
    ExampleIsValid();
    ExampleInv(1, 2, f1, f2);
    ExampleSearch(1, 2, f1, f2, 0);
    ExampleFault(1, 2, f1, f2, 0);
    ExampleHighest(f1, f2);
    FaultingCallEvicts(EXAMPLE, ExampleMemory(1, 2, f1, f2), 0, 15);
  }

  lemma ExampleHighest(f1: Frame, f2: Frame)
    ensures HighestMapped(EXAMPLE, ExampleRam(1, 2, f1, f2), 15)
  {
    forall x: nat
      ensures Mapped(EXAMPLE, ExampleRam(1, 2, f1, f2), x) <==> x == 8 || x == 15
    {
      ExampleWalks(1, 2, f1, f2, 1, x);
    }
  }

  // From any RAM: after VMinitialize, reads of page 8 and page 15 fill the RAM; a read of page 0 then
  // finds no frame and evicts page 15, one step away, although page 8, eight steps away, is mapped.
  lemma DistanceIsNotMaximised(ram: Ram)
    requires WellSized(EXAMPLE, ram)
    ensures Inv(EXAMPLE, Memory(ram[0 := Zeros(EXAMPLE)], map[]))
    ensures var m := AfterRun(EXAMPLE, Memory(ram[0 := Zeros(EXAMPLE)], map[]), [Read(16 * 8), Read(16 * 15)]);
            && Faulting(EXAMPLE, m, 0, 0) && UsesExactly(EXAMPLE, m.ram, 2) && 2 + 1 == EXAMPLE.frames
            && Mapped(EXAMPLE, m.ram, 8) && CyclicDistance(EXAMPLE, 0, 8) == 8
            && Mapped(EXAMPLE, m.ram, 15) && CyclicDistance(EXAMPLE, 0, 15) == 1
            && m.swap == map[]
            && Call(EXAMPLE, m, Read(0)).0.swap.Keys == {15}
  {
    var f1, f2 := ram[1], ram[2];
    ExampleIsValid();
    InitialInv(EXAMPLE, ram, map[]);
    assert Zeros(EXAMPLE) == ExampleRam(0, 0, f1, f2)[0];
    assert ram[0 := Zeros(EXAMPLE)] == ExampleRam(0, 0, f1, f2);
    ExampleRun(f1, f2);
    ExampleInv(1, 2, f1, f2);
    ExampleFault(1, 2, f1, f2, 0);
    ExampleWalks(1, 2, f1, f2, 1, 8);
    ExampleWalks(1, 2, f1, f2, 1, 15);
    ExampleEvicts(f1, f2);
  }

  lemma ExampleRun(f1: Frame, f2: Frame)
    requires |f1| == |f2| == 16
    ensures AfterRun(EXAMPLE, ExampleMemory(0, 0, f1, f2), [Read(16 * 8), Read(16 * 15)]) == ExampleMemory(1, 2, f1, f2)
  {
    MapsPage8(f1, f2);
    MapsPage15(f1, f2);
    var m, ops := ExampleMemory(0, 0, f1, f2), [Read(16 * 8), Read(16 * 15)];
    assert ops[1..] == [Read(16 * 15)] && ops[1..][1..] == [];
    var m1 := Call(EXAMPLE, m, ops[0]).0;
    var m2 := Call(EXAMPLE, m1, ops[1]).0;
    assert AfterRun(EXAMPLE, m2, []) == m2;
    assert AfterRun(EXAMPLE, m1, ops[1..]) == m2;
  }
}
