// Runs of VMread and VMwrite, and the flat memory they implement.
module FlatMemory {
  import opened Arithmetic
  import opened MemoryConstants
  import opened PageTree
  import opened Relinking
  import opened Wrappers
  import opened FrameAllocation
  import opened AddressTranslation

  datatype Op = Read(addr: nat) | Write(addr: nat, value: Word)

  // The addresses below z.pages * z.pageSize are those of the virtual memory.
  function VirtualSize(z: Sizes): nat {
    Times(z.pages, z.pageSize)
  }

  // One call: the memory it leaves and what it returns (None: return code 0).
  ghost function Call(z: Sizes, m: Memory, op: Op): (Memory, Option<Word>)
    requires z.pageSize >= 1
  {
    if op.addr >= VirtualSize(z) then (m, None)
    else
      var p, offset := Quot(op.addr, z.pageSize), Rem(op.addr, z.pageSize);
      var (m1, f) := Translate(z, m, p, 0, 0);
      match op
      case Read(_) => (m1, Some(Entry(m1.ram, f, offset)))
      case Write(_, value) => (m1.(ram := SetEntry(m1.ram, f, offset, value)), Some(value))
  }

  // The results of a sequence of calls.
  ghost function Run(z: Sizes, m: Memory, ops: seq<Op>): seq<Option<Word>>
    requires z.pageSize >= 1
    decreases |ops|
  {
    if ops == [] then []
    else
      var (m1, r) := Call(z, m, ops[0]);
      [r] + Run(z, m1, ops[1..])
  }

  // The same calls on an array with one cell for every virtual address.
  function FlatCall(flat: seq<Word>, op: Op): (seq<Word>, Option<Word>) {
    if op.addr >= |flat| then (flat, None)
    else
      match op
      case Read(addr) => (flat, Some(flat[addr]))
      case Write(addr, value) => (flat[addr := value], Some(value))
  }

  function FlatRun(flat: seq<Word>, ops: seq<Op>): seq<Option<Word>>
    decreases |ops|
  {
    if ops == [] then []
    else
      var (flat1, r) := FlatCall(flat, ops[0]);
      [r] + FlatRun(flat1, ops[1..])
  }

  // The flat memory holds every page that the paged memory has contents for.
  ghost predicate Agrees(z: Sizes, m: Memory, flat: seq<Word>)
    requires z.pageSize >= 1
  {
    && |flat| == VirtualSize(z)
    && forall q: nat :: Contents(z, m, q).Some? ==> PageAgrees(z, Contents(z, m, q).value, q, flat)
  }

  ghost predicate PageAgrees(z: Sizes, frame: Frame, q: nat, flat: seq<Word>)
    requires z.pageSize >= 1
  {
    && |frame| == z.pageSize
    && forall a: nat :: a < |flat| && Quot(a, z.pageSize) == q ==> flat[a] == frame[Rem(a, z.pageSize)]
  }

  lemma AddressInRange(z: Sizes, addr: nat)
    requires z.Valid() && addr < VirtualSize(z)
    ensures Quot(addr, z.pageSize) < z.pages && Rem(addr, z.pageSize) < z.pageSize
  {
    SmallQuotient(addr, z.pageSize, z.pages);
    SplitAt(addr, z.pageSize);
  }

  // A translation serves the requested page and loses nothing.
  lemma TranslateFromRoot(z: Sizes, m: Memory, p: nat)
    requires Inv(z, m) && p < z.pages
    ensures var (m1, f) := Translate(z, m, p, 0, 0);
            && Inv(z, m1) && KeepsContents(z, m, m1, p)
            && 0 < f < z.frames && Live(z, m1.ram, z.depth, p) && Walk(z, m1.ram, z.depth, p) == f
            && Contents(z, m1, p) == Some(FrameAt(m1.ram, f)) && |FrameAt(m1.ram, f)| == z.pageSize
  {
    PrefixRoot(z, p);
    TranslateKeeps(z, m, p, 0, 0);
    WalkInRange(z, Translate(z, m, p, 0, 0).0.ram, z.depth, p);
  }

  // Storing a word into a mapped page changes that word of that page and nothing else.
  lemma StoreInPage(z: Sizes, m: Memory, p: nat, offset: nat, value: Word)
    requires Inv(z, m) && Live(z, m.ram, z.depth, p) && offset < z.pageSize
    ensures var f := Walk(z, m.ram, z.depth, p);
            var m' := m.(ram := SetEntry(m.ram, f, offset, value));
            && Inv(z, m')
            && Contents(z, m', p) == Some(FrameAt(m.ram, f)[..offset] + [value] + FrameAt(m.ram, f)[offset + 1..])
            && (forall q: nat :: q != p ==> Contents(z, m', q) == Contents(z, m, q))
  {
    var f := Walk(z, m.ram, z.depth, p);
    var m' := m.(ram := SetEntry(m.ram, f, offset, value));
    WalkInRange(z, m.ram, z.depth, p);
    TablesUntouched(z, m.ram, m'.ram, p);
    forall d: nat, x: nat | Live(z, m'.ram, d, x)
      ensures Live(z, m.ram, d, x)
    {
    }
    forall d: nat, x: nat, i: nat | d < z.depth && Live(z, m'.ram, d, x) && i < z.pageSize
      ensures 0 <= Entry(m'.ram, Walk(z, m'.ram, d, x), i) < z.frames
    {
      assert Live(z, m.ram, d, x) && d != z.depth;
    }
    assert FrameAt(m'.ram, f) == FrameAt(m.ram, f)[..offset] + [value] + FrameAt(m.ram, f)[offset + 1..];
    var top: nat :| UsesExactly(z, m.ram, top);
    forall g: nat | g <= top
      ensures FrameInUse(z, m'.ram, g)
    {
      assert FrameInUse(z, m.ram, g);
      var d: nat, x: nat :| Live(z, m.ram, d, x) && Walk(z, m.ram, d, x) == g;
      InUse(z, m'.ram, d, x);
    }
    assert UsesExactly(z, m'.ram, top);
    forall q: nat | q != p
      ensures Contents(z, m', q) == Contents(z, m, q)
    {
      if Live(z, m.ram, z.depth, q) {
        assert Walk(z, m.ram, z.depth, q) != f;
      }
    }
  }

  lemma TablesUntouched(z: Sizes, ram: Ram, ram': Ram, p: nat)
    requires z.Valid() && IsLooseTree(z, ram) && Live(z, ram, z.depth, p)
    requires forall g, i :: g != Walk(z, ram, z.depth, p) ==> Entry(ram', g, i) == Entry(ram, g, i)
    ensures forall d: nat, x: nat :: d <= z.depth ==> Walk(z, ram', d, x) == Walk(z, ram, d, x)
  {
    forall d: nat, x: nat | d <= z.depth
      ensures Walk(z, ram', d, x) == Walk(z, ram, d, x)
    {
      WalkUntouched(z, ram, ram', p, d, x);
    }
  }

  lemma {:induction false} WalkUntouched(z: Sizes, ram: Ram, ram': Ram, p: nat, d: nat, x: nat)
    requires z.Valid() && IsLooseTree(z, ram) && Live(z, ram, z.depth, p) && d <= z.depth
    requires forall g, i :: g != Walk(z, ram, z.depth, p) ==> Entry(ram', g, i) == Entry(ram, g, i)
    ensures Walk(z, ram', d, x) == Walk(z, ram, d, x)
    decreases d
  {
    if d > 0 {
      WalkUntouched(z, ram, ram', p, d - 1, Up(z, x));
      if Live(z, ram, d - 1, Up(z, x)) {
        assert d - 1 != z.depth;
      }
    }
  }

  // ---- the refinement ----

  // Every call keeps the invariant.
  lemma CallKeepsInv(z: Sizes, m: Memory, op: Op)
    requires Inv(z, m)
    ensures Inv(z, Call(z, m, op).0)
  {
    if op.addr < VirtualSize(z) {
      AddressInRange(z, op.addr);
      TranslateFromRoot(z, m, Quot(op.addr, z.pageSize));
      if op.Write? {
        StoreInPage(z, Translate(z, m, Quot(op.addr, z.pageSize), 0, 0).0, Quot(op.addr, z.pageSize),
          Rem(op.addr, z.pageSize), op.value);
      }
    }
  }

  // A call changes the contents of no page but the addressed one; a read changes not even that, once
  // it has contents; and a write changes one word of it.
  lemma CallKeepsOthers(z: Sizes, m: Memory, op: Op, q: nat)
    requires Inv(z, m)
    ensures var p, m' := Quot(op.addr, z.pageSize), Call(z, m, op).0;
            && (q != p || op.addr >= VirtualSize(z) ==> Contents(z, m', q) == Contents(z, m, q))
            && (op.Read? && Contents(z, m, q).Some? ==> Contents(z, m', q) == Contents(z, m, q))
            && (op.Write? && op.addr < VirtualSize(z) && Contents(z, m, p).Some? ==>
                  var before, offset := Contents(z, m, p).value, Rem(op.addr, z.pageSize);
                  && offset < |before|
                  && Contents(z, m', p) == Some(before[offset := op.value]))
  {
    if op.addr < VirtualSize(z) {
      var p := Quot(op.addr, z.pageSize);
      AddressInRange(z, op.addr);
      TranslateFromRoot(z, m, p);
      if op.Write? {
        var (m1, f) := Translate(z, m, p, 0, 0);
        var frame, offset := FrameAt(m1.ram, f), Rem(op.addr, z.pageSize);
        StoreInPage(z, m1, p, offset, op.value);
        assert frame[..offset] + [op.value] + frame[offset + 1..] == frame[offset := op.value];
      }
    }
  }

  // Every flat memory that agrees with the outcome of a call comes from one that agrees with its start.
  lemma CallRefines(z: Sizes, m: Memory, op: Op, flat1: seq<Word>) returns (flat: seq<Word>)
    requires Inv(z, m) && Agrees(z, Call(z, m, op).0, flat1)
    ensures Agrees(z, m, flat)
    ensures FlatCall(flat, op) == (flat1, Call(z, m, op).1)
  {
    flat := flat1;
    if op.addr < VirtualSize(z) {
      var p, offset := Quot(op.addr, z.pageSize), Rem(op.addr, z.pageSize);
      AddressInRange(z, op.addr);
      TranslateFromRoot(z, m, p);
      var (m1, f) := Translate(z, m, p, 0, 0);
      var frame := FrameAt(m1.ram, f);
      if op.Write? {
        StoreInPage(z, m1, p, offset, op.value);
        flat := flat1[op.addr := frame[offset]];
        UndoStore(z, frame, p, op.addr, op.value, flat1);
        assert flat[op.addr := op.value] == flat1 by { assert flat1[op.addr] == op.value; }
        forall q: nat | q != p && Contents(z, m, q).Some?
          ensures PageAgrees(z, Contents(z, m, q).value, q, flat)
        {
          assert Contents(z, Call(z, m, op).0, q) == Contents(z, m, q);
        }
      }
    }
  }

  lemma UndoStore(z: Sizes, frame: Frame, p: nat, addr: nat, value: Word, flat1: seq<Word>)
    requires z.Valid() && |frame| == z.pageSize && addr < |flat1| && Quot(addr, z.pageSize) == p
    requires PageAgrees(z, frame[..Rem(addr, z.pageSize)] + [value] + frame[Rem(addr, z.pageSize) + 1..], p, flat1)
    ensures flat1[addr] == value
    ensures PageAgrees(z, frame, p, flat1[addr := frame[Rem(addr, z.pageSize)]])
  {
    var offset, flat := Rem(addr, z.pageSize), flat1[addr := frame[Rem(addr, z.pageSize)]];
    forall a: nat | a < |flat| && Quot(a, z.pageSize) == p && a != addr
      ensures flat[a] == frame[Rem(a, z.pageSize)]
    {
      SplitAt(a, z.pageSize);
      SplitAt(addr, z.pageSize);
      assert Rem(a, z.pageSize) != offset;
    }
  }

  ghost function AfterRun(z: Sizes, m: Memory, ops: seq<Op>): Memory
    requires z.pageSize >= 1
    decreases |ops|
  {
    if ops == [] then m else AfterRun(z, Call(z, m, ops[0]).0, ops[1..])
  }

  // Any contents can be spread over a flat memory.
  lemma SomeFlatAgrees(z: Sizes, m: Memory) returns (flat: seq<Word>)
    requires Inv(z, m)
    ensures Agrees(z, m, flat)
  {
    flat := seq(VirtualSize(z), a requires 0 <= a < VirtualSize(z) =>
      var c := Contents(z, m, Quot(a, z.pageSize));
      if c.Some? && Rem(a, z.pageSize) < |c.value| then c.value[Rem(a, z.pageSize)] else 0);
    forall q: nat | Contents(z, m, q).Some?
      ensures PageAgrees(z, Contents(z, m, q).value, q, flat)
    {
      if Live(z, m.ram, z.depth, q) {
        WalkInRange(z, m.ram, z.depth, q);
      }
      forall a: nat | a < |flat| && Quot(a, z.pageSize) == q
        ensures flat[a] == Contents(z, m, q).value[Rem(a, z.pageSize)]
      {
        SplitAt(a, z.pageSize);
      }
    }
  }

  // Main result: whatever is relinked, reclaimed or evicted on the way, a sequence of calls
  // returns what it would return on a flat memory that holds all pages touched so far.
  lemma {:induction false} RunRefinesFlatMemory(z: Sizes, m: Memory, ops: seq<Op>) returns (flat: seq<Word>)
    requires Inv(z, m)
    ensures Agrees(z, m, flat)
    ensures Run(z, m, ops) == FlatRun(flat, ops)
    ensures Inv(z, AfterRun(z, m, ops))
    decreases |ops|
  {
    if ops == [] {
      flat := SomeFlatAgrees(z, m);
    } else {
      CallKeepsInv(z, m, ops[0]);
      var flat1 := RunRefinesFlatMemory(z, Call(z, m, ops[0]).0, ops[1..]);
      flat := CallRefines(z, m, ops[0], flat1);
    }
  }

  // The call at position i is a write to addr that no later call up to position k overwrites.
  ghost predicate LastWrite(ops: seq<Op>, i: nat, k: nat, addr: nat) {
    && i < k < |ops| && ops[i].Write? && ops[i].addr == addr
    && forall j :: i < j < k && ops[j].Write? ==> ops[j].addr != addr
  }

  lemma {:induction false} FlatKeepsCell(flat: seq<Word>, ops: seq<Op>, k: nat, addr: nat)
    requires k < |ops| && addr < |flat| && ops[k] == Read(addr)
    requires forall j :: 0 <= j < k && ops[j].Write? ==> ops[j].addr != addr
    ensures |FlatRun(flat, ops)| == |ops| && FlatRun(flat, ops)[k] == Some(flat[addr])
    decreases k
  {
    FlatRunLength(flat, ops);
    if k > 0 {
      FlatKeepsCell(FlatCall(flat, ops[0]).0, ops[1..], k - 1, addr);
    }
  }

  lemma {:induction false} FlatRunLength(flat: seq<Word>, ops: seq<Op>)
    ensures |FlatRun(flat, ops)| == |ops|
    decreases |ops|
  {
    if ops != [] {
      FlatRunLength(FlatCall(flat, ops[0]).0, ops[1..]);
    }
  }

  lemma {:induction false} FlatLastWrite(flat: seq<Word>, ops: seq<Op>, i: nat, k: nat, addr: nat)
    requires addr < |flat| && LastWrite(ops, i, k, addr) && ops[k] == Read(addr)
    ensures |FlatRun(flat, ops)| == |ops| && FlatRun(flat, ops)[k] == Some(ops[i].value)
    decreases i
  {
    FlatRunLength(flat, ops);
    var flat1 := FlatCall(flat, ops[0]).0;
    if i == 0 {
      assert flat1[addr] == ops[i].value;
      FlatKeepsCell(flat1, ops[1..], k - 1, addr);
    } else {
      assert LastWrite(ops[1..], i - 1, k - 1, addr);
      FlatLastWrite(flat1, ops[1..], i - 1, k - 1, addr);
    }
  }

  // VMread returns the last value written to its address.
  lemma ReadsLastWrite(z: Sizes, m: Memory, ops: seq<Op>, i: nat, k: nat, addr: nat)
    requires Inv(z, m) && addr < VirtualSize(z)
    requires LastWrite(ops, i, k, addr) && ops[k] == Read(addr)
    ensures |Run(z, m, ops)| == |ops| && Run(z, m, ops)[k] == Some(ops[i].value)
  {
    var flat := RunRefinesFlatMemory(z, m, ops);
    FlatLastWrite(flat, ops, i, k, addr);
  }

  lemma {:induction false} FlatKeepsReads(flat: seq<Word>, ops: seq<Op>, i: nat, k: nat, addr: nat)
    requires addr < |flat| && i < k < |ops| && ops[i] == Read(addr) && ops[k] == Read(addr)
    requires forall j :: i < j < k && ops[j].Write? ==> ops[j].addr != addr
    ensures |FlatRun(flat, ops)| == |ops| && FlatRun(flat, ops)[i] == FlatRun(flat, ops)[k]
    decreases i
  {
    FlatRunLength(flat, ops);
    if i == 0 {
      FlatKeepsCell(flat, ops, 0, addr);
      FlatKeepsCell(flat, ops, k, addr);
    } else {
      FlatKeepsReads(FlatCall(flat, ops[0]).0, ops[1..], i - 1, k - 1, addr);
    }
  }

  // Two reads of an address with no write to it in between return the same, even if nothing was ever
  // written to it.
  lemma ReadsAreStable(z: Sizes, m: Memory, ops: seq<Op>, i: nat, k: nat, addr: nat)
    requires Inv(z, m) && addr < VirtualSize(z) && i < k < |ops|
    requires ops[i] == Read(addr) && ops[k] == Read(addr)
    requires forall j :: i < j < k && ops[j].Write? ==> ops[j].addr != addr
    ensures |Run(z, m, ops)| == |ops| && Run(z, m, ops)[i] == Run(z, m, ops)[k]
  {
    var flat := RunRefinesFlatMemory(z, m, ops);
    FlatKeepsReads(flat, ops, i, k, addr);
  }

  // ---- after VMinitialize ----

  // Swap holds whole pages of the virtual memory.
  ghost predicate SwapIsWhole(z: Sizes, swap: map<nat, Frame>) {
    forall q: nat :: q in swap ==> q < z.pages && |swap[q]| == z.pageSize
  }

  // Clearing frame 0 makes a tree of whatever RAM held, with the root as its only table.
  lemma InitialInv(z: Sizes, ram: Ram, swap: map<nat, Frame>)
    requires z.Valid() && WellSized(z, ram) && SwapIsWhole(z, swap)
    ensures Inv(z, Memory(ram[0 := Zeros(z)], swap))
  {
    var ram' := ram[0 := Zeros(z)];
    forall d: nat, x: nat | d <= z.depth && d > 0
      ensures Walk(z, ram', d, x) == -1
    {
      OnlyRoot(z, ram', d, x);
    }
    InUse(z, ram', 0, 0);
    assert UsesExactly(z, ram', 0);
  }

  lemma {:induction false} OnlyRoot(z: Sizes, ram: Ram, d: nat, x: nat)
    requires z.pageSize >= 1 && d > 0
    requires forall i :: 0 <= i < z.pageSize ==> Entry(ram, 0, i) == 0
    ensures Walk(z, ram, d, x) == -1
    decreases d
  {
    UpDown(z, x);
    if d > 1 {
      OnlyRoot(z, ram, d - 1, Up(z, x));
    }
  }
}
