// Page-table walk, frame allocation and the public calls, as they run.
module VirtualMemory {
  import opened Arithmetic
  import opened Bits
  import opened MemoryConstants
  import opened PageTree
  import opened TableSearch
  import opened Relinking
  import opened Wrappers
  import opened FrameAllocation
  import opened EvictionRule
  import opened FetchRule
  import opened AddressTranslation
  import opened FlatMemory
  import opened PhysicalMemory

  // The two words that the search updates through pointers.
  class Found {
    var newFrame: Word
    var maxFrameIndex: int

    constructor ()
      ensures newFrame == 0 && maxFrameIndex == 0
    {
      newFrame, maxFrameIndex := 0, 0;
    }
  }

  ghost function View(data: array<nat>, found: Found): Search
    requires data.Length == 5
    reads data, found
  {
    Search(data[0], data[1], data[2], data[3], data[4], found.newFrame, found.maxFrameIndex)
  }

  // The nodes below n, n excluded.
  ghost function Beneath(z: Sizes, ram: Ram, n: Node): seq<Node>
    requires n.depth <= z.depth
  {
    if n.depth == z.depth then [] else Below(z, ram, n, 0)
  }

  lemma NothingBelowZeros(z: Sizes, ram: Ram, n: Node, i: nat)
    requires n.depth < z.depth && i <= z.pageSize
    requires forall j :: 0 <= j < z.pageSize ==> Entry(ram, n.frame, j) == 0
    ensures Below(z, ram, n, i) == []
    decreases z.pageSize - i
  {
    if i < z.pageSize {
      NothingBelowZeros(z, ram, n, i + 1);
    }
  }

  // The search after entry i of table n has been dealt with.
  ghost function AfterEntry(z: Sizes, ram: Ram, p: nat, cur: int, s: Search, n: Node, i: nat): Search
    requires n.depth < z.depth
  {
    var e := Entry(ram, n.frame, i);
    if e == 0 then s
    else
      var c := ChildNode(z, n, i, e);
      VisitAll(z, ram, p, cur, Inspect(z, ram, p, cur, s.(maxFrame := s.maxFrame + 1), c), Beneath(z, ram, c))
  }

  lemma VisitEntry(z: Sizes, ram: Ram, p: nat, cur: int, s: Search, n: Node, i: nat)
    requires n.depth < z.depth && i < z.pageSize
    ensures VisitAll(z, ram, p, cur, s, Below(z, ram, n, i)) ==
            VisitAll(z, ram, p, cur, AfterEntry(z, ram, p, cur, s, n, i), Below(z, ram, n, i + 1))
  {
    var e := Entry(ram, n.frame, i);
    if e != 0 {
      var c := ChildNode(z, n, i, e);
      VisitConcat(z, ram, p, cur, s, Preorder(z, ram, c), Below(z, ram, n, i + 1));
      assert Preorder(z, ram, c)[1..] == Beneath(z, ram, c);
    } else {
      assert Below(z, ram, n, i) == Below(z, ram, n, i + 1);
    }
  }

  class VirtualMemory {
    const c: Constants
    const pm: PhysicalMemory

    ghost predicate Configured()
      reads pm
    {
      c.Valid() && pm.z == c.TableSizes()
    }

    ghost predicate Valid()
      reads pm
    {
      Configured() && pm.Ready() && Inv(pm.z, pm.Snapshot())
    }

    constructor (c: Constants)
      requires c.Valid()
      ensures this.c == c && fresh(pm) && Configured() && pm.Ready() && pm.swapFile == map[]
    {
      SizesAreValid(c);
      this.c := c;
      pm := new PhysicalMemory(c.TableSizes());
    }

    // PMread of entry i of a frame.
    method ReadEntry(frame: nat, i: nat) returns (value: Word)
      requires pm.Ready() && pm.ram != [] && frame < pm.z.frames && i < pm.z.pageSize
      modifies pm
      ensures pm.Ready() && pm.ram == old(pm.ram) && pm.swapFile == old(pm.swapFile)
      ensures value == Entry(pm.ram, frame, i)
    {
      AddressOfFrame(pm.z, frame, i);
      AtAddress(pm.z, pm.ram, frame, i, 0);
      value := pm.PMread(frame * pm.z.pageSize + i);
    }

    // PMwrite of entry i of a frame.
    method WriteEntry(frame: nat, i: nat, value: Word)
      requires pm.Ready() && frame < pm.z.frames && i < pm.z.pageSize
      modifies pm
      ensures pm.Ready() && pm.ram == SetEntry(old(pm.Allocated()), frame, i, value) && pm.swapFile == old(pm.swapFile)
    {
      AddressOfFrame(pm.z, frame, i);
      AtAddress(pm.z, pm.Allocated(), frame, i, value);
      pm.PMwrite(frame * pm.z.pageSize + i, value);
    }

    // Zeroes a frame, given by its number rather than by its first address.
    method ClearFrame(frame: nat)
      requires pm.Ready() && frame < pm.z.frames
      modifies pm
      ensures pm.Ready() && pm.swapFile == old(pm.swapFile)
      ensures pm.ram == old(pm.Allocated())[frame := Zeros(pm.z)]
    {
      ghost var was := pm.Allocated();
      var i := 0;
      while i < pm.z.pageSize
        invariant 0 <= i <= pm.z.pageSize
        invariant pm.Ready() && pm.swapFile == old(pm.swapFile)
        invariant pm.Allocated() == was[frame := pm.Allocated()[frame]]
        invariant forall j :: 0 <= j < i ==> pm.Allocated()[frame][j] == 0
        invariant i > 0 ==> pm.ram != []
      {
        WriteEntry(frame, i, 0);
        i := i + 1;
      }
      assert pm.ram[frame] == Zeros(pm.z);
    }

    // Depth-first search below the table or page in frame curFrameVal.
    method TraverseTables(virtualAddr: nat, preFrame: Word, data: array<nat>, found: Found,
                          depth: nat, curFrameVal: nat, preAddr: nat, curPage: nat)
      requires Configured() && pm.Ready() && pm.ram != [] && EntriesAreFrames(pm.z, pm.ram)
      requires data.Length == 5 && depth <= pm.z.depth
      requires IsNode(pm.z, pm.ram, Node(depth, curPage, curFrameVal, preAddr))
      modifies pm, data, found
      ensures pm.Ready() && pm.ram == old(pm.ram) && pm.swapFile == old(pm.swapFile)
      ensures var z, p, n := pm.z, Quot(virtualAddr, pm.z.pageSize), Node(depth, curPage, curFrameVal, preAddr);
              View(data, found) ==
              VisitAll(z, pm.ram, p, preFrame, Inspect(z, pm.ram, p, preFrame, old(View(data, found)), n),
                Beneath(z, pm.ram, n))
      decreases pm.z.depth - depth, 0
    {
      ghost var z, ram := pm.z, pm.ram;
      ghost var n := Node(depth, curPage, curFrameVal, preAddr);
      WalkInRange(z, ram, depth, curPage);
      if depth == pm.z.depth {
        ConsiderPage(virtualAddr, data, found, curFrameVal, preAddr, curPage);
      } else {
        if curFrameVal != preFrame && depth > 0 {
          var empty := IsAllZero(curFrameVal);
          if empty {
            found.newFrame := curFrameVal;
            data[4] := preAddr;
            NothingBelowZeros(z, ram, n, 0);
            return;
          }
        }
        TraverseEntries(virtualAddr, preFrame, data, found, depth, curFrameVal, preAddr, curPage);
      }
    }

    // The search's loop over the entries of table curFrameVal.
    method TraverseEntries(virtualAddr: nat, preFrame: Word, data: array<nat>, found: Found,
                           depth: nat, curFrameVal: nat, ghost preAddr: nat, curPage: nat)
      requires Configured() && pm.Ready() && pm.ram != [] && EntriesAreFrames(pm.z, pm.ram)
      requires data.Length == 5 && depth < pm.z.depth && curFrameVal < pm.z.frames
      requires IsNode(pm.z, pm.ram, Node(depth, curPage, curFrameVal, preAddr))
      modifies pm, data, found
      ensures pm.Ready() && pm.ram == old(pm.ram) && pm.swapFile == old(pm.swapFile)
      ensures View(data, found) ==
              VisitAll(pm.z, pm.ram, Quot(virtualAddr, pm.z.pageSize), preFrame, old(View(data, found)),
                       Below(pm.z, pm.ram, Node(depth, curPage, curFrameVal, preAddr), 0))
      decreases pm.z.depth - depth - 1, 2
    {
      ghost var ram, p := pm.ram, Quot(virtualAddr, pm.z.pageSize);
      ghost var n := Node(depth, curPage, curFrameVal, preAddr);
      ghost var all := VisitAll(pm.z, ram, p, preFrame, View(data, found), Below(pm.z, ram, n, 0));
      var i := 0;
      while i < pm.z.pageSize
        invariant 0 <= i <= pm.z.pageSize
        invariant pm.Ready() && pm.ram == ram && pm.swapFile == old(pm.swapFile)
        invariant VisitAll(pm.z, ram, p, preFrame, View(data, found), Below(pm.z, ram, n, i)) == all
      {
        VisitEntry(pm.z, ram, p, preFrame, View(data, found), n, i);
        VisitChild(virtualAddr, preFrame, data, found, depth, curFrameVal, preAddr, curPage, i);
        i := i + 1;
      }
    }

    // The body of that loop.
    method VisitChild(virtualAddr: nat, preFrame: Word, data: array<nat>, found: Found,
                      depth: nat, curFrameVal: nat, ghost preAddr: nat, curPage: nat, i: nat)
      requires Configured() && pm.Ready() && pm.ram != [] && EntriesAreFrames(pm.z, pm.ram)
      requires data.Length == 5 && depth < pm.z.depth && curFrameVal < pm.z.frames && i < pm.z.pageSize
      requires IsNode(pm.z, pm.ram, Node(depth, curPage, curFrameVal, preAddr))
      modifies pm, data, found
      ensures pm.Ready() && pm.ram == old(pm.ram) && pm.swapFile == old(pm.swapFile)
      ensures View(data, found) ==
              AfterEntry(pm.z, pm.ram, Quot(virtualAddr, pm.z.pageSize), preFrame, old(View(data, found)),
                         Node(depth, curPage, curFrameVal, preAddr), i)
      decreases pm.z.depth - depth - 1, 1
    {
      var nextFrameVal := ReadEntry(curFrameVal, i);
      if nextFrameVal != 0 {
        ChildIsNode(pm.z, pm.ram, Node(depth, curPage, curFrameVal, preAddr), i);
        TimesIsProduct(curPage, pm.z.pageSize);
        TimesIsProduct(curFrameVal, pm.z.pageSize);
        var nextFrameAddr := curFrameVal * pm.z.pageSize + i;
        var nextPage := curPage * pm.z.pageSize + i;
        found.maxFrameIndex := found.maxFrameIndex + 1;
        TraverseTables(virtualAddr, preFrame, data, found, depth + 1, nextFrameVal, nextFrameAddr, nextPage);
      }
    }

    // The leaf case of the search.
    method ConsiderPage(virtualAddr: nat, data: array<nat>, ghost found: Found,
                        curFrameVal: nat, preAddr: nat, curPage: nat)
      requires Configured() && pm.Ready() && data.Length == 5
      modifies data
      ensures var z, p, n := pm.z, Quot(virtualAddr, pm.z.pageSize), Node(pm.z.depth, curPage, curFrameVal, preAddr);
              forall cur :: View(data, found) == Inspect(z, pm.ram, p, cur, old(View(data, found)), n)
    {
      SplitAddress(c, virtualAddr);
      var dist := (ShiftRight(virtualAddr, c.offsetWidth) - curPage) % TWO64;
      var absDist := if dist > 0 then dist else (-dist) % TWO64;
      var a := (pm.z.pages - absDist) % TWO64;
      var cyclicDist := if absDist < a then absDist else a;
      if cyclicDist > data[0] {
        data[0] := cyclicDist;
        data[1] := preAddr;
        data[2] := curFrameVal;
        data[3] := curPage;
      }
    }

    // The inner loop of the search: is every entry of this table zero?
    method IsAllZero(curFrameVal: nat) returns (empty: bool)
      requires pm.Ready() && pm.ram != [] && curFrameVal < pm.z.frames
      modifies pm
      ensures pm.Ready() && pm.ram == old(pm.ram) && pm.swapFile == old(pm.swapFile)
      ensures empty <==> forall i :: 0 <= i < pm.z.pageSize ==> Entry(pm.ram, curFrameVal, i) == 0
    {
      var i := 0;
      while i < pm.z.pageSize
        invariant 0 <= i <= pm.z.pageSize
        invariant pm.Ready() && pm.ram == old(pm.ram) && pm.swapFile == old(pm.swapFile)
        invariant forall j :: 0 <= j < i ==> Entry(pm.ram, curFrameVal, j) == 0
      {
        var val := ReadEntry(curFrameVal, i);
        if val != 0 {
          return false;
        }
        i := i + 1;
      }
      empty := true;
    }

    // Serves the page fault at curFrame: yields a frame and unhooks whatever occupied it. A page is swapped
    // out only if no frame is free and no table is empty.
    method FetchNewFrame(virtualAddr: nat, curFrame: nat, ghost depth: nat) returns (newFrame: int)
      requires Configured() && pm.Ready() && depth < pm.z.depth
      requires Faulting(pm.z, pm.Snapshot(), Quot(virtualAddr, pm.z.pageSize), depth)
      requires curFrame == Walk(pm.z, pm.ram, depth, Prefix(pm.z, Quot(virtualAddr, pm.z.pageSize), depth))
      modifies pm
      ensures pm.Ready()
      ensures (pm.Snapshot(), newFrame) == Fetch(pm.z, old(pm.Snapshot()), Quot(virtualAddr, pm.z.pageSize), curFrame)
      ensures if MustEvict(pm.z, old(pm.ram), curFrame) then
                exists v: nat :: IsVictim(pm.z, old(pm.ram), Quot(virtualAddr, pm.z.pageSize), v)
                  && pm.swapFile == old(pm.swapFile)[v := FrameAt(old(pm.ram), newFrame)]
              else pm.swapFile == old(pm.swapFile)
    {
      var z := pm.z;
      ghost var m, p := pm.Snapshot(), Quot(virtualAddr, z.pageSize);
      var data := new nat[5](_ => 0);
      var found := new Found();
      assert View(data, found) == START;
      RootIsNode(z, pm.ram);
      TraverseTables(virtualAddr, curFrame, data, found, 0, 0, 0, 0);
      SearchFromRoot(z, m.ram, p, curFrame);
      assert View(data, found) == SearchResult(z, m.ram, p, curFrame);
      ghost var top: nat :| UsesExactly(z, m.ram, top);
      FetchSwaps(z, m, p, depth, top);
      newFrame := found.newFrame;
      if newFrame != 0 {
        EmptyTableAddress(z, m, p, curFrame);
        pm.PMwrite(data[4], 0);
      } else if found.maxFrameIndex + 1 < pm.z.frames {
        newFrame := found.maxFrameIndex + 1;
      } else {
        VictimCanGo(z, m, p, depth, top);
        pm.PMwrite(data[1], 0);
        pm.PMevict(data[2], data[3]);
        newFrame := data[2];
      }
    }

    // The page fault branch of the walk: entry index of table curFrameVal is zero.
    method HandleFault(virtualAddr: nat, depth: nat, curFrameVal: nat, index: nat) returns (nextFrameVal: int)
      requires Configured() && pm.Ready() && depth < pm.z.depth
      requires AtTable(pm.z, pm.Snapshot(), Quot(virtualAddr, pm.z.pageSize), depth, curFrameVal)
      requires index == Slot(pm.z, Prefix(pm.z, Quot(virtualAddr, pm.z.pageSize), depth + 1))
      requires Entry(pm.ram, curFrameVal, index) == 0
      modifies pm
      ensures pm.Ready() && nextFrameVal > 0
      ensures (pm.Snapshot(), nextFrameVal) == Step(pm.z, old(pm.Snapshot()), Quot(virtualAddr, pm.z.pageSize),
              depth, curFrameVal)
    {
      var z := pm.z;
      ghost var m, p := pm.Snapshot(), Quot(virtualAddr, z.pageSize);
      ghost var top: nat :| UsesExactly(z, m.ram, top);
      StepReads(z, m, p, depth, curFrameVal);
      ServeFault(z, m, p, depth, top);
      StepOnFault(z, m, p, depth, curFrameVal);
      nextFrameVal := FetchNewFrame(virtualAddr, curFrameVal, depth);
      ghost var m1 := pm.Snapshot();
      assert CanHang(z, m1, p, depth, nextFrameVal);
      LinkNewFrame(virtualAddr, depth, curFrameVal, index, nextFrameVal);
    }

    // The rest of the page fault branch: link the frame and fill it.
    method LinkNewFrame(virtualAddr: nat, depth: nat, curFrameVal: nat, index: nat, nextFrameVal: nat)
      requires Configured() && pm.Ready() && depth < pm.z.depth
      requires CanHang(pm.z, pm.Snapshot(), Quot(virtualAddr, pm.z.pageSize), depth, nextFrameVal)
      requires curFrameVal == Walk(pm.z, pm.ram, depth, Prefix(pm.z, Quot(virtualAddr, pm.z.pageSize), depth))
      requires index == Slot(pm.z, Prefix(pm.z, Quot(virtualAddr, pm.z.pageSize), depth + 1))
      modifies pm
      ensures pm.Ready()
      ensures pm.Snapshot() == Hung(pm.z, old(pm.Snapshot()), Quot(virtualAddr, pm.z.pageSize), depth, nextFrameVal)
    {
      ghost var p := Quot(virtualAddr, pm.z.pageSize);
      WalkInRange(pm.z, pm.ram, depth, Prefix(pm.z, p, depth));
      UpDown(pm.z, Prefix(pm.z, p, depth + 1));
      WriteEntry(curFrameVal, index, nextFrameVal);
      if depth < pm.z.depth - 1 {
        ClearFrame(nextFrameVal);
      } else {
        SplitAddress(c, virtualAddr);
        pm.PMrestore(nextFrameVal, ShiftRight(virtualAddr, c.offsetWidth));
      }
    }

    // Translates a virtual address to the frame of its page, faulting pages in on the way.
    method GetFrame(virtualAddr: nat) returns (frame: nat)
      requires Valid() && virtualAddr < VirtualSize(pm.z)
      modifies pm
      ensures Valid()
      ensures (pm.Snapshot(), frame) == Translate(pm.z, old(pm.Snapshot()), Quot(virtualAddr, pm.z.pageSize), 0, 0)
    {
      var z := pm.z;
      ghost var p := Quot(virtualAddr, z.pageSize);
      ghost var all := Translate(z, pm.Snapshot(), p, 0, 0);
      AddressInRange(z, virtualAddr);
      PrefixRoot(z, p);
      var curFrameVal := 0;
      var depth := 0;
      while depth < z.depth
        invariant 0 <= depth <= z.depth
        invariant pm.Ready() && AtTable(z, pm.Snapshot(), p, depth, curFrameVal)
        invariant Translate(z, pm.Snapshot(), p, depth, curFrameVal) == all
      {
        StepKeeps(z, pm.Snapshot(), p, depth, curFrameVal);
        FirstStep(z, pm.Snapshot(), p, depth, curFrameVal);
        curFrameVal := NextFrame(virtualAddr, depth, curFrameVal);
        depth := depth + 1;
      }
      frame := curFrameVal;
    }

    // The body of that loop.
    method NextFrame(virtualAddr: nat, depth: nat, curFrameVal: nat) returns (nextFrameVal: nat)
      requires Configured() && pm.Ready() && depth < pm.z.depth
      requires AtTable(pm.z, pm.Snapshot(), Quot(virtualAddr, pm.z.pageSize), depth, curFrameVal)
      modifies pm
      ensures pm.Ready()
      ensures (pm.Snapshot(), nextFrameVal) ==
              Step(pm.z, old(pm.Snapshot()), Quot(virtualAddr, pm.z.pageSize), depth, curFrameVal)
    {
      StepReads(pm.z, pm.Snapshot(), Quot(virtualAddr, pm.z.pageSize), depth, curFrameVal);
      var index := IndexAt(virtualAddr, depth);
      nextFrameVal := ReadEntry(curFrameVal, index);
      if nextFrameVal == 0 {
        nextFrameVal := HandleFault(virtualAddr, depth, curFrameVal, index);
      }
    }

    // The bits of the address that index the table at this depth.
    method IndexAt(virtualAddr: nat, depth: nat) returns (index: nat)
      requires Configured() && depth < pm.z.depth && pm.z.pageSize >= 1
      ensures index == Slot(pm.z, Prefix(pm.z, Quot(virtualAddr, pm.z.pageSize), depth + 1))
    {
      IndexIsSlot(c, virtualAddr, depth);
      var levels := c.TablesDepth() - depth;
      var tablesWidth := c.offsetWidth * levels;
      ShiftIsIndex(c, virtualAddr, levels, tablesWidth);
      index := And(ShiftRight(virtualAddr, tablesWidth), c.OffsetMask());
    }

    // Starts from whatever RAM holds. Called again, it forgets the mapped pages and keeps the swapped ones.
    method VMinitialize()
      requires Configured() && pm.Ready() && SwapIsWhole(pm.z, pm.swapFile)
      modifies pm
      ensures Valid() && pm.swapFile == old(pm.swapFile)
      ensures pm.ram == old(pm.Allocated())[0 := Zeros(pm.z)]
      ensures forall q: nat ::
                Contents(pm.z, pm.Snapshot(), q) == if q in pm.swapFile then Some(pm.swapFile[q]) else None
    {
      ghost var ram := pm.Allocated();
      ClearFrame(0);
      InitialInv(pm.z, ram, pm.swapFile);
      forall q: nat
        ensures Contents(pm.z, pm.Snapshot(), q) == if q in pm.swapFile then Some(pm.swapFile[q]) else None
      {
        OnlyRoot(pm.z, pm.ram, pm.z.depth, q);
      }
    }

    // Return code, and the word read when it is 1.
    method VMread(virtualAddress: nat) returns (code: int, value: Word)
      requires Valid()
      modifies pm
      ensures Valid()
      ensures var (m', r) := Call(pm.z, old(pm.Snapshot()), Read(virtualAddress));
              pm.Snapshot() == m' && r == (if code == 1 then Some(value) else None) && code in {0, 1}
      ensures code == 1 <==> ShiftRight(virtualAddress, c.virtualWidth) == 0
    {
      SizesAreValid(c);
      SizesAreWidths(c, virtualAddress);
      if virtualAddress >= c.VirtualMemorySize() {
        return 0, 0;
      }
      AddressInRange(pm.z, virtualAddress);
      SplitAddress(c, virtualAddress);
      TranslateFromRoot(pm.z, pm.Snapshot(), Quot(virtualAddress, pm.z.pageSize));
      var frame := GetFrame(virtualAddress);
      var offset := And(virtualAddress, c.OffsetMask());
      value := ReadEntry(frame, offset);
      code := 1;
    }

    method VMwrite(virtualAddress: nat, value: Word) returns (code: int)
      requires Valid()
      modifies pm
      ensures Valid()
      ensures var (m', r) := Call(pm.z, old(pm.Snapshot()), Write(virtualAddress, value));
              pm.Snapshot() == m' && r == (if code == 1 then Some(value) else None) && code in {0, 1}
      ensures code == 1 <==> ShiftRight(virtualAddress, c.virtualWidth) == 0
    {
      SizesAreValid(c);
      SizesAreWidths(c, virtualAddress);
      if virtualAddress >= c.VirtualMemorySize() {
        return 0;
      }
      AddressInRange(pm.z, virtualAddress);
      SplitAddress(c, virtualAddress);
      TranslateFromRoot(pm.z, pm.Snapshot(), Quot(virtualAddress, pm.z.pageSize));
      CallKeepsInv(pm.z, pm.Snapshot(), Write(virtualAddress, value));
      var frame := GetFrame(virtualAddress);
      var offset := And(virtualAddress, c.OffsetMask());
      WriteEntry(frame, offset, value);
      code := 1;
    }
  }

  lemma EntryAddressInRange(z: Sizes, ram: Ram, n: Node)
    requires z.Valid() && IsLooseTree(z, ram) && IsNode(z, ram, n) && n.depth > 0
    ensures 0 <= n.addr < Times(z.frames, z.pageSize)
  {
    LiveParent(z, ram, n.depth, n.page);
    WalkInRange(z, ram, n.depth - 1, Up(z, n.page));
    UpDown(z, n.page);
    AddressOfFrame(z, Walk(z, ram, n.depth - 1, Up(z, n.page)), Slot(z, n.page));
  }

  lemma EmptyTableAddress(z: Sizes, m: Memory, p: nat, cur: int)
    requires LooseInv(z, m) && SearchResult(z, m.ram, p, cur).newFrame != 0
    ensures 0 <= SearchResult(z, m.ram, p, cur).emptyAddr < Times(z.frames, z.pageSize)
  {
    var n := EmptyTableFound(z, m.ram, p, cur);
    EntryAddressInRange(z, m.ram, n);
  }

  // The page to evict meets every assertion of PMevict.
  lemma VictimCanGo(z: Sizes, m: Memory, p: nat, depth: nat, top: nat)
    requires Faulting(z, m, p, depth) && UsesExactly(z, m.ram, top)
    requires var r := SearchResult(z, m.ram, p, Walk(z, m.ram, depth, Prefix(z, p, depth)));
             r.newFrame == 0 && r.maxFrame + 1 >= z.frames
    ensures var r := SearchResult(z, m.ram, p, Walk(z, m.ram, depth, Prefix(z, p, depth)));
            && 0 <= r.victimAddr < Times(z.frames, z.pageSize) && 0 <= r.victimFrame < z.frames
            && r.victimPage < z.pages && r.victimPage !in m.swap
  {
    var cur := Walk(z, m.ram, depth, Prefix(z, p, depth));
    CounterIsTop(z, m.ram, p, cur, top);
    VictimExists(z, m, p, depth, top);
    var n := VictimFound(z, m.ram, p, cur);
    EntryAddressInRange(z, m.ram, n);
    WalkInRange(z, m.ram, n.depth, n.page);
  }

  // What that fault makes of the swap.
  lemma FetchSwaps(z: Sizes, m: Memory, p: nat, depth: nat, top: nat)
    requires Faulting(z, m, p, depth) && UsesExactly(z, m.ram, top)
    ensures var cur := Walk(z, m.ram, depth, Prefix(z, p, depth));
            var (m1, g) := Fetch(z, m, p, cur);
            if MustEvict(z, m.ram, cur) then
              exists v: nat :: IsVictim(z, m.ram, p, v) && m1.swap == m.swap[v := FrameAt(m.ram, g)]
            else m1.swap == m.swap
  {
    FullIffTop(z, m.ram, top);
    var d, x := FetchIs(z, m, p, depth, top);
  }

  // ---- shifts and masks ----

  // An address is below a size exactly if no bit is set from the width of that size upwards.
  lemma SizesAreWidths(c: Constants, a: nat)
    ensures a < c.VirtualMemorySize() <==> ShiftRight(a, c.virtualWidth) == 0
    ensures a < c.RamSize() <==> ShiftRight(a, c.physicalWidth) == 0
    ensures a < c.PageSize() <==> ShiftRight(a, c.offsetWidth) == 0
  {
    ShiftRightDivides(a, c.virtualWidth);
    ShiftRightDivides(a, c.physicalWidth);
    ShiftRightDivides(a, c.offsetWidth);
  }

  lemma {:induction false} AncestorIsShift(z: Sizes, w: nat, x: nat, k: nat)
    requires z.pageSize == Pow2(w)
    ensures Ancestor(z, x, k) == Quot(x, Pow2(Times(k, w)))
    decreases k
  {
    if k > 0 {
      AncestorIsShift(z, w, Up(z, x), k - 1);
      ShiftsAdd(x, w, k - 1);
    } else {
      QuotientOf(x, 1, 0);
      TimesIsProduct(x, 1);
    }
  }

  // Shifting by w and then by k * w is shifting by (k + 1) * w.
  lemma ShiftsAdd(x: nat, w: nat, k: nat)
    ensures Quot(Quot(x, Pow2(w)), Pow2(Times(k, w))) == Quot(x, Pow2(Times(k + 1, w)))
  {
    DivideTwice(x, Pow2(w), Pow2(Times(k, w)));
    Pow2Add(Times(k, w), w);
    TimesIsProduct(Pow2(Times(k, w)), Pow2(w));
  }

  // The index that getFrame masks out of the address at `depth` is the entry that leads towards its page.
  lemma IndexIsSlot(c: Constants, virtualAddr: nat, depth: nat)
    requires c.Valid() && depth < c.TablesDepth()
    ensures var z, k := c.TableSizes(), c.TablesDepth() - depth;
            c.Index(virtualAddr, k) == Slot(z, Prefix(z, Quot(virtualAddr, c.PageSize()), depth + 1))
  {
    var z, w, k := c.TableSizes(), c.offsetWidth, c.TablesDepth() - depth;
    AncestorIsShift(z, w, Quot(virtualAddr, z.pageSize), k - 1);
    ShiftsAdd(virtualAddr, w, k - 1);
  }

  // The shift and mask of getFrame cut that index out of the address.
  lemma ShiftIsIndex(c: Constants, virtualAddr: nat, levels: nat, tablesWidth: nat)
    requires tablesWidth == c.offsetWidth * levels
    ensures And(ShiftRight(virtualAddr, tablesWidth), c.OffsetMask()) == c.Index(virtualAddr, levels)
  {
    TimesIsProduct(levels, c.offsetWidth);
    ShiftRightDivides(virtualAddr, tablesWidth);
    AndMaskIsRemainder(ShiftRight(virtualAddr, tablesWidth), c.offsetWidth);
  }

  // virtualAddr >> OFFSET_WIDTH is the page, virtualAddr & OFFSET_MASK the word in it.
  lemma SplitAddress(c: Constants, virtualAddr: nat)
    ensures ShiftRight(virtualAddr, c.offsetWidth) == Quot(virtualAddr, c.PageSize())
    ensures And(virtualAddr, c.OffsetMask()) == Rem(virtualAddr, c.PageSize())
  {
    ShiftRightDivides(virtualAddr, c.offsetWidth);
    AndMaskIsRemainder(virtualAddr, c.offsetWidth);
  }

  // Following the masked indices of an address from frame 0, stopping at a zero entry.
  ghost function Follow(c: Constants, ram: Ram, virtualAddr: nat, depth: nat): int
    requires c.Valid() && depth <= c.TablesDepth()
    decreases depth
  {
    if depth == 0 then 0
    else
      var f := Follow(c, ram, virtualAddr, depth - 1);
      if f < 0 then -1
      else
        var e := Entry(ram, f, c.Index(virtualAddr, c.TablesDepth() - (depth - 1)));
        if e <= 0 then -1 else e
  }

  lemma {:induction false} FollowIsWalk(c: Constants, ram: Ram, virtualAddr: nat, depth: nat)
    requires c.Valid() && depth <= c.TablesDepth() && virtualAddr < c.VirtualMemorySize()
    ensures c.TableSizes().Valid()
    ensures Follow(c, ram, virtualAddr, depth) ==
            Walk(c.TableSizes(), ram, depth, Prefix(c.TableSizes(), Quot(virtualAddr, c.PageSize()), depth))
    decreases depth
  {
    var z := c.TableSizes();
    SizesAreValid(c);
    AddressInRange(z, virtualAddr);
    if depth == 0 {
      PrefixRoot(z, Quot(virtualAddr, z.pageSize));
    } else {
      FollowIsWalk(c, ram, virtualAddr, depth - 1);
      IndexIsSlot(c, virtualAddr, depth - 1);
      PrefixUp(z, Quot(virtualAddr, z.pageSize), depth - 1);
    }
  }

  // Round trip: the page number that the search accumulates for a mapped page is the one whose
  // addresses lead getFrame to that very frame, and no other page leads there.
  lemma PageNumberRoundTrip(c: Constants, ram: Ram, n: Node, virtualAddr: nat)
    requires c.Valid() && IsLooseTree(c.TableSizes(), ram) && PagesInRange(c.TableSizes(), ram)
    requires n in AllNodes(c.TableSizes(), ram) && n.depth == c.TablesDepth()
    requires virtualAddr < c.VirtualMemorySize()
    ensures Follow(c, ram, virtualAddr, c.TablesDepth()) == n.frame <==> Quot(virtualAddr, c.PageSize()) == n.page
  {
    var z := c.TableSizes();
    SizesAreValid(c);
    ListsOnlyNodes(z, ram);
    FollowIsWalk(c, ram, virtualAddr, z.depth);
    assert IsNode(z, ram, n);
    if Follow(c, ram, virtualAddr, z.depth) == n.frame {
      assert Live(z, ram, z.depth, Quot(virtualAddr, z.pageSize));
    }
  }
}
