// Which of its three outcomes fetchNewFrame has, told from the tree alone, and what that makes of the
// swap over a whole call.
module FetchRule {
  import opened MemoryConstants
  import opened PageTree
  import opened TableSearch
  import opened Relinking
  import opened FrameAllocation
  import opened EvictionRule
  import opened AddressTranslation

  // A table below the root, other than the one being filled, with no entries.
  ghost predicate Reclaimable(z: Sizes, ram: Ram, cur: int, d: nat, x: nat)
    requires z.pageSize >= 1
  {
    0 < d < z.depth && Live(z, ram, d, x) && Childless(z, ram, d, x) && Walk(z, ram, d, x) != cur
  }

  ghost predicate SomeReclaimable(z: Sizes, ram: Ram, cur: int)
    requires z.pageSize >= 1
  {
    exists d: nat, x: nat :: Reclaimable(z, ram, cur, d, x)
  }

  // The one furthest to the right in the tree.
  ghost predicate LastReclaimable(z: Sizes, ram: Ram, cur: int, d: nat, x: nat)
    requires z.pageSize >= 1
  {
    && Reclaimable(z, ram, cur, d, x)
    && forall e: nat, y: nat :: Reclaimable(z, ram, cur, e, y) ==> (e == d && y == x) || IsLeft(z, e, y, d, x)
  }

  ghost predicate RamIsFull(z: Sizes, ram: Ram)
    requires z.pageSize >= 1
  {
    forall f: nat :: f < z.frames ==> FrameInUse(z, ram, f)
  }

  lemma ReclaimableIsEmpty(z: Sizes, ram: Ram, cur: int, d: nat, x: nat)
    requires z.pageSize >= 1 && EntriesAreFrames(z, ram) && Live(z, ram, d, x)
    ensures IsEmptyTable(z, ram, cur, NodeAt(z, ram, d, x)) <==> Reclaimable(z, ram, cur, d, x)
  {
    forall i | 0 <= i < z.pageSize && d < z.depth
      ensures Entry(ram, Walk(z, ram, d, x), i) >= 0
    {
    }
  }

  // The search finds an empty table exactly if there is one, and then the last.
  lemma ReclaimableFound(z: Sizes, ram: Ram, p: nat, cur: int) returns (d: nat, x: nat)
    requires z.Valid() && IsLooseTree(z, ram)
    ensures var r := SearchResult(z, ram, p, cur);
            && (r.newFrame != 0 <==> SomeReclaimable(z, ram, cur))
            && (r.newFrame != 0 ==>
                  && LastReclaimable(z, ram, cur, d, x)
                  && r.newFrame == Walk(z, ram, d, x) && r.emptyAddr == NodeAt(z, ram, d, x).addr)
  {
    var n := EmptyTableFound(z, ram, p, cur);
    d, x := n.depth, n.page;
    if SearchResult(z, ram, p, cur).newFrame != 0 {
      ReclaimableIsEmpty(z, ram, cur, d, x);
      forall e: nat, y: nat | Reclaimable(z, ram, cur, e, y)
        ensures (e == d && y == x) || IsLeft(z, e, y, d, x)
      {
        ReclaimableIsEmpty(z, ram, cur, e, y);
        NothingBelow(z, ram, e, y, d, x);
        assert IsNode(z, ram, NodeAt(z, ram, e, y));
      }
    } else {
      forall e: nat, y: nat | Reclaimable(z, ram, cur, e, y)
        ensures false
      {
        ReclaimableIsEmpty(z, ram, cur, e, y);
        assert IsNode(z, ram, NodeAt(z, ram, e, y));
      }
    }
  }

  lemma FullIffTop(z: Sizes, ram: Ram, top: nat)
    requires z.pageSize >= 1 && UsesExactly(z, ram, top)
    ensures RamIsFull(z, ram) <==> top + 1 == z.frames
  {
    if top + 1 < z.frames {
      assert top + 1 >= 0 && !FrameInUse(z, ram, top + 1);
    }
  }

  // Nothing can be had without taking a page's frame away.
  ghost predicate MustEvict(z: Sizes, ram: Ram, cur: int)
    requires z.pageSize >= 1
  {
    RamIsFull(z, ram) && !SomeReclaimable(z, ram, cur)
  }

  lemma TakesTable(z: Sizes, m: Memory, p: nat, depth: nat) returns (d: nat, x: nat)
    requires Faulting(z, m, p, depth) && SomeReclaimable(z, m.ram, Walk(z, m.ram, depth, Prefix(z, p, depth)))
    ensures var cur := Walk(z, m.ram, depth, Prefix(z, p, depth));
            && LastReclaimable(z, m.ram, cur, d, x)
            && Fetch(z, m, p, cur) == (TakenOut(z, m, d, x), Walk(z, m.ram, d, x))
  {
    d, x := ReclaimableFound(z, m.ram, p, Walk(z, m.ram, depth, Prefix(z, p, depth)));
    TakeOutAtAddress(z, m, NodeAt(z, m.ram, d, x));
  }

  lemma TakesUnused(z: Sizes, m: Memory, p: nat, cur: int, top: nat)
    requires Inv(z, m) && UsesExactly(z, m.ram, top)
    requires !SomeReclaimable(z, m.ram, cur) && top + 1 < z.frames
    ensures Fetch(z, m, p, cur) == (m, top + 1)
  {
    var d, x := ReclaimableFound(z, m.ram, p, cur);
    CounterIsTop(z, m.ram, p, cur, top);
  }

  lemma TakesPage(z: Sizes, m: Memory, p: nat, depth: nat) returns (v: nat)
    requires Faulting(z, m, p, depth) && MustEvict(z, m.ram, Walk(z, m.ram, depth, Prefix(z, p, depth)))
    ensures IsVictim(z, m.ram, p, v)
    ensures Fetch(z, m, p, Walk(z, m.ram, depth, Prefix(z, p, depth)))
            == (TakenOut(z, m, z.depth, v), Walk(z, m.ram, z.depth, v))
  {
    var cur := Walk(z, m.ram, depth, Prefix(z, p, depth));
    var top: nat :| UsesExactly(z, m.ram, top);
    FullIffTop(z, m.ram, top);
    var d, x := ReclaimableFound(z, m.ram, p, cur);
    CounterIsTop(z, m.ram, p, cur, top);
    VictimExists(z, m, p, depth, top);
    VictimRule(z, m.ram, p, cur);
    var n := VictimFound(z, m.ram, p, cur);
    TakeOutAtAddress(z, m, n);
    v := n.page;
  }

  // Main result on fetchNewFrame: as long as some table has no entries, the last such table is taken
  // out of the tree; else as long as a frame is free, the lowest one is used; only else is a page taken
  // out, and only in that case does the swap change, by this page.
  lemma FetchIs(z: Sizes, m: Memory, p: nat, depth: nat, top: nat) returns (d: nat, x: nat)
    requires Faulting(z, m, p, depth) && UsesExactly(z, m.ram, top)
    ensures var cur := Walk(z, m.ram, depth, Prefix(z, p, depth));
            var (m1, g) := Fetch(z, m, p, cur);
            if SomeReclaimable(z, m.ram, cur) then
              && LastReclaimable(z, m.ram, cur, d, x)
              && m1 == m.(ram := Unlinked(z, m.ram, d, x)) && g == Walk(z, m.ram, d, x)
            else if top + 1 < z.frames then m1 == m && g == top + 1
            else
              && d == z.depth && IsVictim(z, m.ram, p, x)
              && m1 == Memory(Unlinked(z, m.ram, d, x), m.swap[x := FrameAt(m.ram, g)]) && g == Walk(z, m.ram, d, x)
  {
    var cur := Walk(z, m.ram, depth, Prefix(z, p, depth));
    d, x := z.depth, 0;
    if SomeReclaimable(z, m.ram, cur) {
      d, x := TakesTable(z, m, p, depth);
    } else if top + 1 < z.frames {
      TakesUnused(z, m, p, cur, top);
    } else {
      FullIffTop(z, m.ram, top);
      x := TakesPage(z, m, p, depth);
    }
  }

  // The word that a fault served with frame g leaves in entry i of frame f, after fetchNewFrame.
  ghost function Filled(z: Sizes, m1: Memory, p: nat, depth: nat, cur: int, g: int, f: int, i: int): int
    requires z.pageSize >= 1 && depth < z.depth
  {
    if f == cur && i == Slot(z, Prefix(z, p, depth + 1)) then g
    else if f != g then Entry(m1.ram, f, i)
    else if depth + 1 < z.depth then 0
    else if p in m1.swap && 0 <= i < |m1.swap[p]| then m1.swap[p][i]
    else Entry(m1.ram, f, i)
  }

  // What a fault writes: the entry that led nowhere, and the frame it now leads to, which becomes an
  // empty table or the page from the swap. A page that was never swapped out gets the frame as it is.
  lemma FaultWrites(z: Sizes, m: Memory, p: nat, depth: nat, cur: nat, f: nat, i: nat)
    requires AtTable(z, m, p, depth, cur) && Faulting(z, m, p, depth) && f < z.frames && i < z.pageSize
    ensures var (m1, g) := Fetch(z, m, p, cur);
            var (m2, next) := Step(z, m, p, depth, cur);
            && next == g && (p in m1.swap <==> p in m.swap)
            && Entry(m2.ram, f, i) == Filled(z, m1, p, depth, cur, g, f, i)
  {
    var top: nat :| UsesExactly(z, m.ram, top);
    var (m1, g) := Fetch(z, m, p, cur);
    ServeFault(z, m, p, depth, top);
    FaultingStep(z, m, p, depth, cur);
    InUse(z, m1.ram, depth, Prefix(z, p, depth));
    HungWrites(z, m1, p, depth, g, f, i);
    var d, x := FetchIs(z, m, p, depth, top);
  }

  lemma HungWrites(z: Sizes, m1: Memory, p: nat, depth: nat, g: int, f: nat, i: nat)
    requires CanHang(z, m1, p, depth, g) && f < z.frames && i < z.pageSize
    requires g != Walk(z, m1.ram, depth, Prefix(z, p, depth))
    ensures Entry(Hung(z, m1, p, depth, g).ram, f, i)
            == Filled(z, m1, p, depth, Walk(z, m1.ram, depth, Prefix(z, p, depth)), g, f, i)
  {
    var cur, slot := Walk(z, m1.ram, depth, Prefix(z, p, depth)), Slot(z, Prefix(z, p, depth + 1));
    UpDown(z, Prefix(z, p, depth + 1));
    WalkInRange(z, m1.ram, depth, Prefix(z, p, depth));
    assert FrameAt(SetEntry(m1.ram, cur, slot, g), g) == FrameAt(m1.ram, g);
  }
}
