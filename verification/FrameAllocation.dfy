// What fetchNewFrame returns: an empty table, an unused frame, or the frame of an evicted page.
module FrameAllocation {
  import opened Arithmetic
  import opened MemoryConstants
  import opened PageTree
  import opened TableSearch
  import opened Relinking
  import opened Wrappers

  datatype Memory = Memory(ram: Ram, swap: map<nat, Frame>)

  function Peek(z: Sizes, ram: Ram, addr: nat): Word
    requires z.pageSize >= 1
  {
    Entry(ram, Quot(addr, z.pageSize), Rem(addr, z.pageSize))
  }

  function Poke(z: Sizes, ram: Ram, addr: int, v: Word): Ram
    requires z.pageSize >= 1
  {
    if addr < 0 then ram else SetEntry(ram, Quot(addr, z.pageSize), Rem(addr, z.pageSize), v)
  }

  lemma AtAddress(z: Sizes, ram: Ram, f: nat, i: nat, v: Word)
    requires z.pageSize >= 1 && i < z.pageSize
    ensures Peek(z, ram, Times(f, z.pageSize) + i) == Entry(ram, f, i)
    ensures Poke(z, ram, Times(f, z.pageSize) + i, v) == SetEntry(ram, f, i, v)
  {
    QuotientOf(f, z.pageSize, i);
  }

  // What a reader of page q would find: its frame if it is mapped, else its swap entry, if any.
  ghost function Contents(z: Sizes, m: Memory, q: nat): Option<Frame>
    requires z.pageSize >= 1
  {
    if Live(z, m.ram, z.depth, q) then Some(FrameAt(m.ram, Walk(z, m.ram, z.depth, q)))
    else if q in m.swap then Some(m.swap[q])
    else None
  }

  ghost predicate PagesInRange(z: Sizes, ram: Ram)
    requires z.pageSize >= 1
  {
    forall q: nat :: Live(z, ram, z.depth, q) ==> q < z.pages
  }

  // Swap holds whole pages of the virtual memory, none of which is mapped.
  ghost predicate SwapIsSeparate(z: Sizes, m: Memory)
    requires z.pageSize >= 1
  {
    forall q: nat :: q in m.swap ==> q < z.pages && |m.swap[q]| == z.pageSize && !Live(z, m.ram, z.depth, q)
  }

  ghost predicate LooseInv(z: Sizes, m: Memory) {
    z.Valid() && IsLooseTree(z, m.ram) && PagesInRange(z, m.ram) && SwapIsSeparate(z, m)
  }

  // The invariant between any two steps of a translation.
  ghost predicate Inv(z: Sizes, m: Memory) {
    LooseInv(z, m) && IsTree(z, m.ram)
  }

  ghost function SearchResult(z: Sizes, ram: Ram, p: nat, cur: int): Search {
    VisitAll(z, ram, p, cur, START, AllNodes(z, ram))
  }

  // The memory left by fetchNewFrame for page p with curFrameVal cur, and the frame it yields.
  ghost function Fetch(z: Sizes, m: Memory, p: nat, cur: int): (Memory, int)
    requires z.pageSize >= 1
  {
    var r := SearchResult(z, m.ram, p, cur);
    if r.newFrame != 0 then (m.(ram := Poke(z, m.ram, r.emptyAddr, 0)), r.newFrame)
    else if r.maxFrame + 1 < z.frames then (m, r.maxFrame + 1)
    else
      var ram := Poke(z, m.ram, r.victimAddr, 0);
      (Memory(ram, m.swap[r.victimPage := FrameAt(ram, r.victimFrame)]), r.victimFrame)
  }

  // A page fault at `depth` on the way to page p.
  ghost predicate Faulting(z: Sizes, m: Memory, p: nat, depth: nat) {
    && Inv(z, m) && p < z.pages && depth < z.depth
    && Live(z, m.ram, depth, Prefix(z, p, depth))
    && !Live(z, m.ram, depth + 1, Prefix(z, p, depth + 1))
  }

  // ---- what the search finds ----

  lemma SearchFromRoot(z: Sizes, ram: Ram, p: nat, cur: int)
    requires z.Valid()
    ensures SearchResult(z, ram, p, cur) == VisitAll(z, ram, p, cur, START, Below(z, ram, ROOT, 0))
    ensures AllNodes(z, ram) == [ROOT] + Below(z, ram, ROOT, 0)
  {
    assert AllNodes(z, ram)[1..] == Below(z, ram, ROOT, 0);
  }

  lemma CounterIsTop(z: Sizes, ram: Ram, p: nat, cur: int, top: nat)
    requires z.Valid() && IsLooseTree(z, ram) && UsesExactly(z, ram, top)
    ensures SearchResult(z, ram, p, cur).maxFrame == top
  {
    SearchFromRoot(z, ram, p, cur);
    RootIsNode(z, ram);
    BelowSound(z, ram, ROOT, 0);
    CountsNodes(z, ram, p, cur, START, Below(z, ram, ROOT, 0));
    NodesCountFrames(z, ram, top);
  }

  lemma EmptyTableFound(z: Sizes, ram: Ram, p: nat, cur: int) returns (n: Node)
    requires z.Valid() && IsLooseTree(z, ram)
    ensures var r := SearchResult(z, ram, p, cur);
            if r.newFrame != 0 then
              && IsNode(z, ram, n) && IsEmptyTable(z, ram, cur, n) && r.newFrame == n.frame && r.emptyAddr == n.addr
              && forall m :: IsNode(z, ram, m) && IsEmptyTable(z, ram, cur, m) ==> m == n || Before(z, m, n)
            else
              forall m :: IsNode(z, ram, m) ==> !IsEmptyTable(z, ram, cur, m)
  {
    var l := AllNodes(z, ram);
    var r := SearchResult(z, ram, p, cur);
    ListsOnlyNodes(z, ram);
    FindsLastEmptyTable(z, ram, p, cur, START, l);
    if k :| LastEmptyTable(z, ram, cur, l, k) && r.newFrame == l[k].frame && r.emptyAddr == l[k].addr {
      n := l[k];
      assert IsNode(z, ram, n);
      WalkInRange(z, ram, n.depth, n.page);
      PreorderOrdered(z, ram, ROOT);
      forall m | IsNode(z, ram, m) && IsEmptyTable(z, ram, cur, m)
        ensures m == n || Before(z, m, n)
      {
        ListsEveryNode(z, ram, m.depth, m.page);
        var j :| 0 <= j < |l| && l[j] == m;
      }
    } else {
      n := ROOT;
      forall m | IsNode(z, ram, m)
        ensures !IsEmptyTable(z, ram, cur, m)
      {
        ListsEveryNode(z, ram, m.depth, m.page);
      }
    }
  }

  lemma KeyIsZeroOnlyAtP(z: Sizes, p: nat, q: nat)
    requires z.Valid() && p < z.pages && q < z.pages
    ensures Key(z, p, q) == 0 <==> p == q
    ensures p < q ==> Key(z, p, q) == z.pages + (q - p)
    ensures q < p ==> Key(z, p, q) == if p - q < z.pages - (p - q) then p - q else z.pages - (p - q)
  {
    Mod64(p - q);
    var absDist := (p - q) % TWO64;
    if p == q {
      Mod64(z.pages);
    } else {
      assert absDist == if q < p then p - q else TWO64 - (q - p);
      Mod64(z.pages - absDist);
    }
  }

  lemma Mod64(x: int)
    ensures 0 <= x < TWO64 ==> x % TWO64 == x
    ensures 0 <= x + TWO64 < TWO64 ==> x % TWO64 == x + TWO64
  {
  }

  lemma VictimFound(z: Sizes, ram: Ram, p: nat, cur: int) returns (n: Node)
    requires z.Valid() && IsLooseTree(z, ram) && PagesInRange(z, ram) && p < z.pages
    ensures var r := SearchResult(z, ram, p, cur);
            if r.best > 0 then
              && IsNode(z, ram, n) && n.depth == z.depth && n.page != p
              && r.victimFrame == n.frame && r.victimAddr == n.addr && r.victimPage == n.page
            else
              forall q: nat :: Live(z, ram, z.depth, q) ==> q == p
  {
    var l := AllNodes(z, ram);
    var r := SearchResult(z, ram, p, cur);
    ListsOnlyNodes(z, ram);
    FindsFirstBest(z, ram, p, cur, START, l);
    if k :| FirstBest(z, p, l, k) && r.best == Key(z, p, l[k].page) > 0
            && r.victimAddr == l[k].addr && r.victimFrame == l[k].frame && r.victimPage == l[k].page {
      n := l[k];
      assert IsNode(z, ram, n);
      KeyIsZeroOnlyAtP(z, p, n.page);
    } else {
      n := ROOT;
      forall q: nat | Live(z, ram, z.depth, q)
        ensures q == p
      {
        ListsEveryNode(z, ram, z.depth, q);
        KeyIsZeroOnlyAtP(z, p, q);
      }
    }
  }

  // ---- a victim exists when no table can be reclaimed and no frame is free ----

  ghost predicate OnPath(z: Sizes, p: nat, depth: nat, d: nat, x: nat)
    requires z.pageSize >= 1 && depth <= z.depth
  {
    d <= depth && x == Prefix(z, p, d)
  }

  // Off the path, every table has a child, so a leaf lies below every node.
  lemma {:induction false} LeafBelow(z: Sizes, ram: Ram, p: nat, depth: nat, d: nat, x: nat) returns (q: nat)
    requires z.Valid() && p < z.pages && IsLooseTree(z, ram) && depth < z.depth
    requires Live(z, ram, depth, Prefix(z, p, depth))
    requires forall m :: IsNode(z, ram, m) ==> !IsEmptyTable(z, ram, Walk(z, ram, depth, Prefix(z, p, depth)), m)
    requires Live(z, ram, d, x) && !OnPath(z, p, depth, d, x)
    ensures Live(z, ram, z.depth, q)
    decreases z.depth - d
  {
    if d == z.depth {
      q := x;
    } else {
      PrefixRoot(z, p);
      assert d > 0;
      assert IsNode(z, ram, NodeAt(z, ram, d, x));
      var i: nat :| i < z.pageSize && Entry(ram, Walk(z, ram, d, x), i) != 0;
      LiveChild(z, ram, d, x, i);
      DownUp(z, x, i);
      if d + 1 <= depth {
        PrefixUp(z, p, d);
      }
      q := LeafBelow(z, ram, p, depth, d + 1, Down(z, x, i));
    }
  }

  lemma {:induction false} SomeNumberMissing(s: seq<int>, n: nat) returns (f: nat)
    requires |s| < n
    ensures f < n && f !in s
  {
    if n - 1 in s {
      var k :| 0 <= k < |s| && s[k] == n - 1;
      var r := s[..k] + s[k + 1..];
      f := SomeNumberMissing(r, n - 1);
      assert forall i :: 0 <= i < |s| && i != k ==> s[i] == r[if i < k then i else i - 1];
    } else {
      f := n - 1;
    }
  }

  // With every frame in use, some node is off a path that is shorter than the RAM.
  lemma NodeOffPath(z: Sizes, ram: Ram, p: nat, depth: nat, top: nat) returns (d: nat, x: nat)
    requires z.Valid() && depth < z.depth && UsesExactly(z, ram, top) && top + 1 == z.frames
    ensures Live(z, ram, d, x) && !OnPath(z, p, depth, d, x)
  {
    var path := seq(depth + 1, d requires 0 <= d <= depth => Walk(z, ram, d, Prefix(z, p, d)));
    var f := SomeNumberMissing(path, z.frames);
    assert FrameInUse(z, ram, f);
    d, x :| Live(z, ram, d, x) && Walk(z, ram, d, x) == f;
    forall e: nat | e <= depth
      ensures Walk(z, ram, e, Prefix(z, p, e)) in path
    {
      assert path[e] in path;
    }
  }

  lemma NothingToReclaim(z: Sizes, ram: Ram, p: nat, cur: int)
    requires z.Valid() && IsLooseTree(z, ram) && SearchResult(z, ram, p, cur).newFrame == 0
    ensures forall m :: IsNode(z, ram, m) ==> !IsEmptyTable(z, ram, cur, m)
  {
    var n := EmptyTableFound(z, ram, p, cur);
  }

  lemma RequestedIsDead(z: Sizes, ram: Ram, p: nat, depth: nat)
    requires z.pageSize >= 1 && depth < z.depth && Walk(z, ram, depth + 1, Prefix(z, p, depth + 1)) < 0
    ensures !Live(z, ram, z.depth, p)
  {
    DeadBelow(z, ram, depth + 1, Prefix(z, p, depth + 1), z.depth, p);
  }

  lemma OtherPageMapped(z: Sizes, m: Memory, p: nat, depth: nat, top: nat) returns (q: nat)
    requires Faulting(z, m, p, depth) && UsesExactly(z, m.ram, top) && top + 1 == z.frames
    requires SearchResult(z, m.ram, p, Walk(z, m.ram, depth, Prefix(z, p, depth))).newFrame == 0
    ensures Live(z, m.ram, z.depth, q) && q != p
  {
    NothingToReclaim(z, m.ram, p, Walk(z, m.ram, depth, Prefix(z, p, depth)));
    var d, x := NodeOffPath(z, m.ram, p, depth, top);
    q := LeafBelow(z, m.ram, p, depth, d, x);
    RequestedIsDead(z, m.ram, p, depth);
  }

  lemma VictimExists(z: Sizes, m: Memory, p: nat, depth: nat, top: nat)
    requires Faulting(z, m, p, depth) && UsesExactly(z, m.ram, top) && top + 1 == z.frames
    requires SearchResult(z, m.ram, p, Walk(z, m.ram, depth, Prefix(z, p, depth))).newFrame == 0
    ensures SearchResult(z, m.ram, p, Walk(z, m.ram, depth, Prefix(z, p, depth))).best > 0
  {
    var q := OtherPageMapped(z, m, p, depth, top);
    var v := VictimFound(z, m.ram, p, Walk(z, m.ram, depth, Prefix(z, p, depth)));
  }

  // ---- the three outcomes ----

  // Node (d, x) was taken out of the tree; if it was a page, it now is in swap.
  ghost function TakenOut(z: Sizes, m: Memory, d: nat, x: nat): Memory
    requires z.pageSize >= 1 && d > 0
  {
    Memory(Unlinked(z, m.ram, d, x),
           if d == z.depth then m.swap[x := FrameAt(m.ram, Walk(z, m.ram, d, x))] else m.swap)
  }

  lemma TakeOutAtAddress(z: Sizes, m: Memory, n: Node)
    requires LooseInv(z, m) && IsNode(z, m.ram, n) && n.depth > 0 && Childless(z, m.ram, n.depth, n.page)
    ensures Poke(z, m.ram, n.addr, 0) == Unlinked(z, m.ram, n.depth, n.page)
    ensures FrameAt(Poke(z, m.ram, n.addr, 0), n.frame) == FrameAt(m.ram, n.frame)
  {
    LiveParent(z, m.ram, n.depth, n.page);
    UpDown(z, n.page);
    AtAddress(z, m.ram, Walk(z, m.ram, n.depth - 1, Up(z, n.page)), Slot(z, n.page), 0);
    assert n.depth - 1 != n.depth;
  }

  lemma {:induction false} PathIsLive(z: Sizes, ram: Ram, p: nat, depth: nat, e: nat)
    requires z.pageSize >= 1 && e <= depth <= z.depth && Live(z, ram, depth, Prefix(z, p, depth))
    ensures Live(z, ram, e, Prefix(z, p, e))
    decreases depth
  {
    if e < depth {
      LiveParent(z, ram, depth, Prefix(z, p, depth));
      PrefixUp(z, p, depth - 1);
      PathIsLive(z, ram, p, depth - 1, e);
    }
  }

  // The path that is being walked has children all the way down to the current table.
  lemma ChildlessIsOffPath(z: Sizes, ram: Ram, p: nat, depth: nat, d: nat, x: nat)
    requires z.pageSize >= 1 && depth < z.depth && Live(z, ram, depth, Prefix(z, p, depth))
    requires Live(z, ram, d, x) && Childless(z, ram, d, x) && !(d == depth && x == Prefix(z, p, depth))
    ensures !OnPath(z, p, depth, d, x)
  {
    if OnPath(z, p, depth, d, x) {
      PathIsLive(z, ram, p, depth, d + 1);
      LiveParent(z, ram, d + 1, Prefix(z, p, d + 1));
      PrefixUp(z, p, d);
      UpDown(z, Prefix(z, p, d + 1));
      assert false;
    }
  }

  // Either a frame not yet in use, or the frame of a node (d, x) off the path being walked that is
  // taken out: a table with no entries, or a page other than the requested one.
  lemma FetchOutcome(z: Sizes, m: Memory, p: nat, depth: nat, top: nat) returns (unused: bool, d: nat, x: nat)
    requires Faulting(z, m, p, depth) && UsesExactly(z, m.ram, top)
    ensures var cur := Walk(z, m.ram, depth, Prefix(z, p, depth));
            var (m1, g) := Fetch(z, m, p, cur);
            if unused then m1 == m && g == top + 1 < z.frames
            else
              && Unlinkable(z, m.ram, d, x)
              && m1 == TakenOut(z, m, d, x) && g == Walk(z, m.ram, d, x) && g != cur
              && !OnPath(z, p, depth, d, x) && (d == z.depth ==> x != p)
  {
    var ram := m.ram;
    var cur := Walk(z, ram, depth, Prefix(z, p, depth));
    var r := SearchResult(z, ram, p, cur);
    CounterIsTop(z, ram, p, cur, top);
    var n := EmptyTableFound(z, ram, p, cur);
    unused, d, x := false, n.depth, n.page;
    if r.newFrame != 0 {
      TakeOutAtAddress(z, m, n);
      ChildlessIsOffPath(z, ram, p, depth, d, x);
    } else if r.maxFrame + 1 < z.frames {
      unused := true;
    } else {
      VictimExists(z, m, p, depth, top);
      n := VictimFound(z, ram, p, cur);
      d, x := n.depth, n.page;
      TakeOutAtAddress(z, m, n);
    }
  }
}
