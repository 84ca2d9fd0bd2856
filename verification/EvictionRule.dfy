// Which page the search really evicts. The key is meant to be the cyclic distance to the requested
// page, but it is computed on unsigned numbers and is not that distance for pages above it.
module EvictionRule {
  import opened MemoryConstants
  import opened PageTree
  import opened TableSearch
  import opened Relinking
  import opened FrameAllocation

  function CyclicDistance(z: Sizes, p: nat, q: nat): int {
    var d := if p < q then q - p else p - q;
    if d < z.pages - d then d else z.pages - d
  }

  ghost predicate Mapped(z: Sizes, ram: Ram, q: nat)
    requires z.pageSize >= 1
  {
    Live(z, ram, z.depth, q)
  }

  ghost predicate HighestMapped(z: Sizes, ram: Ram, q: nat)
    requires z.pageSize >= 1
  {
    Mapped(z, ram, q) && forall r: nat :: Mapped(z, ram, r) ==> r <= q
  }

  // v is as far from p, cyclically, as any mapped page.
  ghost predicate Farthest(z: Sizes, ram: Ram, p: nat, v: nat)
    requires z.pageSize >= 1
  {
    Mapped(z, ram, v) && forall q: nat :: Mapped(z, ram, q) ==> CyclicDistance(z, p, q) <= CyclicDistance(z, p, v)
  }

  // v is the page that the search picks: the highest mapped page above p if there is one; otherwise the
  // lowest-numbered among the mapped pages farthest from p; never p itself.
  ghost predicate IsVictim(z: Sizes, ram: Ram, p: nat, v: nat)
    requires z.pageSize >= 1
  {
    && Mapped(z, ram, v) && v != p
    && ((exists q: nat :: q > p && Mapped(z, ram, q)) ==> HighestMapped(z, ram, v))
    && ((forall q: nat :: Mapped(z, ram, q) ==> q <= p) ==>
          && Farthest(z, ram, p, v)
          && forall q: nat :: q < v && Mapped(z, ram, q) ==> CyclicDistance(z, p, q) < CyclicDistance(z, p, v))
  }

  // The computed key is the cyclic distance exactly for the pages up to the requested one.
  lemma KeyIsDistanceIff(z: Sizes, p: nat, q: nat)
    requires z.Valid() && p < z.pages && q < z.pages
    ensures Key(z, p, q) == CyclicDistance(z, p, q) <==> q <= p
  {
    KeyIsZeroOnlyAtP(z, p, q);
  }

  lemma VictimIsFirstBest(z: Sizes, ram: Ram, p: nat, cur: int, q: nat)
    requires z.Valid() && IsLooseTree(z, ram) && PagesInRange(z, ram) && p < z.pages
    requires SearchResult(z, ram, p, cur).best > 0 && Mapped(z, ram, q)
    ensures var v := SearchResult(z, ram, p, cur).victimPage;
            && Mapped(z, ram, v) && v != p
            && Key(z, p, q) <= Key(z, p, v)
            && (q < v ==> Key(z, p, q) < Key(z, p, v))
  {
    var l := AllNodes(z, ram);
    var r := SearchResult(z, ram, p, cur);
    ListsOnlyNodes(z, ram);
    PreorderOrdered(z, ram, ROOT);
    FindsFirstBest(z, ram, p, cur, START, l);
    var k :| FirstBest(z, p, l, k) && r.victimPage == l[k].page;
    assert IsNode(z, ram, l[k]);
    KeyIsZeroOnlyAtP(z, p, l[k].page);
    ListsEveryNode(z, ram, z.depth, q);
    FirstBestBeats(z, p, l, k, NodeAt(z, ram, z.depth, q));
  }

  lemma FirstBestBeats(z: Sizes, p: nat, l: seq<Node>, k: nat, n: Node)
    requires z.pageSize >= 1 && Ordered(z, l) && FirstBest(z, p, l, k) && n in l && n.depth == z.depth
    ensures Key(z, p, n.page) <= Key(z, p, l[k].page)
    ensures n.page < l[k].page ==> Key(z, p, n.page) < Key(z, p, l[k].page)
  {
    var j :| 0 <= j < |l| && l[j] == n;
    if k < j {
      BeforeAtDepth(z, l[k], l[j]);
    }
  }

  // The rule that the search follows.
  lemma VictimRule(z: Sizes, ram: Ram, p: nat, cur: int)
    requires z.Valid() && IsLooseTree(z, ram) && PagesInRange(z, ram) && p < z.pages
    requires SearchResult(z, ram, p, cur).best > 0
    ensures IsVictim(z, ram, p, SearchResult(z, ram, p, cur).victimPage)
  {
    var v := SearchResult(z, ram, p, cur).victimPage;
    forall q: nat | Mapped(z, ram, q)
      ensures Mapped(z, ram, v) && v != p && v < z.pages && q < z.pages
      ensures Key(z, p, q) <= Key(z, p, v) && (q < v ==> Key(z, p, q) < Key(z, p, v))
    {
      VictimIsFirstBest(z, ram, p, cur, q);
    }
    var n := VictimFound(z, ram, p, cur);
    forall q: nat | Mapped(z, ram, q)
      ensures q > p ==> q <= v
      ensures q <= p && v <= p ==> CyclicDistance(z, p, q) <= CyclicDistance(z, p, v)
      ensures q <= p && v <= p && q < v ==> CyclicDistance(z, p, q) < CyclicDistance(z, p, v)
    {
      KeyIsZeroOnlyAtP(z, p, q);
      KeyIsZeroOnlyAtP(z, p, v);
      KeyIsDistanceIff(z, p, q);
      KeyIsDistanceIff(z, p, v);
    }
  }

  // So the evicted page is a farthest one exactly when no page above p is mapped or the highest
  // mapped page happens to be a farthest one.
  lemma VictimIsFarthestIff(z: Sizes, ram: Ram, p: nat, cur: int)
    requires z.Valid() && IsLooseTree(z, ram) && PagesInRange(z, ram) && p < z.pages
    requires SearchResult(z, ram, p, cur).best > 0
    ensures Farthest(z, ram, p, SearchResult(z, ram, p, cur).victimPage) <==>
            || (forall q: nat :: Mapped(z, ram, q) ==> q <= p)
            || (exists q: nat :: HighestMapped(z, ram, q) && Farthest(z, ram, p, q))
  {
    VictimRule(z, ram, p, cur);
    if q: nat :| HighestMapped(z, ram, q) && Farthest(z, ram, p, q) {
      if q > p {
        assert HighestMapped(z, ram, SearchResult(z, ram, p, cur).victimPage);
      }
    }
  }

  // What fetchNewFrame does when every frame is in use, no table can be reclaimed and some page above
  // the requested one is mapped: it unlinks the highest mapped page and swaps out just that one.
  lemma FaultEvictsHighest(z: Sizes, m: Memory, p: nat, depth: nat, q: nat)
    requires Faulting(z, m, p, depth) && UsesExactly(z, m.ram, z.frames - 1)
    requires SearchResult(z, m.ram, p, Walk(z, m.ram, depth, Prefix(z, p, depth))).newFrame == 0
    requires HighestMapped(z, m.ram, q) && q > p
    ensures Fetch(z, m, p, Walk(z, m.ram, depth, Prefix(z, p, depth))) ==
            (TakenOut(z, m, z.depth, q), Walk(z, m.ram, z.depth, q))
  {
    var cur := Walk(z, m.ram, depth, Prefix(z, p, depth));
    CounterIsTop(z, m.ram, p, cur, z.frames - 1);
    VictimExists(z, m, p, depth, z.frames - 1);
    VictimRule(z, m.ram, p, cur);
    assert SearchResult(z, m.ram, p, cur).victimPage == q;
    var n := VictimFound(z, m.ram, p, cur);
    TakeOutAtAddress(z, m, n);
  }
}
