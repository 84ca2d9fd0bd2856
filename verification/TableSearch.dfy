// The depth-first search over the table tree that looks for a frame to reuse: what it lists,
// and what the best page, the empty table and the counter are once the list is exhausted.
module TableSearch {
  import opened Arithmetic
  import opened MemoryConstants
  import opened PageTree

  // A visited node: its name, the frame it occupies and the address of the entry that points to it.
  datatype Node = Node(depth: nat, page: nat, frame: int, addr: int)

  const ROOT := Node(0, 0, 0, 0)

  function ChildNode(z: Sizes, n: Node, i: nat, e: int): Node {
    Node(n.depth + 1, Down(z, n.page, i), e, Times(n.frame, z.pageSize) + i)
  }

  ghost function NodeAt(z: Sizes, ram: Ram, d: nat, x: nat): Node
    requires z.pageSize >= 1
  {
    if d == 0 then Node(0, x, Walk(z, ram, 0, x), 0)
    else Node(d, x, Walk(z, ram, d, x), Times(Walk(z, ram, d - 1, Up(z, x)), z.pageSize) + Slot(z, x))
  }

  // The subtree of n, parents before children and entries in increasing order.
  ghost function Preorder(z: Sizes, ram: Ram, n: Node): seq<Node>
    requires n.depth <= z.depth
    decreases z.depth - n.depth, z.pageSize + 1
  {
    [n] + if n.depth == z.depth then [] else Below(z, ram, n, 0)
  }

  // The subtrees hanging from the entries i, i + 1, ... of table n.
  ghost function Below(z: Sizes, ram: Ram, n: Node, i: nat): seq<Node>
    requires n.depth < z.depth && i <= z.pageSize
    decreases z.depth - n.depth, z.pageSize - i
  {
    if i == z.pageSize then []
    else
      var e := Entry(ram, n.frame, i);
      (if e == 0 then [] else Preorder(z, ram, ChildNode(z, n, i, e))) + Below(z, ram, n, i + 1)
  }

  ghost function AllNodes(z: Sizes, ram: Ram): seq<Node> {
    Preorder(z, ram, ROOT)
  }

  ghost predicate IsNode(z: Sizes, ram: Ram, m: Node)
    requires z.pageSize >= 1
  {
    Live(z, ram, m.depth, m.page) && m == NodeAt(z, ram, m.depth, m.page)
  }

  lemma ChildIsNode(z: Sizes, ram: Ram, n: Node, i: nat)
    requires z.pageSize >= 1 && n.depth < z.depth && i < z.pageSize
    requires EntriesAreFrames(z, ram) && IsNode(z, ram, n)
    requires Entry(ram, n.frame, i) != 0
    ensures IsNode(z, ram, ChildNode(z, n, i, Entry(ram, n.frame, i)))
  {
    DownUp(z, n.page, i);
    assert Entry(ram, Walk(z, ram, n.depth, n.page), i) > 0;
  }

  // m is a node below the entries i, i + 1, ... of table n.
  ghost predicate IsUnder(z: Sizes, ram: Ram, n: Node, i: nat, m: Node)
    requires z.pageSize >= 1
  {
    && IsNode(z, ram, m) && m.depth > n.depth
    && Ancestor(z, m.page, m.depth - n.depth - 1) >= Down(z, n.page, i)
    && Up(z, Ancestor(z, m.page, m.depth - n.depth - 1)) == n.page
  }

  // m is n or a node below it.
  ghost predicate IsWithin(z: Sizes, ram: Ram, n: Node, m: Node)
    requires z.pageSize >= 1
  {
    IsNode(z, ram, m) && m.depth >= n.depth && Ancestor(z, m.page, m.depth - n.depth) == n.page
  }

  lemma WithinChildIsUnder(z: Sizes, ram: Ram, n: Node, i: nat, c: Node, m: Node)
    requires i < z.pageSize && c.depth == n.depth + 1 && c.page == Down(z, n.page, i) && IsWithin(z, ram, c, m)
    ensures IsUnder(z, ram, n, i, m)
  {
    DownUp(z, n.page, i);
  }

  lemma UnderIsWithin(z: Sizes, ram: Ram, n: Node, i: nat, m: Node)
    requires z.pageSize >= 1 && IsUnder(z, ram, n, i, m)
    ensures IsWithin(z, ram, n, m)
  {
    AncestorUp(z, m.page, m.depth - n.depth - 1);
  }

  // Everything listed is a node of the tree, below the node the list starts from.
  lemma {:induction false} PreorderSound(z: Sizes, ram: Ram, n: Node)
    requires z.pageSize >= 1 && n.depth <= z.depth && EntriesAreFrames(z, ram) && IsNode(z, ram, n)
    ensures forall m :: m in Preorder(z, ram, n) ==> IsWithin(z, ram, n, m)
    decreases z.depth - n.depth, z.pageSize + 1
  {
    if n.depth < z.depth {
      BelowSound(z, ram, n, 0);
      forall m | m in Below(z, ram, n, 0)
        ensures IsWithin(z, ram, n, m)
      {
        UnderIsWithin(z, ram, n, 0, m);
      }
    }
  }

  lemma {:induction false} BelowSound(z: Sizes, ram: Ram, n: Node, i: nat)
    requires z.pageSize >= 1 && n.depth < z.depth && i <= z.pageSize
    requires EntriesAreFrames(z, ram) && IsNode(z, ram, n)
    ensures forall m :: m in Below(z, ram, n, i) ==> IsUnder(z, ram, n, i, m)
    decreases z.depth - n.depth, z.pageSize - i
  {
    if i < z.pageSize {
      BelowSound(z, ram, n, i + 1);
      var e := Entry(ram, n.frame, i);
      var c := ChildNode(z, n, i, e);
      if e != 0 {
        ChildIsNode(z, ram, n, i);
        PreorderSound(z, ram, c);
      }
      forall m | m in Below(z, ram, n, i)
        ensures IsUnder(z, ram, n, i, m)
      {
        if m in Below(z, ram, n, i + 1) {
          assert IsUnder(z, ram, n, i + 1, m);
        } else {
          WithinChildIsUnder(z, ram, n, i, c, m);
        }
      }
    }
  }

  lemma HeadOfPreorder(z: Sizes, ram: Ram, n: Node)
    requires n.depth <= z.depth
    ensures n in Preorder(z, ram, n)
  {
    assert n == Preorder(z, ram, n)[0];
  }

  // What a list is made of.
  lemma RestInBelow(z: Sizes, ram: Ram, n: Node, j: nat, c: Node)
    requires n.depth < z.depth && j < z.pageSize && c in Below(z, ram, n, j + 1)
    ensures c in Below(z, ram, n, j)
  {
  }

  lemma SubtreeInBelow(z: Sizes, ram: Ram, n: Node, j: nat, c: Node)
    requires n.depth < z.depth && j < z.pageSize && Entry(ram, n.frame, j) != 0
    requires c in Preorder(z, ram, ChildNode(z, n, j, Entry(ram, n.frame, j)))
    ensures c in Below(z, ram, n, j)
  {
  }

  lemma {:induction false} BelowHasChild(z: Sizes, ram: Ram, n: Node, j: nat, i: nat)
    requires n.depth < z.depth && j <= i < z.pageSize && Entry(ram, n.frame, i) != 0
    ensures ChildNode(z, n, i, Entry(ram, n.frame, i)) in Below(z, ram, n, j)
    decreases i - j
  {
    var c := ChildNode(z, n, i, Entry(ram, n.frame, i));
    if j < i {
      BelowHasChild(z, ram, n, j + 1, i);
      RestInBelow(z, ram, n, j, c);
    } else {
      HeadOfPreorder(z, ram, c);
      SubtreeInBelow(z, ram, n, j, c);
    }
  }

  // Whoever is listed has its children listed too.
  lemma {:induction false} PreorderClosed(z: Sizes, ram: Ram, n: Node, m: Node, i: nat)
    requires n.depth <= z.depth && m in Preorder(z, ram, n) && m.depth < z.depth && i < z.pageSize
    requires Entry(ram, m.frame, i) != 0
    ensures ChildNode(z, m, i, Entry(ram, m.frame, i)) in Preorder(z, ram, n)
    decreases z.depth - n.depth, z.pageSize + 1
  {
    if m == n {
      BelowHasChild(z, ram, n, 0, i);
    } else {
      BelowClosed(z, ram, n, 0, m, i);
    }
  }

  lemma {:induction false} BelowClosed(z: Sizes, ram: Ram, n: Node, j: nat, m: Node, i: nat)
    requires n.depth < z.depth && j <= z.pageSize && m in Below(z, ram, n, j) && m.depth < z.depth && i < z.pageSize
    requires Entry(ram, m.frame, i) != 0
    ensures ChildNode(z, m, i, Entry(ram, m.frame, i)) in Below(z, ram, n, j)
    decreases z.depth - n.depth, z.pageSize - j
  {
    var c := ChildNode(z, m, i, Entry(ram, m.frame, i));
    if m in Below(z, ram, n, j + 1) {
      BelowClosed(z, ram, n, j + 1, m, i);
      RestInBelow(z, ram, n, j, c);
    } else {
      PreorderClosed(z, ram, ChildNode(z, n, j, Entry(ram, n.frame, j)), m, i);
      SubtreeInBelow(z, ram, n, j, c);
    }
  }

  lemma RootIsNode(z: Sizes, ram: Ram)
    requires z.pageSize >= 1
    ensures IsNode(z, ram, ROOT)
  {
  }

  lemma ListsOnlyNodes(z: Sizes, ram: Ram)
    requires z.pageSize >= 1 && EntriesAreFrames(z, ram)
    ensures forall m :: m in AllNodes(z, ram) ==> IsNode(z, ram, m)
  {
    RootIsNode(z, ram);
    PreorderSound(z, ram, ROOT);
    forall m | m in AllNodes(z, ram)
      ensures IsNode(z, ram, m)
    {
      assert IsWithin(z, ram, ROOT, m);
    }
  }

  // The search lists exactly the live nodes.
  lemma {:induction false} ListsEveryNode(z: Sizes, ram: Ram, d: nat, x: nat)
    requires z.pageSize >= 1 && EntriesAreFrames(z, ram)
    requires Live(z, ram, d, x)
    ensures NodeAt(z, ram, d, x) in AllNodes(z, ram)
  {
    if d == 0 {
      HeadOfPreorder(z, ram, ROOT);
    } else {
      ListsEveryNode(z, ram, d - 1, Up(z, x));
      PreorderClosed(z, ram, ROOT, NodeAt(z, ram, d - 1, Up(z, x)), Slot(z, x)) by {
        UpDown(z, x);
      }
      NodeIsChild(z, ram, d, x);
    }
  }

  lemma NodeIsChild(z: Sizes, ram: Ram, d: nat, x: nat)
    requires z.pageSize >= 1 && d > 0 && Live(z, ram, d, x)
    ensures var n := NodeAt(z, ram, d - 1, Up(z, x));
            NodeAt(z, ram, d, x) == ChildNode(z, n, Slot(z, x), Entry(ram, n.frame, Slot(z, x)))
  {
    UpDown(z, x);
  }

  // In the list, a node comes before those below it and those to the right of it.
  ghost predicate Before(z: Sizes, a: Node, b: Node)
    requires z.pageSize >= 1
  {
    IsAbove(z, a.depth, a.page, b.depth, b.page) || IsLeft(z, a.depth, a.page, b.depth, b.page)
  }

  // So no node comes twice and the leaves come in page order.
  lemma BeforeAtDepth(z: Sizes, a: Node, b: Node)
    requires z.pageSize >= 1 && Before(z, a, b) && a.depth == b.depth
    ensures a.page < b.page
  {
  }

  ghost predicate Ordered(z: Sizes, l: seq<Node>)
    requires z.pageSize >= 1
  {
    forall i, j :: 0 <= i < j < |l| ==> Before(z, l[i], l[j])
  }

  lemma OrderedConcat(z: Sizes, l: seq<Node>, r: seq<Node>)
    requires z.pageSize >= 1 && Ordered(z, l) && Ordered(z, r)
    requires forall a, b :: a in l && b in r ==> Before(z, a, b)
    ensures Ordered(z, l + r)
  {
  }

  lemma {:induction false} PreorderOrdered(z: Sizes, ram: Ram, n: Node)
    requires z.pageSize >= 1 && n.depth <= z.depth && EntriesAreFrames(z, ram) && IsNode(z, ram, n)
    ensures Ordered(z, Preorder(z, ram, n))
    decreases z.depth - n.depth, z.pageSize + 1
  {
    if n.depth < z.depth {
      BelowOrdered(z, ram, n, 0);
      BelowSound(z, ram, n, 0);
      forall b | b in Below(z, ram, n, 0)
        ensures Before(z, n, b)
      {
        UnderIsWithin(z, ram, n, 0, b);
      }
      OrderedConcat(z, [n], Below(z, ram, n, 0));
    }
  }

  // A node below entry i of n comes before one below a later entry.
  lemma LeftOf(z: Sizes, ram: Ram, n: Node, i: nat, c: Node, a: Node, b: Node)
    requires z.pageSize >= 1 && c.depth == n.depth + 1 && c.page == Down(z, n.page, i)
    requires IsWithin(z, ram, c, a) && IsUnder(z, ram, n, i + 1, b)
    ensures Before(z, a, b)
  {
    var k, d := if a.depth < b.depth then a.depth else b.depth, n.depth + 1;
    AncestorAdd(z, a.page, a.depth - k, k - d);
    AncestorAdd(z, b.page, b.depth - k, k - d);
    if Ancestor(z, b.page, b.depth - k) <= Ancestor(z, a.page, a.depth - k) {
      AncestorMono(z, Ancestor(z, b.page, b.depth - k), Ancestor(z, a.page, a.depth - k), k - d);
      assert false;
    }
  }

  lemma AllLeftOf(z: Sizes, ram: Ram, n: Node, i: nat, c: Node, l: seq<Node>, r: seq<Node>)
    requires z.pageSize >= 1 && c.depth == n.depth + 1 && c.page == Down(z, n.page, i)
    requires forall a :: a in l ==> IsWithin(z, ram, c, a)
    requires forall b :: b in r ==> IsUnder(z, ram, n, i + 1, b)
    requires Ordered(z, l) && Ordered(z, r)
    ensures Ordered(z, l + r)
  {
    forall a, b | a in l && b in r
      ensures Before(z, a, b)
    {
      LeftOf(z, ram, n, i, c, a, b);
    }
    OrderedConcat(z, l, r);
  }

  lemma {:induction false} BelowOrdered(z: Sizes, ram: Ram, n: Node, i: nat)
    requires z.pageSize >= 1 && n.depth < z.depth && i <= z.pageSize
    requires EntriesAreFrames(z, ram) && IsNode(z, ram, n)
    ensures Ordered(z, Below(z, ram, n, i))
    decreases z.depth - n.depth, z.pageSize - i
  {
    if i < z.pageSize {
      BelowOrdered(z, ram, n, i + 1);
      var e := Entry(ram, n.frame, i);
      if e != 0 {
        var c := ChildNode(z, n, i, e);
        ChildIsNode(z, ram, n, i);
        PreorderOrdered(z, ram, c);
        PreorderSound(z, ram, c);
        BelowSound(z, ram, n, i + 1);
        AllLeftOf(z, ram, n, i, c, Preorder(z, ram, c), Below(z, ram, n, i + 1));
      }
    }
  }

  // A list of distinct numbers that covers exactly 0..m-1 has m of them.
  lemma {:induction false} CountInitialSegment(s: seq<int>, m: nat)
    requires forall i, j :: 0 <= i < j < |s| ==> s[i] != s[j]
    requires forall i :: 0 <= i < |s| ==> 0 <= s[i] < m
    requires forall f: nat :: f < m ==> f in s
    ensures |s| == m
  {
    if s == [] {
      assert m > 0 ==> 0 in s;
    } else {
      assert s[0] < m;
      assert m - 1 in s;
      var k :| 0 <= k < |s| && s[k] == m - 1;
      var r := s[..k] + s[k + 1..];
      assert forall i :: 0 <= i < |r| ==> r[i] == s[if i < k then i else i + 1];
      forall f: nat | f < m - 1
        ensures f in r
      {
        assert f in s;
        var j :| 0 <= j < |s| && s[j] == f;
        assert r[if j < k then j else j - 1] == f;
      }
      CountInitialSegment(r, m - 1);
    }
  }

  // Hence the number of listed nodes below the root is the highest frame in use.
  lemma NodesCountFrames(z: Sizes, ram: Ram, top: nat)
    requires z.pageSize >= 1 && EntriesAreFrames(z, ram) && NoSharing(z, ram) && UsesExactly(z, ram, top)
    ensures |AllNodes(z, ram)| == top + 1
  {
    var l := AllNodes(z, ram);
    ListsOnlyNodes(z, ram);
    PreorderOrdered(z, ram, ROOT);
    var frames := seq(|l|, i requires 0 <= i < |l| => l[i].frame);
    forall i, j | 0 <= i < j < |l|
      ensures frames[i] != frames[j]
    {
      assert IsNode(z, ram, l[i]) && IsNode(z, ram, l[j]);
      if l[i].depth == l[j].depth {
        BeforeAtDepth(z, l[i], l[j]);
      }
    }
    forall i | 0 <= i < |l|
      ensures 0 <= frames[i] <= top
    {
      assert l[i] in l;
    }
    forall f: nat | f <= top
      ensures f in frames
    {
      assert FrameInUse(z, ram, f);
      var d: nat, x: nat :| Live(z, ram, d, x) && Walk(z, ram, d, x) == f;
      ListsEveryNode(z, ram, d, x);
      var i :| 0 <= i < |l| && l[i] == NodeAt(z, ram, d, x);
      assert frames[i] == f;
    }
    CountInitialSegment(frames, top + 1);
  }

  // ---- the search itself ----

  // The locals that the search updates through its pointers.
  datatype Search = Search(best: nat, victimAddr: int, victimFrame: int, victimPage: nat,
                           emptyAddr: int, newFrame: int, maxFrame: int)

  const START := Search(0, 0, 0, 0, 0, 0, 0)

  // Eviction key of page q when page p is wanted, in 64-bit arithmetic.
  function Key(z: Sizes, p: nat, q: nat): nat {
    var dist := (p - q) % TWO64;
    var absDist := if dist > 0 then dist else (-dist) % TWO64;
    var a := (z.pages - absDist) % TWO64;
    if absDist < a then absDist else a
  }

  // A table other than the one being filled, whose entries are all zero.
  predicate IsEmptyTable(z: Sizes, ram: Ram, cur: int, n: Node) {
    n.depth < z.depth && n.frame != cur && n.depth > 0 && forall i :: 0 <= i < z.pageSize ==>
      Entry(ram, n.frame, i) == 0
  }

  function Inspect(z: Sizes, ram: Ram, p: nat, cur: int, s: Search, n: Node): Search {
    if n.depth == z.depth then
      var key := Key(z, p, n.page);
      if key > s.best then
        s.(best := key, victimAddr := n.addr, victimFrame := n.frame, victimPage := n.page)
      else s
    else if IsEmptyTable(z, ram, cur, n) then s.(newFrame := n.frame, emptyAddr := n.addr)
    else s
  }

  function Visit(z: Sizes, ram: Ram, p: nat, cur: int, s: Search, n: Node): Search {
    Inspect(z, ram, p, cur, if n.depth > 0 then s.(maxFrame := s.maxFrame + 1) else s, n)
  }

  function VisitAll(z: Sizes, ram: Ram, p: nat, cur: int, s: Search, l: seq<Node>): Search
    decreases |l|
  {
    if l == [] then s else VisitAll(z, ram, p, cur, Visit(z, ram, p, cur, s, l[0]), l[1..])
  }

  lemma {:induction false} VisitConcat(z: Sizes, ram: Ram, p: nat, cur: int, s: Search, l: seq<Node>, r: seq<Node>)
    ensures VisitAll(z, ram, p, cur, s, l + r) == VisitAll(z, ram, p, cur, VisitAll(z, ram, p, cur, s, l), r)
    decreases |l|
  {
    if l == [] {
      assert l + r == r;
    } else {
      assert (l + r)[1..] == l[1..] + r;
      VisitConcat(z, ram, p, cur, Visit(z, ram, p, cur, s, l[0]), l[1..], r);
    }
  }

  // The search remembers the last empty table of the list, if there is one.
  ghost predicate LastEmptyTable(z: Sizes, ram: Ram, cur: int, l: seq<Node>, k: int) {
    0 <= k < |l| && IsEmptyTable(z, ram, cur, l[k]) && forall j :: k < j < |l| ==> !IsEmptyTable(z, ram, cur, l[j])
  }

  lemma {:induction false} FindsLastEmptyTable(z: Sizes, ram: Ram, p: nat, cur: int, s: Search, l: seq<Node>)
    ensures var r := VisitAll(z, ram, p, cur, s, l);
            || ((forall n :: n in l ==> !IsEmptyTable(z, ram, cur, n))
                && r.newFrame == s.newFrame && r.emptyAddr == s.emptyAddr)
            || exists k :: LastEmptyTable(z, ram, cur, l, k) && r.newFrame == l[k].frame && r.emptyAddr == l[k].addr
    decreases |l|
  {
    if l != [] {
      var s1 := Visit(z, ram, p, cur, s, l[0]);
      FindsLastEmptyTable(z, ram, p, cur, s1, l[1..]);
      var r := VisitAll(z, ram, p, cur, s, l);
      if k :| LastEmptyTable(z, ram, cur, l[1..], k) && r.newFrame == l[1..][k].frame && r.emptyAddr == l[1..][k].addr {
        assert LastEmptyTable(z, ram, cur, l, k + 1);
      } else if IsEmptyTable(z, ram, cur, l[0]) {
        assert forall j :: 0 < j < |l| ==> l[j] in l[1..];
        assert LastEmptyTable(z, ram, cur, l, 0);
      }
    }
  }

  // The first page of the list whose key no other page exceeds.
  ghost predicate FirstBest(z: Sizes, p: nat, l: seq<Node>, k: int) {
    && 0 <= k < |l| && l[k].depth == z.depth
    && (forall j :: 0 <= j < |l| && l[j].depth == z.depth ==> Key(z, p, l[j].page) <= Key(z, p, l[k].page))
    && (forall j :: 0 <= j < k && l[j].depth == z.depth ==> Key(z, p, l[j].page) < Key(z, p, l[k].page))
  }

  lemma {:induction false} FindsFirstBest(z: Sizes, ram: Ram, p: nat, cur: int, s: Search, l: seq<Node>)
    ensures var r := VisitAll(z, ram, p, cur, s, l);
            || ((forall n :: n in l && n.depth == z.depth ==> Key(z, p, n.page) <= s.best)
                && r.best == s.best && r.victimAddr == s.victimAddr && r.victimFrame == s.victimFrame
                   && r.victimPage == s.victimPage)
            || exists k :: FirstBest(z, p, l, k) && r.best == Key(z, p, l[k].page) > s.best
                           && r.victimAddr == l[k].addr && r.victimFrame == l[k].frame && r.victimPage == l[k].page
    decreases |l|
  {
    if l != [] {
      var s1 := Visit(z, ram, p, cur, s, l[0]);
      FindsFirstBest(z, ram, p, cur, s1, l[1..]);
      var r := VisitAll(z, ram, p, cur, s, l);
      assert forall j :: 0 < j < |l| ==> l[j] == l[1..][j - 1];
      if k :| FirstBest(z, p, l[1..], k) && r.best == Key(z, p, l[1..][k].page) > s1.best
              && r.victimAddr == l[1..][k].addr && r.victimFrame == l[1..][k].frame && r.victimPage == l[1..][k].page {
        assert FirstBest(z, p, l, k + 1);
      } else if l[0].depth == z.depth && Key(z, p, l[0].page) > s.best {
        assert forall j :: 0 < j < |l| ==> l[j] in l[1..];
        assert FirstBest(z, p, l, 0);
      }
    }
  }

  lemma {:induction false} CountsNodes(z: Sizes, ram: Ram, p: nat, cur: int, s: Search, l: seq<Node>)
    requires forall n :: n in l ==> n.depth > 0
    ensures VisitAll(z, ram, p, cur, s, l).maxFrame == s.maxFrame + |l|
    decreases |l|
  {
    if l != [] {
      CountsNodes(z, ram, p, cur, Visit(z, ram, p, cur, s, l[0]), l[1..]);
    }
  }
}
