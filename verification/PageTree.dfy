// The tree of page tables that lives inside RAM, and what rewriting one entry does to it.
//
// A node is named by its depth and by the page-number prefix that leads to it: the child of
// (d, x) through entry i is (d + 1, x * pageSize + i). The leaves, at z.depth, are the mapped pages.
module PageTree {
  import opened Arithmetic
  import opened MemoryConstants

  type Word = int
  type Frame = seq<Word>
  type Ram = seq<Frame>

  ghost predicate WellSized(z: Sizes, ram: Ram) {
    && |ram| == z.frames
    && forall f :: 0 <= f < |ram| ==> |ram[f]| == z.pageSize
  }

  function Entry(ram: Ram, f: int, i: int): int {
    if 0 <= f < |ram| && 0 <= i < |ram[f]| then ram[f][i] else 0
  }

  ghost predicate AllZero(frame: Frame) {
    forall i :: 0 <= i < |frame| ==> frame[i] == 0
  }

  function Up(z: Sizes, x: nat): nat
    requires z.pageSize >= 1
  {
    Quot(x, z.pageSize)
  }

  function Slot(z: Sizes, x: nat): nat
    requires z.pageSize >= 1
  {
    Rem(x, z.pageSize)
  }

  function Down(z: Sizes, x: nat, i: nat): nat {
    Times(x, z.pageSize) + i
  }

  lemma DownUp(z: Sizes, x: nat, i: nat)
    requires i < z.pageSize
    ensures Up(z, Down(z, x, i)) == x && Slot(z, Down(z, x, i)) == i
  {
    QuotientOf(x, z.pageSize, i);
  }

  lemma UpDown(z: Sizes, x: nat)
    requires z.pageSize >= 1
    ensures Down(z, Up(z, x), Slot(z, x)) == x && Slot(z, x) < z.pageSize
  {
    SplitAt(x, z.pageSize);
  }

  // The frame that node (d, x) occupies, or -1 when the walk from frame 0 meets no positive entry.
  function Walk(z: Sizes, ram: Ram, d: nat, x: nat): (f: int)
    requires z.pageSize >= 1
    ensures f == -1 || f >= 0
    ensures d > 0 ==> f != 0
  {
    if d == 0 then
      if x == 0 then 0 else -1
    else
      var parent := Walk(z, ram, d - 1, Up(z, x));
      if parent < 0 then -1
      else
        var e := Entry(ram, parent, Slot(z, x));
        if e <= 0 then -1 else e
  }

  ghost predicate Live(z: Sizes, ram: Ram, d: nat, x: nat)
    requires z.pageSize >= 1
  {
    d <= z.depth && Walk(z, ram, d, x) >= 0
  }

  // Every entry of a live table is 0 or the number of a frame.
  ghost predicate EntriesAreFrames(z: Sizes, ram: Ram)
    requires z.pageSize >= 1
  {
    forall d: nat, x: nat, i: nat :: d < z.depth && Live(z, ram, d, x) && i < z.pageSize ==>
      0 <= Entry(ram, Walk(z, ram, d, x), i) < z.frames
  }

  // No frame is reached twice; in particular none but the root is frame 0.
  ghost predicate NoSharing(z: Sizes, ram: Ram)
    requires z.pageSize >= 1
  {
    forall d: nat, x: nat, e: nat, y: nat ::
      Live(z, ram, d, x) && Live(z, ram, e, y) && Walk(z, ram, d, x) == Walk(z, ram, e, y) ==> d == e && x == y
  }

  // The frames in use are exactly 0..top.
  ghost predicate UsesExactly(z: Sizes, ram: Ram, top: nat)
    requires z.pageSize >= 1
  {
    && top < z.frames
    && (forall d: nat, x: nat :: Live(z, ram, d, x) ==> Walk(z, ram, d, x) <= top)
    && forall f: nat :: f <= top ==> FrameInUse(z, ram, f)
  }

  ghost predicate FrameInUse(z: Sizes, ram: Ram, f: int)
    requires z.pageSize >= 1
  {
    exists d: nat, x: nat :: Live(z, ram, d, x) && Walk(z, ram, d, x) == f
  }

  ghost predicate IsTree(z: Sizes, ram: Ram)
    requires z.pageSize >= 1
  {
    && WellSized(z, ram)
    && EntriesAreFrames(z, ram)
    && NoSharing(z, ram)
    && exists top: nat :: UsesExactly(z, ram, top)
  }

  lemma LiveParent(z: Sizes, ram: Ram, d: nat, x: nat)
    requires z.pageSize >= 1 && d > 0 && Live(z, ram, d, x)
    ensures Live(z, ram, d - 1, Up(z, x))
    ensures Walk(z, ram, d, x) == Entry(ram, Walk(z, ram, d - 1, Up(z, x)), Slot(z, x))
  {
  }

  lemma LiveChild(z: Sizes, ram: Ram, d: nat, x: nat, i: nat)
    requires z.pageSize >= 1 && d < z.depth && Live(z, ram, d, x) && i < z.pageSize
    ensures var e := Entry(ram, Walk(z, ram, d, x), i);
            Walk(z, ram, d + 1, Down(z, x, i)) == if e <= 0 then -1 else e
  {
    DownUp(z, x, i);
  }

  // Node (d, x) with no live child.
  ghost predicate Childless(z: Sizes, ram: Ram, d: nat, x: nat)
    requires z.pageSize >= 1
  {
    var f := Walk(z, ram, d, x);
    f < 0 || d == z.depth || forall i :: 0 <= i < z.pageSize ==> Entry(ram, f, i) <= 0
  }

  // The entries of every live table but (d, x) itself are as before, except that the entry
  // leading to (d, x) now holds v.
  ghost predicate Repointed(z: Sizes, ram: Ram, ram': Ram, d: nat, x: nat, v: nat)
    requires z.pageSize >= 1
  {
    forall e: nat, y: nat, i: nat :: e < z.depth && Live(z, ram, e, y) && !(e == d && y == x) && i < z.pageSize ==>
      var f := Walk(z, ram, e, y);
      Entry(ram', f, i) == if e + 1 == d && Down(z, y, i) == x then v else Entry(ram, f, i)
  }

  // Pointing the entry of a childless node at 0, or at a frame that brings no child, changes the
  // walk to that node and to no other.
  lemma {:induction false} Repoint(z: Sizes, ram: Ram, ram': Ram, d: nat, x: nat, v: nat, e: nat, y: nat)
    requires z.pageSize >= 1 && 0 < d <= z.depth && e <= z.depth
    requires Live(z, ram, d - 1, Up(z, x))
    requires Childless(z, ram, d, x)
    requires v == 0 || d == z.depth || forall i :: 0 <= i < z.pageSize ==> Entry(ram', v, i) == 0
    requires Repointed(z, ram, ram', d, x, v)
    ensures Walk(z, ram', e, y) ==
            if e == d && y == x then (if v == 0 then -1 else v) else Walk(z, ram, e, y)
  {
    if e > 0 {
      var u, i := Up(z, y), Slot(z, y);
      UpDown(z, y);
      UpDown(z, x);
      Repoint(z, ram, ram', d, x, v, e - 1, u);
      if e - 1 == d && u == x {
        assert e != d;
      } else if Live(z, ram, e - 1, u) {
        assert Down(z, u, i) == y;
      }
    }
  }

  lemma {:induction false} DeadBelow(z: Sizes, ram: Ram, d: nat, x: nat, e: nat, y: nat)
    requires z.pageSize >= 1 && d <= e
    requires Walk(z, ram, d, x) < 0
    requires Ancestor(z, y, e - d) == x
    ensures Walk(z, ram, e, y) < 0
    decreases e
  {
    if d < e {
      DeadBelow(z, ram, d, x, e - 1, Up(z, y));
    }
  }

  // Node (d, x) is above node (e, y): it is on the way to it.
  predicate IsAbove(z: Sizes, d: nat, x: nat, e: nat, y: nat)
    requires z.pageSize >= 1
  {
    d < e && Ancestor(z, y, e - d) == x
  }

  // Node (d, x) is to the left of node (e, y): where the ways to them part, its way takes the earlier
  // entry.
  predicate IsLeft(z: Sizes, d: nat, x: nat, e: nat, y: nat)
    requires z.pageSize >= 1
  {
    var k := if d < e then d else e;
    Ancestor(z, x, d - k) < Ancestor(z, y, e - k)
  }

  // No live node is below a childless one.
  lemma NothingBelow(z: Sizes, ram: Ram, d: nat, x: nat, e: nat, y: nat)
    requires z.pageSize >= 1 && d < z.depth && Live(z, ram, d, x) && Childless(z, ram, d, x) && Live(z, ram, e, y)
    ensures !IsAbove(z, d, x, e, y)
  {
    if IsAbove(z, d, x, e, y) {
      var c := Ancestor(z, y, e - d - 1);
      AncestorUp(z, y, e - d - 1);
      UpDown(z, c);
      LiveChild(z, ram, d, x, Slot(z, c));
      DeadBelow(z, ram, d + 1, c, e, y);
      assert false;
    }
  }

  // The prefix n levels above x.
  function Ancestor(z: Sizes, x: nat, n: nat): nat
    requires z.pageSize >= 1
    decreases n
  {
    if n == 0 then x else Ancestor(z, Up(z, x), n - 1)
  }

  lemma {:induction false} AncestorUp(z: Sizes, x: nat, n: nat)
    requires z.pageSize >= 1
    ensures Ancestor(z, x, n + 1) == Up(z, Ancestor(z, x, n))
    decreases n
  {
    if n > 0 {
      AncestorUp(z, Up(z, x), n - 1);
    }
  }

  lemma {:induction false} AncestorAdd(z: Sizes, x: nat, m: nat, n: nat)
    requires z.pageSize >= 1
    ensures Ancestor(z, x, m + n) == Ancestor(z, Ancestor(z, x, m), n)
    decreases m
  {
    if m > 0 {
      AncestorAdd(z, Up(z, x), m - 1, n);
    }
  }

  // Larger nodes have larger ancestors, so the tree lists its leaves in page order.
  lemma {:induction false} AncestorMono(z: Sizes, x: nat, y: nat, n: nat)
    requires z.pageSize >= 1 && x <= y
    ensures Ancestor(z, x, n) <= Ancestor(z, y, n)
    decreases n
  {
    if n > 0 {
      UpMono(z, x, y);
      AncestorMono(z, Up(z, x), Up(z, y), n - 1);
    }
  }

  lemma UpMono(z: Sizes, x: nat, y: nat)
    requires z.pageSize >= 1 && x <= y
    ensures Up(z, x) <= Up(z, y)
  {
    SplitAt(x, z.pageSize);
    SplitAt(y, z.pageSize);
    if Up(z, y) < Up(z, x) {
      TimesMono(Up(z, y) + 1, Up(z, x), z.pageSize);
    }
  }

  lemma SmallQuotient(x: nat, n: nat, m: nat)
    requires n >= 1 && x < Times(m, n)
    ensures Quot(x, n) < m
  {
    SplitAt(x, n);
    if m <= Quot(x, n) {
      TimesMono(m, Quot(x, n), n);
    }
  }

  // The node at depth d on the way to page p.
  function Prefix(z: Sizes, p: nat, d: nat): nat
    requires z.pageSize >= 1 && d <= z.depth
  {
    Ancestor(z, p, z.depth - d)
  }

  lemma PrefixUp(z: Sizes, p: nat, d: nat)
    requires z.pageSize >= 1 && d < z.depth
    ensures Up(z, Prefix(z, p, d + 1)) == Prefix(z, p, d)
  {
    AncestorUp(z, p, z.depth - d - 1);
  }

  lemma {:induction false} AncestorOfSmall(z: Sizes, x: nat, n: nat)
    requires z.pageSize >= 1 && x < Power(z.pageSize, n)
    ensures Ancestor(z, x, n) == 0
    decreases n
  {
    if n > 0 {
      SmallQuotient(x, z.pageSize, Power(z.pageSize, n - 1));
      AncestorOfSmall(z, Up(z, x), n - 1);
    }
  }

  // Every walk for a page of the virtual memory starts at the root.
  lemma PrefixRoot(z: Sizes, p: nat)
    requires z.Valid() && p < z.pages
    ensures Prefix(z, p, 0) == 0
  {
    AncestorOfSmall(z, p, z.depth);
  }
}
