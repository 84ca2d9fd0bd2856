// Removing a childless node from the table tree and hanging a free frame under a table.
module Relinking {
  import opened MemoryConstants
  import opened PageTree

  // A tree whose used frames need not form an initial segment: what holds in mid-allocation.
  ghost predicate IsLooseTree(z: Sizes, ram: Ram)
    requires z.pageSize >= 1
  {
    WellSized(z, ram) && EntriesAreFrames(z, ram) && NoSharing(z, ram)
  }

  function FrameAt(ram: Ram, f: int): Frame {
    if 0 <= f < |ram| then ram[f] else []
  }

  function SetEntry(ram: Ram, f: int, i: int, v: Word): (r: Ram)
    ensures |r| == |ram| && forall g :: 0 <= g < |ram| ==> |r[g]| == |ram[g]|
    ensures forall g, j :: Entry(r, g, j) ==
              if g == f && j == i && 0 <= f < |ram| && 0 <= i < |ram[f]| then v else Entry(ram, g, j)
    ensures forall g :: g != f ==> FrameAt(r, g) == FrameAt(ram, g)
  {
    if 0 <= f < |ram| && 0 <= i < |ram[f]| then
      var frame: Frame := ram[f][i := v];
      ram[f := frame]
    else ram
  }

  lemma WalkInRange(z: Sizes, ram: Ram, d: nat, x: nat)
    requires z.pageSize >= 1 && z.frames >= 1 && EntriesAreFrames(z, ram) && Live(z, ram, d, x)
    ensures 0 <= Walk(z, ram, d, x) < z.frames
    ensures d > 0 ==> 0 < Walk(z, ram, d, x)
  {
    if d > 0 {
      LiveParent(z, ram, d, x);
      UpDown(z, x);
    }
  }

  lemma InUse(z: Sizes, ram: Ram, d: nat, x: nat)
    requires z.pageSize >= 1 && Live(z, ram, d, x)
    ensures FrameInUse(z, ram, Walk(z, ram, d, x))
  {
  }

  // ram' has the walks of ram, except that (d, x) now leads to f (-1: nowhere).
  ghost predicate SameWalksBut(z: Sizes, ram: Ram, ram': Ram, d: nat, x: nat, f: int)
    requires z.pageSize >= 1
  {
    forall e: nat, y: nat :: e <= z.depth ==>
      Walk(z, ram', e, y) == if e == d && y == x then f else Walk(z, ram, e, y)
  }

  // ---- unlinking ----

  ghost predicate Unlinkable(z: Sizes, ram: Ram, d: nat, x: nat) {
    && z.Valid() && IsLooseTree(z, ram)
    && d > 0 && Live(z, ram, d, x) && Childless(z, ram, d, x)
  }

  ghost function Unlinked(z: Sizes, ram: Ram, d: nat, x: nat): Ram
    requires z.pageSize >= 1 && d > 0
  {
    SetEntry(ram, Walk(z, ram, d - 1, Up(z, x)), Slot(z, x), 0)
  }

  lemma UnlinkWalks(z: Sizes, ram: Ram, d: nat, x: nat)
    requires Unlinkable(z, ram, d, x)
    ensures SameWalksBut(z, ram, Unlinked(z, ram, d, x), d, x, -1)
  {
    var ram' := Unlinked(z, ram, d, x);
    LiveParent(z, ram, d, x);
    WalkInRange(z, ram, d - 1, Up(z, x));
    UpDown(z, x);
    OnlyEntryChanged(z, ram, ram', d, x, 0);
    forall e: nat, y: nat | e <= z.depth
      ensures Walk(z, ram', e, y) == if e == d && y == x then -1 else Walk(z, ram, e, y)
    {
      Repoint(z, ram, ram', d, x, 0, e, y);
    }
  }

  lemma OnlyEntryChanged(z: Sizes, ram: Ram, ram': Ram, d: nat, x: nat, v: Word)
    requires z.Valid() && IsLooseTree(z, ram)
    requires 0 < d <= z.depth && v >= 0 && Live(z, ram, d - 1, Up(z, x))
    requires var f := Walk(z, ram, d - 1, Up(z, x));
             forall g, j :: FrameInUse(z, ram, g) && 0 <= j < z.pageSize ==>
               Entry(ram', g, j) == if g == f && j == Slot(z, x) then v else Entry(ram, g, j)
    ensures Repointed(z, ram, ram', d, x, v)
  {
    var u := Up(z, x);
    forall e: nat, y: nat, i: nat | e < z.depth && Live(z, ram, e, y) && !(e == d && y == x) && i < z.pageSize
      ensures var g := Walk(z, ram, e, y);
              Entry(ram', g, i) == if e + 1 == d && Down(z, y, i) == x then v else Entry(ram, g, i)
    {
      InUse(z, ram, e, y);
      DownUp(z, y, i);
      UpDown(z, x);
      assert Live(z, ram, d - 1, u);
      if Walk(z, ram, e, y) == Walk(z, ram, d - 1, u) {
        assert e == d - 1 && y == u;
      }
    }
  }

  lemma Unlink(z: Sizes, ram: Ram, d: nat, x: nat)
    requires Unlinkable(z, ram, d, x)
    ensures var ram' := Unlinked(z, ram, d, x);
            && IsLooseTree(z, ram')
            && (forall f :: FrameInUse(z, ram', f) <==> FrameInUse(z, ram, f) && f != Walk(z, ram, d, x))
  {
    var ram' := Unlinked(z, ram, d, x);
    UnlinkWalks(z, ram, d, x);
    forall e: nat, y: nat, i: nat | e < z.depth && Live(z, ram', e, y) && i < z.pageSize
      ensures 0 <= Entry(ram', Walk(z, ram', e, y), i) < z.frames
    {
      assert Live(z, ram, e, y);
    }
    forall e: nat, y: nat, e': nat, y': nat | Live(z, ram', e, y) && Live(z, ram', e', y')
      && Walk(z, ram', e, y) == Walk(z, ram', e', y')
      ensures e == e' && y == y'
    {
      assert Live(z, ram, e, y) && Live(z, ram, e', y');
    }
    forall f | FrameInUse(z, ram, f) && f != Walk(z, ram, d, x)
      ensures FrameInUse(z, ram', f)
    {
      var e: nat, y: nat :| Live(z, ram, e, y) && Walk(z, ram, e, y) == f;
      assert Live(z, ram', e, y);
    }
    forall f | FrameInUse(z, ram', f)
      ensures FrameInUse(z, ram, f) && f != Walk(z, ram, d, x)
    {
      var e: nat, y: nat :| Live(z, ram', e, y) && Walk(z, ram', e, y) == f;
      assert Live(z, ram, e, y);
    }
  }

  // ---- linking ----

  ghost predicate Linkable(z: Sizes, ram: Ram, d: nat, x: nat, g: Word, content: Frame) {
    && z.Valid() && IsLooseTree(z, ram)
    && 0 < d <= z.depth && Live(z, ram, d - 1, Up(z, x)) && !Live(z, ram, d, x)
    && 0 < g < z.frames && !FrameInUse(z, ram, g)
    && |content| == z.pageSize && (d == z.depth || AllZero(content))
  }

  ghost function Linked(z: Sizes, ram: Ram, d: nat, x: nat, g: Word, content: Frame): Ram
    requires Linkable(z, ram, d, x, g, content)
  {
    SetEntry(ram, Walk(z, ram, d - 1, Up(z, x)), Slot(z, x), g)[g := content]
  }

  lemma LinkWalks(z: Sizes, ram: Ram, d: nat, x: nat, g: Word, content: Frame)
    requires Linkable(z, ram, d, x, g, content)
    ensures SameWalksBut(z, ram, Linked(z, ram, d, x, g, content), d, x, g)
  {
    var ram' := Linked(z, ram, d, x, g, content);
    WalkInRange(z, ram, d - 1, Up(z, x));
    UpDown(z, x);
    InUse(z, ram, d - 1, Up(z, x));
    OnlyEntryChanged(z, ram, ram', d, x, g);
    assert Childless(z, ram, d, x);
    forall e: nat, y: nat | e <= z.depth
      ensures Walk(z, ram', e, y) == if e == d && y == x then g else Walk(z, ram, e, y)
    {
      Repoint(z, ram, ram', d, x, g, e, y);
    }
  }

  lemma LinkedEntry(z: Sizes, ram: Ram, d: nat, x: nat, g: Word, content: Frame, h: int, i: nat)
    requires Linkable(z, ram, d, x, g, content) && i < z.pageSize
    ensures var ram' := Linked(z, ram, d, x, g, content);
            && WellSized(z, ram')
            && (h == g ==> Entry(ram', h, i) == content[i])
            && (h != g ==> Entry(ram', h, i) == Entry(ram, h, i) || Entry(ram', h, i) == g)
  {
  }

  lemma LinkedEntries(z: Sizes, ram: Ram, d: nat, x: nat, g: Word, content: Frame)
    requires Linkable(z, ram, d, x, g, content)
    ensures var ram' := Linked(z, ram, d, x, g, content); WellSized(z, ram') && EntriesAreFrames(z, ram')
  {
    var ram' := Linked(z, ram, d, x, g, content);
    LinkWalks(z, ram, d, x, g, content);
    LinkedEntry(z, ram, d, x, g, content, 0, 0);
    ZeroOrFrames(z, ram, ram', d, x, g) by {
      forall h: int, i: nat | i < z.pageSize
        ensures h != g ==> Entry(ram', h, i) == Entry(ram, h, i) || Entry(ram', h, i) == g
        ensures d < z.depth ==> Entry(ram', g, i) == 0
      {
        LinkedEntry(z, ram, d, x, g, content, h, i);
        LinkedEntry(z, ram, d, x, g, content, g, i);
      }
    }
  }

  lemma ZeroOrFrames(z: Sizes, ram: Ram, ram': Ram, d: nat, x: nat, g: Word)
    requires z.pageSize >= 1 && EntriesAreFrames(z, ram) && 0 < g < z.frames && !FrameInUse(z, ram, g)
    requires SameWalksBut(z, ram, ram', d, x, g)
    requires forall h: int, i: nat :: i < z.pageSize && h != g ==>
             Entry(ram', h, i) == Entry(ram, h, i) || Entry(ram', h, i) == g
    requires forall i: nat :: i < z.pageSize && d < z.depth ==> Entry(ram', g, i) == 0
    ensures EntriesAreFrames(z, ram')
  {
    forall e: nat, y: nat, i: nat | e < z.depth && Live(z, ram', e, y) && i < z.pageSize
      ensures 0 <= Entry(ram', Walk(z, ram', e, y), i) < z.frames
    {
      if !(e == d && y == x) {
        assert Live(z, ram, e, y);
        InUse(z, ram, e, y);
      }
    }
  }

  lemma LinkedNoSharing(z: Sizes, ram: Ram, ram': Ram, d: nat, x: nat, g: Word)
    requires z.pageSize >= 1 && NoSharing(z, ram) && !FrameInUse(z, ram, g)
    requires SameWalksBut(z, ram, ram', d, x, g)
    ensures NoSharing(z, ram')
  {
    forall e: nat, y: nat, e': nat, y': nat | Live(z, ram', e, y) && Live(z, ram', e', y')
      && Walk(z, ram', e, y) == Walk(z, ram', e', y')
      ensures e == e' && y == y'
    {
      assert Live(z, ram, e, y) || (e == d && y == x);
      assert Live(z, ram, e', y') || (e' == d && y' == x);
    }
  }

  lemma LinkedFrames(z: Sizes, ram: Ram, ram': Ram, d: nat, x: nat, g: Word, f: int)
    requires z.pageSize >= 1 && d <= z.depth && g >= 0 && !Live(z, ram, d, x)
    requires SameWalksBut(z, ram, ram', d, x, g)
    ensures FrameInUse(z, ram', f) <==> FrameInUse(z, ram, f) || f == g
  {
    if FrameInUse(z, ram, f) {
      var e: nat, y: nat :| Live(z, ram, e, y) && Walk(z, ram, e, y) == f;
      InUse(z, ram', e, y);
    }
    if f == g {
      InUse(z, ram', d, x);
    }
    if FrameInUse(z, ram', f) && f != g {
      var e: nat, y: nat :| Live(z, ram', e, y) && Walk(z, ram', e, y) == f;
      InUse(z, ram, e, y);
    }
  }

  lemma Link(z: Sizes, ram: Ram, d: nat, x: nat, g: Word, content: Frame)
    requires Linkable(z, ram, d, x, g, content)
    ensures var ram' := Linked(z, ram, d, x, g, content);
            && IsLooseTree(z, ram')
            && (forall f :: FrameInUse(z, ram', f) <==> FrameInUse(z, ram, f) || f == g)
  {
    var ram' := Linked(z, ram, d, x, g, content);
    LinkWalks(z, ram, d, x, g, content);
    LinkedEntries(z, ram, d, x, g, content);
    LinkedNoSharing(z, ram, ram', d, x, g);
    forall f {
      LinkedFrames(z, ram, ram', d, x, g, f);
    }
  }
}
