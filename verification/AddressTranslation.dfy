// The walk of getFrame, one level at a time, and what a whole translation does to memory.
module AddressTranslation {
  import opened Arithmetic
  import opened MemoryConstants
  import opened PageTree
  import opened Relinking
  import opened FrameAllocation

  function Zeros(z: Sizes): Frame {
    seq(z.pageSize, _ => 0)
  }

  // What PMrestore puts into the frame: the swapped page, or what happens to be there.
  ghost function Restored(m: Memory, g: int, p: nat): Frame {
    if p in m.swap then m.swap[p] else FrameAt(m.ram, g)
  }

  // One iteration of getFrame's loop for page p: the memory it leaves and the next frame.
  ghost function Step(z: Sizes, m: Memory, p: nat, depth: nat, cur: nat): (Memory, int)
    requires z.pageSize >= 1 && depth < z.depth
  {
    var addr := Times(cur, z.pageSize) + Slot(z, Prefix(z, p, depth + 1));
    var next := Peek(z, m.ram, addr);
    if next != 0 then (m, next)
    else
      var (m1, g) := Fetch(z, m, p, cur);
      var ram := Poke(z, m1.ram, addr, g);
      if !(0 <= g < |ram|) then (m1, g)
      else if depth < z.depth - 1 then (m1.(ram := ram[g := Zeros(z)]), g)
      else (Memory(ram[g := Restored(m1.(ram := ram), g, p)], m1.swap - {p}), g)
  }

  // All iterations from `depth` on.
  ghost function Translate(z: Sizes, m: Memory, p: nat, depth: nat, cur: int): (Memory, int)
    requires z.pageSize >= 1 && depth <= z.depth
    decreases z.depth - depth
  {
    if depth == z.depth || cur < 0 then (m, cur)
    else
      var (m1, next) := Step(z, m, p, depth, cur);
      Translate(z, m1, p, depth + 1, next)
  }

  // The contents of every page other than p are as before; p keeps its contents if it had any.
  ghost predicate KeepsContents(z: Sizes, m: Memory, m': Memory, p: nat)
    requires z.pageSize >= 1
  {
    && (forall q: nat :: q != p ==> Contents(z, m', q) == Contents(z, m, q))
    && (Contents(z, m, p).Some? ==> Contents(z, m', p) == Contents(z, m, p))
  }

  // ---- taking a node out ----

  // A page that stays mapped keeps its frame.
  lemma TakeOutKeepsPages(z: Sizes, m: Memory, d: nat, x: nat, q: nat)
    requires LooseInv(z, m) && Unlinkable(z, m.ram, d, x)
    ensures var ram' := TakenOut(z, m, d, x).ram;
            && (Live(z, ram', z.depth, q) <==> Live(z, m.ram, z.depth, q) && !(d == z.depth && q == x))
            && (Live(z, ram', z.depth, q) ==>
                  FrameAt(ram', Walk(z, ram', z.depth, q)) == FrameAt(m.ram, Walk(z, m.ram, z.depth, q)))
  {
    UnlinkWalks(z, m.ram, d, x);
    LiveParent(z, m.ram, d, x);
    assert z.depth != d - 1;
  }

  lemma TakeOut(z: Sizes, m: Memory, d: nat, x: nat)
    requires LooseInv(z, m) && Unlinkable(z, m.ram, d, x)
    ensures LooseInv(z, TakenOut(z, m, d, x))
    ensures forall q: nat :: Contents(z, TakenOut(z, m, d, x), q) == Contents(z, m, q)
  {
    var m1 := TakenOut(z, m, d, x);
    Unlink(z, m.ram, d, x);
    WalkInRange(z, m.ram, d, x);
    forall q: nat
      ensures Live(z, m1.ram, z.depth, q) ==> q < z.pages
      ensures q in m1.swap ==> q < z.pages && |m1.swap[q]| == z.pageSize && !Live(z, m1.ram, z.depth, q)
      ensures Contents(z, m1, q) == Contents(z, m, q)
    {
      TakeOutKeepsPages(z, m, d, x, q);
    }
  }

  // ---- hanging a frame under the current table ----

  ghost predicate CanHang(z: Sizes, m: Memory, p: nat, depth: nat, g: int) {
    && LooseInv(z, m) && p < z.pages && depth < z.depth
    && Live(z, m.ram, depth, Prefix(z, p, depth))
    && !Live(z, m.ram, depth + 1, Prefix(z, p, depth + 1))
    && 0 < g < z.frames && !FrameInUse(z, m.ram, g)
  }

  ghost function Hung(z: Sizes, m: Memory, p: nat, depth: nat, g: int): Memory
    requires z.pageSize >= 1 && depth < z.depth
  {
    var ram := SetEntry(m.ram, Walk(z, m.ram, depth, Prefix(z, p, depth)), Slot(z, Prefix(z, p, depth + 1)), g);
    if !(0 <= g < |ram|) then m
    else if depth < z.depth - 1 then m.(ram := ram[g := Zeros(z)])
    else Memory(ram[g := Restored(m.(ram := ram), g, p)], m.swap - {p})
  }

  lemma HungIsLinked(z: Sizes, m: Memory, p: nat, depth: nat, g: int) returns (content: Frame)
    requires CanHang(z, m, p, depth, g)
    ensures Linkable(z, m.ram, depth + 1, Prefix(z, p, depth + 1), g, content)
    ensures Hung(z, m, p, depth, g).ram == Linked(z, m.ram, depth + 1, Prefix(z, p, depth + 1), g, content)
    ensures depth + 1 == z.depth && p in m.swap ==> content == m.swap[p]
  {
    PrefixUp(z, p, depth);
    InUse(z, m.ram, depth, Prefix(z, p, depth));
    content := if depth < z.depth - 1 then Zeros(z) else Restored(m, g, p);
    WalkInRange(z, m.ram, depth, Prefix(z, p, depth));
    var f, i := Walk(z, m.ram, depth, Prefix(z, p, depth)), Slot(z, Prefix(z, p, depth + 1));
    assert FrameAt(SetEntry(m.ram, f, i, g), g) == FrameAt(m.ram, g);
    assert |content| == z.pageSize;
  }

  lemma Hang(z: Sizes, m: Memory, p: nat, depth: nat, g: int)
    requires CanHang(z, m, p, depth, g)
    ensures var m' := Hung(z, m, p, depth, g);
            && LooseInv(z, m')
            && Walk(z, m'.ram, depth + 1, Prefix(z, p, depth + 1)) == g
            && (forall f :: FrameInUse(z, m'.ram, f) <==> FrameInUse(z, m.ram, f) || f == g)
            && KeepsContents(z, m, m', p)
  {
    var x := Prefix(z, p, depth + 1);
    var m' := Hung(z, m, p, depth, g);
    var content := HungIsLinked(z, m, p, depth, g);
    Link(z, m.ram, depth + 1, x, g, content);
    LinkWalks(z, m.ram, depth + 1, x, g, content);
    LinkedPages(z, m, p, depth, g, content);
  }

  ghost predicate JustHung(z: Sizes, m: Memory, p: nat, depth: nat, g: int, content: Frame) {
    && CanHang(z, m, p, depth, g)
    && var x, m' := Prefix(z, p, depth + 1), Hung(z, m, p, depth, g);
       && Linkable(z, m.ram, depth + 1, x, g, content)
       && m'.ram == Linked(z, m.ram, depth + 1, x, g, content)
       && SameWalksBut(z, m.ram, m'.ram, depth + 1, x, g)
       && (depth + 1 == z.depth && p in m.swap ==> content == m.swap[p])
  }

  lemma LinkedFrame(z: Sizes, m: Memory, p: nat, depth: nat, g: int, content: Frame, f: int)
    requires JustHung(z, m, p, depth, g, content) && 0 <= f < z.frames
    requires f != Walk(z, m.ram, depth, Prefix(z, p, depth))
    ensures FrameAt(Hung(z, m, p, depth, g).ram, f) == if f == g then content else FrameAt(m.ram, f)
  {
    PrefixUp(z, p, depth);
  }

  lemma LinkedLeaf(z: Sizes, m: Memory, p: nat, depth: nat, g: int, content: Frame, q: nat)
    requires JustHung(z, m, p, depth, g, content)
    ensures var m' := Hung(z, m, p, depth, g);
            && (Live(z, m'.ram, z.depth, q) <==> Live(z, m.ram, z.depth, q) || (q == p && depth + 1 == z.depth))
            && (Live(z, m.ram, z.depth, q) ==>
                  FrameAt(m'.ram, Walk(z, m'.ram, z.depth, q)) == FrameAt(m.ram, Walk(z, m.ram, z.depth, q)))
            && (q == p && depth + 1 == z.depth ==> FrameAt(m'.ram, Walk(z, m'.ram, z.depth, q)) == content)
  {
    assert depth + 1 == z.depth ==> Prefix(z, p, depth + 1) == p;
    InUse(z, m.ram, depth, Prefix(z, p, depth));
    LinkedFrame(z, m, p, depth, g, content, g);
    if Live(z, m.ram, z.depth, q) {
      InUse(z, m.ram, z.depth, q);
      WalkInRange(z, m.ram, z.depth, q);
      LinkedFrame(z, m, p, depth, g, content, Walk(z, m.ram, z.depth, q));
    }
  }

  lemma LinkedPages(z: Sizes, m: Memory, p: nat, depth: nat, g: int, content: Frame)
    requires JustHung(z, m, p, depth, g, content)
    ensures var m' := Hung(z, m, p, depth, g);
            PagesInRange(z, m'.ram) && SwapIsSeparate(z, m') && KeepsContents(z, m, m', p)
  {
    var m' := Hung(z, m, p, depth, g);
    forall q: nat
      ensures Live(z, m'.ram, z.depth, q) ==> q < z.pages
      ensures q in m'.swap ==> q < z.pages && |m'.swap[q]| == z.pageSize && !Live(z, m'.ram, z.depth, q)
      ensures q != p || Contents(z, m, q).Some? ==> Contents(z, m', q) == Contents(z, m, q)
    {
      LinkedLeaf(z, m, p, depth, g, content, q);
    }
  }

  // ---- one step ----

  ghost predicate AtTable(z: Sizes, m: Memory, p: nat, depth: nat, cur: int) {
    && Inv(z, m) && p < z.pages && depth <= z.depth
    && cur >= 0 && Walk(z, m.ram, depth, Prefix(z, p, depth)) == cur
  }

  // The entry that this step reads decides whether the next node is live.
  lemma StepReads(z: Sizes, m: Memory, p: nat, depth: nat, cur: nat)
    requires AtTable(z, m, p, depth, cur) && depth < z.depth
    ensures var x := Prefix(z, p, depth + 1);
            var next := Peek(z, m.ram, Times(cur, z.pageSize) + Slot(z, x));
            && cur < z.frames && Slot(z, x) < z.pageSize
            && 0 <= next < z.frames
            && next == Entry(m.ram, cur, Slot(z, x))
            && Walk(z, m.ram, depth + 1, x) == if next == 0 then -1 else next
  {
    var x := Prefix(z, p, depth + 1);
    PrefixUp(z, p, depth);
    UpDown(z, x);
    AtAddress(z, m.ram, cur, Slot(z, x), 0);
    WalkInRange(z, m.ram, depth, Prefix(z, p, depth));
    LiveChild(z, m.ram, depth, Prefix(z, p, depth), Slot(z, x));
  }

  // Step where the entry read is zero and fetchNewFrame leaves the current table in its place.
  lemma StepOnFault(z: Sizes, m: Memory, p: nat, depth: nat, cur: nat)
    requires z.pageSize >= 1 && depth < z.depth
    requires Peek(z, m.ram, Times(cur, z.pageSize) + Slot(z, Prefix(z, p, depth + 1))) == 0
    requires Walk(z, Fetch(z, m, p, cur).0.ram, depth, Prefix(z, p, depth)) == cur
    ensures var (m1, g) := Fetch(z, m, p, cur);
            Step(z, m, p, depth, cur) == (if 0 <= g < |m1.ram| then Hung(z, m1, p, depth, g) else m1, g)
  {
    var (m1, g) := Fetch(z, m, p, cur);
    UpDown(z, Prefix(z, p, depth + 1));
    AtAddress(z, m1.ram, cur, Slot(z, Prefix(z, p, depth + 1)), g);
    StepIsHung(z, m, p, depth, cur, m1, g);
  }

  lemma StepIsHung(z: Sizes, m: Memory, p: nat, depth: nat, cur: nat, m1: Memory, g: int)
    requires z.pageSize >= 1 && depth < z.depth && (m1, g) == Fetch(z, m, p, cur)
    requires Walk(z, m1.ram, depth, Prefix(z, p, depth)) == cur
    requires var i := Slot(z, Prefix(z, p, depth + 1)); var addr := Times(cur, z.pageSize) + i;
             addr >= 0 && Peek(z, m.ram, addr) == 0 && Poke(z, m1.ram, addr, g) == SetEntry(m1.ram, cur, i, g)
    ensures Step(z, m, p, depth, cur) == (if 0 <= g < |m1.ram| then Hung(z, m1, p, depth, g) else m1, g)
  {
  }

  lemma TopFromFrames(z: Sizes, ram: Ram, top: nat)
    requires z.pageSize >= 1 && top < z.frames
    requires forall f :: FrameInUse(z, ram, f) <==> 0 <= f <= top
    ensures UsesExactly(z, ram, top)
  {
    forall d: nat, x: nat | Live(z, ram, d, x)
      ensures Walk(z, ram, d, x) <= top
    {
      InUse(z, ram, d, x);
    }
  }

  lemma FramesFromTop(z: Sizes, ram: Ram, top: nat)
    requires z.pageSize >= 1 && UsesExactly(z, ram, top)
    ensures forall f :: FrameInUse(z, ram, f) <==> 0 <= f <= top
  {
  }

  // A page fault is served: the requested node now is in the tree, the frames in use still are an
  // initial segment, and no page has lost its contents.
  lemma ServeFault(z: Sizes, m: Memory, p: nat, depth: nat, top: nat)
    requires Faulting(z, m, p, depth) && UsesExactly(z, m.ram, top)
    ensures var cur := Walk(z, m.ram, depth, Prefix(z, p, depth));
            var (m1, g) := Fetch(z, m, p, cur);
            var m' := Hung(z, m1, p, depth, g);
            && CanHang(z, m1, p, depth, g) && Walk(z, m1.ram, depth, Prefix(z, p, depth)) == cur
            && Inv(z, m') && Walk(z, m'.ram, depth + 1, Prefix(z, p, depth + 1)) == g
            && (UsesExactly(z, m'.ram, top) || UsesExactly(z, m'.ram, top + 1))
            && KeepsContents(z, m, m', p)
  {
    var cur := Walk(z, m.ram, depth, Prefix(z, p, depth));
    var (m1, g) := Fetch(z, m, p, cur);
    var unused, d, x := FetchOutcome(z, m, p, depth, top);
    FramesFromTop(z, m.ram, top);
    if !unused {
      TakeOut(z, m, d, x);
      Unlink(z, m.ram, d, x);
      UnlinkWalks(z, m.ram, d, x);
      InUse(z, m.ram, d, x);
      WalkInRange(z, m.ram, d, x);
    }
    Hang(z, m1, p, depth, g);
    TopFromFrames(z, Hung(z, m1, p, depth, g).ram, if unused then top + 1 else top);
  }

  lemma StepKeeps(z: Sizes, m: Memory, p: nat, depth: nat, cur: nat)
    requires AtTable(z, m, p, depth, cur) && depth < z.depth
    ensures var (m', next) := Step(z, m, p, depth, cur);
            AtTable(z, m', p, depth + 1, next) && KeepsContents(z, m, m', p)
  {
    StepReads(z, m, p, depth, cur);
    if Walk(z, m.ram, depth + 1, Prefix(z, p, depth + 1)) < 0 {
      FaultingStep(z, m, p, depth, cur);
    } else {
      PlainStep(z, m, p, depth, cur);
    }
  }

  lemma PlainStep(z: Sizes, m: Memory, p: nat, depth: nat, cur: nat)
    requires AtTable(z, m, p, depth, cur) && depth < z.depth
    requires Walk(z, m.ram, depth + 1, Prefix(z, p, depth + 1)) >= 0
    ensures Step(z, m, p, depth, cur) == (m, Walk(z, m.ram, depth + 1, Prefix(z, p, depth + 1)))
  {
    StepReads(z, m, p, depth, cur);
  }

  lemma FaultingStep(z: Sizes, m: Memory, p: nat, depth: nat, cur: nat)
    requires AtTable(z, m, p, depth, cur) && depth < z.depth
    requires Walk(z, m.ram, depth + 1, Prefix(z, p, depth + 1)) < 0
    ensures var (m1, g) := Fetch(z, m, p, cur);
            && Step(z, m, p, depth, cur) == (Hung(z, m1, p, depth, g), g)
            && AtTable(z, Hung(z, m1, p, depth, g), p, depth + 1, g) && KeepsContents(z, m, Hung(z, m1, p, depth, g), p)
  {
    var top: nat :| UsesExactly(z, m.ram, top);
    StepReads(z, m, p, depth, cur);
    ServeFault(z, m, p, depth, top);
    StepOnFault(z, m, p, depth, cur);
  }

  // ---- the whole translation ----

  // A fault on the last level: the frame that fetchNewFrame yields is linked and becomes the page's.
  lemma LastFault(z: Sizes, m: Memory, p: nat, depth: nat, cur: nat)
    requires Faulting(z, m, p, depth) && depth + 1 == z.depth && cur == Walk(z, m.ram, depth, Prefix(z, p, depth))
    ensures var (m1, g) := Fetch(z, m, p, cur);
            Translate(z, m, p, depth, cur) == (Hung(z, m1, p, depth, g), g)
  {
    FaultingStep(z, m, p, depth, cur);
    LastStep(z, m, p, depth, cur);
  }

  lemma LastStep(z: Sizes, m: Memory, p: nat, depth: nat, cur: nat)
    requires z.pageSize >= 1 && depth + 1 == z.depth
    ensures Translate(z, m, p, depth, cur) == Step(z, m, p, depth, cur)
  {
  }

  lemma FirstStep(z: Sizes, m: Memory, p: nat, depth: nat, cur: nat)
    requires z.pageSize >= 1 && depth < z.depth
    ensures var (m1, next) := Step(z, m, p, depth, cur);
            Translate(z, m, p, depth, cur) == Translate(z, m1, p, depth + 1, next)
  {
  }

  lemma {:induction false} TranslateKeeps(z: Sizes, m: Memory, p: nat, depth: nat, cur: int)
    requires AtTable(z, m, p, depth, cur)
    ensures var (m', f) := Translate(z, m, p, depth, cur);
            && Inv(z, m') && KeepsContents(z, m, m', p)
            && f >= 0 && Walk(z, m'.ram, z.depth, p) == f
    decreases z.depth - depth
  {
    if depth < z.depth {
      StepKeeps(z, m, p, depth, cur);
      var (m1, next) := Step(z, m, p, depth, cur);
      TranslateKeeps(z, m1, p, depth + 1, next);
    }
  }
}
