// RAM and swap. The preconditions are the assertions of the source, so a verified caller never
// trips one.
module PhysicalMemory {
  import opened Arithmetic
  import opened MemoryConstants
  import opened PageTree
  import opened Relinking
  import opened FrameAllocation
  import opened AddressTranslation

  class PhysicalMemory {
    const z: Sizes
    var ram: Ram // empty until first used
    var swapFile: map<nat, Frame>

    constructor (z: Sizes)
      ensures this.z == z && ram == [] && swapFile == map[]
    {
      this.z := z;
      ram := [];
      swapFile := map[];
    }

    ghost predicate Ready()
      reads this
    {
      z.Valid() && (ram == [] || WellSized(z, ram))
    }

    ghost function Snapshot(): Memory
      reads this
    {
      Memory(ram, swapFile)
    }

    // RAM as the next access finds it.
    ghost function Allocated(): Ram
      reads this
    {
      if ram == [] then seq(z.frames, _ => Zeros(z)) else ram
    }

    method Initialize()
      requires Ready() && ram == []
      modifies this
      ensures Ready() && ram == old(Allocated()) && swapFile == old(swapFile)
      ensures |ram| == z.frames && forall f, i :: 0 <= f < z.frames && 0 <= i < z.pageSize ==> Entry(ram, f, i) == 0
    {
      ram := seq(z.frames, _ => Zeros(z));
    }

    method PMread(physicalAddress: nat) returns (value: Word)
      requires Ready()
      requires physicalAddress < Times(z.frames, z.pageSize)
      modifies this
      ensures Ready() && ram == old(Allocated()) && swapFile == old(swapFile)
      ensures value == Peek(z, ram, physicalAddress) && (old(ram) == [] ==> value == 0)
    {
      if |ram| == 0 {
        Initialize();
      }
      FrameOfAddress(z, physicalAddress);
      var frameIndex := physicalAddress / z.pageSize;
      var frameOffset := physicalAddress % z.pageSize;
      value := ram[frameIndex][frameOffset];
    }

    method PMwrite(physicalAddress: nat, value: Word)
      requires Ready()
      requires physicalAddress < Times(z.frames, z.pageSize)
      modifies this
      ensures Ready() && ram == Poke(z, old(Allocated()), physicalAddress, value) && swapFile == old(swapFile)
    {
      if |ram| == 0 {
        Initialize();
      }
      FrameOfAddress(z, physicalAddress);
      var frameIndex := physicalAddress / z.pageSize;
      var frameOffset := physicalAddress % z.pageSize;
      var frame: Frame := ram[frameIndex][frameOffset := value];
      ram := ram[frameIndex := frame];
    }

    method PMevict(frameIndex: nat, evictedPageIndex: nat)
      requires Ready()
      requires frameIndex < z.frames && evictedPageIndex < z.pages && evictedPageIndex !in swapFile
      modifies this
      ensures Ready() && ram == old(Allocated())
      ensures swapFile == old(swapFile)[evictedPageIndex := FrameAt(ram, frameIndex)]
    {
      if |ram| == 0 {
        Initialize();
      }
      swapFile := swapFile[evictedPageIndex := ram[frameIndex]];
    }

    method PMrestore(frameIndex: nat, restoredPageIndex: nat)
      requires Ready()
      requires frameIndex < z.frames
      requires restoredPageIndex in swapFile ==> |swapFile[restoredPageIndex]| == z.pageSize
      modifies this
      ensures Ready()
      ensures var m := Memory(old(Allocated()), old(swapFile));
              ram == m.ram[frameIndex := Restored(m, frameIndex, restoredPageIndex)]
      ensures if restoredPageIndex in old(swapFile) then
                ram == old(Allocated())[frameIndex := old(swapFile)[restoredPageIndex]]
              else ram == old(Allocated())
      ensures swapFile == old(swapFile) - {restoredPageIndex}
    {
      if |ram| == 0 {
        Initialize();
      }
      if restoredPageIndex !in swapFile {
        return;
      }
      ram := ram[frameIndex := swapFile[restoredPageIndex]];
      swapFile := swapFile - {restoredPageIndex};
    }
  }

  lemma FrameOfAddress(z: Sizes, addr: nat)
    requires z.pageSize >= 1 && addr < Times(z.frames, z.pageSize)
    ensures addr / z.pageSize == Quot(addr, z.pageSize) < z.frames
    ensures addr % z.pageSize == Rem(addr, z.pageSize)
  {
    SmallQuotient(addr, z.pageSize, z.frames);
    QuotIsQuotient(addr, z.pageSize);
  }

  lemma AddressOfFrame(z: Sizes, f: nat, i: nat)
    requires f < z.frames && i < z.pageSize
    ensures f * z.pageSize == Times(f, z.pageSize)
    ensures 0 <= Times(f, z.pageSize) + i < Times(z.frames, z.pageSize)
  {
    TimesIsProduct(f, z.pageSize);
    TimesMono(f + 1, z.frames, z.pageSize);
  }
}
