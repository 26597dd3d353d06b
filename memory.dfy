/**
  The physical frame allocator the kernel builds from the boot loader's
  memory map.

  `UsableFrames` is the iterator pipeline of `usable_frames`, one stage per
  function: keep the usable regions, expand each `[start, end)` range in
  steps of 4096, and turn every address into the 4 KiB frame containing it.
  `BootInfoFrameAllocator` hands out the elements of that sequence in order,
  one per call, by counting calls in `next`.
*/
module Memory {
  import opened Wrappers

  /** Size of a 4 KiB page frame. */
  const PageSize: nat := 4096

  /** The region kind of a memory-map entry; only `Usable` matters to the allocator. */
  datatype MemoryRegionType = Usable | Other(code: nat)

  /** One entry of the boot memory map: the address range `[startAddr, endAddr)` and its kind. */
  datatype MemoryRegion = MemoryRegion(startAddr: nat, endAddr: nat, regionType: MemoryRegionType)

  /** A 4 KiB physical frame, named by its start address. */
  datatype PhysFrame = PhysFrame(startAddress: nat)

  /** `PhysFrame::containing_address`: the aligned frame the address falls in. */
  function ContainingAddress(addr: nat): (frame: PhysFrame)
    ensures frame.startAddress % PageSize == 0
    ensures frame.startAddress <= addr < frame.startAddress + PageSize
  {
    PhysFrame(addr - addr % PageSize)
  }

  /** Stage 1, the `filter`: the usable regions, in map order. */
  function UsableRegions(regions: seq<MemoryRegion>): (usable: seq<MemoryRegion>)
    ensures |usable| <= |regions|
    ensures forall i :: 0 <= i < |usable| ==> usable[i].regionType == Usable
  {
    if regions == [] then []
    else (if regions[0].regionType == Usable then [regions[0]] else []) + UsableRegions(regions[1..])
  }

  /** `(start..end).step_by(4096)`: the addresses `start, start + 4096, ...` below `end`. */
  function StepBy(start: nat, end: nat): (addrs: seq<nat>)
    ensures |addrs| == if start < end then (end - start + PageSize - 1) / PageSize else 0
    ensures forall k :: 0 <= k < |addrs| ==> addrs[k] == start + k * PageSize && addrs[k] < end
    decreases end - start
  {
    if start < end then [start] + StepBy(start + PageSize, end) else []
  }

  /** The number of addresses `step_by(4096)` yields for `[start, end)`: the length rounded up to whole pages. */
  function StepCount(start: nat, end: nat): nat {
    if start < end then (end - start + PageSize - 1) / PageSize else 0
  }

  /** The sum of the step counts of the regions. */
  function TotalSteps(regions: seq<MemoryRegion>): nat {
    if regions == [] then 0
    else StepCount(regions[0].startAddr, regions[0].endAddr) + TotalSteps(regions[1..])
  }

  /** Stages 2 and 3, the `map` to address ranges and the `flat_map` of `step_by`. */
  function FrameAddresses(regions: seq<MemoryRegion>): (addrs: seq<nat>)
    ensures |addrs| == TotalSteps(regions)
  {
    if regions == [] then []
    else StepBy(regions[0].startAddr, regions[0].endAddr) + FrameAddresses(regions[1..])
  }

  /** Stage 4, the final `map` of `containing_address`. */
  function ToFrames(addrs: seq<nat>): (frames: seq<PhysFrame>)
    ensures |frames| == |addrs|
    ensures forall i :: 0 <= i < |addrs| ==>
      frames[i].startAddress % PageSize == 0 &&
      frames[i].startAddress <= addrs[i] < frames[i].startAddress + PageSize
  {
    seq(|addrs|, i requires 0 <= i < |addrs| => ContainingAddress(addrs[i]))
  }

  /** `usable_frames`: the whole pipeline. */
  function UsableFrames(regions: seq<MemoryRegion>): (frames: seq<PhysFrame>)
    ensures |frames| == TotalSteps(UsableRegions(regions))
    ensures forall i :: 0 <= i < |frames| ==> frames[i].startAddress % PageSize == 0
  {
    ToFrames(FrameAddresses(UsableRegions(regions)))
  }

  /** `Iterator::nth`: the n-th element, if there is one. */
  function Nth<T>(s: seq<T>, n: nat): Option<T> {
    if n < |s| then Some(s[n]) else None
  }

  // ---------------------------------------------------------------------
  // Properties of usable_frames
  // ---------------------------------------------------------------------

  /** The addresses of `step_by` are exactly those in the range at a multiple of 4096 from its start. */
  lemma StepByMembers(start: nat, end: nat, a: nat)
    ensures a in StepBy(start, end) <==> start <= a < end && (a - start) % PageSize == 0
  {
    var addrs := StepBy(start, end);
    if start <= a < end && (a - start) % PageSize == 0 {
      var k := (a - start) / PageSize;
      assert a == start + k * PageSize;
      assert start + k * PageSize < end;
      assert k < |addrs|;
      assert addrs[k] == a;
    }
  }

  /** The filter keeps exactly the usable regions of the map. */
  lemma {:induction false} UsableRegionsMembers(regions: seq<MemoryRegion>, r: MemoryRegion)
    ensures r in UsableRegions(regions) <==> r in regions && r.regionType == Usable
  {
    if regions != [] {
      UsableRegionsMembers(regions[1..], r);
      assert regions == [regions[0]] + regions[1..];
    }
  }

  /** Every candidate address lies inside one of the regions it was expanded from. */
  lemma {:induction false} FrameAddressesInRegions(regions: seq<MemoryRegion>, a: nat)
    requires a in FrameAddresses(regions)
    ensures exists r :: r in regions && r.startAddr <= a < r.endAddr
  {
    var here := StepBy(regions[0].startAddr, regions[0].endAddr);
    if a in here {
      var k :| 0 <= k < |here| && here[k] == a;
      assert regions[0] in regions;
    } else {
      FrameAddressesInRegions(regions[1..], a);
      var r :| r in regions[1..] && r.startAddr <= a < r.endAddr;
      assert r in regions;
    }
  }

  /** Every frame handed out is aligned and overlaps a region the map marks usable. */
  lemma UsableFramesComeFromUsableRegions(regions: seq<MemoryRegion>, i: nat)
    requires i < |UsableFrames(regions)|
    ensures var f := UsableFrames(regions)[i];
      && f.startAddress % PageSize == 0
      && exists r :: r in regions && r.regionType == Usable &&
           r.startAddr < f.startAddress + PageSize && f.startAddress < r.endAddr
  {
    var addrs := FrameAddresses(UsableRegions(regions));
    var a := addrs[i];
    FrameAddressesInRegions(UsableRegions(regions), a);
    var r :| r in UsableRegions(regions) && r.startAddr <= a < r.endAddr;
    UsableRegionsMembers(regions, r);
    var f := UsableFrames(regions)[i];
    assert f == ContainingAddress(a);
  }

  lemma {:induction false} UsableRegionsAppend(a: seq<MemoryRegion>, b: seq<MemoryRegion>)
    ensures UsableRegions(a + b) == UsableRegions(a) + UsableRegions(b)
  {
    if a == [] {
      assert a + b == b;
    } else {
      assert (a + b)[0] == a[0];
      assert (a + b)[1..] == a[1..] + b;
      UsableRegionsAppend(a[1..], b);
    }
  }

  lemma {:induction false} FrameAddressesAppend(a: seq<MemoryRegion>, b: seq<MemoryRegion>)
    ensures FrameAddresses(a + b) == FrameAddresses(a) + FrameAddresses(b)
  {
    if a == [] {
      assert a + b == b;
    } else {
      assert (a + b)[0] == a[0];
      assert (a + b)[1..] == a[1..] + b;
      FrameAddressesAppend(a[1..], b);
    }
  }

  lemma ToFramesAppend(x: seq<nat>, y: seq<nat>)
    ensures ToFrames(x + y) == ToFrames(x) + ToFrames(y)
  {
    var l, r := ToFrames(x + y), ToFrames(x) + ToFrames(y);
    forall i | 0 <= i < |l| ensures l[i] == r[i] {
      if i >= |x| {
        assert (x + y)[i] == y[i - |x|];
      }
    }
  }

  /**
    The frames follow the memory map's order: the frames of a map made of two
    parts are the frames of the first part followed by those of the second.
  */
  lemma UsableFramesAppend(a: seq<MemoryRegion>, b: seq<MemoryRegion>)
    ensures UsableFrames(a + b) == UsableFrames(a) + UsableFrames(b)
  {
    UsableRegionsAppend(a, b);
    FrameAddressesAppend(UsableRegions(a), UsableRegions(b));
    ToFramesAppend(FrameAddresses(UsableRegions(a)), FrameAddresses(UsableRegions(b)));
  }

  /** A region that is not usable contributes no frame, wherever it stands in the map. */
  lemma NonUsableRegionIgnored(a: seq<MemoryRegion>, r: MemoryRegion, b: seq<MemoryRegion>)
    requires r.regionType != Usable
    ensures UsableFrames(a + [r] + b) == UsableFrames(a + b)
  {
    UsableFramesAppend(a + [r], b);
    UsableFramesAppend(a, [r]);
    UsableFramesAppend(a, b);
    assert UsableRegions([r]) == [] by {
      assert [r][1..] == [];
    }
  }

  /**
    A usable region on its own yields one frame per step of 4096 from its
    start while below its end: the k-th is the frame containing start + 4096 k.
  */
  lemma UsableRegionFrames(r: MemoryRegion)
    requires r.regionType == Usable
    ensures var frames := UsableFrames([r]);
      && |frames| == (if r.startAddr < r.endAddr then (r.endAddr - r.startAddr + PageSize - 1) / PageSize else 0)
      && forall k :: 0 <= k < |frames| ==>
           r.startAddr + k * PageSize < r.endAddr &&
           frames[k] == ContainingAddress(r.startAddr + k * PageSize)
  {
    assert [r][1..] == [];
    assert UsableRegions([r]) == [r];
    assert FrameAddresses([r]) == StepBy(r.startAddr, r.endAddr) + [];
  }

  /** Strictly increasing start addresses: in particular, no frame appears twice. */
  predicate Increasing(frames: seq<PhysFrame>) {
    forall i, j :: 0 <= i < j < |frames| ==> frames[i].startAddress < frames[j].startAddress
  }

  predicate IncreasingAddrs(addrs: seq<nat>) {
    forall i, j :: 0 <= i < j < |addrs| ==> addrs[i] < addrs[j]
  }

  /**
    A memory map as the boot loader describes memory: every usable region
    starts on a frame boundary, and the usable regions come in increasing,
    non-overlapping order.
  */
  predicate WellOrderedMap(regions: seq<MemoryRegion>) {
    && (forall i :: 0 <= i < |regions| && regions[i].regionType == Usable ==>
          regions[i].startAddr % PageSize == 0)
    && (forall i, j :: 0 <= i < j < |regions| && regions[i].regionType == Usable && regions[j].regionType == Usable ==>
          regions[i].endAddr <= regions[j].startAddr)
  }

  /** Regions that start on frame boundaries and follow each other without overlap. */
  predicate AlignedAndSorted(u: seq<MemoryRegion>) {
    && (forall i :: 0 <= i < |u| ==> u[i].startAddr % PageSize == 0)
    && (forall i, j :: 0 <= i < j < |u| ==> u[i].endAddr <= u[j].startAddr)
  }

  /** Regions that all start at or above a bound keep doing so through the filter. */
  lemma {:induction false} UsableRegionsAbove(regions: seq<MemoryRegion>, bound: nat)
    requires forall i :: 0 <= i < |regions| && regions[i].regionType == Usable ==> bound <= regions[i].startAddr
    ensures forall j :: 0 <= j < |UsableRegions(regions)| ==> bound <= UsableRegions(regions)[j].startAddr
  {
    if regions != [] {
      var rest := regions[1..];
      assert forall i :: 0 <= i < |rest| ==> rest[i] == regions[i + 1];
      UsableRegionsAbove(rest, bound);
    }
  }

  /** The usable regions of a well-ordered map are aligned and sorted. */
  lemma {:induction false} UsableRegionsOrdered(regions: seq<MemoryRegion>)
    requires WellOrderedMap(regions)
    ensures AlignedAndSorted(UsableRegions(regions))
  {
    if regions != [] {
      var rest := regions[1..];
      assert forall i :: 0 <= i < |rest| ==> rest[i] == regions[i + 1];
      UsableRegionsOrdered(rest);
      var u := UsableRegions(regions);
      var ur := UsableRegions(rest);
      if regions[0].regionType == Usable {
        UsableRegionsAbove(rest, regions[0].endAddr);
        assert u == [regions[0]] + ur;
        forall i | 0 <= i < |u| ensures u[i].startAddr % PageSize == 0 {
          if i > 0 { assert u[i] == ur[i - 1]; }
        }
        forall i, j | 0 <= i < j < |u| ensures u[i].endAddr <= u[j].startAddr {
          assert u[j] == ur[j - 1];
          if i > 0 { assert u[i] == ur[i - 1]; }
        }
      } else {
        assert u == ur;
      }
    }
  }

  /** The addresses of a single aligned range are aligned and increasing. */
  lemma StepByOrdered(start: nat, end: nat)
    requires start % PageSize == 0
    ensures IncreasingAddrs(StepBy(start, end))
    ensures forall k :: 0 <= k < |StepBy(start, end)| ==> StepBy(start, end)[k] % PageSize == 0
  {
    var addrs := StepBy(start, end);
    forall k | 0 <= k < |addrs| ensures addrs[k] % PageSize == 0 {
      assert addrs[k] == start + k * PageSize;
      assert (start + k * PageSize) % PageSize == start % PageSize;
    }
  }

  /** Regions that all start at or above a bound yield only addresses at or above it. */
  lemma {:induction false} FrameAddressesAbove(u: seq<MemoryRegion>, bound: nat)
    requires forall i :: 0 <= i < |u| ==> bound <= u[i].startAddr
    ensures forall k :: 0 <= k < |FrameAddresses(u)| ==> bound <= FrameAddresses(u)[k]
  {
    if u != [] {
      var rest := u[1..];
      assert forall i :: 0 <= i < |rest| ==> rest[i] == u[i + 1];
      FrameAddressesAbove(rest, bound);
    }
  }

  /** The candidate addresses of sorted, aligned regions are aligned and increasing. */
  lemma {:induction false} FrameAddressesOrdered(u: seq<MemoryRegion>)
    requires AlignedAndSorted(u)
    ensures IncreasingAddrs(FrameAddresses(u))
    ensures forall k :: 0 <= k < |FrameAddresses(u)| ==> FrameAddresses(u)[k] % PageSize == 0
  {
    if u != [] {
      var rest := u[1..];
      assert forall i :: 0 <= i < |rest| ==> rest[i] == u[i + 1];
      FrameAddressesOrdered(rest);
      FrameAddressesAbove(rest, u[0].endAddr);
      var here := StepBy(u[0].startAddr, u[0].endAddr);
      var there := FrameAddresses(rest);
      StepByOrdered(u[0].startAddr, u[0].endAddr);
      assert FrameAddresses(u) == here + there;
      ConcatIncreasing(here, there);
    }
  }

  lemma ConcatIncreasing(a: seq<nat>, b: seq<nat>)
    requires IncreasingAddrs(a) && IncreasingAddrs(b)
    requires forall i, j :: 0 <= i < |a| && 0 <= j < |b| ==> a[i] < b[j]
    ensures IncreasingAddrs(a + b)
  {
    var c := a + b;
    forall i, j | 0 <= i < j < |c| ensures c[i] < c[j] {
      if j < |a| {
      } else if i < |a| {
        assert c[j] == b[j - |a|];
      } else {
        assert c[i] == b[i - |a|] && c[j] == b[j - |a|];
      }
    }
  }

  /**
    Over a well-ordered memory map the frames come in strictly increasing
    order, so the allocator never hands out the same frame twice.
  */
  lemma UsableFramesIncreasing(regions: seq<MemoryRegion>)
    requires WellOrderedMap(regions)
    ensures Increasing(UsableFrames(regions))
  {
    UsableRegionsOrdered(regions);
    var addrs := FrameAddresses(UsableRegions(regions));
    FrameAddressesOrdered(UsableRegions(regions));
    var frames := UsableFrames(regions);
    forall i | 0 <= i < |frames| ensures frames[i].startAddress == addrs[i] {
      assert frames[i] == ContainingAddress(addrs[i]);
    }
  }

  // ---------------------------------------------------------------------
  // The allocators
  // ---------------------------------------------------------------------

  function Min(a: nat, b: nat): nat {
    if a <= b then a else b
  }

  /** Hands out the usable frames of the boot memory map one by one. */
  class BootInfoFrameAllocator {
    const memoryMap: seq<MemoryRegion>
    var next: nat
    /** The frames handed out so far, in order. */
    ghost var handedOut: seq<PhysFrame>

    ghost predicate Valid()
      reads this
    {
      handedOut == UsableFrames(memoryMap)[..Min(next, |UsableFrames(memoryMap)|)]
    }

    /** `BootInfoFrameAllocator::init`: nothing handed out yet. */
    constructor Init(memoryMap: seq<MemoryRegion>)
      ensures Valid()
      ensures this.memoryMap == memoryMap && next == 0 && handedOut == []
    {
      this.memoryMap := memoryMap;
      next := 0;
      handedOut := [];
    }

    /**
      `allocate_frame`: the `next`-th usable frame, or `None` once they are
      used up; `next` goes up by one either way and the map does not change.
    */
    method AllocateFrame() returns (frame: Option<PhysFrame>)
      requires Valid()
      modifies this
      ensures Valid()
      ensures next == old(next) + 1
      ensures old(next) < |UsableFrames(memoryMap)| ==> frame == Some(UsableFrames(memoryMap)[old(next)])
      ensures old(next) >= |UsableFrames(memoryMap)| ==> frame == None
      ensures handedOut == old(handedOut) + (if frame.Some? then [frame.value] else [])
      ensures WellOrderedMap(memoryMap) && frame.Some? ==> frame.value !in old(handedOut)
    {
      var frames := UsableFrames(memoryMap);
      frame := Nth(frames, next);
      if frame.Some? {
        assert frames[..next + 1] == frames[..next] + [frames[next]];
        handedOut := handedOut + [frame.value];
        if WellOrderedMap(memoryMap) {
          UsableFramesIncreasing(memoryMap);
          assert forall i :: 0 <= i < |old(handedOut)| ==> old(handedOut)[i] == frames[i];
        }
      }
      next := next + 1;
    }
  }

  /** A frame allocator that has no frames to give. */
  class EmptyFrameAllocator {
    constructor () {}

    /** `allocate_frame`: always `None`. */
    method AllocateFrame() returns (frame: Option<PhysFrame>)
      ensures frame == None
    {
      frame := None;
    }
  }
}
