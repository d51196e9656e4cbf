/**
 * The shared buffer block behind every reader and writer of the transfer
 * engine (`aio_base`): one region holding `BufferCount` buffers of
 * `BufferSize` bytes, each preceded by a padding page so that two parties
 * working on neighbouring buffers never share a prefetched page.
 *
 * Addresses are natural numbers; 0 stands for null. The page size
 * and the results of the operating-system calls (`mmap`,
 * `CreateFileMapping`, `MapViewOfFile`, `new[]`) are parameters.
 */
module Aio {
  const BufferSize: nat := 256 * 1024
  const BufferCount: nat := 8

  /** Tri-state result of the asynchronous I/O calls. */
  datatype AioResult = Ok | Wait | Error

  /** A non-null address. */
  type Address = x: nat | x > 0 witness 1

  /** A non-owning view of `capacity` bytes starting at address `start`. */
  datatype View = View(start: nat, capacity: nat)

  /** Size of the whole block for a given page size. */
  function RegionSize(page: nat): nat
  {
    (BufferSize + page) * BufferCount + page
  }

  /** Where buffer `i` of a block based at `base` lives. */
  function SlotView(base: nat, page: nat, i: nat): View
  {
    View(base + i * (BufferSize + page) + page, BufferSize)
  }

  /** The half-open address range `[lo, hi)` contains no byte of view `v`. */
  predicate Outside(v: View, lo: int, hi: int)
  {
    hi <= v.start || v.start + v.capacity <= lo
  }

  lemma {:induction false} MulStep(i: nat, j: nat, x: nat)
    requires i < j
    ensures i * x + x <= j * x
  {
    assert j * x == i * x + (j - i) * x;
    assert (j - i) * x >= x by {
      assert (j - i) * x == x + (j - i - 1) * x;
    }
  }

  /**
   * Layout of the block: every buffer lies inside the region, buffers are
   * pairwise disjoint, and the page in front of each buffer belongs to the
   * region but to no buffer.
   */
  lemma {:induction false} Layout(base: nat, page: nat, i: nat, j: nat)
    requires i < BufferCount && j < BufferCount
    ensures base + page <= SlotView(base, page, i).start
    ensures SlotView(base, page, i).start + BufferSize <= base + RegionSize(page)
    ensures i != j ==> Outside(SlotView(base, page, j), SlotView(base, page, i).start, SlotView(base, page, i).start + BufferSize)
    ensures Outside(SlotView(base, page, j), SlotView(base, page, i).start - page, SlotView(base, page, i).start)
  {
    var x := BufferSize + page;
    if i + 1 < BufferCount {
      MulStep(i, BufferCount - 1, x);
    }
    assert (BufferCount - 1) * x + x == BufferCount * x;
    assert i * x + x <= BufferCount * x by {
      if i + 1 < BufferCount { MulStep(i, BufferCount - 1, x); }
    }
    if i < j {
      MulStep(i, j, x);
    } else if j < i {
      MulStep(j, i, x);
    }
  }

  /** Outcome of `mmap`: an address, or `MAP_FAILED`. */
  datatype MmapOutcome = Mapped(address: Address) | MapFailed

  /** The address `MAP_FAILED`, `(void*)-1`, on a 64-bit system. */
  const MapFailedAddress: nat := 0x1_0000_0000_0000_0000 - 1

  /**
   * The POSIX shared-memory success test exactly as written: the `mmap`
   * result is converted to an address and compared with null.
   */
  function MmapAcceptedAsWritten(r: MmapOutcome): (accepted: bool)
  {
    var memory := if r.MapFailed? then MapFailedAddress else r.address;
    memory != 0
  }

  /** As written, a failed `mmap` is taken for a successful mapping. */
  lemma MmapFailureUndetected()
    ensures MmapAcceptedAsWritten(MapFailed)
  {
  }

  /** How the destructor releases the block. */
  datatype ReleasePath =
    | Unmap(address: nat, length: nat)   // munmap / UnmapViewOfFile + CloseHandle
    | DeleteArray(address: nat)          // delete[] (a no-op on null)

  /** The block of a POSIX build (src/engine/aio.cpp without FZ_WINDOWS). */
  class PosixAio {
    const page: nat
    var mapping: int          // shared-memory descriptor, -1 for none
    var memory: nat           // base of the block, 0 while unallocated
    var memorySize: nat
    const buffers: array<View>

    ghost predicate LaidOut()
      reads this, buffers
    {
      buffers.Length == BufferCount &&
      memorySize == RegionSize(page) &&
      forall i :: 0 <= i < BufferCount ==> buffers[i] == SlotView(memory, page, i)
    }

    ghost predicate Valid()
      reads this, buffers
    {
      buffers.Length == BufferCount && mapping >= -1 && (memory != 0 ==> LaidOut())
    }

    /** A fresh object; `descriptor` is the shared-memory descriptor or -1. */
    constructor (pageSize: nat, descriptor: int)
      requires descriptor >= -1
      ensures Valid() && fresh(buffers)
      ensures page == pageSize && mapping == descriptor && memory == 0 && memorySize == 0
    {
      page := pageSize;
      mapping := descriptor;
      memory := 0;
      memorySize := 0;
      buffers := new View[BufferCount](_ => View(0, 0));
    }

    /**
     * `allocate_memory`; `mmapResult` is what `mmap` would return and
     * `heapAddress` what `new uint8_t[]` would return.
     */
    method AllocateMemory(useShared: bool, mmapResult: MmapOutcome, heapAddress: Address) returns (ok: bool)
      requires Valid()
      modifies this, buffers
      ensures Valid() && mapping == old(mapping)
      ensures ok <==> memory != 0
      ensures old(memory) != 0 ==> ok && memory == old(memory) && memorySize == old(memorySize) && unchanged(buffers)
      ensures old(memory) == 0 ==> memorySize == RegionSize(page)
      ensures old(memory) == 0 && useShared ==> (ok <==> mapping != -1 && mmapResult.Mapped?)
      ensures old(memory) == 0 && useShared && ok ==> memory == mmapResult.address
      ensures old(memory) == 0 && !useShared ==> ok && memory == heapAddress
    {
      if memory != 0 {
        return true;
      }
      memorySize := RegionSize(page);
      if useShared {
        if mapping == -1 {
          return false;
        }
        if mmapResult.MapFailed? {   // the intended test against MAP_FAILED
          return false;
        }
        memory := mmapResult.address;
      } else {
        memory := heapAddress;
      }
      FillBuffers();
      ok := true;
    }

    /** The loop that points every buffer at its place in the block. */
    method FillBuffers()
      requires buffers.Length == BufferCount && memory != 0 && memorySize == RegionSize(page)
      modifies buffers
      ensures LaidOut()
    {
      for i := 0 to BufferCount
        invariant forall k :: 0 <= k < i ==> buffers[k] == SlotView(memory, page, k)
      {
        buffers[i] := SlotView(memory, page, i);
      }
    }

    /** `shared_memory_info`: the block handed to a child process covers every buffer. */
    function SharedMemoryInfo(): (info: (int, nat, nat))
      requires Valid()
      reads this, buffers
      ensures info.0 == mapping
      ensures memory != 0 ==> forall i :: 0 <= i < BufferCount ==>
        info.1 <= buffers[i].start && buffers[i].start + buffers[i].capacity <= info.1 + info.2
    {
      BlockInfo(mapping, memory, memorySize, page)
    }

    /** The destructor: exactly one release path, chosen by the descriptor. */
    method Release() returns (path: ReleasePath)
      requires Valid()
      ensures path.Unmap? <==> mapping != -1
      ensures path.Unmap? ==> path == Unmap(memory, memorySize)
      ensures path.DeleteArray? ==> path.address == memory
    {
      if mapping != -1 {
        path := Unmap(memory, memorySize);
      } else {
        path := DeleteArray(memory);
      }
    }
  }

  /**
   * What `shared_memory_info` hands to a child process on either platform:
   * the mapping, the base and the size of the block, a range that covers
   * every buffer once the block is laid out.
   */
  function BlockInfo<H>(mapping: H, base: nat, size: nat, page: nat): (info: (H, nat, nat))
    requires base != 0 ==> size == RegionSize(page)
    ensures info.0 == mapping
    ensures base != 0 ==> forall i :: 0 <= i < BufferCount ==>
      info.1 <= SlotView(base, page, i).start && SlotView(base, page, i).start + SlotView(base, page, i).capacity <= info.1 + info.2
  {
    LayoutAll(base, page);
    (mapping, base, size)
  }

  lemma LayoutAll(base: nat, page: nat)
    ensures forall i :: 0 <= i < BufferCount ==>
      base <= SlotView(base, page, i).start && SlotView(base, page, i).start + BufferSize <= base + RegionSize(page)
  {
    forall i | 0 <= i < BufferCount
      ensures base <= SlotView(base, page, i).start && SlotView(base, page, i).start + BufferSize <= base + RegionSize(page)
    {
      Layout(base, page, i, i);
    }
  }

  /** A Windows `HANDLE` as far as the block cares. */
  datatype Handle = NullHandle | InvalidHandle | Handle(id: nat)

  /** The block of a Windows build (FileZilla3/trunk/src/engine/aio.cpp). */
  class WindowsAio {
    const page: nat
    var mapping: Handle       // INVALID_HANDLE_VALUE until a mapping exists
    var memory: nat
    var memorySize: nat
    const buffers: array<View>

    ghost predicate LaidOut()
      reads this, buffers
    {
      buffers.Length == BufferCount &&
      memorySize == RegionSize(page) &&
      forall i :: 0 <= i < BufferCount ==> buffers[i] == SlotView(memory, page, i)
    }

    ghost predicate Valid()
      reads this, buffers
    {
      buffers.Length == BufferCount &&
      (memory != 0 ==> LaidOut()) &&
      mapping != NullHandle && (mapping.Handle? ==> memory != 0)
    }

    constructor (pageSize: nat)
      ensures Valid() && fresh(buffers)
      ensures page == pageSize && mapping == InvalidHandle && memory == 0
    {
      page := pageSize;
      mapping := InvalidHandle;
      memory := 0;
      memorySize := 0;
      buffers := new View[BufferCount](_ => View(0, 0));
    }

    /**
     * `allocate_memory`; `created` is what `CreateFileMapping` returns,
     * `view` what `MapViewOfFile` returns (0 on failure) and `heapAddress`
     * what `new uint8_t[]` returns.
     */
    method AllocateMemory(useShared: bool, created: Handle, view: nat, heapAddress: Address) returns (ok: bool)
      requires Valid()
      modifies this, buffers
      ensures Valid()
      ensures ok <==> memory != 0
      ensures old(memory) != 0 ==> ok && memory == old(memory) && mapping == old(mapping) && unchanged(buffers)
      ensures old(memory) == 0 ==> memorySize == RegionSize(page)
      ensures old(memory) == 0 && useShared ==> (ok <==> created.Handle? && view != 0)
      ensures old(memory) == 0 && useShared && ok ==> memory == view && mapping == created
      ensures old(memory) == 0 && useShared && !ok ==> mapping == old(mapping)
      ensures old(memory) == 0 && !useShared ==> ok && memory == heapAddress && mapping == old(mapping)
    {
      if memory != 0 {
        return true;
      }
      memorySize := RegionSize(page);
      if useShared {
        if created.NullHandle? || created.InvalidHandle? {
          return false;
        }
        if view == 0 {
          return false;
        }
        memory := view;
        mapping := created;
      } else {
        memory := heapAddress;
      }
      FillBuffers();
      ok := true;
    }

    /** The loop that points every buffer at its place in the block. */
    method FillBuffers()
      requires buffers.Length == BufferCount && memory != 0 && memorySize == RegionSize(page)
      modifies buffers
      ensures LaidOut()
    {
      for i := 0 to BufferCount
        invariant forall k :: 0 <= k < i ==> buffers[k] == SlotView(memory, page, k)
      {
        buffers[i] := SlotView(memory, page, i);
      }
    }

    function SharedMemoryInfo(): (info: (Handle, nat, nat))
      requires Valid()
      reads this, buffers
      ensures info.0 == mapping
      ensures memory != 0 ==> forall i :: 0 <= i < BufferCount ==>
        info.1 <= buffers[i].start && buffers[i].start + buffers[i].capacity <= info.1 + info.2
    {
      BlockInfo(mapping, memory, memorySize, page)
    }

    /** The destructor: unmap and close when a mapping exists, else `delete[]`. */
    method Release() returns (path: ReleasePath)
      requires Valid()
      ensures path.Unmap? <==> mapping != InvalidHandle
      ensures path.Unmap? ==> path.address == memory && path.address != 0
      ensures path.DeleteArray? ==> path.address == memory
    {
      if mapping != InvalidHandle {
        path := Unmap(memory, memorySize);
      } else {
        path := DeleteArray(memory);
      }
    }
  }
}
