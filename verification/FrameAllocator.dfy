/** The next-fit frame allocator and the physical memory manager built on it. */
module FrameAllocator {
  import opened Words
  import opened Wrappers
  import opened Bitmap

  /** Frame `f` lies in the cyclic interval that starts at `from` and stops before `to`. */
  predicate Between(from: nat, f: nat, to: nat) {
    if from <= to then from <= f < to else from <= f || f < to
  }

  /** `f` is the first free frame met when scanning cyclically from `from`. */
  ghost predicate FirstFree(used: set<nat>, size: nat, from: nat, f: nat) {
    f < size && f !in used && forall g: nat :: g < size && Between(from, g, f) ==> g in used
  }

  /** `StaticBitmapAllocator<T, SIZE>`: marked frames are in use. */
  class StaticBitmapAllocator {
    const bitmap: StaticBitmap
    var lastAllocated: nat

    constructor (size: nat)
      requires size > 0
      ensures Valid() && bitmap.size == size && Used() == {} && lastAllocated == 0
      ensures fresh(bitmap) && fresh(bitmap.data)
    {
      bitmap := new StaticBitmap(size);
      lastAllocated := 0;
    }

    ghost predicate Valid()
      reads this
    {
      bitmap.Valid() && lastAllocated < bitmap.size
    }

    ghost function Used(): set<nat>
      requires Valid()
      reads this, bitmap.data
    {
      bitmap.Bits()
    }

    /** One round of `allocate`: scan from the last frame granted, wrapping at the end, and
        take the first free frame. `None` is the out-of-memory panic. */
    method AllocateOne() returns (r: Option<nat>)
      requires Valid()
      modifies this, bitmap.data
      ensures Valid()
      ensures r.Some? ==>
        && FirstFree(old(Used()), bitmap.size, old(lastAllocated), r.value)
        && r.value == lastAllocated && Used() == old(Used()) + {r.value}
      ensures r.None? ==> Used() == old(Used()) && forall f: nat :: f < bitmap.size ==> f in Used()
    {
      var start := lastAllocated;
      var probes := 0;
      while true
        invariant Valid() && Used() == old(Used())
        invariant probes < bitmap.size
        invariant lastAllocated == if start + probes < bitmap.size then start + probes else start + probes - bitmap.size
        invariant forall f: nat :: f < bitmap.size && Between(start, f, lastAllocated) ==> f in Used()
        decreases bitmap.size - probes
      {
        var taken := bitmap.Test(lastAllocated);
        if !taken {
          break;
        }
        lastAllocated := lastAllocated + 1;
        if lastAllocated >= bitmap.size {
          lastAllocated := 0;
        }
        if lastAllocated == start {
          return None;
        }
        probes := probes + 1;
      }
      bitmap.Set(lastAllocated);
      r := Some(lastAllocated);
    }

    /** `allocate(n)` grants `n` frames and returns the last one. */
    method Allocate(n: nat) returns (r: Option<nat>)
      requires Valid()
      modifies this, bitmap.data
      ensures Valid() && old(Used()) <= Used()
      ensures r.Some? ==>
        && |Used() - old(Used())| == n && r.value == lastAllocated
        && (n > 0 ==> r.value in Used() - old(Used()))
      ensures r.Some? && n == 1 ==>
        && FirstFree(old(Used()), bitmap.size, old(lastAllocated), r.value) && Used() == old(Used()) + {r.value}
      ensures r.None? ==> |Used() - old(Used())| < n && forall f: nat :: f < bitmap.size ==> f in Used()
    {
      hide FirstFree;
      ghost var used, last := Used(), lastAllocated;
      ghost var granted: set<nat> := {};
      var i := 0;
      while i < n
        invariant i <= n
        invariant Valid() && Used() == used + granted && granted !! used && |granted| == i
        invariant i > 0 ==> lastAllocated in granted && lastAllocated < bitmap.size
        invariant i == 0 ==> lastAllocated == last
        invariant i == 1 ==> granted == {lastAllocated} && FirstFree(used, bitmap.size, last, lastAllocated)
      {
        var one := AllocateOne();
        Grown(used, granted);
        if one.None? {
          return None;
        }
        assert one.value !in used + granted by { NotYetUsed(used + granted, bitmap.size, one.value); }
        OneMore(used, granted, one.value);
        granted := granted + {one.value};
        i := i + 1;
      }
      Grown(used, granted);
      r := Some(lastAllocated);
    }

    /** `free(n)`; `false` is the double-free panic, taken exactly when the frame is not in use. */
    method Free(n: nat) returns (ok: bool)
      requires Valid()
      modifies bitmap.data
      ensures Valid() && ok == (n in old(Used()))
      ensures Used() == old(Used()) - {n}
    {
      ok := bitmap.Test(n);
      if ok {
        bitmap.Clear(n);
      }
    }
  }

  lemma {:induction false} Grown(used: set<nat>, granted: set<nat>)
    requires granted !! used
    ensures (used + granted) - used == granted
  {}

  lemma {:induction false} OneMore(used: set<nat>, granted: set<nat>, f: nat)
    requires f !in used + granted && granted !! used
    ensures granted + {f} !! used && |granted + {f}| == |granted| + 1
      && (used + granted) + {f} == used + (granted + {f})
  {}

  lemma {:induction false} NotYetUsed(used: set<nat>, size: nat, f: nat)
    requires exists from: nat :: FirstFree(used, size, from, f)
    ensures f < size && f !in used
  {}

  /** An entry of the memory map the boot loader hands over. */
  datatype MemmapEntry = MemmapEntry(usable: bool, base: nat, length: nat)

  /** Frame `f` starts on one of the page steps `Pmm::init` takes through a usable entry. */
  ghost predicate Covers(e: MemmapEntry, f: nat) {
    e.usable && exists k: nat :: InEntry(e, f, k)
  }

  predicate InEntry(e: MemmapEntry, f: nat, k: nat) {
    k * PAGE_SIZE < e.length && f == (e.base + k * PAGE_SIZE) / PAGE_SIZE
  }

  /** For a page-aligned entry the covered frames are those that start inside it. */
  lemma {:induction false} CoversAligned(e: MemmapEntry, f: nat)
    requires e.base % PAGE_SIZE == 0
    ensures Covers(e, f) <==> e.usable && e.base <= f * PAGE_SIZE < e.base + e.length
  {
    if e.usable && e.base <= f * PAGE_SIZE < e.base + e.length {
      var k := f - e.base / PAGE_SIZE;
      assert InEntry(e, f, k);
    }
  }

  /** The frames of the first `k` page steps. */
  ghost function Stepped(e: MemmapEntry, k: nat): set<nat> {
    if k == 0 then {} else Stepped(e, k - 1) + {(e.base + (k - 1) * PAGE_SIZE) / PAGE_SIZE}
  }

  lemma {:induction false} SteppedHas(e: MemmapEntry, k: nat, f: nat)
    requires k > 0 ==> (k - 1) * PAGE_SIZE < e.length
    ensures f in Stepped(e, k) <==> exists j: nat :: j < k && InEntry(e, f, j)
  {
    if k > 0 {
      SteppedHas(e, k - 1, f);
      if f == (e.base + (k - 1) * PAGE_SIZE) / PAGE_SIZE { assert InEntry(e, f, k - 1); }
    }
  }

  lemma {:induction false} SteppedCovers(e: MemmapEntry, k: nat, f: nat)
    requires e.usable && (k > 0 ==> (k - 1) * PAGE_SIZE < e.length) && k * PAGE_SIZE >= e.length
    ensures f in Stepped(e, k) <==> Covers(e, f)
  {
    SteppedHas(e, k, f);
    if j: nat :| InEntry(e, f, j) {
      assert j < k;
    }
  }

  const MAX_FRAMES := 0x4_0000 // 1 GiB of 4 KiB frames

  /** The physical memory manager. */
  class Pmm {
    const allocator: StaticBitmapAllocator

    ghost predicate Valid()
      reads allocator
    {
      allocator.Valid() && allocator.bitmap.size == MAX_FRAMES
    }

    ghost function Used(): (u: set<nat>)
      requires Valid()
      reads allocator, allocator.bitmap.data
      ensures forall f :: f in u ==> f < MAX_FRAMES
    {
      allocator.Used()
    }

    /** After `init` the free frames are exactly those covered by usable memory below 1 GiB. */
    constructor (memmap: seq<MemmapEntry>)
      ensures Valid() && fresh(allocator) && fresh(allocator.bitmap.data)
      ensures forall f: nat :: f < MAX_FRAMES ==>
                (f !in Used() <==> exists i :: 0 <= i < |memmap| && Covers(memmap[i], f))
    {
      allocator := new StaticBitmapAllocator(MAX_FRAMES);
      new;
      var bitmap := allocator.bitmap;
      bitmap.SetAll();
      var i := 0;
      while i < |memmap|
        invariant i <= |memmap|
        invariant Valid()
        invariant forall f: nat :: f < MAX_FRAMES ==>
                    (f !in Used() <==> exists j :: 0 <= j < i && Covers(memmap[j], f))
      {
        if memmap[i].usable {
          FreeEntry(memmap[i]);
        }
        i := i + 1;
      }
    }

    /** The loop of `init` over the pages of a usable entry. */
    method FreeEntry(e: MemmapEntry)
      requires Valid() && e.usable
      modifies allocator.bitmap.data
      ensures Valid()
      ensures forall f: nat :: f !in Used() <==> f !in old(Used()) || Covers(e, f)
    {
      var addr := e.base;
      ghost var k := 0;
      while addr < e.base + e.length
        invariant addr == e.base + k * PAGE_SIZE && Valid()
        invariant k > 0 ==> (k - 1) * PAGE_SIZE < e.length
        invariant Used() == old(Used()) - Stepped(e, k)
        decreases e.base + e.length - addr
      {
        allocator.bitmap.Clear(addr / PAGE_SIZE);
        addr := addr + PAGE_SIZE;
        k := k + 1;
      }
      forall f: nat ensures f in Stepped(e, k) <==> Covers(e, f) {
        SteppedCovers(e, k, f);
      }
    }

    /** Grant a frame. The kernel deals in its address; the frame number is the address over 4096. */
    method AllocateFrame() returns (r: Option<nat>)
      requires Valid()
      modifies allocator, allocator.bitmap.data
      ensures Valid()
      ensures r.Some? ==> r.value < MAX_FRAMES && r.value !in old(Used()) && Used() == old(Used()) + {r.value}
      ensures r.None? ==> Used() == old(Used()) && forall f: nat :: f < MAX_FRAMES ==> f in Used()
    {
      r := allocator.Allocate(1);
      if r.None? {
        assert Used() - old(Used()) == {};
      }
    }

    method FreeFrame(frame: nat) returns (ok: bool)
      requires Valid()
      modifies allocator.bitmap.data
      ensures Valid() && ok == (frame in old(Used()))
      ensures Used() == old(Used()) - {frame}
    {
      ok := allocator.Free(frame);
    }
  }
}
