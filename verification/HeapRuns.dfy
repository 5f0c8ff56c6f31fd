/** Whole runs of the kernel heap, and the page table steps they cause. */
module HeapRuns {
  import opened Words
  import opened HeapChain
  import opened KernelHeap
  import Forest
  import ForestSteps
  import AddressSpaceRuns
  import ForestCopy

  /** The heap, and the frames that are left for it. */
  datatype HeapState = HeapState(chain: Chain, pages: nat, frames: nat)

  ghost function Now(heap: HeapAllocator): HeapState
    reads heap
  {
    HeapState(heap.chain, heap.pages, heap.frames)
  }

  datatype HeapOp = Took(block: Block) | Freed(block: Block)

  /** What `Allocate` and `Free` guarantee when they succeed. */
  ghost predicate HeapStep(base: nat, s: HeapState, op: HeapOp, s': HeapState) {
    && Sound(s.chain, base, s.pages) && Sound(s'.chain, base, s'.pages)
    && match op
       case Took(b) =>
         && b !in Live(s.chain) && Live(s'.chain) == Live(s.chain) + {b}
         && s'.frames + s'.pages == s.frames + s.pages
       case Freed(b) =>
         && s'.frames == s.frames
         && b in Live(s.chain) && Live(s'.chain) == Live(s.chain) - {b}
         && var last := s'.chain[|s'.chain| - 1]; last.free ==> last.bytes <= HEAP_PAGE - ALIGNMENT
  }

  ghost predicate HeapRun(base: nat, states: seq<HeapState>, ops: seq<HeapOp>) {
    |states| == |ops| + 1 && forall i, j ::
      0 <= i < |ops| && j == i + 1 ==> HeapStep(base, states[i], ops[i], states[j])
  }

  /** The methods of the allocator make such steps. */
  method FreeIsStep(heap: HeapAllocator, p: nat, ghost k: nat) returns (ok: bool)
    requires heap.Valid() && heap.PayloadOf(p, k) && !heap.chain[k].free
    modifies heap
    ensures ok && heap.Valid()
    ensures HeapStep(heap.base, old(Now(heap)), Freed(old(heap.chain)[k]), Now(heap))
  {
    assert heap.chain[k] in Live(heap.chain);
    ok := heap.Free(p, k);
  }

  method AllocateIsStep(heap: HeapAllocator, n: Word) returns (r: Outcome, ghost k: nat)
    requires heap.Valid()
    modifies heap
    ensures heap.Valid() && (r.Pointer? ==> heap.PayloadOf(r.p, k))
    ensures r.Pointer? ==> HeapStep(heap.base, old(Now(heap)), Took(heap.chain[k]), Now(heap))
  {
    r, k := heap.Allocate(n);
  }

  /** A block that has been handed out is neither moved nor resized until it is freed. */
  lemma {:induction false} NeverMoved(base: nat, states: seq<HeapState>, ops: seq<HeapOp>, i: nat, j: nat, b: Block)
    requires HeapRun(base, states, ops) && i <= j < |states| && b in Live(states[i].chain)
    requires forall t :: i <= t < j ==> ops[t] != Freed(b)
    ensures b in Live(states[j].chain)
  {
    if i < j {
      NeverMoved(base, states, ops, i, j - 1, b);
      assert HeapStep(base, states[j - 1], ops[j - 1], states[j]);
    }
  }

  /** After a `free` that leaves nothing live the heap is as `init` made it, but for the frames. */
  lemma {:induction false} GiveBack(base: nat, s: HeapState, b: Block, s': HeapState)
    requires HeapStep(base, s, Freed(b), s') && Live(s'.chain) == {}
    ensures s' == HeapState(Initial(base), 1, s.frames)
  {
    EmptyHeapIsInitial(s'.chain, base, s'.pages);
  }

  /** Freeing all live blocks, in any order, returns the heap to its initial state. No frame comes
      back: those of all pages but the first are lost. */
  lemma {:induction false} FreeAll(base: nat, states: seq<HeapState>, ops: seq<HeapOp>)
    requires HeapRun(base, states, ops) && |ops| > 0 && forall op :: op in ops ==> op.Freed?
    requires forall b :: b in Live(states[0].chain) ==> Freed(b) in ops
    ensures states[|ops|] == HeapState(Initial(base), 1, states[0].frames)
  {
    var n := |ops|;
    forall b ensures b !in Live(states[n].chain) {
      if b in Live(states[n].chain) {
        OnlyShrinks(base, states, ops, 0, n, b);
        var t :| 0 <= t < n && ops[t] == Freed(b);
        assert HeapStep(base, states[t], ops[t], states[t + 1]);
        OnlyShrinks(base, states, ops, t + 1, n, b);
      }
    }
    SameFrames(base, states, ops, n - 1);
    assert HeapStep(base, states[n - 1], ops[n - 1], states[n]);
    assert Live(states[n].chain) == {};
    GiveBack(base, states[n - 1], ops[n - 1].block, states[n]);
  }

  lemma {:induction false} SameFrames(base: nat, states: seq<HeapState>, ops: seq<HeapOp>, j: nat)
    requires HeapRun(base, states, ops) && j < |states| && forall op :: op in ops ==> op.Freed?
    ensures states[j].frames == states[0].frames
  {
    if j > 0 {
      SameFrames(base, states, ops, j - 1);
      assert HeapStep(base, states[j - 1], ops[j - 1], states[j]) && ops[j - 1] in ops;
    }
  }

  lemma {:induction false} LargeRequest(base: nat)
    ensures AlignUp(8000, ALIGNMENT) == 8000 && RequiredPages(8000) == 2 && Fits(8000)
    ensures FirstFit(Initial(base), 8000).None? && Live(Initial(base)) == {}
  {}

  /** One allocation of more than a page, freed again: the heap is as it was and two frames are gone. */
  method LoseTwoFrames(base: nat, frames: nat) returns (heap: HeapAllocator)
    requires base > 0 && base % ALIGNMENT == 0 && frames >= 3
    ensures heap.Valid() && heap.chain == Initial(base) && heap.pages == 1
    ensures heap.frames == frames - 3 && heap.Lost() == 2
  {
    hide Sound, Holds, Live, FirstFit, AlignUp, RequiredPages, Fits, Release, Trim, TrimmedPages, LosesPages;
    hide Maps, Unmaps, Replays;
    heap := new HeapAllocator(base, frames);
    LargeRequest(base);
    var r, k := heap.Allocate(8000);
    var ok := heap.Free(r.p, k);
    EmptyHeapIsInitial(heap.chain, base, heap.pages);
  }

  lemma {:induction false} OnlyShrinks(base: nat, states: seq<HeapState>, ops: seq<HeapOp>, i: nat, j: nat, b: Block)
    requires HeapRun(base, states, ops) && i <= j < |states| && (forall op :: op in ops ==> op.Freed?)
    requires b in Live(states[j].chain)
    ensures b in Live(states[i].chain)
  {
    if i < j {
      assert HeapStep(base, states[j - 1], ops[j - 1], states[j]);
      assert ops[j - 1] in ops;
      OnlyShrinks(base, states, ops, i, j - 1, b);
    }
  }

  // ---------- The heap's pages in the kernel address space ----------

  const HEAP_START: Word := 0xffff_fe80_0000_0000

  /** A PML4 slot spans 2^27 pages. */
  const SLOT_PAGES := 0x800_0000

  function HeapPage(kernel: nat, k: nat): Forest.Node
    requires k < SLOT_PAGES
  {
    Forest.Node(kernel, Forest.PathOf(HEAP_START + k * HEAP_PAGE))
  }

  lemma {:induction false} HeapPageIndices(k: nat)
    requires k < SLOT_PAGES
    ensures Forest.First(Forest.PathOf(HEAP_START + k * HEAP_PAGE)) == 509
    ensures Forest.IsPage(Forest.PathOf(HEAP_START + k * HEAP_PAGE))
      && Forest.Upper(Forest.PathOf(HEAP_START + k * HEAP_PAGE))
    ensures k > 0 ==> Forest.PathOf(HEAP_START + k * HEAP_PAGE) != Forest.PathOf(HEAP_START)
  {
    hide Forest.PathOf, Forest.First;
    var v: Word := HEAP_START + k * HEAP_PAGE;
    HeapSlot(k);
    FirstOfPathOf(v);
    if k > 0 {
      Forest.PathIsPageNumber(v, HEAP_START);
    }
  }

  lemma {:induction false} HeapSlot(k: nat)
    requires k < SLOT_PAGES
    ensures (HEAP_START + k * HEAP_PAGE) / 0x80_0000_0000 == 0x1ff_fffd
    ensures (HEAP_START + k * HEAP_PAGE) / 0x1000 == HEAP_START / 0x1000 + k
  {}

  lemma {:induction false} FirstOfPathOf(v: Word)
    ensures Forest.First(Forest.PathOf(v)) == v / 0x80_0000_0000 % ENTRIES
  {
    FirstOfPath4(v / 0x80_0000_0000 % ENTRIES, v / 0x4000_0000 % ENTRIES,
      v / 0x20_0000 % ENTRIES, v / 0x1000 % ENTRIES);
  }

  lemma {:induction false} FirstOfPath4(i: nat, j: nat, k: nat, l: nat)
    ensures Forest.First(Forest.Path4(i, j, k, l)) == i
  {
    var p1 := Forest.Down(Forest.Top, i);
    var p2 := Forest.Down(p1, j);
    var p3 := Forest.Down(p2, k);
    assert Forest.First(p1) == i && Forest.First(p2) == i && Forest.First(p3) == i;
  }

  /** The heap never asks for its first page to be unmapped. */
  lemma {:induction false} FirstPageStays(calls: seq<PageCall>, pages: nat, i: nat)
    requires Replays(calls, pages) && i < |calls|
    ensures calls[i] != Unmap(0)
  {
    var n := |calls| - 1;
    if i < n {
      match calls[n]
      case Map(k) => FirstPageStays(calls[..n], k, i);
      case Unmap(k) => FirstPageStays(calls[..n], k + 1, i);
    }
  }

  /** So, while the first page is mapped, every other call of the heap is a step that keeps the
      kernel half coherent. */
  lemma {:induction false} HeapCallIsStep(s: ForestSteps.State, s': ForestSteps.State, call: PageCall, w: Word)
    requires ForestSteps.WellFormed(s) && HeapPage(s.forest.kernel, 0) in s.forest.pages
    requires call != Unmap(0) && call.k < SLOT_PAGES && Present(w)
    requires var page := HeapPage(s.forest.kernel, call.k);
             match call
             case Map(_) => ForestSteps.MapStep(s, s', page, w)
             case Unmap(_) => ForestSteps.UnmapStep(s, s', page)
    ensures var page := HeapPage(s.forest.kernel, call.k);
            AddressSpaceRuns.Step(s, if call.Map? then AddressSpaceRuns.MapKernel(page, w)
              else AddressSpaceRuns.UnmapKernel(page), s')
  {
    hide *;
    HeapNode(s.forest.kernel, 0);
    HeapNode(s.forest.kernel, call.k);
    if call.Map? {
      SharedSlotMap(s, s', HeapPage(s.forest.kernel, 0), HeapPage(s.forest.kernel, call.k), w);
    } else {
      SharedSlotUnmap(s, s', HeapPage(s.forest.kernel, 0), HeapPage(s.forest.kernel, call.k));
    }
  }

  lemma {:induction false} HeapNode(kernel: nat, k: nat)
    requires k < SLOT_PAGES
    ensures var page := HeapPage(kernel, k);
            && page.root == kernel && Forest.IsPage(page.path) && page.path.Down?
              && Forest.First(page.path) == 509 && Forest.Upper(page.path)
            && (k > 0 ==> page != HeapPage(kernel, 0))
  {
    HeapPageIndices(k);
  }

  lemma {:induction false} SharedSlotMap(s: ForestSteps.State,
    s': ForestSteps.State, first: Forest.Node, page: Forest.Node, w: Word)
    requires ForestSteps.MapStep(s, s', page, w) && Present(w)
      && first in s.forest.pages && first.root == page.root == s.forest.kernel
    requires Forest.IsPage(first.path) && Forest.IsPage(page.path)
      && Forest.Upper(page.path) && Forest.First(first.path) == Forest.First(page.path)
    ensures AddressSpaceRuns.Step(s, AddressSpaceRuns.MapKernel(page, w), s')
  {
    var slot := ForestSteps.TopSlot(page.path);
    assert first.path.up.Down?;
    TopAbove(first.path);
    ForestCopy.AncestorsExist(s.forest, first, slot);
  }

  lemma {:induction false} SharedSlotUnmap(s: ForestSteps.State,
    s': ForestSteps.State, first: Forest.Node, page: Forest.Node)
    requires ForestSteps.UnmapStep(s, s', page) && first in s.forest.pages
      && first.root == page.root == s.forest.kernel && first != page
    requires Forest.IsPage(page.path) && Forest.Upper(page.path) && Forest.First(first.path) == Forest.First(page.path)
    ensures AddressSpaceRuns.Step(s, AddressSpaceRuns.UnmapKernel(page), s')
  {}

  lemma {:induction false} TopAbove(p: Forest.Path)
    requires p.Down? && p.up.Down?
    ensures Forest.Below(Forest.Down(Forest.Top, Forest.First(p)), p)
  {
    if p.up.up.Down? { TopAbove(p.up); }
  }
}

