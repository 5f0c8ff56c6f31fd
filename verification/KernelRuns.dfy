/** Runs that mix what processes do to the page tables with the page calls of the kernel heap. That
    no call takes the heap's PML4 slot away is not assumed: it follows from what the heap asks. */
module KernelRuns {
  import opened Words
  import opened Forest
  import opened ForestSteps
  import opened ForestCopy
  import opened MappingLaws
  import opened AddressSpaceRuns
  import opened HeapRuns
  import KernelHeap
  import FrameAllocator

  type PageCall = KernelHeap.PageCall

  datatype Event = Other(op: Op) | Heap(call: PageCall, entry: Word)

  /** The calls the heap has made. */
  function Calls(es: seq<Event>): seq<PageCall> {
    if es == [] then []
    else
      var e, before := es[|es| - 1], Calls(es[..|es| - 1]);
      if e.Heap? then before + [e.call] else before
  }

  /** Page `k` of the heap, also where the heap would leave its PML4 slot. */
  function PageAt(kernel: nat, k: nat): Node { Node(kernel, PathOf((HEAP_START + k * PAGE_SIZE) % TWO_64)) }

  /** A call of the heap maps or unmaps its page in the kernel root. Nothing is said of the slot. */
  ghost predicate HeapCall(s: State, call: PageCall, w: Word, s': State) {
    var page := PageAt(s.forest.kernel, call.k);
    if call.Map? then Present(w) && MapStep(s, s', page, w) else UnmapStep(s, s', page)
  }

  /** Every other step but an unmap in the kernel half. The kernel maps pages of its own, and the
      heap its first page, at boot, before there are process roots. */
  ghost predicate MixedStep(s: State, e: Event, s': State) {
    match e
    case Other(op) => Step(s, op, s') && !op.UnmapKernel? && (op.MapKernel? ==> !OtherRoots(s.forest))
    case Heap(call, w) => HeapCall(s, call, w, s') && (call == KernelHeap.Map(0) ==> !OtherRoots(s.forest))
  }

  ghost predicate MixedRun(states: seq<State>, es: seq<Event>) {
    |states| == |es| + 1 && forall i :: 0 <= i < |es| ==> MixedStep(states[i], es[i], states[i + 1])
  }

  /** What the allocator guarantees of its calls (`HeapAllocator.Valid`), with no more frames than the
      physical memory manager has. */
  ghost predicate OfHeap(es: seq<Event>) {
    (exists pages :: KernelHeap.Replays(Calls(es), pages)) && KernelHeap.Maps(Calls(es)) <= FrameAllocator.MAX_FRAMES
  }

  lemma {:induction false} AllocatorIsOfHeap(heap: KernelHeap.HeapAllocator, es: seq<Event>)
    requires heap.Valid() && heap.supply <= FrameAllocator.MAX_FRAMES && Calls(es) == heap.calls
    ensures OfHeap(es)
  {
    assert KernelHeap.Replays(Calls(es), heap.pages);
  }

  ghost predicate FirstPageMapped(s: State) { HeapPage(s.forest.kernel, 0) in s.forest.pages }

  /** No step but its own unmap takes the first page of the heap away. */
  lemma {:induction false} FirstPageKept(s: State, op: Op, s': State)
    requires Good(s) && Step(s, op, s') && FirstPageMapped(s) && op != UnmapKernel(HeapPage(s.forest.kernel, 0))
    ensures s'.forest.kernel == s.forest.kernel && FirstPageMapped(s')
  {
    hide Good, HeapPage, WellFormed, MapStep, UnmapStep, ForkStep, Upper, IsPage, HeldFrame;
    var first := HeapPage(s.forest.kernel, 0);
    assert first.root == s.forest.kernel by { HeapNode(s.forest.kernel, 0); }
    match op {
      case MapUser(page, w) => MapKeepsPage(s, s', page, w, first);
      case UnmapUser(page) => RootsSurvive(s, s', page);
      case MapKernel(page, w) => MapKeepsPage(s, s', page, w, first);
      case UnmapKernel(page) => RootsSurvive(s, s', page);
      case Fork(parent, child) => ForkKeepsPage(s, s', parent, child, first);
      case Destroy(root) =>
      case _ =>
    }
  }

  lemma {:induction false} MapKeepsPage(s: State, s': State, page: Node, w: Word, q: Node)
    requires MapStep(s, s', page, w) && q in s.forest.pages
    ensures s'.forest.kernel == s.forest.kernel && q in s'.forest.pages
  {
    hide WellFormed, MapWrites;
  }

  lemma {:induction false} ForkKeepsPage(s: State, s': State, parent: nat, child: nat, q: Node)
    requires ForkStep(s, s', parent, child) && q in s.forest.pages
    ensures s'.forest.kernel == s.forest.kernel && q in s'.forest.pages
  {
    hide WellFormed, OnlyTwins, AllTwins, FreshHomes;
  }

  // ---------- The calls of the heap ----------

  lemma {:induction false} CallsMore(es: seq<Event>, k: nat)
    requires k < |es|
    ensures Calls(es[..k + 1]) == if es[k].Heap? then Calls(es[..k]) + [es[k].call] else Calls(es[..k])
  {
    assert es[..k + 1][..k] == es[..k];
  }

  /** What was called up to some point is a beginning of all calls. */
  lemma {:induction false} CallsBefore(es: seq<Event>, k: nat)
    requires k <= |es|
    ensures Calls(es[..k]) <= Calls(es)
    decreases |es| - k
  {
    if k == |es| {
      assert es[..k] == es;
    } else {
      CallsBefore(es, k + 1);
      CallsMore(es, k);
    }
  }

  /** A beginning of the calls was in order too. */
  lemma {:induction false} ReplaysBefore(calls: seq<PageCall>, pages: nat, k: nat) returns (before: nat)
    requires KernelHeap.Replays(calls, pages) && k <= |calls|
    ensures KernelHeap.Replays(calls[..k], before)
  {
    if k == |calls| {
      before := pages;
      assert calls[..k] == calls;
    } else {
      var n := |calls| - 1;
      before := ReplaysBefore(calls[..n], if calls[n].Map? then calls[n].k else calls[n].k + 1, k);
      assert calls[..n][..k] == calls[..k];
    }
  }

  /** The heap starts with its first page and never has more pages than it mapped. */
  lemma {:induction false} CallInOrder(calls: seq<PageCall>, pages: nat, k: nat)
    requires KernelHeap.Replays(calls, pages) && k < |calls|
    ensures calls[k] != KernelHeap.Unmap(0) && (k == 0 ==> calls[k] == KernelHeap.Map(0))
    ensures calls[k].k < KernelHeap.Maps(calls)
    decreases |calls|
  {
    FirstPageStays(calls, pages, k);
    KernelHeap.PagesAreMapped(calls, pages);
    var n := |calls| - 1;
    var before := if calls[n].Map? then calls[n].k else calls[n].k + 1;
    KernelHeap.PagesAreMapped(calls[..n], before);
    if k < n { CallInOrder(calls[..n], before, k); }
  }

  /** A call the heap makes: not for its first page again, unless it is the first call, and in its
      PML4 slot. */
  lemma {:induction false} NextCall(es: seq<Event>, k: nat)
    requires OfHeap(es) && k < |es| && es[k].Heap?
    ensures var call := es[k].call;
      call != KernelHeap.Unmap(0) && call.k < SLOT_PAGES && (Calls(es[..k]) == [] ==> call == KernelHeap.Map(0))
  {
    var pages :| KernelHeap.Replays(Calls(es), pages);
    CallsMore(es, k);
    CallsBefore(es, k + 1);
    CallInOrder(Calls(es), pages, |Calls(es[..k])|);
  }

  // ---------- Every event is a step ----------

  function OpOf(s: State, e: Event): Op {
    match e
    case Other(op) => op
    case Heap(call, w) =>
      var page := PageAt(s.forest.kernel, call.k);
      if call.Map? then MapKernel(page, w) else UnmapKernel(page)
  }

  lemma {:induction false} PageIsHeapPage(kernel: nat, k: nat)
    requires k < SLOT_PAGES
    ensures PageAt(kernel, k) == HeapPage(kernel, k)
  {}

  /** The first call of the heap. */
  lemma {:induction false} FirstCallIsStep(s: State, w: Word, s': State)
    requires HeapCall(s, KernelHeap.Map(0), w, s') && !OtherRoots(s.forest)
    ensures Step(s, OpOf(s, Heap(KernelHeap.Map(0), w)), s') && FirstPageMapped(s')
  {
    hide WellFormed, MapWrites;
    PageIsHeapPage(s.forest.kernel, 0);
    HeapNode(s.forest.kernel, 0);
  }

  /** Every other call. */
  lemma {:induction false} LaterCallIsStep(s: State, call: PageCall, w: Word, s': State)
    requires Good(s) && FirstPageMapped(s) && HeapCall(s, call, w, s')
      && call != KernelHeap.Unmap(0) && call.k < SLOT_PAGES
    ensures Step(s, OpOf(s, Heap(call, w)), s') && FirstPageMapped(s')
  {
    hide Good, WellFormed, MapStep, UnmapStep, Step, HeapPage, PageAt;
    PageIsHeapPage(s.forest.kernel, call.k);
    assert WellFormed(s) by { GoodIsWellFormed(s); }
    HeapNode(s.forest.kernel, call.k);
    HeapCallIsStep(s, s', call, if call.Map? then w else READ_WRITE);
    FirstPageKept(s, OpOf(s, Heap(call, w)), s');
  }

  lemma {:induction false} GoodIsWellFormed(s: State)
    requires Good(s)
    ensures WellFormed(s)
  {
    hide WellFormed;
  }

  /** Before and after every event the invariant holds, and from its first call on the heap has its
      first page. */
  lemma {:induction false} MixedRunIsGood(states: seq<State>, es: seq<Event>, k: nat)
    requires MixedRun(states, es) && OfHeap(es) && Good(states[0]) && k < |states|
    ensures Good(states[k]) && (Calls(es[..k]) != [] ==> FirstPageMapped(states[k]))
    ensures k > 0 ==> Step(states[k - 1], OpOf(states[k - 1], es[k - 1]), states[k])
  {
    hide Good, Step, HeapCall, FirstPageMapped, OfHeap;
    if k > 0 {
      var s, e, s' := states[k - 1], es[k - 1], states[k];
      MixedRunIsGood(states, es, k - 1);
      CallsMore(es, k - 1);
      assert MixedStep(s, e, s');
      match e {
        case Other(op) => if FirstPageMapped(s) { FirstPageKept(s, op, s'); }
        case Heap(call, w) =>
          NextCall(es, k - 1);
          if Calls(es[..k - 1]) == [] { FirstCallIsStep(s, w, s'); } else { LaterCallIsStep(s, call, w, s'); }
      }
      StepKeepsGood(s, OpOf(s, e), s');
    }
  }

  /** The operations of a mixed run. */
  function OpsOf(states: seq<State>, es: seq<Event>): (ops: seq<Op>)
    requires |states| == |es| + 1
    ensures |ops| == |es|
  {
    seq(|es|, i requires 0 <= i < |es| => OpOf(states[i], es[i]))
  }

  /** A mixed run is a run, so what holds of all runs holds of it. */
  lemma {:induction false} MixedRunIsRun(states: seq<State>, es: seq<Event>)
    requires MixedRun(states, es) && OfHeap(es) && Good(states[0])
    ensures Run(states, OpsOf(states, es))
  {
    hide Good, Step, OfHeap, MixedStep;
    forall i | 0 <= i < |es| ensures Step(states[i], OpsOf(states, es)[i], states[i + 1]) {
      MixedRunIsGood(states, es, i + 1);
    }
  }

  /** At every moment, whatever processes do and however the heap grows and shrinks, every live root
      translates every page of the kernel half as the kernel root does, and the heap keeps its slot. */
  lemma {:induction false} KernelHalfStaysCoherent(states: seq<State>, es: seq<Event>, k: nat, r: nat, p: Path)
    requires MixedRun(states, es) && OfHeap(es) && Good(states[0]) && k < |states|
    requires states[k].forest.IsRoot(r) && IsPage(p) && Upper(p)
    ensures Translate(states[k].mem, r, p) == Translate(states[k].mem, states[k].forest.kernel, p)
    ensures Calls(es[..k]) != [] ==> Translate(states[k].mem, r, PathOf(HEAP_START)).Some?
  {
    hide Step, OfHeap, MixedStep;
    MixedRunIsGood(states, es, k);
    UpperHalfAgrees(states[k], r, p);
    if Calls(es[..k]) != [] {
      HeapNode(states[k].forest.kernel, 0);
      TranslateIsLookup(states[k].mem, states[k].forest, r, PathOf(HEAP_START));
    }
  }

  // ---------- The frames of the heap ----------

  /** Somebody gives the frame back or makes it a page of a process. */
  predicate LetsGo(e: Event, c: nat) {
    match e
    case Other(GiveBack(f)) => f == c
    case Other(MapUser(_, w)) => FrameOf(w) == c
    case _ => false
  }

  /** A frame that a caller holds stays held until it is let go, whatever the heap does. */
  lemma {:induction false} HeldUntilLetGo(states: seq<State>, es: seq<Event>, i: nat, j: nat, c: nat)
    requires MixedRun(states, es) && OfHeap(es) && Good(states[0]) && i <= j < |states|
    requires c in Held(states[i]) && forall k :: i <= k < j ==> !LetsGo(es[k], c)
    ensures c in Held(states[j])
    decreases j - i
  {
    hide Good, Step, MixedStep, OfHeap, Held;
    if i < j {
      HeldUntilLetGo(states, es, i, j - 1, c);
      MixedRunIsGood(states, es, j - 1);
      MixedRunIsGood(states, es, j);
      HeldLaw(states[j - 1], OpOf(states[j - 1], es[j - 1]), states[j]);
    }
  }

  /** A frame that the heap takes for a page and unmaps again is not free at any later moment: the
      heap has forgotten it, and only who holds a frame can let it go. */
  lemma {:induction false} UnmappedFrameStaysInUse(states: seq<State>, es: seq<Event>, i: nat, u: nat, j: nat, w: Word)
    requires MixedRun(states, es) && OfHeap(es) && Good(states[0]) && i < u < j < |states|
    requires es[i].Heap? && es[i].call.Map? && es[i].entry == w && FrameOf(w) in Held(states[i])
    requires es[u].Heap? && es[u].call == KernelHeap.Unmap(es[i].call.k)
    requires forall k :: i <= k < j ==> !LetsGo(es[k], FrameOf(w))
    ensures FrameOf(w) in states[j].used && FrameOf(w) !in Occupied(states[j].forest)
    ensures PageAt(states[u].forest.kernel, es[i].call.k) !in states[u + 1].forest.pages
  {
    hide Good, Step, HeapCall, OfHeap, PageAt, Held, Occupied, LetsGo;
    HeldUntilLetGo(states, es, i, j, FrameOf(w));
    MixedRunIsGood(states, es, j);
    Partition(states[j]);
    assert MixedStep(states[u], es[u], states[u + 1]);
    UnmappedIsGone(states[u], es[u].call, es[u].entry, states[u + 1]);
  }

  lemma {:induction false} UnmappedIsGone(s: State, call: PageCall, w: Word, s': State)
    requires HeapCall(s, call, w, s') && call.Unmap?
    ensures PageAt(s.forest.kernel, call.k) !in s'.forest.pages
  {
    hide Prune, ShrinkStep;
    var page, f := PageAt(s.forest.kernel, call.k), s.forest;
    if page in f.pages { PruneKeepsTops(f.(pages := f.pages - {page}), page.Parent()); }
  }
}
