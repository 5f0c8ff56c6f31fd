/** Fork and the end of a process as a program sees them: through the walk of the processor and
    in the frames that callers hold. */
module ProcessLaws {
  import opened Words
  import opened Wrappers
  import opened Forest
  import opened ForestSteps
  import opened ForestCopy
  import opened ForestDestroy
  import opened AddressSpaceRuns
  import opened FrameAllocator
  import opened PhysicalMemory
  import opened PageTables
  import MappingLaws
  import HeapRuns

  /** A page of the child is a page of the parent in a frame of its own, with the same flags and
      the same contents. */
  ghost predicate SamePage(s: State, s': State, w: Word, w': Word) {
    PageCopied(s, s', w, w') && FrameOf(w') !in s.used && FrameOf(w') in s'.used
  }

  /** After a fork the child has exactly the parent's pages: in the upper half the same entries, in
      the lower half copies in frames that were free. */
  lemma {:induction false} ForkTranslates(s: State, s': State, parent: nat, child: nat, p: Path)
    requires Good(s) && ForkStep(s, s', parent, child) && IsPage(p)
    ensures var w, w' := Translate(s.mem, parent, p), Translate(s'.mem, child, p);
      if Upper(p) then w' == w
      else (w'.Some? <==> w.Some?) && (w.Some? ==> SamePage(s, s', w.value, w'.value))
  {
    ForkKeeps(s, s', parent, child);
    TranslateIsLookup(s.mem, s.forest, parent, p);
    TranslateIsLookup(s'.mem, s'.forest, child, p);
    ForkChildNew(s, s', parent, child);
    if Upper(p) {
      KernelPageKept(s, s', parent, child, p);
    } else {
      ChildPage(s, s', parent, child, p);
    }
  }

  lemma {:induction false} KernelPageKept(s: State, s': State, parent: nat, child: nat, p: Path)
    requires ForkStep(s, s', parent, child) && child != s.forest.kernel
    ensures var n := Node(s.forest.kernel, p);
      s'.forest.kernel == s.forest.kernel && (n in s'.forest.pages <==> n in s.forest.pages)
      && (n in s.forest.pages ==> s'.forest.pages[n] == s.forest.pages[n])
  {
    hide Shape, Linked, AllTwins, FreshHomes;
  }

  lemma {:induction false} ChildPage(s: State, s': State, parent: nat, child: nat, p: Path)
    requires ForkStep(s, s', parent, child) && child != s.forest.kernel && IsPage(p) && !Upper(p)
    ensures var n, n' := Node(parent, p), Node(child, p);
      (n' in s'.forest.pages <==> n in s.forest.pages)
      && (n in s.forest.pages ==> SamePage(s, s', s.forest.pages[n], s'.forest.pages[n']))
  {
    hide Shape, Linked, PageCopied;
    var n, n' := Node(parent, p), Node(child, p);
    FirstIsKidIndex(p);
    assert Reached(Top, ENTRIES / 2, p);
    if InForest(s.forest, n') { NotChild(s, child, n'); }
    if n in s.forest.pages {
      PageNotTableAfter(s', n');
      assert InForest(s'.forest, n') && !InForest(s.forest, n');
    }
  }

  lemma {:induction false} PageNotTableAfter(s: State, n: Node)
    requires WellFormed(s)
    ensures n in s.forest.pages ==> n !in s.forest.tables && Home(s.forest, n) == FrameOf(s.forest.pages[n])
  {
    hide Linked;
  }

  /** Nobody else notices: every other root translates as before, and the frames that were in use
      hold what they held. */
  lemma {:induction false} ForkUnnoticed(s: State, s': State, parent: nat, child: nat, r: nat, p: Path)
    requires Good(s) && ForkStep(s, s', parent, child) && s.forest.IsRoot(r) && IsPage(p)
    ensures Translate(s'.mem, r, p) == Translate(s.mem, r, p)
    ensures forall c: nat :: c in s.used && c < |s.mem| ==> s'.mem[c] == s.mem[c]
  {
    ForkKeeps(s, s', parent, child);
    TranslateIsLookup(s.mem, s.forest, r, p);
    TranslateIsLookup(s'.mem, s'.forest, r, p);
    ForkChildNew(s, s', parent, child);
    OldPageKept(s, s', parent, child, s.forest.Backing(r, p));
  }

  lemma {:induction false} OldPageKept(s: State, s': State, parent: nat, child: nat, n: Node)
    requires ForkStep(s, s', parent, child) && n.root != child
    ensures s'.forest.kernel == s.forest.kernel && (forall r: nat :: s.forest.IsRoot(r) ==> s'.forest.IsRoot(r))
    ensures n in s'.forest.pages <==> n in s.forest.pages
    ensures n in s.forest.pages ==> s'.forest.pages[n] == s.forest.pages[n]
  {
    hide Shape, Linked, AllTwins, FreshHomes;
  }

  /** `destroy` gives every frame of the process back exactly when nothing is mapped through the
      slot that it skips; what is mapped there is lost to everybody. */
  lemma {:induction false} DestroyLosesIff(s: State, s': State, r: nat)
    requires Good(s) && DestroyStep(s, s', r)
    ensures Held(s') == Held(s) <==> Node(r, Down(Top, SKIPPED_SLOT)) !in s.forest.tables
    ensures Node(r, Down(Top, SKIPPED_SLOT)) !in s.forest.tables
      ==> s'.used == s.used - Homes(s.forest, set m | m in Nodes(s.forest) && m.root == r)
  {
    StepKeepsGood(s, Destroy(r), s');
    HeldLaw(s, Destroy(r), s');
    Partition(s);
    LeakedIff(s.forest, r);
    LeakedIsOccupied(s, r);
  }

  lemma {:induction false} LeakedIff(f: Forest, r: nat)
    requires Shape(f)
    ensures Leaked(f, r) == {} <==> Node(r, Down(Top, SKIPPED_SLOT)) !in f.tables
    ensures Leaked(f, r) == {} ==> Doomed(f, r) == set m | m in Nodes(f) && m.root == r
  {
    var slot := Node(r, Down(Top, SKIPPED_SLOT));
    forall m | m in Nodes(f) && m.root == r && m.path.Down? && First(m.path) == SKIPPED_SLOT
      ensures slot in f.tables && Home(f, m) in Leaked(f, r)
    {
      ThroughFirst(m.path);
      if m.path != slot.path { AncestorsExist(f, m, slot.path); }
    }
  }

  lemma {:induction false} LeakedIsOccupied(s: State, r: nat)
    requires Good(s) && s.forest.IsRoot(r) && r != s.forest.kernel
    ensures Leaked(s.forest, r) <= Occupied(s.forest)
  {
    hide Shape, Linked, NoEmptyTables, SharedTop, KernelIsUpper, PagesOwned;
    var f := s.forest;
    forall c | c in Leaked(f, r) ensures c in Occupied(f) {
      var m :| m in Nodes(f) && m.root == r && m.path.Down? && First(m.path) == SKIPPED_SLOT && Home(f, m) == c;
      if m in f.tables { assert f.tables[m] in f.tables.Values; }
    }
  }

  // ---------- The operations in use ----------

  /** The memory manager between two calls. */
  ghost predicate Steady(spaces: AddressSpaces)
    reads spaces, spaces.memory.words, spaces.pmm.allocator, spaces.pmm.allocator.bitmap.data
  {
    spaces.Valid() && Good(spaces.Now())
  }

  /** `fork` needs nothing from its caller but a live root. */
  method ForkRoot(spaces: AddressSpaces, parent: nat) returns (child: Option<nat>)
    requires Steady(spaces) && spaces.forest.IsRoot(parent)
    modifies spaces, spaces.memory.words, spaces.pmm.allocator, spaces.pmm.allocator.bitmap.data
    ensures child.Some? ==> Steady(spaces) && Step(old(spaces.Now()), Fork(parent, child.value), spaces.Now())
    ensures child.None? ==> spaces.Exhausted()
  {
    hide Good, WellFormed, ForkStep;
    ghost var s := spaces.Now();
    ForkPossible(s, parent);
    child := spaces.InitFrom(parent);
    if child.Some? { StepKeepsGood(s, Fork(parent, child.value), spaces.Now()); }
  }

  /** A frame just taken, and what taking it changes. */
  function Taken(s: State, c: nat): State { State(s.mem, s.forest, s.used + {c}) }

  lemma {:induction false} FreshIsHeld(s: State, c: nat)
    requires Good(s) && c !in s.used
    ensures Step(s, Take(c), Taken(s, c)) && Good(Taken(s, c)) && HeldFrame(Taken(s, c), c)
  {
    hide Shape, Linked, NoEmptyTables, SharedTop, KernelIsUpper;
    StepKeepsGood(s, Take(c), Taken(s, c));
  }

  /** Taking a frame and mapping it in the lower half of a process; where the page is mapped
      already, the frame stays the caller's. */
  method MapFreshPage(spaces: AddressSpaces, root: nat, vaddr: Word, flags: Word) returns (frame: Option<nat>)
    requires Steady(spaces) && spaces.forest.IsRoot(root) && root != spaces.forest.kernel && !Upper(PathOf(vaddr))
    requires flags == FlagsOf(flags) && Present(flags)
    modifies spaces, spaces.memory.words, spaces.pmm.allocator, spaces.pmm.allocator.bitmap.data
    ensures frame.Some? ==> Steady(spaces) && frame.value < MAX_FRAMES && frame.value !in old(spaces.pmm.Used())
    ensures frame.Some? ==> Step(Taken(old(spaces.Now()), frame.value),
      MapUser(Node(root, PathOf(vaddr)), Repoint(flags, frame.value)), spaces.Now())
    ensures frame.None? ==> spaces.Exhausted()
  {
    hide Good, WellFormed, MapStep, HeldFrame, Taken, Present, FlagsOf, FrameOf, Entry, PathOf, Upper;
    ghost var s := spaces.Now();
    frame := spaces.pmm.AllocateFrame();
    if frame.Some? {
      FreshIsHeld(s, frame.value);
      TakenIs(s, frame.value, spaces.Now());
      PackUnpack(frame.value, flags);
      var ok := spaces.MapPage(root, vaddr, frame.value * PAGE_SIZE, flags);
      if !ok {
        return None;
      }
      StepKeepsGood(Taken(s, frame.value),
        MapUser(Node(root, PathOf(vaddr)), Repoint(flags, frame.value)), spaces.Now());
    }
  }

  lemma {:induction false} TakenIs(s: State, c: nat, s': State)
    requires s' == State(s.mem, s.forest, s.used + {c}) && Good(Taken(s, c))
    ensures s' == Taken(s, c) && WellFormed(s')
  {
    hide WellFormed;
  }

  /** The end of a process always succeeds: `destroy` never meets the double-free panic. */
  method EndProcess(spaces: AddressSpaces, root: nat) returns (ok: bool)
    requires Steady(spaces) && spaces.forest.IsRoot(root) && root != spaces.forest.kernel
    modifies spaces`forest, spaces.pmm.allocator.bitmap.data
    ensures ok && Steady(spaces) && Step(old(spaces.Now()), Destroy(root), spaces.Now())
  {
    hide Good, WellFormed, DestroyStep, PagesApart, Distinct;
    ghost var s := spaces.Now();
    DestroySucceeds(s, root);
    ok := spaces.Destroy(root);
    StepKeepsGood(s, Destroy(root), spaces.Now());
  }

  /** Boot, on any memory map with a usable frame. */
  method Boot(memmap: seq<MemmapEntry>) returns (spaces: AddressSpaces, kernel: nat)
    requires exists i, f: nat :: 0 <= i < |memmap| && f < MAX_FRAMES && Covers(memmap[i], f)
    ensures fresh(spaces) && fresh(spaces.memory.words)
      && fresh(spaces.pmm.allocator) && fresh(spaces.pmm.allocator.bitmap.data)
    ensures Steady(spaces) && spaces.forest.IsRoot(kernel)
      && kernel == spaces.forest.kernel && spaces.forest.pages == map[]
    ensures forall c: nat :: c < MAX_FRAMES && c !in spaces.pmm.Used() ==>
      exists i :: 0 <= i < |memmap| && Covers(memmap[i], c)
  {
    var pmm := new Pmm(memmap);
    ghost var i, f: nat :| 0 <= i < |memmap| && f < MAX_FRAMES && Covers(memmap[i], f);
    var memory := new Memory(MAX_FRAMES);
    assert f !in pmm.Used();
    spaces := new AddressSpaces(memory, pmm);
    kernel := spaces.kernelRoot;
    BootIsGood(spaces.Now());
  }

  /** A process from its fork to its end, with a page of its own in between: the tables are as they
      were, and of the frames only those of callers may differ. */
  method LiveAndDie(spaces: AddressSpaces, parent: nat, vaddr: Word, flags: Word) returns (ok: bool)
    requires Steady(spaces) && spaces.forest.IsRoot(parent)
      && !Upper(PathOf(vaddr)) && flags == FlagsOf(flags) && Present(flags)
    modifies spaces, spaces.memory.words, spaces.pmm.allocator, spaces.pmm.allocator.bitmap.data
    ensures if ok then Steady(spaces) else spaces.Exhausted()
    ensures ok ==> spaces.forest == old(spaces.forest)
    ensures ok ==> spaces.pmm.Used() == old(spaces.pmm.Used()) - Held(old(spaces.Now())) + Held(spaces.Now())
  {
    hide Good, WellFormed, Step, Held, Taken, PathOf, Upper, FlagsOf, Present;
    ghost var s := spaces.Now();
    var child := ForkRoot(spaces, parent);
    if child.None? {
      return false;
    }
    ghost var s1 := spaces.Now();
    ForkIsFresh(s, s1, parent, child.value);
    var frame := MapFreshPage(spaces, child.value, vaddr, flags);
    if frame.None? {
      return false;
    }
    ghost var s2, page, w := spaces.Now(), Node(child.value, PathOf(vaddr)), Repoint(flags, frame.value);
    RootStays(s1, s2, child.value, frame.value, page, w);
    ok := EndProcess(spaces, child.value);
    WholeLife(s, s1, s2, spaces.Now(), parent, child.value, frame.value, page, w);
  }

  lemma {:induction false} RootStays(s1: State, s2: State, child: nat, c: nat, page: Node, w: Word)
    requires s1.forest.IsRoot(child) && child != s1.forest.kernel && Step(Taken(s1, c), MapUser(page, w), s2)
    ensures s2.forest.IsRoot(child) && child != s2.forest.kernel
  {
    hide WellFormed;
    MappingLaws.RootsKept(Taken(s1, c), s2, page, w);
  }

  lemma {:induction false} WholeLife(s: State, s1: State, s2: State,
    s3: State, parent: nat, child: nat, c: nat, page: Node, w: Word)
    requires Good(s) && Step(s, Fork(parent, child), s1) && c !in s1.used && page.root == child
    requires Step(Taken(s1, c), MapUser(page, w), s2) && Step(s2, Destroy(child), s3)
    ensures s3.forest == s.forest && s3.used == (s.used - Held(s)) + Held(s3)
  {
    hide Good, ForkStep, MapStep, DestroyStep, HeldFrame, Held;
    var states, ops := [s1, Taken(s1, c), s2], [Take(c), MapUser(page, w)];
    assert Step(s1, Take(c), Taken(s1, c));
    assert Run(states, ops);
    ProcessLifetime(s, states, ops, parent, child, s3);
  }

  lemma {:induction false} ForkIsFresh(s: State, s': State, parent: nat, child: nat)
    requires Good(s) && Step(s, Fork(parent, child), s')
    ensures ForkStep(s, s', parent, child) && s'.forest.IsRoot(child) && child != s'.forest.kernel
  {
    ForkChildNew(s, s', parent, child);
  }

  // ---------- A process that loses frames ----------

  /** An address behind the slot that `destroy` skips. */
  const SKIPPED_ADDRESS: Word := 0x7f00_0000_0000

  lemma {:induction false} SkippedPath()
    ensures var p := PathOf(SKIPPED_ADDRESS); IsPage(p) && p.Down? && First(p) == SKIPPED_SLOT && !Upper(p)
  {
    hide PathOf;
    HeapRuns.FirstOfPathOf(SKIPPED_ADDRESS);
  }

  /** A process forked from the kernel root, with one page at that address, is destroyed: the frame of
      the page stays in use although nothing is in it and nobody can give it back. */
  method LoseFrame(spaces: AddressSpaces, kernel: nat) returns (ok: bool)
    requires Steady(spaces) && kernel == spaces.forest.kernel
    modifies spaces, spaces.memory.words, spaces.pmm.allocator, spaces.pmm.allocator.bitmap.data
    ensures if ok then Steady(spaces) else spaces.Exhausted()
    ensures ok ==> spaces.forest == old(spaces.forest) && old(Held(spaces.Now())) < Held(spaces.Now())
    ensures ok ==> exists c: nat :: c < MAX_FRAMES && c in Held(spaces.Now()) && c !in old(spaces.pmm.Used())
  {
    hide Good, WellFormed, Step, Held, Taken, PathOf, Upper;
    ghost var s := spaces.Now();
    assert s.forest.IsRoot(s.forest.kernel) by { KernelIsRoot(s); }
    var child := ForkRoot(spaces, kernel);
    if child.None? {
      return false;
    }
    ghost var s1 := spaces.Now();
    ForkIsFresh(s, s1, kernel, child.value);
    SkippedPath();
    assert FlagsOf(READ_WRITE_USER) == READ_WRITE_USER;
    var frame := MapFreshPage(spaces, child.value, SKIPPED_ADDRESS, READ_WRITE_USER);
    if frame.None? {
      return false;
    }
    ghost var s2, page, w := spaces.Now(), Node(child.value, PathOf(SKIPPED_ADDRESS)),
      Repoint(READ_WRITE_USER, frame.value);
    PackUnpack(frame.value, READ_WRITE_USER);
    RootStays(s1, s2, child.value, frame.value, page, w);
    ok := EndProcess(spaces, child.value);
    WholeLife(s, s1, s2, spaces.Now(), kernel, child.value, frame.value, page, w);
    FrameLost(s, s1, s2, spaces.Now(), child.value, frame.value, page, w);
  }

  lemma {:induction false} KernelIsRoot(s: State)
    requires Good(s)
    ensures s.forest.IsRoot(s.forest.kernel)
  {
    hide Linked;
  }

  /** The page is new to the child: the kernel root has no page in its lower half. */
  lemma {:induction false} NothingToCopy(s: State, s1: State, child: nat, p: Path)
    requires Good(s) && Step(s, Fork(s.forest.kernel, child), s1) && p.Down? && !Upper(p)
    ensures Node(child, p) !in s1.forest.pages && s.used <= s1.used
  {
    hide WellFormed, NoEmptyTables, SharedTop, PagesOwned, AllTwins, FreshHomes;
    NoLowerPage(s, p);
    ForkedIsNew(s, s1, child, Node(child, p));
  }

  lemma {:induction false} NoLowerPage(s: State, p: Path)
    requires Good(s) && p.Down? && !Upper(p)
    ensures Node(s.forest.kernel, p) !in s.forest.pages
  {
    hide WellFormed, NoEmptyTables, SharedTop, PagesOwned;
    var n := Node(s.forest.kernel, p);
    assert n in s.forest.pages ==> InForest(s.forest, n);
  }

  lemma {:induction false} ForkedIsNew(s: State, s1: State, child: nat, n: Node)
    requires Good(s) && Step(s, Fork(s.forest.kernel, child), s1) && n.root == child
    ensures n !in s.forest.pages
  {
    hide WellFormed, NoEmptyTables, SharedTop, PagesOwned, Copied, KernelIsUpper;
    RootVacant(s, child);
    AtTop(n.path);
    assert n in s.forest.pages ==> !AtOrBelow(Top, n.path);
  }

  lemma {:induction false} FrameLost(s: State, s1: State, s2: State, s3: State, child: nat, c: nat, page: Node, w: Word)
    requires Good(s) && Step(s, Fork(s.forest.kernel, child), s1) && c !in s1.used && FrameOf(w) == c
    requires Step(Taken(s1, c), MapUser(page, w), s2) && Step(s2, Destroy(child), s3)
    requires page.root == child && page.path.Down? && First(page.path) == SKIPPED_SLOT && !Upper(page.path)
    ensures c !in s.used && c in Held(s3) && Held(s) < Held(s3)
  {
    hide Good, Step, Held, Leaked, FrameOf, Upper;
    var t := Taken(s1, c);
    NothingToCopy(s, s1, child, page.path);
    StepKeepsGood(s, Fork(s.forest.kernel, child), s1);
    HeldLaw(s, Fork(s.forest.kernel, child), s1);
    FreshIsHeld(s1, c);
    HeldLaw(s1, Take(c), t);
    HeldLaw(t, MapUser(page, w), s2);
    StepKeepsGood(t, MapUser(page, w), s2);
    HeldLaw(s2, Destroy(child), s3);
    HeldIsUsed(s1);
    MappedPage(t, page, w, s2);
    PageLeaks(s2, page, w);
  }

  lemma {:induction false} HeldIsUsed(s: State)
    ensures Held(s) <= s.used
  {}

  lemma {:induction false} MappedPage(s: State, page: Node, w: Word, s': State)
    requires Step(s, MapUser(page, w), s') && page !in s.forest.pages
    ensures page in s'.forest.pages && s'.forest.pages[page] == w && WellFormed(s')
  {
    hide WellFormed, GrowTables, MapWrites, HeldFrame;
  }

  /** A page in the skipped slot is among what `destroy` forgets. */
  lemma {:induction false} PageLeaks(s: State, page: Node, w: Word)
    requires WellFormed(s) && page in s.forest.pages && s.forest.pages[page] == w
    requires page.path.Down? && First(page.path) == SKIPPED_SLOT
    ensures FrameOf(w) in Leaked(s.forest, page.root)
  {
    PageNotTableAfter(s, page);
    hide WellFormed, FrameOf;
    assert page in Nodes(s.forest) && Home(s.forest, page) == FrameOf(w);
  }

  /** From boot: afterwards a frame of usable memory is in use without a table or a page in it. */
  method LoseFrameAfterBoot(memmap: seq<MemmapEntry>) returns (spaces: AddressSpaces, ok: bool)
    requires exists i, f: nat :: 0 <= i < |memmap| && f < MAX_FRAMES && Covers(memmap[i], f)
    ensures if ok then Steady(spaces) else spaces.Exhausted()
    ensures ok ==> spaces.forest.pages == map[] && exists c: nat ::
      c < MAX_FRAMES && c in Held(spaces.Now()) && exists i :: 0 <= i < |memmap| && Covers(memmap[i], c)
  {
    hide Good, WellFormed, Held, Covers;
    var kernel;
    spaces, kernel := Boot(memmap);
    ok := LoseFrame(spaces, kernel);
  }
}
