/** `PML4T`: the four-level page tables of every address space, in one physical memory. */
module PageTables {
  import opened Words
  import opened Wrappers
  import opened PhysicalMemory
  import opened FrameAllocator
  import opened Forest
  import opened ForestSteps
  import opened ForestCopy
  import opened ForestDestroy

  /** The slot kernel heap addresses use in the PML4. */
  const HEAP_PML4T_IDX := 509

  /** The tables below the PML4 on the way to a page. */
  datatype Tables = Tables(pdpt: nat, pdt: nat, pt: nat)

  /** The state after `GetOrCreateTable` has returned `r`: an absent table is a zeroed frame with an
      entry that points to it. */
  ghost function TableMade(s: State, parent: nat, idx: nat, r: Option<nat>): State
    requires parent < |s.mem| && idx < ENTRIES
    requires r.Some? && !Present(s.mem[parent][idx]) ==> r.value < |s.mem| && r.value < TWO_40
  {
    if Present(s.mem[parent][idx]) || r.None? then s
    else
      State(Store(s.mem, parent, idx, Entry(r.value * PAGE_SIZE, READ_WRITE_USER))[r.value := ZeroFrame()], s.forest,
            s.used + {r.value})
  }

  /** The address spaces of the system. A `PML4T` object is the frame of its root table. */
  class AddressSpaces {
    const memory: Memory
    const pmm: Pmm
    /** The root made at boot. */
    const kernelRoot: nat
    ghost var forest: Forest

    /** Boot: the kernel root, a zeroed frame, is the only table (`PML4T::init` without a parent).
        The panic when no frame is free is excluded here. */
    constructor (memory: Memory, pmm: Pmm)
      requires memory.Valid() && pmm.Valid() && |memory.View()| == MAX_FRAMES
      requires exists c: nat :: c < MAX_FRAMES && c !in pmm.Used()
      modifies memory.words, pmm.allocator, pmm.allocator.bitmap.data
      ensures Valid() && this.memory == memory && this.pmm == pmm
      ensures forest.kernel !in old(pmm.Used()) && pmm.Used() == old(pmm.Used()) + {forest.kernel}
      ensures forest == Forest(forest.kernel, map[Node(forest.kernel, Top) := forest.kernel], map[])
      ensures memory.View() == old(memory.View())[forest.kernel := ZeroFrame()] && kernelRoot == forest.kernel
    {
      this.memory, this.pmm := memory, pmm;
      var frame := pmm.AllocateFrame();
      kernelRoot := frame.value;
      new;
      memory.Zero(frame.value);
      forest := Forest(frame.value, map[Node(frame.value, Top) := frame.value], map[]);
    }

    ghost predicate Valid()
      reads this, memory.words, pmm.allocator, pmm.allocator.bitmap.data
    {
      && Separate() && memory.Valid() && pmm.Valid() && |memory.View()| == MAX_FRAMES
      && WellFormed(Now())
    }

    /** The parts are different objects, as their types say. */
    ghost predicate Separate() {
      && (this as object) != memory.words && (this as object) != pmm.allocator
        && (this as object) != pmm.allocator.bitmap.data
      && (memory.words as object) != pmm.allocator && (memory.words as object) != pmm.allocator.bitmap.data
      && (pmm.allocator as object) != pmm.allocator.bitmap.data
    }

    ghost function Now(): State
      requires memory.Valid() && pmm.Valid()
      reads this, memory.words, pmm.allocator, pmm.allocator.bitmap.data
    {
      State(memory.View(), forest, pmm.Used())
    }

    /** Every frame is in use, the situation in which `allocateFrame` panics. */
    ghost predicate OutOfMemory()
      requires pmm.Valid()
      reads pmm.allocator, pmm.allocator.bitmap.data
    {
      forall c: nat :: c < MAX_FRAMES ==> c in pmm.Used()
    }

    /** The table in slot `idx` of `parent`, created when absent, whoever the table `parent` belongs
        to. `None` is the out-of-memory panic. */
    method GetOrCreateTable(parent: nat, idx: nat) returns (r: Option<nat>)
      requires Separate() && memory.Valid() && pmm.Valid() && |memory.View()| == MAX_FRAMES
      requires parent < MAX_FRAMES && idx < ENTRIES
      modifies memory.words, pmm.allocator, pmm.allocator.bitmap.data
      ensures memory.Valid() && pmm.Valid()
      ensures r.Some? && !Present(old(memory.View())[parent][idx]) ==>
        r.value < MAX_FRAMES && r.value !in old(pmm.Used())
      ensures Now() == TableMade(old(Now()), parent, idx, r)
      ensures r == None ==> OutOfMemory()
      ensures Present(old(memory.View())[parent][idx]) ==> r == Some(FrameOf(old(memory.View())[parent][idx]))
    {
      hide FrameOf, Entry, Present;
      var present := memory.IsEntryPresent(parent, idx);
      if !present {
        var frame := pmm.AllocateFrame();
        if frame.None? {
          return None;
        }
        TableEntry(frame.value);
        memory.Set(parent, idx, Entry(frame.value * PAGE_SIZE, READ_WRITE_USER));
        var e := memory.At(parent, idx);
        memory.Zero(FrameOf(e));
        return frame;
      }
      var entry := memory.At(parent, idx);
      r := Some(FrameOf(entry));
    }

    /** `GetOrCreateTable` on the way to a page. The ghost node `n` says where the table stands; for
        the root of a process it may be the kernel's, in a slot that the two share. */
    method Descend(parent: nat, idx: nat, ghost n: Node, ghost page: Node) returns (r: Option<nat>)
      requires Valid()
      requires n in forest.tables && Depth(n.path) < 3 && idx < ENTRIES
      requires forest.OwnedSlot(n, idx) && (forest.tables[n] == parent || Shares(parent, n, idx))
      requires page.root == n.root && Below(n.Kid(idx).path, page.path)
      requires n.path.Top? ==> First(page.path) == idx
      modifies this, memory.words, pmm.allocator, pmm.allocator.bitmap.data
      ensures Valid()
      ensures r.Some? ==> n.Kid(idx) in forest.tables && forest.tables[n.Kid(idx)] == r.value
      ensures r.Some? ==> GrowStep(old(Now()), Now(), page)
      ensures r.None? ==> Now() == old(Now()) && OutOfMemory()
    {
      hide GrowStep, WellFormed, Entry, FrameOf, Present;
      ghost var s := Now();
      TablesInside(s, n, idx);
      if forest.tables[n] != parent { SharedEntry(s, parent, idx); }
      GrowRefl(s, page);
      r := GetOrCreateTable(parent, idx);
      if r.Some? && n.Kid(idx) !in s.forest.tables {
        ghost var s' := InstallTable(s, n, idx, r.value, Entry(r.value * PAGE_SIZE, READ_WRITE_USER), page);
        forest := s'.forest;
        assert Now() == s';
      }
    }

    /** The root shares the slot of the kernel root, and there is a table in it. */
    ghost predicate Shares(root: nat, n: Node, idx: nat)
      requires Valid()
      reads this, memory.words, pmm.allocator, pmm.allocator.bitmap.data
    {
      && n == Node(forest.kernel, Top) && n.Kid(idx) in forest.tables && idx >= ENTRIES / 2
      && forest.IsRoot(root) && SharedTop(memory.View(), forest)
    }

    static lemma {:induction false} SharedEntry(s: State, root: nat, i: nat)
      requires WellFormed(s) && s.forest.IsRoot(root) && SharedTop(s.mem, s.forest) && ENTRIES / 2 <= i < ENTRIES
      ensures root < |s.mem| && s.forest.IsRoot(s.forest.kernel)
      ensures s.forest.tables[Node(s.forest.kernel, Top)] < |s.mem|
      ensures s.mem[root][i] == s.mem[s.forest.tables[Node(s.forest.kernel, Top)]][i]
    {
      assert TopEntry(s.mem, s.forest, root, i) == TopEntry(s.mem, s.forest, s.forest.kernel, i);
    }

    static lemma {:induction false} TablesInside(s: State, n: Node, i: nat)
      requires WellFormed(s) && n in s.forest.tables && s.forest.OwnedSlot(n, i)
      ensures s.forest.tables[n] < |s.mem| && SlotOK(s.forest, n, i, s.mem[s.forest.tables[n]][i])
    {}

    static lemma {:induction false} GrowRefl(s: State, page: Node)
      requires WellFormed(s) && page.path.Down?
      ensures GrowStep(s, s, page)
    {}

    static lemma {:induction false} InstallTable(s: State, n: Node, i: nat, c: nat, w: Word, page: Node)
      returns (s': State)
      requires WellFormed(s) && n in s.forest.tables && Depth(n.path) < 3
        && s.forest.OwnedSlot(n, i) && n.Kid(i) !in s.forest.tables
      requires page.root == n.root && Below(n.Kid(i).path, page.path) && (n.path.Top? ==> First(page.path) == i)
      requires c !in s.used && c < |s.mem| && c < TWO_40 && w == Entry(c * PAGE_SIZE, READ_WRITE_USER)
      ensures FrameOf(w) == c
      ensures s'.used == s.used + {c} && s'.mem == Store(s.mem, s.forest.tables[n], i, w)[c := ZeroFrame()]
      ensures n.Kid(i) in s'.forest.tables && s'.forest.tables[n.Kid(i)] == c
      ensures WellFormed(s') && GrowStep(s, s', page)
    {
      TableEntry(c);
      var f' := AddTable(s.mem, s.forest, n, i, c, w);
      s' := State(Store(s.mem, s.forest.tables[n], i, w)[c := ZeroFrame()], f', s.used + {c});
      AddTableIsGrowth(s, s', n, i, c, w, page);
    }

    static lemma {:induction false} AddTableIsGrowth(s: State, s': State, n: Node, i: nat, c: nat, w: Word, page: Node)
      requires WellFormed(s) && WellFormed(s')
      requires n in s.forest.tables && i < ENTRIES && n.Kid(i) !in s.forest.tables
      requires page.root == n.root && Below(n.Kid(i).path, page.path) && (n.path.Top? ==> First(page.path) == i)
      requires s.forest.OwnedSlot(n, i) && s.forest.tables[n] < |s.mem|
      requires c !in s.used && c < |s.mem| && s'.used == s.used + {c}
      requires s'.forest == s.forest.(tables := s.forest.tables[n.Kid(i) := c])
      requires s'.mem == Store(s.mem, s.forest.tables[n], i, w)[c := ZeroFrame()]
      ensures GrowStep(s, s', page)
    {
      hide Shape, Linked;
      assert s'.used == s.used + s'.forest.tables.Values by {
        assert s'.forest.tables[n.Kid(i)] == c;
      }
      assert n.path.Top? ==> TopSlot(page.path) == n.Kid(i).path;
      StoreKeepsTop(s, s', n, i, w, Some(c));
    }

    /** Map the page of `vaddr` to `paddr`; an existing mapping stays. `ok` is false for the
        out-of-memory panic. Through the root of a process an upper-half page is mapped in the tables
        of the kernel, if its PML4 slot has one; the other case is that of `KernelHalf.UpperTableIff`. */
    method MapPage(root: nat, vaddr: Word, paddr: Word, flags: Word) returns (ok: bool)
      requires Valid() && forest.IsRoot(root)
      requires root == forest.kernel || !Upper(PathOf(vaddr)) || UpperShared(vaddr)
      modifies this, memory.words, pmm.allocator, pmm.allocator.bitmap.data
      ensures Valid()
      ensures ok ==> MapStep(old(Now()), Now(), old(forest).Backing(root, PathOf(vaddr)), Entry(paddr, flags))
      ensures !ok ==> OutOfMemory() && Now().forest.pages == old(Now().forest.pages)
    {
      hide SharedTop;
      var pml4tIdx, pdptIdx, pdtIdx, ptIdx := Indices(vaddr);
      PathSpine(pml4tIdx, pdptIdx, pdtIdx, ptIdx);
      ghost var page := forest.Backing(root, PathOf(vaddr));
      ghost var n0 := Node(page.root, Top);
      ghost var n1 := n0.Kid(pml4tIdx);
      assert page == n1.Kid(pdptIdx).Kid(pdtIdx).Kid(ptIdx);
      ghost var s := Now();
      var pdpt := Descend(root, pml4tIdx, n0, page);
      if pdpt.None? {
        return false;
      }
      ghost var s1 := Now();
      var pdt := Descend(pdpt.value, pdptIdx, n1, page);
      if pdt.None? {
        return false;
      }
      GrowTrans(s, s1, Now(), page);
      ghost var s2 := Now();
      var pt := Descend(pdt.value, pdtIdx, n1.Kid(pdptIdx), page);
      if pt.None? {
        return false;
      }
      GrowTrans(s, s2, Now(), page);
      SetIfAbsent(pt.value, ptIdx, Entry(paddr, flags), n1.Kid(pdptIdx).Kid(pdtIdx), s);
      ok := true;
    }

    /** The upper halves agree and the PML4 slot of the address has a table. */
    ghost predicate UpperShared(vaddr: Word)
      requires Valid()
      reads this, memory.words, pmm.allocator, pmm.allocator.bitmap.data
    {
      SharedTop(memory.View(), forest) && Node(forest.kernel, TopSlot(PathOf(vaddr))) in forest.tables
    }

    /** The last lines of `mapPage`: write the entry unless a present one is there. The ghost
        state `s` is the one before the tables on the way were made. */
    method SetIfAbsent(pt: nat, ptIdx: nat, w: Word, ghost n: Node, ghost s: State)
      requires Valid() && ptIdx < ENTRIES
      requires n in forest.tables && forest.tables[n] == pt && Depth(n.path) == 3 && n.path.Down?
      requires GrowStep(s, Now(), n.Kid(ptIdx))
      modifies this`forest, memory.words
      ensures Valid() && pmm.Used() == old(pmm.Used())
      ensures MapStep(s, Now(), n.Kid(ptIdx), w)
    {
      hide GrowStep, MapStep;
      ghost var s3 := Now();
      assert SlotOK(forest, n, ptIdx, memory.View()[pt][ptIdx]);
      var present := memory.IsEntryPresent(pt, ptIdx);
      if !present {
        memory.Set(pt, ptIdx, w);
        forest := AddPage(s3.mem, s3.forest, n, ptIdx, w);
      }
      GrowThenEntry(s, s3, Now(), n, ptIdx, w);
    }

    /** The four table indices of an address, as every operation here computes them. */
    static method Indices(vaddr: Word) returns (pml4tIdx: nat, pdptIdx: nat, pdtIdx: nat, ptIdx: nat)
      ensures pml4tIdx < ENTRIES && pdptIdx < ENTRIES && pdtIdx < ENTRIES && ptIdx < ENTRIES
      ensures PathOf(vaddr) == Down(Down(Down(Down(Top, pml4tIdx), pdptIdx), pdtIdx), ptIdx)
      ensures First(PathOf(vaddr)) == pml4tIdx
    {
      pml4tIdx := vaddr / 0x80_0000_0000 % ENTRIES;
      pdptIdx := vaddr / 0x4000_0000 % ENTRIES;
      pdtIdx := vaddr / 0x20_0000 % ENTRIES;
      ptIdx := vaddr / 0x1000 % ENTRIES;
      PathSpine(pml4tIdx, pdptIdx, pdtIdx, ptIdx);
    }

    /** The nodes a walk to a page passes. */
    static lemma {:induction false} PathSpine(i: nat, j: nat, k: nat, l: nat)
      requires i < ENTRIES && j < ENTRIES && k < ENTRIES && l < ENTRIES
      ensures var p1 := Down(Top, i); var p2 := Down(p1, j); var p3 := Down(p2, k); var p4 := Down(p3, l);
              && Below(Top, p4) && Below(p1, p4) && Below(p2, p4) && Below(p3, p4)
              && Depth(p1) == 1 && Depth(p2) == 2 && Depth(p3) == 3 && First(p4) == i
              && Bounded(p1) && Bounded(p2) && Bounded(p3)
    {
      var p1 := Down(Top, i);
      var p2 := Down(p1, j);
      var p3 := Down(p2, k);
      assert Below(p2, p3) && Below(p1, p2) && Below(Top, p1) && Below(Top, p2) && Below(p1, p3) && Below(Top, p3);
      assert First(p1) == i && First(p2) == i && First(p3) == i;
    }

    static lemma {:induction false} GrowThenEntry(s: State, s3: State, s': State, n: Node, i: nat, w: Word)
      requires GrowStep(s, s3, n.Kid(i)) && WellFormed(s')
      requires n in s3.forest.tables && n.path.Down? && i < ENTRIES
      requires s'.used == s3.used
      requires if n.Kid(i) in s3.forest.pages then s' == s3 else
               && s'.forest == (if Present(w) then s3.forest.(pages := s3.forest.pages[n.Kid(i) := w]) else s3.forest)
               && s'.mem == Store(s3.mem, s3.forest.tables[n], i, w)
      ensures MapStep(s, s', n.Kid(i), w)
    {
      if n.Kid(i) !in s3.forest.pages {
        EntryWrites(s3, s', n, i, w);
        assert GrowTables(s3.forest, s'.forest, s3.used, n.Kid(i));
        MapWritesTrans(s, s3, s', n.Kid(i));
        GrowTablesTrans(s.forest, s3.forest, s'.forest, s.used, s3.used, n.Kid(i));
      }
    }

    static lemma {:induction false} EntryWrites(s: State, s': State, n: Node, i: nat, w: Word)
      requires WellFormed(s) && WellFormed(s') && n in s.forest.tables && n.path.Down? && i < ENTRIES
      requires s'.forest.tables == s.forest.tables && s'.mem == Store(s.mem, s.forest.tables[n], i, w)
      ensures MapWrites(s, s', n.Kid(i))
    {
      StoreKeepsTop(s, s', n, i, w, None);
    }

    /** The physical address of `vaddr`, or 0 when the walk stops before the last level. The last
        entry is used without looking at its Present bit. */
    method VirtToPhys(root: nat, vaddr: Word) returns (r: nat)
      requires Valid() && forest.IsRoot(root)
      requires root == forest.kernel || !Upper(PathOf(vaddr)) || SharedTop(memory.View(), forest)
      ensures Translate(memory.View(), root, PathOf(vaddr)).Some? ==>
                r == FrameOf(Translate(memory.View(), root, PathOf(vaddr)).value) * PAGE_SIZE + vaddr % PAGE_SIZE
      ensures Translate(memory.View(), root, PathOf(vaddr)).None? ==>
                match TableAt(memory.View(), root, PathOf(vaddr).up)
                case None => r == 0
                case Some(t) =>
                  && t < MAX_FRAMES
                  && r == FrameOf(memory.View()[t][PathOf(vaddr).idx]) * PAGE_SIZE + vaddr % PAGE_SIZE
    {
      var pml4tIdx, pdptIdx, pdtIdx, ptIdx := Indices(vaddr);
      var found := FindTables(root, pml4tIdx, pdptIdx, pdtIdx);
      if found.None? {
        return 0;
      }
      var e := memory.At(found.value.pt, ptIdx);
      r := FrameOf(e) * PAGE_SIZE + vaddr % PAGE_SIZE;
    }

    method IsMapped(root: nat, vaddr: Word) returns (r: bool)
      requires Valid() && forest.IsRoot(root)
      requires root == forest.kernel || !Upper(PathOf(vaddr)) || SharedTop(memory.View(), forest)
      ensures r == Translate(memory.View(), root, PathOf(vaddr)).Some?
    {
      var pml4tIdx, pdptIdx, pdtIdx, ptIdx := Indices(vaddr);
      var found := FindTables(root, pml4tIdx, pdptIdx, pdtIdx);
      if found.None? {
        return false;
      }
      r := memory.IsEntryPresent(found.value.pt, ptIdx);
    }

    /** The three steps with which `virtToPhys`, `isMapped` and `unmapPage` begin. */
    method FindTables(root: nat, pml4tIdx: nat, pdptIdx: nat, pdtIdx: nat) returns (r: Option<Tables>)
      requires Valid() && forest.IsRoot(root) && pml4tIdx < ENTRIES && pdptIdx < ENTRIES && pdtIdx < ENTRIES
      requires root == forest.kernel || pml4tIdx < ENTRIES / 2 || SharedTop(memory.View(), forest)
      ensures r.None? ==> TableAt(memory.View(), root, Down(Down(Down(Top, pml4tIdx), pdptIdx), pdtIdx)).None?
      ensures r.Some? ==>
        && TableAt(memory.View(), root, Down(Top, pml4tIdx)) == Some(r.value.pdpt)
        && TableAt(memory.View(), root, Down(Down(Top, pml4tIdx), pdptIdx)) == Some(r.value.pdt)
        && TableAt(memory.View(), root, Down(Down(Down(Top, pml4tIdx), pdptIdx), pdtIdx)) == Some(r.value.pt)
        && r.value.pt < MAX_FRAMES
    {
      ghost var p1 := Down(Top, pml4tIdx);
      ghost var p2 := Down(p1, pdptIdx);
      WalkInBounds(Now(), root, pml4tIdx, pdptIdx, pdtIdx, 0);
      var e := memory.At(root, pml4tIdx);
      if !Present(e) {
        assert TableAt(memory.View(), root, p1).None? && TableAt(memory.View(), root, p2).None?;
        return None;
      }
      var pdpt := FrameOf(e);
      assert TableAt(memory.View(), root, p1) == Some(pdpt);
      e := memory.At(pdpt, pdptIdx);
      if !Present(e) {
        assert TableAt(memory.View(), root, p2).None?;
        return None;
      }
      var pdt := FrameOf(e);
      assert TableAt(memory.View(), root, p2) == Some(pdt);
      e := memory.At(pdt, pdtIdx);
      if !Present(e) {
        return None;
      }
      r := Some(Tables(pdpt, pdt, FrameOf(e)));
    }

    /** Unmap the page of `vaddr` and give back the tables this leaves empty. No double-free
        panic occurs. Through the root of a process an upper-half page is unmapped in the tables of the
        kernel, while another page keeps its PML4 slot. */
    method UnmapPage(root: nat, vaddr: Word)
      requires Valid() && forest.IsRoot(root)
      requires root == forest.kernel || !Upper(PathOf(vaddr)) || UpperKept(vaddr)
      modifies this, memory.words, pmm.allocator.bitmap.data
      ensures Valid()
      ensures UnmapStep(old(Now()), Now(), old(forest).Backing(root, PathOf(vaddr)))
    {
      hide WellFormed, UnmapStep, Spine, SharedTop, Memory.View, Memory.Row;
      var pml4tIdx, pdptIdx, pdtIdx, ptIdx := Indices(vaddr);
      ghost var page := forest.Backing(root, PathOf(vaddr));
      ghost var s := Now();
      var found := FindTables(root, pml4tIdx, pdptIdx, pdtIdx);
      if found.None? {
        NoTableNoPage(s, root, page, pml4tIdx, pdptIdx, pdtIdx, ptIdx);
        return;
      }
      FoundSpine(s, root, page, pml4tIdx, pdptIdx, pdtIdx, ptIdx, found.value);
      var present := memory.IsEntryPresent(found.value.pt, ptIdx);
      if !present {
        UnmapAbsent(s, page);
        return;
      }
      ClearAndReclaim(root, found.value, pml4tIdx, pdptIdx, pdtIdx, ptIdx, page);
    }

    /** The upper halves agree, and if the page is mapped there is another in its PML4 slot. */
    ghost predicate UpperKept(vaddr: Word)
      requires Valid()
      reads this, memory.words, pmm.allocator, pmm.allocator.bitmap.data
    {
      var page := Node(forest.kernel, PathOf(vaddr));
      SharedTop(memory.View(), forest) && (page in forest.pages ==> SlotHasOther(forest, page))
    }

    static ghost predicate SlotHasOther(f: Forest, page: Node)
      requires page.path.Down?
    {
      exists q :: q in f.pages && q != page && q.root == page.root && q.path.Down? && First(q.path) == First(page.path)
    }

    /** The tables `t` are the ones on the way from `root` to the page with the given indices. */
    static ghost predicate Spine(f: Forest, root: nat, t: Tables, page: Node, i: nat, j: nat, k: nat, l: nat) {
      var n1 := Node(page.root, Top).Kid(i);
      var n2 := n1.Kid(j);
      var n3 := n2.Kid(k);
      && page == n3.Kid(l) && i < ENTRIES && j < ENTRIES && k < ENTRIES && l < ENTRIES
      && n1 in f.tables && f.tables[n1] == t.pdpt
      && n2 in f.tables && f.tables[n2] == t.pdt
      && n3 in f.tables && f.tables[n3] == t.pt
      && f.IsRoot(root) && f.tables[Node(root, Top)] == root
    }

    static lemma {:induction false} NoTableNoPage(s: State, root: nat, page: Node, i: nat, j: nat, k: nat, l: nat)
      requires WellFormed(s) && s.forest.IsRoot(root)
      requires i < ENTRIES && j < ENTRIES && k < ENTRIES && l < ENTRIES
        && page == s.forest.Backing(root, Down(Down(Down(Down(Top, i), j), k), l))
      requires root == s.forest.kernel || i < ENTRIES / 2 || SharedTop(s.mem, s.forest)
      requires TableAt(s.mem, root, page.path.up).None?
      ensures UnmapStep(s, s, page)
    {
      PathSpine(i, j, k, l);
      assert First(page.path.up) == i;
      WalkReachesTables(s.mem, s.forest, root, page.path.up);
      assert page in s.forest.pages ==> page.Parent() in s.forest.tables;
    }

    static lemma {:induction false} FoundSpine(s: State, root: nat, page: Node, i: nat, j: nat, k: nat, l: nat,
                                               t: Tables)
      requires WellFormed(s) && s.forest.IsRoot(root)
      requires i < ENTRIES && j < ENTRIES && k < ENTRIES && l < ENTRIES
        && page == s.forest.Backing(root, Down(Down(Down(Down(Top, i), j), k), l))
      requires root == s.forest.kernel || i < ENTRIES / 2 || SharedTop(s.mem, s.forest)
      requires TableAt(s.mem, root, page.path.up.up.up) == Some(t.pdpt)
      requires TableAt(s.mem, root, page.path.up.up) == Some(t.pdt)
      requires TableAt(s.mem, root, page.path.up) == Some(t.pt)
      ensures Spine(s.forest, root, t, page, i, j, k, l)
      ensures t.pt < |s.mem| && (Present(s.mem[t.pt][l]) <==> page in s.forest.pages)
    {
      hide SharedTop;
      PathSpine(i, j, k, l);
      var p := page.path;
      assert First(p.up) == i && First(p.up.up) == i && First(p.up.up.up) == i;
      WalkReachesTables(s.mem, s.forest, root, p.up.up.up);
      WalkReachesTables(s.mem, s.forest, root, p.up.up);
      WalkReachesTables(s.mem, s.forest, root, p.up);
      assert page == page.Parent().Kid(l) && SlotOK(s.forest, page.Parent(), l, s.mem[t.pt][l]);
    }

    static lemma {:induction false} UnmapAbsent(s: State, page: Node)
      requires WellFormed(s) && page.path.Down? && page !in s.forest.pages
      ensures UnmapStep(s, s, page)
    {}

    /** The second half of `unmapPage`, for a page that is mapped. */
    method ClearAndReclaim(root: nat, t: Tables, pml4tIdx: nat, pdptIdx: nat, pdtIdx: nat, ptIdx: nat, ghost page: Node)
      requires Valid() && Spine(forest, root, t, page, pml4tIdx, pdptIdx, pdtIdx, ptIdx) && page in forest.pages
      requires root == page.root || SlotHasOther(forest, page)
      modifies this, memory.words, pmm.allocator.bitmap.data
      ensures Valid()
      ensures UnmapStep(old(Now()), Now(), page)
    {
      hide WellFormed, ShrinkStep, Prune;
      PathSpine(pml4tIdx, pdptIdx, pdtIdx, ptIdx);
      ghost var s := Now();
      ghost var s1 := ForgetPage(s, page.Parent(), ptIdx);
      memory.Clear(t.pt, ptIdx);
      forest := s1.forest;
      assert Valid() && Now() == s1;
      ReclaimEmpty(root, t, pml4tIdx, pdptIdx, pdtIdx, ptIdx, page);
      ShrinkTrans(s, s1, Now(), page);
    }

    /** The reclaiming half of `unmapPage`: the tables on the way to the page that have no present
        entry left go, from the innermost outwards. */
    method ReclaimEmpty(root: nat, t: Tables, pml4tIdx: nat,
      pdptIdx: nat, pdtIdx: nat, ghost ptIdx: nat, ghost page: Node)
      requires Valid() && Spine(forest, root, t, page, pml4tIdx, pdptIdx, pdtIdx, ptIdx)
      requires root == page.root || SlotHasOther(forest, page)
      modifies this, memory.words, pmm.allocator.bitmap.data
      ensures Valid()
      ensures forest == Prune(old(forest), page.Parent())
      ensures ShrinkStep(old(Now()), Now(), page)
    {
      hide WellFormed, ShrinkStep, Prune;
      PathSpine(pml4tIdx, pdptIdx, pdtIdx, ptIdx);
      ghost var n1 := Node(page.root, Top).Kid(pml4tIdx);
      ghost var n2 := n1.Kid(pdptIdx);
      ghost var n3 := n2.Kid(pdtIdx);
      ghost var s := Now();
      PruneUnrolled(forest, n1, n2, n3);
      var gone := Reclaim(t.pt, t.pdt, pdtIdx, n3, page);
      if !gone {
        return;
      }
      ghost var s2 := Now();
      gone := Reclaim(t.pdt, t.pdpt, pdptIdx, n2, page);
      ShrinkTrans(s, s2, Now(), page);
      if !gone {
        return;
      }
      ghost var s3 := Now();
      if root != page.root {
        assert n1.path == TopSlot(page.path);
        SlotHasKid(s3, page, n1);
      }
      gone := Reclaim(t.pdpt, root, pml4tIdx, n1, page);
      ShrinkTrans(s, s3, Now(), page);
    }

    /** While another page is in the slot, the table there has a child. */
    static lemma {:induction false} SlotHasKid(s: State, page: Node, n: Node)
      requires WellFormed(s) && page.path.Down? && SlotHasOther(s.forest, page) && n.path == TopSlot(page.path)
      requires n.root == page.root
      ensures n.Parent() in s.forest.tables && s.forest.HasKid(n)
    {
      hide Linked, Injective;
      var f := s.forest;
      var q :| q in f.pages && q != page && q.root == page.root && q.path.Down? && First(q.path) == First(page.path);
      PagePath(q.path);
      var t3 := q.Parent();
      assert t3 in f.tables && t3.path.Down?;
      var t2 := t3.Parent();
      assert t2 in f.tables && t2 == n.Kid(t2.path.idx) && f.OwnedSlot(t2.Parent(), t2.path.idx);
      assert n.Kid(t2.path.idx) in f.tables && n in f.tables;
    }

    static lemma {:induction false} PagePath(p: Path)
      requires Depth(p) == 4
      ensures p.Down? && p.up.Down? && p.up.up.Down? && p.up.up.up == Down(Top, First(p))
    {
      assert Depth(p.up) == 3 && Depth(p.up.up) == 2 && Depth(p.up.up.up) == 1 && Depth(p.up.up.up.up) == 0;
      assert First(p) == First(p.up) && First(p.up) == First(p.up.up) && First(p.up.up) == First(p.up.up.up);
    }

    /** A block of `unmapPage`: when the table in slot `idx` of `parent` has no present entry,
        free its frame and clear the slot. */
    method Reclaim(table: nat, parent: nat, idx: nat, ghost n: Node, ghost page: Node) returns (gone: bool)
      requires Valid() && n in forest.tables && n.path.Down? && n.path.idx == idx < ENTRIES && forest.tables[n] == table
      requires n.Parent() in forest.tables && (forest.tables[n.Parent()] == parent || forest.HasKid(n))
      requires page.root == n.root && Below(n.path, page.path) && (n.path.up.Top? ==> First(page.path) == idx)
      modifies this, memory.words, pmm.allocator.bitmap.data
      ensures Valid() && gone == !old(forest).HasKid(n)
      ensures forest == if gone then old(forest).(tables := old(forest).tables - {n}) else old(forest)
      ensures ShrinkStep(old(Now()), Now(), page)
      ensures n.Parent() in forest.tables && forest.tables[n.Parent()] == old(forest.tables[n.Parent()])
    {
      hide WellFormed, ShrinkStep;
      ghost var s := Now();
      ShrinkRefl(s, page);
      HasKidIsPresent(s, n);
      TableLink(s, n);
      var i := 0;
      while i < ENTRIES
        invariant i <= ENTRIES && Valid() && Now() == s
        invariant forall j: nat :: j < i ==> !Present(memory.View()[table][j])
      {
        var present := memory.IsEntryPresent(table, i);
        if present {
          return false;
        }
        i := i + 1;
      }
      var e := memory.At(parent, idx);
      ghost var s' := ForgetTable(s, n, page);
      var ok := pmm.FreeFrame(FrameOf(e));
      assert ok;
      memory.Clear(parent, idx);
      forest := s'.forest;
      assert Now() == s';
      gone := true;
    }

    /** The three blocks of `unmapPage` are three steps of `Prune`. */
    static lemma {:induction false} PruneUnrolled(f: Forest, n1: Node, n2: Node, n3: Node)
      requires n3.path.Down? && n3.Parent() == n2 && n2.path.Down?
        && n2.Parent() == n1 && n1.path.Down? && n1.path.up.Top?
      ensures var f1 := f.(tables := f.tables - {n3});
              var f2 := f1.(tables := f1.tables - {n2});
              var f3 := f2.(tables := f2.tables - {n1});
              Prune(f, n3) == if f.HasKid(n3) then f else if f1.HasKid(n2) then f1 else if f2.HasKid(n1) then f2 else f3
    {
      var f1 := f.(tables := f.tables - {n3});
      var f2 := f1.(tables := f1.tables - {n2});
      var f3 := f2.(tables := f2.tables - {n1});
      assert Prune(f3, n1.Parent()) == f3;
      assert Prune(f2, n1) == if f2.HasKid(n1) then f2 else f3;
      assert Prune(f1, n2) == if f1.HasKid(n2) then f1 else Prune(f2, n1);
    }

    /** The entry above a table points to it. */
    static lemma {:induction false} TableLink(s: State, n: Node)
      requires WellFormed(s) && n in s.forest.tables && n.path.Down?
      ensures n.Parent() in s.forest.tables && s.forest.tables[n.Parent()] < |s.mem| && n.path.idx < ENTRIES
      ensures FrameOf(s.mem[s.forest.tables[n.Parent()]][n.path.idx]) == s.forest.tables[n]
    {
      assert SlotOK(s.forest, n.Parent(), n.path.idx, s.mem[s.forest.tables[n.Parent()]][n.path.idx]);
    }

    static lemma {:induction false} HasKidIsPresent(s: State, n: Node)
      requires WellFormed(s) && n in s.forest.tables && n.path.Down?
      ensures s.forest.tables[n] < |s.mem|
      ensures s.forest.HasKid(n) <==> exists i: nat :: i < ENTRIES && Present(s.mem[s.forest.tables[n]][i])
    {
      forall i: nat | i < ENTRIES
        ensures Present(s.mem[s.forest.tables[n]][i]) <==> n.Kid(i) in s.forest.tables || n.Kid(i) in s.forest.pages
      {
        assert SlotOK(s.forest, n, i, s.mem[s.forest.tables[n]][i]);
      }
    }

    /** The walk towards a page only ever follows frames inside memory. */
    static lemma {:induction false} WalkInBounds(s: State, root: nat, i: nat, j: nat, k: nat, l: nat)
      requires WellFormed(s) && s.forest.IsRoot(root) && i < ENTRIES && j < ENTRIES && k < ENTRIES && l < ENTRIES
      requires root == s.forest.kernel || i < ENTRIES / 2 || SharedTop(s.mem, s.forest)
      ensures root < |s.mem|
      ensures var p1 := Down(Top, i); var p2 := Down(p1, j); var p3 := Down(p2, k);
              && (TableAt(s.mem, root, p1).Some? ==> TableAt(s.mem, root, p1).value < |s.mem|)
              && (TableAt(s.mem, root, p2).Some? ==> TableAt(s.mem, root, p2).value < |s.mem|)
              && (TableAt(s.mem, root, p3).Some? ==> TableAt(s.mem, root, p3).value < |s.mem|)
    {
      PathSpine(i, j, k, l);
      var p1 := Down(Top, i);
      var p2 := Down(p1, j);
      var p3 := Down(p2, k);
      assert First(p1) == i && First(p2) == i && First(p3) == i;
      WalkReachesTables(s.mem, s.forest, root, p1);
      WalkReachesTables(s.mem, s.forest, root, p2);
      WalkReachesTables(s.mem, s.forest, root, p3);
    }

    // ---------- Fork ----------

    ghost predicate Usable(holes: set<Node>)
      reads this, memory.words, pmm.allocator, pmm.allocator.bitmap.data
    {
      Separate() && memory.Valid() && pmm.Valid() && |memory.View()| == MAX_FRAMES && WellFormedBut(Now(), holes)
    }

    ghost predicate Exhausted()
      reads this, pmm.allocator, pmm.allocator.bitmap.data
    {
      pmm.Valid() && OutOfMemory()
    }

    /** The frame `newPt` holds the copy of node `n` under root `r`, filled up to slot `i`; `s` is
        the state before that copy began. */
    ghost predicate Filling(newPt: nat, i: nat, n: Node, r: nat, holes: set<Node>, s: State)
      reads this, memory.words, pmm.allocator, pmm.allocator.bitmap.data
    {
      && Usable(holes + {Node(r, n.path)}) && Copied(s, Now(), n, r, i)
      && Node(r, n.path) in forest.tables && forest.tables[Node(r, n.path)] == newPt < |memory.View()|
    }

    /** `ptDeepCopy`: copy the table `src` of level `level`, everything below it and, at level 1,
        the pages, into fresh frames. `None` is the out-of-memory panic. The ghost node `n` is where
        `src` stands; the copy stands at the same path under root `r`, its own entry still missing. */
    method PtDeepCopy(src: nat, level: nat, ghost n: Node, ghost r: nat, ghost holes: set<Node>)
      returns (res: Option<nat>)
      requires Usable(holes) && 1 <= level <= 3 && Depth(n.path) == 4 - level
      requires n in forest.tables && forest.tables[n] == src && n.root != r && !Upper(n.path)
      requires Node(r, n.path.up) in forest.tables && Vacant(forest, r, n.path)
      requires PagesBacked(Now(), n.root) && forall h :: h in holes ==> h.root == r
      modifies this, memory.words, pmm.allocator, pmm.allocator.bitmap.data
      ensures res.Some? ==> Usable(holes + {Node(r, n.path)}) && Copied(old(Now()), Now(), n, r, ENTRIES)
      ensures res.Some? ==> Node(r, n.path) in forest.tables && forest.tables[Node(r, n.path)] == res.value < MAX_FRAMES
      ensures res.None? ==> Exhausted()
      decreases level, 2
    {
      hide WellFormedBut, Copied, Vacant, PagesBacked;
      ghost var s := Now();
      ghost var d := Node(r, n.path);
      var frame := pmm.AllocateFrame();
      if frame.None? {
        return None;
      }
      memory.Zero(frame.value);
      forest := Forest(forest.kernel, forest.tables[d := frame.value], forest.pages);
      StartCopy(s, Now(), n, r, holes, frame.value);
      var i := 0;
      while i < ENTRIES
        invariant i <= ENTRIES && Filling(frame.value, i, n, r, holes, s)
      {
        var ok := CopySlot(src, level, frame.value, i, n, r, holes, s);
        if !ok {
          return None;
        }
        i := i + 1;
      }
      res := frame;
    }

    /** One round of the loop in `ptDeepCopy`. */
    method CopySlot(src: nat, level: nat, newPt: nat, i: nat, ghost n: Node,
      ghost r: nat, ghost holes: set<Node>, ghost s: State) returns (ok: bool)
      requires Filling(newPt, i, n, r, holes, s) && CopySource(s, n, r, i, holes)
      requires 1 <= level <= 4 && Depth(n.path) == 4 - level && s.forest.tables[n] == src
      modifies this, memory.words, pmm.allocator, pmm.allocator.bitmap.data
      ensures if ok then Filling(newPt, i + 1, n, r, holes, s) else Exhausted()
      ensures ok ==> OthersKept(old(memory.View()), memory.View(), newPt, i)
      decreases level, 1
    {
      hide WellFormedBut, Copied, Vacant, PagesBacked, CopySource;
      ghost var s1 := Now();
      SourceSlot(s, s1, n, r, i, holes, holes + {Node(r, n.path)});
      var entry := memory.At(src, i);
      if !Present(entry) {
        return true;
      }
      if level == 1 {
        ok := CopyPageSlot(entry, newPt, i, n, r, holes, s);
      } else {
        ok := CopyTableSlot(entry, level, newPt, i, n, r, holes, s);
      }
    }

    /** The present entry of a level-1 table: the page's bytes go to a fresh frame. */
    method CopyPageSlot(entry: Word, newPt: nat, i: nat, ghost n: Node,
      ghost r: nat, ghost holes: set<Node>, ghost s: State) returns (ok: bool)
      requires Filling(newPt, i, n, r, holes, s) && CopySource(s, n, r, i, holes)
      requires Depth(n.path) == 3 && n.Kid(i) in s.forest.pages && s.forest.pages[n.Kid(i)] == entry && Present(entry)
      modifies this, memory.words, pmm.allocator, pmm.allocator.bitmap.data
      ensures if ok then Filling(newPt, i + 1, n, r, holes, s) else Exhausted()
      ensures ok ==> OthersKept(old(memory.View()), memory.View(), newPt, i)
    {
      hide WellFormedBut, Copied, Vacant, PagesBacked, Shape, Repoint,
        CopySource, OthersKept, Memory.View, Memory.Row, FrameOf, Present;
      ghost var s1 := Now();
      ghost var d := Node(r, n.path);
      PageInBounds(s, s1, n, r, i, holes, holes + {d});
      var frame := pmm.AllocateFrame();
      if frame.None? {
        return false;
      }
      var w := Repoint(entry, frame.value);
      ghost var s' := PageSlotCopied(s, s1, n, r, i, frame.value, w, entry, holes, holes + {d});
      CopyAndPoint(frame.value, FrameOf(entry), newPt, i, w);
      forest := s'.forest;
      assert Now() == s';
      ok := true;
    }

    method CopyAndPoint(dest: nat, src: nat, newPt: nat, i: nat, w: Word)
      requires memory.Valid() && dest < |memory.View()|
        && src < |memory.View()| && newPt < |memory.View()| && i < ENTRIES
      modifies memory.words
      ensures memory.View() == Store(old(memory.View())[dest := old(memory.View())[src]], newPt, i, w)
    {
      memory.Copy(dest, src);
      memory.Set(newPt, i, w);
    }

    /** The present entry of a higher table: the table below is copied and then pointed to. */
    method CopyTableSlot(entry: Word, level: nat, newPt: nat, i: nat,
      ghost n: Node, ghost r: nat, ghost holes: set<Node>, ghost s: State)
      returns (ok: bool)
      requires Filling(newPt, i, n, r, holes, s) && CopySource(s, n, r, i, holes)
      requires 2 <= level <= 4 && Depth(n.path) == 4 - level && Present(entry) && Permissive(entry)
      requires n.Kid(i) in s.forest.tables && s.forest.tables[n.Kid(i)] == FrameOf(entry)
      modifies this, memory.words, pmm.allocator, pmm.allocator.bitmap.data
      ensures if ok then Filling(newPt, i + 1, n, r, holes, s) else Exhausted()
      ensures ok ==> OthersKept(old(memory.View()), memory.View(), newPt, i)
      decreases level, 0
    {
      hide WellFormedBut, Copied, Vacant, PagesBacked, Shape, Repoint, CopySource, OthersKept;
      ghost var s1 := Now();
      ghost var d := Node(r, n.path);
      TableReady(s, s1, n, r, i, holes, holes + {d});
      var child := PtDeepCopy(FrameOf(entry), level - 1, n.Kid(i), r, holes + {d});
      if child.None? {
        return false;
      }
      ghost var s2 := Now();
      var w := Repoint(entry, child.value);
      ghost var s3 := TableSlotCopied(s, s1, s2, n, r, i, child.value, w, entry, holes, holes + {d});
      memory.Set(newPt, i, w);
      assert Now() == s3;
      ok := true;
    }

    /** `init(parent)`: a new root with the parent's upper half and a copy of its lower half.
        `None` is the out-of-memory panic. */
    method InitFrom(parent: nat) returns (res: Option<nat>)
      requires Valid() && forest.IsRoot(parent) && PagesBacked(Now(), parent)
      modifies this, memory.words, pmm.allocator, pmm.allocator.bitmap.data
      ensures res.Some? ==> Valid() && ForkStep(old(Now()), Now(), parent, res.value)
      ensures res.None? ==> Exhausted()
    {
      hide WellFormed, WellFormedBut, Copied, Vacant, PagesBacked,
        CopySource, UpperCopied, FreshRoot, ForkStep, OthersKept;
      ghost var s := Now();
      ghost var n := Node(parent, Top);
      var frame := pmm.AllocateFrame();
      if frame.None? {
        return None;
      }
      var child := frame.value;
      assert {} + {Node(child, Top)} == {Node(child, Top)};
      ghost var s0 := NewRoot(s, parent, child);
      memory.Zero(child);
      forest := s0.forest;
      assert Now() == s0;
      ShareUpperHalf(parent, child, s);
      var i := 0;
      while i < ENTRIES / 2
        invariant i <= ENTRIES / 2 && Filling(child, i, n, child, {}, s)
        invariant UpperCopied(s.mem, parent, memory.View(), child, ENTRIES)
      {
        ghost var mem := memory.View();
        RootSlot(s, parent, child, i);
        var ok := CopySlot(parent, 4, child, i, n, child, {}, s);
        if !ok {
          return None;
        }
        UpperStays(s.mem, parent, mem, memory.View(), child, i);
        i := i + 1;
      }
      RootCopied(s, Now(), parent, child);
      res := Some(child);
    }

    /** The first loop of `init(parent)`. */
    method ShareUpperHalf(parent: nat, child: nat, ghost s: State)
      requires Filling(child, 0, Node(parent, Top), child, {}, s) && FreshRoot(s, parent, child)
      modifies memory.words
      ensures Filling(child, 0, Node(parent, Top), child, {}, s)
      ensures UpperCopied(s.mem, parent, memory.View(), child, ENTRIES)
    {
      hide WellFormed, WellFormedBut, Copied, FreshRoot, UpperCopied;
      assert {} + {Node(child, Top)} == {Node(child, Top)};
      UpperStart(s, Now(), parent, child);
      var i := ENTRIES / 2;
      while i < ENTRIES
        invariant ENTRIES / 2 <= i <= ENTRIES && Filling(child, 0, Node(parent, Top), child, {}, s)
        invariant UpperCopied(s.mem, parent, memory.View(), child, i)
      {
        ghost var s' := ShareSlot(s, Now(), parent, child, i);
        var e := memory.At(parent, i);
        memory.Set(child, i, e);
        assert Now() == s';
        i := i + 1;
      }
    }

    // ---------- Destruction ----------

    /** The frames of the nodes `v` have been freed since state `s`; nothing else has changed. */
    ghost predicate Destroying(s: State, v: set<Node>)
      reads this, memory.words, pmm.allocator, pmm.allocator.bitmap.data
    {
      && Separate() && memory.Valid() && pmm.Valid() && WellFormed(s) && |s.mem| == MAX_FRAMES
      && memory.View() == s.mem && forest == s.forest && v <= Nodes(s.forest) && Freed(s, pmm.Used(), v)
    }

    /** Free everything the table of level `level` leads to, then the table: the loops of `destroy`
        below the PML4. `ok` is false for the double-free panic. */
    method DestroyTable(table: nat, level: nat, ghost n: Node, ghost s: State, ghost v: set<Node>) returns (ok: bool)
      requires Destroying(s, v) && 1 <= level <= 3 && Depth(n.path) == 4 - level
      requires n in s.forest.tables && s.forest.tables[n] == table && v !! Subtree(s.forest, n)
      modifies pmm.allocator.bitmap.data
      ensures v + Subtree(s.forest, n) <= Nodes(s.forest)
      ensures if ok then Destroying(s, v + Subtree(s.forest, n)) else !Distinct(s, v + Subtree(s.forest, n))
      decreases level, 1
    {
      hide WellFormed, Freed, Distinct;
      TableSubtree(s, n);
      ghost var f := s.forest;
      var i := 0;
      assert v + BelowSlots(f, n, 0) == v by { NoSlotsYet(f, n); }
      while i < ENTRIES
        invariant i <= ENTRIES && Destroying(s, v + BelowSlots(f, n, i))
      {
        BelowSlotsStep(f, n, i);
        assert BelowSlots(f, n, i + 1) <= Subtree(f, n);
        ghost var before := v + BelowSlots(f, n, i);
        assert before + Subtree(f, n.Kid(i)) == v + BelowSlots(f, n, i + 1);
        ok := DestroySlot(table, level, i, n, s, before);
        if !ok {
          Widen(s, v + BelowSlots(f, n, i + 1), v + Subtree(f, n));
          return false;
        }
        i := i + 1;
      }
      SubtreeWholeOf(s, n);
      assert v + Subtree(f, n) == (v + BelowSlots(f, n, ENTRIES)) + {n};
      FreeOne(s, pmm.Used(), v + BelowSlots(f, n, ENTRIES), n);
      ok := pmm.FreeFrame(table);
    }

    /** One round of such a loop. */
    method DestroySlot(table: nat, level: nat, i: nat, ghost n: Node, ghost s: State, ghost v: set<Node>)
      returns (ok: bool)
      requires Destroying(s, v) && 1 <= level <= 4 && Depth(n.path) == 4 - level && s.forest.OwnedSlot(n, i)
      requires n in s.forest.tables && s.forest.tables[n] == table && v !! Subtree(s.forest, n.Kid(i))
      modifies pmm.allocator.bitmap.data
      ensures v + Subtree(s.forest, n.Kid(i)) <= Nodes(s.forest)
      ensures if ok then Destroying(s, v + Subtree(s.forest, n.Kid(i)))
        else !Distinct(s, v + Subtree(s.forest, n.Kid(i)))
      decreases level, 0
    {
      hide WellFormed, Freed, Distinct;
      SlotSubtree(s, n, i);
      ghost var kids := Subtree(s.forest, n.Kid(i));
      var entry := memory.At(table, i);
      if !Present(entry) {
        assert v + kids == v;
        return true;
      }
      if level == 1 {
        FreeOne(s, pmm.Used(), v, n.Kid(i));
        ok := pmm.FreeFrame(FrameOf(entry));
      } else {
        ok := DestroyTable(FrameOf(entry), level - 1, n.Kid(i), s, v);
      }
    }

    /** `destroy`: free the lower half of a process root and the root. `ok` is false for the
        double-free panic, which happens exactly when the frames to free are not all in use and
        different from each other. The table entries stay in memory as they are. */
    method Destroy(root: nat) returns (ok: bool)
      requires Valid() && forest.IsRoot(root) && root != forest.kernel && PagesApart(Now(), root)
      modifies this`forest, pmm.allocator.bitmap.data
      ensures ok <==> Distinct(old(Now()), Doomed(old(forest), root))
      ensures ok ==> Valid() && DestroyStep(old(Now()), Now(), root)
    {
      hide WellFormed, Freed, Distinct, DestroyStep, PagesApart;
      ghost var s := Now();
      ghost var f := forest;
      ghost var n := Node(root, Top);
      ghost var skipped := Subtree(f, n.Kid(SKIPPED_SLOT));
      RootFacts(s, root);
      NoSlotsYet(f, n);
      assert BelowSlots(f, n, 0) - skipped == {};
      FreedNothing(s);
      var i := 0;
      while i < ENTRIES / 2
        invariant i <= ENTRIES / 2 && Destroying(s, BelowSlots(f, n, i) - skipped)
      {
        ghost var before := BelowSlots(f, n, i) - skipped;
        BelowSlotsStep(f, n, i);
        BelowSlotsStep(f, n, SKIPPED_SLOT);
        SkipStep(s, root, i);
        assert before + {} == before;
        var present := memory.IsEntryPresent(root, i);
        if present && i != SKIPPED_SLOT {
          ok := DestroySlot(root, 4, i, n, s, before);
          if !ok {
            Widen(s, before + Subtree(f, n.Kid(i)), Doomed(f, root));
            return false;
          }
        }
        i := i + 1;
      }
      FreeOne(s, pmm.Used(), BelowSlots(f, n, i) - skipped, n);
      ok := pmm.FreeFrame(root);
      if ok {
        forest := Without(f, root);
        DestroyKeepsOthers(s, Now(), root);
      }
    }
  }
}
