/** Laws of single operations on the page tables: what `mapPage` and `unmapPage` do to the
    translations the processor sees, when they keep the kernel half shared and the tables
    free of empty ones, and that they undo each other. */
module MappingLaws {
  import opened Words
  import opened Wrappers
  import opened PhysicalMemory
  import opened Forest
  import opened ForestSteps
  import opened ForestCopy

  // ---------- The kernel half ----------

  ghost predicate OtherRoots(f: Forest) { exists r: nat :: f.IsRoot(r) && r != f.kernel }

  /** Mapping keeps the upper halves equal exactly when it does not create a table in an upper
      slot of the kernel root while process roots exist. */
  lemma {:induction false} MapKeepsSharedIff(s: State, s': State, page: Node, w: Word)
    requires MapStep(s, s', page, w) && SharedTop(s.mem, s.forest) && IsPage(page.path)
    requires page.root == s.forest.kernel || !Upper(page.path)
    ensures SharedTop(s'.mem, s'.forest) <==>
              !Upper(page.path) || Node(s.forest.kernel, TopSlot(page.path)) in s.forest.tables || !OtherRoots(s.forest)
  {
    hide Shape, Linked, OnlyTablesWritten, WellFormed, SharedTop, TopKept;
    if Upper(page.path) && Node(s.forest.kernel, TopSlot(page.path)) !in s.forest.tables {
      MapMakesSlot(s, s', page, w);
    } else {
      MapKeepsSlots(s, s', page, w);
    }
  }

  lemma {:induction false} MapMakesSlot(s: State, s': State, page: Node, w: Word)
    requires MapStep(s, s', page, w) && SharedTop(s.mem, s.forest) && IsPage(page.path) && Upper(page.path)
    requires page.root == s.forest.kernel && Node(s.forest.kernel, TopSlot(page.path)) !in s.forest.tables
    ensures SharedTop(s'.mem, s'.forest) <==> !OtherRoots(s.forest)
  {
    hide OnlyTablesWritten, Shape, Linked;
    SlotCreated(s, s', page, w);
    RootsInMemory(s);
    RootsInMemory(s');
    RootsKept(s, s', page, w);
    var k, i := s.forest.kernel, First(page.path);
    if OtherRoots(s.forest) {
      var r: nat :| s.forest.IsRoot(r) && r != k;
      assert TopEntry(s'.mem, s'.forest, r, i) == TopEntry(s.mem, s.forest, r, i) == TopEntry(s.mem, s.forest, k, i);
      assert TopEntry(s'.mem, s'.forest, r, i) != TopEntry(s'.mem, s'.forest, k, i);
    } else {
      forall r: nat | s'.forest.IsRoot(r) ensures r == k { assert s.forest.IsRoot(r); }
    }
  }

  lemma {:induction false} RootsKept(s: State, s': State, page: Node, w: Word)
    requires MapStep(s, s', page, w)
    ensures s'.forest.kernel == s.forest.kernel && forall r: nat :: s'.forest.IsRoot(r) <==> s.forest.IsRoot(r)
  {
    hide Shape, Linked, MapWrites;
  }

  lemma {:induction false} MapKeepsSlots(s: State, s': State, page: Node, w: Word)
    requires MapStep(s, s', page, w) && SharedTop(s.mem, s.forest)
    requires !Upper(page.path) || Node(page.root, TopSlot(page.path)) in s.forest.tables
    ensures SharedTop(s'.mem, s'.forest)
  {
    hide Shape, Linked, OnlyTablesWritten;
    RootsKept(s, s', page, w);
    RootsInMemory(s);
    RootsInMemory(s');
    forall r: nat, j: nat | s'.forest.IsRoot(r) && ENTRIES / 2 <= j < ENTRIES
      ensures TopEntry(s'.mem, s'.forest, r, j) == TopEntry(s'.mem, s'.forest, s.forest.kernel, j)
    {
      assert TopEntry(s.mem, s.forest, r, j) == TopEntry(s.mem, s.forest, s.forest.kernel, j);
    }
  }

  /** In that case the kernel's slot was absent and is present afterwards. */
  lemma {:induction false} SlotCreated(s: State, s': State, page: Node, w: Word)
    requires MapStep(s, s', page, w) && IsPage(page.path) && Upper(page.path) && page.root == s.forest.kernel
    requires Node(page.root, TopSlot(page.path)) !in s.forest.tables
    ensures First(page.path) < ENTRIES
    ensures !Present(TopEntry(s.mem, s.forest, s.forest.kernel, First(page.path)))
    ensures Present(TopEntry(s'.mem, s'.forest, s.forest.kernel, First(page.path)))
  {
    hide MapWrites, Injective, PageShape, Upper;
    FirstBounded(page.path);
    var n := Node(page.root, Top);
    var i := First(page.path);
    assert n.Kid(i) == Node(page.root, TopSlot(page.path));
    PathTop(page.path);
    TablesToPage(s'.forest, page, TopSlot(page.path));
    assert SlotOK(s.forest, n, i, s.mem[s.forest.tables[n]][i]);
    assert SlotOK(s'.forest, n, i, s'.mem[s'.forest.tables[n]][i]);
  }

  lemma {:induction false} PathTop(p: Path)
    requires p.Down?
    ensures AtOrBelow(TopSlot(p), p)
  {
    if p.up.Down? { PathTop(p.up); }
  }

  /** Where the last table of a walk exists, all the tables before it do. */
  lemma {:induction false} TablesToPage(f: Forest, page: Node, a: Path)
    requires Shape(f) && page.path.Down? && page.Parent() in f.tables
      && AtOrBelow(a, page.path) && a.Down? && Depth(page.path) == 4 && Depth(a) < 4
    ensures Node(page.root, a) in f.tables
  {
    if a != page.path.up { AncestorsExist(f, page.Parent(), a); }
  }

  /** Unmapping keeps the upper halves equal exactly when it does not take away an upper slot of
      the kernel root while process roots exist. */
  lemma {:induction false} UnmapKeepsSharedIff(s: State, s': State, page: Node)
    requires UnmapStep(s, s', page) && SharedTop(s.mem, s.forest) && IsPage(page.path)
    requires page.root == s.forest.kernel || !Upper(page.path)
    ensures SharedTop(s'.mem, s'.forest) <==>
              !Upper(page.path) || page !in s.forest.pages
                || Node(s.forest.kernel, TopSlot(page.path)) in s'.forest.tables || !OtherRoots(s.forest)
  {
    hide Shape, Linked, Prune, OnlyTablesWritten, WellFormed, TopKept, SharedTop;
    if page in s.forest.pages {
      RootsSurvive(s, s', page);
      if Upper(page.path) && Node(s.forest.kernel, TopSlot(page.path)) !in s'.forest.tables {
        UnmapLosesSlot(s, s', page);
      } else {
        UnmapKeepsSlots(s, s', page);
      }
    }
  }

  lemma {:induction false} RootsInMemory(s: State)
    requires WellFormed(s)
    ensures s.forest.IsRoot(s.forest.kernel)
      && forall r: nat :: s.forest.IsRoot(r) ==> s.forest.tables[Node(r, Top)] < |s.mem|
  {}

  lemma {:induction false} UnmapLosesSlot(s: State, s': State, page: Node)
    requires UnmapStep(s, s', page) && SharedTop(s.mem, s.forest) && IsPage(page.path) && Upper(page.path)
    requires page in s.forest.pages && page.root == s.forest.kernel
      && Node(s.forest.kernel, TopSlot(page.path)) !in s'.forest.tables
    ensures SharedTop(s'.mem, s'.forest) <==> !OtherRoots(s.forest)
  {
    hide OnlyTablesWritten, Prune, Shape, Linked;
    RootsSurvive(s, s', page);
    SlotLost(s, s', page);
    RootsInMemory(s);
    RootsInMemory(s');
    var k, i := s.forest.kernel, First(page.path);
    if OtherRoots(s.forest) {
      var r: nat :| s.forest.IsRoot(r) && r != k;
      assert TopEntry(s'.mem, s'.forest, r, i) == TopEntry(s.mem, s.forest, r, i) == TopEntry(s.mem, s.forest, k, i);
      assert TopEntry(s'.mem, s'.forest, r, i) != TopEntry(s'.mem, s'.forest, k, i);
    } else {
      forall r: nat | s'.forest.IsRoot(r) ensures r == k { assert s.forest.IsRoot(r); }
    }
  }

  lemma {:induction false} UnmapKeepsSlots(s: State, s': State, page: Node)
    requires UnmapStep(s, s', page) && SharedTop(s.mem, s.forest)
    requires !Upper(page.path) || Node(page.root, TopSlot(page.path)) in s'.forest.tables
    ensures SharedTop(s'.mem, s'.forest)
  {
    hide Shape, Linked, Prune, OnlyTablesWritten;
    RootsSurvive(s, s', page);
    RootsInMemory(s);
    RootsInMemory(s');
    forall r: nat, j: nat | s'.forest.IsRoot(r) && ENTRIES / 2 <= j < ENTRIES
      ensures TopEntry(s'.mem, s'.forest, r, j) == TopEntry(s'.mem, s'.forest, s.forest.kernel, j)
    {
      assert TopEntry(s.mem, s.forest, r, j) == TopEntry(s.mem, s.forest, s.forest.kernel, j);
    }
  }

  lemma {:induction false} PruneKeepsTops(f: Forest, n: Node)
    ensures var f' := Prune(f, n);
            && f'.pages == f.pages && f'.kernel == f.kernel
            && (forall m :: m in f.tables && m.path.Top? ==> m in f'.tables)
            && (forall m :: m in f'.tables ==> m in f.tables && f'.tables[m] == f.tables[m])
    decreases n.path
  {
    if n.path.Down? && !f.HasKid(n) { PruneKeepsTops(f.(tables := f.tables - {n}), n.Parent()); }
  }

  lemma {:induction false} RootsSurvive(s: State, s': State, page: Node)
    requires UnmapStep(s, s', page)
    ensures forall r: nat :: s'.forest.IsRoot(r) <==> s.forest.IsRoot(r)
    ensures s'.forest.pages == s.forest.pages - {page} && s'.forest.kernel == s.forest.kernel
  {
    hide Shape, Linked;
    if page in s.forest.pages { PruneKeepsTops(s.forest.(pages := s.forest.pages - {page}), page.Parent()); }
  }

  /** In that case the kernel's slot was present and is absent afterwards. */
  lemma {:induction false} SlotLost(s: State, s': State, page: Node)
    requires UnmapStep(s, s', page) && IsPage(page.path) && Upper(page.path) && page.root == s.forest.kernel
    requires page in s.forest.pages && Node(page.root, TopSlot(page.path)) !in s'.forest.tables
    ensures First(page.path) < ENTRIES && s'.forest.kernel == s.forest.kernel
    ensures Present(TopEntry(s.mem, s.forest, s.forest.kernel, First(page.path)))
    ensures !Present(TopEntry(s'.mem, s'.forest, s.forest.kernel, First(page.path)))
  {
    hide Shape, Linked, Prune, TopKept, OnlyTablesWritten, First, SlotOK, Bounded;
    FirstBounded(page.path);
    RootsSurvive(s, s', page);
    var n := Node(page.root, Top);
    var i := First(page.path);
    assert n.Kid(i) == Node(page.root, TopSlot(page.path));
    TopSlotThere(s, page);
    RootSlot(s, page.root, i);
    RootSlot(s', page.root, i);
  }

  lemma {:induction false} TopSlotThere(s: State, page: Node)
    requires WellFormed(s) && page in s.forest.pages && Upper(page.path)
    ensures s.forest.IsRoot(page.root) && Node(page.root, TopSlot(page.path)) in s.forest.tables
  {
    hide Linked;
    PathTop(page.path);
    TablesToPage(s.forest, page, TopSlot(page.path));
    assert Node(page.root, TopSlot(page.path)).Parent() == Node(page.root, Top);
  }

  /** An entry of the kernel root is present exactly when a table hangs from it. */
  lemma {:induction false} RootSlot(s: State, k: nat, i: nat)
    requires WellFormed(s) && k == s.forest.kernel && i < ENTRIES
    ensures s.forest.IsRoot(k) && s.forest.tables[Node(k, Top)] < |s.mem|
    ensures Present(TopEntry(s.mem, s.forest, k, i)) <==> Node(k, Top).Kid(i) in s.forest.tables
  {
    var n := Node(k, Top);
    assert s.forest.OwnedSlot(n, i) && SlotOK(s.forest, n, i, s.mem[s.forest.tables[n]][i]);
  }

  /** As long as another page is mapped through the same PML4 slot, the slot stays. */
  lemma {:induction false} SlotStays(s: State, s': State, page: Node, q: Node)
    requires UnmapStep(s, s', page) && IsPage(page.path) && q in s.forest.pages && q != page && q.root == page.root
    requires First(q.path) == First(page.path)
    ensures Node(page.root, TopSlot(page.path)) in s'.forest.tables
  {
    hide Shape, Linked, TopKept, OnlyTablesWritten, Prune, First;
    RootsSurvive(s, s', page);
    assert q in s'.forest.pages;
    PageIsDeep(s'.forest, q);
    PathTop(q.path);
    assert TopSlot(q.path) == TopSlot(page.path);
    AncestorsExist(s'.forest, q, TopSlot(q.path));
  }

  lemma {:induction false} PageIsDeep(f: Forest, q: Node)
    requires Shape(f) && q in f.pages
    ensures q.path.Down? && Depth(q.path) == 4
  {}

  // ---------- Translations ----------

  /** Mapping changes one translation at most: the page of the address, for every root that sees
      it, and only if it had none. The first mapping wins. */
  lemma {:induction false} MapTranslates(s: State, s': State, page: Node, w: Word, r: nat, p: Path)
    requires MapStep(s, s', page, w) && IsPage(page.path) && IsPage(p) && s.forest.IsRoot(r)
    requires page.root == s.forest.kernel || !Upper(page.path)
    requires SharedTop(s.mem, s.forest) && SharedTop(s'.mem, s'.forest)
    ensures Translate(s'.mem, r, p) ==
              if s.forest.Backing(r, p) == page && Translate(s.mem, r, p).None?
                && Present(w) then Some(w) else Translate(s.mem, r, p)
  {
    hide Shape, Linked, Translate, MapWrites, SharedTop, Upper;
    TranslateIsLookup(s.mem, s.forest, r, p);
    TranslateIsLookup(s'.mem, s'.forest, r, p);
  }

  /** Unmapping removes exactly the translation of the page. */
  lemma {:induction false} UnmapTranslates(s: State, s': State, page: Node, r: nat, p: Path)
    requires UnmapStep(s, s', page) && IsPage(page.path) && IsPage(p) && s.forest.IsRoot(r)
    requires page.root == s.forest.kernel || !Upper(page.path)
    requires SharedTop(s.mem, s.forest) && SharedTop(s'.mem, s'.forest)
    ensures Translate(s'.mem, r, p) == if s.forest.Backing(r, p) == page then None else Translate(s.mem, r, p)
  {
    hide Shape, Linked, Translate, TopKept, OnlyTablesWritten, SharedTop, Upper, Prune;
    RootsSurvive(s, s', page);
    TranslateIsLookup(s.mem, s.forest, r, p);
    TranslateIsLookup(s'.mem, s'.forest, r, p);
  }

  /** With equal upper halves, every root translates the upper half like the kernel root. */
  lemma {:induction false} UpperHalfAgrees(s: State, r: nat, p: Path)
    requires WellFormed(s) && SharedTop(s.mem, s.forest) && s.forest.IsRoot(r) && IsPage(p) && Upper(p)
    ensures Translate(s.mem, r, p) == Translate(s.mem, s.forest.kernel, p)
  {
    TranslateIsLookup(s.mem, s.forest, r, p);
    TranslateIsLookup(s.mem, s.forest, s.forest.kernel, p);
  }

  // ---------- No empty tables ----------

  /** Mapping leaves no empty table exactly when it wrote a present entry or made no new table. */
  lemma {:induction false} MapKeepsNonEmptyIff(s: State, s': State, page: Node, w: Word)
    requires MapStep(s, s', page, w) && IsPage(page.path) && NoEmptyTables(s.forest)
    ensures NoEmptyTables(s'.forest) <==> Present(w) || page.Parent() in s.forest.tables
  {
    if Present(w) || page.Parent() in s.forest.tables {
      forall n | n in s'.forest.tables && n.path.Down? ensures s'.forest.HasKid(n) {
        if n in s.forest.tables { OldTableHasKid(s, s', page, w, n); } else { NewTableHasKid(s, s', page, w, n); }
      }
    } else {
      NewTableEmpty(s, s', page, w);
    }
  }

  lemma {:induction false} OldTableHasKid(s: State, s': State, page: Node, w: Word, n: Node)
    requires MapStep(s, s', page, w) && n in s.forest.tables && s.forest.HasKid(n)
    ensures s'.forest.HasKid(n)
  {
    hide Shape, Linked;
    var i: nat :| i < ENTRIES && (n.Kid(i) in s.forest.tables || n.Kid(i) in s.forest.pages);
    assert n.Kid(i) in s'.forest.tables || n.Kid(i) in s'.forest.pages;
  }

  lemma {:induction false} NewTableEmpty(s: State, s': State, page: Node, w: Word)
    requires MapStep(s, s', page, w) && IsPage(page.path) && !Present(w) && page.Parent() !in s.forest.tables
    ensures !NoEmptyTables(s'.forest)
  {
    hide Linked, MapWrites, Injective, Present;
    var n := page.Parent();
    assert page !in s.forest.pages && n.path.Down?;
    forall i: nat ensures n.Kid(i) !in s'.forest.tables && n.Kid(i) !in s'.forest.pages {
      assert n.Kid(i).Parent() == n;
      assert Depth(n.Kid(i).path) == 4;
    }
    assert !s'.forest.HasKid(n);
  }

  lemma {:induction false} NewTableHasKid(s: State, s': State, page: Node, w: Word, n: Node)
    requires MapStep(s, s', page, w) && IsPage(page.path) && (Present(w) || page.Parent() in s.forest.tables)
    requires n in s'.forest.tables && n !in s.forest.tables
    ensures s'.forest.HasKid(n)
  {
    hide Linked, MapWrites, Present, Forest.HasKid, TableShape, PageShape, Injective;
    var f, f' := s.forest, s'.forest;
    WasMissing(f, page, n.path);
    var p := StepTowards(n.path, page.path);
    if p == page.path {
      assert n.Kid(p.idx) == page && page in f'.pages;
    } else {
      AncestorsExist(f', page, p);
      assert n.Kid(p.idx) == Node(page.root, p);
    }
    KidThere(f', n, p.idx);
  }

  lemma {:induction false} KidThere(f: Forest, n: Node, i: nat)
    requires i < ENTRIES && (n.Kid(i) in f.tables || n.Kid(i) in f.pages)
    ensures f.HasKid(n)
  {}

  /** Where a table on the way to a page is missing, the page and its table are too. */
  lemma {:induction false} WasMissing(f: Forest, page: Node, a: Path)
    requires Shape(f) && Below(a, page.path) && Node(page.root, a) !in f.tables
    ensures page !in f.pages && page.Parent() !in f.tables
  {
    hide Shape;
    if page in f.pages { AncestorsExist(f, page, a); }
    if page.path.up != a && page.Parent() in f.tables { AncestorsExist(f, page.Parent(), a); }
  }

  /** The path one step below `a` on the way to `p`. */
  lemma {:induction false} StepTowards(a: Path, p: Path) returns (q: Path)
    requires Below(a, p) && Bounded(p)
    ensures q.Down? && q.up == a && AtOrBelow(q, p) && q.idx < ENTRIES
  {
    if p.up == a { q := p; } else { q := StepTowards(a, p.up); }
  }

  /** Reclaiming leaves no empty table if only the first candidate was empty. */
  lemma {:induction false} PruneNonEmpty(f: Forest, n: Node)
    requires forall m :: m in f.tables && m.path.Down? && m != n ==> f.HasKid(m)
    ensures NoEmptyTables(Prune(f, n))
    decreases n.path
  {
    if n.path.Down? && !f.HasKid(n) {
      var f' := f.(tables := f.tables - {n});
      forall m | m in f'.tables && m.path.Down? && m != n.Parent() ensures f'.HasKid(m) {
        var i: nat :| i < ENTRIES && (m.Kid(i) in f.tables || m.Kid(i) in f.pages);
        assert m.Kid(i) != n;
        assert m.Kid(i) in f'.tables || m.Kid(i) in f'.pages;
      }
      PruneNonEmpty(f', n.Parent());
    }
  }

  lemma {:induction false} UnmapKeepsNonEmpty(s: State, s': State, page: Node)
    requires UnmapStep(s, s', page) && NoEmptyTables(s.forest)
    ensures NoEmptyTables(s'.forest)
  {
    if page in s.forest.pages {
      hide ShrinkStep;
      var f := s.forest.(pages := s.forest.pages - {page});
      forall m | m in f.tables && m.path.Down? && m != page.Parent() ensures f.HasKid(m) {
        KidSurvives(s.forest, f, page, m);
      }
      PruneNonEmpty(f, page.Parent());
    }
  }

  lemma {:induction false} KidSurvives(f: Forest, f': Forest, page: Node, m: Node)
    requires f.HasKid(m) && page.path.Down? && m != page.Parent()
      && f'.tables == f.tables && f'.pages == f.pages - {page}
    ensures f'.HasKid(m)
  {
    var i: nat :| i < ENTRIES && (m.Kid(i) in f.tables || m.Kid(i) in f.pages);
    assert m.Kid(i) != page;
    assert m.Kid(i) in f'.tables || m.Kid(i) in f'.pages;
  }

  /** Without empty tables, every table below a root leads to a mapped page. */
  lemma {:induction false} PageBelow(f: Forest, n: Node) returns (p: Node)
    requires Shape(f) && NoEmptyTables(f) && n in f.tables && n.path.Down?
    ensures p in f.pages && p.root == n.root && Below(n.path, p.path)
    decreases 4 - Depth(n.path)
  {
    var i: nat :| i < ENTRIES && (n.Kid(i) in f.tables || n.Kid(i) in f.pages);
    if n.Kid(i) in f.pages {
      p := n.Kid(i);
    } else {
      p := PageBelow(f, n.Kid(i));
      BelowTrans(n.path, n.Kid(i).path, p.path);
    }
  }

  lemma {:induction false} BelowTrans(a: Path, b: Path, c: Path)
    requires Below(a, b) && Below(b, c)
    ensures Below(a, c)
  {
    if c.up != b { BelowTrans(a, b, c.up); }
  }

  /** Which tables exist is determined by which pages are mapped. */
  lemma {:induction false} TablesFollowPages(f: Forest, f': Forest)
    requires Shape(f) && Shape(f') && NoEmptyTables(f) && NoEmptyTables(f') && f'.pages == f.pages
    ensures forall n: Node :: n.path.Down? ==> (n in f.tables <==> n in f'.tables)
  {
    forall n: Node | n.path.Down? && n in f.tables ensures n in f'.tables {
      var p := PageBelow(f, n);
      AncestorsExist(f', p, n.path);
    }
    forall n: Node | n.path.Down? && n in f'.tables ensures n in f.tables {
      var p := PageBelow(f', n);
      AncestorsExist(f, p, n.path);
    }
  }

  /** Mapping a page that was not mapped and unmapping it again restores the forest and the set
      of frames in use. */
  lemma {:induction false} MapUnmapRestores(s: State, s1: State, s2: State, page: Node, w: Word)
    requires NoEmptyTables(s.forest) && IsPage(page.path) && page !in s.forest.pages && Present(w)
    requires MapStep(s, s1, page, w) && UnmapStep(s1, s2, page)
    ensures s2.forest == s.forest && s2.used == s.used
  {
    hide MapStep, UnmapStep, NoEmptyTables, Shape, Linked, WellFormed;
    PagesAround(s, s1, s2, page, w);
    MapKeepsNonEmptyIff(s, s1, page, w);
    UnmapKeepsNonEmpty(s1, s2, page);
    RootsSurvive(s1, s2, page);
    TablesFollowPages(s.forest, s2.forest);
    RestoredTables(s, s1, s2, page, w);
  }

  lemma {:induction false} PagesAround(s: State, s1: State, s2: State, page: Node, w: Word)
    requires page !in s.forest.pages && Present(w) && MapStep(s, s1, page, w) && UnmapStep(s1, s2, page)
    ensures Shape(s.forest) && Shape(s2.forest) && s2.forest.pages == s.forest.pages
  {
    hide Shape, Linked, GrowTables, MapWrites, OnlyTablesWritten, TopKept, Prune;
    RootsSurvive(s1, s2, page);
  }

  lemma {:induction false} RestoredTables(s: State, s1: State, s2: State, page: Node, w: Word)
    requires MapStep(s, s1, page, w) && UnmapStep(s1, s2, page) && s2.forest.pages == s.forest.pages
    requires forall n: Node :: n.path.Down? ==> (n in s.forest.tables <==> n in s2.forest.tables)
    requires forall r: nat :: s2.forest.IsRoot(r) <==> s1.forest.IsRoot(r)
    ensures s2.forest == s.forest && s2.used == s.used
  {
    hide Shape, Linked;
    forall n: Node ensures n in s.forest.tables <==> n in s2.forest.tables {
      if n.path.Top? {
        assert n == Node(n.root, Top);
        assert s.forest.IsRoot(n.root) <==> s1.forest.IsRoot(n.root);
        assert s2.forest.IsRoot(n.root) <==> s1.forest.IsRoot(n.root);
      }
    }
    assert s2.forest.tables == s.forest.tables;
    forall c | c in s1.forest.tables.Values && c !in s.forest.tables.Values ensures c !in s.used {
      var n :| n in s1.forest.tables && s1.forest.tables[n] == c;
    }
    assert s.forest.tables.Values <= s.used by {
      forall c | c in s.forest.tables.Values ensures c in s.used {
        var n :| n in s.forest.tables && s.forest.tables[n] == c;
      }
    }
  }
}
