/** What the upper half asks of those who map pages for a process: the map steps of a run are those of
    the lower half, and this is what becomes of the others. */
module KernelHalf {
  import opened Words
  import opened Wrappers
  import opened PhysicalMemory
  import opened ByteMemory
  import opened Forest
  import opened ForestSteps
  import opened AddressSpaceRuns
  import opened PageTables
  import opened UserPaging
  import opened ElfFile
  import MappingLaws

  /** What the loader maps for a segment can be steps of a run exactly when the segment passes the test
      on its header. */
  lemma {:induction false} UserStepsIff(ph: Phdr)
    requires ph.kind == PT_LOAD
    ensures InLowerHalf(ph) <==> forall j: nat :: j < PageCount(ph) ==> !Upper(PathOf(AddressAt(ph, j)))
  {
    hide PathOf, PageOf, InLowerHalf, PageCount, AddressAt;
    InLowerHalfIff(ph);
    forall j: nat | j < PageCount(ph)
      ensures Upper(PathOf(AddressAt(ph, j))) <==> PageOf(AddressAt(ph, j)) >= LOWER_PAGES
    {
      LowerIff(AddressAt(ph, j));
    }
    if InLowerHalf(ph) {
      forall j: nat | j < PageCount(ph) ensures !Upper(PathOf(AddressAt(ph, j))) {
        assert Touches(ph, PageOf(AddressAt(ph, j)));
      }
    }
  }

  /** No step of a run maps such a page for a process. */
  lemma {:induction false} NoUserStep(s: State, r: nat, v: Word, w: Word, s': State)
    requires PageOf(v) >= LOWER_PAGES
    ensures !Step(s, MapUser(Node(r, PathOf(v)), w), s')
  {
    hide PathOf;
    LowerIff(v);
  }

  /** A page of zeros in the kernel half. */
  const STRAY: Phdr := Phdr(PT_LOAD, 4, 0, 0xffff_8100_0000_0000, 0, PAGE_SIZE)

  lemma {:induction false} StrayPage()
    ensures !InLowerHalf(STRAY)
  {}

  /** A file that the loader accepts although its segment is there. */
  lemma {:induction false} StrayFile() returns (file: seq<Byte>)
    ensures Loadable(file) && ElfCheck(file) && Phnum(file) == 1 && Header(file, 0) == STRAY
    ensures !InLowerHalf(Header(file, 0))
  {
    hide ElfCheck, FileBytes, Header, InLowerHalf, Phnum;
    file := FileBytes(0, [STRAY], []);
    assert Encodable([STRAY]);
    FileReadsBack(0, [STRAY], []);
    StrayPage();
  }

  /** A table that is made in an upper slot of a process root takes the kernel half apart; where there
      is one already nothing changes. */
  lemma {:induction false} UpperTableIff(s: State, r: nat, i: nat, c: nat)
    requires Good(s) && s.forest.IsRoot(r) && r != s.forest.kernel && ENTRIES / 2 <= i < ENTRIES
    requires c !in s.used && c < |s.mem| && c < TWO_40
    ensures r < |s.mem|
    ensures var s' := TableMade(s, r, i, Some(c));
      WellFormed(s') && (SharedTop(s'.mem, s'.forest) <==> Present(s.mem[r][i]))
  {
    hide PagesOwned, NoEmptyTables, KernelIsUpper, Entry, Present, FrameOf, FlagsOf;
    MappingLaws.RootsInMemory(s);
    RootFrame(s, r);
    if !Present(s.mem[r][i]) {
      TableEntry(c);
      var w := Entry(c * PAGE_SIZE, READ_WRITE_USER);
      PrivateTable(s, r, i, c, w);
    }
  }

  lemma {:induction false} RootFrame(s: State, r: nat)
    requires WellFormed(s) && s.forest.IsRoot(r)
    ensures s.forest.tables[Node(r, Top)] == r && r < |s.mem| && r in s.used
  {}

  /** The two roots then differ in the slot, and the processor walks from the one into the new table and
      from the other nowhere. */
  lemma {:induction false} PrivateTable(s: State, r: nat, i: nat, c: nat, w: Word)
    requires Good(s) && s.forest.IsRoot(r) && r != s.forest.kernel && ENTRIES / 2 <= i < ENTRIES
    requires r < |s.mem| && !Present(s.mem[r][i]) && c !in s.used && c < |s.mem| && Present(w) && FrameOf(w) == c
    ensures var s' := State(Store(s.mem, r, i, w)[c := ZeroFrame()], s.forest, s.used + {c});
      && WellFormed(s') && !SharedTop(s'.mem, s'.forest)
      && TableAt(s'.mem, r, Down(Top, i)) == Some(c) && TableAt(s'.mem, s.forest.kernel, Down(Top, i)) == None
  {
    hide PagesOwned, NoEmptyTables, KernelIsUpper, Present, FrameOf, FlagsOf;
    var s' := State(Store(s.mem, r, i, w)[c := ZeroFrame()], s.forest, s.used + {c});
    var kernel := s.forest.kernel;
    RootFrame(s, r);
    RootFrame(s, kernel);
    forall n | n in s.forest.tables
      ensures s.forest.tables[n] != c && (s.forest.tables[n] == r ==> n == Node(r, Top))
      ensures s.forest.tables[n] != r ==> s'.mem[s.forest.tables[n]] == s.mem[s.forest.tables[n]]
    {
      assert s.forest.tables[n] in s.forest.tables.Values;
    }
    forall k: nat | k < ENTRIES && k != i ensures s'.mem[r][k] == s.mem[r][k] {}
    assert TopEntry(s.mem, s.forest, r, i) == TopEntry(s.mem, s.forest, kernel, i);
    assert TopEntry(s'.mem, s.forest, r, i) == w && s'.mem[kernel] == s.mem[kernel];
  }

  /** Where the slot is shared, the page is mapped for everybody. */
  lemma {:induction false} SharedPageIsSeen(s: State, s': State, v: Word, w: Word, q: nat)
    requires Good(s) && s.forest.IsRoot(q) && PageOf(v) >= LOWER_PAGES && Present(w)
    requires MapStep(s, s', Node(s.forest.kernel, PathOf(v)), w) && Node(s.forest.kernel, PathOf(v)) !in s.forest.pages
    requires Node(s.forest.kernel, TopSlot(PathOf(v))) in s.forest.tables
    ensures Translate(s'.mem, q, PathOf(v)) == Some(w)
  {
    hide Good, PathOf, MapStep, WellFormed, Present;
    LowerIff(v);
    StepKeepsGood(s, MapKernel(Node(s.forest.kernel, PathOf(v)), w), s');
    GoodShares(s);
    GoodShares(s');
    MappingLaws.MapTranslates(s, s', Node(s.forest.kernel, PathOf(v)), w, q, PathOf(v));
    KernelLookup(s, q, PathOf(v));
  }

  lemma {:induction false} KernelLookup(s: State, q: nat, p: Path)
    requires Good(s) && s.forest.IsRoot(q) && IsPage(p) && p.Down? && Upper(p)
    ensures Translate(s.mem, q, p).None? <==> Node(s.forest.kernel, p) !in s.forest.pages
  {
    TranslateIsLookup(s.mem, s.forest, q, p);
  }

  lemma {:induction false} GoodShares(s: State)
    requires Good(s)
    ensures WellFormed(s) && SharedTop(s.mem, s.forest)
  {
    hide Shape, Linked, SharedTop;
  }

  /** Giving back the table of an upper slot through a process root clears the entry of that root alone:
      the kernel root still points to the frame, which is free. */
  lemma {:induction false} FreedSlotDangles(s: State, r: nat, i: nat)
    requires Good(s) && s.forest.IsRoot(r) && r != s.forest.kernel && ENTRIES / 2 <= i < ENTRIES
    requires Node(s.forest.kernel, Top).Kid(i) in s.forest.tables && r < |s.mem|
    ensures var c := s.forest.tables[Node(s.forest.kernel, Top).Kid(i)];
      var s' := State(Store(s.mem, r, i, 0), s.forest, s.used - {c});
      TableAt(s'.mem, r, Down(Top, i)) == None
      && TableAt(s'.mem, s.forest.kernel, Down(Top, i)) == Some(c) && c !in s'.used
  {
    hide PagesOwned, NoEmptyTables, KernelIsUpper, SharedTop;
    RootFrame(s, r);
    RootFrame(s, s.forest.kernel);
    var n := Node(s.forest.kernel, Top);
    assert SlotOK(s.forest, n, i, s.mem[s.forest.tables[n]][i]);
  }
}
