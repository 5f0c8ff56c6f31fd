/** The address space that the loader and the stack builder work on is the lower half of a process
    root: what the processor translates is a map of pages, and what they do to it are steps of the
    page tables. */
module UserPaging {
  import opened Words
  import opened Wrappers
  import opened PhysicalMemory
  import opened ByteMemory
  import opened Forest
  import opened ForestSteps
  import opened AddressSpaceRuns
  import HeapRuns

  const TWO_47 := 0x8000_0000_0000
  const TWO_48 := 0x1_0000_0000_0000

  /** The pages below 2^47, the half of the address space that programs have. */
  const LOWER_PAGES := 0x8_0000_0000

  /** The pages an address can select: its upper 16 bits do not count. */
  const ALL_PAGES := 0x10_0000_0000

  /** The number of the page that an address selects. */
  function PageOf(vaddr: Word): nat { vaddr / PAGE_SIZE % ALL_PAGES }

  datatype Mapping = Mapping(frame: nat, flags: Word)

  function PageNode(root: nat, p: nat): Node
    requires p < LOWER_PAGES
  {
    Node(root, PathOf(p * PAGE_SIZE))
  }

  /** The pages of a process, by number. */
  ghost function UserMap(s: State, root: nat): map<nat, Mapping> {
    map p: nat | p < LOWER_PAGES && PageNode(root, p) in s.forest.pages ::
      Mapping(FrameOf(s.forest.pages[PageNode(root, p)]), FlagsOf(s.forest.pages[PageNode(root, p)]))
  }

  lemma {:induction false} PagesDiffer(root: nat, p: nat, q: nat)
    requires p < LOWER_PAGES && q < LOWER_PAGES && PageNode(root, p) == PageNode(root, q)
    ensures p == q
  {
    hide PathOf;
    PathIsPageNumber(p * PAGE_SIZE, q * PAGE_SIZE);
  }

  /** An address lies in the lower half exactly when its page number does. */
  lemma {:induction false} LowerIff(vaddr: Word)
    ensures var p := PathOf(vaddr); IsPage(p) && p.Down? && (Upper(p) <==> PageOf(vaddr) >= LOWER_PAGES)
  {
    hide PathOf;
    HeapRuns.FirstOfPathOf(vaddr);
    SlotOfPage(vaddr);
  }

  lemma {:induction false} SlotOfPage(vaddr: Word)
    ensures vaddr / 0x80_0000_0000 % ENTRIES == PageOf(vaddr) / 0x800_0000
  {
    var p := vaddr / PAGE_SIZE;
    assert vaddr / 0x80_0000_0000 == p / 0x800_0000;
    assert p == ALL_PAGES * (p / ALL_PAGES) + p % ALL_PAGES;
    assert p / 0x800_0000 == ENTRIES * (p / ALL_PAGES) + p % ALL_PAGES / 0x800_0000;
  }

  /** An address lies in the page of its number. */
  lemma {:induction false} AddressInPage(root: nat, v: Word)
    requires PageOf(v) < LOWER_PAGES
    ensures Node(root, PathOf(v)) == PageNode(root, PageOf(v))
  {
    hide PathOf;
    PathIsPageNumber(v, PageOf(v) * PAGE_SIZE);
  }

  /** The processor translates an address of a program exactly as the map of pages says. */
  lemma {:induction false} TranslateIsMap(s: State, root: nat, v: Word)
    requires Good(s) && s.forest.IsRoot(root) && PageOf(v) < LOWER_PAGES
    ensures var w := Translate(s.mem, root, PathOf(v)); var m := UserMap(s, root);
      && (w.Some? <==> PageOf(v) in m)
      && (w.Some? ==> m[PageOf(v)] == Mapping(FrameOf(w.value), FlagsOf(w.value)))
  {
    hide Good, PathOf, FrameOf, FlagsOf;
    AddressInPage(root, v);
    LowerIff(v);
    LookupIsTranslate(s, root, PathOf(v));
  }

  lemma {:induction false} LookupIsTranslate(s: State, root: nat, p: Path)
    requires Good(s) && s.forest.IsRoot(root) && IsPage(p) && p.Down? && !Upper(p)
    ensures Translate(s.mem, root, p) ==
      if Node(root, p) in s.forest.pages then Some(s.forest.pages[Node(root, p)]) else None
  {
    TranslateIsLookup(s.mem, s.forest, root, p);
  }

  /** The frames in use that hold no table. */
  ghost function DataFrames(s: State): set<nat> { s.used - s.forest.tables.Values }

  /** Every page of a process has a data frame of its own. */
  lemma {:induction false} MapIsValid(s: State, root: nat)
    requires Good(s) && root != s.forest.kernel
    ensures var m := UserMap(s, root);
      && (forall p :: p in m ==> m[p].frame in DataFrames(s))
      && (forall p, q :: p in m && q in m && m[p].frame == m[q].frame ==> p == q)
  {
    hide WellFormed, NoEmptyTables, SharedTop, KernelIsUpper, PageNode, FrameOf, FlagsOf;
    var m := UserMap(s, root);
    forall p | p in m ensures UserPage(s.forest, PageNode(root, p)) { NodeOfRoot(root, p); }
    forall p, q | p in m && q in m && m[p].frame == m[q].frame ensures p == q { PagesDiffer(root, p, q); }
  }

  lemma {:induction false} NodeOfRoot(root: nat, p: nat)
    requires p < LOWER_PAGES
    ensures PageNode(root, p).root == root
  {}

  /** A map step in the page tables is what `UserSpace.MapPage` does to the map. */
  lemma {:induction false} MapUserIsMapPage(s: State, s': State, root: nat, v: Word, w: Word)
    requires PageOf(v) < LOWER_PAGES && Step(s, MapUser(Node(root, PathOf(v)), w), s')
    ensures UserMap(s', root) ==
      if PageOf(v) in UserMap(s, root) then UserMap(s, root)
      else UserMap(s, root)[PageOf(v) := Mapping(FrameOf(w), FlagsOf(w))]
  {
    hide PathOf, WellFormed, GrowTables, MapWrites, HeldFrame, FrameOf, FlagsOf, PageNode, Upper, IsPage, Present;
    AddressInPage(root, v);
    forall p: nat | p < LOWER_PAGES && PageNode(root, p) == PageNode(root, PageOf(v)) ensures p == PageOf(v) {
      PagesDiffer(root, p, PageOf(v));
    }
  }

  /** A map step changes no frame in use but those that hold tables, and no such frame becomes a table. */
  lemma {:induction false} MapUserKeepsData(s: State, s': State, page: Node, w: Word)
    requires Step(s, MapUser(page, w), s')
    ensures DataFrames(s') == DataFrames(s) && s.used <= s'.used && |s'.mem| == |s.mem|
    ensures forall c: nat :: c in DataFrames(s) && c < |s.mem| ==> s'.mem[c] == s.mem[c]
  {
    hide WellFormed, TopKept, HeldFrame, FrameOf, Upper, IsPage, Present;
    forall c: nat | c in DataFrames(s) ensures NoTable(s.forest, c) && NoTable(s'.forest, c) {
      assert forall n :: n in s.forest.tables ==> s.forest.tables[n] in s.forest.tables.Values;
    }
    forall c | c in DataFrames(s') ensures c in DataFrames(s) {
      assert forall n :: n in s.forest.tables ==> s'.forest.tables[n] in s'.forest.tables.Values;
    }
  }

  lemma {:induction false} HeldIsData(s: State, c: nat)
    requires HeldFrame(s, c)
    ensures c in DataFrames(s)
  {}

  /** Storing a byte in a data frame is a step. */
  lemma {:induction false} StoreIsWrite(s: State, c: nat, f: Frame)
    requires c in DataFrames(s) && c < |s.mem|
    ensures Step(s, Write(c), State(s.mem[c := f], s.forest, s.used))
  {
    assert forall n :: n in s.forest.tables ==> s.forest.tables[n] in s.forest.tables.Values;
  }

  // ---------- What a program reads ----------

  /** The byte a program reads at an address, through the page tables. */
  ghost function ByteRead(s: State, root: nat, v: Word): Option<Byte> {
    var w := Translate(s.mem, root, PathOf(v));
    if w.Some? && FrameOf(w.value) < |s.mem| then
      InFrame(FrameOf(w.value), v % PAGE_SIZE);
      Some(ByteAt(s.mem, PAGE_SIZE * FrameOf(w.value) + v % PAGE_SIZE))
    else None
  }

  lemma {:induction false} InFrame(f: nat, k: nat)
    requires k < PAGE_SIZE
    ensures (PAGE_SIZE * f + k) / PAGE_SIZE == f
  {}

  // ---------- Runs for one process ----------

  /** There is a run from `s` to `s'` that builds in root `r`. */
  ghost predicate Builds(s: State, r: nat, s': State) {
    exists states, ops :: Run(states, ops) && RunOf(states, ops, s, r, s')
  }

  ghost predicate RunOf(states: seq<State>, ops: seq<Op>, s: State, r: nat, s': State) {
    |states| == |ops| + 1 && states[0] == s && states[|ops|] == s' && forall op :: op in ops ==> ActsOn(op, r)
  }

  lemma {:induction false} BuildsNothing(s: State, r: nat)
    ensures Builds(s, r, s)
  {
    hide Step;
    assert Run([s], []) && RunOf([s], [], s, r, s);
  }

  lemma {:induction false} BuildsMore(s: State, r: nat, s1: State, op: Op, s2: State)
    requires Builds(s, r, s1) && Step(s1, op, s2) && ActsOn(op, r)
    ensures Builds(s, r, s2)
  {
    hide Step, ActsOn;
    var states, ops :| Run(states, ops) && RunOf(states, ops, s, r, s1);
    var states', ops' := states + [s2], ops + [op];
    forall i | 0 <= i < |ops'| ensures Step(states'[i], ops'[i], states'[i + 1]) {
      if i < |ops| { assert Step(states[i], ops[i], states[i + 1]); }
    }
    assert Run(states', ops') && RunOf(states', ops', s, r, s2);
  }
}
