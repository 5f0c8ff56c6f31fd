/** Whole runs of the memory manager: any interleaving of root creation, fork, user mappings,
    kernel heap growth and shrinkage, destruction, and callers taking and returning frames. */
module AddressSpaceRuns {
  import opened Words
  import opened PhysicalMemory
  import opened Forest
  import opened ForestSteps
  import opened ForestCopy
  import opened ForestDestroy
  import opened MappingLaws

  /** The pages of process roots: these own their frames, while kernel pages are only views. */
  ghost predicate UserPage(f: Forest, p: Node) { p in f.pages && p.root != f.kernel }

  /** Process pages lie in distinct frames in use, none of which holds a table. */
  ghost predicate PagesOwned(s: State) {
    && (forall p :: UserPage(s.forest, p) ==> FrameOf(s.forest.pages[p]) in s.used)
    && (forall p, q ::
        UserPage(s.forest, p) && UserPage(s.forest, q) && FrameOf(s.forest.pages[p]) == FrameOf(s.forest.pages[q])
        ==> p == q)
    && (forall p, t ::
        UserPage(s.forest, p) && t in s.forest.tables ==> FrameOf(s.forest.pages[p]) != s.forest.tables[t])
  }

  /** The kernel root maps nothing in its lower half. */
  ghost predicate KernelIsUpper(f: Forest) {
    forall n :: InForest(f, n) && n.root == f.kernel && n.path.Down? ==> Upper(n.path)
  }

  /** The invariant of all runs. */
  ghost predicate Good(s: State) {
    WellFormed(s) && NoEmptyTables(s.forest) && SharedTop(s.mem, s.forest) && PagesOwned(s) && KernelIsUpper(s.forest)
  }

  /** A frame in use that is neither a table nor a process page: some caller holds it. */
  ghost predicate HeldFrame(s: State, c: nat) {
    c in s.used && NoTable(s.forest, c) && forall p :: UserPage(s.forest, p) ==> FrameOf(s.forest.pages[p]) != c
  }

  datatype Op =
    | MapUser(page: Node, entry: Word)
    | UnmapUser(page: Node)
    | MapKernel(page: Node, entry: Word)
    | UnmapKernel(page: Node)
    | Fork(parent: nat, child: nat)
    | Destroy(root: nat)
    | Take(frame: nat)
    | GiveBack(frame: nat)
    | Write(frame: nat)

  /** One step, made the way the kernel makes it: user pages get frames the caller holds; kernel
      pages are mapped, once process roots exist, only in PML4 slots that already hold a table, and
      are unmapped while another page (for the kernel heap, its first) keeps the slot; data is
      written outside the tables. */
  ghost predicate Step(s: State, op: Op, s': State) {
    match op
    case MapUser(page, w) =>
      && MapStep(s, s', page, w) && IsPage(page.path) && s.forest.IsRoot(page.root)
        && page.root != s.forest.kernel && !Upper(page.path)
      && Present(w) && HeldFrame(s, FrameOf(w))
    case UnmapUser(page) =>
      UnmapStep(s, s', page) && IsPage(page.path) && s.forest.IsRoot(page.root)
        && page.root != s.forest.kernel && !Upper(page.path)
    case MapKernel(page, w) =>
      && MapStep(s, s', page, w) && IsPage(page.path) && page.root == s.forest.kernel && Upper(page.path) && Present(w)
      && (Node(page.root, TopSlot(page.path)) in s.forest.tables || !OtherRoots(s.forest))
    case UnmapKernel(page) =>
      && UnmapStep(s, s', page) && IsPage(page.path) && page.root == s.forest.kernel && Upper(page.path)
      && (exists q :: q in s.forest.pages && q != page && q.root == page.root && First(q.path) == First(page.path))
    case Fork(parent, child) => ForkStep(s, s', parent, child)
    case Destroy(root) => DestroyStep(s, s', root)
    case Take(c) => c !in s.used && s' == State(s.mem, s.forest, s.used + {c})
    case GiveBack(c) => HeldFrame(s, c) && s' == State(s.mem, s.forest, s.used - {c})
    case Write(c) =>
      && NoTable(s.forest, c) && s'.forest == s.forest && s'.used == s.used && |s'.mem| == |s.mem|
      && forall d: nat :: d < |s.mem| && d != c ==> s'.mem[d] == s.mem[d]
  }

  // ---------- Every step keeps the invariant ----------

  lemma {:induction false} MapUserKeeps(s: State, s': State, page: Node, w: Word)
    requires Good(s) && Step(s, MapUser(page, w), s')
    ensures Good(s')
  {
    assert NoEmptyTables(s'.forest) by { MapKeepsNonEmptyIff(s, s', page, w); }
    assert SharedTop(s'.mem, s'.forest) by { MapKeepsSharedIff(s, s', page, w); }
    assert KernelIsUpper(s'.forest) by { MapKeepsKernelUpper(s, s', page, w); }
    MapOwned(s, s', page, w);
  }

  lemma {:induction false} MapKeepsKernelUpper(s: State, s': State, page: Node, w: Word)
    requires MapStep(s, s', page, w) && IsPage(page.path) && KernelIsUpper(s.forest)
    requires page.root == s.forest.kernel ==> Upper(page.path)
    ensures KernelIsUpper(s'.forest)
  {
    hide Shape, Linked;
    forall n | InForest(s'.forest, n) && n.root == s'.forest.kernel && n.path.Down? ensures Upper(n.path) {
      if n in s'.forest.tables && n !in s.forest.tables { UpperBelow(n.path, page.path); }
    }
  }

  lemma {:induction false} MapOwned(s: State, s': State, page: Node, w: Word)
    requires MapStep(s, s', page, w) && PagesOwned(s)
    requires page.root != s.forest.kernel ==> HeldFrame(s, FrameOf(w))
    ensures PagesOwned(s')
  {
    hide Shape, Linked;
    var f, f' := s.forest, s'.forest;
    forall p | UserPage(f', p) && !UserPage(f, p) ensures p == page && f'.pages[p] == w && HeldFrame(s, FrameOf(w)) {}
    forall p | UserPage(f, p) ensures f'.pages[p] == f.pages[p] {}
    forall p, t | UserPage(f', p) && t in f'.tables ensures FrameOf(f'.pages[p]) != f'.tables[t] {
      if t in f.tables { assert NoTable(f, FrameOf(w)) || UserPage(f, p); } else { assert f'.tables[t] !in s.used; }
    }
  }

  lemma {:induction false} UnmapKeeps(s: State, s': State, page: Node)
    requires Good(s) && UnmapStep(s, s', page) && IsPage(page.path)
    requires page.root == s.forest.kernel || !Upper(page.path)
    requires SharedTop(s'.mem, s'.forest)
    ensures Good(s')
  {
    UnmapKeepsNonEmpty(s, s', page);
    RootsSurvive(s, s', page);
    UnmapOwned(s, s', page);
  }

  lemma {:induction false} UnmapOwned(s: State, s': State, page: Node)
    requires UnmapStep(s, s', page) && PagesOwned(s) && KernelIsUpper(s.forest)
    requires s'.forest.pages == s.forest.pages - {page} && s'.forest.kernel == s.forest.kernel
    ensures PagesOwned(s') && KernelIsUpper(s'.forest)
  {
    hide Shape, Linked, Prune;
    forall p | UserPage(s'.forest, p) ensures UserPage(s.forest, p) && s'.forest.pages[p] == s.forest.pages[p] {}
    forall p | UserPage(s.forest, p) ensures FrameOf(s.forest.pages[p]) !in s.forest.tables.Values {}
  }

  lemma {:induction false} UnmapUserKeeps(s: State, s': State, page: Node)
    requires Good(s) && Step(s, UnmapUser(page), s')
    ensures Good(s')
  {
    UnmapKeepsSharedIff(s, s', page);
    UnmapKeeps(s, s', page);
  }

  lemma {:induction false} MapKernelKeeps(s: State, s': State, page: Node, w: Word)
    requires Good(s) && Step(s, MapKernel(page, w), s')
    ensures Good(s')
  {
    assert NoEmptyTables(s'.forest) by { MapKeepsNonEmptyIff(s, s', page, w); }
    assert SharedTop(s'.mem, s'.forest) by { MapKeepsSharedIff(s, s', page, w); }
    assert KernelIsUpper(s'.forest) by { MapKeepsKernelUpper(s, s', page, w); }
    MapOwned(s, s', page, w);
  }

  lemma {:induction false} UnmapKernelKeeps(s: State, s': State, page: Node)
    requires Good(s) && Step(s, UnmapKernel(page), s')
    ensures Good(s')
  {
    var q :| q in s.forest.pages && q != page && q.root == page.root && First(q.path) == First(page.path);
    SlotStays(s, s', page, q);
    UnmapKeepsSharedIff(s, s', page);
    UnmapKeeps(s, s', page);
  }

  lemma {:induction false} ForkKeeps(s: State, s': State, parent: nat, child: nat)
    requires Good(s) && ForkStep(s, s', parent, child)
    ensures Good(s')
  {
    assert s.forest.tables[Node(s.forest.kernel, Top)] == s.forest.kernel;
    ForkNonEmpty(s, s', parent, child);
    ForkShared(s, s', parent, child);
    ForkOwned(s, s', parent, child);
  }

  lemma {:induction false} ForkNonEmpty(s: State, s': State, parent: nat, child: nat)
    requires ForkStep(s, s', parent, child) && NoEmptyTables(s.forest)
    ensures NoEmptyTables(s'.forest)
  {
    hide Shape, Linked, FreshHomes;
    forall n | n in s'.forest.tables && n.path.Down? ensures s'.forest.HasKid(n) {
      var m := if n in s.forest.tables then n else Node(parent, n.path);
      assert s.forest.HasKid(m);
      var i: nat :| i < ENTRIES && (m.Kid(i) in s.forest.tables || m.Kid(i) in s.forest.pages);
      if n !in s.forest.tables {
        KidReached(n.path, i, ENTRIES / 2);
        assert Node(child, m.Kid(i).path) == n.Kid(i);
      }
      assert n.Kid(i) in s'.forest.tables || n.Kid(i) in s'.forest.pages;
    }
  }

  lemma {:induction false} KidReached(p: Path, i: nat, k: nat)
    requires p.Down? && Reached(Top, k, p)
    ensures Reached(Top, k, Down(p, i))
  {}

  lemma {:induction false} ForkShared(s: State, s': State, parent: nat, child: nat)
    requires ForkStep(s, s', parent, child) && SharedTop(s.mem, s.forest)
    ensures SharedTop(s'.mem, s'.forest)
  {
    hide Shape, Linked, AllTwins, FreshHomes;
    TablesInMemory(s);
    RootsInMemory(s);
    RootsInMemory(s');
    forall r: nat, i: nat | s'.forest.IsRoot(r) && ENTRIES / 2 <= i < ENTRIES
      ensures TopEntry(s'.mem, s'.forest, r, i) == TopEntry(s'.mem, s'.forest, s'.forest.kernel, i)
    {
      assert TopEntry(s'.mem, s'.forest, s.forest.kernel, i) == TopEntry(s.mem, s.forest, s.forest.kernel, i);
      if s.forest.IsRoot(r) {
        assert TopEntry(s.mem, s.forest, r, i) == TopEntry(s.mem, s.forest, s.forest.kernel, i);
      } else {
        assert r == child;
        assert TopEntry(s.mem, s.forest, parent, i) == TopEntry(s.mem, s.forest, s.forest.kernel, i);
      }
    }
  }

  lemma {:induction false} ForkOwned(s: State, s': State, parent: nat, child: nat)
    requires ForkStep(s, s', parent, child) && PagesOwned(s) && KernelIsUpper(s.forest) && child != s.forest.kernel
    ensures PagesOwned(s') && KernelIsUpper(s'.forest)
  {
    forall p | UserPage(s'.forest, p) ensures PageOrigin(s, s', p) { PageComesFrom(s, s', parent, child, p); }
    forall t | t in s'.forest.tables ensures TableOrigin(s, s', t) { TableComesFrom(s, s', parent, child, t); }
    assert forall n :: n in s'.forest.pages ==> n !in s'.forest.tables;
    hide Shape, Linked, AllTwins;
    ForkPagesOwned(s, s');
  }

  lemma {:induction false} PageComesFrom(s: State, s': State, parent: nat, child: nat, p: Node)
    requires ForkStep(s, s', parent, child) && PagesOwned(s) && UserPage(s'.forest, p)
    ensures PageOrigin(s, s', p)
  {
    hide Shape, Linked, AllTwins, OnlyTwins;
    PageNotTable(s.forest, p);
    PageNotTable(s'.forest, p);
    assert InForest(s'.forest, p);
    if InForest(s.forest, p) { assert UserPage(s.forest, p); }
  }

  lemma {:induction false} TableComesFrom(s: State, s': State, parent: nat, child: nat, t: Node)
    requires ForkStep(s, s', parent, child) && t in s'.forest.tables
    ensures TableOrigin(s, s', t)
  {
    hide Shape, Linked, AllTwins, OnlyTwins;
    PageNotTable(s.forest, t);
    PageNotTable(s'.forest, t);
    assert InForest(s'.forest, t);
  }

  lemma {:induction false} PageNotTable(f: Forest, m: Node)
    requires Shape(f)
    ensures !(m in f.tables && m in f.pages)
  {}

  /** Where a user page of the new state comes from: the old state, or a frame that was free. */
  ghost predicate PageOrigin(s: State, s': State, p: Node)
    requires p in s'.forest.pages
  {
    var c := FrameOf(s'.forest.pages[p]);
    c in s'.used && InForest(s'.forest, p) && Home(s'.forest, p) == c
    && if InForest(s.forest, p) then UserPage(s.forest, p) && s.forest.pages[p] == s'.forest.pages[p] else c !in s.used
  }

  ghost predicate TableOrigin(s: State, s': State, t: Node)
    requires t in s'.forest.tables
  {
    var c := s'.forest.tables[t];
    InForest(s'.forest, t) && Home(s'.forest, t) == c
    && if InForest(s.forest, t) then t in s.forest.tables && s.forest.tables[t] == c && c in s.used else c !in s.used
  }

  lemma {:induction false} ForkPagesOwned(s: State, s': State)
    requires PagesOwned(s) && FreshHomes(s, s') && (forall n :: n in s'.forest.pages ==> n !in s'.forest.tables)
    requires forall p :: UserPage(s'.forest, p) ==> PageOrigin(s, s', p)
    requires forall t :: t in s'.forest.tables ==> TableOrigin(s, s', t)
    ensures PagesOwned(s')
  {
    forall p, t | UserPage(s'.forest, p) && t in s'.forest.tables
      ensures FrameOf(s'.forest.pages[p]) != s'.forest.tables[t]
    {
      assert PageOrigin(s, s', p) && TableOrigin(s, s', t) && p != t;
    }
    forall p, q | UserPage(s'.forest, p) && UserPage(s'.forest, q)
                  && FrameOf(s'.forest.pages[p]) == FrameOf(s'.forest.pages[q])
      ensures p == q
    {
      assert PageOrigin(s, s', p) && PageOrigin(s, s', q);
    }
  }

  lemma {:induction false} DestroyKeeps(s: State, s': State, r: nat)
    requires Good(s) && DestroyStep(s, s', r)
    ensures Good(s')
  {
    var f, f' := s.forest, s'.forest;
    forall n | n in f'.tables && n.path.Down? ensures f'.HasKid(n) {
      assert f.HasKid(n);
      var i: nat :| i < ENTRIES && (n.Kid(i) in f.tables || n.Kid(i) in f.pages);
      assert n.Kid(i) in f'.tables || n.Kid(i) in f'.pages;
    }
    forall r': nat, i: nat | f'.IsRoot(r') && ENTRIES / 2 <= i < ENTRIES
      ensures TopEntry(s'.mem, f', r', i) == TopEntry(s'.mem, f', f'.kernel, i)
    {
      assert TopEntry(s.mem, f, r', i) == TopEntry(s.mem, f, f.kernel, i);
    }
    DestroyOwned(s, s', r);
  }

  lemma {:induction false} DestroyOwned(s: State, s': State, r: nat)
    requires DestroyStep(s, s', r) && PagesOwned(s) && KernelIsUpper(s.forest)
    ensures PagesOwned(s') && KernelIsUpper(s'.forest)
  {
    hide Shape, Linked;
    forall p | UserPage(s'.forest, p)
      ensures UserPage(s.forest, p) && s.forest.pages[p] == s'.forest.pages[p] && p.root != r {}
    forall p | UserPage(s'.forest, p) ensures FrameOf(s'.forest.pages[p]) in s'.used {
      forall m | m in Doomed(s.forest, r) ensures Home(s.forest, m) != FrameOf(s.forest.pages[p]) {
        HomesApart(s, r, m, p);
      }
    }
  }

  /** A page of one process is in no frame of another root. */
  lemma {:induction false} HomesApart(s: State, r: nat, m: Node, p: Node)
    requires PagesOwned(s) && InForest(s.forest, m) && m.root == r
      && r != s.forest.kernel && UserPage(s.forest, p) && p.root != r
    ensures Home(s.forest, m) != FrameOf(s.forest.pages[p])
  {}

  /** In a good state `destroy` does not hit the double-free panic and touches nobody else's frames. */
  lemma {:induction false} DestroySucceeds(s: State, r: nat)
    requires Good(s) && s.forest.IsRoot(r) && r != s.forest.kernel
    ensures PagesApart(s, r) && Distinct(s, Doomed(s.forest, r))
  {
    hide TableShape, PageShape, Linked, NoEmptyTables, SharedTop, KernelIsUpper;
    forall m | m in Doomed(s.forest, r) ensures m in s.forest.tables || UserPage(s.forest, m) {}
    forall p | p in s.forest.pages && p.root == r ensures UserPage(s.forest, p) {}
  }

  /** In a good state every root can be forked: its pages are backed by memory. */
  lemma {:induction false} ForkPossible(s: State, parent: nat)
    requires Good(s) && s.forest.IsRoot(parent) && forall c :: c in s.used ==> c < |s.mem|
    ensures PagesBacked(s, parent)
  {
    forall m | m in s.forest.pages && m.root == parent && !Upper(m.path) ensures UserPage(s.forest, m) {
      assert InForest(s.forest, m) && m.path.Down?;
    }
  }

  lemma {:induction false} CallerKeeps(s: State, op: Op, s': State)
    requires Good(s) && Step(s, op, s') && (op.Take? || op.GiveBack? || op.Write?)
    ensures Good(s')
  {
    hide Shape, Linked, NoEmptyTables, KernelIsUpper;
    TablesInMemory(s);
    assert s'.forest == s.forest;
    forall n | n in s.forest.tables
      ensures s'.mem[s.forest.tables[n]] == s.mem[s.forest.tables[n]] && s.forest.tables[n] in s'.used {}
    LinksKept(s.mem, s'.mem, s.forest);
    RootsInMemory(s);
    RootsInMemory(s');
    forall r: nat, i: nat | s.forest.IsRoot(r) && ENTRIES / 2 <= i < ENTRIES
      ensures TopEntry(s'.mem, s.forest, r, i) == TopEntry(s'.mem, s.forest, s.forest.kernel, i)
    {
      assert TopEntry(s.mem, s.forest, r, i) == TopEntry(s.mem, s.forest, s.forest.kernel, i);
    }
  }

  lemma {:induction false} TablesInMemory(s: State)
    requires WellFormed(s)
    ensures forall n :: n in s.forest.tables ==> s.forest.tables[n] < |s.mem|
    ensures forall r: nat :: s.forest.IsRoot(r) ==> s.forest.tables[Node(r, Top)] == r
  {}

  lemma {:induction false} LinksKept(mem: seq<Frame>, mem': seq<Frame>, f: Forest)
    requires Linked(mem, f) && |mem'| == |mem| && forall n :: n in f.tables ==> mem'[f.tables[n]] == mem[f.tables[n]]
    ensures Linked(mem', f)
  {
    forall n, i: nat | n in f.tables && f.OwnedSlot(n, i) ensures SlotOK(f, n, i, mem'[f.tables[n]][i]) {
      assert SlotOK(f, n, i, mem[f.tables[n]][i]);
    }
  }

  lemma {:induction false} StepKeepsGood(s: State, op: Op, s': State)
    requires Good(s) && Step(s, op, s')
    ensures Good(s')
  {
    match op
    case MapUser(page, w) => MapUserKeeps(s, s', page, w);
    case UnmapUser(page) => UnmapUserKeeps(s, s', page);
    case MapKernel(page, w) => MapKernelKeeps(s, s', page, w);
    case UnmapKernel(page) => UnmapKernelKeeps(s, s', page);
    case Fork(parent, child) => ForkKeeps(s, s', parent, child);
    case Destroy(root) => DestroyKeeps(s, s', root);
    case _ => CallerKeeps(s, op, s');
  }

  // ---------- Runs ----------

  ghost predicate Run(states: seq<State>, ops: seq<Op>) {
    |states| == |ops| + 1 && forall i :: 0 <= i < |ops| ==> Step(states[i], ops[i], states[i + 1])
  }

  /** The state after boot: the kernel root, empty, and no other table. */
  lemma {:induction false} BootIsGood(s: State)
    requires s.forest == Forest(s.forest.kernel, map[Node(s.forest.kernel, Top) := s.forest.kernel], map[])
    requires s.forest.kernel < |s.mem| && s.mem[s.forest.kernel] == ZeroFrame() && s.forest.kernel in s.used
    ensures Good(s)
  {
    assert Linked(s.mem, s.forest);
  }

  lemma {:induction false} RunKeepsGood(states: seq<State>, ops: seq<Op>, k: nat)
    requires Run(states, ops) && Good(states[0]) && k < |states|
    ensures Good(states[k])
  {
    hide Good, Step;
    if k > 0 {
      RunKeepsGood(states, ops, k - 1);
      StepKeepsGood(states[k - 1], ops[k - 1], states[k]);
    }
  }

  /** At every moment of every run, every live root translates every upper-half page exactly as the
      kernel root does. */
  lemma {:induction false} KernelHalfCoherent(states: seq<State>, ops: seq<Op>, k: nat, r: nat, p: Path)
    requires Run(states, ops) && Good(states[0]) && k < |states|
    requires states[k].forest.IsRoot(r) && IsPage(p) && Upper(p)
    ensures Translate(states[k].mem, r, p) == Translate(states[k].mem, states[k].forest.kernel, p)
  {
    RunKeepsGood(states, ops, k);
    UpperHalfAgrees(states[k], r, p);
  }

  /** At every moment of every run, what a process can reach in its lower half is its own: no other
      process, no other page of it and no page table lies in the same frame. */
  lemma {:induction false} ProcessesIsolated(states: seq<State>,
    ops: seq<Op>, k: nat, r: nat, p: Path, r': nat, q: Path, t: Node)
    requires Run(states, ops) && Good(states[0]) && k < |states|
    requires var s := states[k];
             && s.forest.IsRoot(r) && s.forest.IsRoot(r') && IsPage(p) && IsPage(q) && !Upper(p) && !Upper(q)
             && Translate(s.mem, r, p).Some? && Translate(s.mem, r', q).Some?
    ensures var s := states[k];
            && (FrameOf(Translate(s.mem, r, p).value) == FrameOf(Translate(s.mem, r', q).value) ==> r == r' && p == q)
            && (t in s.forest.tables ==> FrameOf(Translate(s.mem, r, p).value) != s.forest.tables[t])
            && FrameOf(Translate(s.mem, r, p).value) in s.used
  {
    RunKeepsGood(states, ops, k);
    var s := states[k];
    TranslateIsLookup(s.mem, s.forest, r, p);
    TranslateIsLookup(s.mem, s.forest, r', q);
    LowerIsUser(s, r, p);
    LowerIsUser(s, r', q);
  }

  lemma {:induction false} LowerIsUser(s: State, r: nat, p: Path)
    requires Good(s) && !Upper(p) && p.Down?
    ensures Node(r, p) in s.forest.pages ==> UserPage(s.forest, Node(r, p))
  {
    if Node(r, p) in s.forest.pages { assert InForest(s.forest, Node(r, p)); }
  }

  // ---------- Conservation of frames ----------

  /** The frames held by callers. */
  ghost function Held(s: State): set<nat> { set c | c in s.used && HeldFrame(s, c) }

  /** The frames the forest occupies: its tables and the pages of processes. */
  ghost function Occupied(f: Forest): set<nat> {
    f.tables.Values + (set p | p in f.pages && p.root != f.kernel :: FrameOf(f.pages[p]))
  }

  /** Every frame in use is either held by a caller or occupied, never both. */
  lemma {:induction false} Partition(s: State)
    requires Good(s)
    ensures s.used == Held(s) + Occupied(s.forest) && Held(s) !! Occupied(s.forest)
  {
    hide Shape, Linked;
    forall c | c in s.used && c !in Occupied(s.forest) ensures c in Held(s) {
      forall n | n in s.forest.tables
        ensures s.forest.tables[n] != c
      {
        assert s.forest.tables[n] in s.forest.tables.Values;
      }
      forall p | UserPage(s.forest, p)
        ensures FrameOf(s.forest.pages[p]) != c
      {
        assert p in s.forest.pages && p.root != s.forest.kernel;
      }
    }
    forall c | c in Occupied(s.forest) ensures c in s.used && !HeldFrame(s, c) {
      if c in s.forest.tables.Values {
        var n :| n in s.forest.tables && s.forest.tables[n] == c;
      } else {
        var p :| p in s.forest.pages && p.root != s.forest.kernel && FrameOf(s.forest.pages[p]) == c;
        assert UserPage(s.forest, p);
      }
    }
  }

  /** The frames `destroy` forgets: those in the PML4 slot it skips. */
  ghost function Leaked(f: Forest, r: nat): set<nat> {
    Homes(f, set m | m in Nodes(f) && m.root == r && m.path.Down? && First(m.path) == SKIPPED_SLOT)
  }

  /** What a caller holds after a step: the page tables neither lose a frame nor hand one out. */
  ghost function HeldAfter(s: State, op: Op): set<nat> {
    match op
    case MapUser(page, w) => if page in s.forest.pages then Held(s) else Held(s) - {FrameOf(w)}
    case UnmapUser(page) => if page in s.forest.pages then Held(s) + {FrameOf(s.forest.pages[page])} else Held(s)
    case Destroy(r) => Held(s) + Leaked(s.forest, r)
    case Take(c) => Held(s) + {c}
    case GiveBack(c) => Held(s) - {c}
    case _ => Held(s)
  }

  lemma {:induction false} MapUserHeld(s: State, s': State, page: Node, w: Word)
    requires Good(s) && Good(s') && Step(s, MapUser(page, w), s')
    ensures Held(s') == HeldAfter(s, MapUser(page, w))
  {
    hide Good, MapStep, Occupied, Present;
    Partition(s);
    Partition(s');
    MapOccupied(s, s', page, w);
  }

  lemma {:induction false} MapKernelHeld(s: State, s': State, page: Node, w: Word)
    requires Good(s) && Good(s') && Step(s, MapKernel(page, w), s')
    ensures Held(s') == Held(s)
  {
    hide Good, MapStep, Occupied, Present;
    Partition(s);
    Partition(s');
    MapOccupied(s, s', page, w);
  }

  lemma {:induction false} MapOccupied(s: State, s': State, page: Node, w: Word)
    requires MapStep(s, s', page, w) && Present(w)
    ensures Occupied(s'.forest) == Occupied(s.forest) + s'.forest.tables.Values
              + (if page in s.forest.pages || page.root == s.forest.kernel then {} else {FrameOf(w)})
    ensures s'.used == s.used + s'.forest.tables.Values && (s'.forest.tables.Values - s.forest.tables.Values) !! s.used
  {
    hide Shape, Linked, MapWrites;
    var f, f' := s.forest, s'.forest;
    forall c | c in f.tables.Values ensures c in f'.tables.Values {
      var n :| n in f.tables && f.tables[n] == c;
      assert f'.tables[n] == c;
    }
    forall c | c in f'.tables.Values && c !in f.tables.Values ensures c !in s.used {
      var n :| n in f'.tables && f'.tables[n] == c;
      assert n !in f.tables;
    }
    forall p | p in f.pages && p.root != f.kernel ensures p in f'.pages && f'.pages[p] == f.pages[p] {}
    if page !in f.pages && page.root != f.kernel { assert page in f'.pages && f'.pages[page] == w; }
  }

  lemma {:induction false} UnmapHeld(s: State, s': State, page: Node)
    requires Good(s) && Good(s') && UnmapStep(s, s', page)
    ensures Held(s') == if page in s.forest.pages && page.root != s.forest.kernel
      then Held(s) + {FrameOf(s.forest.pages[page])} else Held(s)
  {
    hide UnmapStep, WellFormed, Shape, Linked, NoEmptyTables, SharedTop, PagesOwned, KernelIsUpper, Held, Occupied;
    RootsSurvive(s, s', page);
    UnmapOccupied(s, s', page);
    if UserPage(s.forest, page) { PageFrameFree(s, s', page); }
    Partition(s);
    Partition(s');
    HeldAlgebra(s.used, Occupied(s.forest), s'.used, Occupied(s'.forest),
      s.forest.tables.Values - s'.forest.tables.Values,
                if page in s.forest.pages && page.root != s.forest.kernel
                  then {FrameOf(s.forest.pages[page])} else {}, Held(s), Held(s'));
  }

  lemma {:induction false} HeldAlgebra(used: set<nat>, occ: set<nat>, used': set<nat>,
    occ': set<nat>, gone: set<nat>, x: set<nat>, held: set<nat>, held': set<nat>)
    requires used' == used - gone && occ' == occ - gone - x && gone <= occ && x <= occ && x !! gone
    requires used == held + occ && held !! occ && used' == held' + occ' && held' !! occ'
    ensures held' == held + x
  {}

  lemma {:induction false} PageFrameFree(s: State, s': State, page: Node)
    requires Good(s) && UserPage(s.forest, page)
    ensures FrameOf(s.forest.pages[page]) in s.used && FrameOf(s.forest.pages[page]) !in s.forest.tables.Values
    ensures FrameOf(s.forest.pages[page]) in Occupied(s.forest)
  {
    hide Shape, Linked;
    NotValue(s.forest.tables, FrameOf(s.forest.pages[page]));
  }

  lemma {:induction false} NotValue(m: map<Node, nat>, c: nat)
    requires forall n :: n in m ==> m[n] != c
    ensures c !in m.Values
  {}

  lemma {:induction false} UnmapOccupied(s: State, s': State, page: Node)
    requires PagesOwned(s) && UnmapStep(s, s', page)
    requires s'.forest.pages == s.forest.pages - {page} && s'.forest.kernel == s.forest.kernel
    ensures var gone := s.forest.tables.Values - s'.forest.tables.Values;
            && Occupied(s'.forest) == Occupied(s.forest) - gone - (if page in s.forest.pages
              && page.root != s.forest.kernel then {FrameOf(s.forest.pages[page])} else {})
            && s'.used == s.used - gone && gone <= Occupied(s.forest)
  {
    hide Shape, Linked, Prune;
    var f, f' := s.forest, s'.forest;
    var gone := f.tables.Values - f'.tables.Values;
    forall c ensures c in f'.tables.Values ==> c in f.tables.Values {
      if c in f'.tables.Values {
        var n :| n in f'.tables && f'.tables[n] == c;
        assert f.tables[n] == c;
      }
    }
    forall p | UserPage(f, p) ensures FrameOf(f.pages[p]) !in f.tables.Values {
      NotValue(f.tables, FrameOf(f.pages[p]));
    }
    forall p | p in f.pages && p.root != f.kernel && p != page ensures p in f'.pages && UserPage(f, p) {}
    if page in f.pages && page.root != f.kernel { assert UserPage(f, page); }
  }

  lemma {:induction false} ForkHeld(s: State, s': State, parent: nat, child: nat)
    requires Good(s) && Good(s') && ForkStep(s, s', parent, child)
    ensures Held(s') == Held(s)
  {
    hide Shape, Linked, AllTwins, NoEmptyTables, SharedTop, OnlyTwins, PagesOwned, KernelIsUpper, HeldFrame;
    ForkChildNew(s, s', parent, child);
    Partition(s);
    Partition(s');
    forall c | c in Occupied(s.forest) ensures c in Occupied(s'.forest) { OccupiedStays(s, s', c); }
    forall c | c in s'.used && c !in s.used ensures c in Occupied(s'.forest) {
      var m :| InForest(s'.forest, m) && !InForest(s.forest, m) && Home(s'.forest, m) == c;
      NewIsOccupied(s, s', parent, child, m);
    }
    forall c | c in Occupied(s'.forest) && c in s.used ensures c in Occupied(s.forest) { OccupiedBefore(s, s', c); }
  }

  lemma {:induction false} ForkChildNew(s: State, s': State, parent: nat, child: nat)
    requires ForkStep(s, s', parent, child)
    ensures child != s.forest.kernel && !s.forest.IsRoot(child)
  {
    hide Linked, Copied;
    assert s.forest.tables[Node(s.forest.kernel, Top)] == s.forest.kernel;
  }

  lemma {:induction false} OccupiedStays(s: State, s': State, c: nat)
    requires Preserved(s, s') && c in Occupied(s.forest)
    ensures c in Occupied(s'.forest)
  {
    if c in s.forest.tables.Values {
      var n :| n in s.forest.tables && s.forest.tables[n] == c;
      assert s'.forest.tables[n] == c;
    } else {
      var p :| p in s.forest.pages && p.root != s.forest.kernel && FrameOf(s.forest.pages[p]) == c;
      assert p in s'.forest.pages && s'.forest.pages[p] == s.forest.pages[p];
    }
  }

  lemma {:induction false} NewIsOccupied(s: State, s': State, parent: nat, child: nat, m: Node)
    requires ForkStep(s, s', parent, child) && InForest(s'.forest, m)
      && !InForest(s.forest, m) && child != s.forest.kernel
    ensures Home(s'.forest, m) in Occupied(s'.forest)
  {
    hide Shape, Linked, AllTwins, FreshHomes;
    if m in s'.forest.tables { assert s'.forest.tables[m] in s'.forest.tables.Values; }
  }

  lemma {:induction false} OccupiedBefore(s: State, s': State, c: nat)
    requires Shape(s.forest) && Shape(s'.forest) && Preserved(s, s')
      && FreshHomes(s, s') && c in s.used && c in Occupied(s'.forest)
    ensures c in Occupied(s.forest)
  {
    var m: Node;
    if c in s'.forest.tables.Values {
      m :| m in s'.forest.tables && s'.forest.tables[m] == c;
    } else {
      m :| m in s'.forest.pages && m.root != s'.forest.kernel && FrameOf(s'.forest.pages[m]) == c;
      assert m !in s'.forest.tables;
    }
    assert Home(s'.forest, m) == c && InForest(s.forest, m);
    HomeKept(s.forest, s'.forest, m);
    if m in s.forest.tables { assert s.forest.tables[m] in s.forest.tables.Values; }
  }

  lemma {:induction false} DestroyHeld(s: State, s': State, r: nat)
    requires Good(s) && Good(s') && DestroyStep(s, s', r)
    ensures Held(s') == Held(s) + Leaked(s.forest, r)
  {
    hide WellFormed, NoEmptyTables, SharedTop, PagesOwned, KernelIsUpper, Occupied;
    Partition(s);
    Partition(s');
    var f, f' := s.forest, s'.forest;
    var skipped := set m | m in Nodes(f) && m.root == r && m.path.Down? && First(m.path) == SKIPPED_SLOT;
    var all := set m | m in Nodes(f) && m.root == r;
    assert all == Doomed(f, r) + skipped;
    forall m | m in all ensures m in f.tables || UserPage(f, m) {}
    assert Homes(f, all) == Homes(f, Doomed(f, r)) + Homes(f, skipped);
    DestroyOccupied(s, s', r, all);
    SkippedApart(s, r, skipped);
  }

  lemma {:induction false} DestroyOccupied(s: State, s': State, r: nat, all: set<Node>)
    requires Good(s) && DestroyStep(s, s', r) && all == (set m | m in Nodes(s.forest) && m.root == r)
    ensures Occupied(s.forest) == Occupied(s'.forest) + Homes(s.forest, all)
      && Occupied(s'.forest) !! Homes(s.forest, all)
  {
    hide Shape, Linked, NoEmptyTables, SharedTop, KernelIsUpper;
    var f, f' := s.forest, s'.forest;
    forall p | p in f.pages ensures p !in f.tables { PageNotTable(f, p); }
    forall c | c in Occupied(f) ensures c in Occupied(f') || c in Homes(f, all) {
      var m := Occupant(f, c);
      if m.root == r {
        assert m in all;
      } else if m in f.tables {
        assert m in f'.tables && f'.tables[m] in f'.tables.Values;
      } else {
        assert m in f'.pages;
      }
    }
    forall c | c in Occupied(f') ensures c in Occupied(f) && c !in Homes(f, all) {
      var m := Occupant(f', c);
      assert Home(f, m) == c && m in Nodes(f) && m !in all;
      if m in f.tables { assert f.tables[m] in f.tables.Values; } else { assert UserPage(f, m); }
      forall m' | m' in all ensures Home(f, m') != c {
        if m in f.tables { OtherHome(s, r, m', m); } else { HomesApart(s, r, m', m); }
      }
    }
    forall c | c in Homes(f, all) ensures c in Occupied(f) {
      var m :| m in all && Home(f, m) == c;
      if m in f.tables { assert f.tables[m] in f.tables.Values; }
    }
  }

  /** A table of one root is in no frame of another. */
  lemma {:induction false} OtherHome(s: State, r: nat, m: Node, t: Node)
    requires Good(s) && InForest(s.forest, m) && m.root == r
      && r != s.forest.kernel && t in s.forest.tables && t.root != r
    ensures Home(s.forest, m) != s.forest.tables[t]
  {
    hide TableShape, PageShape, Linked, NoEmptyTables, SharedTop, KernelIsUpper;
    if m !in s.forest.tables { assert UserPage(s.forest, m); }
  }

  /** The node that occupies a frame. */
  lemma {:induction false} Occupant(f: Forest, c: nat) returns (m: Node)
    requires c in Occupied(f) && forall p :: p in f.pages ==> p !in f.tables
    ensures InForest(f, m) && Home(f, m) == c && (m in f.pages ==> m.root != f.kernel)
  {
    if c in f.tables.Values {
      m :| m in f.tables && f.tables[m] == c;
    } else {
      m :| m in f.pages && m.root != f.kernel && FrameOf(f.pages[m]) == c;
    }
  }

  lemma {:induction false} SkippedApart(s: State, r: nat, skipped: set<Node>)
    requires Good(s) && s.forest.IsRoot(r) && r != s.forest.kernel
    requires skipped == (set m | m in Nodes(s.forest) && m.root == r && m.path.Down? && First(m.path) == SKIPPED_SLOT)
    ensures Homes(s.forest, skipped) !! Homes(s.forest, Doomed(s.forest, r)) && Homes(s.forest, skipped) <= s.used
  {
    hide TableShape, PageShape, Linked, NoEmptyTables, SharedTop, KernelIsUpper;
    forall m | m in skipped + Doomed(s.forest, r) ensures m in s.forest.tables || UserPage(s.forest, m) {}
    forall m, m' | m in skipped && m' in Doomed(s.forest, r)
      ensures Home(s.forest, m) != Home(s.forest, m')
    {
      assert m != m';
    }
  }

  /** Callers gain and lose frames only through their own steps. */
  lemma {:induction false} HeldLaw(s: State, op: Op, s': State)
    requires Good(s) && Step(s, op, s')
    ensures Held(s') == HeldAfter(s, op)
  {
    StepKeepsGood(s, op, s');
    match op
    case MapUser(page, w) => MapUserHeld(s, s', page, w);
    case UnmapUser(page) => UnmapHeld(s, s', page);
    case MapKernel(page, w) => MapKernelHeld(s, s', page, w);
    case UnmapKernel(page) => UnmapHeld(s, s', page);
    case Fork(parent, child) => ForkHeld(s, s', parent, child);
    case Destroy(root) => DestroyHeld(s, s', root);
    case _ =>
      Partition(s);
      Partition(s');
  }

  // ---------- The life of a process ----------

  /** Steps that build up or take down the lower half of root `r`, and frames changing hands. */
  predicate ActsOn(op: Op, r: nat) {
    match op
    case MapUser(page, _) => page.root == r
    case UnmapUser(page) => page.root == r
    case Take(_) => true
    case GiveBack(_) => true
    case Write(_) => true
    case _ => false
  }

  lemma {:induction false} ActsOnlyOnRoot(s: State, op: Op, s': State, r: nat)
    requires Step(s, op, s') && ActsOn(op, r) && r != s.forest.kernel
    ensures Without(s'.forest, r) == Without(s.forest, r) && s'.forest.kernel == s.forest.kernel
  {
    hide Shape, Linked, MapWrites, OnlyTablesWritten, TopKept;
    match op
    case MapUser(page, w) =>
      assert Without(s'.forest, r).tables == Without(s.forest, r).tables;
    case UnmapUser(page) =>
      if page in s.forest.pages {
        PruneOnlyRoot(s.forest.(pages := s.forest.pages - {page}), page.Parent());
        PruneKeepsTops(s.forest.(pages := s.forest.pages - {page}), page.Parent());
      }
    case _ =>
  }

  lemma {:induction false} PruneOnlyRoot(f: Forest, n: Node)
    ensures forall m ::
      m in f.tables && m.root != n.root ==> m in Prune(f, n).tables && Prune(f, n).tables[m] == f.tables[m]
    decreases n.path
  {
    if n.path.Down? && !f.HasKid(n) { PruneOnlyRoot(f.(tables := f.tables - {n}), n.Parent()); }
  }

  lemma {:induction false} LifeOf(states: seq<State>, ops: seq<Op>, r: nat, k: nat)
    requires Run(states, ops) && r != states[0].forest.kernel && k < |states|
    requires forall i :: 0 <= i < k ==> ActsOn(ops[i], r)
    ensures Without(states[k].forest, r) == Without(states[0].forest, r)
      && states[k].forest.kernel == states[0].forest.kernel
  {
    hide Step, Without;
    if k > 0 {
      LifeOf(states, ops, r, k - 1);
      ActsOnlyOnRoot(states[k - 1], ops[k - 1], states[k], r);
    }
  }

  /** A process root that is created, given any mappings and unmappings, and destroyed leaves the
      forest as it found it; the frames in use afterwards are those in use before, but for what
      callers hold now instead of then. */
  lemma {:induction false} ProcessLifetime(before: State,
    states: seq<State>, ops: seq<Op>, parent: nat, r: nat, after: State)
    requires Run(states, ops) && Good(before) && ForkStep(before, states[0], parent, r)
    requires forall op :: op in ops ==> ActsOn(op, r)
    requires DestroyStep(states[|ops|], after, r)
    ensures after.forest == before.forest
    ensures after.used == (before.used - Held(before)) + Held(after)
    ensures Good(after)
  {
    hide Good, WellFormed, Copied, Held, Occupied, Without;
    ForkChildNew(before, states[0], parent, r);
    StepKeepsGood(before, Fork(parent, r), states[0]);
    RunKeepsGood(states, ops, |ops|);
    StepKeepsGood(states[|ops|], Destroy(r), after);
    ForkWithout(before, states[0], parent, r);
    LifeOf(states, ops, r, |ops|);
    Partition(before);
    Partition(after);
  }

  lemma {:induction false} ForkWithout(s: State, s': State, parent: nat, child: nat)
    requires ForkStep(s, s', parent, child) && child != s.forest.kernel
    ensures Without(s'.forest, child) == s.forest && s'.forest.kernel == s.forest.kernel
  {
    hide Shape, Linked, AllTwins, FreshHomes, Vacant;
    forall m | InForest(s.forest, m) ensures m.root != child { NotChild(s, child, m); }
    Restriction(s'.forest.tables, s.forest.tables, child);
    Restriction(s'.forest.pages, s.forest.pages, child);
  }

  lemma {:induction false} NotChild(s: State, child: nat, m: Node)
    requires WellFormed(s) && child !in s.used && InForest(s.forest, m)
    ensures m.root != child
  {
    hide Shape, Linked;
    RootVacant(s, child);
    AtTop(m.path);
  }

  /** Taking the nodes of a root out of a map to which only such nodes were added. */
  lemma {:induction false} Restriction<V>(m: map<Node, V>, m0: map<Node, V>, r: nat)
    requires forall n :: n in m0 ==> n in m && m[n] == m0[n] && n.root != r
    requires forall n :: n in m && n !in m0 ==> n.root == r
    ensures (map n | n in m && n.root != r :: m[n]) == m0
  {}

  lemma {:induction false} AtTop(p: Path)
    ensures AtOrBelow(Top, p)
  {
    if p.Down? { AtTop(p.up); }
  }
}
