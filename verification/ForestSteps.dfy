/** The elementary changes to a forest, each with the store to memory that makes it. */
module ForestSteps {
  import opened Words
  import opened Wrappers
  import opened PhysicalMemory
  import opened Forest

  /** A store of one entry. */
  function Store(mem: seq<Frame>, t: nat, i: nat, w: Word): (r: seq<Frame>)
    requires t < |mem| && i < ENTRIES
    ensures |r| == |mem|
  {
    mem[t := mem[t][i := w]]
  }

  ghost predicate NoTable(f: Forest, c: nat) {
    forall n :: n in f.tables ==> f.tables[n] != c
  }

  /** Hanging a fresh, zeroed table in an absent slot. */
  lemma {:induction false} AddTable(mem: seq<Frame>, f: Forest, n: Node, i: nat, c: nat, w: Word) returns (f': Forest)
    requires Shape(f) && Linked(mem, f)
    requires n in f.tables && Depth(n.path) < 3 && f.OwnedSlot(n, i) && n.Kid(i) !in f.tables
    requires c < |mem| && NoTable(f, c) && Present(w) && FrameOf(w) == c && Permissive(w)
    ensures f' == f.(tables := f.tables[n.Kid(i) := c])
    ensures Shape(f') && Linked(Store(mem, f.tables[n], i, w)[c := ZeroFrame()], f')
  {
    f' := f.(tables := f.tables[n.Kid(i) := c]);
    AddTableShape(f, n, i, c);
    assert forall j: nat :: n.Kid(i).Kid(j) !in f.tables && n.Kid(i).Kid(j) !in f.pages by {
      forall j: nat ensures n.Kid(i).Kid(j) !in f.tables && n.Kid(i).Kid(j) !in f.pages {
        assert n.Kid(i).Kid(j).Parent() == n.Kid(i);
      }
    }
    AddTableLinks(mem, f, n, i, c, w);
  }

  lemma {:induction false} AddTableShape(f: Forest, n: Node, i: nat, c: nat)
    requires Shape(f) && n in f.tables && Depth(n.path) < 3
      && f.OwnedSlot(n, i) && n.Kid(i) !in f.tables && NoTable(f, c)
    ensures Shape(f.(tables := f.tables[n.Kid(i) := c]))
  {}

  lemma {:induction false} AddTableLinks(mem: seq<Frame>, f: Forest, n: Node, i: nat, c: nat, w: Word)
    requires Injective(f) && Linked(mem, f)
    requires n in f.tables && Depth(n.path) < 3 && i < ENTRIES && n.Kid(i) !in f.tables
    requires forall j: nat :: n.Kid(i).Kid(j) !in f.tables && n.Kid(i).Kid(j) !in f.pages
    requires c < |mem| && NoTable(f, c) && Present(w) && FrameOf(w) == c && Permissive(w)
    ensures Linked(Store(mem, f.tables[n], i, w)[c := ZeroFrame()], f.(tables := f.tables[n.Kid(i) := c]))
  {
    var f' := f.(tables := f.tables[n.Kid(i) := c]);
    var mem' := Store(mem, f.tables[n], i, w)[c := ZeroFrame()];
    forall m, j: nat | m in f'.tables && f'.OwnedSlot(m, j) ensures SlotOK(f', m, j, mem'[f'.tables[m]][j]) {
      if m != n.Kid(i) {
        assert f.OwnedSlot(m, j);
        assert SlotOK(f, m, j, mem[f.tables[m]][j]);
      }
    }
  }

  /** Writing the entry of a page that is not mapped yet. */
  lemma {:induction false} AddPage(mem: seq<Frame>, f: Forest, n: Node, i: nat, w: Word) returns (f': Forest)
    requires Shape(f) && Linked(mem, f)
    requires n in f.tables && Depth(n.path) == 3 && i < ENTRIES && n.Kid(i) !in f.pages
    ensures f' == if Present(w) then f.(pages := f.pages[n.Kid(i) := w]) else f
    ensures Shape(f') && Linked(Store(mem, f.tables[n], i, w), f')
  {
    hide TableShape, PageShape, Linked;
    f' := if Present(w) then f.(pages := f.pages[n.Kid(i) := w]) else f;
    if Present(w) { AddPageShape(f, n, i, w); }
    AddPageLinks(mem, f, f', n, i, w);
  }

  lemma {:induction false} AddPageShape(f: Forest, n: Node, i: nat, w: Word)
    requires Shape(f) && n in f.tables && Depth(n.path) == 3 && i < ENTRIES && Present(w)
    ensures Shape(f.(pages := f.pages[n.Kid(i) := w]))
  {
    hide TableShape, Injective, Present;
    assert TableShape(f.(pages := f.pages[n.Kid(i) := w]))
      && Injective(f.(pages := f.pages[n.Kid(i) := w])) by { SameTables(f, n, i, w); }
  }

  lemma {:induction false} SameTables(f: Forest, n: Node, i: nat, w: Word)
    requires TableShape(f) && Injective(f)
    ensures TableShape(f.(pages := f.pages[n.Kid(i) := w])) && Injective(f.(pages := f.pages[n.Kid(i) := w]))
  {}

  lemma {:induction false} AddPageLinks(mem: seq<Frame>, f: Forest, f': Forest, n: Node, i: nat, w: Word)
    requires Injective(f) && Linked(mem, f)
    requires n in f.tables && Depth(n.path) == 3 && i < ENTRIES && n.Kid(i) !in f.pages
    requires f' == if Present(w) then f.(pages := f.pages[n.Kid(i) := w]) else f
    ensures Linked(Store(mem, f.tables[n], i, w), f')
  {
    var mem' := Store(mem, f.tables[n], i, w);
    forall m, j: nat | m in f'.tables && f'.OwnedSlot(m, j) ensures SlotOK(f', m, j, mem'[f'.tables[m]][j]) {
      assert f.OwnedSlot(m, j);
      assert SlotOK(f, m, j, mem[f.tables[m]][j]);
    }
  }

  /** Clearing a slot whose child, a page or a table without children, is forgotten. */
  lemma {:induction false} ClearSlot(mem: seq<Frame>, f: Forest, n: Node, i: nat) returns (f': Forest)
    requires Shape(f) && Linked(mem, f)
    requires n in f.tables && f.OwnedSlot(n, i) && !f.HasKid(n.Kid(i))
    ensures f' == Forest(f.kernel, f.tables - {n.Kid(i)}, f.pages - {n.Kid(i)})
    ensures Shape(f') && Linked(Store(mem, f.tables[n], i, 0), f')
  {
    f' := Forest(f.kernel, f.tables - {n.Kid(i)}, f.pages - {n.Kid(i)});
    ClearSlotShape(f, n.Kid(i));
    ClearSlotLinks(mem, f, n, i);
  }

  lemma {:induction false} ClearSlotShape(f: Forest, kid: Node)
    requires Shape(f) && kid.path.Down? && !f.HasKid(kid)
    ensures Shape(Forest(f.kernel, f.tables - {kid}, f.pages - {kid}))
  {
    hide TableShape, PageShape, Forest.HasKid;
    ClearTables(f, kid);
    ClearPages(f, kid);
  }

  lemma {:induction false} ClearTables(f: Forest, kid: Node)
    requires TableShape(f) && kid.path.Down? && !f.HasKid(kid)
    ensures TableShape(Forest(f.kernel, f.tables - {kid}, f.pages - {kid}))
  {
    hide Forest.HasKid, Depth;
    forall m | m in f.tables && m.path.Down? ensures m.Parent() != kid {
      NotParent(f, kid, m);
    }
  }

  lemma {:induction false} ClearPages(f: Forest, kid: Node)
    requires PageShape(f) && kid.path.Down? && !f.HasKid(kid)
    ensures PageShape(Forest(f.kernel, f.tables - {kid}, f.pages - {kid}))
  {
    hide Forest.HasKid, Depth, Present;
    forall m | m in f.pages ensures m.Parent() != kid {
      NotParent(f, kid, m);
    }
  }

  lemma {:induction false} NotParent(f: Forest, kid: Node, m: Node)
    requires !f.HasKid(kid) && (m in f.tables || m in f.pages) && m.path.Down? && m.path.idx < ENTRIES
    ensures m.Parent() != kid
  {
    assert m == m.Parent().Kid(m.path.idx);
  }

  lemma {:induction false} ClearSlotLinks(mem: seq<Frame>, f: Forest, n: Node, i: nat)
    requires Injective(f) && Linked(mem, f) && n in f.tables && i < ENTRIES
    ensures Linked(Store(mem, f.tables[n], i, 0), Forest(f.kernel, f.tables - {n.Kid(i)}, f.pages - {n.Kid(i)}))
  {
    var f' := Forest(f.kernel, f.tables - {n.Kid(i)}, f.pages - {n.Kid(i)});
    var mem' := Store(mem, f.tables[n], i, 0);
    forall m, j: nat | m in f'.tables && f'.OwnedSlot(m, j) ensures SlotOK(f', m, j, mem'[f'.tables[m]][j]) {
      assert f.OwnedSlot(m, j);
      assert SlotOK(f, m, j, mem[f.tables[m]][j]);
    }
  }

  // ---------- What whole operations do to the forest ----------

  /** The memory, the forest in it and the frames in use. */
  datatype State = State(mem: seq<Frame>, forest: Forest, used: set<nat>)

  ghost predicate WellFormed(s: State) {
    && Shape(s.forest) && Linked(s.mem, s.forest)
    && forall n :: n in s.forest.tables ==> s.forest.tables[n] in s.used
  }

  /** Reclaim the table at `n` if it has no child left, then its parent, up to the root's child. */
  ghost function Prune(f: Forest, n: Node): (r: Forest)
    decreases n.path
  {
    if n.path.Top? || f.HasKid(n) then f else Prune(f.(tables := f.tables - {n}), n.Parent())
  }

  /** Memory changed only inside frames that hold tables. */
  ghost predicate OnlyTablesWritten(mem: seq<Frame>, f: Forest, mem': seq<Frame>, f': Forest) {
    |mem'| == |mem| && forall c: nat :: c < |mem| && NoTable(f, c) && NoTable(f', c) ==> mem'[c] == mem[c]
  }

  /** The upper entries of the roots are unchanged, except that slot `i` of the kernel root may be. */
  ghost predicate TopKept(s: State, s': State, changed: bool, i: nat)
    requires WellFormed(s) && WellFormed(s')
  {
    forall r: nat, j: nat ::
      (s.forest.IsRoot(r) && s'.forest.IsRoot(r) && ENTRIES / 2 <= j < ENTRIES
        && !(changed && r == s.forest.kernel && j == i))
      ==> TopEntry(s'.mem, s'.forest, r, j) == TopEntry(s.mem, s.forest, r, j)
  }

  /** Tables are added on the way to the page, in frames outside `used`. */
  ghost predicate GrowTables(f: Forest, f': Forest, used: set<nat>, page: Node) {
    && f'.kernel == f.kernel
    && (forall n :: n in f.tables ==> n in f'.tables && f'.tables[n] == f.tables[n])
    && (forall n :: n in f'.tables && n !in f.tables ==>
          n.path.Down? && n.root == page.root && Below(n.path, page.path) && f'.tables[n] !in used)
  }

  /** The memory side of mapping `page`: see the two predicates it is made of. */
  ghost predicate MapWrites(s: State, s': State, page: Node)
    requires WellFormed(s) && WellFormed(s') && page.path.Down?
  {
    && OnlyTablesWritten(s.mem, s.forest, s'.mem, s'.forest)
    && TopKept(s, s', Upper(page.path) && Node(page.root, TopSlot(page.path)) !in s.forest.tables, First(page.path))
  }

  /** Tables may be added on the way to the page, in frames that were free, and nothing else changes. */
  ghost predicate GrowStep(s: State, s': State, page: Node) {
    && WellFormed(s) && WellFormed(s') && page.path.Down?
    && s'.forest.pages == s.forest.pages
    && GrowTables(s.forest, s'.forest, s.used, page)
    && s'.used == s.used + s'.forest.tables.Values
    && MapWrites(s, s', page)
  }

  /** `mapPage`: the tables on the way are there afterwards, and the page has entry `w` unless
      it already had one. */
  ghost predicate MapStep(s: State, s': State, page: Node, w: Word) {
    && WellFormed(s) && WellFormed(s') && page.path.Down?
    && page.Parent() in s'.forest.tables
    && s'.forest.pages == (if page in s.forest.pages || !Present(w) then s.forest.pages else s.forest.pages[page := w])
    && GrowTables(s.forest, s'.forest, s.used, page)
    && s'.used == s.used + s'.forest.tables.Values
    && MapWrites(s, s', page)
  }

  lemma {:induction false} GrowTablesTrans(f: Forest, f1: Forest,
    f2: Forest, used: set<nat>, used1: set<nat>, page: Node)
    requires GrowTables(f, f1, used, page) && GrowTables(f1, f2, used1, page) && used <= used1
    ensures GrowTables(f, f2, used, page)
  {}

  lemma {:induction false} MapWritesTrans(s: State, s1: State, s2: State, page: Node)
    requires WellFormed(s) && WellFormed(s1) && WellFormed(s2) && page.path.Down?
    requires GrowTables(s.forest, s1.forest, s.used, page) && GrowTables(s1.forest, s2.forest, s1.used, page)
    requires MapWrites(s, s1, page) && MapWrites(s1, s2, page)
    ensures MapWrites(s, s2, page)
  {
    forall c: nat | c < |s.mem| && NoTable(s.forest, c) && NoTable(s2.forest, c) ensures s2.mem[c] == s.mem[c] {
      assert NoTable(s1.forest, c);
    }
  }

  lemma {:induction false} GrowTrans(s: State, s1: State, s2: State, page: Node)
    requires GrowStep(s, s1, page) && GrowStep(s1, s2, page)
    ensures GrowStep(s, s2, page)
  {
    GrowTablesTrans(s.forest, s1.forest, s2.forest, s.used, s1.used, page);
    MapWritesTrans(s, s1, s2, page);
    assert s1.forest.tables.Values <= s2.forest.tables.Values;
  }

  function TopSlot(p: Path): Path
    requires p.Down?
  {
    Down(Top, First(p))
  }

  /** Tables on the way to the page may be given back, with exactly their frames. */
  ghost predicate ShrinkStep(s: State, s': State, page: Node) {
    var f, f' := s.forest, s'.forest;
    && WellFormed(s) && WellFormed(s') && page.path.Down? && f'.kernel == f.kernel
    && (forall n :: n in f'.tables ==> n in f.tables && f'.tables[n] == f.tables[n])
    && s'.used == s.used - (f.tables.Values - f'.tables.Values)
    && OnlyTablesWritten(s.mem, f, s'.mem, f')
    && TopKept(s, s', Upper(page.path) && Node(page.root, TopSlot(page.path)) !in f'.tables, First(page.path))
  }

  /** `unmapPage`: exactly the page goes, and with it the tables it leaves empty. */
  ghost predicate UnmapStep(s: State, s': State, page: Node) {
    && ShrinkStep(s, s', page)
    && (page !in s.forest.pages ==> s' == s)
    && s'.forest == (if page in s.forest.pages
      then Prune(s.forest.(pages := s.forest.pages - {page}), page.Parent()) else s.forest)
  }

  lemma {:induction false} ShrinkRefl(s: State, page: Node)
    requires WellFormed(s) && page.path.Down?
    ensures ShrinkStep(s, s, page)
  {}

  lemma {:induction false} ShrinkTrans(s: State, s1: State, s2: State, page: Node)
    requires ShrinkStep(s, s1, page) && ShrinkStep(s1, s2, page)
    ensures ShrinkStep(s, s2, page)
  {
    hide Shape, Linked;
    assert s2.used == s.used - (s.forest.tables.Values - s2.forest.tables.Values);
  }

  /** Clearing the entry of a mapped page. */
  lemma {:induction false} ForgetPage(s: State, n: Node, i: nat) returns (s': State)
    requires WellFormed(s) && n in s.forest.tables && Depth(n.path) == 3
      && n.path.Down? && i < ENTRIES && n.Kid(i) in s.forest.pages
    ensures s.forest.tables[n] < |s.mem|
    ensures s' == State(Store(s.mem, s.forest.tables[n], i, 0), s.forest.(pages := s.forest.pages - {n.Kid(i)}), s.used)
    ensures WellFormed(s') && ShrinkStep(s, s', n.Kid(i))
  {
    hide Shape, Linked;
    PageSlot(s, n, i);
    NoGrandKids(s.forest, n.Kid(i));
    var f' := ClearSlot(s.mem, s.forest, n, i);
    assert f'.tables == s.forest.tables;
    s' := State(Store(s.mem, s.forest.tables[n], i, 0), f', s.used);
    ForgetPageShrinks(s, s', n, i);
  }

  lemma {:induction false} PageSlot(s: State, n: Node, i: nat)
    requires WellFormed(s) && n in s.forest.tables && Depth(n.path) == 3
    ensures n.Kid(i) !in s.forest.tables && s.forest.tables[n] < |s.mem|
  {
    assert Depth(n.Kid(i).path) == 4;
  }

  lemma {:induction false} ForgetPageShrinks(s: State, s': State, n: Node, i: nat)
    requires WellFormed(s) && WellFormed(s') && n in s.forest.tables && n.path.Down? && i < ENTRIES
    requires s.forest.tables[n] < |s.mem| && s'.forest.tables == s.forest.tables && s'.forest.kernel == s.forest.kernel
    requires s'.used == s.used && s'.mem == Store(s.mem, s.forest.tables[n], i, 0)
    ensures ShrinkStep(s, s', n.Kid(i))
  {
    hide Shape, Linked;
    StoreKeepsTop(s, s', n, i, 0, None);
  }

  lemma {:induction false} NoGrandKids(f: Forest, n: Node)
    requires Shape(f) && n !in f.tables
    ensures !f.HasKid(n)
  {
    forall i: nat ensures n.Kid(i) !in f.tables && n.Kid(i) !in f.pages {
      assert n.Kid(i).Parent() == n;
    }
  }

  /** Clearing the entry of a table without children and freeing its frame. */
  lemma {:induction false} ForgetTable(s: State, n: Node, page: Node) returns (s': State)
    requires WellFormed(s) && n in s.forest.tables && n.path.Down? && !s.forest.HasKid(n)
    requires page.root == n.root && page.path.Down? && (n.path.up.Top? ==> TopSlot(page.path) == n.path)
    ensures n.Parent() in s.forest.tables && s.forest.tables[n.Parent()] < |s.mem|
      && n.path.idx < ENTRIES && s.forest.tables[n] in s.used
    ensures s' == State(Store(s.mem, s.forest.tables[n.Parent()], n.path.idx, 0),
      s.forest.(tables := s.forest.tables - {n}), s.used - {s.forest.tables[n]})
    ensures WellFormed(s') && ShrinkStep(s, s', page)
  {
    hide Shape, Linked, Forest.HasKid, ShrinkStep;
    TableSlot(s, n);
    var f' := ClearSlot(s.mem, s.forest, n.Parent(), n.path.idx);
    assert f'.pages == s.forest.pages;
    s' := State(Store(s.mem, s.forest.tables[n.Parent()], n.path.idx, 0), f', s.used - {s.forest.tables[n]});
    ForgetTableShrinks(s, s', n, page);
  }

  lemma {:induction false} TableSlot(s: State, n: Node)
    requires WellFormed(s) && n in s.forest.tables && n.path.Down?
    ensures n.Parent() in s.forest.tables
      && s.forest.OwnedSlot(n.Parent(), n.path.idx) && n.Parent().Kid(n.path.idx) == n
    ensures s.forest.tables[n.Parent()] < |s.mem| && s.forest.tables[n] in s.used && n !in s.forest.pages
  {}

  lemma {:induction false} ForgetTableShrinks(s: State, s': State, n: Node, page: Node)
    requires WellFormed(s) && Shape(s'.forest) && Linked(s'.mem, s'.forest)
    requires n in s.forest.tables && n.path.Down? && n.Parent() in s.forest.tables
      && s.forest.OwnedSlot(n.Parent(), n.path.idx)
    requires s.forest.tables[n.Parent()] < |s.mem|
    requires page.root == n.root && page.path.Down? && (n.path.up.Top? ==> TopSlot(page.path) == n.path)
    requires s' == State(Store(s.mem, s.forest.tables[n.Parent()], n.path.idx, 0),
      s.forest.(tables := s.forest.tables - {n}), s.used - {s.forest.tables[n]})
    ensures WellFormed(s') && ShrinkStep(s, s', page)
  {
    hide TableShape, PageShape, Linked;
    assert s.forest.tables.Values - s'.forest.tables.Values == {s.forest.tables[n]} by {
      forall c | c in s.forest.tables.Values && c != s.forest.tables[n] ensures c in s'.forest.tables.Values {
        var m :| m in s.forest.tables && s.forest.tables[m] == c;
        assert m in s'.forest.tables && s'.forest.tables[m] == c;
      }
    }
    StoreKeepsTop(s, s', n.Parent(), n.path.idx, 0, None);
  }

  /** Storing one entry of a table, and zeroing a frame that was free, keeps the upper entries of
      all roots but for that entry. */
  lemma {:induction false} StoreKeepsTop(s: State, s': State, n: Node, i: nat, w: Word, z: Option<nat>)
    requires WellFormed(s) && WellFormed(s') && n in s.forest.tables && i < ENTRIES && s.forest.tables[n] < |s.mem|
    requires z.Some? ==> z.value !in s.used && z.value < |s.mem|
    requires s'.mem == if z.Some? then Store(s.mem, s.forest.tables[n], i, w)[z.value := ZeroFrame()]
      else Store(s.mem, s.forest.tables[n], i, w)
    ensures n.path.Down? || i < ENTRIES / 2 ==> TopKept(s, s', false, 0)
    ensures n == Node(s.forest.kernel, Top) ==> TopKept(s, s', true, i)
  {
    forall r: nat, j: nat | s.forest.IsRoot(r) && s'.forest.IsRoot(r) && j < ENTRIES && !(n == Node(r, Top) && i == j)
      ensures TopEntry(s'.mem, s'.forest, r, j) == TopEntry(s.mem, s.forest, r, j)
    {
      assert s.forest.tables[Node(r, Top)] == r == s'.forest.tables[Node(r, Top)];
    }
  }
}
