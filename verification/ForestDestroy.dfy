/** What `PML4T::destroy` frees: the tables and pages of a process root, each exactly once. */
module ForestDestroy {
  import opened Words
  import opened PhysicalMemory
  import opened Forest
  import opened ForestSteps
  import opened ForestCopy

  /** The PML4 slot `destroy` skips: `HEAP_PML4T_IDX / 2`. */
  const SKIPPED_SLOT := 254

  /** Every node of the forest. */
  function Nodes(f: Forest): set<Node> { f.tables.Keys + f.pages.Keys }

  /** The nodes strictly below `n`, through its first `k` slots. */
  function BelowSlots(f: Forest, n: Node, k: nat): set<Node> {
    set m | m in Nodes(f) && m.root == n.root && m.path != n.path && Reached(n.path, k, m.path)
  }

  /** Node `n` and everything below it. */
  function Subtree(f: Forest, n: Node): set<Node> {
    set m | m in Nodes(f) && m.root == n.root && AtOrBelow(n.path, m.path)
  }

  /** What `destroy` frees: all nodes of the root but those in the skipped slot. */
  function Doomed(f: Forest, r: nat): set<Node> {
    set m | m in Nodes(f) && m.root == r && !(m.path.Down? && First(m.path) == SKIPPED_SLOT)
  }

  /** The frames of a set of nodes. */
  function Homes(f: Forest, v: set<Node>): set<nat>
    requires v <= Nodes(f)
  {
    set m | m in v :: Home(f, m)
  }

  /** Every node of `v` occupies a frame in use, and no two the same one. */
  ghost predicate Distinct(s: State, v: set<Node>)
    requires v <= Nodes(s.forest)
  {
    && (forall m :: m in v ==> Home(s.forest, m) in s.used)
    && (forall m, m' :: m in v && m' in v && Home(s.forest, m) == Home(s.forest, m') ==> m == m')
  }

  /** The frames of `v`, and no others, have been freed since state `s`, each once. */
  ghost predicate Freed(s: State, used: set<nat>, v: set<Node>) {
    v <= Nodes(s.forest) && Distinct(s, v) && used == s.used - Homes(s.forest, v)
  }

  /** Freeing the frame of one more node succeeds exactly when the node keeps the set distinct. */
  lemma {:induction false} FreeOne(s: State, used: set<nat>, v: set<Node>, m: Node)
    requires Freed(s, used, v) && m in Nodes(s.forest) && m !in v
    ensures Home(s.forest, m) in used ==> Freed(s, used - {Home(s.forest, m)}, v + {m})
    ensures Home(s.forest, m) !in used ==> !Distinct(s, v + {m})
  {
    var c := Home(s.forest, m);
    if c !in used && c in s.used {
      var m' :| m' in v && Home(s.forest, m') == c;
      assert m in v + {m} && m' in v + {m};
    }
    if c !in s.used { assert m in v + {m}; }
  }

  lemma {:induction false} DistinctSubset(s: State, v: set<Node>, w: set<Node>)
    requires v <= w <= Nodes(s.forest) && Distinct(s, w)
    ensures Distinct(s, v)
  {}

  lemma {:induction false} BelowSlotsStep(f: Forest, n: Node, i: nat)
    ensures BelowSlots(f, n, i + 1) == BelowSlots(f, n, i) + Subtree(f, n.Kid(i))
    ensures BelowSlots(f, n, i) !! Subtree(f, n.Kid(i))
    ensures n !in BelowSlots(f, n, i)
  {
    forall m | m in Nodes(f) && m.root == n.root
      ensures m in BelowSlots(f, n, i + 1) <==> m in BelowSlots(f, n, i) || m in Subtree(f, n.Kid(i))
      ensures !(m in BelowSlots(f, n, i) && m in Subtree(f, n.Kid(i)))
    {
      ReachedThrough(n.path, i, m.path);
      BelowDepth(n.path, m.path);
    }
  }

  /** An absent slot has an empty subtree, and a page has none below it. */
  lemma {:induction false} SubtreeOfSlot(f: Forest, n: Node, i: nat)
    requires Shape(f)
    ensures !InForest(f, n.Kid(i)) ==> Subtree(f, n.Kid(i)) == {}
    ensures n.Kid(i) in f.pages ==> Subtree(f, n.Kid(i)) == {n.Kid(i)}
  {
    forall m | m in Subtree(f, n.Kid(i)) && m != n.Kid(i) ensures n.Kid(i) in f.tables {
      AncestorsExist(f, m, n.Kid(i).path);
    }
  }

  lemma {:induction false} SubtreeWhole(f: Forest, n: Node)
    requires Shape(f) && n in f.tables
    ensures Subtree(f, n) == BelowSlots(f, n, ENTRIES) + {n}
  {
    forall m | m in Nodes(f) && m.root == n.root
      ensures m in Subtree(f, n) <==> m in BelowSlots(f, n, ENTRIES) || m == n
    {
      NodesBounded(f, m);
      ReachedAll(n.path, m.path);
    }
  }

  lemma {:induction false} NoSlotsYet(f: Forest, n: Node)
    ensures BelowSlots(f, n, 0) == {}
  {}

  // ---------- The whole operation ----------

  function Without(f: Forest, r: nat): Forest {
    Forest(f.kernel, map n | n in f.tables && n.root != r :: f.tables[n],
           map n | n in f.pages && n.root != r :: f.pages[n])
  }

  /** No page of the root lies in a frame that holds a table. */
  ghost predicate PagesApart(s: State, r: nat) {
    forall p, t :: p in s.forest.pages && p.root == r && t in s.forest.tables
      ==> FrameOf(s.forest.pages[p]) != s.forest.tables[t]
  }

  /** `destroy`: the root is gone, memory is as it was, and exactly the doomed frames are free. */
  ghost predicate DestroyStep(s: State, s': State, r: nat) {
    && WellFormed(s) && WellFormed(s') && s.forest.IsRoot(r) && r != s.forest.kernel
    && s'.mem == s.mem && s'.forest == Without(s.forest, r)
    && s'.used == s.used - Homes(s.forest, Doomed(s.forest, r))
  }

  lemma {:induction false} DestroyKeepsOthers(s: State, s': State, r: nat)
    requires WellFormed(s) && s.forest.IsRoot(r) && r != s.forest.kernel && PagesApart(s, r)
    requires s' == State(s.mem, Without(s.forest, r), s.used - Homes(s.forest, Doomed(s.forest, r)))
    ensures WellFormed(s') && DestroyStep(s, s', r)
  {
    WithoutShape(s.forest, r);
    WithoutLinks(s.mem, s.forest, r);
    forall n | n in s'.forest.tables ensures s'.forest.tables[n] in s'.used {
      forall m | m in Doomed(s.forest, r) ensures Home(s.forest, m) != s.forest.tables[n] {
        assert m.root == r && n.root != r;
      }
    }
  }

  lemma {:induction false} WithoutShape(f: Forest, r: nat)
    requires Shape(f) && r != f.kernel
    ensures Shape(Without(f, r))
  {}

  lemma {:induction false} WithoutLinks(mem: seq<Frame>, f: Forest, r: nat)
    requires Linked(mem, f)
    ensures Linked(mem, Without(f, r))
  {
    var f' := Without(f, r);
    forall m, j: nat | m in f'.tables && f'.OwnedSlot(m, j) ensures SlotOK(f', m, j, mem[f'.tables[m]][j]) {
      assert f.OwnedSlot(m, j);
      assert SlotOK(f, m, j, mem[f.tables[m]][j]);
    }
  }

  /** All of a root's nodes: its table, and what lies below its lower slots before and after the
      skipped one. */
  lemma {:induction false} DoomedParts(f: Forest, r: nat)
    requires Shape(f) && f.IsRoot(r) && r != f.kernel
    ensures Doomed(f, r) == (BelowSlots(f, Node(r, Top), ENTRIES / 2) - Subtree(f, Node(r, Top).Kid(SKIPPED_SLOT)))
      + {Node(r, Top)}
  {
    var n := Node(r, Top);
    forall m | m in Nodes(f) && m.root == r
      ensures m in Doomed(f, r)
        <==> (m in BelowSlots(f, n, ENTRIES / 2) && m !in Subtree(f, n.Kid(SKIPPED_SLOT))) || m == n
    {
      if m.path.Down? {
        FirstIsKidIndex(m.path);
        LowerOnly(f, m);
        ReachedThrough(Top, SKIPPED_SLOT, m.path);
        if First(m.path) == SKIPPED_SLOT { ThroughFirst(m.path); }
      }
    }
  }

  lemma {:induction false} FirstIsKidIndex(p: Path)
    requires p.Down?
    ensures Below(Top, p) && KidIndex(Top, p) == First(p)
  {
    if p.up.Down? { FirstIsKidIndex(p.up); }
  }

  lemma {:induction false} ThroughFirst(p: Path)
    requires p.Down?
    ensures AtOrBelow(Down(Top, First(p)), p)
  {
    if p.up.Down? { ThroughFirst(p.up); }
  }

  /** A process root owns nothing in its upper half. */
  lemma {:induction false} LowerOnly(f: Forest, m: Node)
    requires Shape(f) && InForest(f, m) && m.root != f.kernel
    ensures !Upper(m.path)
    decreases m.path
  {
    if m.path.Down? && m.path.up.Down? { LowerOnly(f, m.Parent()); }
  }

  // ---------- Facts the loops use ----------

  lemma {:induction false} TableSubtree(s: State, n: Node)
    requires WellFormed(s) && n in s.forest.tables
    ensures forall i: nat :: i < ENTRIES && n.path.Down? ==> s.forest.OwnedSlot(n, i)
    ensures s.forest.tables[n] < |s.mem|
  {}

  lemma {:induction false} SubtreeWholeOf(s: State, n: Node)
    requires WellFormed(s) && n in s.forest.tables
    ensures Subtree(s.forest, n) == BelowSlots(s.forest, n, ENTRIES) + {n} && n !in BelowSlots(s.forest, n, ENTRIES)
    ensures Home(s.forest, n) == s.forest.tables[n]
  {
    SubtreeWhole(s.forest, n);
  }

  lemma {:induction false} SlotSubtree(s: State, n: Node, i: nat)
    requires WellFormed(s) && n in s.forest.tables && s.forest.OwnedSlot(n, i)
    ensures s.forest.tables[n] < |s.mem|
    ensures var e := s.mem[s.forest.tables[n]][i]; var kid := n.Kid(i);
            && (!Present(e) ==> Subtree(s.forest, kid) == {})
            && (Present(e) && Depth(n.path) < 3 ==> kid in s.forest.tables && s.forest.tables[kid] == FrameOf(e))
            && (Present(e) && Depth(n.path) == 3
              ==> kid in Nodes(s.forest) && Home(s.forest, kid) == FrameOf(e) && Subtree(s.forest, kid) == {kid})
  {
    SubtreeOfSlot(s.forest, n, i);
    assert SlotOK(s.forest, n, i, s.mem[s.forest.tables[n]][i]);
    assert Depth(n.Kid(i).path) == Depth(n.path) + 1;
  }

  lemma {:induction false} Widen(s: State, v: set<Node>, w: set<Node>)
    requires v <= w <= Nodes(s.forest) && !Distinct(s, v)
    ensures !Distinct(s, w)
  {
    if Distinct(s, w) { DistinctSubset(s, v, w); }
  }

  lemma {:induction false} FreedNothing(s: State)
    ensures Freed(s, s.used, {})
  {}

  lemma {:induction false} RootFacts(s: State, r: nat)
    requires WellFormed(s) && s.forest.IsRoot(r) && r != s.forest.kernel
    ensures s.forest.tables[Node(r, Top)] == r == Home(s.forest, Node(r, Top)) && r < |s.mem|
    ensures forall i: nat :: i < ENTRIES / 2 ==> s.forest.OwnedSlot(Node(r, Top), i)
    ensures var n := Node(r, Top);
            && Doomed(s.forest, r)
              == (BelowSlots(s.forest, n, ENTRIES / 2) - Subtree(s.forest, n.Kid(SKIPPED_SLOT))) + {n}
            && n !in BelowSlots(s.forest, n, ENTRIES / 2)
  {
    DoomedParts(s.forest, r);
  }

  /** One round of the loop over the PML4: slot `i` adds its subtree unless it is skipped or empty. */
  lemma {:induction false} SkipStep(s: State, r: nat, i: nat)
    requires WellFormed(s) && s.forest.IsRoot(r) && r != s.forest.kernel && i < ENTRIES / 2
    requires r < |s.mem|
    ensures var n := Node(r, Top);
      var f := s.forest;
      var skipped := Subtree(f, n.Kid(SKIPPED_SLOT)); var kids := Subtree(f, n.Kid(i));
            && BelowSlots(f, n, i + 1) - skipped ==
                 (BelowSlots(f, n, i) - skipped) + (if i == SKIPPED_SLOT || !Present(s.mem[r][i]) then {} else kids)
            && (BelowSlots(f, n, i) - skipped) !! kids
            && (i != SKIPPED_SLOT ==> (BelowSlots(f, n, i) - skipped) + kids <= Doomed(f, r))
  {
    var n, f := Node(r, Top), s.forest;
    assert f.tables[n] == r && f.OwnedSlot(n, i);
    BelowSlotsStep(f, n, i);
    SlotSubtree(s, n, i);
    forall m | m in Subtree(f, n.Kid(i)) && i != SKIPPED_SLOT ensures m !in Subtree(f, n.Kid(SKIPPED_SLOT)) {
      ReachedThrough(Top, i, m.path);
      ReachedThrough(Top, SKIPPED_SLOT, m.path);
    }
    DoomedParts(f, r);
    forall m | m in BelowSlots(f, n, i + 1) ensures m in BelowSlots(f, n, ENTRIES / 2) {}
  }
}
