/** The deep copy that fork makes of an address space, as changes to the forest.

    While a table is being filled nothing points to it yet, so during the copy the forest is
    linked except for the `holes`: the nodes whose entry in the table above is still missing. */
module ForestCopy {
  import opened Words
  import opened PhysicalMemory
  import opened Forest
  import opened ForestSteps

  ghost predicate LinkedBut(mem: seq<Frame>, f: Forest, holes: set<Node>) {
    && (forall n :: n in f.tables ==> f.tables[n] < |mem|)
    && (forall n, i: nat ::
        n in f.tables && f.OwnedSlot(n, i) && n.Kid(i) !in holes ==> SlotOK(f, n, i, mem[f.tables[n]][i]))
  }

  ghost predicate WellFormedBut(s: State, holes: set<Node>) {
    && Shape(s.forest) && LinkedBut(s.mem, s.forest, holes)
    && forall n :: n in s.forest.tables ==> s.forest.tables[n] in s.used
  }

  /** `p` is `a` or lies below it. */
  predicate AtOrBelow(a: Path, p: Path) { p == a || Below(a, p) }

  /** The slot of the table at `a` through which `p` is reached. */
  function KidIndex(a: Path, p: Path): nat
    requires Below(a, p)
  {
    if p.up == a then p.idx else KidIndex(a, p.up)
  }

  /** `p` is `a` or is reached through one of the first `k` slots of `a`. */
  predicate Reached(a: Path, k: nat, p: Path) { p == a || (Below(a, p) && KidIndex(a, p) < k) }

  lemma {:induction false} BelowDepth(a: Path, p: Path)
    ensures Below(a, p) ==> Depth(a) < Depth(p)
  {
    if p.Down? { BelowDepth(a, p.up); }
  }

  lemma {:induction false} ReachedThrough(a: Path, i: nat, p: Path)
    ensures Reached(a, i + 1, p) <==> Reached(a, i, p) || AtOrBelow(Down(a, i), p)
    ensures AtOrBelow(Down(a, i), p) ==> !Reached(a, i, p) && Below(a, p) && KidIndex(a, p) == i
  {
    BelowDepth(a, a);
    BelowDepth(Down(a, i), a);
    if p.Down? && p.up != a { ReachedThrough(a, i, p.up); }
  }

  lemma {:induction false} ReachedAll(a: Path, p: Path)
    requires Bounded(p)
    ensures Reached(a, ENTRIES, p) <==> AtOrBelow(a, p)
  {
    if p.Down? && p.up != a && Below(a, p.up) { ReachedAll(a, p.up); }
  }

  /** Everything above a node of the forest is in the forest. */
  lemma {:induction false} AncestorsExist(f: Forest, m: Node, a: Path)
    requires Shape(f) && (m in f.tables || m in f.pages) && Below(a, m.path)
    ensures Node(m.root, a) in f.tables
    decreases m.path
  {
    if m.path.up != a { AncestorsExist(f, m.Parent(), a); }
  }

  /** No node of root `r` is at `a` or below it. */
  ghost predicate Vacant(f: Forest, r: nat, a: Path) {
    forall m :: (m in f.tables || m in f.pages) && m.root == r ==> !AtOrBelow(a, m.path)
  }

  /** The mapped pages of a root's lower half lie in frames of memory that are in use. */
  ghost predicate PagesBacked(s: State, root: nat) {
    forall m :: m in s.forest.pages && m.root == root && !Upper(m.path) ==>
      FrameOf(s.forest.pages[m]) in s.used && FrameOf(s.forest.pages[m]) < |s.mem|
  }

  /** The new page has the flags of the old one and the bytes it had. */
  predicate PageCopied(s: State, s': State, w: Word, w': Word) {
    && FlagsOf(w') == FlagsOf(w)
    && FrameOf(w) < |s.mem| && FrameOf(w') < |s'.mem|
    && s'.mem[FrameOf(w')] == s.mem[FrameOf(w)]
  }

  /** The frame a node occupies: that of its table or that of its page. */
  function Home(f: Forest, m: Node): nat
    requires m in f.tables || m in f.pages
  {
    if m in f.tables then f.tables[m] else FrameOf(f.pages[m])
  }

  ghost predicate InForest(f: Forest, m: Node) { m in f.tables || m in f.pages }

  /** Nothing that was in use is touched and no node of the old forest changes. */
  ghost predicate Preserved(s: State, s': State) {
    && s'.forest.kernel == s.forest.kernel && |s'.mem| == |s.mem| && s.used <= s'.used
    && (forall c: nat :: c in s.used && c < |s.mem| ==> s'.mem[c] == s.mem[c])
    && (forall m :: m in s.forest.tables ==> m in s'.forest.tables && s'.forest.tables[m] == s.forest.tables[m])
    && (forall m :: m in s.forest.pages ==> m in s'.forest.pages && s'.forest.pages[m] == s.forest.pages[m])
  }

  /** The nodes added are twins, under root `r`, of nodes in the first `k` subtrees of `n`. */
  ghost predicate OnlyTwins(s: State, s': State, n: Node, r: nat, k: nat) {
    && (forall m :: m in s'.forest.tables && m !in s.forest.tables ==>
          m.root == r && Reached(n.path, k, m.path) && Node(n.root, m.path) in s.forest.tables)
    && (forall m :: m in s'.forest.pages && m !in s.forest.pages ==>
          m.root == r && Reached(n.path, k, m.path) && Node(n.root, m.path) in s.forest.pages)
  }

  /** Every node in the first `k` subtrees of `n` has its twin under root `r`. */
  ghost predicate AllTwins(s: State, s': State, n: Node, r: nat, k: nat) {
    && (forall m ::
        m in s.forest.tables && m.root == n.root && Reached(n.path, k, m.path) ==> Node(r, m.path) in s'.forest.tables)
    && (forall m :: m in s.forest.pages && m.root == n.root && Reached(n.path, k, m.path) ==>
          Node(r, m.path) in s'.forest.pages && PageCopied(s, s', s.forest.pages[m], s'.forest.pages[Node(r, m.path)]))
  }

  /** The added nodes occupy distinct frames that were free, and no other frame was taken. */
  ghost predicate FreshHomes(s: State, s': State) {
    && (forall m :: InForest(s'.forest, m) && !InForest(s.forest, m) ==>
          Home(s'.forest, m) !in s.used && Home(s'.forest, m) in s'.used && Home(s'.forest, m) < |s.mem|)
    && (forall m, m' ::
        InForest(s'.forest, m) && !InForest(s.forest, m) && InForest(s'.forest, m') && !InForest(s.forest, m') ==>
          (Home(s'.forest, m) == Home(s'.forest, m') ==> m == m'))
    && (forall c ::
        c in s'.used && c !in s.used
        ==> exists m :: InForest(s'.forest, m) && !InForest(s.forest, m) && Home(s'.forest, m) == c)
  }

  /** The first `k` subtrees of node `n` have been copied under root `r`. */
  ghost predicate Copied(s: State, s': State, n: Node, r: nat, k: nat) {
    Preserved(s, s') && OnlyTwins(s, s', n, r, k) && AllTwins(s, s', n, r, k) && FreshHomes(s, s')
  }

  // ---------- The steps of the copy ----------

  lemma {:induction false} HomeKept(f: Forest, f': Forest, m: Node)
    requires Shape(f) && Shape(f') && InForest(f, m)
    requires m in f.tables ==> m in f'.tables && f'.tables[m] == f.tables[m]
    requires m in f.pages ==> m in f'.pages && f'.pages[m] == f.pages[m]
    ensures InForest(f', m) && Home(f', m) == Home(f, m)
  {}

  /** Copying one part and then another is copying both. */
  lemma {:induction false} CopyTrans(s: State, s1: State, s2: State)
    requires Shape(s1.forest) && Shape(s2.forest)
    requires Preserved(s, s1) && Preserved(s1, s2) && FreshHomes(s, s1) && FreshHomes(s1, s2)
    ensures Preserved(s, s2) && FreshHomes(s, s2)
  {
    hide Shape;
    forall m | InForest(s1.forest, m) ensures InForest(s2.forest, m) && Home(s2.forest, m) == Home(s1.forest, m) {
      HomeKept(s1.forest, s2.forest, m);
    }
    hide Home, InForest;
    forall c | c in s2.used && c !in s.used
      ensures exists m :: InForest(s2.forest, m) && !InForest(s.forest, m) && Home(s2.forest, m) == c
    {
      if c in s1.used {
        var m :| InForest(s1.forest, m) && !InForest(s.forest, m) && Home(s1.forest, m) == c;
        assert InForest(s2.forest, m) && Home(s2.forest, m) == c;
      } else {
        var m :| InForest(s2.forest, m) && !InForest(s1.forest, m) && Home(s2.forest, m) == c;
        assert !InForest(s.forest, m);
      }
    }
  }

  /** Taking one fresh frame for one new node. */
  lemma {:induction false} FreshHome(s: State, s': State, m: Node, c: nat)
    requires Shape(s.forest) && Shape(s'.forest) && Preserved(s, s')
    requires !InForest(s.forest, m) && InForest(s'.forest, m) && Home(s'.forest, m) == c && c !in s.used && c < |s.mem|
    requires forall m' :: InForest(s'.forest, m') ==> m' == m || InForest(s.forest, m')
    requires s'.used == s.used + {c}
    ensures FreshHomes(s, s')
  {
    hide Shape;
  }

  /** Frame `c`, zeroed, holds the table of node `d`. */
  ghost predicate TableAdded(s: State, s': State, d: Node, c: nat) {
    && c < |s.mem| && s'.mem == s.mem[c := ZeroFrame()]
    && s'.forest == Forest(s.forest.kernel, s.forest.tables[d := c], s.forest.pages) && s'.used == s.used + {c}
  }

  /** The new table of the copy, still empty and not yet pointed to. */
  lemma {:induction false} StartCopy(s: State, s': State, n: Node, r: nat, holes: set<Node>, c: nat)
    requires WellFormedBut(s, holes) && n in s.forest.tables && Vacant(s.forest, r, n.path)
    requires if n.path.Top? then c == r && r != s.forest.kernel else
             Node(r, n.path.up) in s.forest.tables && !Upper(n.path)
    requires c !in s.used && TableAdded(s, s', Node(r, n.path), c)
    ensures WellFormedBut(s', holes + {Node(r, n.path)}) && Copied(s, s', n, r, 0)
  {
    hide LinkedBut, Vacant, Shape, OnlyTwins, AllTwins, FreshHomes;
    var d := Node(r, n.path);
    StartFacts(s, n, r, holes, c);
    StartShape(s.forest, s'.forest, d, c);
    StartLinks(s, s', d, c, holes);
    assert Home(s'.forest, d) == c;
    FreshHome(s, s', d, c);
    StartTwins(s, s', n, r);
  }

  lemma {:induction false} StartFacts(s: State, n: Node, r: nat, holes: set<Node>, c: nat)
    requires WellFormedBut(s, holes) && n in s.forest.tables && Vacant(s.forest, r, n.path) && c !in s.used
    ensures !InForest(s.forest, Node(r, n.path)) && Depth(n.path) <= 3 && n !in s.forest.pages && NoTable(s.forest, c)
    ensures n.path.Down? ==> n.path.idx < ENTRIES
    ensures forall j: nat :: Node(r, n.path).Kid(j) !in s.forest.tables && Node(r, n.path).Kid(j) !in s.forest.pages
  {
    forall j: nat ensures Node(r, n.path).Kid(j) !in s.forest.tables && Node(r, n.path).Kid(j) !in s.forest.pages {
      assert AtOrBelow(n.path, Node(r, n.path).Kid(j).path);
    }
  }

  lemma {:induction false} StartShape(f: Forest, f': Forest, d: Node, c: nat)
    requires Shape(f) && d !in f.tables && NoTable(f, c) && f' == f.(tables := f.tables[d := c])
    requires if d.path.Top? then d.root == c && d.root != f.kernel else
             d.Parent() in f.tables && !Upper(d.path) && Depth(d.path) <= 3 && d.path.idx < ENTRIES
    ensures Shape(f')
  {}

  lemma {:induction false} StartLinks(s: State, s': State, d: Node, c: nat, holes: set<Node>)
    requires WellFormedBut(s, holes) && d !in s.forest.tables && c !in s.used && TableAdded(s, s', d, c)
    requires forall j: nat :: d.Kid(j) !in s.forest.tables && d.Kid(j) !in s.forest.pages
    ensures LinkedBut(s'.mem, s'.forest, holes + {d})
  {
    hide Shape;
    forall m, j: nat | m in s'.forest.tables && s'.forest.OwnedSlot(m, j) && m.Kid(j) !in holes + {d}
      ensures SlotOK(s'.forest, m, j, s'.mem[s'.forest.tables[m]][j])
    {
      if m != d {
        assert s.forest.OwnedSlot(m, j);
        assert SlotOK(s.forest, m, j, s.mem[s.forest.tables[m]][j]);
      }
    }
  }

  lemma {:induction false} StartTwins(s: State, s': State, n: Node, r: nat)
    requires n in s.forest.tables && n !in s.forest.pages
    requires Node(r, n.path) in s'.forest.tables
      && s'.forest == s.forest.(tables := s.forest.tables[Node(r, n.path) := s'.forest.tables[Node(r, n.path)]])
    ensures OnlyTwins(s, s', n, r, 0) && AllTwins(s, s', n, r, 0)
  {}

  /** An absent slot has nothing to copy. */
  lemma {:induction false} SkipKid(s: State, s': State, n: Node, r: nat, i: nat)
    requires Shape(s.forest) && Copied(s, s', n, r, i) && !InForest(s.forest, n.Kid(i))
    ensures Copied(s, s', n, r, i + 1)
  {
    hide Preserved, FreshHomes, Shape;
    forall m | InForest(s.forest, m) && m.root == n.root
      ensures Reached(n.path, i + 1, m.path) <==> Reached(n.path, i, m.path)
    {
      NothingThrough(s.forest, n, i, m);
    }
    assert AllTwins(s, s', n, r, i + 1);
    forall m | InForest(s'.forest, m) && !InForest(s.forest, m)
      ensures Reached(n.path, i, m.path) ==> Reached(n.path, i + 1, m.path)
    {
      ReachedThrough(n.path, i, m.path);
    }
    assert OnlyTwins(s, s', n, r, i + 1);
  }

  lemma {:induction false} NothingThrough(f: Forest, n: Node, i: nat, m: Node)
    requires Shape(f) && InForest(f, m) && m.root == n.root && !InForest(f, n.Kid(i))
    ensures Reached(n.path, i + 1, m.path) <==> Reached(n.path, i, m.path)
  {
    ReachedThrough(n.path, i, m.path);
    if Below(Down(n.path, i), m.path) { AncestorsExist(f, m, Down(n.path, i)); }
    if m.path == Down(n.path, i) { assert m == n.Kid(i); }
  }

  /** Writing the entry above a copied table fills its hole. */
  lemma {:induction false} FillHole(s: State, d: Node, i: nat, w: Word, holes: set<Node>) returns (s': State)
    requires WellFormedBut(s, holes + {d.Kid(i)}) && d in s.forest.tables && d.Kid(i) in s.forest.tables && i < ENTRIES
    requires Depth(d.path) < 3 && Present(w) && FrameOf(w) == s.forest.tables[d.Kid(i)] && Permissive(w)
    ensures s.forest.tables[d] < |s.mem|
    ensures s' == s.(mem := Store(s.mem, s.forest.tables[d], i, w))
    ensures WellFormedBut(s', holes)
  {
    s' := s.(mem := Store(s.mem, s.forest.tables[d], i, w));
    forall m, j: nat | m in s.forest.tables && s.forest.OwnedSlot(m, j) && m.Kid(j) !in holes
      ensures SlotOK(s.forest, m, j, s'.mem[s.forest.tables[m]][j])
    {
      if m != d || j != i {
        assert m.Kid(j) != d.Kid(i);
        assert SlotOK(s.forest, m, j, s.mem[s.forest.tables[m]][j]);
      }
    }
  }

  /** A store into a table of the copy leaves what has been copied in place. */
  lemma {:induction false} StoreKeepsCopies(s: State, s1: State,
    s': State, d: Node, i: nat, w: Word, n: Node, r: nat, k: nat)
    requires Shape(s1.forest) && Copied(s, s1, n, r, k) && Vacant(s.forest, r, n.path)
    requires d in s1.forest.tables && !InForest(s.forest, d)
    requires i < ENTRIES && s1.forest.tables[d] < |s1.mem| && s' == s1.(mem := Store(s1.mem, s1.forest.tables[d], i, w))
    ensures Copied(s, s', n, r, k)
  {
    assert s1.forest.tables[d] == Home(s1.forest, d) && Home(s1.forest, d) !in s.used;
    StoreKeepsOld(s, s1, s', s1.forest.tables[d], i, w);
    StoreKeepsHomes(s, s1, s');
    StoreKeepsTwins(s, s1, s', d, i, w, n, r, k);
  }

  lemma {:induction false} StoreKeepsOld(s: State, s1: State, s': State, t: nat, i: nat, w: Word)
    requires Preserved(s, s1) && t < |s1.mem| && i < ENTRIES && t !in s.used && s' == s1.(mem := Store(s1.mem, t, i, w))
    ensures Preserved(s, s')
  {}

  lemma {:induction false} StoreKeepsHomes(s: State, s1: State, s': State)
    requires FreshHomes(s, s1) && s'.forest == s1.forest && s'.used == s1.used
    ensures FreshHomes(s, s')
  {}

  lemma {:induction false} StoreKeepsTwins(s: State, s1: State,
    s': State, d: Node, i: nat, w: Word, n: Node, r: nat, k: nat)
    requires Shape(s1.forest) && Copied(s, s1, n, r, k) && Vacant(s.forest, r, n.path)
    requires d in s1.forest.tables && !InForest(s.forest, d)
    requires i < ENTRIES && s1.forest.tables[d] < |s1.mem| && s' == s1.(mem := Store(s1.mem, s1.forest.tables[d], i, w))
    ensures OnlyTwins(s, s', n, r, k) && AllTwins(s, s', n, r, k)
  {
    hide Shape, Preserved, FreshHomes;
    forall m | m in s.forest.pages && m.root == n.root && Reached(n.path, k, m.path)
      ensures PageCopied(s, s', s.forest.pages[m], s'.forest.pages[Node(r, m.path)])
    {
      var m' := Node(r, m.path);
      assert PageCopied(s, s1, s.forest.pages[m], s1.forest.pages[m']);
      assert !InForest(s.forest, m');
      NewPageFrame(s, s1, m', d);
    }
  }

  /** A page of the copy is not in a frame that holds one of the copy's tables. */
  lemma {:induction false} NewPageFrame(s: State, s1: State, m: Node, d: Node)
    requires Shape(s1.forest) && FreshHomes(s, s1)
    requires m in s1.forest.pages && !InForest(s.forest, m) && d in s1.forest.tables && !InForest(s.forest, d)
    ensures FrameOf(s1.forest.pages[m]) != s1.forest.tables[d]
  {
    assert m !in s1.forest.tables;
    assert Home(s1.forest, m) == FrameOf(s1.forest.pages[m]);
    assert Home(s1.forest, d) == s1.forest.tables[d];
  }

  lemma {:induction false} NodesBounded(f: Forest, m: Node)
    requires Shape(f) && InForest(f, m)
    ensures Bounded(m.path)
    decreases m.path
  {
    if m.path.Down? {
      assert f.OwnedSlot(m.Parent(), m.path.idx);
      NodesBounded(f, m.Parent());
    }
  }

  /** After the subtrees before slot `i`, the subtree in slot `i`. */
  lemma {:induction false} CopyKid(s: State, s1: State, s2: State, n: Node, r: nat, i: nat)
    requires Shape(s.forest) && Shape(s1.forest) && Shape(s2.forest) && n.root != r && !Upper(n.Kid(i).path)
    requires Vacant(s.forest, r, n.path) && PagesBacked(s, n.root)
    requires Copied(s, s1, n, r, i) && Copied(s1, s2, n.Kid(i), r, ENTRIES)
    ensures Copied(s, s2, n, r, i + 1)
  {
    hide Shape, FreshHomes, PageCopied, OnlyTwins, Vacant, PagesBacked;
    CopyTrans(s, s1, s2);
    forall p: Path ensures Reached(n.path, i + 1, p) <==> Reached(n.path, i, p) || AtOrBelow(Down(n.path, i), p) {
      ReachedThrough(n.path, i, p);
    }
    CopyKidOnly(s, s1, s2, n, r, i);
    forall m | InForest(s.forest, m) && AtOrBelow(Down(n.path, i), m.path)
      ensures Reached(Down(n.path, i), ENTRIES, m.path)
    {
      NodesBounded(s.forest, m);
      ReachedAll(Down(n.path, i), m.path);
    }
    forall m | m in s.forest.pages && m.root == n.root && Reached(n.path, i + 1, m.path)
      ensures Node(r, m.path) in s2.forest.pages
        && PageCopied(s, s2, s.forest.pages[m], s2.forest.pages[Node(r, m.path)])
    {
      if Reached(n.path, i, m.path) {
        EarlierPage(s, s1, s2, n, r, i, m);
      } else {
        UpperBelow(n.Kid(i).path, m.path);
        LaterPage(s, s1, s2, n, r, i, m);
      }
    }
  }

  lemma {:induction false} LaterPage(s: State, s1: State, s2: State, n: Node, r: nat, i: nat, m: Node)
    requires Preserved(s, s1) && AllTwins(s1, s2, n.Kid(i), r, ENTRIES) && PagesBacked(s, n.root)
    requires m in s.forest.pages && m.root == n.root && Reached(n.Kid(i).path, ENTRIES, m.path) && !Upper(m.path)
    ensures Node(r, m.path) in s2.forest.pages && PageCopied(s, s2, s.forest.pages[m], s2.forest.pages[Node(r, m.path)])
  {
    assert FrameOf(s.forest.pages[m]) in s.used;
  }

  lemma {:induction false} UpperBelow(a: Path, p: Path)
    requires a.Down? && AtOrBelow(a, p)
    ensures Upper(p) == Upper(a)
  {
    if p != a && p.up != a { UpperBelow(a, p.up); }
  }

  lemma {:induction false} CopyKidOnly(s: State, s1: State, s2: State, n: Node, r: nat, i: nat)
    requires n.root != r && OnlyTwins(s, s1, n, r, i) && OnlyTwins(s1, s2, n.Kid(i), r, ENTRIES)
    requires forall p: Path :: Reached(n.path, i + 1, p) <==> Reached(n.path, i, p) || AtOrBelow(Down(n.path, i), p)
    ensures OnlyTwins(s, s2, n, r, i + 1)
  {
    forall m | m in s2.forest.tables && m !in s.forest.tables
      ensures m.root == r && Reached(n.path, i + 1, m.path) && Node(n.root, m.path) in s.forest.tables
    {
      if m !in s1.forest.tables {
        assert Node(n.root, m.path) in s1.forest.tables && AtOrBelow(Down(n.path, i), m.path);
      }
    }
    forall m | m in s2.forest.pages && m !in s.forest.pages
      ensures m.root == r && Reached(n.path, i + 1, m.path) && Node(n.root, m.path) in s.forest.pages
    {
      if m !in s1.forest.pages { assert Node(n.root, m.path) in s1.forest.pages && AtOrBelow(Down(n.path, i), m.path); }
    }
  }

  lemma {:induction false} EarlierPage(s: State, s1: State, s2: State, n: Node, r: nat, i: nat, m: Node)
    requires Shape(s1.forest) && Vacant(s.forest, r, n.path) && Copied(s, s1, n, r, i) && Preserved(s1, s2)
    requires m in s.forest.pages && m.root == n.root && Reached(n.path, i, m.path)
    ensures Node(r, m.path) in s2.forest.pages && PageCopied(s, s2, s.forest.pages[m], s2.forest.pages[Node(r, m.path)])
  {
    var m' := Node(r, m.path);
    assert !InForest(s.forest, m');
    assert InForest(s1.forest, m') && m' !in s1.forest.tables;
    assert Home(s1.forest, m') in s1.used;
  }

  /** Frame `c` is filled with the bytes of frame `src`, and entry `w` for it goes in slot `i` of `d`. */
  ghost predicate PageAdded(s: State, s': State, d: Node, i: nat, c: nat, w: Word, src: nat) {
    && d in s.forest.tables && s.forest.tables[d] < |s.mem| && i < ENTRIES && src < |s.mem| && c < |s.mem|
    && s'.mem == Store(s.mem[c := s.mem[src]], s.forest.tables[d], i, w)
    && s'.forest == Forest(s.forest.kernel, s.forest.tables, s.forest.pages[d.Kid(i) := w])
    && s'.used == s.used + {c}
  }

  /** Copying one page into a fresh frame and writing its entry. */
  lemma {:induction false} CopyPage(s: State, s1: State, s': State,
    n: Node, r: nat, i: nat, c: nat, w: Word, e: Word, holes: set<Node>)
    requires Shape(s.forest) && WellFormedBut(s1, holes)
      && Copied(s, s1, n, r, i) && n.root != r && !Upper(n.Kid(i).path)
    requires Vacant(s.forest, r, n.path) && PagesBacked(s, n.root) && !InForest(s.forest, Node(r, n.path))
    requires n in s.forest.tables && Depth(n.path) == 3 && i < ENTRIES
      && n.Kid(i) in s.forest.pages && e == s.forest.pages[n.Kid(i)]
    requires c !in s1.used && FrameOf(w) == c && FlagsOf(w) == FlagsOf(e) && Present(w)
    requires PageAdded(s1, s', Node(r, n.path), i, c, w, FrameOf(e))
    ensures WellFormedBut(s', holes) && Copied(s, s', n, r, i + 1)
  {
    hide WellFormedBut, Shape, LinkedBut, Preserved, OnlyTwins,
      AllTwins, FreshHomes, Vacant, PagesBacked, Present, FlagsOf;
    var d := Node(r, n.path);
    CopyPageFacts(s, s1, n, r, i, holes);
    var s2 := s'.(mem := s1.mem[c := s1.mem[FrameOf(e)]]);
    NewPageLinks(s1, s', d, i, c, w, s2.mem, holes);
    assert Shape(s1.forest) && Shape(s'.forest) by { ShapeOf(s1, holes); ShapeOf(s', holes); }
    NewPageTwins(s1, s2, n, r, i, c, w);
    FreshHome(s1, s2, d.Kid(i), c);
    CopyKid(s, s1, s2, n, r, i);
    StoreKeepsCopies(s, s2, s', d, i, w, n, r, i + 1);
  }

  lemma {:induction false} ShapeOf(s: State, holes: set<Node>)
    requires WellFormedBut(s, holes)
    ensures Shape(s.forest)
  {}

  lemma {:induction false} CopyPageFacts(s: State, s1: State, n: Node, r: nat, i: nat, holes: set<Node>)
    requires Shape(s.forest) && WellFormedBut(s1, holes)
      && Copied(s, s1, n, r, i) && n.root != r && !Upper(n.Kid(i).path)
    requires Vacant(s.forest, r, n.path) && PagesBacked(s, n.root)
    requires n in s.forest.tables && Depth(n.path) == 3 && i < ENTRIES
      && n.Kid(i) in s.forest.pages && Node(r, n.path) in s1.forest.tables
    ensures s1.forest.tables[Node(r, n.path)] < |s1.mem|
    ensures !InForest(s1.forest, Node(r, n.path).Kid(i)) && Node(r, n.path).Kid(i) !in s1.forest.tables
    ensures n.Kid(i) in s1.forest.pages && s1.forest.pages[n.Kid(i)] == s.forest.pages[n.Kid(i)]
    ensures FrameOf(s.forest.pages[n.Kid(i)]) < |s1.mem|
  {
    var kid := Node(r, n.path).Kid(i);
    ReachedThrough(n.path, i, kid.path);
    assert Depth(kid.path) == 4;
    assert !InForest(s.forest, kid);
  }

  lemma {:induction false} NewPageLinks(s1: State, s': State, d: Node,
    i: nat, c: nat, w: Word, mem: seq<Frame>, holes: set<Node>)
    requires WellFormedBut(s1, holes) && d in s1.forest.tables && Depth(d.path) == 3 && i < ENTRIES && Present(w)
    requires c !in s1.used && c < |s1.mem| && d.Kid(i) !in s1.forest.pages
    requires |mem| == |s1.mem| && forall t: nat :: t < |mem| && t != c ==> mem[t] == s1.mem[t]
    requires s1.forest.tables[d] < |mem|
    requires s' == State(Store(mem, s1.forest.tables[d], i, w),
      s1.forest.(pages := s1.forest.pages[d.Kid(i) := w]), s1.used + {c})
    ensures WellFormedBut(s', holes)
  {
    hide TableShape, PageShape;
    AddPageShape(s1.forest, d, i, w);
    forall m, j: nat | m in s'.forest.tables && s'.forest.OwnedSlot(m, j) && m.Kid(j) !in holes
      ensures SlotOK(s'.forest, m, j, s'.mem[s'.forest.tables[m]][j])
    {
      assert s1.forest.OwnedSlot(m, j);
      assert SlotOK(s1.forest, m, j, s1.mem[s1.forest.tables[m]][j]);
    }
  }

  lemma {:induction false} NewPageTwins(s1: State, s2: State, n: Node, r: nat, i: nat, c: nat, w: Word)
    requires Shape(s1.forest) && n.root != r && Depth(n.path) == 3
      && n.Kid(i) in s1.forest.pages && c !in s1.used && c < |s1.mem|
    requires var e := s1.forest.pages[n.Kid(i)];
             && FrameOf(e) < |s1.mem| && FlagsOf(w) == FlagsOf(e) && FrameOf(w) == c
             && Node(r, n.path).Kid(i) !in s1.forest.pages
             && s2 == State(s1.mem[c := s1.mem[FrameOf(e)]],
               s1.forest.(pages := s1.forest.pages[Node(r, n.path).Kid(i) := w]), s1.used + {c})
    ensures Preserved(s1, s2) && OnlyTwins(s1, s2, n.Kid(i), r, ENTRIES) && AllTwins(s1, s2, n.Kid(i), r, ENTRIES)
  {
    hide Shape, FlagsOf, FrameOf, Below;
    var kid := n.Kid(i);
    forall m | InForest(s1.forest, m) && Reached(kid.path, ENTRIES, m.path)
      ensures m !in s1.forest.tables && m.path == kid.path
    {
      LeafOnly(s1.forest, kid, m);
    }
    LeafOnly(s1.forest, kid, kid);
    assert Node(r, kid.path) == Node(r, n.path).Kid(i);
  }

  /** Under a page there is nothing. */
  lemma {:induction false} LeafOnly(f: Forest, kid: Node, m: Node)
    requires Shape(f) && Depth(kid.path) == 4 && InForest(f, m) && Reached(kid.path, ENTRIES, m.path)
    ensures m !in f.tables && m.path == kid.path
  {
    hide Injective;
    BelowDepth(kid.path, m.path);
  }

  /** What holds when the subtree in slot `i` is about to be copied. */
  lemma {:induction false} KidReady(s: State, s1: State, n: Node, r: nat, i: nat, holes: set<Node>)
    requires WellFormedBut(s, holes) && Shape(s1.forest) && Copied(s, s1, n, r, i)
      && n.root != r && n in s.forest.tables && i < ENTRIES
    requires s.forest.OwnedSlot(n, i) && n.Kid(i) !in holes && Vacant(s.forest, r, n.path) && PagesBacked(s, n.root)
    ensures s.forest.tables[n] < |s.mem| && n in s1.forest.tables && s1.forest.tables[n] == s.forest.tables[n]
    ensures s1.mem[s.forest.tables[n]] == s.mem[s.forest.tables[n]]
    ensures SlotOK(s.forest, n, i, s1.mem[s.forest.tables[n]][i])
    ensures SlotOK(s1.forest, n, i, s1.mem[s.forest.tables[n]][i])
    ensures InForest(s.forest, n.Kid(i)) <==> Present(s1.mem[s.forest.tables[n]][i])
    ensures Vacant(s1.forest, r, n.Kid(i).path) && PagesBacked(s1, n.root)
  {
    hide AllTwins, FreshHomes, Injective, Vacant, PagesBacked, FrameOf, Present, Upper;
    KidVacant(s, s1, n, r, i);
    assert SlotOK(s.forest, n, i, s.mem[s.forest.tables[n]][i]);
  }

  lemma {:induction false} KidVacant(s: State, s1: State, n: Node, r: nat, i: nat)
    requires Copied(s, s1, n, r, i) && n.root != r && Vacant(s.forest, r, n.path) && PagesBacked(s, n.root)
    ensures Vacant(s1.forest, r, n.Kid(i).path) && PagesBacked(s1, n.root)
  {
    hide AllTwins, FreshHomes;
    forall m | InForest(s1.forest, m) && m.root == r ensures !AtOrBelow(n.Kid(i).path, m.path) {
      ReachedThrough(n.path, i, m.path);
    }
  }

  /** Storing an entry the copy does not own: the upper half of a process root. */
  lemma {:induction false} StoreUpper(s: State, s': State, c: nat, i: nat, w: Word, holes: set<Node>)
    requires WellFormedBut(s, holes) && s.forest.IsRoot(c)
      && c != s.forest.kernel && c < |s.mem| && ENTRIES / 2 <= i < ENTRIES
    requires s' == State(Store(s.mem, c, i, w), s.forest, s.used)
    ensures WellFormedBut(s', holes)
  {
    assert s.forest.tables[Node(c, Top)] == c;
    hide TableShape, PageShape;
    forall m, j: nat | m in s.forest.tables && s.forest.OwnedSlot(m, j) && m.Kid(j) !in holes
      ensures SlotOK(s.forest, m, j, s'.mem[s.forest.tables[m]][j])
    {
      assert SlotOK(s.forest, m, j, s.mem[s.forest.tables[m]][j]);
    }
  }

  /** Only holes below the roots matter. */
  lemma {:induction false} NoHoles(s: State, r: nat)
    ensures WellFormedBut(s, {}) <==> WellFormed(s)
    ensures WellFormedBut(s, {Node(r, Top)}) <==> WellFormed(s)
  {
    hide Shape;
    if WellFormedBut(s, {Node(r, Top)}) {
      forall m, j: nat | m in s.forest.tables && s.forest.OwnedSlot(m, j)
        ensures SlotOK(s.forest, m, j, s.mem[s.forest.tables[m]][j])
      {
        assert m.Kid(j) != Node(r, Top);
      }
    }
  }

  /** `init(parent)`: the lower half is copied in fresh frames, the upper half is shared. */
  ghost predicate ForkStep(s: State, s': State, parent: nat, child: nat) {
    && WellFormed(s) && WellFormed(s') && s.forest.IsRoot(parent) && s'.forest.IsRoot(child) && s'.forest.IsRoot(parent)
    && child !in s.used
    && Copied(s, s', Node(parent, Top), child, ENTRIES / 2)
    && forall i: nat ::
      ENTRIES / 2 <= i < ENTRIES ==> TopEntry(s'.mem, s'.forest, child, i) == TopEntry(s.mem, s.forest, parent, i)
  }

  /** Table `t` differs at most in slot `i`. */
  ghost predicate OthersKept(mem: seq<Frame>, mem': seq<Frame>, t: nat, i: nat) {
    t < |mem| && t < |mem'| && forall j: nat :: j < ENTRIES && j != i ==> mem'[t][j] == mem[t][j]
  }

  lemma {:induction false} TableFrameKept(s1: State, s2: State, kid: Node, r: nat, d: Node, known: set<Node>)
    requires WellFormedBut(s1, known) && Copied(s1, s2, kid, r, ENTRIES) && d in s1.forest.tables
    ensures d in s2.forest.tables && s2.forest.tables[d] == s1.forest.tables[d]
    ensures s1.forest.tables[d] < |s1.mem| == |s2.mem| && s2.mem[s1.forest.tables[d]] == s1.mem[s1.forest.tables[d]]
  {
    hide Shape;
  }

  // ---------- One round of the copying loop ----------

  /** State `s` is fit for copying the subtree in slot `i` of node `n` to root `r`. */
  ghost predicate CopySource(s: State, n: Node, r: nat, i: nat, holes: set<Node>) {
    && WellFormedBut(s, holes) && n in s.forest.tables && n.root != r
      && s.forest.OwnedSlot(n, i) && !Upper(n.Kid(i).path)
    && Vacant(s.forest, r, n.path) && PagesBacked(s, n.root) && (forall h :: h in holes ==> h.root == r)
  }

  lemma {:induction false} SourceSlot(s: State, s1: State, n: Node, r: nat, i: nat, holes: set<Node>, known: set<Node>)
    requires CopySource(s, n, r, i, holes) && WellFormedBut(s1, known) && Copied(s, s1, n, r, i)
    ensures i < ENTRIES && s.forest.tables[n] < |s1.mem| && SlotOK(s.forest, n, i, s1.mem[s.forest.tables[n]][i])
    ensures !Present(s1.mem[s.forest.tables[n]][i]) ==> Copied(s, s1, n, r, i + 1)
  {
    hide Copied;
    ShapeOf(s1, known);
    KidReady(s, s1, n, r, i, holes);
    if !Present(s1.mem[s.forest.tables[n]][i]) { SkipKid(s, s1, n, r, i); }
  }

  lemma {:induction false} PageInBounds(s: State, s1: State,
    n: Node, r: nat, i: nat, holes: set<Node>, known: set<Node>)
    requires CopySource(s, n, r, i, holes) && WellFormedBut(s1, known) && Copied(s, s1, n, r, i)
    requires Depth(n.path) == 3 && n.Kid(i) in s.forest.pages && Node(r, n.path) in s1.forest.tables
    ensures s1.forest.tables[Node(r, n.path)] < |s1.mem| && FrameOf(s.forest.pages[n.Kid(i)]) < |s1.mem| && i < ENTRIES
    ensures s1.forest.tables[Node(r, n.path)] in s1.used
  {
    CopyPageFacts(s, s1, n, r, i, known);
  }

  lemma {:induction false} PageSlotCopied(s: State, s1: State, n: Node, r: nat,
    i: nat, c: nat, w: Word, e: Word, holes: set<Node>, known: set<Node>)
    returns (s': State)
    requires CopySource(s, n, r, i, holes) && WellFormedBut(s1, known) && Copied(s, s1, n, r, i)
    requires Depth(n.path) == 3 && n.Kid(i) in s.forest.pages && e == s.forest.pages[n.Kid(i)] && Present(e)
    requires Node(r, n.path) in s1.forest.tables
    requires c !in s1.used && c < |s1.mem| && c < TWO_40 && w == Repoint(e, c)
    ensures s1.forest.tables[Node(r, n.path)] < |s1.mem| && FrameOf(e) < |s1.mem|
    ensures s' == State(Store(s1.mem[c := s1.mem[FrameOf(e)]], s1.forest.tables[Node(r, n.path)], i, w),
                        Forest(s1.forest.kernel, s1.forest.tables, s1.forest.pages[Node(r, n.path).Kid(i) := w]),
                        s1.used + {c})
    ensures WellFormedBut(s', known) && Copied(s, s', n, r, i + 1)
    ensures OthersKept(s1.mem, s'.mem, s1.forest.tables[Node(r, n.path)], i)
  {
    hide WellFormedBut, Copied, OthersKept, CopySource, Repoint,
      Present, FlagsOf, FrameOf, Upper, Vacant, PagesBacked, Shape;
    PackUnpack(c, e);
    PageInBounds(s, s1, n, r, i, holes, known);
    var d := Node(r, n.path);
    TwinIsNew(s, n, r, i, holes);
    s' := State(Store(s1.mem[c := s1.mem[FrameOf(e)]], s1.forest.tables[d], i, w),
                Forest(s1.forest.kernel, s1.forest.tables, s1.forest.pages[d.Kid(i) := w]), s1.used + {c});
    assert PageAdded(s1, s', d, i, c, w, FrameOf(e));
    PageAddedKeeps(s1, s', d, i, c, w, FrameOf(e));
    hide PageAdded;
    CopyPage(s, s1, s', n, r, i, c, w, e, known);
  }

  lemma {:induction false} PageAddedKeeps(s: State, s': State, d: Node, i: nat, c: nat, w: Word, src: nat)
    requires PageAdded(s, s', d, i, c, w, src) && c != s.forest.tables[d]
    ensures OthersKept(s.mem, s'.mem, s.forest.tables[d], i)
  {}

  lemma {:induction false} TwinIsNew(s: State, n: Node, r: nat, i: nat, holes: set<Node>)
    requires CopySource(s, n, r, i, holes)
    ensures !InForest(s.forest, Node(r, n.path)) && Vacant(s.forest, r, n.path)
      && PagesBacked(s, n.root) && Shape(s.forest)
    ensures n in s.forest.tables && n.root != r && !Upper(n.Kid(i).path) && i < ENTRIES
  {
    assert AtOrBelow(n.path, n.path);
  }

  lemma {:induction false} TableReady(s: State, s1: State, n: Node, r: nat, i: nat, holes: set<Node>, known: set<Node>)
    requires CopySource(s, n, r, i, holes) && WellFormedBut(s1, known) && Copied(s, s1, n, r, i)
    requires n.Kid(i) in s.forest.tables && known == holes + {Node(r, n.path)}
    ensures n.Kid(i) in s1.forest.tables && s1.forest.tables[n.Kid(i)] == s.forest.tables[n.Kid(i)]
    ensures Vacant(s1.forest, r, n.Kid(i).path) && PagesBacked(s1, n.root) && forall h :: h in known ==> h.root == r
    ensures n.root != r && !Upper(n.Kid(i).path) && i < ENTRIES
  {
    ShapeOf(s1, known);
    KidReady(s, s1, n, r, i, holes);
  }

  lemma {:induction false} TableSlotCopied(s: State, s1: State, s2: State, n: Node,
    r: nat, i: nat, c: nat, w: Word, e: Word, holes: set<Node>, known: set<Node>)
    returns (s3: State)
    requires CopySource(s, n, r, i, holes) && WellFormedBut(s1, known) && Copied(s, s1, n, r, i)
    requires Depth(n.path) < 3 && Node(r, n.path) in s1.forest.tables
    requires WellFormedBut(s2, known + {Node(r, n.path).Kid(i)}) && Copied(s1, s2, n.Kid(i), r, ENTRIES)
    requires Node(r, n.path).Kid(i) in s2.forest.tables && c == s2.forest.tables[Node(r, n.path).Kid(i)] && c < TWO_40
    requires w == Repoint(e, c) && Present(e) && Permissive(e)
    ensures var d := Node(r, n.path);
            && d in s2.forest.tables && s2.forest.tables[d] == s1.forest.tables[d] && s2.forest.tables[d] < |s2.mem|
            && s3 == State(Store(s2.mem, s2.forest.tables[d], i, w), s2.forest, s2.used)
    ensures WellFormedBut(s3, known) && Copied(s, s3, n, r, i + 1)
    ensures OthersKept(s1.mem, s3.mem, s1.forest.tables[Node(r, n.path)], i)
  {
    var d := Node(r, n.path);
    TwinIsNew(s, n, r, i, holes);
    TableFrameKept(s1, s2, n.Kid(i), r, d, known);
    PackUnpack(c, e);
    hide WellFormedBut, Copied, OthersKept, CopySource, Repoint;
    s3 := FillHole(s2, d, i, w, known);
    StoreKeepsOthers(s1.mem, s2.mem, s3.mem, s2.forest.tables[d], i, w);
    ShapeOf(s1, known);
    ShapeOf(s2, known + {d.Kid(i)});
    CopyKid(s, s1, s2, n, r, i);
    StoreKeepsCopies(s, s2, s3, d, i, w, n, r, i + 1);
  }

  lemma {:induction false} StoreKeepsOthers(mem: seq<Frame>,
    mem1: seq<Frame>, mem2: seq<Frame>, t: nat, i: nat, w: Word)
    requires t < |mem| && t < |mem1| && mem1[t] == mem[t] && i < ENTRIES && mem2 == Store(mem1, t, i, w)
    ensures OthersKept(mem, mem2, t, i)
  {}

  // ---------- The root of a copy ----------

  /** The upper entries before slot `k` of table `child` are those of table `parent`. */
  ghost predicate UpperCopied(mem: seq<Frame>, parent: nat, mem': seq<Frame>, child: nat, k: nat) {
    parent < |mem| && child < |mem'|
      && forall i: nat :: ENTRIES / 2 <= i < k && i < ENTRIES ==> mem'[child][i] == mem[parent][i]
  }

  /** Frame `child` was free in state `s`, so it can become a root beside `parent`. */
  ghost predicate FreshRoot(s: State, parent: nat, child: nat) {
    && WellFormed(s) && s.forest.IsRoot(parent) && child !in s.used && parent in s.used
    && Vacant(s.forest, child, Top) && parent < |s.mem|
      && child < |s.mem| && parent != child && child != s.forest.kernel
  }

  lemma {:induction false} NewRoot(s: State, parent: nat, child: nat) returns (s': State)
    requires WellFormed(s) && s.forest.IsRoot(parent) && child !in s.used && child < |s.mem|
    ensures s' == State(s.mem[child := ZeroFrame()],
      Forest(s.forest.kernel, s.forest.tables[Node(child, Top) := child], s.forest.pages), s.used + {child})
    ensures WellFormedBut(s', {Node(child, Top)}) && Copied(s, s', Node(parent, Top), child, 0)
    ensures FreshRoot(s, parent, child)
  {
    NoHoles(s, child);
    assert s.forest.tables[Node(parent, Top)] == parent
      && s.forest.tables[Node(s.forest.kernel, Top)] == s.forest.kernel;
    RootVacant(s, child);
    s' := State(s.mem[child := ZeroFrame()],
      Forest(s.forest.kernel, s.forest.tables[Node(child, Top) := child], s.forest.pages), s.used + {child});
    assert TableAdded(s, s', Node(child, Top), child);
    assert {} + {Node(child, Top)} == {Node(child, Top)};
    StartCopy(s, s', Node(parent, Top), child, {}, child);
  }

  /** A frame that is free is the root of nothing. */
  lemma {:induction false} RootVacant(s: State, c: nat)
    requires WellFormed(s) && c !in s.used
    ensures Vacant(s.forest, c, Top)
  {
    forall m | InForest(s.forest, m) ensures m.root != c {
      RootExists(s.forest, m);
      assert s.forest.tables[Node(m.root, Top)] == m.root;
    }
  }

  lemma {:induction false} RootExists(f: Forest, m: Node)
    requires Shape(f) && InForest(f, m)
    ensures f.IsRoot(m.root)
    decreases m.path
  {
    if m.path.Down? { RootExists(f, m.Parent()); }
  }

  lemma {:induction false} UpperStart(s: State, s1: State, parent: nat, child: nat)
    requires FreshRoot(s, parent, child) && Copied(s, s1, Node(parent, Top), child, 0)
    ensures UpperCopied(s.mem, parent, s1.mem, child, ENTRIES / 2)
  {}

  lemma {:induction false} ShareSlot(s: State, s1: State, parent: nat, child: nat, i: nat) returns (s': State)
    requires FreshRoot(s, parent, child) && ENTRIES / 2 <= i < ENTRIES
    requires WellFormedBut(s1, {Node(child, Top)}) && Copied(s, s1, Node(parent, Top), child, 0)
    requires s1.forest.IsRoot(child) && s1.forest.tables[Node(child, Top)] == child
      && UpperCopied(s.mem, parent, s1.mem, child, i)
    ensures parent < |s1.mem| && child < |s1.mem|
    ensures s' == State(Store(s1.mem, child, i, s1.mem[parent][i]), s1.forest, s1.used)
    ensures WellFormedBut(s', {Node(child, Top)}) && Copied(s, s', Node(parent, Top), child, 0)
    ensures UpperCopied(s.mem, parent, s'.mem, child, i + 1)
  {
    hide Copied, WellFormedBut, Shape, Vacant, FreshRoot, UpperCopied;
    ShareFacts(s, s1, parent, child, i);
    s' := State(Store(s1.mem, child, i, s1.mem[parent][i]), s1.forest, s1.used);
    ShapeOf(s1, {Node(child, Top)});
    UpperMore(s.mem, parent, s1.mem, child, i);
    StoreUpper(s1, s', child, i, s1.mem[parent][i], {Node(child, Top)});
    StoreKeepsCopies(s, s1, s', Node(child, Top), i, s1.mem[parent][i], Node(parent, Top), child, 0);
  }

  lemma {:induction false} ShareFacts(s: State, s1: State, parent: nat, child: nat, i: nat)
    requires FreshRoot(s, parent, child) && Copied(s, s1, Node(parent, Top), child, 0)
    ensures parent < |s.mem| == |s1.mem| && child < |s1.mem| && parent != child && child != s1.forest.kernel
    ensures s1.mem[parent] == s.mem[parent] && !InForest(s.forest, Node(child, Top)) && Vacant(s.forest, child, Top)
  {
    assert AtOrBelow(Top, Top);
  }

  lemma {:induction false} UpperMore(mem: seq<Frame>, parent: nat, mem1: seq<Frame>, child: nat, i: nat)
    requires UpperCopied(mem, parent, mem1, child, i) && ENTRIES / 2 <= i < ENTRIES
      && parent < |mem1| && mem1[parent] == mem[parent]
    ensures UpperCopied(mem, parent, Store(mem1, child, i, mem1[parent][i]), child, i + 1)
  {}

  lemma {:induction false} UpperStays(mem: seq<Frame>, parent: nat,
    mem1: seq<Frame>, mem2: seq<Frame>, child: nat, i: nat)
    requires UpperCopied(mem, parent, mem1, child, ENTRIES) && OthersKept(mem1, mem2, child, i) && i < ENTRIES / 2
    ensures UpperCopied(mem, parent, mem2, child, ENTRIES)
  {}

  lemma {:induction false} RootSlot(s: State, parent: nat, child: nat, i: nat)
    requires FreshRoot(s, parent, child) && PagesBacked(s, parent) && i < ENTRIES / 2
    ensures CopySource(s, Node(parent, Top), child, i, {}) && s.forest.tables[Node(parent, Top)] == parent
  {
    NoHoles(s, child);
  }

  lemma {:induction false} RootCopied(s: State, s': State, parent: nat, child: nat)
    requires FreshRoot(s, parent, child)
    requires WellFormedBut(s', {Node(child, Top)}) && Copied(s, s', Node(parent, Top), child, ENTRIES / 2)
    requires Node(child, Top) in s'.forest.tables && s'.forest.tables[Node(child, Top)] == child
    requires UpperCopied(s.mem, parent, s'.mem, child, ENTRIES)
    ensures WellFormed(s') && ForkStep(s, s', parent, child)
  {
    NoHoles(s', child);
  }
}
