/** The trees of page tables that live in physical memory, as values.

    A node names a place in the tree of one address space: `Top` is the PML4, and each `Down`
    follows one of 512 slots, so tables have depth 0 to 3 and pages depth 4. The forest
    records which frame holds the table of each node and which entry maps each page. The
    upper half of every process root is shared with the kernel root, so its nodes belong to
    the kernel alone. */
module Forest {
  import opened Words
  import opened Wrappers
  import opened PhysicalMemory
  import EntryBits

  datatype Path = Top | Down(up: Path, idx: nat)

  function Depth(p: Path): nat {
    match p
    case Top => 0
    case Down(up, _) => Depth(up) + 1
  }

  /** Every index along the path is a slot of a table. */
  predicate Bounded(p: Path) {
    p.Down? ==> p.idx < ENTRIES && Bounded(p.up)
  }

  /** The path of a page. */
  predicate IsPage(p: Path) { Depth(p) == 4 && Bounded(p) }

  /** The slot the path takes in the PML4. */
  function First(p: Path): nat
    requires p.Down?
  {
    if p.up.Top? then p.idx else First(p.up)
  }

  predicate Upper(p: Path) { p.Down? && First(p) >= ENTRIES / 2 }

  /** `p` lies strictly below `a`. */
  predicate Below(a: Path, p: Path) {
    p.Down? && (p.up == a || Below(a, p.up))
  }

  /** The path through four slots. */
  function Path4(i: nat, j: nat, k: nat, l: nat): (p: Path)
    ensures Depth(p) == 4
    ensures i < ENTRIES && j < ENTRIES && k < ENTRIES && l < ENTRIES ==> Bounded(p)
  {
    var p1 := Down(Top, i);
    var p2 := Down(p1, j);
    var p3 := Down(p2, k);
    assert Depth(p1) == 1 && (i < ENTRIES ==> Bounded(p1));
    assert Depth(p2) == 2 && (i < ENTRIES && j < ENTRIES ==> Bounded(p2));
    assert Depth(p3) == 3 && (i < ENTRIES && j < ENTRIES && k < ENTRIES ==> Bounded(p3));
    Down(p3, l)
  }

  /** The indices a virtual address selects, outermost first. */
  function PathOf(vaddr: Word): (p: Path)
    ensures Depth(p) == 4 && Bounded(p)
  {
    Path4(vaddr / 0x80_0000_0000 % ENTRIES, vaddr / 0x4000_0000 % ENTRIES,
      vaddr / 0x20_0000 % ENTRIES, vaddr / 0x1000 % ENTRIES)
  }

  /** The number a path spells, nine bits a level: the region of the address space that it leads to. */
  function Region(p: Path): nat {
    match p
    case Top => 0
    case Down(up, i) => ENTRIES * Region(up) + i
  }

  /** The indices of an address lead through its regions of 512 GiB, 1 GiB and 2 MiB to its page. */
  lemma {:induction false} PathIsOfAddress(vaddr: Word)
    ensures var p := PathOf(vaddr);
      && p.Down? && p.up.Down? && p.up.up.Down? && p.up.up.up.Down?
      && Region(p) == vaddr / 0x1000 % 0x10_0000_0000
      && Region(p.up) == vaddr / 0x20_0000 % 0x800_0000
      && Region(p.up.up) == vaddr / 0x4000_0000 % 0x4_0000
      && Region(p.up.up.up) == vaddr / 0x80_0000_0000 % 0x200
  {
    hide Path4, Region;
    var p4, p3, p2, p1 := vaddr / 0x1000, vaddr / 0x20_0000, vaddr / 0x4000_0000, vaddr / 0x80_0000_0000;
    assert p3 == p4 / 512 && p2 == p3 / 512 && p1 == p2 / 512;
    RegionsOf(p1 % ENTRIES, p2 % ENTRIES, p3 % ENTRIES, p4 % ENTRIES);
    EighteenBits(p2, p1);
    TwentySevenBits(p3, p2);
    ThirtySixBits(p4, p3);
  }

  lemma {:induction false} RegionsOf(i: nat, j: nat, k: nat, l: nat)
    ensures var p := Path4(i, j, k, l);
      && p.Down? && p.up.Down? && p.up.up.Down? && p.up.up.up.Down?
      && Region(p.up.up.up) == i && Region(p.up.up) == 512 * i + j
      && Region(p.up) == 512 * Region(p.up.up) + k && Region(p) == 512 * Region(p.up) + l
  {
    assert Region(Down(Top, i)) == i && Region(Down(Down(Top, i), j)) == 512 * i + j;
  }

  lemma {:induction false} EighteenBits(n: nat, q: nat)
    requires q == n / 512
    ensures n % 0x4_0000 == 512 * (q % 0x200) + n % 512
  {}

  lemma {:induction false} TwentySevenBits(n: nat, q: nat)
    requires q == n / 512
    ensures n % 0x800_0000 == 512 * (q % 0x4_0000) + n % 512
  {}

  lemma {:induction false} ThirtySixBits(n: nat, q: nat)
    requires q == n / 512
    ensures n % 0x10_0000_0000 == 512 * (q % 0x800_0000) + n % 512
  {}

  /** A page is found by no other number: paths of one depth with the same number are equal. */
  lemma {:induction false} RegionIsPath(p: Path, q: Path)
    requires Depth(p) == Depth(q) && Bounded(p) && Bounded(q)
    ensures Region(p) == Region(q) ==> p == q
  {
    if p.Down? && Region(p) == Region(q) { RegionIsPath(p.up, q.up); }
  }

  /** The page number made of four indices. */
  function PageNumber(i: nat, j: nat, k: nat, l: nat): nat { ((i * ENTRIES + j) * ENTRIES + k) * ENTRIES + l }

  /** Two addresses select the same path exactly when their 36-bit page numbers agree. */
  lemma {:induction false} PathIsPageNumber(a: Word, b: Word)
    ensures PathOf(a) == PathOf(b) <==> a / PAGE_SIZE % 0x10_0000_0000 == b / PAGE_SIZE % 0x10_0000_0000
  {
    PageDigits(a);
    PageDigits(b);
    DigitsUnique(
      a / 0x80_0000_0000 % ENTRIES, a / 0x4000_0000 % ENTRIES, a / 0x20_0000 % ENTRIES, a / 0x1000 % ENTRIES,
      b / 0x80_0000_0000 % ENTRIES, b / 0x4000_0000 % ENTRIES, b / 0x20_0000 % ENTRIES, b / 0x1000 % ENTRIES);
  }

  lemma {:induction false} DigitsUnique(i: nat, j: nat, k: nat, l: nat, i': nat, j': nat, k': nat, l': nat)
    requires j < ENTRIES && k < ENTRIES && l < ENTRIES && j' < ENTRIES && k' < ENTRIES && l' < ENTRIES
    ensures PageNumber(i, j, k, l) == PageNumber(i', j', k', l') ==> i == i' && j == j' && k == k' && l == l'
  {}

  lemma {:induction false} PageDigits(a: Word)
    ensures PageNumber(a / 0x80_0000_0000 % ENTRIES,
      a / 0x4000_0000 % ENTRIES, a / 0x20_0000 % ENTRIES, a / 0x1000 % ENTRIES)
         == a / PAGE_SIZE % 0x10_0000_0000
  {
    var p := a / PAGE_SIZE;
    assert p / ENTRIES == a / 0x20_0000 && p / ENTRIES / ENTRIES == a / 0x4000_0000;
    assert p / ENTRIES / ENTRIES / ENTRIES == a / 0x80_0000_0000;
  }

  datatype Node = Node(root: nat, path: Path) {
    function Kid(i: nat): Node { Node(root, Down(path, i)) }

    function Parent(): Node
      requires path.Down?
    {
      Node(root, path.up)
    }
  }

  datatype Forest = Forest(kernel: nat, tables: map<Node, nat>, pages: map<Node, Word>) {
    predicate IsRoot(r: nat) { Node(r, Top) in tables }

    /** A slot whose subtree belongs to the node: not the shared upper half of a process root. */
    predicate OwnedSlot(n: Node, i: nat) {
      i < ENTRIES && (n.path.Top? && n.root != kernel ==> i < ENTRIES / 2)
    }

    /** The node whose entry translates `p` for root `r`: the kernel's in the upper half. */
    function Backing(r: nat, p: Path): Node {
      if Upper(p) then Node(kernel, p) else Node(r, p)
    }

    predicate HasKid(n: Node) {
      exists i: nat :: i < ENTRIES && (n.Kid(i) in tables || n.Kid(i) in pages)
    }
  }

  /** Tables hang, slot by slot, from the roots. */
  ghost predicate TableShape(f: Forest) {
    && f.IsRoot(f.kernel)
    && (forall n :: n in f.tables && n.path.Top? ==> f.tables[n] == n.root)
    && (forall n :: n in f.tables && n.path.Down? ==>
          Depth(n.path) <= 3 && n.Parent() in f.tables && f.OwnedSlot(n.Parent(), n.path.idx))
  }

  /** Pages hang from the tables of depth 3. */
  ghost predicate PageShape(f: Forest) {
    forall n :: n in f.pages ==>
      n.path.Down? && Depth(n.path) == 4 && n.Parent() in f.tables
        && f.OwnedSlot(n.Parent(), n.path.idx) && Present(f.pages[n])
  }

  /** No frame holds two tables. */
  ghost predicate Injective(f: Forest) {
    forall n, m :: n in f.tables && m in f.tables && f.tables[n] == f.tables[m] ==> n == m
  }

  /** The nodes form trees under the roots, and no frame holds two tables. */
  ghost predicate Shape(f: Forest) { TableShape(f) && PageShape(f) && Injective(f) }

  /** No table below a root is empty: the reclamation of `unmapPage` missed none. */
  ghost predicate NoEmptyTables(f: Forest) {
    forall n :: n in f.tables && n.path.Down? ==> f.HasKid(n)
  }

  /** The flags of an entry for a table: what is allowed is left to the entry of the page. */
  predicate Permissive(w: Word) { FlagsOf(w) == READ_WRITE_USER }

  /** Entry `w` says about slot `i` of node `n` what the forest says. */
  predicate SlotOK(f: Forest, n: Node, i: nat, w: Word) {
    if Depth(n.path) < 3 then
      Present(w) == (n.Kid(i) in f.tables) && (Present(w) ==> FrameOf(w) == f.tables[n.Kid(i)] && Permissive(w))
    else
      Present(w) == (n.Kid(i) in f.pages) && (Present(w) ==> w == f.pages[n.Kid(i)])
  }

  /** The tables in memory hold the forest. */
  ghost predicate Linked(mem: seq<Frame>, f: Forest) {
    && (forall n :: n in f.tables ==> f.tables[n] < |mem|)
    && (forall n, i: nat :: n in f.tables && f.OwnedSlot(n, i) ==> SlotOK(f, n, i, mem[f.tables[n]][i]))
  }

  /** Every root has the kernel root's upper 256 entries. */
  ghost predicate SharedTop(mem: seq<Frame>, f: Forest)
    requires Linked(mem, f) && Shape(f)
  {
    forall r: nat, i: nat :: f.IsRoot(r) && ENTRIES / 2 <= i < ENTRIES
      ==> TopEntry(mem, f, r, i) == TopEntry(mem, f, f.kernel, i)
  }

  function TopEntry(mem: seq<Frame>, f: Forest, r: nat, i: nat): Word
    requires f.IsRoot(r) && f.tables[Node(r, Top)] < |mem| && i < ENTRIES
  {
    mem[f.tables[Node(r, Top)]][i]
  }

  // ---------- The walk of the hardware ----------

  /** The frame of the table the processor reaches from `root` along `p`. */
  function TableAt(mem: seq<Frame>, root: nat, p: Path): Option<nat> {
    match p
    case Top => Some(root)
    case Down(up, i) =>
      match TableAt(mem, root, up)
      case None => None
      case Some(t) => if t < |mem| && i < ENTRIES && Present(mem[t][i]) then Some(FrameOf(mem[t][i])) else None
  }

  /** The entry that maps page `p`, if the walk reaches a present one. */
  function Translate(mem: seq<Frame>, root: nat, p: Path): Option<Word>
    requires p.Down?
  {
    match TableAt(mem, root, p.up)
    case None => None
    case Some(t) => if t < |mem| && p.idx < ENTRIES && Present(mem[t][p.idx]) then Some(mem[t][p.idx]) else None
  }

  lemma {:induction false} FirstBounded(p: Path)
    requires p.Down? && Bounded(p)
    ensures First(p) < ENTRIES
  {
    if p.up.Down? { FirstBounded(p.up); }
  }

  /** The table walk reaches exactly the tables of the forest. */
  lemma {:induction false} WalkReachesTables(mem: seq<Frame>, f: Forest, r: nat, p: Path)
    requires Shape(f) && Linked(mem, f) && f.IsRoot(r) && (r == f.kernel || !Upper(p) || SharedTop(mem, f))
    requires Depth(p) <= 3 && Bounded(p)
    ensures TableAt(mem, r, p) == if f.Backing(r, p) in f.tables then Some(f.tables[f.Backing(r, p)]) else None
  {
    if p.Down? {
      WalkReachesTables(mem, f, r, p.up);
      var b := f.Backing(r, p);
      if p.up.Top? {
        if p.idx >= ENTRIES / 2 && r != f.kernel {
          assert TopEntry(mem, f, r, p.idx) == TopEntry(mem, f, f.kernel, p.idx);
        }
        assert SlotOK(f, Node(b.root, Top), p.idx, mem[f.tables[Node(b.root, Top)]][p.idx]);
      } else if b.Parent() in f.tables {
        assert b.Parent() == f.Backing(r, p.up) && b == b.Parent().Kid(p.idx);
        assert SlotOK(f, b.Parent(), p.idx, mem[f.tables[b.Parent()]][p.idx]);
      }
    }
  }

  /** The processor's translation of a page is the forest's entry for it. */
  lemma {:induction false} TranslateIsLookup(mem: seq<Frame>, f: Forest, r: nat, p: Path)
    requires Shape(f) && Linked(mem, f) && f.IsRoot(r) && (r == f.kernel || !Upper(p) || SharedTop(mem, f))
    requires Depth(p) == 4 && Bounded(p)
    ensures Translate(mem, r, p) == if f.Backing(r, p) in f.pages then Some(f.pages[f.Backing(r, p)]) else None
  {
    WalkReachesTables(mem, f, r, p.up);
    var b := f.Backing(r, p);
    assert b.Parent() == f.Backing(r, p.up);
    if b.Parent() in f.tables {
      assert SlotOK(f, b.Parent(), p.idx, mem[f.tables[b.Parent()]][p.idx]);
    }
  }

  // ---------- Access rights ----------

  const WRITABLE := 1
  const USER := 2
  const FORBIDDEN := 63

  /** The processor allows an access only if every entry on the walk to `p` has the bit of it. */
  predicate Allowed(mem: seq<Frame>, root: nat, p: Path, bit: nat)
    decreases p
  {
    p.Down? ==>
      && Allowed(mem, root, p.up, bit)
      && match TableAt(mem, root, p.up)
         case None => false
         case Some(t) => t < |mem| && p.idx < ENTRIES && Present(mem[t][p.idx]) && TestBit(mem[t][p.idx], bit)
  }

  /** It executes what no entry on the walk forbids. */
  predicate Executable(mem: seq<Frame>, root: nat, p: Path)
    decreases p
  {
    p.Down? ==>
      && Executable(mem, root, p.up)
      && match TableAt(mem, root, p.up)
         case None => false
         case Some(t) => t < |mem| && p.idx < ENTRIES && Present(mem[t][p.idx]) && !TestBit(mem[t][p.idx], FORBIDDEN)
  }

  lemma {:induction false} PermissiveBits(w: Word, bit: nat)
    requires Permissive(w) && (bit == WRITABLE || bit == USER)
    ensures TestBit(w, bit) && !TestBit(w, FORBIDDEN)
  {
    hide TestBit, Present, FlagsOf, FrameOf;
    EntryBits.EntryLayout(w, bit);
    EntryBits.EntryLayout(w, FORBIDDEN);
    EntryBits.FlagBits(bit);
    EntryBits.FlagBits(FORBIDDEN);
  }

  /** No table on the way to a page takes a right away. */
  lemma {:induction false} TablesAllow(mem: seq<Frame>, f: Forest, r: nat, p: Path, bit: nat)
    requires Shape(f) && Linked(mem, f) && f.IsRoot(r) && (r == f.kernel || !Upper(p) || SharedTop(mem, f))
    requires Depth(p) <= 3 && Bounded(p) && TableAt(mem, r, p).Some? && (bit == WRITABLE || bit == USER)
    ensures Allowed(mem, r, p, bit) && Executable(mem, r, p)
  {
    if p.Down? {
      TablesAllow(mem, f, r, p.up, bit);
      WalkReachesTables(mem, f, r, p.up);
      var t := TableAt(mem, r, p.up).value;
      var b := f.Backing(r, p);
      if p.up.Top? {
        if p.idx >= ENTRIES / 2 && r != f.kernel {
          assert TopEntry(mem, f, r, p.idx) == TopEntry(mem, f, f.kernel, p.idx);
        }
        assert SlotOK(f, Node(b.root, Top), p.idx, mem[f.tables[Node(b.root, Top)]][p.idx]);
      } else {
        assert b.Parent() == f.Backing(r, p.up) && b == b.Parent().Kid(p.idx);
        assert SlotOK(f, b.Parent(), p.idx, mem[f.tables[b.Parent()]][p.idx]);
      }
      PermissiveBits(mem[t][p.idx], bit);
    }
  }

  /** What a program may do with a mapped page is what the entry of the page says. */
  lemma {:induction false} AccessIsOfThePage(mem: seq<Frame>, f: Forest, r: nat, p: Path, bit: nat)
    requires Shape(f) && Linked(mem, f) && f.IsRoot(r) && (r == f.kernel || !Upper(p) || SharedTop(mem, f))
    requires IsPage(p) && Translate(mem, r, p).Some? && (bit == WRITABLE || bit == USER)
    ensures Allowed(mem, r, p, bit) <==> TestBit(Translate(mem, r, p).value, bit)
    ensures Executable(mem, r, p) <==> !TestBit(Translate(mem, r, p).value, FORBIDDEN)
  {
    TablesAllow(mem, f, r, p.up, bit);
  }
}
