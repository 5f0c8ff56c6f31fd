/** The address space of one process as the loader and the stack builder see it: the lower half of
    its root, with memory as bytes. */
module UserMemory {
  import opened Wrappers
  import opened Words
  import opened PhysicalMemory
  import opened ByteMemory
  import opened FrameAllocator
  import opened Forest
  import opened ForestSteps
  import opened AddressSpaceRuns
  import opened PageTables
  import opened ProcessLaws
  import opened UserPaging
  import MappingLaws

  /** The frames of the set have the bytes they had. */
  ghost predicate Untouched(was: seq<Byte>, now: seq<Byte>, frames: set<nat>) {
    |now| == |was| && forall i :: 0 <= i < |was| && i / PAGE_SIZE in frames ==> now[i] == was[i]
  }

  lemma {:induction false} UntouchedSame(bytes: seq<Byte>, frames: set<nat>)
    ensures Untouched(bytes, bytes, frames)
  {}

  lemma {:induction false} UntouchedFewer(was: seq<Byte>, now: seq<Byte>, few: set<nat>, many: set<nat>)
    requires Untouched(was, now, many) && few <= many
    ensures Untouched(was, now, few)
  {}

  lemma {:induction false} UntouchedMore(was: seq<Byte>, mid: seq<Byte>, now: seq<Byte>, few: set<nat>, many: set<nat>)
    requires Untouched(was, mid, few) && Untouched(mid, now, many) && few <= many
    ensures Untouched(was, now, few)
  {}

  /** Every page has a data frame of its own. */
  ghost predicate ProperMap(pages: map<nat, Mapping>, bytes: seq<Byte>, data: set<nat>) {
    && |bytes| == PAGE_SIZE * MAX_FRAMES
    && (forall f :: f in data ==> f < MAX_FRAMES)
    && (forall p :: p in pages ==> p < LOWER_PAGES && pages[p].frame in data)
    && (forall p, q :: p in pages && q in pages && pages[p].frame == pages[q].frame ==> p == q)
  }

  ghost predicate Has(pages: map<nat, Mapping>, vaddr: nat) { vaddr / PAGE_SIZE in pages }

  /** The physical address of a mapped one. */
  ghost function Place(pages: map<nat, Mapping>, vaddr: nat): (r: nat)
    requires Has(pages, vaddr)
    ensures r / PAGE_SIZE == pages[vaddr / PAGE_SIZE].frame && r % PAGE_SIZE == vaddr % PAGE_SIZE
  {
    PAGE_SIZE * pages[vaddr / PAGE_SIZE].frame + vaddr % PAGE_SIZE
  }

  /** Distinct addresses are distinct bytes. */
  lemma {:induction false} NoAlias(pages: map<nat, Mapping>, bytes: seq<Byte>, data: set<nat>, u: nat, v: nat)
    requires ProperMap(pages, bytes, data) && Has(pages, u) && Has(pages, v) && u != v
    ensures Place(pages, u) != Place(pages, v)
  {
    assert u == PAGE_SIZE * (u / PAGE_SIZE) + u % PAGE_SIZE && v == PAGE_SIZE * (v / PAGE_SIZE) + v % PAGE_SIZE;
  }

  class UserSpace {
    const spaces: AddressSpaces
    const root: nat
    /** The state in which the work on this address space began. */
    ghost const start: State
    /** What is mapped, by page number. */
    ghost var pages: map<nat, Mapping>
    /** Physical memory. */
    ghost var bytes: seq<Byte>
    /** The frames in use, and those of them that hold no table. */
    ghost var used: set<nat>
    ghost var data: set<nat>

    ghost predicate Valid()
      reads this, spaces, spaces.memory.words, spaces.pmm.allocator, spaces.pmm.allocator.bitmap.data
    {
      Proper() && Backed()
    }

    ghost predicate Proper()
      reads this
    {
      data <= used && ProperMap(pages, bytes, data)
    }

    /** All this is what the page tables say, and they came about by steps of this process. */
    ghost predicate Backed()
      reads this, spaces, spaces.memory.words, spaces.pmm.allocator, spaces.pmm.allocator.bitmap.data
    {
      && (this as object) != spaces
      && Steady(spaces) && spaces.forest.IsRoot(root) && root != spaces.forest.kernel
      && pages == UserMap(spaces.Now(), root) && bytes == Flat(spaces.memory.View())
      && used == spaces.pmm.Used() && data == DataFrames(spaces.Now())
      && Builds(start, root, spaces.Now())
    }

    /** The state of the page tables. */
    ghost function Now(): State
      requires Valid()
      reads this, spaces, spaces.memory.words, spaces.pmm.allocator, spaces.pmm.allocator.bitmap.data
    {
      spaces.Now()
    }

    constructor (spaces: AddressSpaces, root: nat)
      requires Steady(spaces) && spaces.forest.IsRoot(root) && root != spaces.forest.kernel
      ensures Valid() && this.spaces == spaces && this.root == root && start == spaces.Now()
      ensures pages == UserMap(start, root) && used == start.used && data == DataFrames(start)
    {
      hide Good, WellFormed, UserMap, Flat, Builds, DataFrames, Memory.View;
      this.spaces, this.root, start := spaces, root, spaces.Now();
      pages, bytes := UserMap(spaces.Now(), root), Flat(spaces.memory.View());
      used, data := spaces.pmm.Used(), DataFrames(spaces.Now());
      new;
      BuildsNothing(start, root);
      ViewIsProper(start, root);
    }

    static lemma {:induction false} ViewIsProper(s: State, root: nat)
      requires Good(s) && root != s.forest.kernel && |s.mem| == MAX_FRAMES && forall f :: f in s.used ==> f < MAX_FRAMES
      ensures DataFrames(s) <= s.used && |Flat(s.mem)| == PAGE_SIZE * MAX_FRAMES
      ensures var m := UserMap(s, root);
        && (forall p :: p in m ==> p < LOWER_PAGES && m[p].frame in DataFrames(s))
        && (forall p, q :: p in m && q in m && m[p].frame == m[q].frame ==> p == q)
    {
      hide Good, PageNode, FrameOf, FlagsOf;
      MapIsValid(s, root);
    }

    ghost predicate Mapped(vaddr: nat)
      reads this
    {
      Has(pages, vaddr)
    }

    /** The byte a program reads at an address. */
    ghost function Read(vaddr: nat): Byte
      requires Proper() && Mapped(vaddr)
      reads this
    {
      assert pages[vaddr / PAGE_SIZE].frame in data;
      bytes[Place(pages, vaddr)]
    }

    /** What is read there is what the processor reads through the page tables. */
    lemma {:induction false} ReadsSpace(v: Word)
      requires Valid() && v / PAGE_SIZE < LOWER_PAGES
      ensures ByteRead(Now(), root, v) == if Mapped(v) then Some(Read(v)) else None
      ensures Mapped(v) ==>
        && Translate(Now().mem, root, PathOf(v)).Some?
        && FlagsOf(Translate(Now().mem, root, PathOf(v)).value) == pages[v / PAGE_SIZE].flags
    {
      hide Good, PathOf, FrameOf, FlagsOf, UserMap, ByteAt, WellFormed, Memory.View, Builds, DataFrames;
      LowerPage(v);
      TranslateIsMap(spaces.Now(), root, v);
    }

    static lemma {:induction false} LowerPage(v: Word)
      requires v / PAGE_SIZE < LOWER_PAGES
      ensures PageOf(v) == v / PAGE_SIZE
    {}

    /** `virtToPhys` of a mapped address. */
    method VirtToPhys(vaddr: Word) returns (r: nat)
      requires Valid() && Mapped(vaddr)
      ensures r == Place(pages, vaddr)
    {
      hide Good, PathOf, FrameOf, FlagsOf, UserMap, WellFormed, Memory.View, Builds, DataFrames, Upper;
      LowerPage(vaddr);
      LowerIff(vaddr);
      TranslateIsMap(spaces.Now(), root, vaddr);
      r := spaces.VirtToPhys(root, vaddr);
    }

    /** No frame is free. */
    ghost predicate Full()
      reads spaces, spaces.pmm.allocator, spaces.pmm.allocator.bitmap.data
    {
      spaces.Exhausted()
    }

    /** The frame is held and nothing is in it. */
    ghost predicate Spare(frame: nat)
      requires spaces.memory.Valid() && spaces.pmm.Valid()
      reads spaces, spaces.memory.words, spaces.pmm.allocator, spaces.pmm.allocator.bitmap.data
    {
      HeldFrame(spaces.Now(), frame)
    }

    method AllocateFrame() returns (frame: Option<nat>)
      requires Valid()
      modifies `used, `data, spaces.pmm.allocator, spaces.pmm.allocator.bitmap.data
      ensures match frame
        case None => Full()
        case Some(f) =>
          && Valid() && f < MAX_FRAMES && f !in old(used) && used == old(used) + {f} && data == old(data) + {f}
          && Spare(f)
    {
      hide Good, WellFormed, HeldFrame, UserMap, Flat, Builds, DataFrames, Memory.View, Taken;
      ghost var s := spaces.Now();
      frame := spaces.pmm.AllocateFrame();
      if frame.None? { return; }
      FreshIsHeld(s, frame.value);
      TakenIs(s, frame.value, spaces.Now());
      TakenView(s, frame.value, root);
      used, data := used + {frame.value}, data + {frame.value};
      BuildsMore(start, root, s, Take(frame.value), spaces.Now());
    }

    static lemma {:induction false} TakenView(s: State, c: nat, root: nat)
      requires WellFormed(s) && c !in s.used && HeldFrame(Taken(s, c), c)
      ensures UserMap(Taken(s, c), root) == UserMap(s, root) && DataFrames(Taken(s, c)) == DataFrames(s) + {c}
    {
      hide WellFormed, PageNode, FrameOf, FlagsOf;
      HeldIsData(Taken(s, c), c);
    }

    /** `mapPage` in the lower half: the first mapping of a page stays, and the frame is the caller's. */
    method MapPage(vaddr: Word, frame: nat, flags: Word) returns (ok: bool)
      requires Valid() && Spare(frame) && PageOf(vaddr) < LOWER_PAGES && flags == FlagsOf(flags) && Present(flags)
      modifies this, spaces, spaces.memory.words, spaces.pmm.allocator, spaces.pmm.allocator.bitmap.data
      ensures !ok ==> Full()
      ensures ok ==> Valid() && old(used) <= used && data == old(data) && Untouched(old(bytes), bytes, data)
      ensures ok ==> Step(old(spaces.Now()), MapUser(Node(root, PathOf(vaddr)), Repoint(flags, frame)), spaces.Now())
      ensures ok ==> pages == if PageOf(vaddr) in old(pages) then old(pages)
                              else old(pages)[PageOf(vaddr) := Mapping(frame, flags)]
    {
      hide Good, WellFormed, MapStep, HeldFrame, UserMap, Flat, Builds, DataFrames, Memory.View;
      hide Present, FlagsOf, FrameOf, Entry, PathOf, Upper, Untouched;
      ghost var s := spaces.Now();
      LowerIff(vaddr);
      HeldIsData(s, frame);
      PackUnpack(frame, flags);
      ok := spaces.MapPage(root, vaddr, frame * PAGE_SIZE, flags);
      if !ok { return; }
      ghost var s', w := spaces.Now(), Repoint(flags, frame);
      ghost var op := MapUser(Node(root, PathOf(vaddr)), w);
      StepKeepsGood(s, op, s');
      MapUserIsMapPage(s, s', root, vaddr, w);
      MapUserKeepsData(s, s', Node(root, PathOf(vaddr)), w);
      SameData(s.mem, s'.mem, data);
      pages, bytes, used := UserMap(s', root), Flat(s'.mem), s'.used;
      BuildsMore(start, root, s, op, s');
      MappingLaws.RootsKept(s, s', Node(root, PathOf(vaddr)), w);
      ViewIsProper(s', root);
    }

    /** `allocateFrame` and `mapPage`. */
    method MapFresh(vaddr: Word, flags: Word) returns (frame: Option<nat>)
      requires Valid() && vaddr / PAGE_SIZE < LOWER_PAGES && flags == FlagsOf(flags) && Present(flags)
      modifies this, spaces, spaces.memory.words, spaces.pmm.allocator, spaces.pmm.allocator.bitmap.data
      ensures frame.None? ==> Full()
      ensures frame.Some? ==>
        && Valid() && frame.value !in old(used) && old(used) <= used
        && old(data) <= data && Untouched(old(bytes), bytes, old(data))
        && pages == if vaddr / PAGE_SIZE in old(pages) then old(pages)
                    else old(pages)[vaddr / PAGE_SIZE := Mapping(frame.value, flags)]
    {
      hide Backed, Present, FlagsOf, Step;
      LowerPage(vaddr);
      frame := AllocateFrame();
      if frame.None? { return; }
      var ok := MapPage(vaddr, frame.value, flags);
      if !ok { return None; }
    }

    static lemma {:induction false} SameData(mem: seq<Frame>, mem': seq<Frame>, data: set<nat>)
      requires |mem'| == |mem| && forall c: nat :: c in data && c < |mem| ==> mem'[c] == mem[c]
      ensures Untouched(Flat(mem), Flat(mem'), data)
    {
      hide ByteAt;
      forall a: nat | a < |Flat(mem)| && a / PAGE_SIZE in data ensures ByteAt(mem', a) == ByteAt(mem, a) {
        SameByte(mem, mem', a);
      }
    }

    static lemma {:induction false} SameByte(mem: seq<Frame>, mem': seq<Frame>, a: nat)
      requires a / PAGE_SIZE < |mem| == |mem'| && mem'[a / PAGE_SIZE] == mem[a / PAGE_SIZE]
      ensures ByteAt(mem', a) == ByteAt(mem, a)
    {}

    /** The address lies in a data frame. */
    ghost predicate InData(a: nat)
      reads `data
    {
      a / PAGE_SIZE in data
    }

    static lemma {:induction false} SameForest(s: State, s': State, root: nat)
      requires s'.forest == s.forest && s'.used == s.used
      ensures UserMap(s', root) == UserMap(s, root) && DataFrames(s') == DataFrames(s)
    {}

    /** A byte of physical memory, through the direct map. */
    method StoreByte(dest: nat, value: Byte)
      requires Valid() && InData(dest)
      modifies `bytes, spaces.memory.words
      ensures Valid() && bytes == old(bytes)[dest := value]
    {
      hide Good, WellFormed, UserMap, Flat, Builds, DataFrames, StoredByte;
      ghost var s := spaces.Now();
      var f, i := dest / PAGE_SIZE, dest % PAGE_SIZE / 8;
      var w := spaces.memory.At(f, i);
      spaces.memory.Set(f, i, StoredByte(w, dest % 8, value));
      ghost var s' := spaces.Now();
      StoreIsWrite(s, f, s'.mem[f]);
      StepKeepsGood(s, Write(f), s');
      StoreByteFlat(s.mem, dest, value);
      SameForest(s, s', root);
      bytes := bytes[dest := value];
      BuildsMore(start, root, s, Write(f), s');
    }

    method Memset(dest: nat, value: Byte, n: nat)
      requires Valid() && forall a: nat :: dest <= a < dest + n ==> InData(a)
      modifies `bytes, spaces.memory.words
      ensures Valid() && |bytes| == old(|bytes|)
      ensures forall i :: 0 <= i < |bytes| ==> bytes[i] == if dest <= i < dest + n then value else old(bytes)[i]
    {
      hide Backed;
      for i := 0 to n
        invariant Valid() && |bytes| == old(|bytes|)
        invariant forall k :: 0 <= k < |bytes| ==> bytes[k] == if dest <= k < dest + i then value else old(bytes)[k]
      {
        StoreByte(dest + i, value);
      }
    }

    method Memcpy(dest: nat, src: seq<Byte>, from: nat, n: nat)
      requires Valid() && from + n <= |src| && forall a: nat :: dest <= a < dest + n ==> InData(a)
      modifies `bytes, spaces.memory.words
      ensures Valid() && |bytes| == old(|bytes|)
      ensures forall i ::
        0 <= i < |bytes| ==> bytes[i] == if dest <= i < dest + n then src[from + (i - dest)] else old(bytes)[i]
    {
      hide Backed;
      for i := 0 to n
        invariant Valid() && |bytes| == old(|bytes|)
        invariant forall k ::
          0 <= k < |bytes| ==> bytes[k] == if dest <= k < dest + i then src[from + (k - dest)] else old(bytes)[k]
      {
        StoreByte(dest + i, src[from + i]);
      }
    }
  }
}
