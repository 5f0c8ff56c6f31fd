/** The initial user stack: strings and pointers written through translated addresses, as the
    startup code of a program reads them. */
module UserStack {
  import opened Wrappers
  import opened Words
  import opened ByteMemory
  import opened UserPaging
  import opened UserMemory

  /** A string without its terminator. */
  type CString = s: seq<Byte> | 0 !in s

  // ---------- What the startup code reads ----------

  /** The quadword at `rsp + 8 * k`; `s` is what is on the stack from `rsp` up. */
  function Qword(s: seq<Byte>, k: nat): nat {
    if 8 * k + 8 <= |s| then Little(s[8 * k..8 * k + 8]) else 0
  }

  /** The characters up to the first NUL. */
  function UpToNul(s: seq<Byte>): (r: CString)
    ensures |r| <= |s|
  {
    if s == [] || s[0] == 0 then [] else [s[0]] + UpToNul(s[1..])
  }

  function StringAt(s: seq<Byte>, rsp: nat, addr: nat): CString {
    if rsp <= addr <= rsp + |s| then UpToNul(s[addr - rsp..]) else []
  }

  function Argc(s: seq<Byte>): nat { Qword(s, 0) }

  function Argv(s: seq<Byte>, rsp: nat): seq<CString> {
    seq<CString>(Argc(s), i requires 0 <= i < Argc(s) => StringAt(s, rsp, Qword(s, 1 + i)))
  }

  /** The strings of the vector at quadword `k`, up to its null pointer. */
  function Vector(s: seq<Byte>, rsp: nat, k: nat): seq<CString>
    decreases |s| - 8 * k
  {
    if Qword(s, k) == 0 then [] else [StringAt(s, rsp, Qword(s, k))] + Vector(s, rsp, k + 1)
  }

  function Envp(s: seq<Byte>, rsp: nat): seq<CString> { Vector(s, rsp, 2 + Argc(s)) }

  // ---------- What is pushed ----------

  /** Strings one after another, each with its NUL. */
  function Block(ss: seq<CString>): seq<Byte> {
    if ss == [] then [] else ss[0] + [0] + Block(ss[1..])
  }

  /** The addresses of the strings of a block that ends at `end`. */
  function Addresses(ss: seq<CString>, end: nat): (r: seq<Word>)
    requires |Block(ss)| <= end < TWO_64
    ensures |r| == |ss|
  {
    if ss == [] then [] else [end - |Block(ss)|] + Addresses(ss[1..], end)
  }

  /** Quadwords as bytes, the first at the lowest address. */
  function Qwords(vs: seq<Word>): (s: seq<Byte>)
    ensures |s| == 8 * |vs|
  {
    if vs == [] then [] else Bytes(vs[0], 8) + Qwords(vs[1..])
  }

  lemma {:induction false} QwordAt(vs: seq<Word>, tail: seq<Byte>, k: nat)
    requires k < |vs|
    ensures Qword(Qwords(vs) + tail, k) == vs[k]
    decreases k
  {
    var s := Qwords(vs) + tail;
    var rest := Qwords(vs[1..]) + tail;
    assert s == Bytes(vs[0], 8) + rest;
    if k == 0 {
      assert s[..8] == Bytes(vs[0], 8);
      Pow2Values();
      LittleBytes(vs[0], 8);
    } else {
      QwordAt(vs[1..], tail, k - 1);
      assert s[8 * k..8 * k + 8] == rest[8 * (k - 1)..8 * (k - 1) + 8];
    }
  }

  lemma {:induction false} UpToNulOf(s: CString, tail: seq<Byte>)
    ensures UpToNul(s + [0] + tail) == s
    decreases |s|
  {
    if s == [] {
      assert (s + [0] + tail)[0] == 0;
    } else {
      assert (s + [0] + tail)[1..] == s[1..] + [0] + tail;
      UpToNulOf(s[1..], tail);
    }
  }

  /** Every string of a block is found at its address, whatever is below and above the block. */
  lemma {:induction false} BlockStrings(ss: seq<CString>, below: seq<Byte>, above: seq<Byte>, rsp: nat, i: nat)
    requires i < |ss|
    requires rsp + |below| + |Block(ss)| < TWO_64
    ensures var end := rsp + |below| + |Block(ss)|;
      (rsp <= Addresses(ss, end)[i] <= end
        && StringAt(below + (Block(ss) + above), rsp, Addresses(ss, end)[i]) == ss[i])
    decreases i
  {
    var end := rsp + |below| + |Block(ss)|;
    var s := below + (Block(ss) + above);
    if i == 0 {
      assert s[|below|..] == ss[0] + [0] + (Block(ss[1..]) + above);
      UpToNulOf(ss[0], Block(ss[1..]) + above);
    } else {
      var below' := below + (ss[0] + [0]);
      assert s == below' + (Block(ss[1..]) + above);
      BlockStrings(ss[1..], below', above, rsp, i - 1);
    }
  }

  /** The quadwords that `initUserStack` pushes, the last pushed first. */
  function Vectors(argv: seq<Word>, envp: seq<Word>): seq<Word>
    requires |argv| < TWO_64
  {
    [|argv|] + (argv + ([0] + (envp + ([0, 0, 0] + (if (|envp| + |argv| + 5) % 2 != 0 then [0] else [])))))
  }

  ghost predicate InRange(argv: seq<CString>, envp: seq<CString>, top: nat) {
    |Block(argv)| + |Block(envp)| <= top < TWO_64 && |argv| < TWO_64
  }

  ghost function Pointers(top: nat, argv: seq<CString>, envp: seq<CString>): (vs: seq<Word>)
    requires InRange(argv, envp, top)
  {
    Vectors(Addresses(argv, top - |Block(envp)|), Addresses(envp, top))
  }

  /** The whole stack: pointers, padding, the strings of the arguments and of the environment. */
  ghost function Stack(pad: seq<Byte>, top: nat, argv: seq<CString>, envp: seq<CString>): seq<Byte>
    requires InRange(argv, envp, top)
  {
    Qwords(Pointers(top, argv, envp)) + (pad + (Block(argv) + Block(envp)))
  }

  /** The startup code finds the argument count, the arguments, the environment and the null
      pointers that end them. */
  lemma {:induction false} StartupReads(pad: seq<Byte>, rsp: nat, top: nat, argv: seq<CString>, envp: seq<CString>)
    requires InRange(argv, envp, top) && rsp > 0 && rsp + |Stack(pad, top, argv, envp)| == top
    ensures var s := Stack(pad, top, argv, envp);
      (Argc(s) == |argv| && Argv(s, rsp) == argv && Envp(s, rsp) == envp
       && Qword(s, 1 + |argv|) == 0 && Qword(s, 2 + |argv| + |envp|) == 0)
  {
    var s := Stack(pad, top, argv, envp);
    var args, envs := PointersRead(pad, top, argv, envp);
    hide Qword, StringAt, Stack, Pointers, Addresses, Block;
    forall i: nat | i < |argv| ensures StringAt(s, rsp, Qword(s, 1 + i)) == argv[i] {
      ArgString(pad, rsp, top, argv, envp, i);
      assert args[i] == Qword(s, 1 + i);
    }
    assert Argv(s, rsp) == argv;
    EnvironmentReads(pad, rsp, top, argv, envp);
  }

  lemma {:induction false} StackSize(pad: seq<Byte>, top: nat, argv: seq<CString>, envp: seq<CString>)
    requires InRange(argv, envp, top)
    ensures 8 * (|argv| + |envp| + 3) <= |Stack(pad, top, argv, envp)|
  {
    hide Qwords, Addresses, Block;
  }

  lemma {:induction false} EnvironmentReads(pad: seq<Byte>, rsp: nat, top: nat, argv: seq<CString>, envp: seq<CString>)
    requires InRange(argv, envp, top) && rsp > 0 && rsp + |Stack(pad, top, argv, envp)| == top
    ensures Envp(Stack(pad, top, argv, envp), rsp) == envp
  {
    hide Qword, StringAt, Stack, Pointers, Addresses, Block, Vector, Argc;
    var s := Stack(pad, top, argv, envp);
    var args, envs := PointersRead(pad, top, argv, envp);
    forall i: nat | i < |envp| ensures Points(s, rsp, 2 + |argv| + i, envp[i]) {
      EnvString(pad, rsp, top, argv, envp, i);
      assert envs[i] == Qword(s, 2 + |argv| + i);
    }
    hide Points;
    VectorIs(s, rsp, 2 + |argv|, envp, 0);
    assert Envp(s, rsp) == Vector(s, rsp, 2 + |argv|);
  }

  /** The quadword is the address of the string. */
  ghost predicate Points(s: seq<Byte>, rsp: nat, k: nat, text: CString) {
    Qword(s, k) != 0 && StringAt(s, rsp, Qword(s, k)) == text
  }

  /** The quadwords of the stack are the ones pushed. */
  lemma {:induction false} PointersRead(pad: seq<Byte>, top: nat, argv: seq<CString>, envp: seq<CString>)
    returns (args: seq<Word>, envs: seq<Word>)
    requires InRange(argv, envp, top)
    ensures args == Addresses(argv, top - |Block(envp)|) && envs == Addresses(envp, top)
    ensures var s := Stack(pad, top, argv, envp);
      (Argc(s) == |argv| && Qword(s, 1 + |argv|) == 0 && Qword(s, 2 + |argv| + |envp|) == 0
       && (forall i: nat {:trigger args[i]} :: i < |argv| ==> args[i] == Qword(s, 1 + i))
       && (forall i: nat {:trigger envs[i]} :: i < |envp| ==> envs[i] == Qword(s, 2 + |argv| + i)))
  {
    args, envs := Addresses(argv, top - |Block(envp)|), Addresses(envp, top);
    hide Qword, Qwords, Block, Addresses;
    var vs := Vectors(args, envs);
    var tail := pad + (Block(argv) + Block(envp));
    forall k: nat | k < |vs| ensures vs[k] == Qword(Qwords(vs) + tail, k) {
      QwordAt(vs, tail, k);
    }
  }

  lemma {:induction false} ArgString(pad: seq<Byte>, rsp: nat, top: nat, argv: seq<CString>, envp: seq<CString>, i: nat)
    requires InRange(argv, envp, top) && rsp + |Stack(pad, top, argv, envp)| == top && i < |argv|
    ensures StringAt(Stack(pad, top, argv, envp), rsp, Addresses(argv, top - |Block(envp)|)[i]) == argv[i]
  {
    hide Qwords, Pointers, Addresses, StringAt, Block;
    var q := Qwords(Pointers(top, argv, envp));
    Regroup(q, pad, Block(argv), Block(envp));
    BlockStrings(argv, q + pad, Block(envp), rsp, i);
  }

  lemma {:induction false} EnvString(pad: seq<Byte>, rsp: nat, top: nat, argv: seq<CString>, envp: seq<CString>, i: nat)
    requires InRange(argv, envp, top) && rsp + |Stack(pad, top, argv, envp)| == top && i < |envp|
    ensures Addresses(envp, top)[i] >= rsp
    ensures StringAt(Stack(pad, top, argv, envp), rsp, Addresses(envp, top)[i]) == envp[i]
  {
    hide Qwords, Pointers, Addresses, StringAt, Block;
    var q := Qwords(Pointers(top, argv, envp));
    Regroup(q, pad, Block(argv), Block(envp));
    BlockStrings(envp, q + pad + Block(argv), [], rsp, i);
  }

  lemma {:induction false} Regroup(a: seq<Byte>, b: seq<Byte>, c: seq<Byte>, d: seq<Byte>)
    ensures a + (b + (c + d)) == (a + b) + (c + d) && a + (b + (c + d)) == (a + b + c) + (d + [])
  {}

  lemma {:induction false} VectorIs(s: seq<Byte>, rsp: nat, k: nat, ss: seq<CString>, i: nat)
    requires i <= |ss| && Qword(s, k + |ss|) == 0
    requires forall j: nat {:trigger ss[j]} :: i <= j < |ss| ==> Points(s, rsp, k + j, ss[j])
    ensures Vector(s, rsp, k + i) == ss[i..]
    decreases |ss| - i
  {
    hide Qword, StringAt;
    if i < |ss| {
      VectorIs(s, rsp, k, ss, i + 1);
      assert k + i + 1 == k + (i + 1) && ss[i..] == [ss[i]] + ss[i + 1..];
    }
  }

  // ---------- Writing it ----------

  /** Only pages of the window were added, each in a frame of its own that was free, for data. */
  ghost predicate NewlyMapped(was: map<nat, Mapping>, used: set<nat>, pages: map<nat, Mapping>, used': set<nat>,
                              bottom: nat, end: nat) {
    && used <= used' && (forall p :: p in was ==> p in pages && pages[p] == was[p])
    && (forall p :: p in pages && p !in was ==>
          bottom <= PAGE_SIZE * p < end && pages[p].frame !in used && pages[p].flags == READ_WRITE_USER + NO_EXEC)
  }

  /** A window of whole pages in the lower half. */
  predicate Window(bottom: nat, top: nat) {
    0 < bottom <= top <= TWO_47 && bottom % PAGE_SIZE == 0 && top % PAGE_SIZE == 0
  }

  lemma {:induction false} DataFlags()
    ensures FlagsOf(READ_WRITE_USER + NO_EXEC) == READ_WRITE_USER + NO_EXEC && Present(READ_WRITE_USER + NO_EXEC)
  {}

  lemma {:induction false} NoneMapped(pages: map<nat, Mapping>, used: set<nat>, bottom: nat)
    ensures NewlyMapped(pages, used, pages, used, bottom, bottom)
  {}

  /** One page of the window more. */
  lemma {:induction false} MappedNext(was: map<nat, Mapping>, used: set<nat>, pages: map<nat, Mapping>, used': set<nat>,
    pages': map<nat, Mapping>, used'': set<nat>, bottom: nat, vaddr: nat, frame: nat)
    requires bottom <= vaddr && bottom % PAGE_SIZE == 0 && vaddr % PAGE_SIZE == 0
    requires NewlyMapped(was, used, pages, used', bottom, vaddr) && used' <= used'' && frame !in used'
    requires pages' == if vaddr / PAGE_SIZE in pages then pages
                       else pages[vaddr / PAGE_SIZE := Mapping(frame, READ_WRITE_USER + NO_EXEC)]
    requires forall v: nat :: bottom <= v < vaddr ==> Has(pages, v)
    ensures NewlyMapped(was, used, pages', used'', bottom, vaddr + PAGE_SIZE)
    ensures forall v: nat :: bottom <= v < vaddr + PAGE_SIZE ==> Has(pages', v)
  {
    forall v: nat | bottom <= v < vaddr + PAGE_SIZE ensures Has(pages', v) {
      if v < vaddr { assert Has(pages, v); } else { assert v / PAGE_SIZE == vaddr / PAGE_SIZE; }
    }
  }

  ghost predicate EndsWith(s: seq<Byte>, tail: seq<Byte>) { |tail| <= |s| && s[|s| - |tail|..] == tail }

  /** The frames that are of no page of the window. */
  ghost function OtherFrames(pages: map<nat, Mapping>, data: set<nat>, bottom: nat, top: nat): set<nat> {
    set f | f in data && forall p :: p in pages && pages[p].frame == f ==> !(bottom <= PAGE_SIZE * p < top)
  }

  ghost function ByteThere(pages: map<nat, Mapping>, bytes: seq<Byte>, v: nat): Option<Byte> {
    if Has(pages, v) && Place(pages, v) < |bytes| then Some(bytes[Place(pages, v)]) else None
  }

  /** The window is mapped, the pointer is in it, and the contents are in memory from there up. */
  ghost predicate OnStack(pages: map<nat, Mapping>, bytes: seq<Byte>, bottom: nat, top: nat, pointer: nat,
                          contents: seq<Byte>) {
    && Window(bottom, top) && bottom <= pointer <= top && |contents| == top - pointer
    && (forall v: nat :: bottom <= v < top ==> Has(pages, v))
    && (forall v: nat :: pointer <= v < top ==> ByteThere(pages, bytes, v) == Some(contents[v - pointer]))
  }

  lemma {:induction false} NothingOnStack(pages: map<nat, Mapping>, bytes: seq<Byte>, bottom: nat, top: nat)
    requires Window(bottom, top) && forall v: nat :: bottom <= v < top ==> Has(pages, v)
    ensures OnStack(pages, bytes, bottom, top, top, [])
  {}

  /** Below the pointer the memory holds something. */
  lemma {:induction false} Grown(pages: map<nat, Mapping>, bytes: seq<Byte>, data: set<nat>, bottom: nat, top: nat,
                                 pointer: nat, contents: seq<Byte>, n: nat) returns (below: seq<Byte>)
    requires ProperMap(pages, bytes, data) && OnStack(pages, bytes, bottom, top, pointer, contents)
    requires n <= pointer - bottom
    ensures |below| == n && OnStack(pages, bytes, bottom, top, pointer - n, below + contents)
  {
    var from := pointer - n;
    forall v: nat | from <= v < top ensures Has(pages, v) && Place(pages, v) < |bytes| {
      assert Has(pages, v);
      assert pages[v / PAGE_SIZE].frame in data;
    }
    below := seq<Byte>(n, i requires 0 <= i < n => bytes[Place(pages, from + i)]);
    forall v: nat | from <= v < top
      ensures ByteThere(pages, bytes, v) == Some((below + contents)[v - from])
    {
      if v < pointer { assert from + (v - from) == v; }
    }
  }

  /** Some bytes at the bottom of the stack are written; `a` is their physical address. */
  lemma {:induction false} Written(pages: map<nat, Mapping>, bytes: seq<Byte>, bytes': seq<Byte>, data: set<nat>,
    bottom: nat, top: nat, pointer: nat, contents: seq<Byte>, at: nat, a: nat, text: seq<Byte>)
    requires ProperMap(pages, bytes, data) && OnStack(pages, bytes, bottom, top, pointer, contents)
    requires pointer <= at && at + |text| <= top && OnePlace(pages, at, a, |text|) && |bytes'| == |bytes|
    requires forall i :: 0 <= i < |bytes| ==> bytes'[i] == if a <= i < a + |text| then text[i - a] else bytes[i]
    ensures OnStack(pages, bytes', bottom, top, pointer,
                    contents[..at - pointer] + text + contents[at - pointer + |text|..])
    ensures Untouched(bytes, bytes', OtherFrames(pages, data, bottom, top))
  {
    var now := contents[..at - pointer] + text + contents[at - pointer + |text|..];
    forall v: nat | pointer <= v < top ensures ByteThere(pages, bytes', v) == Some(now[v - pointer]) {
      assert ByteThere(pages, bytes, v) == Some(contents[v - pointer]);
      if at <= v < at + |text| {
        assert Place(pages, v) == a + (v - at);
      } else {
        NotThere(pages, bytes, data, at, a, |text|, v);
      }
    }
    forall i | a <= i < a + |text| ensures i / PAGE_SIZE !in OtherFrames(pages, data, bottom, top) {
      assert Place(pages, at + (i - a)) == i;
      InWindow(bottom, top, at + (i - a));
    }
  }

  lemma {:induction false} InWindow(bottom: nat, top: nat, v: nat)
    requires bottom <= v < top && bottom % PAGE_SIZE == 0
    ensures bottom <= PAGE_SIZE * (v / PAGE_SIZE) < top
  {}

  /** The addresses are in one piece of physical memory. */
  ghost predicate OnePlace(pages: map<nat, Mapping>, at: nat, a: nat, n: nat) {
    forall v: nat :: at <= v < at + n ==> Has(pages, v) && Place(pages, v) == a + (v - at)
  }

  lemma {:induction false} NotThere(pages: map<nat, Mapping>, bytes: seq<Byte>, data: set<nat>,
    at: nat, a: nat, n: nat, v: nat)
    requires ProperMap(pages, bytes, data) && OnePlace(pages, at, a, n) && Has(pages, v)
    requires !(at <= v < at + n)
    ensures !(a <= Place(pages, v) < a + n)
  {
    if a <= Place(pages, v) < a + n { NoAlias(pages, bytes, data, v, at + (Place(pages, v) - a)); }
  }

  class Stacker {
    const space: UserSpace
    var bottom: nat
    var top: nat
    var pointer: nat
    /** What is on the stack. */
    ghost var contents: seq<Byte>
    /** The memory when the stack was empty. */
    ghost var before: seq<Byte>
    /** The panic of the constructor. */
    var outOfMemory: bool

    /** The pages of the stack are mapped, the pointer is in them, and reading from the pointer up
        gives the contents. Frames of other pages are as they were. */
    ghost predicate Valid()
      reads this, space, space.spaces, space.spaces.memory.words
      reads space.spaces.pmm.allocator, space.spaces.pmm.allocator.bitmap.data
    {
      && space.Valid() && Window(bottom, top) && bottom <= pointer <= top && |contents| == top - pointer
      && OnStack(space.pages, space.bytes, bottom, top, pointer, contents)
      && Untouched(before, space.bytes, OtherFrames(space.pages, space.data, bottom, top))
    }

    /** The new stack is empty and its window is mapped, unless memory ran out. */
    constructor (space: UserSpace, bottom: nat, top: nat)
      requires space.Valid() && Window(bottom, top)
      modifies space, space.spaces, space.spaces.memory.words
      modifies space.spaces.pmm.allocator, space.spaces.pmm.allocator.bitmap.data
      ensures this.space == space && this.bottom == bottom && this.top == top && pointer == top && before == space.bytes
      ensures outOfMemory ==> space.Full()
      ensures !outOfMemory ==>
        && Valid() && NewlyMapped(old(space.pages), old(space.used), space.pages, space.used, bottom, top)
        && old(space.data) <= space.data && Untouched(old(space.bytes), space.bytes, old(space.data))
    {
      hide space.Backed, Untouched, NewlyMapped, OnStack, OtherFrames;
      this.space, this.bottom, this.top, pointer, contents := space, bottom, top, top, [];
      new;
      outOfMemory := MapWindow();
      before := space.bytes;
      UntouchedSame(before, OtherFrames(space.pages, space.data, bottom, top));
      if !outOfMemory { NothingOnStack(space.pages, space.bytes, bottom, top); }
    }

    /** `reset`: the stack starts anew in another window. */
    method Reset(bottom: nat, top: nat) returns (outOfMemory: bool)
      requires space.Valid() && Window(bottom, top)
      modifies this, space, space.spaces, space.spaces.memory.words
      modifies space.spaces.pmm.allocator, space.spaces.pmm.allocator.bitmap.data
      ensures this.bottom == bottom && this.top == top && pointer == top && before == space.bytes
      ensures outOfMemory ==> space.Full()
      ensures !outOfMemory ==>
        && Valid() && NewlyMapped(old(space.pages), old(space.used), space.pages, space.used, bottom, top)
        && old(space.data) <= space.data && Untouched(old(space.bytes), space.bytes, old(space.data))
    {
      hide space.Backed, Untouched, NewlyMapped, OnStack, OtherFrames;
      this.bottom, this.top, pointer, contents := bottom, top, top, [];
      outOfMemory := MapWindow();
      before := space.bytes;
      UntouchedSame(before, OtherFrames(space.pages, space.data, bottom, top));
      if !outOfMemory { NothingOnStack(space.pages, space.bytes, bottom, top); }
    }

    /** The loop of both: every page of the window that is not mapped gets a fresh frame, as data. */
    method MapWindow() returns (outOfMemory: bool)
      requires space.Valid() && Window(bottom, top)
      modifies space, space.spaces, space.spaces.memory.words
      modifies space.spaces.pmm.allocator, space.spaces.pmm.allocator.bitmap.data
      ensures outOfMemory ==> space.Full()
      ensures !outOfMemory ==>
        && space.Valid() && NewlyMapped(old(space.pages), old(space.used), space.pages, space.used, bottom, top)
        && old(space.data) <= space.data && Untouched(old(space.bytes), space.bytes, old(space.data))
        && (forall v: nat :: bottom <= v < top ==> Has(space.pages, v))
    {
      hide space.Backed, Untouched, Present, FlagsOf, NewlyMapped, Has;
      NoneMapped(space.pages, space.used, bottom);
      UntouchedSame(space.bytes, space.data);
      var vaddr := bottom;
      while vaddr < top
        modifies space, space.spaces, space.spaces.memory.words
        modifies space.spaces.pmm.allocator, space.spaces.pmm.allocator.bitmap.data
        invariant bottom <= vaddr <= top && vaddr % PAGE_SIZE == 0 && space.Valid()
        invariant NewlyMapped(old(space.pages), old(space.used), space.pages, space.used, bottom, vaddr)
        invariant old(space.data) <= space.data && Untouched(old(space.bytes), space.bytes, old(space.data))
        invariant forall v: nat :: bottom <= v < vaddr ==> Has(space.pages, v)
      {
        ghost var was, pages, used := space.bytes, space.pages, space.used;
        ghost var data := space.data;
        DataFlags();
        var frame := space.MapFresh(vaddr, READ_WRITE_USER + NO_EXEC);
        if frame.None? { return true; }
        UntouchedMore(old(space.bytes), was, space.bytes, old(space.data), data);
        MappedNext(old(space.pages), old(space.used), pages, used, space.pages, space.used, bottom, vaddr, frame.value);
        vaddr := vaddr + PAGE_SIZE;
      }
      return false;
    }

    /** `grow` moves the pointer; the new bytes are whatever the memory holds. */
    method Grow(n: nat)
      requires Valid() && n <= pointer - bottom
      modifies `pointer, `contents
      ensures Valid() && pointer == old(pointer) - n && EndsWith(contents, old(contents))
    {
      hide space.Backed, OnStack, Untouched, OtherFrames;
      for i := 0 to n
        modifies `pointer
        invariant pointer == old(pointer) - i
      {
        pointer := pointer - 1;
      }
      ghost var below := Grown(space.pages, space.bytes, space.data, bottom, top, old(pointer), contents, n);
      contents := below + contents;
    }

    /** `align(16)` */
    method Align()
      requires Valid() && pointer % 16 <= pointer - bottom
      modifies `pointer, `contents
      ensures Valid() && pointer % 16 == 0 && pointer == old(pointer) - old(pointer) % 16
      ensures EndsWith(contents, old(contents))
    {
      hide space.Backed, OnStack, Untouched, OtherFrames;
      ghost var gap := pointer % 16;
      RoundDown(pointer);
      pointer := pointer - pointer % 16;
      ghost var below := Grown(space.pages, space.bytes, space.data, bottom, top, old(pointer), contents, gap);
      contents := below + contents;
    }

    /** A character of a string, through its own translation. */
    method StoreByte(at: nat, value: Byte)
      requires Valid() && pointer <= at < top
      modifies `contents, space`bytes, space.spaces.memory.words
      ensures Valid() && contents == old(contents)[at - pointer := value]
    {
      hide space.Backed, ByteThere, Untouched, OtherFrames;
      assert Has(space.pages, at);
      var kaddr := space.VirtToPhys(at);
      ghost var was := space.bytes;
      space.StoreByte(kaddr, value);
      Written(space.pages, was, space.bytes, space.data, bottom, top, pointer, contents, at, kaddr, [value]);
      ghost var others := OtherFrames(space.pages, space.data, bottom, top);
      UntouchedMore(before, was, space.bytes, others, others);
      contents := contents[..at - pointer] + [value] + contents[at - pointer + 1..];
    }

    /** Eight bytes of physical memory from the translation of the pointer: a quadword does not
        cross into another page. */
    method PushQword(value: Word)
      requires Valid() && 8 <= pointer - bottom && pointer % 8 == 0
      modifies `pointer, `contents, space`bytes, space.spaces.memory.words
      ensures Valid() && pointer % 8 == 0 && pointer == old(pointer) - 8 && contents == Bytes(value, 8) + old(contents)
    {
      hide space.Backed, ByteThere, Untouched, OtherFrames, Bytes;
      Grow(8);
      assert Has(space.pages, pointer);
      var kaddr := space.VirtToPhys(pointer);
      ghost var was := space.bytes;
      QwordPlace(space.pages, pointer, kaddr);
      forall a: nat | kaddr <= a < kaddr + 8 ensures space.InData(a) {
        assert Place(space.pages, pointer + (a - kaddr)) == a;
      }
      space.Memcpy(kaddr, Bytes(value, 8), 0, 8);
      Written(space.pages, was, space.bytes, space.data, bottom, top, pointer, contents, pointer, kaddr,
              Bytes(value, 8));
      ghost var others := OtherFrames(space.pages, space.data, bottom, top);
      UntouchedMore(before, was, space.bytes, others, others);
      contents := contents[..0] + Bytes(value, 8) + contents[8..];
    }

    /** One string with its terminator. */
    method PushString(s: CString)
      requires Valid() && |s| + 1 <= pointer - bottom
      modifies `pointer, `contents, space`bytes, space.spaces.memory.words
      ensures Valid() && pointer == old(pointer) - (|s| + 1) && contents == s + [0] + old(contents)
    {
      hide space.Backed, OnStack, Untouched, OtherFrames;
      var len := |s| + 1;
      Grow(len);
      for j := 0 to len
        modifies `contents, space`bytes, space.spaces.memory.words
        invariant Valid() && contents[..j] == (s + [0])[..j] && contents[len..] == old(contents)
      {
        StoreByte(pointer + j, (s + [0])[j]);
      }
      assert contents == contents[..len] + contents[len..];
    }

    /** `pushStringArray`: the strings from the last to the first, and where each one is. A null
        array comes with the count zero. */
    method PushStringArray(ss: seq<CString>) returns (addrs: seq<Word>)
      requires Valid() && |Block(ss)| <= pointer - bottom
      modifies `pointer, `contents, space`bytes, space.spaces.memory.words
      ensures Valid() && pointer == old(pointer) - |Block(ss)| && contents == Block(ss) + old(contents)
      ensures addrs == Addresses(ss, old(pointer))
    {
      hide space.Backed, OnStack, Untouched, OtherFrames;
      addrs := [];
      ghost var above, from := contents, pointer;
      assert [] + above == above;
      for i := |ss| downto 0
        modifies `pointer, `contents, space`bytes, space.spaces.memory.words
        invariant Valid() && pointer == from - |Block(ss[i..])|
        invariant contents == Block(ss[i..]) + above && addrs == Addresses(ss[i..], from)
      {
        BlockStep(ss, i);
        PushString(ss[i]);
        assert Block(ss[i..]) + above == ss[i] + [0] + (Block(ss[i + 1..]) + above);
        addrs := [pointer] + addrs;
      }
      assert ss[0..] == ss;
    }

    /** `push_qword` on a stack that has some quadwords on top of what was there. */
    method PushValue(value: Word, ghost pushed: seq<Word>, ghost above: seq<Byte>)
      requires Valid() && 8 <= pointer - bottom && pointer % 8 == 0 && contents == Qwords(pushed) + above
      modifies `pointer, `contents, space`bytes, space.spaces.memory.words
      ensures Valid() && pointer % 8 == 0 && pointer == old(pointer) - 8 && contents == Qwords([value] + pushed) + above
    {
      hide space.Backed, OnStack, Untouched, OtherFrames;
      PushQword(value);
      assert ([value] + pushed)[1..] == pushed;
      assert Bytes(value, 8) + (Qwords(pushed) + above) == Bytes(value, 8) + Qwords(pushed) + above;
    }

    /** The pointers of a vector, from the last to the first. */
    method PushPointers(vs: seq<Word>, ghost pushed: seq<Word>, ghost above: seq<Byte>)
      requires Valid() && 8 * |vs| <= pointer - bottom && pointer % 8 == 0 && contents == Qwords(pushed) + above
      modifies `pointer, `contents, space`bytes, space.spaces.memory.words
      ensures Valid() && pointer % 8 == 0 && pointer == old(pointer) - 8 * |vs|
        && contents == Qwords(vs + pushed) + above
    {
      hide Qwords, Untouched, OtherFrames, space.Backed, OnStack;
      ghost var from := pointer;
      assert vs[|vs|..] + pushed == pushed;
      for i := |vs| downto 0
        modifies `pointer, `contents, space`bytes, space.spaces.memory.words
        invariant Valid() && pointer % 8 == 0 && pointer == from - 8 * (|vs| - i)
          && contents == Qwords(vs[i..] + pushed) + above
      {
        PushValue(vs[i], vs[i + 1..] + pushed, above);
        assert [vs[i]] + (vs[i + 1..] + pushed) == vs[i..] + pushed;
      }
      assert vs[0..] == vs;
    }

    /** What is on the stack is what the processor reads through the page tables. */
    lemma {:induction false} ReadsStack(v: Word)
      requires Valid() && pointer <= v < top
      ensures ByteRead(space.Now(), space.root, v) == Some(contents[v - pointer])
    {
      hide space.Backed, ByteRead;
      assert Has(space.pages, v) && ByteThere(space.pages, space.bytes, v) == Some(contents[v - pointer]);
      space.ReadsSpace(v);
    }

    /** The startup code reads back the arguments and the environment, and the stack pointer is
        aligned as it must be at the entry of a program. */
    method InitUserStack(argv: seq<CString>, envp: seq<CString>) returns (rsp: nat)
      requires Valid() && pointer == top && Needed(argv, envp) <= top - bottom
      modifies `pointer, `contents, space`bytes, space.spaces.memory.words
      ensures Valid() && rsp == pointer && rsp % 16 == 0
      ensures Argc(contents) == |argv| && Argv(contents, rsp) == argv && Envp(contents, rsp) == envp
      ensures Qword(contents, 1 + |argv|) == 0 && Qword(contents, 2 + |argv| + |envp|) == 0
      ensures 8 * (|argv| + |envp| + 3) <= |contents|
    {
      hide space.Backed, OnStack, Untouched, OtherFrames, Argc, Argv, Envp, Qword;
      var envAddrs := PushStringArray(envp);
      var argAddrs := PushStringArray(argv);
      ghost var strings, unaligned := contents, pointer;
      assert strings == Block(argv) + Block(envp);
      Align();
      ghost var pad := contents[..unaligned - pointer];
      assert contents == pad + strings;
      PushVectors(argAddrs, envAddrs);
      rsp := pointer;
      StartupReads(pad, rsp, top, argv, envp);
      StackSize(pad, top, argv, envp);
    }

    /** The quadwords, with one more if their number is odd. */
    method PushVectors(argAddrs: seq<Word>, envAddrs: seq<Word>)
      requires Valid() && pointer % 16 == 0 && |argAddrs| < TWO_64
        && 8 * (|argAddrs| + |envAddrs| + 6) <= pointer - bottom
      modifies `pointer, `contents, space`bytes, space.spaces.memory.words
      ensures Valid() && pointer % 16 == 0 && contents == Qwords(Vectors(argAddrs, envAddrs)) + old(contents)
    {
      hide Qwords, Untouched, OtherFrames, space.Backed, OnStack;
      ghost var above, start := contents, pointer;
      assert pointer % 8 == 0;
      ghost var zeros := PushZeros((|envAddrs| + |argAddrs| + 5) % 2 != 0);
      PushPointers(envAddrs, zeros, above);
      PushValue(0, envAddrs + zeros, above);
      ghost var pushed := [0] + (envAddrs + zeros);
      PushPointers(argAddrs, pushed, above);
      PushValue(|argAddrs|, argAddrs + pushed, above);
      Parity(start, |envAddrs| + |argAddrs| + 2 + |zeros|, pointer);
    }

    /** The padding, the two words of an empty auxiliary vector and the null pointer that ends the
        environment. */
    method PushZeros(pad: bool) returns (ghost zeros: seq<Word>)
      requires Valid() && pointer % 8 == 0 && 32 <= pointer - bottom
      modifies `pointer, `contents, space`bytes, space.spaces.memory.words
      ensures zeros == [0, 0, 0] + (if pad then [0] else [])
      ensures Valid() && pointer % 8 == 0 && pointer == old(pointer) - 8 * |zeros|
        && contents == Qwords(zeros) + old(contents)
    {
      hide Qwords, Untouched, OtherFrames, space.Backed, OnStack;
      ghost var above, start := contents, pointer;
      zeros := [];
      PushedNone(above);
      if pad {
        PushValue(0, zeros, above);
        zeros := [0] + zeros;
      }
      ghost var odd := zeros;
      for i := 0 to 2
        modifies `pointer, `contents, space`bytes, space.spaces.memory.words
        invariant Valid() && pointer % 8 == 0 && pointer == start - 8 * (|odd| + i) && contents == Qwords(zeros) + above
        invariant zeros == seq<Word>(i, _ => 0) + odd
      {
        PushValue(0, zeros, above);
        zeros := [0] + zeros;
      }
      PushValue(0, zeros, above);
      zeros := [0] + zeros;
    }
  }

  lemma {:induction false} QwordPlace(pages: map<nat, Mapping>, at: nat, a: nat)
    requires at % 8 == 0 && Has(pages, at) && a == Place(pages, at)
    ensures OnePlace(pages, at, a, 8)
  {
    forall v: nat | at <= v < at + 8 ensures Has(pages, v) && Place(pages, v) == a + (v - at) {
      InOnePage(at, v);
    }
  }

  lemma {:induction false} RoundDown(p: nat)
    ensures (p - p % 16) % 16 == 0 && p % 16 < 16
  {}

  lemma {:induction false} Parity(p: nat, k: nat, r: int)
    requires p % 16 == 0 && k % 2 == 0 && r == p - 8 * k
    ensures r % 16 == 0
  {}

  /** An aligned quadword does not reach into the next page. */
  lemma {:induction false} InOnePage(at: nat, v: nat)
    requires at % 8 == 0 && at <= v < at + 8
    ensures v / PAGE_SIZE == at / PAGE_SIZE && v % PAGE_SIZE == at % PAGE_SIZE + (v - at)
  {
    var q, r := at / PAGE_SIZE, at % PAGE_SIZE;
    assert at == PAGE_SIZE * q + r && r % 8 == 0 && r <= PAGE_SIZE - 8;
    assert v == PAGE_SIZE * q + (r + (v - at));
  }

  lemma {:induction false} PushedNone(above: seq<Byte>)
    ensures Qwords([]) + above == above
  {}

  lemma {:induction false} BlockStep(ss: seq<CString>, i: nat)
    requires i < |ss|
    ensures Block(ss[i..]) == ss[i] + [0] + Block(ss[i + 1..]) && |Block(ss[i..])| <= |Block(ss)|
    decreases i
  {
    assert ss[i..][1..] == ss[i + 1..];
    if i > 0 {
      assert ss[1..][i - 1..] == ss[i..];
      BlockStep(ss[1..], i - 1);
    }
  }

  /** What has to fit between the bottom and the top of the stack. */
  function Needed(argv: seq<CString>, envp: seq<CString>): nat {
    |Block(argv)| + |Block(envp)| + 15 + 8 * (|argv| + |envp| + 6)
  }
}
