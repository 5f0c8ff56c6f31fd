/** Starting a program: a new address space, the segments of the file and the stack in it, as the
    program will read them, and what becomes of them in the end. */
module Spawn {
  import opened Wrappers
  import opened Words
  import opened ByteMemory
  import opened Forest
  import opened ForestSteps
  import opened ForestCopy
  import opened ForestDestroy
  import opened AddressSpaceRuns
  import opened PageTables
  import opened ProcessLaws
  import opened UserPaging
  import opened UserMemory
  import opened ElfFile
  import opened Elf
  import opened UserStack

  const USER_STACK_TOP: Word := 0x7fff_ffff_e000
  const USER_STACK_BOTTOM: Word := USER_STACK_TOP - 64 * PAGE_SIZE

  predicate InStack(v: nat) { USER_STACK_BOTTOM <= v < USER_STACK_TOP }

  /** `StraysOut` is where the loader leaves the lower half and the model stops. */
  datatype Result = NotLoaded | NoMemory | StraysOut | Started(root: nat, entry: Word, highest: Word, rsp: Word)

  /** Outside its stack the program reads, in every page of a segment, the bytes of the first segment
      that has the page, with its access. */
  ghost predicate ReadsFile(s: State, root: nat, file: seq<Byte>)
    requires Loadable(file)
  {
    forall i: nat, v: Word :: i < Phnum(file) && FirstTouches(file, i, v / PAGE_SIZE) && !InStack(v) ==>
      ReadsSegmentAt(s, root, file, i, v)
  }

  ghost predicate ReadsSegmentAt(s: State, root: nat, file: seq<Byte>, i: nat, v: Word)
    requires Loadable(file) && i < Phnum(file)
  {
    && ByteRead(s, root, v) == Some(SegmentByte(file, Header(file, i), v))
    && AccessAs(s, root, v, TestBit(Header(file, i).flags, 0))
  }

  /** By the walk of the processor the program may reach the address; it executes there what is code and
      writes there what is not. */
  ghost predicate AccessAs(s: State, root: nat, v: Word, code: bool) {
    && Allowed(s.mem, root, PathOf(v), 2)
    && (Allowed(s.mem, root, PathOf(v), 1) <==> !code)
    && (Executable(s.mem, root, PathOf(v)) <==> code)
  }

  /** The startup code reads its arguments and its environment. */
  ghost predicate ReadsArguments(s: State, root: nat, rsp: Word, argv: seq<CString>, envp: seq<CString>) {
    && rsp % 16 == 0 && InStack(rsp)
    && exists stack: seq<Byte> :: rsp + |stack| == USER_STACK_TOP && ReadsBytes(s, root, rsp, stack)
         && 8 * (|argv| + |envp| + 3) <= |stack|
         && Argc(stack) == |argv| && Argv(stack, rsp) == argv && Envp(stack, rsp) == envp
         && Qword(stack, 1 + |argv|) == 0 && Qword(stack, 2 + |argv| + |envp|) == 0
  }

  ghost predicate ReadsBytes(s: State, root: nat, from: Word, bs: seq<Byte>) {
    forall v: Word :: from <= v < from + |bs| ==> ByteRead(s, root, v) == Some(bs[v - from])
  }

  /** A child of the kernel root has nothing mapped. */
  lemma {:induction false} ChildIsEmpty(s: State, s': State, child: nat)
    requires Good(s) && ForkStep(s, s', s.forest.kernel, child) && s'.forest.IsRoot(child)
    ensures UserMap(s', child) == map[]
  {
    hide Good, ForkStep, PathOf, FrameOf, FlagsOf;
    var kernel := s.forest.kernel;
    forall p: nat | p < LOWER_PAGES ensures PageNode(child, p) !in s'.forest.pages {
      PageStart(p);
      LowerIff(p * PAGE_SIZE);
      var path := PathOf(p * PAGE_SIZE);
      ForkTranslates(s, s', kernel, child, path);
      KernelHasNone(s, path);
      ForkKeeps(s, s', kernel, child);
      LookupIsTranslate(s', child, path);
    }
  }

  lemma {:induction false} PageStart(p: nat)
    requires p < LOWER_PAGES
    ensures p * PAGE_SIZE < TWO_64 && PageOf(p * PAGE_SIZE) == p
  {}

  lemma {:induction false} KernelHasNone(s: State, p: Path)
    requires Good(s) && IsPage(p) && p.Down? && !Upper(p)
    ensures s.forest.IsRoot(s.forest.kernel) && Translate(s.mem, s.forest.kernel, p).None?
  {
    TranslateIsLookup(s.mem, s.forest, s.forest.kernel, p);
  }

  /** In the terms of the program header: at `p_vaddr + k` the program reads byte `p_offset + k` of the file,
      and zeros behind the part that is in the file. */
  lemma {:induction false} ReadsAtAddress(s: State, root: nat, file: seq<Byte>, i: nat, k: nat)
    requires Loadable(file) && ReadsFile(s, root, file) && i < Phnum(file) && k < Header(file, i).memsz
    requires Header(file, i).vaddr + Header(file, i).memsz <= 0x8000_0000_0000
    requires var v := Header(file, i).vaddr + k; FirstTouches(file, i, v / PAGE_SIZE) && !InStack(v)
    ensures var ph := Header(file, i);
      ByteRead(s, root, ph.vaddr + k) == Some(if k < ph.filesz then file[ph.offset + k] else 0)
  {
    hide FirstTouches, ByteRead, AccessAs, Header;
    var ph := Header(file, i);
    var v: Word := ph.vaddr + k;
    assert ReadsSegmentAt(s, root, file, i, v);
    assert Start(ph) == ph.vaddr;
  }

  // ---------- Segments and stack together ----------

  /** Every page of the file outside the stack holds what it should. */
  ghost predicate FileHeld(space: UserSpace, file: seq<Byte>)
    requires Loadable(file)
    reads space
  {
    forall i: nat, p: nat :: i < Phnum(file) && FirstTouches(file, i, p) && !InStack(PAGE_SIZE * p) ==>
      HeldAt(space.bytes, space.pages, file, i, p)
  }

  ghost predicate HeldAt(bytes: seq<Byte>, pages: map<nat, Mapping>, file: seq<Byte>, i: nat, p: nat)
    requires Loadable(file) && i < Phnum(file)
  {
    Holds(bytes, pages, file, Header(file, i), p)
  }

  /** Mapping the stack and writing to it leave what the loader put in other pages. */
  lemma {:induction false} StaysHeld(bytes: seq<Byte>, pages: map<nat, Mapping>, data: set<nat>, used: set<nat>,
    mapped: seq<Byte>, pages': map<nat, Mapping>, data': set<nat>, used': set<nat>, now: seq<Byte>,
    file: seq<Byte>, i: nat, p: nat)
    requires ProperMap(pages, bytes, data) && ProperMap(pages', mapped, data') && data <= data'
    requires NewlyMapped(pages, used, pages', used', USER_STACK_BOTTOM, USER_STACK_TOP)
    requires Untouched(bytes, mapped, data)
    requires Untouched(mapped, now, OtherFrames(pages', data', USER_STACK_BOTTOM, USER_STACK_TOP))
    requires Loadable(file) && i < Phnum(file) && HeldAt(bytes, pages, file, i, p) && !InStack(PAGE_SIZE * p)
    ensures HeldAt(now, pages', file, i, p)
  {
    hide PageImage, Untouched;
    var ph := Header(file, i);
    assert p in pages' && pages'[p] == pages[p];
    HoldsKept(bytes, mapped, data, pages, pages', file, ph, p);
    var others := OtherFrames(pages', data', USER_STACK_BOTTOM, USER_STACK_TOP);
    assert pages'[p].frame in others;
    HoldsKept(mapped, now, others, pages', pages', file, ph, p);
  }

  lemma {:induction false} HeldIsRead(space: UserSpace, file: seq<Byte>)
    requires space.Valid() && Loadable(file) && FileHeld(space, file)
    ensures ReadsFile(space.Now(), space.root, file)
  {
    hide space.Backed, space.Proper, FirstTouches, ReadsSegmentAt, HeldAt, InStack;
    forall i: nat, v: Word | i < Phnum(file) && FirstTouches(file, i, v / PAGE_SIZE) && !InStack(v)
      ensures ReadsSegmentAt(space.Now(), space.root, file, i, v)
    {
      SamePageInStack(v);
      ProgramReadsSegment(space, file, i, v);
    }
  }

  lemma {:induction false} SamePageInStack(v: nat)
    ensures InStack(PAGE_SIZE * (v / PAGE_SIZE)) <==> InStack(v)
  {}

  /** Where a page holds a segment, the program reads the segment through the page tables. */
  lemma {:induction false} ProgramReadsSegment(space: UserSpace, file: seq<Byte>, i: nat, v: Word)
    requires space.Valid() && Loadable(file) && i < Phnum(file)
    requires HeldAt(space.bytes, space.pages, file, i, v / PAGE_SIZE)
    ensures ReadsSegmentAt(space.Now(), space.root, file, i, v)
  {
    hide space.Backed, ByteRead, SegmentByte, PageImage, FlagsFor, FlagsOf;
    var ph := Header(file, i);
    ReadsSegment(space, file, ph, v);
    space.ReadsSpace(v);
    EntryAccess(space, v, ph);
  }

  /** What the stack reads is what the startup code finds. */
  lemma {:induction false} ArgumentsRead(stack: Stacker, rsp: Word, argv: seq<CString>, envp: seq<CString>)
    requires stack.Valid() && rsp == stack.pointer && rsp % 16 == 0
    requires stack.bottom == USER_STACK_BOTTOM && stack.top == USER_STACK_TOP
    requires 8 * (|argv| + |envp| + 3) <= |stack.contents|
    requires Argc(stack.contents) == |argv| && Argv(stack.contents, rsp) == argv && Envp(stack.contents, rsp) == envp
    requires Qword(stack.contents, 1 + |argv|) == 0 && Qword(stack.contents, 2 + |argv| + |envp|) == 0
    ensures ReadsArguments(stack.space.Now(), stack.space.root, rsp, argv, envp)
  {
    hide UserSpace.Backed, OnStack, ByteRead, Argc, Argv, Envp, Qword;
    forall v: Word | rsp <= v < USER_STACK_TOP
      ensures ByteRead(stack.space.Now(), stack.space.root, v) == Some(stack.contents[v - rsp])
    {
      stack.ReadsStack(v);
    }
    assert ReadsBytes(stack.space.Now(), stack.space.root, rsp, stack.contents);
  }

  /** The loader and the stack on an address space with nothing in it. */
  method LoadProgram(space: UserSpace, file: seq<Byte>, argv: seq<CString>, envp: seq<CString>) returns (r: Result)
    requires space.Valid() && space.pages == map[] && Loadable(file)
    requires Needed(argv, envp) <= USER_STACK_TOP - USER_STACK_BOTTOM
    modifies space, space.spaces, space.spaces.memory.words
    modifies space.spaces.pmm.allocator, space.spaces.pmm.allocator.bitmap.data
    ensures if r.NoMemory? then space.Full() else space.Valid()
    ensures !r.NoMemory? ==> Untouched(old(space.bytes), space.bytes, old(space.data))
    ensures r.NotLoaded? ==> !ElfCheck(file) && space.Now() == old(space.Now())
    ensures r.StraysOut? ==> ElfCheck(file) && !AllInLowerHalf(file)
    ensures r.Started? ==>
      && ElfCheck(file) && AllInLowerHalf(file) && r.root == space.root
      && r.entry == FieldAt(file, 24, 8) && IsHighest(file, Phnum(file), r.highest)
      && FileHeld(space, file) && ReadsArguments(space.Now(), space.root, r.rsp, argv, envp)
  {
    hide UserSpace.Backed, ElfCheck, FieldAt, Loaded, Untouched, NewlyMapped, OnStack, AllInLowerHalf, IsHighest;
    hide FileHeld, ReadsArguments, OtherFrames, UserSpace.Proper, OldFrames, Argc, Argv, Envp, Qword, Needed;
    hide UserSpace.Full;
    ghost var bytes, data, used := space.bytes, space.data, space.used;
    ProperSays(space);
    var outcome := LoadElf(space, file);
    if outcome.Ready? { NoPageInOld(space.pages, used, data, space.data); }
    ghost var loaded, few := space.bytes, OldFrames(space.pages, space.data);
    match outcome {
      case Invalid => return NotLoaded;
      case OutOfMemory => return NoMemory;
      case Stray => return StraysOut;
      case Ready(entry, highest) =>
        var rsp := AddStack(space, file, argv, envp);
        if rsp.Some? { UntouchedMore(bytes, loaded, space.bytes, data, few); }
        return if rsp.Some? then Started(space.root, entry, highest, rsp.value) else NoMemory;
    }
  }

  /** The stack of a program that is loaded. */
  method AddStack(space: UserSpace, file: seq<Byte>, argv: seq<CString>, envp: seq<CString>) returns (rsp: Option<Word>)
    requires space.Valid() && Loadable(file) && Loaded(space.bytes, space.pages, file, Phnum(file), map[])
    requires Needed(argv, envp) <= USER_STACK_TOP - USER_STACK_BOTTOM
    modifies space, space.spaces, space.spaces.memory.words
    modifies space.spaces.pmm.allocator, space.spaces.pmm.allocator.bitmap.data
    ensures rsp.None? ==> space.Full()
    ensures rsp.Some? ==> Untouched(old(space.bytes), space.bytes, OldFrames(old(space.pages), old(space.data)))
    ensures rsp.Some? ==>
      space.Valid() && FileHeld(space, file) && ReadsArguments(space.Now(), space.root, rsp.value, argv, envp)
  {
    hide UserSpace.Backed, Loaded, Untouched, NewlyMapped, OnStack, FileHeld, ReadsArguments, OtherFrames;
    hide UserSpace.Proper, OldFrames, Argc, Argv, Envp, Qword, Needed, UserSpace.Full;
    ghost var bytes, pages, data, used := space.bytes, space.pages, space.data, space.used;
    ProperSays(space);
    var stack := new Stacker(space, USER_STACK_BOTTOM, USER_STACK_TOP);
    if stack.outOfMemory { return None; }
    ghost var mapped := space.bytes;
    ProperSays(space);
    var pointer := stack.InitUserStack(argv, envp);
    ArgumentsRead(stack, pointer, argv, envp);
    FileStays(space, file, bytes, pages, data, used, mapped);
    OldStay(space, bytes, pages, data, used, mapped);
    return Some(pointer);
  }

  /** The data frames with no page in them. */
  ghost function OldFrames(pages: map<nat, Mapping>, data: set<nat>): set<nat> {
    set f | f in data && forall p :: p in pages ==> pages[p].frame != f
  }

  /** The stack does not touch frames that were in use without a page of the process in them. */
  lemma {:induction false} OldStay(space: UserSpace, bytes: seq<Byte>, pages: map<nat, Mapping>, data: set<nat>,
    used: set<nat>, mapped: seq<Byte>)
    requires NewlyMapped(pages, used, space.pages, space.used, USER_STACK_BOTTOM, USER_STACK_TOP)
    requires data <= used && data <= space.data && Untouched(bytes, mapped, data)
    requires Untouched(mapped, space.bytes, OtherFrames(space.pages, space.data, USER_STACK_BOTTOM, USER_STACK_TOP))
    ensures Untouched(bytes, space.bytes, OldFrames(pages, data))
  {
    var few, others := OldFrames(pages, data), OtherFrames(space.pages, space.data, USER_STACK_BOTTOM, USER_STACK_TOP);
    assert few <= others;
  }

  /** Nor does the loader, which takes frames that were free. */
  lemma {:induction false} NoPageInOld(pages: map<nat, Mapping>, used: set<nat>, data: set<nat>, data': set<nat>)
    requires data <= used && data <= data' && forall p :: p in pages ==> pages[p].frame !in used
    ensures data <= OldFrames(pages, data')
  {}

  lemma {:induction false} ProperSays(space: UserSpace)
    requires space.Valid()
    ensures ProperMap(space.pages, space.bytes, space.data) && space.data <= space.used
  {
    hide space.Backed, ProperMap;
  }

  lemma {:induction false} FileStays(space: UserSpace, file: seq<Byte>, bytes: seq<Byte>, pages: map<nat, Mapping>,
    data: set<nat>, used: set<nat>, mapped: seq<Byte>)
    requires Loadable(file) && Loaded(bytes, pages, file, Phnum(file), map[])
    requires ProperMap(pages, bytes, data) && ProperMap(space.pages, mapped, space.data) && data <= space.data
    requires NewlyMapped(pages, used, space.pages, space.used, USER_STACK_BOTTOM, USER_STACK_TOP)
    requires Untouched(bytes, mapped, data)
    requires Untouched(mapped, space.bytes, OtherFrames(space.pages, space.data, USER_STACK_BOTTOM, USER_STACK_TOP))
    ensures FileHeld(space, file)
  {
    hide Untouched, NewlyMapped, OtherFrames, ProperMap, FirstTouches, HeldAt, InStack;
    forall i: nat, p: nat | i < Phnum(file) && FirstTouches(file, i, p) && !InStack(PAGE_SIZE * p)
      ensures HeldAt(space.bytes, space.pages, file, i, p)
    {
      LoadedHolds(bytes, pages, file, i, p);
      StaysHeld(bytes, pages, data, used, mapped, space.pages, space.data, space.used, space.bytes, file, i, p);
    }
  }

  lemma {:induction false} LoadedHolds(bytes: seq<Byte>, pages: map<nat, Mapping>, file: seq<Byte>, i: nat, p: nat)
    requires Loadable(file) && Loaded(bytes, pages, file, Phnum(file), map[]) && i < Phnum(file)
    requires FirstTouches(file, i, p)
    ensures HeldAt(bytes, pages, file, i, p)
  {
    hide FirstTouches;
  }

  lemma {:induction false} EntryAccess(space: UserSpace, v: Word, ph: Phdr)
    requires space.Valid() && v / PAGE_SIZE < LOWER_PAGES
    requires var w := Translate(space.Now().mem, space.root, PathOf(v)); w.Some? && FlagsOf(w.value) == FlagsFor(ph)
    ensures AccessAs(space.Now(), space.root, v, TestBit(ph.flags, 0))
  {
    hide PathOf, FlagsFor, FlagsOf, TestBit, UserMap, Flat, Builds, DataFrames;
    var s, p := space.Now(), PathOf(v);
    UserSpace.LowerPage(v);
    LowerIff(v);
    SegmentAccess(ph, Translate(s.mem, space.root, p).value);
    AccessIs(s, space.root, p);
  }

  lemma {:induction false} AccessIs(s: State, root: nat, p: Path)
    requires Good(s) && s.forest.IsRoot(root) && IsPage(p) && p.Down? && !Upper(p) && Translate(s.mem, root, p).Some?
    ensures var w := Translate(s.mem, root, p).value;
      && (Allowed(s.mem, root, p, 1) <==> TestBit(w, 1)) && (Allowed(s.mem, root, p, 2) <==> TestBit(w, 2))
      && (Executable(s.mem, root, p) <==> !TestBit(w, 63))
  {
    hide TestBit, NoEmptyTables, SharedTop, PagesOwned, KernelIsUpper;
    AccessIsOfThePage(s.mem, s.forest, root, p, 1);
    AccessIsOfThePage(s.mem, s.forest, root, p, 2);
  }

  /** From the kernel root a process is forked, the file is loaded and the stack is set up. What the
      new process then reads, through the page tables, is the file and its arguments; and everything
      came about by steps of this process. A file that is rejected leaves the new address space behind. */
  method StartProgram(spaces: AddressSpaces, kernel: nat, file: seq<Byte>, argv: seq<CString>, envp: seq<CString>)
    returns (r: Result, ghost forked: State)
    requires Steady(spaces) && kernel == spaces.forest.kernel && Loadable(file)
    requires Needed(argv, envp) <= USER_STACK_TOP - USER_STACK_BOTTOM
    modifies spaces, spaces.memory.words, spaces.pmm.allocator, spaces.pmm.allocator.bitmap.data
    ensures if r.NoMemory? then spaces.Exhausted() else Steady(spaces)
    ensures r.NotLoaded? ==>
      !ElfCheck(file) && spaces.Now() == forked && exists child :: ForkStep(old(spaces.Now()), forked, kernel, child)
    ensures r.StraysOut? ==> ElfCheck(file) && !AllInLowerHalf(file)
    ensures r.Started? ==>
      && ElfCheck(file) && AllInLowerHalf(file)
      && r.entry == FieldAt(file, 24, 8) && IsHighest(file, Phnum(file), r.highest)
      && ReadsFile(spaces.Now(), r.root, file) && ReadsArguments(spaces.Now(), r.root, r.rsp, argv, envp)
      && ForkStep(old(spaces.Now()), forked, kernel, r.root) && Builds(forked, r.root, spaces.Now())
      && Untouched(Flat(forked.mem), Flat(spaces.Now().mem), DataFrames(forked))
  {
    hide Good, ForkStep, WellFormed, UserSpace.Backed, UserSpace.Proper, Step, Builds, ElfCheck, FieldAt;
    hide Flat, Untouched, DataFrames, IsHighest, ReadsFile, ReadsArguments, FileHeld, AllInLowerHalf, Needed;
    ghost var before := spaces.Now();
    forked := before;
    KernelRoot(before);
    var child := ForkRoot(spaces, kernel);
    if child.None? { return NoMemory, forked; }
    forked := spaces.Now();
    ForkIsFresh(before, forked, kernel, child.value);
    ChildIsEmpty(before, forked, child.value);
    var space := new UserSpace(spaces, child.value);
    WhatSpaceSays(space);
    r := LoadProgram(space, file, argv, envp);
    if !r.NoMemory? { WhatSpaceSays(space); }
    if r.Started? { HeldIsRead(space, file); }
  }

  lemma {:induction false} KernelRoot(s: State)
    requires Good(s)
    ensures s.forest.IsRoot(s.forest.kernel)
  {
    hide Linked, NoEmptyTables, SharedTop, PagesOwned, KernelIsUpper;
  }

  lemma {:induction false} WhatSpaceSays(space: UserSpace)
    requires space.Valid()
    ensures Steady(space.spaces) && Builds(space.start, space.root, space.Now()) && space.bytes == Flat(space.Now().mem)
  {
    hide space.Proper, Good, Builds, WellFormed, Flat;
  }

  // ---------- The others ----------

  /** Starting a program changes no translation of any other root and no byte that another process
      reads. */
  lemma {:induction false} StartUnnoticed(before: State, forked: State, kernel: nat, r: nat, s: State, q: nat, v: Word)
    requires Good(before) && ForkStep(before, forked, kernel, r) && Builds(forked, r, s)
    requires Untouched(Flat(forked.mem), Flat(s.mem), DataFrames(forked)) && before.forest.IsRoot(q)
    ensures s.forest.IsRoot(q) && Translate(s.mem, q, PathOf(v)) == Translate(before.mem, q, PathOf(v))
    ensures q != before.forest.kernel && PageOf(v) < LOWER_PAGES ==> ByteRead(s, q, v) == ByteRead(before, q, v)
  {
    hide Good, ForkStep, Builds, Untouched, Flat, DataFrames, PathOf, ByteRead;
    LowerIff(v);
    OthersStay(before, forked, kernel, r, s);
    LookupKept(before, r, s, q, PathOf(v));
    if q != before.forest.kernel && PageOf(v) < LOWER_PAGES {
      PageBytes(before, forked, kernel, r, s, q, v);
    }
  }

  lemma {:induction false} OthersStay(before: State, forked: State, kernel: nat, r: nat, s: State)
    requires Good(before) && ForkStep(before, forked, kernel, r) && Builds(forked, r, s)
    ensures Good(s) && r != before.forest.kernel && s.forest.kernel == before.forest.kernel
    ensures Without(s.forest, r) == before.forest && Good(forked)
  {
    hide Good, ForkStep, Step, Without, ActsOn;
    ForkChildNew(before, forked, kernel, r);
    ForkWithout(before, forked, kernel, r);
    StepKeepsGood(before, Fork(kernel, r), forked);
    var states, ops :| Run(states, ops) && RunOf(states, ops, forked, r, s);
    RunKeepsGood(states, ops, |ops|);
    forall i | 0 <= i < |ops| ensures ActsOn(ops[i], r) { assert ops[i] in ops; }
    LifeOf(states, ops, r, |ops|);
  }

  lemma {:induction false} LookupKept(before: State, r: nat, s: State, q: nat, p: Path)
    requires Good(before) && Good(s) && Without(s.forest, r) == before.forest && r != before.forest.kernel
    requires before.forest.IsRoot(q) && IsPage(p) && p.Down?
    ensures s.forest.IsRoot(q) && Translate(s.mem, q, p) == Translate(before.mem, q, p)
  {
    hide PagesOwned, NoEmptyTables, KernelIsUpper;
    TranslateIsLookup(before.mem, before.forest, q, p);
    TranslateIsLookup(s.mem, s.forest, q, p);
  }

  lemma {:induction false} PageBytes(before: State, forked: State, kernel: nat, r: nat, s: State, q: nat, v: Word)
    requires Good(before) && Good(forked) && ForkStep(before, forked, kernel, r) && before.forest.IsRoot(q)
    requires Untouched(Flat(forked.mem), Flat(s.mem), DataFrames(forked))
    requires Translate(s.mem, q, PathOf(v)) == Translate(before.mem, q, PathOf(v))
    requires q != before.forest.kernel && PageOf(v) < LOWER_PAGES
    ensures ByteRead(s, q, v) == ByteRead(before, q, v)
  {
    hide Good, ForkStep, UserMap, PathOf, FrameOf, FlagsOf, ByteAt;
    LowerIff(v);
    ForkUnnoticed(before, forked, kernel, r, q, PathOf(v));
    ForkKeepsSize(before, forked, kernel, r, q);
    TranslateIsMap(before, q, v);
    TranslateIsMap(forked, q, v);
    MapIsValid(before, q);
    MapIsValid(forked, q);
    var w := Translate(before.mem, q, PathOf(v));
    if w.Some? && FrameOf(w.value) < |before.mem| {
      var c := FrameOf(w.value);
      InFrame(c, v % PAGE_SIZE);
      assert Flat(s.mem)[PAGE_SIZE * c + v % PAGE_SIZE] == Flat(forked.mem)[PAGE_SIZE * c + v % PAGE_SIZE];
      UserSpace.SameByte(before.mem, forked.mem, PAGE_SIZE * c + v % PAGE_SIZE);
    }
  }

  lemma {:induction false} ForkKeepsSize(s: State, s': State, parent: nat, child: nat, q: nat)
    requires ForkStep(s, s', parent, child) && s.forest.IsRoot(q)
    ensures |s'.mem| == |s.mem| && s'.forest.IsRoot(q) && s'.forest.kernel == s.forest.kernel
  {
    hide Shape, Linked, AllTwins, FreshHomes, OnlyTwins;
  }

  /** When the process ends, the tables are as they were, and of the frames in use only those that
      callers hold may differ. */
  lemma {:induction false} ProgramEnds(before: State, forked: State, kernel: nat, r: nat, s: State, after: State)
    requires Good(before) && ForkStep(before, forked, kernel, r) && Builds(forked, r, s) && DestroyStep(s, after, r)
    ensures Good(after) && after.forest == before.forest
    ensures after.used == (before.used - Held(before)) + Held(after)
  {
    hide Good, ForkStep, Step, DestroyStep, Held, ActsOn;
    var states, ops :| Run(states, ops) && RunOf(states, ops, forked, r, s);
    ProcessLifetime(before, states, ops, kernel, r, after);
  }
}
