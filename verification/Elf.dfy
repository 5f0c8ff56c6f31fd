/** Loading an ELF executable: the segments are copied page by page into new frames. */
module Elf {
  import opened Wrappers
  import opened Words
  import opened ByteMemory
  import opened UserPaging
  import opened UserMemory
  import opened ElfFile
  import opened AddressSpaceRuns
  import EntryBits

  /** What the program must find at an address of a page of the segment: the bytes of the file,
      and zeros around them. */
  ghost function SegmentByte(file: seq<Byte>, ph: Phdr, v: nat): Byte
    requires ph.offset + ph.filesz <= |file|
  {
    if Start(ph) <= v < Start(ph) + ph.filesz then file[ph.offset + (v - Start(ph))] else 0
  }

  function FlagsFor(ph: Phdr): Word {
    if ph.flags % 2 == 1 then READ_EXEC_USER else READ_WRITE_USER + NO_EXEC
  }

  /** What the entry of a page allows, from the bit of the header for execution: code is executed and not
      written, everything else is written and not executed, and the program may reach both. */
  lemma {:induction false} SegmentAccess(ph: Phdr, w: Word)
    requires FlagsOf(w) == FlagsFor(ph)
    ensures TestBit(w, 0) && TestBit(w, 2)
    ensures TestBit(w, 1) <==> !TestBit(ph.flags, 0)
    ensures TestBit(w, 63) <==> !TestBit(ph.flags, 0)
  {
    EntryBits.EntryLayout(w, 0);
    EntryBits.EntryLayout(w, 1);
    EntryBits.EntryLayout(w, 2);
    EntryBits.EntryLayout(w, 63);
    EntryBits.FlagBits(0);
    EntryBits.FlagBits(1);
    EntryBits.FlagBits(2);
    EntryBits.FlagBits(63);
    LowestBit(ph.flags);
    hide TestBit;
  }

  lemma {:induction false} LowestBit(n: nat)
    ensures TestBit(n, 0) <==> n % 2 == 1
  {}

  /** What a page of the segment must hold. */
  ghost function PageImage(file: seq<Byte>, ph: Phdr, page: nat): (bs: seq<Byte>)
    requires ph.offset + ph.filesz <= |file|
    ensures |bs| == PAGE_SIZE
  {
    seq<Byte>(PAGE_SIZE, k requires 0 <= k < PAGE_SIZE => SegmentByte(file, ph, PAGE_SIZE * page + k))
  }

  /** The page is mapped with the access the segment asks for and holds its bytes. */
  ghost predicate Holds(bytes: seq<Byte>, pages: map<nat, Mapping>, file: seq<Byte>, ph: Phdr, page: nat)
    requires ph.offset + ph.filesz <= |file|
  {
    && page in pages && pages[page].flags == FlagsFor(ph)
    && var base := PAGE_SIZE * pages[page].frame;
       base + PAGE_SIZE <= |bytes| && bytes[base..base + PAGE_SIZE] == PageImage(file, ph, page)
  }

  /** Reading through the page tables gives the bytes of the segment. */
  lemma {:induction false} ReadsSegment(space: UserSpace, file: seq<Byte>, ph: Phdr, v: nat)
    requires ph.offset + ph.filesz <= |file| && space.Proper()
    requires Holds(space.bytes, space.pages, file, ph, v / PAGE_SIZE)
    ensures space.Mapped(v) && space.Read(v) == SegmentByte(file, ph, v)
  {
    var page, k := v / PAGE_SIZE, v % PAGE_SIZE;
    var base := PAGE_SIZE * space.pages[page].frame;
    assert PAGE_SIZE * page + k == v;
    assert space.bytes[base..base + PAGE_SIZE][k] == space.bytes[base + k];
    assert PageImage(file, ph, page)[k] == SegmentByte(file, ph, v);
  }

  /** Segment `i` is the first to touch the page. */
  ghost predicate FirstTouches(file: seq<Byte>, i: nat, p: nat)
    requires Complete(file) && i < Phnum(file)
  {
    Touches(Header(file, i), p) && forall j: nat :: j < i ==> !Touches(Header(file, j), p)
  }

  /** The first `n` segments are loaded. Where they share a page the first decides what it holds; a
      page that was mapped before stays as it was; nothing else is mapped. */
  ghost predicate Loaded(bytes: seq<Byte>, pages: map<nat, Mapping>, file: seq<Byte>, n: nat, before: map<nat, Mapping>)
    requires Loadable(file) && n <= Phnum(file)
  {
    && (forall i: nat, p :: i < n && p !in before && FirstTouches(file, i, p) ==>
          Holds(bytes, pages, file, Header(file, i), p))
    && (forall p :: p in before ==> p in pages && pages[p] == before[p])
    && (forall p :: p in pages && p !in before ==> exists i: nat :: i < n && Touches(Header(file, i), p))
  }

  /** Where segments share no page and none is mapped before, every page of every segment holds the
      bytes of the segment. */
  lemma {:induction false} ApartLoaded(bytes: seq<Byte>, pages: map<nat, Mapping>, file: seq<Byte>,
                                       before: map<nat, Mapping>, i: nat, p: nat)
    requires Loadable(file) && Loaded(bytes, pages, file, Phnum(file), before) && i < Phnum(file)
    requires Touches(Header(file, i), p) && p !in before
    requires forall j: nat :: j < Phnum(file) && j != i ==> !Touches(Header(file, j), p)
    ensures Holds(bytes, pages, file, Header(file, i), p)
  {
    assert FirstTouches(file, i, p);
  }

  lemma {:induction false} HoldsKept(was: seq<Byte>, now: seq<Byte>, frames: set<nat>,
    pages: map<nat, Mapping>, pages': map<nat, Mapping>, file: seq<Byte>, ph: Phdr, page: nat)
    requires ph.offset + ph.filesz <= |file| && Holds(was, pages, file, ph, page) && Untouched(was, now, frames)
    requires pages[page].frame in frames && page in pages' && pages'[page] == pages[page]
    ensures Holds(now, pages', file, ph, page)
  {
    var base := PAGE_SIZE * pages[page].frame;
    forall k | base <= k < base + PAGE_SIZE ensures now[k] == was[k] {
      assert k / PAGE_SIZE == pages[page].frame;
    }
    assert now[base..base + PAGE_SIZE] == was[base..base + PAGE_SIZE];
  }

  /** How the loader ends: an invalid file, the entry address and the end of the last segment, the
      panic when no frame is free, or a page outside the lower half, where the model stops. */
  datatype Outcome = Invalid | Ready(entry: Word, highest: Word) | OutOfMemory | Stray

  /** How the mapping of a segment or of a page ends. */
  datatype Progress = Done | NoFrame | Outside

  lemma {:induction false} FlagsAreFlags(ph: Phdr)
    ensures FlagsOf(FlagsFor(ph)) == FlagsFor(ph) && Present(FlagsFor(ph))
  {}

  /** One page of a segment: the body of the inner loop. Where the page is mapped already, the new
      frame is filled and forgotten. */
  method LoadPage(space: UserSpace, file: seq<Byte>, ph: Phdr, j: nat) returns (r: Progress)
    requires space.Valid() && ph.offset + ph.filesz <= |file| && FirstPage(ph) + j < ALL_PAGES
    modifies space, space.spaces, space.spaces.memory.words
    modifies space.spaces.pmm.allocator, space.spaces.pmm.allocator.bitmap.data
    ensures r.NoFrame? ==> space.Full()
    ensures !r.NoFrame? ==>
      && space.Valid() && old(space.used) <= space.used && old(space.data) <= space.data
      && Untouched(old(space.bytes), space.bytes, old(space.data))
      && (r.Outside? <==> FirstPage(ph) + j >= LOWER_PAGES)
    ensures r.Outside? ==> space.pages == old(space.pages)
    ensures r.Done? ==> var page := FirstPage(ph) + j;
      (if page in old(space.pages) then space.pages == old(space.pages)
       else Holds(space.bytes, space.pages, file, ph, page) && space.pages[page].frame !in old(space.used)
            && space.pages == old(space.pages)[page := space.pages[page]])
  {
    hide space.Backed, space.Spare, space.Full, Untouched, Present, FlagsOf, PageImage, AddressAt, PageOf;
    hide FlagsFor, Step;
    ghost var bytes, data0 := space.bytes, space.data;
    var taken := space.AllocateFrame();
    if taken.None? { return NoFrame; }
    var frame := taken.value;
    var vaddr := AddressAt(ph, j);
    PageInRound(ph, j);
    UntouchedSame(bytes, data0);
    if PageOf(vaddr) >= LOWER_PAGES { return Outside; }
    var flag := FlagFor(ph);
    FlagsAreFlags(ph);
    var ok := space.MapPage(vaddr, frame, flag);
    if !ok { return NoFrame; }
    ghost var mapped := space.bytes;
    UntouchedFewer(bytes, mapped, data0, space.data);
    FillPage(space, file, ph, j, frame);
    UntouchedMore(bytes, mapped, space.bytes, data0, space.data - {frame});
    r := Done;
  }

  method FlagFor(ph: Phdr) returns (flag: Word)
    ensures flag == FlagsFor(ph)
  {
    flag := if ph.flags % 2 == 1 then READ_EXEC_USER else READ_WRITE_USER + NO_EXEC;
  }

  /** Zeros, then the part of the file that falls into the page. */
  method FillPage(space: UserSpace, file: seq<Byte>, ph: Phdr, j: nat, frame: nat)
    requires space.Valid() && ph.offset + ph.filesz <= |file| && frame in space.data
    modifies space`bytes, space.spaces.memory.words
    ensures space.Valid() && |space.bytes| == old(|space.bytes|)
    ensures space.bytes[PAGE_SIZE * frame..PAGE_SIZE * frame + PAGE_SIZE] == PageImage(file, ph, FirstPage(ph) + j)
    ensures Untouched(old(space.bytes), space.bytes, space.data - {frame})
  {
    hide space.Backed, PageImage, SegmentByte;
    var base := PAGE_SIZE * frame;
    ghost var was := space.bytes;
    forall a: nat | base <= a < base + PAGE_SIZE ensures space.InData(a) { assert a / PAGE_SIZE == frame; }
    space.Memset(base, 0, PAGE_SIZE);
    var intraOffset := ph.vaddr % PAGE_SIZE;
    var srcOff := ph.offset + j * PAGE_SIZE - (if j == 0 then 0 else intraOffset);
    var dest := if j == 0 then intraOffset else 0;
    var toCopy := 0;
    if j == 0 {
      toCopy := Min(PAGE_SIZE - intraOffset, ph.filesz);
    } else {
      var relOff := j * PAGE_SIZE - intraOffset;
      if relOff < ph.filesz { toCopy := Min(PAGE_SIZE, ph.filesz - relOff); }
    }
    if toCopy > 0 {
      space.Memcpy(base + dest, file, srcOff, toCopy);
    }
    forall i | base <= i < base + PAGE_SIZE
      ensures space.bytes[i] == SegmentByte(file, ph, PAGE_SIZE * (FirstPage(ph) + j) + (i - base))
    {
      CopiedPart(file, ph, j, i - base, srcOff, dest, toCopy);
    }
    IsImage(space.bytes, base, file, ph, FirstPage(ph) + j);
    OutsideFrame(was, space.bytes, frame, space.data);
  }

  lemma {:induction false} IsImage(bytes: seq<Byte>, base: nat, file: seq<Byte>, ph: Phdr, page: nat)
    requires ph.offset + ph.filesz <= |file| && base + PAGE_SIZE <= |bytes|
    requires forall i :: base <= i < base + PAGE_SIZE ==>
      bytes[i] == SegmentByte(file, ph, PAGE_SIZE * page + (i - base))
    ensures bytes[base..base + PAGE_SIZE] == PageImage(file, ph, page)
  {
    hide SegmentByte;
  }

  lemma {:induction false} OutsideFrame(was: seq<Byte>, now: seq<Byte>, frame: nat, frames: set<nat>)
    requires |was| == |now|
    requires forall i ::
      0 <= i < |was| && !(PAGE_SIZE * frame <= i < PAGE_SIZE * frame + PAGE_SIZE) ==> now[i] == was[i]
    ensures Untouched(was, now, frames - {frame})
  {}

  /** The copy covers exactly the bytes of the file that belong in the page. */
  lemma {:induction false} CopiedPart(file: seq<Byte>, ph: Phdr, j: nat, k: nat, srcOff: int, dest: nat, toCopy: nat)
    requires ph.offset + ph.filesz <= |file| && k < PAGE_SIZE
    requires var intra := ph.vaddr % PAGE_SIZE;
      (srcOff == ph.offset + j * PAGE_SIZE - (if j == 0 then 0 else intra) && dest == (if j == 0 then intra else 0)
       && toCopy == if j == 0 then Min(PAGE_SIZE - intra, ph.filesz)
                    else if j * PAGE_SIZE - intra < ph.filesz
                      then Min(PAGE_SIZE, ph.filesz - (j * PAGE_SIZE - intra)) else 0)
    ensures var v := PAGE_SIZE * (FirstPage(ph) + j) + k;
      (if dest <= k < dest + toCopy then 0 <= srcOff + (k - dest) < |file|
        && SegmentByte(file, ph, v) == file[srcOff + (k - dest)]
       else SegmentByte(file, ph, v) == 0)
  {
    StartInPage(ph);
  }

  lemma {:induction false} StartInPage(ph: Phdr)
    ensures Start(ph) == PAGE_SIZE * FirstPage(ph) + ph.vaddr % PAGE_SIZE
  {
    var q, r := ph.vaddr / TWO_48, ph.vaddr % TWO_48;
    assert ph.vaddr / PAGE_SIZE == ALL_PAGES * q + r / PAGE_SIZE;
    assert r / PAGE_SIZE < ALL_PAGES;
  }

  /** The pages of one segment. */
  method LoadSegment(space: UserSpace, file: seq<Byte>, ph: Phdr) returns (r: Progress)
    requires space.Valid() && ph.offset + ph.filesz <= |file| && ph.kind == PT_LOAD
    modifies space, space.spaces, space.spaces.memory.words
    modifies space.spaces.pmm.allocator, space.spaces.pmm.allocator.bitmap.data
    ensures r.NoFrame? ==> space.Full()
    ensures !r.NoFrame? ==>
      && space.Valid() && old(space.used) <= space.used && old(space.data) <= space.data
      && Untouched(old(space.bytes), space.bytes, old(space.data))
      && (r.Done? <==> InLowerHalf(ph))
      && (forall p :: p in old(space.pages) ==> p in space.pages && space.pages[p] == old(space.pages[p]))
      && (forall p :: p in space.pages && p !in old(space.pages) ==>
            Touches(ph, p) && space.pages[p].frame !in old(space.used))
    ensures r.Done? ==> forall p :: Touches(ph, p) && p !in old(space.pages) ==>
      Holds(space.bytes, space.pages, file, ph, p)
  {
    hide Holds, space.Backed, Untouched, Touches, FirstPage;
    UntouchedSame(space.bytes, space.data);
    var pages := (ph.vaddr % PAGE_SIZE + ph.memsz + PAGE_SIZE - 1) % TWO_64 / PAGE_SIZE;
    FirstBound(ph);
    for j := 0 to pages
      invariant space.Valid() && old(space.used) <= space.used && old(space.data) <= space.data
      invariant Untouched(old(space.bytes), space.bytes, old(space.data))
      invariant j > 0 ==> FirstPage(ph) + j <= LOWER_PAGES
      invariant forall p :: p in old(space.pages) ==> p in space.pages && space.pages[p] == old(space.pages[p])
      invariant forall p :: p in space.pages && p !in old(space.pages) ==>
        FirstPage(ph) <= p < FirstPage(ph) + j && space.pages[p].frame !in old(space.used)
      invariant forall p :: FirstPage(ph) <= p < FirstPage(ph) + j && p !in old(space.pages) ==>
        Holds(space.bytes, space.pages, file, ph, p)
    {
      ghost var was, pages0, data0 := space.bytes, space.pages, space.data;
      r := LoadPage(space, file, ph, j);
      if r.NoFrame? { return; }
      UntouchedMore(old(space.bytes), was, space.bytes, old(space.data), data0);
      RoundTouches(ph, j);
      if r.Outside? {
        AddedTouched(ph, pages0, old(space.pages), j);
        return;
      }
      forall p | FirstPage(ph) <= p <= FirstPage(ph) + j && p !in old(space.pages)
        ensures Holds(space.bytes, space.pages, file, ph, p)
      {
        if p < FirstPage(ph) + j {
          PageHeld(was, pages0, file, ph, p);
          HoldsKept(was, space.bytes, data0, pages0, space.pages, file, ph, p);
        }
      }
    }
    AddedTouched(ph, space.pages, old(space.pages), pages);
    forall p | Touches(ph, p) && p !in old(space.pages) ensures Holds(space.bytes, space.pages, file, ph, p) {
      LowerPages(ph, p);
    }
    r := Done;
  }

  lemma {:induction false} FirstBound(ph: Phdr)
    ensures FirstPage(ph) < ALL_PAGES
  {}

  lemma {:induction false} RoundTouches(ph: Phdr, j: nat)
    requires ph.kind == PT_LOAD && j < PageCount(ph) && FirstPage(ph) + j < ALL_PAGES
    ensures Touches(ph, FirstPage(ph) + j)
  {
    PageInRound(ph, j);
  }

  lemma {:induction false} AddedTouched(ph: Phdr, pages: map<nat, Mapping>, before: map<nat, Mapping>, j: nat)
    requires ph.kind == PT_LOAD && j <= PageCount(ph) && FirstPage(ph) + j <= ALL_PAGES
    requires forall p :: p in pages && p !in before ==> FirstPage(ph) <= p < FirstPage(ph) + j
    ensures forall p :: p in pages && p !in before ==> Touches(ph, p)
  {
    hide Touches, FirstPage, PageCount;
    forall p | p in pages && p !in before ensures Touches(ph, p) { RoundTouches(ph, p - FirstPage(ph)); }
  }

  /** `elf_check` */
  method CheckHeader(file: seq<Byte>) returns (ok: bool)
    requires |file| >= EHDR_SIZE
    ensures ok == ElfCheck(file)
  {
    ok := file[0] == 0x7f && file[1] == 'E' as int && file[2] == 'L' as int && file[3] == 'F' as int
          && FieldAt(file, 16, 2) == ET_EXEC && FieldAt(file, 20, 4) == 1;
  }

  /** All pages that the loader maps for the file are in the lower half. */
  ghost predicate AllInLowerHalf(file: seq<Byte>)
    requires Complete(file)
  {
    LowerUpTo(file, Phnum(file))
  }

  ghost predicate LowerUpTo(file: seq<Byte>, n: nat)
    requires Complete(file) && n <= Phnum(file)
  {
    forall i: nat :: i < n ==> InLowerHalf(Header(file, i))
  }

  lemma {:induction false} LowerMore(file: seq<Byte>, n: nat)
    requires Complete(file) && n < Phnum(file) && LowerUpTo(file, n)
    ensures LowerUpTo(file, n + 1) <==> InLowerHalf(Header(file, n))
    ensures AllInLowerHalf(file) ==> InLowerHalf(Header(file, n))
  {
    hide Header, InLowerHalf;
  }

  /** The loader, once the file is read. Unless memory runs out, it gets to the end of a valid file
      exactly when all its pages are in the lower half. */
  method LoadElf(space: UserSpace, file: seq<Byte>) returns (r: Outcome)
    requires space.Valid() && Loadable(file)
    modifies space, space.spaces, space.spaces.memory.words
    modifies space.spaces.pmm.allocator, space.spaces.pmm.allocator.bitmap.data
    ensures r.Invalid? <==> !ElfCheck(file)
    ensures r.Invalid? ==> space.Valid() && space.pages == old(space.pages) && space.Now() == old(space.Now())
    ensures r.OutOfMemory? ==> space.Full()
    ensures !r.OutOfMemory? ==>
      && space.Valid() && old(space.used) <= space.used && old(space.data) <= space.data
      && Untouched(old(space.bytes), space.bytes, old(space.data))
      && (forall p :: p in old(space.pages) ==> p in space.pages && space.pages[p] == old(space.pages[p]))
      && (forall p :: p in space.pages && p !in old(space.pages) ==> space.pages[p].frame !in old(space.used))
    ensures r.Ready? ==> AllInLowerHalf(file)
    ensures r.Stray? ==> !AllInLowerHalf(file)
    ensures r.Ready? ==>
      r.entry == FieldAt(file, 24, 8) && IsHighest(file, Phnum(file), r.highest)
      && Loaded(space.bytes, space.pages, file, Phnum(file), old(space.pages))
  {
    hide space.Backed, ElfCheck, FieldAt, Holds, Header, Touches, Untouched, InLowerHalf, FirstTouches, IsHighest;
    hide Loaded, LowerUpTo;
    LoadedNone(space.bytes, space.pages, file);
    UntouchedSame(space.bytes, space.data);
    var valid := CheckHeader(file);
    if !valid { return Invalid; }
    var highest: Word := 0;
    for i := 0 to Phnum(file)
      invariant space.Valid() && old(space.used) <= space.used && old(space.data) <= space.data
      invariant Untouched(old(space.bytes), space.bytes, old(space.data))
      invariant Loaded(space.bytes, space.pages, file, i, old(space.pages)) && IsHighest(file, i, highest)
      invariant forall p :: p in space.pages && p !in old(space.pages) ==> space.pages[p].frame !in old(space.used)
      invariant forall p :: p in old(space.pages) ==> p in space.pages && space.pages[p] == old(space.pages[p])
      invariant LowerUpTo(file, i)
    {
      var ph := Header(file, i);
      HighestMore(file, i, highest);
      LowerMore(file, i);
      if ph.kind != PT_LOAD {
        NothingLoaded(space.bytes, space.pages, file, i, old(space.pages));
        continue;
      }
      var segmentEnd := SegmentEnd(ph);
      if segmentEnd > highest { highest := segmentEnd; }
      ghost var was, pages0, data0 := space.bytes, space.pages, space.data;
      var done := LoadSegment(space, file, ph);
      if done.NoFrame? { return OutOfMemory; }
      UntouchedMore(old(space.bytes), was, space.bytes, old(space.data), data0);
      if done.Outside? { return Stray; }
      SegmentLoaded(was, space.bytes, data0, pages0, space.pages, file, i, old(space.pages));
    }
    return Ready(WordAt(file, 24), highest);
  }

  /** No segment among the first `n` ends above the address, and one ends there unless it is zero. */
  ghost predicate IsHighest(file: seq<Byte>, n: nat, highest: nat)
    requires Complete(file) && n <= Phnum(file)
  {
    && (forall i: nat :: i < n && Header(file, i).kind == PT_LOAD ==> SegmentEnd(Header(file, i)) <= highest)
    && (highest > 0 ==>
          exists i: nat :: i < n && Header(file, i).kind == PT_LOAD && highest == SegmentEnd(Header(file, i)))
  }

  lemma {:induction false} LoadedNone(bytes: seq<Byte>, pages: map<nat, Mapping>, file: seq<Byte>)
    requires Loadable(file)
    ensures Loaded(bytes, pages, file, 0, pages) && IsHighest(file, 0, 0) && LowerUpTo(file, 0)
  {
    hide Holds, Header;
  }

  lemma {:induction false} HighestMore(file: seq<Byte>, n: nat, highest: Word)
    requires Complete(file) && n < Phnum(file) && IsHighest(file, n, highest)
    ensures var ph := Header(file, n);
      IsHighest(file, n + 1, if ph.kind == PT_LOAD && SegmentEnd(ph) > highest then SegmentEnd(ph) else highest)
  {
    hide Header, SegmentEnd;
  }

  lemma {:induction false} NothingLoaded(bytes: seq<Byte>, pages: map<nat, Mapping>, file: seq<Byte>, n: nat,
                                         before: map<nat, Mapping>)
    requires Loadable(file) && n < Phnum(file) && Header(file, n).kind != PT_LOAD
    requires Loaded(bytes, pages, file, n, before)
    ensures Loaded(bytes, pages, file, n + 1, before) && InLowerHalf(Header(file, n))
  {
    hide Holds, Header;
  }

  lemma {:induction false} SegmentLoaded(was: seq<Byte>, now: seq<Byte>, used: set<nat>, pages: map<nat, Mapping>,
                                         pages': map<nat, Mapping>, file: seq<Byte>, n: nat, before: map<nat, Mapping>)
    requires Loadable(file) && n < Phnum(file) && Loaded(was, pages, file, n, before) && Untouched(was, now, used)
    requires forall p :: p in pages ==> pages[p].frame in used && p in pages' && pages'[p] == pages[p]
    requires forall p :: p in pages' && p !in pages ==> Touches(Header(file, n), p)
    requires forall p :: Touches(Header(file, n), p) && p !in pages ==> Holds(now, pages', file, Header(file, n), p)
    ensures Loaded(now, pages', file, n + 1, before)
  {
    hide Header, Touches, FirstTouches, Holds;
    forall i: nat, p | i < n + 1 && p !in before && FirstTouches(file, i, p)
      ensures Holds(now, pages', file, Header(file, i), p)
    {
      if i < n {
        assert Holds(was, pages, file, Header(file, i), p);
        PageHeld(was, pages, file, Header(file, i), p);
        HoldsKept(was, now, used, pages, pages', file, Header(file, i), p);
      } else {
        NoneBefore(file, n, p);
      }
    }
  }

  lemma {:induction false} PageHeld(bytes: seq<Byte>, pages: map<nat, Mapping>, file: seq<Byte>, ph: Phdr, p: nat)
    requires ph.offset + ph.filesz <= |file| && Holds(bytes, pages, file, ph, p)
    ensures p in pages
  {}

  lemma {:induction false} NoneBefore(file: seq<Byte>, n: nat, p: nat)
    requires Complete(file) && n < Phnum(file) && FirstTouches(file, n, p)
    ensures Touches(Header(file, n), p) && forall j: nat :: j < n ==> !Touches(Header(file, j), p)
  {
    hide Header, Touches;
  }
}
