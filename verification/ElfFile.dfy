/** ELF executables as the loader reads them, and the pages that it takes their segments to be in. The
    arithmetic on addresses is that of 64-bit words, and an address selects a page by 36 of its bits. */
module ElfFile {
  import opened Words
  import opened ByteMemory
  import opened UserPaging

  const PT_LOAD := 1
  const ET_EXEC := 2
  const EHDR_SIZE := 64
  const PHDR_SIZE := 56

  /** The fields of a program header that the loader reads. */
  datatype Phdr = Phdr(kind: nat, flags: nat, offset: Word, vaddr: Word, filesz: Word, memsz: Word)

  /** An unsigned field of `n` bytes. */
  function FieldAt(file: seq<Byte>, at: nat, n: nat): (r: nat)
    requires at + n <= |file|
    ensures r < Pow2(8 * n)
  {
    LittleBound(file[at..at + n]);
    Little(file[at..at + n])
  }

  function WordAt(file: seq<Byte>, at: nat): Word
    requires at + 8 <= |file|
  {
    Pow2Values();
    FieldAt(file, at, 8)
  }

  function PhdrAt(file: seq<Byte>, at: nat): Phdr
    requires at + PHDR_SIZE <= |file|
  {
    Phdr(FieldAt(file, at, 4), FieldAt(file, at + 4, 4), WordAt(file, at + 8), WordAt(file, at + 16),
         WordAt(file, at + 32), WordAt(file, at + 40))
  }

  function Phoff(file: seq<Byte>): nat requires |file| >= EHDR_SIZE { FieldAt(file, 32, 8) }

  function Phentsize(file: seq<Byte>): nat requires |file| >= EHDR_SIZE { FieldAt(file, 54, 2) }

  function Phnum(file: seq<Byte>): nat requires |file| >= EHDR_SIZE { FieldAt(file, 56, 2) }

  /** Where program header `i` is. */
  function HeaderAt(file: seq<Byte>, i: nat): nat
    requires |file| >= EHDR_SIZE
  {
    Phoff(file) + i * Phentsize(file)
  }

  /** The tables that the header announces are in the file. */
  ghost predicate Complete(file: seq<Byte>) {
    |file| >= EHDR_SIZE && forall i: nat :: i < Phnum(file) ==> HeaderAt(file, i) + PHDR_SIZE <= |file|
  }

  function Header(file: seq<Byte>, i: nat): Phdr
    requires Complete(file) && i < Phnum(file)
  {
    PhdrAt(file, HeaderAt(file, i))
  }

  /** The tables and the segments are in the file. */
  ghost predicate Loadable(file: seq<Byte>) {
    && Complete(file)
    && forall i: nat :: i < Phnum(file) ==> Header(file, i).offset + Header(file, i).filesz <= |file|
  }

  ghost predicate ElfCheck(file: seq<Byte>)
    requires |file| >= EHDR_SIZE
  {
    file[..4] == [0x7f, 'E' as int, 'L' as int, 'F' as int]
      && FieldAt(file, 16, 2) == ET_EXEC && FieldAt(file, 20, 4) == 1
  }

  // ---------- The pages of a segment ----------

  /** The address without the bits that select nothing. */
  function Start(ph: Phdr): nat { ph.vaddr % TWO_48 }

  function SegmentEnd(ph: Phdr): Word { (ph.vaddr + ph.memsz) % TWO_64 }

  /** How many pages the loader maps. */
  function PageCount(ph: Phdr): nat { (ph.vaddr % PAGE_SIZE + ph.memsz + PAGE_SIZE - 1) % TWO_64 / PAGE_SIZE }

  /** The address it maps in round `j`. */
  function AddressAt(ph: Phdr, j: nat): Word { (ph.vaddr / PAGE_SIZE * PAGE_SIZE + j * PAGE_SIZE) % TWO_64 }

  function FirstPage(ph: Phdr): nat { PageOf(ph.vaddr) }

  /** The loader maps the page. */
  ghost predicate Touches(ph: Phdr, page: nat) {
    ph.kind == PT_LOAD && exists j: nat :: j < PageCount(ph) && PageOf(AddressAt(ph, j)) == page
  }

  lemma {:induction false} PageInRound(ph: Phdr, j: nat)
    ensures PageOf(AddressAt(ph, j)) == (FirstPage(ph) + j) % ALL_PAGES
  {
    var b := ph.vaddr / PAGE_SIZE;
    assert AddressAt(ph, j) / PAGE_SIZE == (b + j) % TWO_52 by {
      PageOfWrapped(b + j);
    }
    assert (b + j) % TWO_52 % ALL_PAGES == (b + j) % ALL_PAGES by {
      Residue(b + j, (b + j) / TWO_52, (b + j) % TWO_52);
    }
    Residue2(b, j);
  }

  lemma {:induction false} PageOfWrapped(p: nat)
    ensures p * PAGE_SIZE % TWO_64 / PAGE_SIZE == p % TWO_52
  {
    var q, r := p / TWO_52, p % TWO_52;
    assert p * PAGE_SIZE == q * TWO_64 + r * PAGE_SIZE;
    assert r * PAGE_SIZE < TWO_64;
  }

  lemma {:induction false} Residue(p: nat, q: nat, r: nat)
    requires p == TWO_52 * q + r
    ensures p % ALL_PAGES == r % ALL_PAGES
  {
    assert p == ALL_PAGES * (0x1_0000 * q) + r;
  }

  lemma {:induction false} Residue2(b: nat, j: nat)
    ensures (b + j) % ALL_PAGES == (b % ALL_PAGES + j) % ALL_PAGES
  {
    assert b + j == ALL_PAGES * (b / ALL_PAGES) + (b % ALL_PAGES + j);
  }

  // ---------- The lower half ----------

  /** All pages that the loader maps for the segment are in the half that programs have. */
  predicate InLowerHalf(ph: Phdr) {
    ph.kind == PT_LOAD && PageCount(ph) > 0 ==> FirstPage(ph) + PageCount(ph) <= LOWER_PAGES
  }

  /** This test on the header is exact. */
  lemma {:induction false} InLowerHalfIff(ph: Phdr)
    requires ph.kind == PT_LOAD
    ensures InLowerHalf(ph) <==> forall p: nat :: Touches(ph, p) ==> p < LOWER_PAGES
  {
    hide AddressAt, PageOf;
    var b, n := FirstPage(ph), PageCount(ph);
    assert b < ALL_PAGES by { PageBound(ph.vaddr); }
    forall p: nat | InLowerHalf(ph) && Touches(ph, p) ensures p < LOWER_PAGES {
      var j: nat :| j < n && PageOf(AddressAt(ph, j)) == p;
      PageInRound(ph, j);
    }
    if n > 0 && b + n > LOWER_PAGES {
      var j: nat := if b >= LOWER_PAGES then 0 else LOWER_PAGES - b;
      PageInRound(ph, j);
      assert Touches(ph, PageOf(AddressAt(ph, j)));
    }
  }

  lemma {:induction false} PageBound(v: Word)
    ensures PageOf(v) < ALL_PAGES
  {}

  /** There the pages follow one another from the first. */
  lemma {:induction false} LowerPages(ph: Phdr, p: nat)
    requires InLowerHalf(ph) && ph.kind == PT_LOAD
    ensures Touches(ph, p) <==> FirstPage(ph) <= p < FirstPage(ph) + PageCount(ph)
  {
    hide AddressAt, PageOf;
    if Touches(ph, p) {
      var j: nat :| j < PageCount(ph) && PageOf(AddressAt(ph, j)) == p;
      PageInRound(ph, j);
    }
    if FirstPage(ph) <= p < FirstPage(ph) + PageCount(ph) {
      PageInRound(ph, p - FirstPage(ph));
    }
  }

  /** The sum that gives the page count does not wrap. */
  predicate CountFits(ph: Phdr) { ph.vaddr % PAGE_SIZE + ph.memsz + PAGE_SIZE - 1 < TWO_64 }

  /** The page is that of an address of the segment. */
  ghost predicate HasByte(ph: Phdr, page: nat) {
    exists v: nat :: ByteOf(ph, v) && PageOf(v % TWO_64) == page
  }

  predicate ByteOf(ph: Phdr, v: nat) { ph.vaddr <= v < ph.vaddr + ph.memsz }

  /** The pages that the loader maps are those of the addresses of the segment exactly when that sum
      does not wrap and the segment, if it has no bytes, starts on a page. */
  lemma {:induction false} TouchesItsBytesIff(ph: Phdr)
    requires ph.kind == PT_LOAD
    ensures (forall p: nat :: Touches(ph, p) <==> HasByte(ph, p))
      <==> CountFits(ph) && (ph.memsz > 0 || ph.vaddr % PAGE_SIZE == 0)
  {
    if !CountFits(ph) {
      CountWraps(ph);
    } else if ph.memsz > 0 {
      forall p: nat ensures Touches(ph, p) <==> HasByte(ph, p) { TouchedFits(ph, p); }
    } else {
      assert forall p: nat :: !HasByte(ph, p);
      if ph.vaddr % PAGE_SIZE > 0 { assert Touches(ph, PageOf(AddressAt(ph, 0))); }
    }
  }

  lemma {:induction false} TouchedFits(ph: Phdr, p: nat)
    requires ph.kind == PT_LOAD && ph.memsz > 0 && CountFits(ph)
    ensures Touches(ph, p) <==> HasByte(ph, p)
  {
    hide AddressAt, PageOf;
    var b, k := ph.vaddr / PAGE_SIZE, ph.vaddr % PAGE_SIZE;
    if Touches(ph, p) {
      var j: nat :| j < PageCount(ph) && PageOf(AddressAt(ph, j)) == p;
      var v := if j == 0 then ph.vaddr else (b + j) * PAGE_SIZE;
      assert v / PAGE_SIZE == b + j;
      PageInRound(ph, j);
      PageOfByte(ph, v);
      assert ByteOf(ph, v);
    }
    if HasByte(ph, p) {
      var v: nat :| ByteOf(ph, v) && PageOf(v % TWO_64) == p;
      var j := v / PAGE_SIZE - b;
      assert v == (b + j) * PAGE_SIZE + v % PAGE_SIZE && 0 <= j < PageCount(ph);
      PageInRound(ph, j);
      PageOfByte(ph, v);
    }
  }

  lemma {:induction false} PageOfByte(ph: Phdr, v: nat)
    requires v >= ph.vaddr
    ensures PageOf(v % TWO_64) == (FirstPage(ph) + (v / PAGE_SIZE - ph.vaddr / PAGE_SIZE)) % ALL_PAGES
  {
    var b, p := ph.vaddr / PAGE_SIZE, v / PAGE_SIZE;
    assert v % TWO_64 / PAGE_SIZE == p % TWO_52 by {
      var q, r := v / TWO_64, v % TWO_64;
      assert v == PAGE_SIZE * (TWO_52 * q) + r;
      assert p == TWO_52 * q + r / PAGE_SIZE;
    }
    Residue(p, p / TWO_52, p % TWO_52);
    Residue2(b, p - b);
  }

  /** When it wraps, the segment has addresses in all pages, and at most one is mapped. */
  lemma {:induction false} CountWraps(ph: Phdr)
    requires ph.kind == PT_LOAD && !CountFits(ph)
    ensures PageCount(ph) <= 1 && exists p: nat :: HasByte(ph, p) && !Touches(ph, p)
  {
    hide AddressAt, PageOf;
    var b, u := FirstPage(ph), ph.vaddr / PAGE_SIZE;
    assert ph.vaddr % PAGE_SIZE + ph.memsz + PAGE_SIZE - 1 < TWO_64 + 2 * PAGE_SIZE;
    assert PageCount(ph) <= 1;
    assert b < ALL_PAGES by { PageBound(ph.vaddr); }
    var v := (u + 1) * PAGE_SIZE;
    assert v / PAGE_SIZE == u + 1 && ByteOf(ph, v);
    PageOfByte(ph, v);
    PageInRound(ph, 0);
    var p := PageOf(v % TWO_64);
    assert HasByte(ph, p) && p != b;
    OnlyFirst(ph);
  }

  lemma {:induction false} OnlyFirst(ph: Phdr)
    requires PageCount(ph) <= 1
    ensures forall p: nat :: Touches(ph, p) ==> p == FirstPage(ph)
  {
    hide AddressAt, PageOf, PageCount;
    assert FirstPage(ph) < ALL_PAGES by { PageBound(ph.vaddr); }
    PageInRound(ph, 0);
  }

  /** A segment of 2^64 - 1 bytes of zeros at address 0 is mapped to no page at all. */
  lemma {:induction false} NothingMapped()
    ensures var ph := Phdr(PT_LOAD, 4, 0, 0, 0, TWO_64 - 1);
      PageCount(ph) == 0 && InLowerHalf(ph) && !CountFits(ph) && HasByte(ph, 0)
  {
    var ph := Phdr(PT_LOAD, 4, 0, 0, 0, TWO_64 - 1);
    assert ByteOf(ph, 0) && PageOf(0 % TWO_64) == 0;
  }

  /** What ends at or below 2^47 is as it should be. Of what begins below 2^47 and has no wrapped count
      nothing else is in the lower half. */
  lemma {:induction false} EndsBelow(ph: Phdr)
    requires ph.kind == PT_LOAD
    ensures ph.vaddr + ph.memsz <= TWO_47 ==>
      InLowerHalf(ph) && CountFits(ph) && SegmentEnd(ph) == ph.vaddr + ph.memsz && Start(ph) == ph.vaddr
    ensures ph.vaddr < TWO_47 && CountFits(ph) ==> (InLowerHalf(ph) <==> ph.vaddr + ph.memsz <= TWO_47)
  {
    var b, k := ph.vaddr / PAGE_SIZE, ph.vaddr % PAGE_SIZE;
    assert ph.vaddr == PAGE_SIZE * b + k;
    if CountFits(ph) {
      var n := PageCount(ph);
      assert PAGE_SIZE * n <= k + ph.memsz + PAGE_SIZE - 1 < PAGE_SIZE * (n + 1);
    }
    if ph.vaddr < TWO_48 {
      assert b < ALL_PAGES && FirstPage(ph) == b;
    }
  }

  // ---------- Writing an executable ----------

  /** A number and the bytes it takes. */
  datatype Field = Field(value: nat, size: nat)

  function Encode(fs: seq<Field>): (s: seq<Byte>)
    ensures |s| == Width(fs)
  {
    if fs == [] then [] else Bytes(fs[0].value, fs[0].size) + Encode(fs[1..])
  }

  function Width(fs: seq<Field>): nat { if fs == [] then 0 else fs[0].size + Width(fs[1..]) }

  /** Every field is read back in its place. */
  lemma {:induction false} FieldRead(before: seq<Byte>, fs: seq<Field>, after: seq<Byte>, i: nat)
    requires i < |fs| && fs[i].value < Pow2(8 * fs[i].size)
    ensures var file := before + (Encode(fs) + after); var at := |before| + Width(fs[..i]);
      at + fs[i].size <= |file| && FieldAt(file, at, fs[i].size) == fs[i].value
    decreases i
  {
    hide FieldAt;
    var first := Bytes(fs[0].value, fs[0].size);
    assert before + (Encode(fs) + after) == before + (first + (Encode(fs[1..]) + after));
    if i == 0 {
      FirstField(before, fs[0].value, fs[0].size, Encode(fs[1..]) + after);
    } else {
      assert fs[..i][1..] == fs[1..][..i - 1] && fs[..i][0] == fs[0];
      FieldRead(before + first, fs[1..], after, i - 1);
      assert before + (first + (Encode(fs[1..]) + after)) == before + first + (Encode(fs[1..]) + after);
    }
  }

  lemma {:induction false} FirstField(a: seq<Byte>, v: nat, n: nat, c: seq<Byte>)
    requires v < Pow2(8 * n)
    ensures FieldAt(a + (Bytes(v, n) + c), |a|, n) == v
  {
    assert (a + (Bytes(v, n) + c))[|a|..|a| + n] == Bytes(v, n);
    LittleBytes(v, n);
  }

  /** The header of a file whose program headers follow it. */
  function EhdrFields(entry: Word, count: nat): seq<Field> {
    [Field(0x464c_457f, 4), Field(0, 12), Field(ET_EXEC, 2), Field(62, 2), Field(1, 4), Field(entry, 8),
     Field(EHDR_SIZE, 8), Field(0, 8), Field(0, 4), Field(EHDR_SIZE, 2), Field(PHDR_SIZE, 2), Field(count, 2),
     Field(0, 6)]
  }

  function PhdrFields(ph: Phdr): seq<Field> {
    [Field(ph.kind, 4), Field(ph.flags, 4), Field(ph.offset, 8), Field(ph.vaddr, 8), Field(ph.vaddr, 8),
     Field(ph.filesz, 8), Field(ph.memsz, 8), Field(PAGE_SIZE, 8)]
  }

  function TableBytes(phs: seq<Phdr>): seq<Byte> {
    if phs == [] then [] else Encode(PhdrFields(phs[0])) + TableBytes(phs[1..])
  }

  /** An executable with these program headers. */
  function FileBytes(entry: Word, phs: seq<Phdr>, body: seq<Byte>): seq<Byte> {
    Encode(EhdrFields(entry, |phs|)) + (TableBytes(phs) + body)
  }

  /** The program headers fit in their fields. */
  ghost predicate Encodable(phs: seq<Phdr>) {
    |phs| < 0x1_0000 && forall i :: 0 <= i < |phs| ==> phs[i].kind < 0x1_0000_0000 && phs[i].flags < 0x1_0000_0000
  }

  lemma {:induction false} FieldSizes()
    ensures Pow2(16) == 0x1_0000 && Pow2(32) == 0x1_0000_0000 && Pow2(64) == TWO_64
  {
    Pow2Values();
    assert Pow2(4) == 16;
    Pow2Sum(12, 4);
    Pow2Sum(16, 16);
  }

  lemma {:induction false} PhdrWidths(ph: Phdr)
    ensures var fs := PhdrFields(ph);
      && Width(fs) == PHDR_SIZE && Width(fs[..0]) == 0 && Width(fs[..1]) == 4 && Width(fs[..2]) == 8
      && Width(fs[..3]) == 16 && Width(fs[..5]) == 32 && Width(fs[..6]) == 40
  {
    hide Width;
    var fs := PhdrFields(ph);
    WidthMore(fs, 0);
    WidthMore(fs, 1);
    WidthMore(fs, 2);
    WidthMore(fs, 3);
    WidthMore(fs, 4);
    WidthMore(fs, 5);
    WidthMore(fs, 6);
    WidthMore(fs, 7);
    assert fs[..8] == fs;
  }

  lemma {:induction false} WidthMore(fs: seq<Field>, i: nat)
    requires i < |fs|
    ensures Width(fs[..i + 1]) == Width(fs[..i]) + fs[i].size && Width(fs[..0]) == 0
  {
    if i > 0 {
      WidthMore(fs[1..], i - 1);
      assert fs[..i + 1][1..] == fs[1..][..i] && fs[..i][1..] == fs[1..][..i - 1];
    }
  }

  /** A program header is read back. */
  lemma {:induction false} PhdrRead(before: seq<Byte>, ph: Phdr, after: seq<Byte>)
    requires ph.kind < 0x1_0000_0000 && ph.flags < 0x1_0000_0000
    ensures |Encode(PhdrFields(ph))| == PHDR_SIZE
    ensures PhdrAt(before + (Encode(PhdrFields(ph)) + after), |before|) == ph
  {
    hide Encode, FieldAt, Width;
    var fs := PhdrFields(ph);
    FieldSizes();
    PhdrWidths(ph);
    FieldRead(before, fs, after, 0);
    FieldRead(before, fs, after, 1);
    FieldRead(before, fs, after, 2);
    FieldRead(before, fs, after, 3);
    FieldRead(before, fs, after, 5);
    FieldRead(before, fs, after, 6);
  }

  /** Each of a table of program headers is. */
  lemma {:induction false} TableRead(before: seq<Byte>, phs: seq<Phdr>, after: seq<Byte>, i: nat)
    requires Encodable(phs) && i < |phs|
    ensures var file := before + (TableBytes(phs) + after); var at := |before| + PHDR_SIZE * i;
      at + PHDR_SIZE <= |file| && PhdrAt(file, at) == phs[i]
    decreases i
  {
    hide Encode, PhdrFields, PhdrAt;
    var first := Encode(PhdrFields(phs[0]));
    assert before + (TableBytes(phs) + after) == before + (first + (TableBytes(phs[1..]) + after));
    PhdrRead(before, phs[0], TableBytes(phs[1..]) + after);
    if i > 0 {
      TableRead(before + first, phs[1..], after, i - 1);
      assert before + (first + (TableBytes(phs[1..]) + after)) == before + first + (TableBytes(phs[1..]) + after);
    }
  }

  lemma {:induction false} EhdrWidths(entry: Word, count: nat)
    ensures var fs := EhdrFields(entry, count);
      && Width(fs) == EHDR_SIZE && Width(fs[..2]) == 16 && Width(fs[..4]) == 20 && Width(fs[..5]) == 24
      && Width(fs[..6]) == 32 && Width(fs[..10]) == 54 && Width(fs[..11]) == 56
  {
    hide Width;
    var fs := EhdrFields(entry, count);
    WidthMore(fs, 0);
    WidthMore(fs, 1);
    WidthMore(fs, 2);
    WidthMore(fs, 3);
    WidthMore(fs, 4);
    WidthMore(fs, 5);
    WidthMore(fs, 6);
    WidthMore(fs, 7);
    WidthMore(fs, 8);
    WidthMore(fs, 9);
    WidthMore(fs, 10);
    WidthMore(fs, 11);
    WidthMore(fs, 12);
    assert fs[..13] == fs;
  }

  lemma {:induction false} EhdrValues(entry: Word, count: nat)
    ensures var fs := EhdrFields(entry, count);
      && |fs| == 13 && fs[0] == Field(0x464c_457f, 4) && fs[2] == Field(ET_EXEC, 2) && fs[4] == Field(1, 4)
      && fs[5] == Field(entry, 8) && fs[6] == Field(EHDR_SIZE, 8) && fs[10] == Field(PHDR_SIZE, 2)
      && fs[11] == Field(count, 2)
  {}

  lemma {:induction false} HeaderField(fs: seq<Field>, after: seq<Byte>, i: nat, at: nat, field: Field)
    requires i < |fs| && fs[i] == field && field.value < Pow2(8 * field.size) && Width(fs[..i]) == at
    ensures at + field.size <= |Encode(fs) + after| && FieldAt(Encode(fs) + after, at, field.size) == field.value
  {
    hide Encode, FieldAt, Width;
    assert [] + (Encode(fs) + after) == Encode(fs) + after;
    FieldRead([], fs, after, i);
  }

  /** The header is accepted and gives the entry and where the table is. */
  lemma {:induction false} EhdrRead(entry: Word, count: nat, after: seq<Byte>)
    requires count < 0x1_0000
    ensures var file := Encode(EhdrFields(entry, count)) + after;
      && |Encode(EhdrFields(entry, count))| == EHDR_SIZE && |file| >= EHDR_SIZE && ElfCheck(file)
      && FieldAt(file, 24, 8) == entry
      && Phoff(file) == EHDR_SIZE && Phentsize(file) == PHDR_SIZE && Phnum(file) == count
  {
    hide Encode, FieldAt, Width, EhdrFields;
    var fs := EhdrFields(entry, count);
    var file := Encode(fs) + after;
    FieldSizes();
    EhdrWidths(entry, count);
    EhdrValues(entry, count);
    HeaderField(fs, after, 2, 16, Field(ET_EXEC, 2));
    HeaderField(fs, after, 4, 20, Field(1, 4));
    HeaderField(fs, after, 5, 24, Field(entry, 8));
    HeaderField(fs, after, 6, 32, Field(EHDR_SIZE, 8));
    HeaderField(fs, after, 10, 54, Field(PHDR_SIZE, 2));
    HeaderField(fs, after, 11, 56, Field(count, 2));
    MagicRead(fs, after);
  }

  lemma {:induction false} MagicRead(fs: seq<Field>, after: seq<Byte>)
    requires fs != [] && fs[0] == Field(0x464c_457f, 4)
    ensures |Encode(fs)| >= 4 && (Encode(fs) + after)[..4] == [0x7f, 'E' as int, 'L' as int, 'F' as int]
  {
    var v := 0x464c_457f;
    assert v / 256 == 0x46_4c45 && v / 256 / 256 == 0x464c && v / 256 / 256 / 256 == 0x46;
    assert Bytes(v, 4) == [v % 256] + ([v / 256 % 256] + ([v / 256 / 256 % 256] + ([v / 256 / 256 / 256 % 256] + [])));
    assert (Encode(fs) + after)[..4] == Bytes(v, 4);
  }

  /** An executable that is written is one the loader accepts, and it reads the program headers that
      were written. */
  lemma {:induction false} FileReadsBack(entry: Word, phs: seq<Phdr>, body: seq<Byte>)
    requires Encodable(phs)
    ensures var file := FileBytes(entry, phs, body);
      && Complete(file) && ElfCheck(file) && FieldAt(file, 24, 8) == entry && Phnum(file) == |phs|
      && forall i: nat :: i < |phs| ==> Header(file, i) == phs[i]
  {
    hide Encode, EhdrFields, PhdrFields, FieldAt, PhdrAt, ElfCheck, TableBytes;
    var file := FileBytes(entry, phs, body);
    EhdrRead(entry, |phs|, TableBytes(phs) + body);
    forall i: nat | i < |phs|
      ensures HeaderAt(file, i) + PHDR_SIZE <= |file| && PhdrAt(file, HeaderAt(file, i)) == phs[i]
    {
      TableRead(Encode(EhdrFields(entry, |phs|)), phs, body, i);
      assert HeaderAt(file, i) == EHDR_SIZE + i * PHDR_SIZE;
    }
  }
}
