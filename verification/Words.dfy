/** 64-bit machine words as bounded naturals, with the bit operations the memory
    manager applies to them. A page table entry packs a frame address (bits 12 to 51)
    with flag bits (all the others). */
module Words {
  const TWO_64 := 0x1_0000_0000_0000_0000
  const TWO_52 := 0x10_0000_0000_0000
  const TWO_40 := 0x100_0000_0000
  const PAGE_SIZE := 0x1000
  const ENTRIES := 512

  type Word = w: int | 0 <= w < TWO_64

  const READ_WRITE: Word := 0x03
  const READ_EXEC_USER: Word := 0x05
  const READ_WRITE_USER: Word := 0x07
  const NO_EXEC: Word := 0x8000_0000_0000_0000

  /** The bitwise or of two words. */
  function Or(a: nat, b: nat): nat {
    if a == 0 then b
    else if b == 0 then a
    else 2 * Or(a / 2, b / 2) + (if a % 2 == 1 || b % 2 == 1 then 1 else 0)
  }

  /** The bitwise and of two words. */
  function And(a: nat, b: nat): nat {
    if a == 0 || b == 0 then 0
    else 2 * And(a / 2, b / 2) + (if a % 2 == 1 && b % 2 == 1 then 1 else 0)
  }

  /** `a & ~b` */
  function AndNot(a: nat, b: nat): nat {
    if a == 0 then 0
    else 2 * AndNot(a / 2, b / 2) + (if a % 2 == 1 && b % 2 == 0 then 1 else 0)
  }

  /** Bit `k` of a word. */
  predicate TestBit(a: nat, k: nat)
    decreases k
  {
    if k == 0 then a % 2 == 1 else TestBit(a / 2, k - 1)
  }

  function Pow2(k: nat): (r: nat)
    ensures r > 0
  {
    if k == 0 then 1 else 2 * Pow2(k - 1)
  }

  /** `entry & PageFlag::Present` */
  predicate Present(w: Word) { w % 2 == 1 }

  /** `(entry & PHYS_ADDR_MASK) / PAGE_SIZE` */
  function FrameOf(w: Word): nat { w / PAGE_SIZE % TWO_40 }

  /** `entry & ~PHYS_ADDR_MASK` */
  function FlagsOf(w: Word): Word { w % PAGE_SIZE + w / TWO_52 * TWO_52 }

  /** `paddr | flags` */
  function Entry(paddr: Word, flags: Word): Word {
    Pow2Values();
    OrBound(paddr, flags, 64);
    Or(paddr, flags)
  }

  /** The three operators work bit by bit. */
  lemma {:induction false} BitwiseAt(a: nat, b: nat, k: nat)
    ensures TestBit(Or(a, b), k) == (TestBit(a, k) || TestBit(b, k))
    ensures TestBit(And(a, b), k) == (TestBit(a, k) && TestBit(b, k))
    ensures TestBit(AndNot(a, b), k) == (TestBit(a, k) && !TestBit(b, k))
    decreases k
  {
    if k > 0 {
      BitwiseAt(a / 2, b / 2, k - 1);
      ZeroBits(k - 1);
    }
  }

  lemma {:induction false} ZeroBits(k: nat)
    ensures !TestBit(0, k)
  {
    if k > 0 { ZeroBits(k - 1); }
  }

  /** `1 << i` has exactly bit `i`. */
  lemma {:induction false} PowerBit(i: nat, j: nat)
    ensures TestBit(Pow2(i), j) == (i == j)
  {
    if i == 0 {
      if j > 0 { ZeroBits(j - 1); }
    } else if j > 0 {
      PowerBit(i - 1, j - 1);
    }
  }

  /** Masking with `1 << k` leaves something exactly when bit `k` is set. */
  lemma {:induction false} MaskTests(a: nat, k: nat)
    ensures And(a, Pow2(k)) != 0 <==> TestBit(a, k)
    decreases k
  {
    if a == 0 {
      ZeroBits(k);
    } else if k == 0 {
      assert And(a / 2, 0) == 0;
    } else {
      MaskTests(a / 2, k - 1);
    }
  }

  lemma {:induction false} AndNotBound(a: nat, b: nat)
    ensures AndNot(a, b) <= a
  {
    if a != 0 { AndNotBound(a / 2, b / 2); }
  }

  lemma {:induction false} Pow2Less(j: nat, k: nat)
    requires j < k
    ensures Pow2(j) < Pow2(k)
  {
    if j < k - 1 { Pow2Less(j, k - 1); }
  }

  /** `frame | flags`, with the flags of entry `e`: the entry that points to frame `f` instead. */
  function Repoint(e: Word, f: nat): Word
    requires f < TWO_40
  {
    Entry(f * PAGE_SIZE, FlagsOf(e))
  }

  lemma {:induction false} OrBound(a: nat, b: nat, k: nat)
    requires a < Pow2(k) && b < Pow2(k)
    ensures Or(a, b) < Pow2(k)
  {
    if a != 0 && b != 0 { OrBound(a / 2, b / 2, k - 1); }
  }

  lemma {:induction false} Pow2Sum(j: nat, k: nat)
    ensures Pow2(j + k) == Pow2(j) * Pow2(k)
  {
    if j > 0 { Pow2Sum(j - 1, k); }
  }

  lemma {:induction false} Pow2Values()
    ensures Pow2(12) == PAGE_SIZE && Pow2(40) == TWO_40 && Pow2(64) == TWO_64
  {
    assert Pow2(12) == 0x1000;
    Pow2Sum(12, 12);
    Pow2Sum(24, 12);
    assert Pow2(4) == 16;
    Pow2Sum(36, 4);
    Pow2Sum(12, 40);
    Pow2Sum(52, 12);
  }

  /** The number with `h` above its low `k` bits `l`. */
  function Concat(h: nat, l: nat, k: nat): nat {
    if k == 0 then h else 2 * Concat(h, l / 2, k - 1) + l % 2
  }

  lemma {:induction false} ConcatSum(h: nat, l: nat, k: nat)
    requires l < Pow2(k)
    ensures Concat(h, l, k) == h * Pow2(k) + l
  {
    if k > 0 {
      var p := Pow2(k - 1);
      ConcatSum(h, l / 2, k - 1);
      assert Concat(h, l, k) == 2 * (h * p + l / 2) + l % 2;
      assert h * (2 * p) == 2 * (h * p);
    }
  }

  lemma {:induction false} OrConcat(ah: nat, al: nat, bh: nat, bl: nat, k: nat)
    requires al < Pow2(k) && bl < Pow2(k)
    ensures Or(Concat(ah, al, k), Concat(bh, bl, k)) == Concat(Or(ah, bh), Or(al, bl), k)
  {
    if k > 0 {
      var a, b := Concat(ah, al, k), Concat(bh, bl, k);
      assert a / 2 == Concat(ah, al / 2, k - 1) && a % 2 == al % 2 by { ConcatStep(ah, al, k); }
      assert b / 2 == Concat(bh, bl / 2, k - 1) && b % 2 == bl % 2 by { ConcatStep(bh, bl, k); }
      OrConcat(ah, al / 2, bh, bl / 2, k - 1);
      var c := if al % 2 == 1 || bl % 2 == 1 then 1 else 0;
      assert Or(a, b) == 2 * Or(a / 2, b / 2) + c by { OrStep(a, b); }
      assert Or(al, bl) / 2 == Or(al / 2, bl / 2) && Or(al, bl) % 2 == c by { OrStep(al, bl); }
    }
  }

  lemma {:induction false} ConcatStep(h: nat, l: nat, k: nat)
    requires k > 0
    ensures Concat(h, l, k) / 2 == Concat(h, l / 2, k - 1) && Concat(h, l, k) % 2 == l % 2
  {}

  /** The or of two words is the or of their high parts beside the or of their low parts. */
  lemma {:induction false} OrSplit(ah: nat, al: nat, bh: nat, bl: nat, k: nat)
    requires al < Pow2(k) && bl < Pow2(k)
    ensures Or(ah * Pow2(k) + al, bh * Pow2(k) + bl) == Or(ah, bh) * Pow2(k) + Or(al, bl)
  {
    ConcatSum(ah, al, k);
    ConcatSum(bh, bl, k);
    OrConcat(ah, al, bh, bl, k);
    OrBound(al, bl, k);
    ConcatSum(Or(ah, bh), Or(al, bl), k);
  }

  lemma {:induction false} OrStep(a: nat, b: nat)
    ensures Or(a, b) == 2 * Or(a / 2, b / 2) + (if a % 2 == 1 || b % 2 == 1 then 1 else 0)
  {}

  lemma {:induction false} EntrySum(f: nat, lo: nat, hi: nat)
    requires f < TWO_40 && lo < PAGE_SIZE && hi < 0x1000
    ensures Entry(f * PAGE_SIZE, hi * TWO_52 + lo) == hi * TWO_52 + f * PAGE_SIZE + lo
  {
    Pow2Values();
    OrSplit(f, 0, hi * TWO_40, lo, 12);
    OrSplit(0, f, hi, 0, 40);
  }

  /** Packing a frame with the flag bits of an entry and unpacking it loses neither part. */
  lemma {:induction false} PackUnpack(f: nat, e: Word)
    requires f < TWO_40
    ensures FrameOf(Repoint(e, f)) == f
    ensures FlagsOf(Repoint(e, f)) == FlagsOf(e)
    ensures Present(Repoint(e, f)) == Present(e)
  {
    var lo, hi := e % PAGE_SIZE, e / TWO_52;
    assert FlagsOf(e) == hi * TWO_52 + lo && lo % 2 == e % 2;
    EntrySum(f, lo, hi);
    var w := Entry(f * PAGE_SIZE, FlagsOf(e));
    assert w == hi * TWO_52 + f * PAGE_SIZE + lo;
    Fields(w, f, lo, hi);
  }

  lemma {:induction false} Fields(w: Word, f: nat, lo: nat, hi: nat)
    requires f < TWO_40 && lo < PAGE_SIZE && hi < 0x1000 && w == hi * TWO_52 + f * PAGE_SIZE + lo
    ensures FrameOf(w) == f && FlagsOf(w) == hi * TWO_52 + lo && Present(w) == (lo % 2 == 1)
  {
    var page := hi * TWO_40 + f;
    assert w == page * PAGE_SIZE + lo;
    assert w / PAGE_SIZE == page && w % PAGE_SIZE == lo;
    assert page / TWO_40 == hi && page % TWO_40 == f;
    assert w / TWO_52 == hi by { assert w == hi * TWO_52 + (f * PAGE_SIZE + lo) && f * PAGE_SIZE + lo < TWO_52; }
  }

  /** The entry a new table gets: present, writable, reachable from user mode. */
  lemma {:induction false} TableEntry(f: nat)
    requires f < TWO_40
    ensures Entry(f * PAGE_SIZE, READ_WRITE_USER) == f * PAGE_SIZE + READ_WRITE_USER
    ensures Present(Entry(f * PAGE_SIZE, READ_WRITE_USER))
    ensures FrameOf(Entry(f * PAGE_SIZE, READ_WRITE_USER)) == f
    ensures FlagsOf(Entry(f * PAGE_SIZE, READ_WRITE_USER)) == READ_WRITE_USER
  {
    EntrySum(f, READ_WRITE_USER, 0);
    Fields(Entry(f * PAGE_SIZE, READ_WRITE_USER), f, READ_WRITE_USER, 0);
  }
}
