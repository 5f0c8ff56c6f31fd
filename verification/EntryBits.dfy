/** The layout of a page table entry, bit by bit. */
module EntryBits {
  import opened Words

  lemma {:induction false} ConcatBit(h: nat, l: nat, k: nat, i: nat)
    ensures TestBit(Concat(h, l, k), i) == if i < k then TestBit(l, i) else TestBit(h, i - k)
    decreases k
  {
    if k > 0 {
      ConcatStep(h, l, k);
      if i > 0 { ConcatBit(h, l / 2, k - 1, i - 1); }
    }
  }

  /** The three fields of a word: 12 bits below, 40 in the middle, 12 above. */
  lemma {:induction false} ThreeFields(hi: nat, mid: nat, lo: nat, i: nat)
    requires mid < TWO_40 && lo < PAGE_SIZE
    ensures TestBit(hi * TWO_52 + mid * PAGE_SIZE + lo, i) ==
      if i < 12 then TestBit(lo, i) else if i < 52 then TestBit(mid, i - 12) else TestBit(hi, i - 52)
  {
    Pow2Values();
    ConcatSum(hi, mid, 40);
    ConcatSum(Concat(hi, mid, 40), lo, 12);
    ConcatBit(Concat(hi, mid, 40), lo, 12, i);
    if i >= 12 { ConcatBit(hi, mid, 40, i - 12); }
  }

  /** A number has no bits from its bound on. */
  lemma {:induction false} NoBits(n: nat, k: nat, i: nat)
    requires n < Pow2(k) && k <= i
    ensures !TestBit(n, i)
    decreases k
  {
    if k == 0 { ZeroBits(i); } else { NoBits(n / 2, k - 1, i - 1); }
  }

  /** Bit 0 is Present, bits 12 to 51 are the frame and the others are flags. */
  lemma {:induction false} EntryLayout(w: Word, i: nat)
    ensures Present(w) <==> TestBit(w, 0)
    ensures TestBit(FrameOf(w), i) <==> i < 40 && TestBit(w, i + 12)
    ensures TestBit(FlagsOf(w), i) <==> (i < 12 || 52 <= i) && TestBit(w, i)
  {
    var hi, mid, lo := w / TWO_52, FrameOf(w), w % PAGE_SIZE;
    assert w == hi * TWO_52 + mid * PAGE_SIZE + lo by { Parts(w); }
    assert FlagsOf(w) == hi * TWO_52 + 0 * PAGE_SIZE + lo;
    ThreeFields(hi, mid, lo, i);
    ThreeFields(hi, mid, lo, i + 12);
    ThreeFields(hi, 0, lo, i);
    if 12 <= i { ZeroBits(i - 12); }
    Pow2Values();
    if 40 <= i { NoBits(mid, 40, i); }
  }

  lemma {:induction false} Parts(w: Word)
    ensures w == w / TWO_52 * TWO_52 + FrameOf(w) * PAGE_SIZE + w % PAGE_SIZE
  {
    var p := w / PAGE_SIZE;
    assert w / TWO_52 == p / TWO_40;
    assert p == p / TWO_40 * TWO_40 + p % TWO_40;
  }

  /** The bits of the flags that pages get. */
  lemma {:induction false} FlagBits(i: nat)
    ensures TestBit(READ_EXEC_USER, i) <==> i == 0 || i == 2
    ensures TestBit(READ_WRITE_USER, i) <==> i <= 2
    ensures TestBit(READ_WRITE_USER + NO_EXEC, i) <==> i <= 2 || i == 63
  {
    ThreeFields(0, 0, 5, i);
    ThreeFields(0, 0, 7, i);
    ThreeFields(0x800, 0, 7, i);
    LowBits(i);
    if 12 <= i {
      ZeroBits(i - 12);
      if 52 <= i {
        ZeroBits(i - 52);
        PowerBit(11, i - 52);
        assert Pow2(11) == 0x800;
      }
    }
  }

  lemma {:induction false} LowBits(i: nat)
    ensures TestBit(5, i) <==> i == 0 || i == 2
    ensures TestBit(7, i) <==> i <= 2
  {
    if i >= 3 {
      ZeroBits(i - 3);
      assert TestBit(7, i) == TestBit(3, i - 1) == TestBit(1, i - 2) == TestBit(0, i - 3);
      assert TestBit(5, i) == TestBit(2, i - 1) == TestBit(1, i - 2);
    }
  }
}
