/** Bytes of numbers, of words and of physical memory. */
module ByteMemory {
  import opened Words
  import opened PhysicalMemory
  import Numerals

  type Byte = b: int | 0 <= b < 256

  /** A number from its bytes, the least significant first. */
  function Little(bs: seq<Byte>): nat {
    if bs == [] then 0 else bs[0] + 256 * Little(bs[1..])
  }

  /** The first `k` bytes of a number. */
  function Bytes(v: nat, k: nat): (bs: seq<Byte>)
    ensures |bs| == k
  {
    if k == 0 then [] else [v % 256] + Bytes(v / 256, k - 1)
  }

  lemma {:induction false} LittleBytes(v: nat, k: nat)
    requires v < Pow2(8 * k)
    ensures Little(Bytes(v, k)) == v
    decreases k
  {
    if k == 0 {
      assert Pow2(0) == 1;
    } else {
      assert Pow2(8 * k) == 256 * Pow2(8 * (k - 1)) by { Pow2Eight(8 * (k - 1)); }
      LittleBytes(v / 256, k - 1);
      assert Bytes(v, k)[1..] == Bytes(v / 256, k - 1);
    }
  }

  /** Byte `i` counts for 256 to the power of `i`. */
  lemma {:induction false} ByteOfNumber(v: nat, k: nat, i: nat)
    requires i < k
    ensures Bytes(v, k)[i] == v / Pow2(8 * i) % 256 && WordByte(v, i) == v / Pow2(8 * i) % 256
    decreases k
  {
    if i == 0 {
      assert Pow2(0) == 1;
    } else {
      ByteOfNumber(v / 256, k - 1, i - 1);
      assert Pow2(8 * i) == 256 * Pow2(8 * (i - 1)) by { Pow2Eight(8 * (i - 1)); }
      DivTwice(v, Pow2(8 * (i - 1)));
    }
  }

  lemma {:induction false} DivTwice(v: nat, p: nat)
    requires p > 0
    ensures v / 256 / p == v / (256 * p)
  {
    var a, q := v / 256, v / 256 / p;
    assert a == p * q + a % p && v == 256 * a + v % 256;
    assert v == (256 * p) * q + (256 * (a % p) + v % 256);
    assert 256 * (a % p) + v % 256 < 256 * p;
    var m := 256 * p;
    assert v == v / m * m + v % m;
    Numerals.Quotients(v / m, v % m, q, 256 * (a % p) + v % 256, m);
  }

  lemma {:induction false} LittleBound(bs: seq<Byte>)
    ensures Little(bs) < Pow2(8 * |bs|)
  {
    if bs == [] {
      assert Pow2(0) == 1;
    } else {
      LittleBound(bs[1..]);
      assert Pow2(8 * |bs|) == 256 * Pow2(8 * (|bs| - 1)) by { Pow2Eight(8 * (|bs| - 1)); }
    }
  }

  lemma {:induction false} Pow2Eight(n: nat)
    ensures Pow2(n + 8) == 256 * Pow2(n)
  {
    assert Pow2(n + 4) == 16 * Pow2(n) by {
      assert Pow2(n + 2) == 4 * Pow2(n);
      assert Pow2(n + 4) == 4 * Pow2(n + 2);
    }
    assert Pow2(n + 6) == 4 * Pow2(n + 4);
    assert Pow2(n + 8) == 4 * Pow2(n + 6);
  }

  // ---------- Words and frames ----------

  /** Byte `k` of a word, the least significant first. */
  function WordByte(w: nat, k: nat): Byte
    decreases k
  {
    if k == 0 then w % 256 else WordByte(w / 256, k - 1)
  }

  /** The word with another byte in place of byte `k`. */
  function WithByte(w: nat, k: nat, b: Byte): nat
    decreases k
  {
    if k == 0 then w / 256 * 256 + b else w % 256 + 256 * WithByte(w / 256, k - 1, b)
  }

  lemma {:induction false} WithByteRead(w: nat, k: nat, b: Byte, j: nat)
    ensures WordByte(WithByte(w, k, b), j) == if j == k then b else WordByte(w, j)
    decreases k
  {
    var r := WithByte(w, k, b);
    if k == 0 {
      assert r % 256 == b && r / 256 == w / 256;
    } else {
      assert r % 256 == w % 256 && r / 256 == WithByte(w / 256, k - 1, b);
      if j > 0 { WithByteRead(w / 256, k - 1, b, j - 1); }
    }
  }

  lemma {:induction false} WithByteBound(w: nat, k: nat, b: Byte, n: nat)
    requires k < n && w < Pow2(8 * n)
    ensures WithByte(w, k, b) < Pow2(8 * n)
    decreases k
  {
    assert Pow2(8 * n) == 256 * Pow2(8 * (n - 1)) by { Pow2Eight(8 * (n - 1)); }
    if k > 0 { WithByteBound(w / 256, k - 1, b, n - 1); }
  }

  /** A word in memory with another byte. */
  function StoredByte(w: Word, k: nat, b: Byte): (r: Word)
    requires k < 8
    ensures forall j: nat :: WordByte(r, j) == if j == k then b else WordByte(w, j)
  {
    Pow2Values();
    WithByteBound(w, k, b, 8);
    assert forall j: nat :: WordByte(WithByte(w, k, b), j) == if j == k then b else WordByte(w, j) by {
      forall j: nat ensures WordByte(WithByte(w, k, b), j) == if j == k then b else WordByte(w, j) {
        WithByteRead(w, k, b, j);
      }
    }
    WithByte(w, k, b)
  }

  /** The bytes of memory, by physical address. */
  function ByteAt(mem: seq<Frame>, a: nat): Byte
    requires a / PAGE_SIZE < |mem|
  {
    WordByte(mem[a / PAGE_SIZE][a % PAGE_SIZE / 8], a % 8)
  }

  /** All of memory as bytes. */
  ghost function Flat(mem: seq<Frame>): (bs: seq<Byte>)
    ensures |bs| == PAGE_SIZE * |mem| && forall a: nat :: a < |bs| ==> bs[a] == ByteAt(mem, a)
  {
    seq(PAGE_SIZE * |mem|, a requires 0 <= a < PAGE_SIZE * |mem| => ByteAt(mem, a))
  }

  /** Storing one byte changes it and no other. */
  lemma {:induction false} StoreByteFlat(mem: seq<Frame>, a: nat, b: Byte)
    requires a / PAGE_SIZE < |mem|
    ensures var f, i := a / PAGE_SIZE, a % PAGE_SIZE / 8;
      Flat(mem[f := mem[f][i := StoredByte(mem[f][i], a % 8, b)]]) == Flat(mem)[a := b]
  {
    hide WordByte, WithByte, StoredByte;
    var f, i := a / PAGE_SIZE, a % PAGE_SIZE / 8;
    var w := StoredByte(mem[f][i], a % 8, b);
    var mem' := mem[f := mem[f][i := w]];
    forall x: nat | x < PAGE_SIZE * |mem| ensures ByteAt(mem', x) == if x == a then b else ByteAt(mem, x) {
      if x / PAGE_SIZE == f && x % PAGE_SIZE / 8 == i {
        SamePlace(a, x);
      }
    }
  }

  lemma {:induction false} SamePlace(a: nat, x: nat)
    requires a / PAGE_SIZE == x / PAGE_SIZE && a % PAGE_SIZE / 8 == x % PAGE_SIZE / 8
    ensures a % 8 == x % 8 <==> a == x
  {
    Address(a, a / PAGE_SIZE, a % PAGE_SIZE / 8);
    Address(x, x / PAGE_SIZE, x % PAGE_SIZE / 8);
  }

  lemma {:induction false} Address(a: nat, f: nat, i: nat)
    requires f == a / PAGE_SIZE && i == a % PAGE_SIZE / 8
    ensures a == 8 * (512 * f + i) + a % 8
  {
    assert a / 8 == 512 * f + i;
  }
}
