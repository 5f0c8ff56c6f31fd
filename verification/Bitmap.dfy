/** The bitmap of `StaticBitmap`: one bit per frame, packed into 64-bit words. */
module Bitmap {
  import opened Words

  /** A bitmap whose size is fixed when it is built. */
  class StaticBitmap {
    const size: nat
    const data: array<Word>

    constructor (n: nat)
      ensures Valid() && size == n && Bits() == {} && fresh(data)
    {
      size := n;
      data := new Word[(n + 63) / 64](_ => 0);
      new;
      forall b: nat | b < size ensures !Bit(b) { ZeroBits(b % 64); }
    }

    ghost predicate Valid() { data.Length == (size + 63) / 64 }

    ghost predicate Bit(bit: nat)
      requires Valid() && bit < size
      reads data
    {
      TestBit(data[bit / 64], bit % 64)
    }

    /** The set of frames the bitmap marks. */
    ghost function Bits(): (s: set<nat>)
      requires Valid()
      reads data
      ensures forall b: nat :: b in s <==> b < size && Bit(b)
    {
      set b: nat | b < size && Bit(b)
    }

    /** Mark a bit; a bit past the end is ignored. */
    method Set(bit: nat)
      requires Valid()
      modifies data
      ensures Bits() == old(Bits()) + (if bit < size then {bit} else {})
    {
      if bit < size {
        ghost var was := data[..];
        MaskIsWord(bit % 64);
        OrBound(data[bit / 64], Pow2(bit % 64), 64);
        data[bit / 64] := Or(data[bit / 64], Pow2(bit % 64));
        forall b: nat | b < size ensures Bit(b) <==> b == bit || old(Bit(b)) {
          BitwiseAt(was[bit / 64], Pow2(bit % 64), b % 64);
          PowerBit(bit % 64, b % 64);
        }
      }
    }

    /** Clear a bit; a bit past the end is ignored. */
    method Clear(bit: nat)
      requires Valid()
      modifies data
      ensures Bits() == old(Bits()) - {bit}
    {
      if bit < size {
        ghost var was := data[..];
        AndNotBound(data[bit / 64], Pow2(bit % 64));
        data[bit / 64] := AndNot(data[bit / 64], Pow2(bit % 64));
        forall b: nat | b < size ensures Bit(b) <==> b != bit && old(Bit(b)) {
          BitwiseAt(was[bit / 64], Pow2(bit % 64), b % 64);
          PowerBit(bit % 64, b % 64);
        }
      }
    }

    /** Test a bit; a bit past the end reads as clear. */
    method Test(bit: nat) returns (r: bool)
      requires Valid()
      ensures r == (bit in Bits())
    {
      if bit < size {
        r := And(data[bit / 64], Pow2(bit % 64)) != 0;
        MaskTests(data[bit / 64], bit % 64);
      } else {
        r := false;
      }
    }

    method SetAll()
      requires Valid()
      modifies data
      ensures forall b: nat :: b in Bits() <==> b < size
    {
      var i := 0;
      while i < size
        invariant i <= size
        invariant forall b: nat :: b < i ==> b in Bits()
      {
        Set(i);
        i := i + 1;
      }
    }

    method ClearAll()
      requires Valid()
      modifies data
      ensures Bits() == {}
    {
      var i := 0;
      while i < size
        invariant i <= size
        invariant forall b: nat :: b < i ==> b !in Bits()
      {
        Clear(i);
        i := i + 1;
      }
    }
  }

  /** Every mask is a 64-bit word. */
  lemma {:induction false} MaskIsWord(k: nat)
    requires k < 64
    ensures Pow2(k) < Pow2(64) == TWO_64
  {
    Pow2Less(k, 64);
    Pow2Values();
  }
}
