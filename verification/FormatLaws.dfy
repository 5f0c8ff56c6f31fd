/** What each conversion of a format prints, with the letters and bases written out. A format is plain
    text and conversions, one after another, so these laws say what any format stands for. */
module FormatLaws {
  import opened Wrappers
  import opened Words
  import opened Numerals
  import opened Printf
  import Conversion

  const PERCENT: Char := '%' as int
  const ELL: Char := 'l' as int

  /** The length modifiers: none, `l` or `ll`. */
  predicate Modifiers(l: Text) { l == [] || l == [ELL] || l == [ELL, ELL] }

  /** A conversion after some plain text, and whatever comes after it. */
  function Around(a: Text, l: Text, c: Char, b: Text): Text { a + ([PERCENT] + (l + ([c] + b))) }

  ghost predicate Plain(a: Text) { PERCENT !in a && 0 !in a }

  /** The format stands for the text of `a`, that of the conversion and that of `b`. */
  ghost predicate Prints(a: Text, l: Text, c: Char, b: Text, args: seq<Arg>, text: Text, rest: seq<Arg>) {
    0 !in Around(a, l, c, b) && 0 !in b
    && Expand(Around(a, l, c, b), args) ==
         match Expand(b, rest) case None => None case Some(t) => Some(a + (text + t))
  }

  lemma {:induction false} PlainRead(a: Text, f: Text, args: seq<Arg>)
    requires Plain(a) && 0 !in f
    ensures 0 !in a + f
    ensures Expand(a + f, args) == match Expand(f, args) case None => None case Some(t) => Some(a + t)
    decreases |a|
  {
    hide Convert, Longs;
    if a == [] {
      assert a + f == f && forall t: Text :: a + t == t;
    } else {
      assert a[0] in a && (a + f)[1..] == a[1..] + f;
      PlainRead(a[1..], f, args);
      assert forall t: Text :: [a[0]] + (a[1..] + t) == a + t;
    }
  }

  lemma {:induction false} FieldRead(a: Text, l: Text, c: Char, b: Text, args: seq<Arg>, text: Text, rest: seq<Arg>)
    requires Plain(a) && Modifiers(l) && c != 0 && (|l| < 2 ==> c != ELL) && 0 !in b
    requires Convert(c, |l|, args) == Some(Field(text, rest))
    ensures Prints(a, l, c, b, args, text, rest)
  {
    hide Convert;
    var f := [PERCENT] + (l + ([c] + b));
    var after := f[1..];
    assert after == l + ([c] + b) && 0 !in f;
    LongsAre(l, c, b);
    assert At(f, 1 + |l|) == c && f[2 + |l|..] == b;
    PlainRead(a, f, args);
    FirstField(f, args, |l|, c, Field(text, rest));
    assert forall t: Text :: a + (text + t) == a + (text + t);
  }

  lemma {:induction false} LongsAre(l: Text, c: Char, b: Text)
    requires Modifiers(l) && (|l| < 2 ==> c != ELL)
    ensures Longs(l + ([c] + b)) == |l|
  {}

  lemma {:induction false} FirstField(f: Text, args: seq<Arg>, longs: nat, c: Char, field: Field)
    requires 0 !in f && |f| > 1 && f[0] == PERCENT && Longs(f[1..]) == longs
    requires 2 + longs <= |f| && At(f, 1 + longs) == c
    requires Convert(c, longs, args) == Some(field)
    ensures 0 !in f[2 + longs..]
    ensures Expand(f, args) ==
      match Expand(f[2 + longs..], field.rest) case None => None case Some(t) => Some(field.text + t)
  {
    hide Convert, Longs;
  }

  // ---------- The conversions ----------

  /** `%s` prints the characters before the first NUL, and nothing for a null pointer. */
  lemma {:induction false} StringPrinted(a: Text, b: Text, s: Text, tail: Text, args: seq<Arg>)
    requires Plain(a) && 0 !in b && 0 !in s && (tail == [] || tail[0] == 0)
    ensures Prints(a, [], 's' as int, b, [Pointer(Some(s + tail))] + args, s, args)
    ensures Prints(a, [], 's' as int, b, [Pointer(None)] + args, [], args)
  {
    hide Prints;
    assert (s + tail)[..|s|] == s;
    CStrIs(s + tail, |s|);
    assert ([Pointer(Some(s + tail))] + args)[1..] == args && ([Pointer(None)] + args)[1..] == args;
    FieldRead(a, [], 's' as int, b, [Pointer(Some(s + tail))] + args, s, args);
    FieldRead(a, [], 's' as int, b, [Pointer(None)] + args, [], args);
  }

  /** `%b`, `%o`, `%u` and `%x` print the digits in base 2, 8, 10 and 16, of the low 32 bits or, with a
      modifier, of all 64. */
  lemma {:induction false} UnsignedPrinted(a: Text, l: Text, b: Text, n: Word, args: seq<Arg>)
    requires Plain(a) && Modifiers(l) && 0 !in b
    ensures var v: nat := if l == [] then n % 0x1_0000_0000 else n;
      && Prints(a, l, 'b' as int, b, [Bits(n)] + args, Digits(v, 2), args)
      && Prints(a, l, 'o' as int, b, [Bits(n)] + args, Digits(v, 8), args)
      && Prints(a, l, 'u' as int, b, [Bits(n)] + args, Digits(v, 10), args)
      && Prints(a, l, 'x' as int, b, [Bits(n)] + args, Digits(v, 16), args)
  {
    hide Prints, Digits;
    assert ([Bits(n)] + args)[1..] == args;
    var v: nat := if l == [] then n % 0x1_0000_0000 else n;
    FieldRead(a, l, 'b' as int, b, [Bits(n)] + args, Digits(v, 2), args);
    FieldRead(a, l, 'o' as int, b, [Bits(n)] + args, Digits(v, 8), args);
    FieldRead(a, l, 'u' as int, b, [Bits(n)] + args, Digits(v, 10), args);
    FieldRead(a, l, 'x' as int, b, [Bits(n)] + args, Digits(v, 16), args);
  }

  /** The register a signed number is passed in: its low bits are those of the number. */
  predicate Passed(v: int, n: Word, size: nat)
    requires size > 0
  {
    (n - v) % size == 0
  }

  /** `%d` prints the signed number with a minus sign if it is negative: an `int`, or a `long` with a
      modifier. */
  lemma {:induction false} SignedPrinted(a: Text, l: Text, b: Text, v: int, n: Word, args: seq<Arg>)
    requires Plain(a) && Modifiers(l) && 0 !in b
    requires if l == [] then -0x8000_0000 <= v < 0x8000_0000 && Passed(v, n, 0x1_0000_0000)
             else -0x8000_0000_0000_0000 < v < 0x8000_0000_0000_0000 && Passed(v, n, TWO_64)
    ensures var text := if v < 0 then ['-' as int] + Digits(-v, 10) else Digits(v, 10);
      Prints(a, l, 'd' as int, b, [Bits(n)] + args, text, args)
  {
    hide Prints, Digits;
    assert ([Bits(n)] + args)[1..] == args;
    SignedValue(|l|, v, n);
    FieldRead(a, l, 'd' as int, b, [Bits(n)] + args, Decimal(v), args);
  }

  lemma {:induction false} SignedValue(longs: nat, v: int, n: Word)
    requires if longs == 0 then -0x8000_0000 <= v < 0x8000_0000 && Passed(v, n, 0x1_0000_0000)
             else -0x8000_0000_0000_0000 < v < 0x8000_0000_0000_0000 && Passed(v, n, TWO_64)
    ensures SignedArg(n, longs) == v
  {
    if longs == 0 {
      var q := (n - v) / 0x1_0000_0000;
      assert n == 0x1_0000_0000 * q + v;
      var low: int := if v < 0 then v + 0x1_0000_0000 else v;
      assert n == 0x1_0000_0000 * (if v < 0 then q - 1 else q) + low;
      assert n % 0x1_0000_0000 == low;
    } else {
      var q := (n - v) / TWO_64;
      assert n == TWO_64 * q + v && 0 <= q <= 1;
    }
  }

  /** `%c` prints the character of the low eight bits, and nothing if it is NUL. */
  lemma {:induction false} CharacterPrinted(a: Text, b: Text, c: Char, n: Word, args: seq<Arg>)
    requires Plain(a) && 0 !in b && Passed(c, n, 256)
    ensures Prints(a, [], 'c' as int, b, [Bits(n)] + args, if c == 0 then [] else [c], args)
  {
    hide Prints;
    assert ([Bits(n)] + args)[1..] == args;
    var q := (n - c) / 256;
    assert n == 256 * q + c;
    assert n % 256 == if c < 0 then c + 256 else c by {
      assert n == 256 * (if c < 0 then q - 1 else q) + (if c < 0 then c + 256 else c);
    }
    assert AsChar(n) == c;
    var t: Text := [c];
    assert t[..0] == [] && t[..1] == t;
    if c == 0 { CStrIs(t, 0); } else { CStrIs(t, 1); }
    FieldRead(a, [], 'c' as int, b, [Bits(n)] + args, if c == 0 then [] else [c], args);
  }

  predicate IsConversion(c: Char) {
    || c == ELL || c == PERCENT || c == 'b' as int || c == 'c' as int || c == 'd' as int || c == 'f' as int
    || c == 'o' as int || c == 's' as int || c == 'u' as int || c == 'x' as int
  }

  /** `%%` prints a percent sign and takes no argument; a letter that is no conversion prints nothing and
      takes none. */
  lemma {:induction false} NoArgument(a: Text, b: Text, c: Char, args: seq<Arg>)
    requires Plain(a) && 0 !in b && c != 0
    requires !IsConversion(c)
    ensures Prints(a, [], PERCENT, b, args, [PERCENT], args)
    ensures Prints(a, [], c, b, args, [], args)
  {
    hide Prints;
    FieldRead(a, [], PERCENT, b, args, [PERCENT], args);
    FieldRead(a, [], c, b, args, [], args);
  }

  /** Text without a percent sign stands for itself, and a percent sign at the end for nothing. */
  lemma {:induction false} PlainPrinted(a: Text, args: seq<Arg>)
    requires Plain(a)
    ensures Expand(a, args) == Some(a) && 0 !in a + [PERCENT] && Expand(a + [PERCENT], args) == Some(a)
  {
    PlainRead(a, [], args);
    PlainRead(a, [PERCENT], args);
    assert a + [] == a;
  }

  /** A buffer of some size gets as much of the text as it can hold with a NUL. */
  lemma {:induction false} StoredIs(text: Text, n: nat)
    requires n > 0
    ensures Stored(text, n) <= text && |Stored(text, n)| < n
    ensures Stored(text, n) == text || |Stored(text, n)| == n - 1
  {}

  // ---------- Digits ----------

  const FIGURES := "0123456789abcdefghijklmnopqrstuvwxyz"

  /** The digits that are written, and those that are read, in either case. */
  lemma {:induction false} DigitsAre(d: nat)
    requires d < 36
    ensures DigitChar(d) == FIGURES[d] as int && DigitValue(FIGURES[d] as int) == d
    ensures d >= 10 ==> DigitValue(FIGURES[d] as int - 32) == d
  {}

  // ---------- Reading back ----------

  /** What `%llb`, `%llo`, `%llu` and `%llx` print is read back by `strtoull` in base 2, 8, 10 and 16. */
  lemma {:induction false} PrintedReadsBack(n: Word)
    ensures ReadsBack('b' as int, 2, n) && ReadsBack('o' as int, 8, n)
    ensures ReadsBack('u' as int, 10, n) && ReadsBack('x' as int, 16, n)
  {
    UnsignedPrinted([], [ELL, ELL], [], n, []);
    ReadsDigits('b' as int, 2, n);
    ReadsDigits('o' as int, 8, n);
    ReadsDigits('u' as int, 10, n);
    ReadsDigits('x' as int, 16, n);
  }

  ghost predicate ReadsBack(c: Char, base: nat, n: Word)
    requires c != 0 && 2 <= base <= 36
  {
    var text := Expand([PERCENT, ELL, ELL, c], [Bits(n)]);
    text.Some? && Conversion.StrtoullReads(text.value, base) == Conversion.Number(n, |text.value|, false)
  }

  lemma {:induction false} ReadsDigits(c: Char, base: nat, n: Word)
    requires c != 0 && 2 <= base <= 36
    requires Prints([], [ELL, ELL], c, [], [Bits(n)] + [], Digits(n, base), [])
    ensures ReadsBack(c, base, n)
  {
    assert Around([], [ELL, ELL], c, []) == [PERCENT, ELL, ELL, c];
    assert [Bits(n)] + [] == [Bits(n)];
    assert Expand([], []) == Some([]) && [] + (Digits(n, base) + []) == Digits(n, base);
    Conversion.StrtoullInvertsDigits(n, base);
  }
}
