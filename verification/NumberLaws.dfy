/** What `strtol`, `strtoull` and `atoi` read of a whole text: blanks, a sign, the prefix of a base,
    digits, and something that is no digit, with the characters and limits written out. */
module NumberLaws {
  import opened Wrappers
  import opened Words
  import opened Numerals
  import opened Conversion

  datatype Sign = NoSign | Positive | Minus

  function SignText(sign: Sign): Text {
    match sign case NoSign => [] case Positive => ['+' as int] case Minus => ['-' as int]
  }

  /** The six characters that count as blanks. */
  predicate AllBlank(s: Text) { forall i :: 0 <= i < |s| ==> s[i] in [9, 10, 11, 12, 13, 32] }

  /** What is not taken for a blank or a sign. */
  predicate Begins(t: Text, sign: Sign) {
    sign == NoSign && t != [] ==> t[0] !in [9, 10, 11, 12, 13, 32] && t[0] != '+' as int && t[0] != '-' as int
  }

  function Whole(blanks: Text, sign: Sign, t: Text): Text { blanks + (SignText(sign) + t) }

  lemma {:induction false} LeadRead(blanks: Text, sign: Sign, t: Text)
    requires AllBlank(blanks) && Begins(t, sign)
    ensures var s, j := Whole(blanks, sign, t), |blanks| + |SignText(sign)|;
      AfterSign(s) == j && (Negative(s) <==> sign == Minus) && j <= |s| && s[j..] == t
  {
    var s := Whole(blanks, sign, t);
    SpacesStep(s, |blanks|);
    assert s[|blanks|..] == SignText(sign) + t;
  }

  /** Digits in the base, up to something else. */
  ghost predicate DigitsOf(d: Text, base: nat, tail: Text) {
    d != [] && AllDigits(d, base) && (tail == [] || DigitValue(tail[0]) >= base)
  }

  lemma {:induction false} DigitsRead(d: Text, base: nat, tail: Text)
    requires DigitsOf(d, base, tail)
    ensures Run(d + tail, base) == |d| && (d + tail)[..|d|] == d
  {
    var t := d + tail;
    assert t[..|d|] == d;
    RunIs(t, base, |d|);
  }

  function With(sign: Sign, v: nat): int { if sign == Minus then 0 - v else v }

  /** The number with its sign, and within its limits. */
  ghost function Signed64(sign: Sign, d: Text, base: nat): int
    requires AllDigits(d, base)
  {
    var v := With(sign, Value(d, base));
    if v < -0x8000_0000_0000_0000 then -0x8000_0000_0000_0000
    else if v > 0x7fff_ffff_ffff_ffff then 0x7fff_ffff_ffff_ffff else v
  }

  // ---------- strtol ----------

  /** The prefixes of the bases: 0x, 0b and 0o, in either case, 0 for octal; base 0 takes any of them
      and is otherwise ten. */
  predicate Prefixed(asked: nat, prefix: Text, base: nat, first: Char) {
    || (base == 16 && asked in {0, 16} && prefix in [Lit("0x"), Lit("0X")])
    || (base == 2 && asked in {0, 2} && prefix in [Lit("0b"), Lit("0B")])
    || (base == 8 && asked in {0, 8} && prefix in [Lit("0o"), Lit("0O"), Lit("0")])
    || (base == 10 && asked == 0 && prefix == [] && first != '0' as int)
    || (2 <= base <= 36 && asked == base && prefix == [] && first != '0' as int)
  }

  lemma {:induction false} Literals()
    ensures Lit("0x") == [48, 120] && Lit("0X") == [48, 88] && Lit("0b") == [48, 98] && Lit("0B") == [48, 66]
    ensures Lit("0o") == [48, 111] && Lit("0O") == [48, 79] && Lit("0") == [48]
  {}

  lemma {:induction false} PrefixRead(s: Text, j: nat, asked: nat, prefix: Text, base: nat, d: Text, tail: Text)
    requires j <= |s| && s[j..] == prefix + (d + tail) && DigitsOf(d, base, tail) && Prefixed(asked, prefix, base, d[0])
    ensures BaseOf(s, j, asked) == base && PrefixOf(s, j, asked) == |prefix|
  {
    hide AllDigits;
    Literals();
    var t := prefix + (d + tail);
    assert At(s, j) == At(t, 0) && At(s, j + 1) == At(t, 1);
    assert prefix == [48] ==> At(t, 1) == d[0];
    FirstDigit(d, base, tail);
  }

  lemma {:induction false} FirstDigit(d: Text, base: nat, tail: Text)
    requires DigitsOf(d, base, tail)
    ensures DigitValue(d[0]) < base
    ensures base == 8 ==> !IsX(d[0]) && !IsB(d[0]) && !IsO(d[0])
    ensures base <= 36 ==> d[0] !in [9, 10, 11, 12, 13, 32] && d[0] != '+' as int && d[0] != '-' as int
  {}

  /** `strtol` reads the number, clamped to `long`, up to the end of the digits, and sets ERANGE exactly
      when it was clamped. */
  lemma {:induction false} StrtolRead(blanks: Text, sign: Sign, asked: nat, prefix: Text, base: nat, d: Text,
                                      tail: Text)
    requires AllBlank(blanks) && DigitsOf(d, base, tail) && Prefixed(asked, prefix, base, d[0])
    ensures ValidBase(asked)
    ensures var s := Whole(blanks, sign, prefix + (d + tail));
      var v := With(sign, Value(d, base));
      StrtolReads(s, asked) ==
        Number(Signed64(sign, d, base), |blanks| + |SignText(sign)| + |prefix| + |d|, v != Signed64(sign, d, base))
  {
    hide AllDigits, Value, Run, PrefixOf, BaseOf, SignedRun, AfterSign, Negative, Signed64, SignText, Begins;
    hide Whole, Prefixed;
    var t := prefix + (d + tail);
    var s, j := Whole(blanks, sign, t), |blanks| + |SignText(sign)|;
    PrefixedBegins(sign, asked, prefix, base, d, tail);
    LeadRead(blanks, sign, t);
    PrefixRead(s, j, asked, prefix, base, d, tail);
    AskedIsValid(asked, prefix, base, d[0]);
    Behind(s, j, prefix, d + tail);
    RunRead(s, j + |prefix|, sign, d, base, tail, if At(s, j) == '0' as int then j + 1 else 0);
  }

  lemma {:induction false} AskedIsValid(asked: nat, prefix: Text, base: nat, first: Char)
    requires Prefixed(asked, prefix, base, first)
    ensures ValidBase(asked)
  {}

  lemma {:induction false} PrefixedBegins(sign: Sign, asked: nat, prefix: Text, base: nat, d: Text, tail: Text)
    requires DigitsOf(d, base, tail) && Prefixed(asked, prefix, base, d[0])
    ensures Begins(prefix + (d + tail), sign)
  {
    hide AllDigits;
    Literals();
    FirstDigit(d, base, tail);
  }

  lemma {:induction false} RunRead(s: Text, start: nat, sign: Sign, d: Text, base: nat, tail: Text, without: nat)
    requires start <= |s| && s[start..] == d + tail && DigitsOf(d, base, tail)
    ensures SignedRun(s, start, base, sign == Minus, without)
      == Number(Signed64(sign, d, base), start + |d|, With(sign, Value(d, base)) != Signed64(sign, d, base))
  {
    hide AllDigits, Value, Run;
    DigitsRead(d, base, tail);
  }

  /** A prefix without digits after it is a zero, and the end is behind the zero. */
  lemma {:induction false} LoneZero(blanks: Text, sign: Sign, asked: nat, x: Char, tail: Text)
    requires AllBlank(blanks) && asked in {0, 16} && (x == 'x' as int || x == 'X' as int)
    requires tail == [] || DigitValue(tail[0]) >= 16
    ensures StrtolReads(Whole(blanks, sign, ['0' as int, x] + tail), asked)
      == Number(0, |blanks| + |SignText(sign)| + 1, false)
  {
    hide AfterSign, Negative, SignText, AllDigits, SignedRun, Run;
    var t: Text := ['0' as int, x] + tail;
    var s, j := Whole(blanks, sign, t), |blanks| + |SignText(sign)|;
    LeadRead(blanks, sign, t);
    assert At(s, j) == At(t, 0) && At(s, j + 1) == At(t, 1);
    assert s[j + 2..] == s[j..][2..] == tail;
    NoRun(s, j + 2, tail, sign == Minus, j + 1);
  }

  lemma {:induction false} NoRun(s: Text, start: nat, tail: Text, negative: bool, without: nat)
    requires start <= |s| && s[start..] == tail && (tail == [] || DigitValue(tail[0]) >= 16)
    ensures SignedRun(s, start, 16, negative, without) == Number(0, without, false)
  {
    RunIs(tail, 16, 0);
    assert tail[..0] == [];
  }

  // ---------- strtoull ----------

  /** `strtoull` knows the prefix 0x; a zero makes base 0 octal. */
  predicate UnsignedPrefixed(asked: nat, prefix: Text, base: nat, first: Char, second: Char) {
    || (base == 16 && asked in {0, 16} && prefix in [Lit("0x"), Lit("0X")])
    || (prefix == [] && 2 <= base <= 36
        && (asked == base || (asked == 0 && base == (if first == '0' as int then 8 else 10)))
        && (asked in {0, 16} && first == '0' as int ==> second != 'x' as int && second != 'X' as int))
  }

  /** It reads the number, negated modulo 2^64 after a minus sign; beyond 2^64 - 1 it gives that and sets
      ERANGE. */
  lemma {:induction false} StrtoullRead(blanks: Text, sign: Sign, asked: nat, prefix: Text, base: nat, d: Text,
                                        tail: Text)
    requires AllBlank(blanks) && DigitsOf(d, base, tail)
    requires UnsignedPrefixed(asked, prefix, base, d[0], At(d + tail, 1))
    ensures var s, v := Whole(blanks, sign, prefix + (d + tail)), Value(d, base);
      StrtoullReads(s, asked) ==
        Number(if v > 0xffff_ffff_ffff_ffff then 0xffff_ffff_ffff_ffff
               else if sign == Minus && v > 0 then 0x1_0000_0000_0000_0000 - v else v,
               |blanks| + |SignText(sign)| + |prefix| + |d|, v > 0xffff_ffff_ffff_ffff)
  {
    hide AllDigits, Value, Run, UnsignedRun, AfterSign, Negative, SignText, UnsignedPrefixed, StrtoullReads, Begins;
    hide DigitsOf, Whole;
    var t := prefix + (d + tail);
    var s, j := Whole(blanks, sign, t), |blanks| + |SignText(sign)|;
    UnsignedBegins(sign, asked, prefix, base, d, tail);
    LeadRead(blanks, sign, t);
    Behind(s, j, prefix, d + tail);
    UnsignedFrom(s, j, asked, prefix, base, d, tail);
    UnsignedRead(s, j + |prefix|, sign, d, base, tail);
  }

  lemma {:induction false} Behind(s: Text, j: nat, prefix: Text, t: Text)
    requires j <= |s| && s[j..] == prefix + t
    ensures j + |prefix| <= |s| && s[j + |prefix|..] == t
  {
    assert s[j + |prefix|..] == s[j..][|prefix|..];
  }

  lemma {:induction false} UnsignedFrom(s: Text, j: nat, asked: nat, prefix: Text, base: nat, d: Text, tail: Text)
    requires j == AfterSign(s) && s[j..] == prefix + (d + tail) && DigitsOf(d, base, tail)
    requires UnsignedPrefixed(asked, prefix, base, d[0], At(d + tail, 1))
    ensures j + |prefix| <= |s| && base <= 36
    ensures StrtoullReads(s, asked) == UnsignedRun(s, j + |prefix|, base, Negative(s))
  {
    hide AllDigits, UnsignedRun, AfterSign, Negative;
    var t := prefix + (d + tail);
    Literals();
    assert At(s, j) == At(t, 0) && At(s, j + 1) == At(t, 1);
    assert prefix == [] ==> t == d + tail;
  }

  lemma {:induction false} UnsignedBegins(sign: Sign, asked: nat, prefix: Text, base: nat, d: Text, tail: Text)
    requires DigitsOf(d, base, tail) && UnsignedPrefixed(asked, prefix, base, d[0], At(d + tail, 1))
    ensures Begins(prefix + (d + tail), sign)
  {
    hide AllDigits;
    Literals();
    FirstDigit(d, base, tail);
  }

  lemma {:induction false} UnsignedRead(s: Text, start: nat, sign: Sign, d: Text, base: nat, tail: Text)
    requires start <= |s| && s[start..] == d + tail && DigitsOf(d, base, tail) && base <= 36
    ensures var v := Value(d, base);
      UnsignedRun(s, start, base, sign == Minus) ==
        Number(if v > 0xffff_ffff_ffff_ffff then 0xffff_ffff_ffff_ffff
               else if sign == Minus && v > 0 then 0x1_0000_0000_0000_0000 - v else v,
               start + |d|, v > 0xffff_ffff_ffff_ffff)
  {
    hide AllDigits, Value, Run;
    DigitsRead(d, base, tail);
  }

  // ---------- atoi ----------

  /** `atoi` reads decimal digits after spaces and a sign, clamped to `int`. */
  lemma {:induction false} AtoiRead(spaces: nat, sign: Sign, d: Text, tail: Text)
    requires DigitsOf(d, 10, tail)
    ensures var s := seq<Char>(spaces, _ => ' ' as int) + (SignText(sign) + (d + tail));
      var v := With(sign, Value(d, 10));
      AtoiReads(s) == if v < -0x8000_0000 then -0x8000_0000 else if v > 0x7fff_ffff then 0x7fff_ffff else v
  {
    hide AllDigits, Value, Run;
    var blanks := seq<Char>(spaces, _ => ' ' as int);
    var t := d + tail;
    var s := blanks + (SignText(sign) + t);
    FirstDigit(d, 10, tail);
    BlanksAre(s, spaces);
    var j := spaces + |SignText(sign)|;
    assert At(s, spaces) == At(SignText(sign) + t, 0);
    assert s[j..] == t;
    DigitsRead(d, 10, tail);
  }

  lemma {:induction false} BlanksAre(s: Text, k: nat)
    requires k <= |s| && (forall i :: 0 <= i < k ==> s[i] == ' ' as int) && At(s, k) != ' ' as int
    ensures Blanks(s) == k
  {}
}
