/** Reading numbers: `strtol`, `strtoull` and `atoi` of the C library. */
module Conversion {
  import opened Wrappers
  import opened Words
  import opened Numerals

  const LONG_MAX := 0x7fff_ffff_ffff_ffff
  const LONG_MIN := -0x8000_0000_0000_0000
  const ULLONG_MAX := 0xffff_ffff_ffff_ffff
  const INT_MAX := 0x7fff_ffff
  const INT_MIN := -0x8000_0000

  /** What a conversion returns, where it leaves the end pointer and whether it sets ERANGE. */
  datatype Number = Number(value: int, end: nat, range: bool)

  /** The number of blanks at the start. */
  function Spaces(s: Text): (k: nat)
    ensures k <= |s| && !IsSpace(At(s, k))
  {
    if s == [] || !IsSpace(s[0]) then 0 else 1 + Spaces(s[1..])
  }

  lemma {:induction false} SpacesStep(s: Text, k: nat)
    requires k <= |s| && forall i :: 0 <= i < k ==> IsSpace(s[i])
    ensures IsSpace(At(s, k)) ==> k < |s|
    ensures !IsSpace(At(s, k)) ==> k == Spaces(s)
    decreases k
  {
    if k > 0 {
      assert forall i :: 0 <= i < k - 1 ==> s[1..][i] == s[i + 1];
      SpacesStep(s[1..], k - 1);
    }
  }

  predicate Negative(s: Text) { At(s, Spaces(s)) == '-' as int }

  /** Where the number starts, after blanks and a sign. */
  function AfterSign(s: Text): (j: nat)
    ensures j <= |s|
  {
    var i := Spaces(s);
    if At(s, i) == '-' as int || At(s, i) == '+' as int then i + 1 else i
  }

  predicate IsX(c: Char) { c == 'x' as int || c == 'X' as int }

  predicate IsB(c: Char) { c == 'b' as int || c == 'B' as int }

  predicate IsO(c: Char) { c == 'o' as int || c == 'O' as int }

  // ---------- strtol ----------

  /** The base that the number is in: the one asked for or, for 0, the one its prefix tells. */
  function BaseOf(s: Text, j: nat, base: nat): nat {
    if base != 0 then base
    else if At(s, j) != '0' as int then 10
    else if IsX(At(s, j + 1)) then 16
    else if IsB(At(s, j + 1)) then 2
    else 8
  }

  /** The length of the prefix: a zero and the letter of the base. */
  function PrefixOf(s: Text, j: nat, base: nat): (k: nat)
    requires j <= |s|
    ensures j + k <= |s|
  {
    var b, c := BaseOf(s, j, base), At(s, j + 1);
    if At(s, j) != '0' as int then 0
    else if (b == 16 && IsX(c)) || (b == 2 && IsB(c)) || (b == 8 && IsO(c)) then 2
    else 1
  }

  ghost function Clamp(v: int, least: int, most: int): int {
    if v < least then least else if v > most then most else v
  }

  ghost predicate ValidBase(base: int) { base == 0 || 2 <= base <= 36 }

  /** The value of the run of digits at `start`, clamped to `long`, and where it ends. */
  ghost function SignedRun(s: Text, start: nat, base: nat, negative: bool, without: nat): Number
    requires start <= |s|
  {
    var t := s[start..];
    var run := Run(t, base);
    var v := Signed(negative, Value(t[..run], base));
    Number(Clamp(v, LONG_MIN, LONG_MAX), if run > 0 then start + run else without, v != Clamp(v, LONG_MIN, LONG_MAX))
  }

  /** The longest run of digits after blanks, sign and prefix, as a signed number clamped to the
      type. Without digits the end is after a lone zero, or at the start. */
  ghost function StrtolReads(s: Text, base: nat): Number
    requires ValidBase(base)
  {
    var j := AfterSign(s);
    SignedRun(s, j + PrefixOf(s, j, base), BaseOf(s, j, base), Negative(s), if At(s, j) == '0' as int then j + 1 else 0)
  }

  /** The largest value that can take any digit, and the last digit the next value can take. */
  function Cutoff(limit: nat, base: nat): nat requires base > 0 { limit / base }

  function Cutlim(limit: nat, base: nat): nat requires base > 0 { limit % base }

  /** The value with one more digit. */
  function Append(n: nat, base: nat, c: nat): nat { n * base + c }

  /** The cutoff test decides, without computing it, whether the next value is beyond the limit. */
  lemma {:induction false} CutoffTest(n: nat, c: nat, base: nat, limit: nat)
    requires 1 <= base && c < base
    ensures n > Cutoff(limit, base) || (n == Cutoff(limit, base) && c > Cutlim(limit, base))
      <==> Append(n, base, c) > limit
  {
    var q, r := limit / base, limit % base;
    assert limit == q * base + r;
    if n > q { assert (n - q) * base >= base by { Scale2(n - q, base); } assert n * base == q * base + (n - q) * base; }
    if n < q { assert (q - n) * base >= base by { Scale2(q - n, base); } assert q * base == n * base + (q - n) * base; }
  }

  /** There are no digits beyond 35, whatever the base. */
  function DigitBase(base: nat): nat { if base < 36 then base else 36 }

  /** The first `m` characters are digits; `n` is their value, unless that is beyond the limit. */
  ghost predicate Reads(t: Text, base: nat, m: nat, n: nat, overflow: bool, limit: nat) {
    && m <= |t| && AllDigits(t[..m], DigitBase(base)) && AllDigits(t[..m], base)
    && (if overflow then Value(t[..m], base) > limit else n == Value(t[..m], base) <= limit)
  }

  lemma {:induction false} ReadNothing(t: Text, base: nat, limit: nat)
    ensures Reads(t, base, 0, 0, false, limit)
  {}

  /** One more digit. */
  lemma {:induction false} ReadDigit(t: Text, base: nat, m: nat, n: nat, overflow: bool, limit: nat)
    requires 1 <= base && Reads(t, base, m, n, overflow, limit) && m < |t| && DigitValue(t[m]) < DigitBase(base)
    ensures var c := DigitValue(t[m]);
      if overflow || n > Cutoff(limit, base) || (n == Cutoff(limit, base) && c > Cutlim(limit, base))
      then Reads(t, base, m + 1, n, true, limit)
      else Append(n, base, c) <= limit && Reads(t, base, m + 1, Append(n, base, c), false, limit)
  {
    var c := DigitValue(t[m]);
    ValueStep(t, base, m);
    ValueGrows(t, base, m, m + 1);
    if !overflow { CutoffTest(n, c, base, limit); }
  }

  /** At the end of the digits, or anywhere once the value is beyond the limit. */
  lemma {:induction false} ReadEnd(t: Text, base: nat, m: nat, n: nat, overflow: bool, limit: nat)
    requires Reads(t, base, m, n, overflow, limit)
    requires overflow || (m < |t| ==> DigitValue(t[m]) >= DigitBase(base))
    ensures AllDigits(t[..Run(t, DigitBase(base))], base)
    ensures var v := Value(t[..Run(t, DigitBase(base))], base); if overflow then v > limit else n == v <= limit
    ensures (m < |t| ==> DigitValue(t[m]) >= DigitBase(base)) ==> m == Run(t, DigitBase(base))
  {
    DigitsOfBase(t[..Run(t, DigitBase(base))], base);
    if m < |t| && DigitValue(t[m]) < DigitBase(base) {
      RunAtLeast(t, DigitBase(base), m);
      ValueGrows(t, base, m, Run(t, DigitBase(base)));
    } else {
      RunIs(t, DigitBase(base), m);
    }
  }

  lemma {:induction false} SmallBase(base: nat)
    requires base <= 36
    ensures DigitBase(base) == base
  {}

  lemma {:induction false} DigitsOfBase(s: Text, base: nat)
    requires AllDigits(s, DigitBase(base))
    ensures AllDigits(s, base)
  {}

  /** `c & ~('a' ^ 'A')`: the distance from 'A' with the bit that tells the case cleared. */
  function Fold(d: nat): nat { if d / 32 % 2 == 1 then d - 32 else d }

  method SkipSpaces(str: Text) returns (p: nat)
    ensures p == Spaces(str)
  {
    p := 0;
    while IsSpace(At(str, p))
      invariant p <= |str| && forall i :: 0 <= i < p ==> IsSpace(str[i])
      decreases |str| - p
    {
      SpacesStep(str, p);
      p := p + 1;
    }
    SpacesStep(str, p);
  }

  method Strtol(str: Text, base: int, wantsEnd: bool) returns (value: int, end: Option<nat>, erange: bool)
    ensures !ValidBase(base) ==> value == 0 && end == None && !erange
    ensures ValidBase(base) ==> var r := StrtolReads(str, base);
      (value == r.value && erange == r.range && end == (if wantsEnd then Some(r.end) else None))
  {
    if base < 0 || base == 1 || base > 36 { return 0, None, false; }
    hide SignedRun;
    var isNeg, b, p, endp := ScanPrefix(str, base);
    value, end, erange := ScanDigits(str, p, b, isNeg, endp, wantsEnd);
  }

  /** The first half of `strtol`: blanks, the sign and the prefix. */
  method ScanPrefix(str: Text, asked: nat) returns (isNeg: bool, base: nat, p: nat, endp: nat)
    requires ValidBase(asked)
    ensures isNeg == Negative(str) && 2 <= base <= 36
    ensures var j := AfterSign(str);
      (base == BaseOf(str, j, asked) && p == j + PrefixOf(str, j, asked) <= |str|
       && endp == (if At(str, j) == '0' as int then j + 1 else 0))
  {
    base, endp, isNeg := asked, 0, false;
    p := SkipSpaces(str);
    if At(str, p) == '+' as int {
      p := p + 1;
    } else if At(str, p) == '-' as int {
      isNeg, p := true, p + 1;
    }
    if At(str, p) == '0' as int {
      p := p + 1;
      endp := p;
      if base == 16 && IsX(At(str, p)) {
        p := p + 1;
      } else if base == 2 && IsB(At(str, p)) {
        p := p + 1;
      } else if base == 8 && IsO(At(str, p)) {
        p := p + 1;
      } else if base == 0 {
        if IsX(At(str, p)) {
          base, p := 16, p + 1;
        } else if IsB(At(str, p)) {
          base, p := 2, p + 1;
        } else {
          base := 8;
          if IsO(At(str, p)) { p := p + 1; }
        }
      }
    } else if base == 0 {
      base := 10;
    }
  }

  /** The second half: the digits, with the test for overflow before each is added. */
  method ScanDigits(str: Text, start: nat, base: nat, isNeg: bool, lone: nat, wantsEnd: bool)
    returns (value: int, end: Option<nat>, erange: bool)
    requires start <= |str| && 2 <= base <= 36
    ensures var r := SignedRun(str, start, base, isNeg, lone);
      (value == r.value && erange == r.range && end == (if wantsEnd then Some(r.end) else None))
  {
    hide Reads, Run, AllDigits, Value, DigitValue, IsDigit, IsUpper, IsLower, Cutoff, Cutlim, Append, DigitBase, Fold;
    SmallBase(base);
    ghost var t := str[start..];
    var p, endp := start, lone;
    var limit: nat := if isNeg then -LONG_MIN else LONG_MAX;
    var cutoff, cutlim := Cutoff(limit, base), Cutlim(limit, base);
    var n: Word := 0;
    var overflow := false;
    ReadNothing(t, base, limit);
    while true
      invariant start <= p <= |str| && Reads(t, base, p - start, n, overflow, limit)
      invariant endp == if p > start then p else lone
      decreases |str| - p
    {
      var at := At(str, p);
      var c: int;
      DigitAt(at);
      if at >= 'A' as int {
        c := Fold(at - 'A' as int) + 10;
      } else if at <= '9' as int {
        c := at - '0' as int;
      } else {
        break;
      }
      if c < 0 || c >= base { break; }
      assert p < |str| && t[p - start] == str[p];
      ReadDigit(t, base, p - start, n, overflow, limit);
      p := p + 1;
      endp := p;
      if overflow {
        if wantsEnd { continue; }
        break;
      }
      if n > cutoff || (n == cutoff && c > cutlim) {
        overflow := true;
        continue;
      }
      n := Append(n, base, c) % TWO_64;
    }
    assert p - start < |t| ==> t[p - start] == At(str, p);
    ReadEnd(t, base, p - start, n, overflow, limit);
    end := if wantsEnd then Some(endp) else None;
    if overflow { return if isNeg then LONG_MIN else LONG_MAX, end, true; }
    return if isNeg then AsLong((TWO_64 - n) % TWO_64) else AsLong(n), end, false;
  }

  /** The tests of `strtol` on a character tell its value as a digit. */
  lemma {:induction false} DigitAt(at: Char)
    ensures var c := if at >= 'A' as int then Fold(at - 'A' as int) + 10
      else if at <= '9' as int then at - '0' as int else -1;
      if 0 <= c < 36 then c == DigitValue(at) else DigitValue(at) == 36
    ensures DigitValue(0) == 36
  {}

  /** The signed number with the bits of the word. */
  function AsLong(w: Word): int { if w > LONG_MAX then w - TWO_64 else w }

  lemma {:induction false} RunAtLeast(t: Text, base: nat, m: nat)
    requires m <= |t| && AllDigits(t[..m], base)
    ensures m <= Run(t, base)
  {
    assert forall i :: 0 <= i < m ==> t[..m][i] == t[i];
  }

  // ---------- strtoull ----------

  /** The value of the run of digits at `start`, clamped to `unsigned long long` and negated in it. */
  ghost function UnsignedRun(s: Text, start: nat, base: nat, negative: bool): Number
    requires start <= |s|
  {
    var t := s[start..];
    var run := Run(t, DigitBase(base));
    assert AllDigits(t[..run], base) by { DigitsOfBase(t[..run], base); }
    var v := Value(t[..run], base);
    Number(if v > ULLONG_MAX then ULLONG_MAX else if negative then (TWO_64 - v) % TWO_64 else v,
           if run > 0 then start + run else 0, v > ULLONG_MAX)
  }

  /** Only base 16 has a prefix; the base a zero tells without it is 8. Other bases than those up to 36
      are not refused: a negative one has no digits, and a larger one gives the digits their places. */
  ghost function StrtoullReads(s: Text, base: int): Number {
    var j := AfterSign(s);
    var hex := (base == 0 || base == 16) && At(s, j) == '0' as int && IsX(At(s, j + 1));
    if hex then UnsignedRun(s, j + 2, 16, Negative(s))
    else UnsignedRun(s, j, if base > 0 then base else if base < 0 then 0
      else if At(s, j) == '0' as int then 8 else 10, Negative(s))
  }

  method Strtoull(nptr: Text, base: int, wantsEnd: bool) returns (acc: Word, end: Option<nat>, erange: bool)
    requires INT_MIN <= base <= INT_MAX
    ensures var r := StrtoullReads(nptr, base);
      (acc == r.value && erange == r.range && end == (if wantsEnd then Some(r.end) else None))
  {
    hide UnsignedRun;
    var base := base;
    var s := SkipSpaces(nptr);
    var neg := false;
    if At(nptr, s) == '-' as int {
      neg, s := true, s + 1;
    } else if At(nptr, s) == '+' as int {
      s := s + 1;
    }
    if (base == 0 || base == 16) && At(nptr, s) == '0' as int && IsX(At(nptr, s + 1)) {
      base, s := 16, s + 2;
    }
    if base == 0 { base := if At(nptr, s) == '0' as int then 8 else 10; }
    acc, end, erange := Accumulate(nptr, s, base, neg, wantsEnd);
  }

  /** The loop of `strtoull` and what it returns. */
  method Accumulate(nptr: Text, start: nat, base: int, neg: bool, wantsEnd: bool)
    returns (acc: Word, end: Option<nat>, erange: bool)
    requires start <= |nptr| && INT_MIN <= base <= INT_MAX && base != 0
    ensures var r := UnsignedRun(nptr, start, if base < 0 then 0 else base, neg);
      (acc == r.value && erange == r.range && end == (if wantsEnd then Some(r.end) else None))
  {
    hide Reads, Run, AllDigits, Value, Cutoff, Cutlim, Append;
    ghost var t := nptr[start..];
    ghost var b: nat := if base < 0 then 0 else base;
    var unsigned: nat := if base < 0 then TWO_64 + base else base;
    var cutoff, cutlim := Cutoff(ULLONG_MAX, unsigned), Cutlim(ULLONG_MAX, unsigned);
    var s := start;
    acc := 0;
    var any := 0;
    ReadNothing(t, b, ULLONG_MAX);
    while true
      invariant start <= s <= |nptr| && Reads(t, b, s - start, acc, any < 0, ULLONG_MAX)
      invariant any == 0 <==> s == start
      decreases |nptr| - s
    {
      var c: int := At(nptr, s);
      if IsDigit(c) {
        c := c - '0' as int;
      } else if IsAlpha(c) {
        c := c - (if IsUpper(c) then 'A' as int - 10 else 'a' as int - 10);
      } else {
        break;
      }
      if c >= base { break; }
      assert c == DigitValue(At(nptr, s)) && s < |nptr| && t[s - start] == nptr[s];
      ReadDigit(t, base, s - start, acc, any < 0, ULLONG_MAX);
      if any < 0 || acc > cutoff || (acc == cutoff && c > cutlim) {
        any := -1;
      } else {
        any := 1;
        acc := Append(acc, base, c) % TWO_64;
      }
      s := s + 1;
    }
    assert s - start < |t| ==> t[s - start] == At(nptr, s);
    ReadEnd(t, b, s - start, acc, any < 0, ULLONG_MAX);
    erange := any < 0;
    if any < 0 {
      acc := ULLONG_MAX;
    } else if neg {
      acc := (TWO_64 - acc) % TWO_64;
    }
    end := if wantsEnd then Some(if any != 0 then s else 0) else None;
  }

  // ---------- atoi ----------

  /** The number of ' ' characters at the start. */
  function Blanks(s: Text): (k: nat)
    ensures k <= |s| && At(s, k) != ' ' as int && forall i :: 0 <= i < k ==> s[i] == ' ' as int
  {
    if s == [] || s[0] != ' ' as int then 0
    else
      var k := Blanks(s[1..]);
      assert forall i :: 1 <= i < k + 1 ==> s[i] == s[1..][i - 1];
      k + 1
  }

  /** The value of the run of decimal digits at `start`, clamped to `int`. */
  ghost function IntRun(s: Text, start: nat, negative: bool): int
    requires start <= |s|
  {
    var t := s[start..];
    Clamp(Signed(negative, Value(t[..Run(t, 10)], 10)), INT_MIN, INT_MAX)
  }

  /** The decimal number after blanks and a sign. */
  ghost function AtoiReads(s: Text): int {
    var i := Blanks(s);
    IntRun(s, if At(s, i) == '-' as int || At(s, i) == '+' as int then i + 1 else i, At(s, i) == '-' as int)
  }

  method Atoi(str: Text) returns (value: int)
    ensures value == AtoiReads(str)
  {
    hide IntRun;
    var sign := 1;
    var i: nat := 0;
    while At(str, i) == ' ' as int
      invariant i <= Blanks(str)
      decreases |str| - i
    {
      i := i + 1;
    }
    if At(str, i) == '-' as int || At(str, i) == '+' as int {
      sign := if At(str, i) == '-' as int then -1 else 1;
      i := i + 1;
    }
    value := AtoiDigits(str, i, sign);
  }

  /** The digits of `atoi`. The cutoff is that of a positive `int`; a negative number at its limit
      is clamped to the value it has. */
  method AtoiDigits(str: Text, start: nat, sign: int) returns (value: int)
    requires start <= |str| && (sign == 1 || sign == -1)
    ensures value == IntRun(str, start, sign == -1)
  {
    hide Reads, Run, AllDigits, Value, DigitValue;
    ghost var t := str[start..];
    var i, base := start, 0;
    ReadNothing(t, 10, INT_MAX);
    while '0' as int <= At(str, i) <= '9' as int
      invariant start <= i <= |str| && base >= 0 && Reads(t, 10, i - start, base, false, INT_MAX)
      decreases |str| - i
    {
      assert t[i - start] == str[i];
      DecimalDigit(At(str, i));
      ReadDigit(t, 10, i - start, base, false, INT_MAX);
      if base > INT_MAX / 10 || (base == INT_MAX / 10 && At(str, i) - '0' as int > 7) {
        ReadEnd(t, 10, i - start + 1, base, true, INT_MAX);
        if sign == 1 { return INT_MAX; } else { return INT_MIN; }
      }
      base := 10 * base + (At(str, i) - '0' as int);
      i := i + 1;
    }
    assert i - start < |t| ==> t[i - start] == At(str, i);
    DecimalDigit(At(str, i));
    ReadEnd(t, 10, i - start, base, false, INT_MAX);
    return if sign == 1 then base else -base;
  }

  lemma {:induction false} DecimalDigit(c: Char)
    ensures if IsDigit(c) then DigitValue(c) == c - '0' as int < 10 else DigitValue(c) >= 10
  {}

  // ---------- Reading back what was written ----------

  lemma {:induction false} DigitsHead(n: nat, base: nat)
    requires 2 <= base <= 36
    ensures DigitValue(Digits(n, base)[0]) < base && (Digits(n, base)[0] == '0' as int ==> n == 0)
    decreases n
  {
    if n >= base {
      Shrinks(n, base);
      DigitsHead(n / base, base);
    }
  }

  /** The digits of a number are one run, with its value. */
  lemma {:induction false} DigitsRun(n: nat, base: nat)
    requires 2 <= base <= 36
    ensures Run(Digits(n, base), base) == |Digits(n, base)|
    ensures Value(Digits(n, base)[..|Digits(n, base)|], base) == n
  {
    var s := Digits(n, base);
    DigitsHaveValue(n, base);
    assert s[..|s|] == s;
    RunIs(s, base, |s|);
  }

  /** `strtoull` gives back every 64-bit number written in any base, reads the whole text and
      does not set ERANGE. */
  lemma {:induction false} StrtoullInvertsDigits(n: Word, base: nat)
    requires 2 <= base <= 36
    ensures StrtoullReads(Digits(n, base), base) == Number(n, |Digits(n, base)|, false)
  {
    var s := Digits(n, base);
    DigitsHead(n, base);
    DigitsRun(n, base);
    assert Spaces(s) == 0 && AfterSign(s) == 0;
    if base == 16 && At(s, 0) == '0' as int {
      assert n == 0 && |s| == 1;
    }
    assert s[0..] == s;
  }

  /** `strtol` gives back every signed number but the least, written in decimal. */
  lemma {:induction false} StrtolInvertsDecimal(n: int)
    requires LONG_MIN < n <= LONG_MAX
    ensures StrtolReads(Decimal(n), 10) == Number(n, |Decimal(n)|, false)
  {
    var s := Decimal(n);
    var m := if n < 0 then -n else n;
    var d := Digits(m, 10);
    DigitsHead(m, 10);
    DigitsRun(m, 10);
    assert Spaces(s) == 0 && Negative(s) == (n < 0);
    var j := AfterSign(s);
    assert s[j..] == d;
    if m == 0 {
      assert s == ['0' as int] && PrefixOf(s, j, 10) == 1 && s[1..] == [];
    } else {
      assert PrefixOf(s, j, 10) == 0;
    }
  }

  /** `atoi` gives back every `int` written in decimal. */
  lemma {:induction false} AtoiInvertsDecimal(n: int)
    requires INT_MIN <= n <= INT_MAX
    ensures AtoiReads(Decimal(n)) == n
  {
    var s := Decimal(n);
    var m := if n < 0 then -n else n;
    var d := Digits(m, 10);
    DigitsHead(m, 10);
    DigitsRun(m, 10);
    assert Blanks(s) == 0;
    assert s[(if n < 0 then 1 else 0)..] == d;
  }
}
