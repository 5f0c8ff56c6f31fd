/** C strings and the numbers written in them. */
module Numerals {
  import opened Words

  /** A `char` is signed on this machine. */
  type Char = c: int | -128 <= c < 128

  type Text = seq<Char>

  /** The text of a string literal. */
  function Lit(s: string): (t: Text)
    requires forall c :: c in s ==> c as int < 128
    ensures |t| == |s| && forall i :: 0 <= i < |s| ==> t[i] == s[i] as int
  {
    if s == "" then [] else
      assert s[0] in s && forall c :: c in s[1..] ==> c in s;
      [s[0] as int] + Lit(s[1..])
  }

  /** What a pointer into a string reads: past the characters stands a NUL. */
  function At(s: Text, i: nat): Char { if i < |s| then s[i] else 0 }

  predicate IsSpace(c: Char) { c == 32 || 9 <= c <= 13 }

  predicate IsDigit(c: Char) { '0' as int <= c <= '9' as int }

  predicate IsUpper(c: Char) { 'A' as int <= c <= 'Z' as int }

  predicate IsLower(c: Char) { 'a' as int <= c <= 'z' as int }

  predicate IsAlpha(c: Char) { IsUpper(c) || IsLower(c) }

  /** The value of a digit in the bases up to 36, letters of either case; 36 for any other
      character. */
  function DigitValue(c: Char): (d: nat)
    ensures d <= 36
  {
    if IsDigit(c) then c - '0' as int
    else if IsUpper(c) then c - 'A' as int + 10
    else if IsLower(c) then c - 'a' as int + 10
    else 36
  }

  /** The digit in lower case. */
  function DigitChar(d: nat): (c: Char)
    requires d < 36
    ensures DigitValue(c) == d && c != 0 && !IsSpace(c) && c != '-' as int && c != '+' as int
  {
    if d < 10 then d + '0' as int else d - 10 + 'a' as int
  }

  /** The number with this absolute value. */
  function Signed(negative: bool, v: nat): int { if negative then 0 - v else v }

  ghost predicate AllDigits(s: Text, base: nat) { forall i :: 0 <= i < |s| ==> DigitValue(s[i]) < base }

  /** The length of the longest run of digits at the start of the text. */
  function Run(s: Text, base: nat): (k: nat)
    ensures k <= |s| && AllDigits(s[..k], base)
    ensures k < |s| ==> DigitValue(s[k]) >= base
  {
    if s == [] || DigitValue(s[0]) >= base then 0
    else
      var k := Run(s[1..], base);
      assert forall i :: 1 <= i < k + 1 ==> s[i] == s[1..][..k][i - 1];
      k + 1
  }

  /** The run is the only prefix of digits with no digit after it. */
  lemma {:induction false} RunIs(s: Text, base: nat, k: nat)
    requires k <= |s| && AllDigits(s[..k], base) && (k < |s| ==> DigitValue(s[k]) >= base)
    ensures Run(s, base) == k
  {
    var r := Run(s, base);
    assert forall i :: 0 <= i < k ==> s[..k][i] == s[i];
    assert forall i :: 0 <= i < r ==> s[..r][i] == s[i];
  }

  /** The number a text of digits stands for. */
  function Value(s: Text, base: nat): nat
    requires AllDigits(s, base)
    decreases |s|
  {
    if s == [] then 0
    else
      assert forall i :: 0 <= i < |s| - 1 ==> s[..|s| - 1][i] == s[i];
      Value(s[..|s| - 1], base) * base + DigitValue(s[|s| - 1])
  }

  lemma {:induction false} ValueStep(s: Text, base: nat, k: nat)
    requires k < |s| && AllDigits(s[..k], base) && DigitValue(s[k]) < base
    ensures AllDigits(s[..k + 1], base) && Value(s[..k + 1], base) == Value(s[..k], base) * base + DigitValue(s[k])
  {
    assert forall i :: 0 <= i < k ==> s[..k + 1][i] == s[..k][i];
    assert s[..k + 1][..k] == s[..k];
  }

  /** More digits do not make the number smaller. */
  lemma {:induction false} ValueGrows(s: Text, base: nat, k: nat, n: nat)
    requires 1 <= base && k <= n <= |s| && AllDigits(s[..n], base)
    ensures AllDigits(s[..k], base) && Value(s[..k], base) <= Value(s[..n], base)
    decreases n
  {
    assert forall i :: 0 <= i < k ==> s[..k][i] == s[..n][i];
    if k < n {
      assert forall i :: 0 <= i < n - 1 ==> s[..n - 1][i] == s[..n][i];
      ValueGrows(s, base, k, n - 1);
      assert s[..n][n - 1] == s[n - 1];
      ValueStep(s, base, n - 1);
      var v := Value(s[..n - 1], base);
      assert v * base >= v by { Scale(v, base); }
    }
  }

  lemma {:induction false} Scale(v: nat, base: nat)
    requires base >= 1
    ensures v * base >= v
  {}

  // ---------- Writing numbers ----------

  /** The digits of a number, most significant first. */
  function Digits(n: nat, base: nat): (s: Text)
    requires 2 <= base <= 36
    ensures s != []
    decreases n
  {
    if n < base then [DigitChar(n)] else Shrinks(n, base); Digits(n / base, base) + [DigitChar(n % base)]
  }

  /** A number in decimal with its sign. */
  function Decimal(n: int): Text {
    if n < 0 then ['-' as int] + Digits(-n, 10) else Digits(n, 10)
  }

  lemma {:induction false} Shrinks(n: nat, base: nat)
    requires 2 <= base <= n
    ensures 0 < n / base < n && n == n / base * base + n % base
  {
    assert n == n / base * base + n % base;
    Double(n / base, base);
  }

  lemma {:induction false} Double(v: nat, base: nat)
    requires base >= 2
    ensures v * base >= 2 * v
  {}

  /** The digits of a number stand for it. */
  lemma {:induction false} DigitsHaveValue(n: nat, base: nat)
    requires 2 <= base <= 36
    ensures AllDigits(Digits(n, base), base) && Value(Digits(n, base), base) == n
    decreases n
  {
    var s := Digits(n, base);
    if n < base {
      assert s[..0] == [];
      assert Value(s, base) == Value([], base) * base + n;
    } else {
      Shrinks(n, base);
      DigitsHaveValue(n / base, base);
      var t := Digits(n / base, base);
      assert s[..|t|] == t && s[..|t| + 1] == s;
      ValueStep(s, base, |t|);
    }
  }

  /** A text of digits in lower case without a leading zero. */
  ghost predicate Canonical(s: Text, base: nat) {
    && s != [] && AllDigits(s, base) && (|s| > 1 ==> s[0] != '0' as int)
    && forall i :: 0 <= i < |s| ==> !IsUpper(s[i])
  }

  /** A number is written without a leading zero, and no other text of this kind stands for it. */
  lemma {:induction false} DigitsUnique(s: Text, base: nat)
    requires 2 <= base <= 36 && Canonical(s, base)
    ensures Digits(Value(s, base), base) == s
    decreases |s|
  {
    hide Value, DigitValue, DigitChar, IsUpper;
    var d := DigitValue(s[|s| - 1]);
    LastDigit(s, base);
    var t := s[..|s| - 1];
    assert s == t + [s[|s| - 1]];
    assert forall i :: 0 <= i < |t| ==> t[i] == s[i];
    if t != [] {
      CanonicalPositive(t, base);
      DigitsUnique(t, base);
      DivMod(Value(t, base), d, base);
    }
  }

  lemma {:induction false} LastDigit(s: Text, base: nat)
    requires 2 <= base <= 36 && Canonical(s, base)
    ensures var t, d := s[..|s| - 1], DigitValue(s[|s| - 1]);
      (AllDigits(t, base) && Value(s, base) == Value(t, base) * base + d && (t == [] ==> Value(s, base) == d)
       && d < 36 && DigitChar(d) == s[|s| - 1])
  {
    assert forall i :: 0 <= i < |s| - 1 ==> s[..|s| - 1][i] == s[i];
    assert |s| == 1 ==> Value(s[..|s| - 1], base) == 0;
  }

  lemma {:induction false} CanonicalPositive(s: Text, base: nat)
    requires 2 <= base <= 36 && s != [] && AllDigits(s, base) && s[0] != '0' as int
    ensures Value(s, base) > 0
  {
    assert AllDigits(s[..0], base) && s[..|s|] == s;
    ValueStep(s, base, 0);
    ValueGrows(s, base, 1, |s|);
  }

  lemma {:induction false} DivMod(q: nat, r: nat, base: nat)
    requires r < base && q > 0
    ensures (q * base + r) / base == q && (q * base + r) % base == r && q * base + r >= base
  {
    var n := q * base + r;
    assert n == n / base * base + n % base;
    Quotients(n / base, n % base, q, r, base);
    Scale2(q, base);
  }

  lemma {:induction false} Scale2(v: nat, base: nat)
    requires v >= 1
    ensures v * base >= base
  {}

  lemma {:induction false} Quotients(q0: int, r0: nat, q1: int, r1: nat, base: nat)
    requires q0 * base + r0 == q1 * base + r1 && r0 < base && r1 < base
    ensures q0 == q1 && r0 == r1
  {
    var d := q0 - q1;
    assert d * base == r1 - r0;
    assert d >= 1 ==> d * base >= base;
    assert d <= -1 ==> d * base + base <= 0;
  }

  lemma {:induction false} DigitsNoNul(n: nat, base: nat)
    requires 2 <= base <= 36
    ensures 0 !in Digits(n, base)
    decreases n
  {
    if n >= base {
      Shrinks(n, base);
      DigitsNoNul(n / base, base);
    }
  }

  /** A number below 2^k has at most k digits, in any base. */
  lemma {:induction false} DigitsLength(n: nat, base: nat, k: nat)
    requires 2 <= base <= 36 && 1 <= k && n < Pow2(k)
    ensures |Digits(n, base)| <= k
    decreases k
  {
    if n >= base {
      Shrinks(n, base);
      assert Pow2(1) == 2;
      assert n / base < Pow2(k - 1) by { Double(n / base, base); }
      DigitsLength(n / base, base, k - 1);
    }
  }

  /** In base two the bound is reached. */
  lemma {:induction false} BinaryLength(k: nat)
    requires 1 <= k
    ensures |Digits(Pow2(k) - 1, 2)| == k
    decreases k
  {
    if k > 1 {
      assert Pow2(k) == 2 * Pow2(k - 1);
      BinaryLength(k - 1);
      assert (Pow2(k) - 1) / 2 == Pow2(k - 1) - 1;
    }
  }
}
