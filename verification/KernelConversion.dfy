/** Numbers and text in the kernel: `uintToString`, `intToString` and `stringToInt`. */
module KernelConversion {
  import opened Words
  import opened Numerals
  import Conversion
  import Printf

  const LIMIT := 0x8000_0000_0000_0000

  predicate IsBase(base: int) { base == 2 || base == 8 || base == 10 || base == 16 }

  /** "0123456789abcdef" */
  const DIGITS: Text := seq<Char>(16, d requires 0 <= d < 16 => DigitChar(d))

  method UintToString(number: Word, base: nat) returns (str: Text)
    requires IsBase(base)
    ensures str == Digits(number, base)
  {
    str := [];
    if number == 0 { return ['0' as int]; }
    var value: nat := number;
    Printf.PendingStart(number, base);
    while value != 0
      invariant Printf.Pending(number, base, value, str) && (value > 0 || str != [])
      decreases value
    {
      hide Printf.Pending, Digits, Printf.Last, Printf.Rest;
      var remaining := Printf.Last(value, base);
      Printf.PendingStep(number, base, value, str);
      Printf.DigitsUnfold(value, base);
      Lower(value, base);
      str := str + [DIGITS[remaining]];
      value := Printf.Rest(value, base);
    }
    Printf.PendingEnd(number, base, str);
    str := Printf.Flip(str);
  }

  lemma {:induction false} Lower(value: nat, base: nat)
    requires 2 <= base && value > 0
    ensures Printf.Rest(value, base) < value
  {
    assert value == value / base * base + value % base;
    Double(value / base, base);
  }

  /** Negating the least number overflows. A sign is written in every base. */
  method IntToString(number: int, base: nat) returns (str: Text)
    requires IsBase(base) && -LIMIT < number < LIMIT
    ensures str == if number < 0 then ['-' as int] + Digits(-number, base) else Digits(number, base)
  {
    if number < 0 {
      var digits := UintToString(-number, base);
      str := ['-' as int] + digits;
    } else {
      str := UintToString(number, base);
    }
  }

  /** The digit of a character in 64 bits; any character has one. */
  function DigitOf(c: Char): Word {
    if IsDigit(c) then c - '0' as int
    else if IsLower(c) then c - 'a' as int + 10
    else (c - 'A' as int + 10) % TWO_64
  }

  predicate Ends(c: Char) { c == 0 || c == ' ' as int }

  /** The value of the characters before the first NUL or space, in 64 bits. */
  function Reading(str: Text, base: nat, res: Word): Word {
    if str == [] || Ends(str[0]) then res
    else Reading(str[1..], base, Conversion.Append(res, base, DigitOf(str[0])) % TWO_64)
  }

  method StringToInt(str: Text, base: nat) returns (res: Word)
    requires IsBase(base)
    ensures res == Reading(str, base, 0)
  {
    res := 0;
    var i := 0;
    assert str[0..] == str;
    while i < |str| && str[i] != 0 && str[i] != ' ' as int
      invariant 0 <= i <= |str| && Reading(str, base, 0) == Reading(str[i..], base, res)
    {
      var digit := DigitOf(str[i]);
      assert str[i..][1..] == str[i + 1..];
      res := Conversion.Append(res, base, digit) % TWO_64;
      i := i + 1;
    }
  }

  /** On digits that are followed by the end, a NUL or a space, `stringToInt` is their value. */
  lemma {:induction false} ReadsDigits(s: Text, rest: Text, base: nat, k: nat)
    requires 2 <= base <= 36 && k <= |s| && AllDigits(s, base) && Value(s, base) < TWO_64
    requires (rest == [] || Ends(rest[0])) && AllDigits(s[..k], base) && Value(s[..k], base) < TWO_64
    ensures Reading((s + rest)[k..], base, Value(s[..k], base)) == Value(s, base)
    decreases |s| - k
  {
    hide Conversion.Append, AllDigits, Value;
    var t := (s + rest)[k..];
    if k == |s| {
      assert t == rest && s[..k] == s;
    } else {
      assert t[0] == s[k] && t[1..] == (s + rest)[k + 1..];
      assert s[..|s|] == s;
      NextDigit(s, base, k);
      DigitIs(s[k], base);
      ReadsDigits(s, rest, base, k + 1);
    }
  }

  lemma {:induction false} NextDigit(s: Text, base: nat, k: nat)
    requires 2 <= base <= 36 && k < |s| && AllDigits(s, base)
    ensures AllDigits(s[..k], base) && AllDigits(s[..k + 1], base) && DigitValue(s[k]) < base
    ensures Value(s[..k + 1], base) == Conversion.Append(Value(s[..k], base), base, DigitValue(s[k])) <= Value(s, base)
  {
    assert s[..|s|] == s;
    ValueGrows(s, base, k, |s|);
    ValueStep(s, base, k);
    ValueGrows(s, base, k + 1, |s|);
  }

  lemma {:induction false} DigitIs(c: Char, base: nat)
    requires DigitValue(c) < base <= 36
    ensures DigitOf(c) == DigitValue(c) && !Ends(c)
  {}

  /** `stringToInt` gives back what `uintToString` wrote. */
  lemma {:induction false} IntInvertsString(n: Word, base: nat)
    requires IsBase(base)
    ensures Reading(Digits(n, base), base, 0) == n
  {
    var s := Digits(n, base);
    DigitsHaveValue(n, base);
    assert s + [] == s && s[0..] == s && s[..0] == [];
    ReadsDigits(s, [], base, 0);
  }
}
