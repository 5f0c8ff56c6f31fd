/** Writing numbers and formatted text: `itoa`, `utoa` and `format_to_buffer` of the C library. */
module Printf {
  import opened Wrappers
  import opened Words
  import opened Numerals
  import Conversion

  const NUMBER_BUFFER := 65

  function Flip(s: Text): (r: Text)
    ensures |r| == |s|
  {
    seq(|s|, i requires 0 <= i < |s| => s[|s| - 1 - i])
  }

  lemma {:induction false} FlipAppend(s: Text, c: Char)
    ensures Flip(s + [c]) == [c] + Flip(s)
  {}

  method StrReverse(str: array<Char>, length: nat)
    requires length <= str.Length
    modifies str
    ensures str[..length] == Flip(old(str[..length])) && str[length..] == old(str[length..])
  {
    var start, end := 0, length - 1;
    while start < end
      invariant start + end == length - 1 && 0 <= start <= length
      invariant forall k :: 0 <= k < start ==> str[k] == old(str[length - 1 - k]) && str[length - 1 - k] == old(str[k])
      invariant forall k :: start <= k <= end ==> str[k] == old(str[k])
      invariant forall k :: length <= k < str.Length ==> str[k] == old(str[k])
    {
      var tmp := str[start];
      str[start] := str[end];
      str[end] := tmp;
      end := end - 1;
      start := start + 1;
    }
  }

  /** The last digit of a number and what is left without it. */
  function Last(n: nat, base: nat): (d: nat)
    requires base > 0
    ensures d < base
  {
    n % base
  }

  function Rest(n: nat, base: nat): nat
    requires base > 0
  {
    n / base
  }

  /** The digits of `n` that are not yet in the buffer, then those that are. */
  ghost predicate Pending(all: nat, base: nat, n: nat, written: Text)
    requires 2 <= base <= 36
  {
    Digits(all, base) == (if n == 0 && written != [] then [] else Digits(n, base)) + Flip(written)
  }

  lemma {:induction false} DigitsUnfold(n: nat, base: nat)
    requires 2 <= base <= 36
    ensures if n < base then Rest(n, base) == 0 && Digits(n, base) == [DigitChar(Last(n, base))]
            else Rest(n, base) > 0 && Digits(n, base) == Digits(Rest(n, base), base) + [DigitChar(Last(n, base))]
  {
    if n < base {
      Quotients(n / base, n % base, 0, n, base);
    } else {
      Shrinks(n, base);
    }
  }

  lemma {:induction false} PendingStep(all: nat, base: nat, n: nat, written: Text)
    requires 2 <= base <= 36 && Pending(all, base, n, written) && (n > 0 || written == [])
    ensures Pending(all, base, Rest(n, base), written + [DigitChar(Last(n, base))])
  {
    hide Digits;
    DigitsUnfold(n, base);
    var q, d := Rest(n, base), DigitChar(Last(n, base));
    FlipAppend(written, d);
    if n < base {
      assert [d] + Flip(written) == [] + ([d] + Flip(written));
    } else {
      assert Digits(q, base) + [d] + Flip(written) == Digits(q, base) + ([d] + Flip(written));
    }
  }

  lemma {:induction false} PendingStart(all: nat, base: nat)
    requires 2 <= base <= 36
    ensures Pending(all, base, all, [])
  {
    assert Digits(all, base) + [] == Digits(all, base);
  }

  lemma {:induction false} PendingEnd(all: nat, base: nat, written: Text)
    requires 2 <= base <= 36 && written != [] && Pending(all, base, 0, written)
    ensures Digits(all, base) == Flip(written)
  {}

  /** Dividing by a base takes off a bit at least. */
  lemma {:induction false} Halves(n: nat, base: nat, k: nat)
    requires 2 <= base && n < Pow2(k) && n > 0
    ensures k > 0 && Rest(n, base) < Pow2(k - 1)
  {
    assert n == n / base * base + n % base;
    Double(n / base, base);
  }

  lemma {:induction false} ZeroOver(base: nat)
    requires base > 0
    ensures Rest(0, base) == 0 && Last(0, base) == 0 && Pow2(63) > 0
  {}

  lemma {:induction false} HalfRange()
    ensures Pow2(63) == Conversion.LONG_MAX + 1 && Pow2(64) == 2 * Pow2(63)
  {
    Pow2Values();
  }

  lemma {:induction false} ZeroDigits(base: nat)
    requires 2 <= base <= 36
    ensures Digits(0, base) == ['0' as int]
  {}

  /** `buf` holds the text and a NUL after it. */
  ghost predicate Stores(buf: array<Char>, text: Text)
    reads buf
  {
    |text| < buf.Length && buf[..|text|] == text && buf[|text|] == 0
  }

  method Utoa(num: Word, buf: array<Char>, base: int)
    requires buf.Length >= NUMBER_BUFFER
    modifies buf
    ensures Stores(buf, if 2 <= base <= 36 then Digits(num, base) else [])
  {
    hide Pending, Digits, Pow2, DigitChar, Last, Rest;
    if base < 2 || base > 36 {
      buf[0] := 0;
      return;
    }
    var n: nat := num;
    var p: nat := 0;
    PendingStart(num, base);
    Pow2Values();
    assert buf[..0] == [];
    while true
      invariant p <= 64 && n < Pow2(64 - p) && (n > 0 || p == 0)
      invariant Pending(num, base, n, buf[..p])
      decreases 64 - p
    {
      if n > 0 { Halves(n, base, 64 - p); } else { ZeroOver(base); }
      PendingStep(num, base, n, buf[..p]);
      buf[p] := DigitChar(Last(n, base));
      p := p + 1;
      assert buf[..p] == buf[..p - 1] + [DigitChar(Last(n, base))];
      n := Rest(n, base);
      if n == 0 { break; }
    }
    buf[p] := 0;
    PendingEnd(num, base, buf[..p]);
    StrReverse(buf, p);
    assert buf[p] == buf[p..][0];
  }

  /** A digit as C computes it from a remainder, which is negative for a negative number. */
  function Digit(remaining: int): Char
    requires -36 < remaining < 36
  {
    if remaining > 9 then remaining - 10 + 'a' as int else remaining + '0' as int
  }

  /** The text in which every digit stands as far below '0' as its value. */
  function Below(s: Text): (r: Text)
    requires AllDigits(s, 36)
    ensures |r| == |s| && forall i :: 0 <= i < |s| ==> r[i] == Digit(Signed(true, DigitValue(s[i])))
  {
    seq(|s|, i requires 0 <= i < |s| => Digit(Signed(true, DigitValue(s[i]))))
  }

  /** What `itoa` writes: only in base ten has a negative number a sign. */
  function Itoed(num: int, base: int): Text
    requires 2 <= base <= 36
  {
    if num >= 0 then Digits(num, base) else if base == 10 then Decimal(num)
    else DigitsBelow36(-num, base); Below(Digits(-num, base))
  }

  lemma {:induction false} DigitsBelow36(n: nat, base: nat)
    requires 2 <= base <= 36
    ensures AllDigits(Digits(n, base), 36)
    decreases n
  {
    if n >= base {
      Shrinks(n, base);
      DigitsBelow36(n / base, base);
    }
  }

  /** The characters written for these digits. */
  ghost predicate Written(buffer: Text, digits: Text, minus: bool) {
    && AllDigits(digits, 36)
    && buffer == if minus then Below(digits) else digits
  }

  lemma {:induction false} WrittenNothing(minus: bool)
    ensures Written([], [], minus)
  {}

  lemma {:induction false} WrittenMore(buffer: Text, digits: Text, minus: bool, d: nat)
    requires Written(buffer, digits, minus) && d < 36
    ensures Written(buffer + [Digit(Signed(minus, d))], digits + [DigitChar(d)], minus)
  {}

  lemma {:induction false} WrittenFlip(buffer: Text, digits: Text, minus: bool)
    requires Written(buffer, digits, minus)
    ensures Written(Flip(buffer), Flip(digits), minus)
  {}

  /** Negating the least number overflows. */
  method Itoa(num: int, buf: array<Char>, base: int)
    requires Conversion.LONG_MIN <= num <= Conversion.LONG_MAX && 2 <= base <= 36
    requires base == 10 ==> num != Conversion.LONG_MIN
    requires buf.Length >= NUMBER_BUFFER
    modifies buf
    ensures Stores(buf, Itoed(num, base))
  {
    hide Pending, Digits, Last, Rest, Pow2, Written, Below, Digit, Flip;
    var i: nat := 0;
    if num == 0 {
      buf[0], buf[1] := '0' as int, 0;
      ZeroDigits(base);
      assert buf[..1] == ['0' as int];
      return;
    }
    var isNegative := num < 0 && base == 10;
    var left := if isNegative then -num else num;
    ghost var minus := left < 0;
    ghost var all: nat := if minus then -left else left;
    ghost var n: nat := all;
    ghost var digits: Text := [];
    ghost var bits: nat := if num == Conversion.LONG_MIN then 64 else 63;
    PendingStart(all, base);
    HalfRange();
    assert buf[..0] == [];
    WrittenNothing(minus);
    while left != 0
      invariant i <= bits && n < Pow2(bits - i) && (n > 0 || i > 0) && left == Signed(minus, n)
      invariant |digits| == i && Written(buf[..i], digits, minus) && Pending(all, base, n, digits)
      decreases bits - i
    {
      Halves(n, base, bits - i);
      PendingStep(all, base, n, digits);
      WrittenMore(buf[..i], digits, minus, Last(n, base));
      var remaining := Signed(left < 0, Last(if left < 0 then -left else left, base));
      buf[i] := Digit(remaining);
      i := i + 1;
      digits := digits + [DigitChar(Last(n, base))];
      assert buf[..i] == buf[..i - 1] + [Digit(remaining)];
      left := Signed(left < 0, Rest(if left < 0 then -left else left, base));
      n := Rest(n, base);
    }
    PendingEnd(all, base, digits);
    WrittenFlip(buf[..i], digits, minus);
    if isNegative {
      FlipAppend(buf[..i], '-' as int);
      buf[i] := '-' as int;
      i := i + 1;
      assert buf[..i] == buf[..i - 1] + ['-' as int];
    }
    buf[i] := 0;
    StrReverse(buf, i);
    assert buf[i] == buf[i..][0];
  }

  // ---------- What a format stands for ----------

  /** An argument as it is passed: a register of 64 bits or a pointer to characters, perhaps null. */
  datatype Arg = Bits(bits: Word) | Pointer(text: Option<Text>)

  /** The string a pointer designates: the characters before the first NUL. */
  function CStr(s: Text): (r: Text)
    ensures 0 !in r && |r| <= |s|
  {
    if s == [] || s[0] == 0 then [] else [s[0]] + CStr(s[1..])
  }

  lemma {:induction false} CStrIs(s: Text, k: nat)
    requires k <= |s| && 0 !in s[..k] && At(s, k) == 0
    ensures CStr(s) == s[..k]
    decreases k
  {
    if k > 0 {
      assert s[0] == s[..k][0];
      assert s[..k] == [s[0]] + s[1..][..k - 1];
      CStrIs(s[1..], k - 1);
    }
  }

  lemma {:induction false} CStrReaches(s: Text, k: nat)
    requires k <= |s| && 0 !in s[..k]
    ensures k <= |CStr(s)|
    decreases k
  {
    if k > 0 {
      assert s[0] == s[..k][0];
      assert s[..k] == [s[0]] + s[1..][..k - 1];
      CStrReaches(s[1..], k - 1);
    }
  }

  /** The low bits as a signed number. */
  function AsChar(w: Word): Char { if w % 256 < 128 then w % 256 else w % 256 - 256 }

  function AsInt(w: nat): int {
    var low := w % 0x1_0000_0000;
    if low < 0x8000_0000 then low else low - 0x1_0000_0000
  }

  /** An argument of type `unsigned int` has 32 bits, one with a length modifier 64. */
  function Unsigned(bits: Word, longs: nat): Word { if longs == 0 then bits % 0x1_0000_0000 else bits }

  function SignedArg(bits: Word, longs: nat): int { if longs == 0 then AsInt(bits) else Conversion.AsLong(bits) }

  /** The base of an unsigned conversion. */
  function BaseOf(conv: Char): nat {
    if conv == 'b' as int then 2 else if conv == 'o' as int then 8
    else if conv == 'u' as int then 10 else if conv == 'x' as int then 16 else 0
  }

  datatype Field = Field(text: Text, rest: seq<Arg>)

  /** The text of one conversion and the arguments after it. There is none when the call is
      undefined: an argument is missing or of the wrong kind, the least number is to be negated, or
      the format ends after a length modifier. `%f` is not modelled. */
  function Convert(conv: Char, longs: nat, args: seq<Arg>): Option<Field> {
    if conv == 0 || conv == 'f' as int then None
    else if conv == '%' as int then Some(Field(['%' as int], args))
    else if conv == 's' as int then
      if args == [] || !args[0].Pointer? then None
      else Some(Field(if args[0].text.Some? then CStr(args[0].text.value) else [], args[1..]))
    else if conv == 'c' as int || conv == 'd' as int || BaseOf(conv) != 0 then
      if args == [] || !args[0].Bits? then None
      else if conv == 'c' as int then Some(Field(CStr([AsChar(args[0].bits)]), args[1..]))
      else if conv == 'd' as int then
        var v := SignedArg(args[0].bits, longs);
        if v == Conversion.LONG_MIN then None else Some(Field(Decimal(v), args[1..]))
      else Some(Field(Digits(Unsigned(args[0].bits, longs), BaseOf(conv)), args[1..]))
    else Some(Field([], args))
  }

  /** The length modifiers at the start of the text, two at most. */
  function Longs(s: Text): (k: nat)
    ensures k <= 2 && k <= |s|
  {
    if At(s, 0) != 'l' as int then 0 else if At(s, 1) != 'l' as int then 1 else 2
  }

  /** The text a format and its arguments stand for. */
  function Expand(format: Text, args: seq<Arg>): Option<Text>
    requires 0 !in format
    decreases |format|
  {
    if format == [] then Some([])
    else if format[0] != '%' as int then
      match Expand(format[1..], args)
      case None => None
      case Some(t) => Some([format[0]] + t)
    else if |format| == 1 then Some([])
    else
      var longs := Longs(format[1..]);
      match Convert(At(format, 1 + longs), longs, args)
      case None => None
      case Some(field) =>
        match Expand(format[2 + longs..], field.rest)
        case None => None
        case Some(t) => Some(field.text + t)
  }

  // ---------- format_to_buffer ----------

  /** As much of the text as fits with a NUL. */
  function Stored(text: Text, n: nat): (r: Text)
    ensures r <= text
  {
    if n == 0 then [] else if |text| < n then text else text[..n - 1]
  }

  /** A smaller buffer gets a prefix of what a larger one gets. */
  lemma {:induction false} StoredPrefix(text: Text, m: nat, n: nat)
    requires m <= n
    ensures Stored(text, m) <= Stored(text, n)
  {}

  /** The size that counts: what is passed may be more than the buffer has. */
  function Room(n: nat, length: nat): nat { if n < length then n else length }

  /** Nothing is put past the end of the buffer. */
  predicate Fits(text: Text, n: nat, length: nat) { n <= length || |text| < length }

  /** The buffer holds the stored part of what was put out, and is as it was after that. */
  ghost predicate Filled(buffer: seq<Char>, was: seq<Char>, n: nat, out: Text) {
    && |buffer| == |was|
    && var text := Stored(out, Room(n, |buffer|)); text <= buffer && buffer[|text|..] == was[|text|..]
  }

  lemma {:induction false} FilledMore(buffer: seq<Char>, was: seq<Char>, n: nat, out: Text, c: Char)
    requires Filled(buffer, was, n, out) && Fits(out + [c], n, |buffer|)
    ensures |out| + 1 < n ==> |out| < |buffer|
    ensures Filled(if |out| + 1 < n then buffer[|out| := c] else buffer, was, n, out + [c])
  {
    if |out| + 1 < n {
      var k := |out|;
      assert buffer[k := c][..k + 1] == out + [c];
      assert buffer[k := c][k + 1..] == buffer[k..][1..] == was[k + 1..];
    } else if n > 0 {
      assert Stored(out + [c], Room(n, |buffer|)) == Stored(out, Room(n, |buffer|));
    }
  }

  lemma {:induction false} FilledStart(was: seq<Char>, n: nat)
    ensures Filled(was, was, n, [])
  {}

  /** The NUL goes after the stored part. */
  lemma {:induction false} Terminate(buffer: seq<Char>, was: seq<Char>, n: nat, out: Text)
    requires Filled(buffer, was, n, out) && Fits(out, n, |buffer|)
    ensures n == 0 ==> buffer == was
    ensures n > 0 ==> var k := if |out| < n then |out| else n - 1;
      (k < |buffer| && k == |Stored(out, n)| && Stored(out, n) <= buffer[k := 0]
        && buffer[k := 0][k + 1..] == was[k + 1..])
  {
    if n > 0 {
      var k := |Stored(out, n)|;
      assert buffer[k := 0][k + 1..] == buffer[k..][1..];
      assert was[k + 1..] == was[k..][1..];
    }
  }

  method Put(buffer: array?<Char>, n: nat, pos: nat, c: Char, ghost was: seq<Char>, ghost out: Text)
    requires buffer != null ==> Filled(buffer[..], was, n, out) && Fits(out + [c], n, buffer.Length)
    requires pos == |out|
    modifies buffer
    ensures buffer != null ==> Filled(buffer[..], was, n, out + [c])
  {
    if buffer != null {
      FilledMore(buffer[..], was, n, out, c);
      if pos + 1 < n { buffer[pos] := c; }
    }
  }

  /** Puts out the characters of a string. */
  method PutString(buffer: array?<Char>, n: nat, pos: nat, s: Text, ghost was: seq<Char>, ghost out: Text)
    returns (end: nat)
    requires buffer != null ==> Filled(buffer[..], was, n, out) && Fits(out + CStr(s), n, buffer.Length)
    requires pos == |out|
    modifies buffer
    ensures end == |out + CStr(s)|
    ensures buffer != null ==> Filled(buffer[..], was, n, out + CStr(s))
  {
    end := pos;
    var k: nat := 0;
    assert out + s[..0] == out;
    while At(s, k) != 0
      invariant k <= |s| && 0 !in s[..k] && end == |out + s[..k]|
      invariant buffer != null ==> Filled(buffer[..], was, n, out + s[..k])
      decreases |s| - k
    {
      assert out + s[..k] + [s[k]] == out + s[..k + 1];
      assert s[..k + 1] == s[..k] + [s[k]];
      CStrReaches(s, k + 1);
      Put(buffer, n, end, s[k], was, out + s[..k]);
      end := end + 1;
      k := k + 1;
    }
    CStrIs(s, k);
  }

  /** One conversion as a string: the digits are written in a buffer of 65 characters. */
  method Render(conv: Char, longs: nat, args: seq<Arg>) returns (s: Option<Text>, rest: seq<Arg>)
    requires Convert(conv, longs, args).Some?
    ensures var field := Convert(conv, longs, args).value;
      (rest == field.rest && field.text == (if s.Some? then CStr(s.value) else []))
  {
    var tmp := new Char[NUMBER_BUFFER];
    s, rest := None, args;
    if conv == 'c' as int {
      s, rest := Some([AsChar(args[0].bits)]), args[1..];
    } else if BaseOf(conv) != 0 {
      var v := Unsigned(args[0].bits, longs);
      DigitsNoNul(v, BaseOf(conv));
      Utoa(v, tmp, BaseOf(conv));
      CStrIs(tmp[..], |Digits(v, BaseOf(conv))|);
      s, rest := Some(tmp[..]), args[1..];
    } else if conv == 'd' as int {
      var v := SignedArg(args[0].bits, longs);
      DigitsNoNul(if v < 0 then -v else v, 10);
      Itoa(v, tmp, 10);
      CStrIs(tmp[..], |Decimal(v)|);
      s, rest := Some(tmp[..]), args[1..];
    } else if conv == 's' as int {
      s, rest := args[0].text, args[1..];
    } else if conv == '%' as int {
      s := Some(['%' as int, 0]);
      CStrIs(s.value, 1);
    }
  }

  /** The text so far and what the rest of the format stands for. */
  ghost predicate Progress(all: Text, out: Text, format: Text, args: seq<Arg>)
    requires 0 !in format
  {
    Expand(format, args).Some? && all == out + Expand(format, args).value
  }

  lemma {:induction false} ProgressPlain(all: Text, out: Text, format: Text, args: seq<Arg>)
    requires 0 !in format && format != [] && format[0] != '%' as int && Progress(all, out, format, args)
    ensures Progress(all, out + [format[0]], format[1..], args)
  {
    var rest := Expand(format[1..], args).value;
    assert out + ([format[0]] + rest) == out + [format[0]] + rest;
  }

  lemma {:induction false} ProgressLength(all: Text, out: Text, format: Text, args: seq<Arg>)
    requires 0 !in format && Progress(all, out, format, args)
    ensures |out| <= |all|
  {}

  lemma {:induction false} ProgressEnd(all: Text, out: Text, format: Text, args: seq<Arg>)
    requires (format == [] || format == ['%' as int]) && Progress(all, out, format, args)
    ensures all == out && Progress(all, out, [], args)
  {}

  lemma {:induction false} ProgressStart(format: Text, args: seq<Arg>)
    requires 0 !in format && Expand(format, args).Some?
    ensures Progress(Expand(format, args).value, [], format, args)
  {
    assert [] + Expand(format, args).value == Expand(format, args).value;
  }

  lemma {:induction false} ProgressField(all: Text, out: Text, format: Text, args: seq<Arg>)
    requires 0 !in format && |format| > 1 && format[0] == '%' as int && Progress(all, out, format, args)
    ensures var longs := Longs(format[1..]);
      (2 + longs <= |format| && Convert(At(format, 1 + longs), longs, args).Some?
       && var field := Convert(At(format, 1 + longs), longs, args).value;
          Progress(all, out + field.text, format[2 + longs..], field.rest))
  {
    var longs := Longs(format[1..]);
    var field := Convert(At(format, 1 + longs), longs, args).value;
    var rest := Expand(format[2 + longs..], field.rest).value;
    assert out + (field.text + rest) == out + field.text + rest;
  }

  /** The result is the length of the whole text, whatever the size; the buffer gets as much as
      fits and a NUL, and nothing after that is written. The size may be more than the buffer has, as
      `vsprintf` passes it, if the text fits in the buffer. */
  method FormatToBuffer(buffer: array?<Char>, n: nat, format: Text, args: seq<Arg>) returns (result: int)
    requires 0 !in format && Expand(format, args).Some?
    requires buffer != null ==> Fits(Expand(format, args).value, n, buffer.Length)
    modifies buffer
    ensures result == AsInt(|Expand(format, args).value|)
    ensures buffer != null ==> var text := Stored(Expand(format, args).value, n);
      (text <= buffer[..] && (if n == 0 then buffer[..] == old(buffer[..])
       else |text| < n && buffer[|text|] == 0 && buffer[|text| + 1..] == old(buffer[|text| + 1..])))
  {
    hide Progress, Filled, Expand, Convert, CStr;
    ghost var was := if buffer != null then buffer[..] else [];
    ghost var all, out: Text := Expand(format, args).value, [];
    var pos, f: nat := 0, 0;
    var args := args;
    ProgressStart(format, args);
    if buffer != null { FilledStart(was, n); }
    assert format[0..] == format;
    while At(format, f) != 0
      invariant f <= |format| && pos == |out|
      invariant Progress(all, out, format[f..], args)
      invariant buffer != null ==> Filled(buffer[..], was, n, out)
      decreases |format| - f
    {
      ghost var here := format[f..];
      if At(format, f) != '%' as int {
        ProgressPlain(all, out, here, args);
        ProgressLength(all, out + [format[f]], here[1..], args);
        Put(buffer, n, pos, format[f], was, out);
        out := out + [format[f]];
        pos := pos + 1;
        f := f + 1;
        assert here[1..] == format[f..];
        continue;
      }
      f := f + 1;
      if At(format, f) == 0 {
        assert here == ['%' as int] && format[f..] == [];
        ProgressEnd(all, out, here, args);
        break;
      }
      ProgressField(all, out, here, args);
      var longModifiers := 0;
      while At(format, f + longModifiers) == 'l' as int && longModifiers < 2
        invariant 0 <= longModifiers <= 2 && (longModifiers >= 1 ==> At(here, 1) == 'l' as int)
        invariant longModifiers == 2 ==> At(here, 2) == 'l' as int
      {
        assert At(here, 1 + longModifiers) == At(format, f + longModifiers);
        longModifiers := longModifiers + 1;
      }
      assert longModifiers == Longs(here[1..]);
      f := f + longModifiers;
      assert At(here, 1 + longModifiers) == At(format, f);
      ghost var field := Convert(At(format, f), longModifiers, args).value;
      ProgressLength(all, out + field.text, here[2 + longModifiers..], field.rest);
      var s, rest := Render(At(format, f), longModifiers, args);
      if s.Some? {
        pos := PutString(buffer, n, pos, s.value, was, out);
      }
      assert out + [] == out;
      out := out + field.text;
      args := rest;
      f := f + 1;
      assert here[2 + longModifiers..] == format[f..];
    }
    ProgressEnd(all, out, format[f..], args);
    if buffer != null {
      ProgressLength(all, out, [], args);
      Terminate(buffer[..], was, n, out);
    }
    if buffer != null && n > 0 {
      buffer[if pos < n then pos else n - 1] := 0;
    }
    return AsInt(pos);
  }

  /** What `%d` prints is read back by `atoi`. */
  lemma {:induction false} PrintedIntReadsBack(n: Word)
    ensures Expand(['%' as int, 'd' as int], [Bits(n)]) == Some(Decimal(AsInt(n)))
    ensures Conversion.AtoiReads(Decimal(AsInt(n))) == AsInt(n)
  {
    var format := ['%' as int, 'd' as int];
    var field := Field(Decimal(AsInt(n)), []);
    assert Longs(format[1..]) == 0 && format[2..] == [];
    assert [Bits(n)][1..] == [];
    assert Convert('d' as int, 0, [Bits(n)]) == Some(field);
    assert Expand(format[2..], []) == Some([]);
    assert field.text + [] == field.text;
    Conversion.AtoiInvertsDecimal(AsInt(n));
  }
}
