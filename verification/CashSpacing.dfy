/** Which spaces of a text can be left out: tokens with a space before some of them. */
module CashSpacing {
  import opened Wrappers
  import opened CashSyntax
  import opened CashLexer

  /** The tokens, with a space before those that have one. */
  function Spaced(ts: seq<Token>, gaps: seq<bool>): string
    requires |gaps| == |ts|
  {
    if ts == [] then "" else (if gaps[0] then " " else "") + (TextOf(ts[0]) + Spaced(ts[1..], gaps[1..]))
  }

  /** The text of `b` may follow that of `a` directly. */
  predicate Compatible(a: Token, b: Token) {
    && !Skips(a.kind)
    && (a.kind == Integer ==> b.kind != Integer)
    && (IsWord(a.kind) ==> b.kind != Integer && !IsWord(b.kind))
  }

  /** Spaces are left out only between compatible tokens. */
  predicate Joinable(ts: seq<Token>, gaps: seq<bool>)
    requires |gaps| == |ts|
  {
    |ts| < 2 || ((gaps[1] || Compatible(ts[0], ts[1])) && Joinable(ts[1..], gaps[1..]))
  }

  /** The text, or the text without its first space, where the lexer is not at the start of a line. */
  ghost predicate Starts(s: string, ts: seq<Token>, gaps: seq<bool>, column: nat) {
    && |gaps| == |ts|
    && (s == Spaced(ts, gaps) || (ts != [] && gaps[0] && s == Spaced(ts, gaps)[1..]))
    && (column > 0 || (ts != [] && gaps[0] && s == Spaced(ts, gaps)))
  }

  /** The first character of the text of a token tells a digit, a word and a quote. */
  lemma {:induction false} FirstCharacter(t: Token)
    requires Lexical(t)
    ensures var c := TextOf(t);
      && c != "" && !IsBlank(c[0]) && (IsDigit(c[0]) <==> t.kind == Integer)
      && (StartsName(c[0]) <==> IsWord(t.kind)) && (c[0] == '\"' <==> t.kind == String)
  {
    hide NameKind;
    if t.kind == Integer { assert In(t.value[0], Digits); }
  }

  lemma {:induction false} PartedIff(a: Token, b: Token, rest: string)
    requires Lexical(a) && Lexical(b)
    ensures Parted(a, TextOf(b) + rest) <==> Compatible(a, b)
  {
    hide Lexical, TextOf;
    FirstCharacter(b);
    assert (TextOf(b) + rest)[0] == TextOf(b)[0];
  }

  /** What is left after the first token. */
  lemma {:induction false} FirstReads(ts: seq<Token>, gaps: seq<bool>, s: string, column: nat)
    returns (left: string, c: nat)
    requires AllLexical(ts) && ts != [] && Starts(s, ts, gaps, column)
    requires |ts| > 1 ==> gaps[1] || Compatible(ts[0], ts[1])
    ensures Starts(left, ts[1..], gaps[1..], c) && c > 0
    ensures LexFrom(s, column) == ([ts[0]] + LexFrom(left, c).0, LexFrom(left, c).1)
  {
    hide LexFrom, Lexical, Compatible, TextOf, Parted;
    var rest := Spaced(ts[1..], gaps[1..]);
    assert Parted(ts[0], rest) by { NextParted(ts, gaps); }
    left, c := TakesOne(ts[0], rest, s, column);
    if left != rest { SpaceIsGap(ts[1..], gaps[1..]); }
  }

  lemma {:induction false} NextParted(ts: seq<Token>, gaps: seq<bool>)
    requires AllLexical(ts) && ts != [] && |gaps| == |ts| && (|ts| > 1 ==> gaps[1] || Compatible(ts[0], ts[1]))
    ensures Parted(ts[0], Spaced(ts[1..], gaps[1..]))
  {
    hide Lexical, Compatible, TextOf;
    if |ts| > 1 {
      var rest := Spaced(ts[2..], gaps[2..]);
      assert ts[1..][1..] == ts[2..] && gaps[1..][1..] == gaps[2..];
      if !gaps[1] {
        assert Spaced(ts[1..], gaps[1..]) == TextOf(ts[1]) + rest;
        PartedIff(ts[0], ts[1], rest);
      }
    }
  }

  /** A text that starts with a space has one before its first token. */
  lemma {:induction false} SpaceIsGap(ts: seq<Token>, gaps: seq<bool>)
    requires AllLexical(ts) && |gaps| == |ts| && Spaced(ts, gaps) != "" && Spaced(ts, gaps)[0] == ' '
    ensures ts != [] && gaps[0]
  {
    if !gaps[0] { FirstCharacter(ts[0]); }
  }

  lemma {:induction false} NothingLexed(column: nat)
    ensures LexFrom("", column) == ([], true)
  {}

  /** Tokens with spaces left out only where they do not run together are lexed back. */
  lemma {:induction false} JoinedLexesBack(ts: seq<Token>, gaps: seq<bool>, s: string, column: nat)
    requires AllLexical(ts) && Starts(s, ts, gaps, column) && Joinable(ts, gaps)
    ensures LexFrom(s, column) == (ts, true)
    decreases |ts|
  {
    hide LexFrom, Lexical, Compatible, TextOf;
    if ts == [] {
      NothingLexed(column);
    } else {
      var left, c := FirstReads(ts, gaps, s, column);
      JoinedLexesBack(ts[1..], gaps[1..], left, c);
      assert [ts[0]] + ts[1..] == ts;
    }
  }

  // ---------- The characters that end up in tokens ----------

  /** Characters outside blanks, and all those of quoted text, where a quote that is not closed counts
      twice. */
  function Ink(s: string): nat
    decreases |s|
  {
    if s == "" then 0
    else if IsBlank(s[0]) then Ink(s[1..])
    else if s[0] == '\"' then
      var k := Span(s[1..], Quoted);
      k + 2 + Ink(s[Min(k + 2, |s|)..])
    else 1 + Ink(s[1..])
  }

  /** One line outside quoted text, and no quote that the lexer would pass over. */
  predicate Tidy(s: string)
    decreases |s|
  {
    if s == "" then true
    else if IsBlank(s[0]) then s[0] != '\n' && Tidy(s[1..])
    else if s[0] == '\"' then Tidy(s[Min(Span(s[1..], Quoted) + 2, |s|)..])
    else s[0] as int != 255 && (s[0] in {'=', '<', '>'} ==> At(s, 1) != '\"') && Tidy(s[1..])
  }

  function TextLength(ts: seq<Token>): nat {
    if ts == [] then 0 else |TextOf(ts[0])| + TextLength(ts[1..])
  }

  /** Plain characters are counted one by one. */
  lemma {:induction false} InkRun(s: string, k: nat)
    requires k <= |s| && forall i :: 0 <= i < k ==> !IsBlank(s[i]) && s[i] != '\"'
    ensures Ink(s) == k + Ink(s[k..]) && (Tidy(s) ==> Tidy(s[k..]))
  {
    hide Span;
    if k == 0 {
      assert s[0..] == s;
    } else {
      InkRun(s[1..], k - 1);
      assert s[1..][k - 1..] == s[k..];
    }
  }

  lemma {:induction false} InkBlanks(s: string, column: nat, k: nat)
    requires k <= |s| && Tidy(s) && column > 0 && forall i :: 0 <= i < k ==> IsBlank(s[i])
    ensures Ink(s[k..]) == Ink(s) && Tidy(s[k..]) && ColumnAfter(column, s[..k]) > 0
  {
    hide Span;
    if k == 0 {
      assert s[0..] == s;
    } else {
      InkBlanks(s[1..], column + 1, k - 1);
      assert s[1..][k - 1..] == s[k..] && s[..k][1..] == s[1..][..k - 1];
    }
  }

  /** One token takes no more ink than there is. */
  lemma {:induction false} TokenInk(t: string, column: nat)
    requires t != "" && !IsBlank(t[0]) && Tidy(t) && column > 0 && ScanToken(t, column).token.Some?
    ensures var r := ScanToken(t, column); var k := Min(r.taken, |t|);
      && |TextOf(r.token.value)| + Ink(t[k..]) <= Ink(t) && Tidy(t[k..])
      && (k < |t| ==> ColumnAfter(column, t[..k]) > 0)
  {
    hide ColumnAfter, LooksLikeCommand, Span, Ink, Tidy, Punctuation;
    if IsDigit(t[0]) || StartsName(t[0]) {
      RunInk(t, column, if IsDigit(t[0]) then Digits else NameChars);
    } else if t[0] == '\"' {
      QuoteInk(t, column);
    } else {
      SymbolInk(t, column);
    }
  }

  lemma {:induction false} QuoteInk(t: string, column: nat)
    requires t != "" && t[0] == '\"' && Tidy(t) && column > 0
    ensures var r := Punctuation(t); var k := Min(r.taken, |t|);
      && r.token.Some? && |TextOf(r.token.value)| + Ink(t[k..]) <= Ink(t) && Tidy(t[k..])
      && (k < |t| ==> ColumnAfter(column, t[..k]) > 0)
  {
    hide ColumnAfter, Span;
    var r := Punctuation(t);
    var k := Min(r.taken, |t|);
    if k < |t| {
      assert t[1..][r.taken - 2] == t[r.taken - 1] && !In(t[r.taken - 1], Quoted);
      ColumnPositive(column, t[..k]);
    }
  }

  lemma {:induction false} RunInk(t: string, column: nat, cls: Class)
    requires t != "" && In(t[0], cls) && Tidy(t) && column > 0 && cls in {Digits, NameChars}
    ensures var k := Span(t, cls); k > 0 && Ink(t) == k + Ink(t[k..]) && Tidy(t[k..]) && ColumnAfter(column, t[..k]) > 0
  {
    hide ColumnAfter, Ink, Tidy;
    var k := Span(t, cls);
    forall i | 0 <= i < k ensures !IsBlank(t[i]) && t[i] != '\"' && t[i] != '\n' { assert In(t[i], cls); }
    InkRun(t, k);
    ColumnPositive(column, t[..k]);
  }

  lemma {:induction false} SymbolSize(t: string)
    requires t != "" && !IsBlank(t[0]) && t[0] != '\"' && t[0] as int != 255 && Punctuation(t).token.Some?
    ensures var r := Punctuation(t); var n := |TextOf(r.token.value)|;
      || (r.taken == 1 && n == 1)
      || (r.taken == 2 && n == (if At(t, 1) == '=' then 2 else 1) && (t[0] in {'=', '<', '>'} || At(t, 1) == '='))
  {
    hide Span;
  }

  lemma {:induction false} SymbolInk(t: string, column: nat)
    requires t != "" && !IsBlank(t[0]) && t[0] != '\"' && Tidy(t) && column > 0 && Punctuation(t).token.Some?
    ensures var r := Punctuation(t); var k := Min(r.taken, |t|);
      && |TextOf(r.token.value)| + Ink(t[k..]) <= Ink(t) && Tidy(t[k..])
      && (k < |t| ==> ColumnAfter(column, t[..k]) > 0)
  {
    hide Punctuation, Span, TextOf, ColumnAfter, IsBlank;
    SymbolSize(t);
    var r := Punctuation(t);
    if r.taken == 1 {
      NotNewline(t[0]);
      ColumnPositive(column, t[..1]);
    } else if |t| > 1 {
      SecondInk(t, column);
    }
  }

  lemma {:induction false} NotNewline(c: char)
    requires !IsBlank(c)
    ensures c != '\n'
  {}

  /** A symbol and the character after it, which is no quote. */
  lemma {:induction false} SecondInk(t: string, column: nat)
    requires |t| > 1 && !IsBlank(t[0]) && t[0] != '\"' && Tidy(t) && column > 0 && t[1] != '\"'
    ensures Ink(t[2..]) + (if t[1] == '=' then 2 else 1) <= Ink(t) && Tidy(t[2..]) && ColumnAfter(column, t[..2]) > 0
  {
    hide Span, ColumnAfter;
    assert t[1..][1..] == t[2..] && t[1..][0] == t[1];
    assert t[1] != '\n';
    ColumnPositive(column, t[..2]);
  }

  /** Lexing makes no ink. */
  lemma {:induction false} LexInk(s: string, column: nat)
    requires Tidy(s) && column > 0
    ensures TextLength(LexFrom(s, column).0) <= Ink(s)
    decreases |s|
  {
    hide ScanToken, Ink, Tidy, ColumnAfter, TextOf;
    var b := Span(s, Blanks);
    InkBlanks(s, column, b);
    if b < |s| {
      var t, c := s[b..], ColumnAfter(column, s[..b]);
      var scan := ScanToken(t, c);
      if scan.token.Some? {
        TokenInk(t, c);
        var k := Min(scan.taken, |t|);
        var more := LexFrom(t[k..], ColumnAfter(c, t[..k]));
        if k < |t| { LexInk(t[k..], ColumnAfter(c, t[..k])); } else { NothingLexed(ColumnAfter(c, t[..k])); }
        LexStep(s, column, b);
        assert ([scan.token.value] + more.0)[1..] == more.0;
      }
    }
  }

  // ---------- Where a space is missing ----------

  /** There is a space before every string but the first token. */
  ghost predicate QuotesApart(ts: seq<Token>, gaps: seq<bool>)
    requires |gaps| == |ts|
  {
    forall i :: 1 <= i < |ts| && ts[i].kind == String ==> gaps[i]
  }

  lemma {:induction false} NextChar(ts: seq<Token>, gaps: seq<bool>)
    requires AllLexical(ts) && |gaps| == |ts| && (ts != [] && ts[0].kind == String ==> gaps[0])
    ensures At(Spaced(ts, gaps), 0) != '\"'
  {
    hide Lexical, TextOf;
    if ts != [] { FirstCharacter(ts[0]); }
  }

  lemma {:induction false} SpacedInk(ts: seq<Token>, gaps: seq<bool>)
    requires AllLexical(ts) && |gaps| == |ts| && QuotesApart(ts, gaps)
    ensures Ink(Spaced(ts, gaps)) == TextLength(ts) && Tidy(Spaced(ts, gaps))
    decreases |ts|
  {
    hide Lexical, TextOf, Ink, Tidy;
    if ts == [] {
      NoInk();
    } else {
      var rest := Spaced(ts[1..], gaps[1..]);
      if |ts| > 1 {
        TailApart(ts, gaps);
        assert ts[1].kind == String ==> gaps[1];
      }
      SpacedInk(ts[1..], gaps[1..]);
      NextChar(ts[1..], gaps[1..]);
      TextInk(ts[0], rest);
      SpaceInk(TextOf(ts[0]) + rest);
      assert Spaced(ts, gaps) == if gaps[0] then " " + (TextOf(ts[0]) + rest) else TextOf(ts[0]) + rest;
    }
  }

  lemma {:induction false} NoInk()
    ensures Ink("") == 0 && Tidy("")
  {}

  lemma {:induction false} SpaceInk(s: string)
    ensures Ink(" " + s) == Ink(s) && (Tidy(s) ==> Tidy(" " + s))
  {
    assert (" " + s)[1..] == s;
  }

  /** The text of one token. */
  lemma {:induction false} TextInk(t: Token, rest: string)
    requires Lexical(t) && Tidy(rest) && At(rest, 0) != '\"'
    ensures Ink(TextOf(t) + rest) == |TextOf(t)| + Ink(rest) && Tidy(TextOf(t) + rest)
  {
    hide Span, Ink, Tidy;
    var s, k := TextOf(t) + rest, |TextOf(t)|;
    if t.kind == String {
      QuotedInk(t.value, rest);
    } else if t.kind == Integer {
      forall i: nat | i < k ensures Single(s, i) { assert In(t.value[i], Digits); }
      PlainInk(s, k);
      assert s[k..] == rest;
    } else if t.kind == Name {
      forall i: nat | i < k ensures Single(s, i) { assert In(t.value[i], NameChars); }
      PlainInk(s, k);
      assert s[k..] == rest;
    } else {
      SpellingPlain(t.kind);
      assert s[k..] == rest && At(s, k) == At(rest, 0);
      forall i: nat | i < k ensures Single(s, i) {
        assert s[i] == t.value[i];
        if i + 1 < k { assert s[i + 1] == t.value[i + 1]; }
      }
      PlainInk(s, k);
      assert s[k..] == rest;
    }
  }

  /** The character is ink of its own. */
  predicate Single(s: string, i: nat)
    requires i < |s|
  {
    && !IsBlank(s[i]) && s[i] != '\"' && s[i] as int != 255
    && (s[i] in {'=', '<', '>'} ==> At(s, i + 1) != '\"')
  }

  lemma {:induction false} PlainInk(s: string, k: nat)
    requires k <= |s| && Tidy(s[k..]) && forall i: nat :: i < k ==> Single(s, i)
    ensures Ink(s) == k + Ink(s[k..]) && Tidy(s)
  {
    hide Span;
    if k == 0 {
      assert s[0..] == s;
    } else {
      assert Single(s, 0) && s[1..][k - 1..] == s[k..];
      forall i: nat | i < k - 1 ensures Single(s[1..], i) { assert Single(s, i + 1); }
      PlainInk(s[1..], k - 1);
    }
  }

  lemma {:induction false} SpellingPlain(k: TokenType)
    requires k !in {Integer, Name, String, RawLine, EndOfFile}
    ensures forall i :: 0 <= i < |Spelling(k)| ==>
      Spelling(k)[i] as int != 255 && !IsBlank(Spelling(k)[i]) && Spelling(k)[i] != '\"'
  {}

  lemma {:induction false} QuotedInk(v: string, rest: string)
    requires AllIn(v, Quoted) && Tidy(rest)
    ensures var s := "\"" + v + "\"" + rest; Ink(s) == |v| + 2 + Ink(rest) && Tidy(s)
  {
    hide Span;
    var s := "\"" + v + "\"" + rest;
    assert s[1..] == v + ("\"" + rest) && s[1..][|v|] == '\"';
    SpanIs(s[1..], Quoted, |v|);
    assert s[|v| + 2..] == rest;
  }

  /** A space before a token only moves it. */
  lemma {:induction false} SpaceLexed(s: string, column: nat)
    requires s != "" && !IsBlank(s[0])
    ensures LexFrom(" " + s, column) == LexFrom(s, column + 1)
  {
    hide ScanToken, Span;
    SpanIs(" " + s, Blanks, 1);
    SpanIs(s, Blanks, 0);
    assert (" " + s)[1..] == s && (" " + s)[..1] == " " && s[0..] == s && s[..0] == "";
    assert ColumnAfter(column, " ") == column + 1 && ColumnAfter(column + 1, "") == column + 1;
  }

  /** Between tokens that run together nothing is read right. */
  lemma {:induction false} MissingSpace(a: Token, b: Token, ts: seq<Token>, gaps: seq<bool>, column: nat)
    requires AllLexical([a, b] + ts) && |gaps| == |ts| && QuotesApart([b] + ts, [false] + gaps) && column > 0
    requires !Compatible(a, b) && b.kind != String
    ensures LexFrom(TextOf(a) + (TextOf(b) + Spaced(ts, gaps)), column) != ([a, b] + ts, true)
  {
    hide LexFrom, Lexical, TextOf, QuotesApart, Ink, Tidy;
    assert a in [a, b] + ts && b in [a, b] + ts;
    var rest := TextOf(b) + Spaced(ts, gaps);
    FirstCharacter(a);
    FirstCharacter(b);
    if !Skips(a.kind) {
      RunsOn(a, rest, column);
    } else if TextOf(b)[0] == '=' {
      BecomesOther(a, rest, column);
    } else {
      var u := rest[1..];
      LosesOne(a, b, ts, gaps);
      assert TextOf(a) + rest == Spelling(a.kind) + [rest[0]] + u
        by { assert TextOf(a) == Spelling(a.kind) by { OperatorText(a); } }
      NotNewline(rest[0]);
      OperatorSkips(a.kind, rest[0], u, column);
      LexInk(u, column + 2);
      TailLength(a, b, ts, LexFrom(u, column + 2).0);
    }
  }

  lemma {:induction false} OperatorText(a: Token)
    requires Lexical(a) && Skips(a.kind)
    ensures TextOf(a) == Spelling(a.kind) && a == Tok(a.kind)
  {}

  lemma {:induction false} TailLength(a: Token, b: Token, ts: seq<Token>, more: seq<Token>)
    requires TextLength(more) < TextLength([b] + ts)
    ensures [a] + more != [a, b] + ts
  {
    assert ([a, b] + ts)[1..] == [b] + ts && ([a] + more)[1..] == more;
  }

  /** Without the first character of a token there is less ink than its tokens have. */
  lemma {:induction false} LosesOne(a: Token, b: Token, ts: seq<Token>, gaps: seq<bool>)
    requires AllLexical([a, b] + ts) && |gaps| == |ts| && QuotesApart([b] + ts, [false] + gaps) && b.kind != String
    ensures var rest := TextOf(b) + Spaced(ts, gaps);
      rest != "" && Ink(rest[1..]) < TextLength([b] + ts) && Tidy(rest[1..])
  {
    hide Lexical, TextOf;
    assert b in [a, b] + ts;
    FirstCharacter(b);
    assert ([b] + ts)[1..] == ts && ([false] + gaps)[1..] == gaps;
    forall t | t in [b] + ts ensures Lexical(t) { assert t in [a, b] + ts; }
    SpacedInk([b] + ts, [false] + gaps);
    assert Spaced([b] + ts, [false] + gaps) == TextOf(b) + Spaced(ts, gaps);
    InkRun(TextOf(b) + Spaced(ts, gaps), 1);
  }

  /** A number or a word takes characters that are not its own. */
  lemma {:induction false} RunsOn(a: Token, rest: string, column: nat)
    requires Lexical(a) && rest != "" && column > 0
    requires (a.kind == Integer && IsDigit(rest[0])) || (IsWord(a.kind) && In(rest[0], NameChars))
    ensures var r := LexFrom(TextOf(a) + rest, column); r.0 != [] && r.0[0] != a
  {
    hide LexFrom, LooksLikeCommand, Span, NameKind;
    var s, k := TextOf(a) + rest, |TextOf(a)|;
    FirstCharacter(a);
    var cls := if a.kind == Integer then Digits else NameChars;
    assert AllIn(a.value, cls) by { WordText(a); }
    forall i | 0 <= i < k + 1 ensures In(s[i], cls) { if i < k { assert s[i] == a.value[i]; } }
    SpanIs(s, Blanks, 0);
    assert s[0..] == s && s[..0] == "" && ColumnAfter(column, "") == column;
    var n := Span(s, cls);
    assert n > k;
    assert ScanToken(s, column).token.Some? && |ScanToken(s, column).token.value.value| == n;
    LexStep(s, column, 0);
  }

  lemma {:induction false} WordText(a: Token)
    requires Lexical(a) && (a.kind == Integer || IsWord(a.kind))
    ensures TextOf(a) == a.value && AllIn(a.value, if a.kind == Integer then Digits else NameChars)
  {}

  /** With an equals sign the operator becomes another. */
  lemma {:induction false} BecomesOther(a: Token, rest: string, column: nat)
    requires Lexical(a) && Skips(a.kind) && rest != "" && rest[0] == '=' && column > 0
    ensures var r := LexFrom(TextOf(a) + rest, column); r.0 != [] && r.0[0] != a
  {
    hide LexFrom, LooksLikeCommand, Span, NameKind;
    var s := TextOf(a) + rest;
    OperatorText(a);
    SpanIs(s, Blanks, 0);
    assert s[0..] == s && s[..0] == "" && ColumnAfter(column, "") == column && At(s, 1) == '=';
    LexStep(s, column, 0);
  }

  /** With a space before every string, tokens are lexed back exactly when spaces are left out only
      between tokens that do not run together. */
  lemma {:induction false} JoinedLexesBackIff(ts: seq<Token>, gaps: seq<bool>, s: string, column: nat)
    requires AllLexical(ts) && Starts(s, ts, gaps, column) && QuotesApart(ts, gaps)
    ensures LexFrom(s, column) == (ts, true) <==> Joinable(ts, gaps)
    decreases |ts|
  {
    hide LexFrom, Lexical, Compatible, TextOf, Spaced, QuotesApart, Joinable;
    if |ts| < 2 {
      FewJoin(ts, gaps);
      JoinedLexesBack(ts, gaps, s, column);
    } else if gaps[1] || Compatible(ts[0], ts[1]) {
      var left, c := FirstReads(ts, gaps, s, column);
      TailApart(ts, gaps);
      JoinedLexesBackIff(ts[1..], gaps[1..], left, c);
      SameTail(ts, LexFrom(left, c).0);
    } else {
      MoreJoin(ts, gaps);
      MissingIn(ts, gaps, s, column);
    }
  }

  lemma {:induction false} FewJoin(ts: seq<Token>, gaps: seq<bool>)
    requires |gaps| == |ts| < 2
    ensures Joinable(ts, gaps)
  {}

  lemma {:induction false} MoreJoin(ts: seq<Token>, gaps: seq<bool>)
    requires |gaps| == |ts| && |ts| > 1
    ensures Joinable(ts, gaps) <==> (gaps[1] || Compatible(ts[0], ts[1])) && Joinable(ts[1..], gaps[1..])
  {
    hide Compatible;
  }

  lemma {:induction false} TailApart(ts: seq<Token>, gaps: seq<bool>)
    requires |gaps| == |ts| && |ts| > 1 && QuotesApart(ts, gaps)
    ensures QuotesApart(ts[1..], gaps[1..])
    ensures Joinable(ts, gaps) <==> (gaps[1] || Compatible(ts[0], ts[1])) && Joinable(ts[1..], gaps[1..])
  {
    hide Compatible, Joinable;
    MoreJoin(ts, gaps);
    forall i | 1 <= i < |ts[1..]| && ts[1..][i].kind == String ensures gaps[1..][i] { assert ts[i + 1].kind == String; }
  }

  lemma {:induction false} SameTail(ts: seq<Token>, more: seq<Token>)
    requires ts != []
    ensures [ts[0]] + more == ts <==> more == ts[1..]
  {
    assert ([ts[0]] + more)[1..] == more && [ts[0]] + ts[1..] == ts;
  }

  lemma {:induction false} MissingIn(ts: seq<Token>, gaps: seq<bool>, s: string, column: nat)
    requires AllLexical(ts) && Starts(s, ts, gaps, column) && QuotesApart(ts, gaps)
    requires |ts| > 1 && !gaps[1] && !Compatible(ts[0], ts[1])
    ensures LexFrom(s, column) != (ts, true)
  {
    hide LexFrom, Lexical, Compatible, TextOf;
    var a, b, more, left := ts[0], ts[1], ts[2..], gaps[2..];
    assert ts == [a, b] + more && ts[1..][1..] == more && gaps[1..][1..] == left;
    var text := TextOf(a) + (TextOf(b) + Spaced(more, left));
    assert Spaced(ts[1..], gaps[1..]) == TextOf(b) + Spaced(more, left);
    assert b.kind != String;
    forall i | 1 <= i < |[b] + more| && ([b] + more)[i].kind == String ensures ([false] + left)[i] {
      assert ts[i + 1].kind == String;
    }
    FirstCharacter(a);
    if s == text {
      MissingSpace(a, b, more, left, column);
    } else {
      assert s == " " + text;
      SpaceLexed(text, column);
      MissingSpace(a, b, more, left, column + 1);
    }
  }

  /** Without that space the other direction fails: the opening quote is passed over and the closing
      one opens a string that the end of the text closes. */
  lemma {:induction false} EmptyStringAfterEqual()
    ensures var ts, gaps := [Tok(Equal), Token(String, "")], [true, false];
      Spaced(ts, gaps) == " =\"\"" && !Joinable(ts, gaps) && LexFrom(Spaced(ts, gaps), 0) == (ts, true)
  {
    hide LexFrom, Span;
    var ts, gaps := [Tok(Equal), Token(String, "")], [true, false];
    var empty := Token(String, "");
    assert ts[1..] == [empty] && gaps[1..] == [false] && ts[1..][1..] == [] && gaps[1..][1..] == [];
    assert Spaced([], []) == "" && TextOf(empty) == "\"\"" && Spaced([empty], [false]) == "\"\"";
    assert Spaced(ts, gaps) == " " + "=\"\"";
    SpaceLexed("=\"\"", 0);
    assert Spelling(Equal) + ['\"'] + "\"" == "=\"\"";
    OperatorSkips(Equal, '\"', "\"", 1);
    OpenQuote(3);
    assert [Tok(Equal)] + [empty] == ts;
  }

  lemma {:induction false} OpenQuote(column: nat)
    requires column > 0
    ensures LexFrom("\"", column) == ([Token(String, "")], true)
  {
    hide LexFrom, LooksLikeCommand;
    SpanIs("\"", Blanks, 0);
    var s := "\"";
    assert s[0..] == s && s[..0] == "" && s[1..] == "" && ColumnAfter(column, "") == column;
    SpanIs("", Quoted, 0);
    assert s[1..1] == "" && Punctuation(s) == Scan(Some(Token(String, s[1..1])), 2);
    assert ScanToken(s, column) == Scan(Some(Token(String, "")), 2);
    LexStep(s, column, 0);
    assert Min(2, |s|) == 1;
    NothingLexed(ColumnAfter(column, s[..1]));
    assert [Token(String, "")] + [] == [Token(String, "")];
  }
}
