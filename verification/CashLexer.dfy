/** The hand-written lexer of the CASH shell, and the text it reads back. */
module CashLexer {
  import opened Wrappers
  import opened CashSyntax

  /** Kinds of characters that the loops of the lexer run over. */
  datatype Class = Digits | NameChars | Blanks | Quoted | Line

  predicate IsDigit(c: char) { '0' <= c <= '9' }

  predicate IsAlpha(c: char) { 'a' <= c <= 'z' || 'A' <= c <= 'Z' }

  predicate StartsName(c: char) { IsAlpha(c) || c == '_' }

  predicate In(c: char, cls: Class) {
    match cls
    case Digits => IsDigit(c)
    case NameChars => StartsName(c) || IsDigit(c)
    case Blanks => IsBlank(c)
    case Quoted => c != '\"'
    case Line => c != '\n'
  }

  /** The length of the longest run at the start of the text. */
  function Span(s: string, cls: Class): (k: nat)
    ensures k <= |s| && (forall i :: 0 <= i < k ==> In(s[i], cls)) && (k < |s| ==> !In(s[k], cls))
  {
    if s == "" || !In(s[0], cls) then 0 else 1 + Span(s[1..], cls)
  }

  lemma {:induction false} SpanIs(s: string, cls: Class, k: nat)
    requires k <= |s| && (forall i :: 0 <= i < k ==> In(s[i], cls)) && (k < |s| ==> !In(s[k], cls))
    ensures Span(s, cls) == k
  {}

  /** What the lexer reads at an index: a NUL after the last character. */
  function At(s: string, i: nat): char { if i < |s| then s[i] else '\0' }

  function NameKind(word: string): TokenType {
    if word == "var" then Var else if word == "const" then Const
    else if word == "true" then True else if word == "false" then False
    else if word == "and" then And else if word == "or" then Or
    else if word == "xor" then Xor else if word == "not" then Not
    else Name
  }

  predicate StartsExpression(c: char) { c == '+' || c == '-' || c == '(' || c == '\"' || c == '[' }

  /** What after a name makes a line an expression. */
  predicate StartsOperator(c: char) {
    c == '+' || c == '-' || c == '*' || c == '/' || c == '=' || c == '!' || c == '<' || c == '>' || c == '['
  }

  /** At the start of a line: whether the line is a command rather than a declaration or an
      expression. */
  predicate LooksLikeCommand(s: string)
    requires s != ""
  {
    var c := s[0];
    if IsDigit(c) || StartsExpression(c) then false
    else if StartsName(c) then
      var i := Span(s, NameChars);
      var j := i + Span(s[i..], Blanks);
      && NameKind(s[..i]) == Name
      && !(At(s, j) == '=' && At(s, j + 1) != '=')
      && !StartsOperator(At(s, j))
    else true
  }

  /** A token and the number of characters that it takes; no token where the lexer stops with an
      error. */
  datatype Scan = Scan(token: Option<Token>, taken: nat)

  /** The tokens of one character, and those that may be followed by an equals sign. The second
      form takes two characters even when the second is not an equals sign. */
  function Punctuation(s: string): Scan
    requires s != ""
  {
    var equal := At(s, 1) == '=';
    match s[0]
    case '+' => Scan(Some(Tok(Plus)), 1)
    case '-' => Scan(Some(Tok(Minus)), 1)
    case '*' => Scan(Some(Tok(Star)), 1)
    case '/' => Scan(Some(Tok(Slash)), 1)
    case '(' => Scan(Some(Tok(LeftParenthesis)), 1)
    case ')' => Scan(Some(Tok(RightParenthesis)), 1)
    case '[' => Scan(Some(Tok(LeftSquareBrace)), 1)
    case ']' => Scan(Some(Tok(RightSquareBrace)), 1)
    case ',' => Scan(Some(Tok(Comma)), 1)
    case '=' => Scan(Some(Tok(if equal then EqualEqual else Equal)), 2)
    case '<' => Scan(Some(Tok(if equal then LesserThanEqual else LesserThan)), 2)
    case '>' => Scan(Some(Tok(if equal then GreaterThanEqual else GreaterThan)), 2)
    case '!' => if equal then Scan(Some(Tok(NotEqual)), 2) else Scan(None, 1)
    case '\"' =>
      var k := Span(s[1..], Quoted);
      Scan(Some(Token(String, s[1..1 + k])), k + 2)
    case _ => if s[0] as int == 255 then Scan(Some(Tok(EndOfFile)), 1) else Scan(None, 0)
  }

  /** One round of `lex` on a text that does not start with a blank. */
  function ScanToken(s: string, column: nat): (r: Scan)
    requires s != "" && !IsBlank(s[0])
    ensures r.token.Some? ==> r.taken > 0
  {
    if column == 0 && LooksLikeCommand(s) then
      var k := Span(s, Line);
      Scan(Some(Token(RawLine, s[..k])), k)
    else if IsDigit(s[0]) then
      var k := Span(s, Digits);
      Scan(Some(Token(Integer, s[..k])), k)
    else if StartsName(s[0]) then
      var k := Span(s, NameChars);
      Scan(Some(Token(NameKind(s[..k]), s[..k])), k)
    else Punctuation(s)
  }

  /** The column after the characters of a text. */
  function ColumnAfter(column: nat, s: string): nat
    decreases |s|
  {
    if s == "" then column else ColumnAfter(if s[0] == '\n' then 0 else column + 1, s[1..])
  }

  lemma {:induction false} ColumnStep(column: nat, s: string, c: char)
    ensures ColumnAfter(column, s + [c]) == if c == '\n' then 0 else ColumnAfter(column, s) + 1
    decreases |s|
  {
    if s == "" {
      assert s + [c] == [c] && [c][1..] == "";
    } else {
      assert (s + [c])[1..] == s[1..] + [c];
      ColumnStep(if s[0] == '\n' then 0 else column + 1, s[1..], c);
    }
  }

  /** What `lex` does with the rest of its data: the tokens, and whether there was no error. */
  function LexFrom(s: string, column: nat): (seq<Token>, bool)
    decreases |s|
  {
    var b := Span(s, Blanks);
    if b == |s| then ([], true)
    else
      var t, c := s[b..], ColumnAfter(column, s[..b]);
      var scan := ScanToken(t, c);
      if scan.token.None? then ([], false)
      else
        var k := Min(scan.taken, |t|);
        var more := LexFrom(t[k..], ColumnAfter(c, t[..k]));
        ([scan.token.value] + more.0, more.1)
  }

  // ---------- Text that is read back ----------

  predicate AllIn(s: string, cls: Class) { forall i :: 0 <= i < |s| ==> In(s[i], cls) }

  /** The tokens that have a text. */
  predicate Lexical(t: Token) {
    match t.kind
    case Integer => t.value != "" && AllIn(t.value, Digits)
    case Name => t.value != "" && StartsName(t.value[0]) && AllIn(t.value, NameChars) && NameKind(t.value) == Name
    case String => AllIn(t.value, Quoted)
    case RawLine => false
    case EndOfFile => false
    case _ => t.value == Spelling(t.kind)
  }

  ghost predicate AllLexical(ts: seq<Token>) { forall t :: t in ts ==> Lexical(t) }

  function TextOf(t: Token): string {
    if t.kind == String then "\"" + t.value + "\"" else t.value
  }

  /** Every token with a space before it. */
  function Render(ts: Tokens): string {
    if ts == [] then "" else " " + TextOf(ts[0]) + Render(ts[1..])
  }

  /** The symbols with which the lexer passes the character that follows. */
  predicate Skips(k: TokenType) { k in {Equal, LesserThan, GreaterThan} }

  predicate IsWord(k: TokenType) { k in {Name, Var, Const, True, False, And, Or, Xor, Not} }

  /** What may follow the text of a token: the end, a space, or anything that does not run into it. */
  predicate Parted(t: Token, rest: string) {
    rest != "" && rest[0] != ' ' ==>
      && !Skips(t.kind)
      && (t.kind == Integer ==> !In(rest[0], Digits))
      && (IsWord(t.kind) ==> !In(rest[0], NameChars))
  }

  /** The scanner finds the token and takes its text, perhaps with a space after it. */
  ghost predicate ReadsBack(t: Token, rest: string, column: nat) {
    var text, s := TextOf(t), TextOf(t) + rest;
    && text != "" && text[|text| - 1] != '\n' && !IsBlank(s[0])
    && var r := ScanToken(s, column);
       r.token == Some(t) && (r.taken == |text| || (r.taken == |text| + 1 && (rest == "" || rest[0] == ' ')))
  }

  /** A token that is a run of characters. */
  lemma {:induction false} RunScans(t: Token, rest: string, column: nat, cls: Class)
    requires column > 0 && t.value != "" && AllIn(t.value, cls) && (rest == "" || !In(rest[0], cls))
    requires (t.kind == Integer && cls == Digits)
      || (t.kind != String && cls == NameChars && StartsName(t.value[0]) && NameKind(t.value) == t.kind)
    ensures ReadsBack(t, rest, column)
  {
    hide LooksLikeCommand, NameKind, Punctuation;
    var s, k := t.value + rest, |t.value|;
    assert s[..k] == t.value;
    assert In(t.value[0], cls) && In(t.value[k - 1], cls);
    SpanIs(s, cls, k);
  }

  lemma {:induction false} QuotedScans(t: Token, rest: string, column: nat)
    requires column > 0 && t.kind == String && AllIn(t.value, Quoted)
    ensures ReadsBack(t, rest, column)
  {
    hide LooksLikeCommand, NameKind;
    var s, k := "\"" + t.value + "\"" + rest, |t.value|;
    assert s[1..] == t.value + ("\"" + rest);
    assert s[1..][k] == '\"';
    SpanIs(s[1..], Quoted, k);
    assert s[1..1 + k] == t.value;
  }

  lemma {:induction false} SymbolScans(t: Token, rest: string, column: nat)
    requires column > 0 && Lexical(t) && Parted(t, rest)
    requires t.kind !in {Integer, Name, String, Var, Const, True, False, And, Or, Xor, Not}
    ensures ReadsBack(t, rest, column)
  {
    hide LooksLikeCommand, NameKind, Span;
    var s := t.value + rest;
    assert |t.value| == 1 ==> At(s, 1) == At(rest, 0);
  }

  /** A token is read back from its text; some take the space after it too. */
  lemma {:induction false} ScansBack(t: Token, rest: string, column: nat)
    requires Lexical(t) && Parted(t, rest) && column > 0
    ensures ReadsBack(t, rest, column)
  {
    hide ReadsBack;
    match t.kind
    case Integer => RunScans(t, rest, column, Digits);
    case String => QuotedScans(t, rest, column);
    case Name => RunScans(t, rest, column, NameChars);
    case Var => RunScans(t, rest, column, NameChars);
    case Const => RunScans(t, rest, column, NameChars);
    case True => RunScans(t, rest, column, NameChars);
    case False => RunScans(t, rest, column, NameChars);
    case And => RunScans(t, rest, column, NameChars);
    case Or => RunScans(t, rest, column, NameChars);
    case Xor => RunScans(t, rest, column, NameChars);
    case Not => RunScans(t, rest, column, NameChars);
    case _ => SymbolScans(t, rest, column);
  }

  /** The blanks, one token, and the rest. */
  lemma {:induction false} LexStep(s: string, column: nat, b: nat)
    requires b < |s| && b == Span(s, Blanks) && ScanToken(s[b..], ColumnAfter(column, s[..b])).token.Some?
    ensures var t, c := s[b..], ColumnAfter(column, s[..b]);
      var k := Min(ScanToken(t, c).taken, |t|);
      var more := LexFrom(t[k..], ColumnAfter(c, t[..k]));
      LexFrom(s, column) == ([ScanToken(t, c).token.value] + more.0, more.1)
  {
    hide ScanToken, ColumnAfter;
  }

  /** A text that ends in a character of the line leaves the column behind it. */
  lemma {:induction false} ColumnPositive(column: nat, s: string)
    requires s != "" && s[|s| - 1] != '\n'
    ensures ColumnAfter(column, s) > 0
  {
    assert s == s[..|s| - 1] + [s[|s| - 1]];
    ColumnStep(column, s[..|s| - 1], s[|s| - 1]);
  }

  /** From the text of a token, with or without a space before it, that token is taken. What is
      left may have lost its first space. */
  lemma {:induction false} TakesOne(token: Token, rest: string, s: string, column: nat) returns (left: string, c: nat)
    requires Lexical(token) && Parted(token, rest)
    requires s == " " + (TextOf(token) + rest) || (column > 0 && s == TextOf(token) + rest)
    ensures left == rest || (rest != "" && rest[0] == ' ' && left == rest[1..])
    ensures c > 0 && LexFrom(s, column) == ([token] + LexFrom(left, c).0, LexFrom(left, c).1)
  {
    hide ScanToken, Lexical, ColumnAfter, LexFrom, TextOf, Span;
    var text := TextOf(token);
    ScansBack(token, rest, 1);
    var b := if s == text + rest then 0 else 1;
    var t := s[b..];
    assert t == text + rest && forall i :: 0 <= i < |text| ==> t[i] == text[i];
    var here := Before(s, column, b);
    SpanIs(s, Blanks, b);
    ScansBack(token, rest, here);
    LexStep(s, column, b);
    var k := Min(ScanToken(t, here).taken, |t|);
    left := t[k..];
    AfterText(text, rest, k);
    ColumnPositive(here, t[..k]);
    c := ColumnAfter(here, t[..k]);
  }

  lemma {:induction false} AfterText(text: string, rest: string, k: nat)
    requires text != "" && (k == |text| || (k == |text| + 1 <= |text + rest| && rest[0] == ' '))
    ensures (text + rest)[k..] == (if k == |text| then rest else rest[1..])
    ensures (text + rest)[..k][k - 1] == (if k == |text| then text[k - 1] else ' ')
  {}

  /** The column after a space, or after none. */
  lemma {:induction false} Before(s: string, column: nat, b: nat) returns (c: nat)
    requires b <= 1 && b < |s| && (b == 1 ==> s[0] == ' ') && (b == 0 ==> column > 0)
    ensures c == ColumnAfter(column, s[..b]) && c > 0
  {
    c := ColumnAfter(column, s[..b]);
    if b == 1 { ColumnPositive(column, s[..b]); }
  }

  /** Lexing inverts rendering. What is left after a token may have lost its first space. */
  lemma {:induction false} LexesBack(ts: Tokens, s: string, column: nat)
    requires forall t :: t in ts ==> Lexical(t)
    requires s == Render(ts) || (ts != [] && column > 0 && s == Render(ts)[1..])
    ensures LexFrom(s, column) == (ts, true)
    decreases |ts|
  {
    hide Lexical, TextOf, Span;
    if ts != [] {
      var rest := Render(ts[1..]);
      assert Render(ts) == " " + (TextOf(ts[0]) + rest);
      var left, c := TakesOne(ts[0], rest, s, column);
      LexesBack(ts[1..], left, c);
      assert [ts[0]] + ts[1..] == ts;
    }
  }

  /** Without a space after it, an equals sign, `<` or `>` takes the next character with it,
      whatever it is: what is read does not depend on that character, but for the end of a line. */
  lemma {:induction false} OperatorSkips(k: TokenType, c: char, rest: string, column: nat)
    requires Skips(k) && c != '=' && column > 0
    ensures var next := if c == '\n' then 0 else column + 2;
      LexFrom(Spelling(k) + [c] + rest, column) == ([Tok(k)] + LexFrom(rest, next).0, LexFrom(rest, next).1)
  {
    hide LexFrom, Span;
    var s := Spelling(k) + [c] + rest;
    SpanIs(s, Blanks, 0);
    assert s[0..] == s && s[..0] == "" && At(s, 1) == c;
    assert ScanToken(s, column) == Scan(Some(Tok(k)), 2);
    LexStep(s, column, 0);
    assert s[2..] == rest && s[..2] == Spelling(k) + [c];
    ColumnStep(column, Spelling(k), c);
    ColumnStep(column, "", Spelling(k)[0]);
    assert "" + [Spelling(k)[0]] == Spelling(k);
  }
}
