/** Which lines are commands: what is typed at the prompt decides it by its first characters, and with
    the characters and words written out this is what the lexer makes of it. */
module CashCommands {
  import opened Wrappers
  import opened CashSyntax
  import opened CashLexer

  predicate Letter(c: char) { 'a' <= c <= 'z' || 'A' <= c <= 'Z' || c == '_' }

  predicate Figure(c: char) { '0' <= c <= '9' }

  predicate Blank(c: char) { c in " \t\n\r\U{B}\U{C}" }

  const BEFORE_EXPRESSION := "+-(\"["
  const AFTER_NAME := "+-*/=!<>["

  /** The words of the language. */
  const KEYWORDS: seq<string> := ["var", "const", "true", "false", "and", "or", "xor", "not"]

  predicate IsName(s: string) {
    s != "" && Letter(s[0]) && forall i :: 0 <= i < |s| ==> Letter(s[i]) || Figure(s[i])
  }

  predicate AllBlank(s: string) { forall i :: 0 <= i < |s| ==> Blank(s[i]) }

  /** The text up to the end of its first line. */
  function FirstLine(s: string): (line: string)
    ensures line <= s && '\n' !in line && (|line| < |s| ==> s[|line|] == '\n')
  {
    if s == "" || s[0] == '\n' then "" else [s[0]] + FirstLine(s[1..])
  }

  /** The first line is one command; what is on the lines after it is read for itself. */
  ghost predicate StartsWithCommand(s: string) {
    var line := FirstLine(s);
    var more := LexFrom(s[|line|..], |line|);
    LexFrom(s, 0) == ([Token(RawLine, line)] + more.0, more.1)
  }

  /** No token is a command. */
  ghost predicate NoCommand(ts: Tokens) { forall t :: t in ts ==> t.kind != RawLine }

  // ---------- Characters ----------

  lemma {:induction false} Characters(c: char)
    ensures (IsBlank(c) <==> Blank(c)) && (IsDigit(c) <==> Figure(c)) && (StartsName(c) <==> Letter(c))
    ensures In(c, NameChars) <==> Letter(c) || Figure(c)
    ensures StartsExpression(c) <==> c in BEFORE_EXPRESSION
    ensures StartsOperator(c) <==> c in AFTER_NAME
  {}

  lemma {:induction false} KeywordKinds(w: string)
    ensures NameKind(w) == Name <==> w !in KEYWORDS
  {}

  // ---------- Behind the start of a line ----------

  /** On one line, from behind its start, there is no command. */
  lemma {:induction false} NoneBehindStart(s: string, column: nat)
    requires '\n' !in s && column > 0
    ensures NoCommand(LexFrom(s, column).0)
    decreases |s|
  {
    hide LooksLikeCommand, NameKind, Punctuation, Span;
    var b := Span(s, Blanks);
    if b < |s| {
      var t, c := s[b..], ColumnAfter(column, s[..b]);
      ColumnStays(column, s[..b]);
      var scan := ScanToken(t, c);
      if scan.token.Some? {
        ScanIsNone(t, c);
        var k := Min(scan.taken, |t|);
        ColumnStays(c, t[..k]);
        NoneBehindStart(t[k..], ColumnAfter(c, t[..k]));
        LexStep(s, column, b);
      }
    }
  }

  lemma {:induction false} ColumnStays(column: nat, s: string)
    requires '\n' !in s
    ensures ColumnAfter(column, s) == column + |s|
    decreases |s|
  {
    if s != "" {
      assert s[0] in s;
      ColumnStays(column + 1, s[1..]);
    }
  }

  lemma {:induction false} ScanIsNone(t: string, column: nat)
    requires t != "" && !IsBlank(t[0]) && (column > 0 || !LooksLikeCommand(t))
    ensures var r := ScanToken(t, column).token; r.Some? ==> r.value.kind != RawLine
  {
    hide LooksLikeCommand, Span;
  }

  // ---------- The start of a line ----------

  /** The line is no command; if it is all of the text, there is none. */
  ghost predicate StartsOtherwise(s: string) {
    && (LexFrom(s, 0).0 != [] ==> LexFrom(s, 0).0[0].kind != RawLine)
    && ('\n' !in s ==> NoCommand(LexFrom(s, 0).0))
  }

  lemma {:induction false} LineSpan(s: string)
    ensures FirstLine(s) == s[..Span(s, Line)]
  {
    var line := FirstLine(s);
    SpanIs(s, Line, |line|);
  }

  lemma {:induction false} NoSpan(s: string)
    requires s != "" && !IsBlank(s[0])
    ensures Span(s, Blanks) == 0 && s[0..] == s && s[..0] == "" && ColumnAfter(0, s[..0]) == 0
  {
    SpanIs(s, Blanks, 0);
  }

  lemma {:induction false} TakenAsCommand(s: string)
    requires s != "" && !IsBlank(s[0]) && LooksLikeCommand(s)
    ensures StartsWithCommand(s)
  {
    hide LooksLikeCommand, LexFrom, Span;
    var line := FirstLine(s);
    NoSpan(s);
    LineSpan(s);
    assert ScanToken(s, 0) == Scan(Some(Token(RawLine, line)), |line|);
    LexStep(s, 0, 0);
    ColumnStays(0, line);
    assert s[..|line|] == line;
  }

  lemma {:induction false} NotTaken(s: string)
    requires s != "" && !IsBlank(s[0]) && !LooksLikeCommand(s)
    ensures StartsOtherwise(s) && !StartsWithCommand(s)
  {
    hide LooksLikeCommand, LexFrom, Span, ScanToken;
    NoSpan(s);
    var scan := ScanToken(s, 0);
    AlwaysScanned(s);
    ScanIsNone(s, 0);
    var k := Min(scan.taken, |s|);
    LexStep(s, 0, 0);
    if '\n' !in s {
      ColumnStays(0, s[..k]);
      NoneBehindStart(s[k..], ColumnAfter(0, s[..k]));
    }
  }

  /** At the start of a line there is always a token: what is no symbol is a command. */
  lemma {:induction false} AlwaysScanned(s: string)
    requires s != "" && !IsBlank(s[0])
    ensures ScanToken(s, 0).token.Some?
  {
    hide Span, NameKind;
  }

  lemma {:induction false} WholeLine(s: string)
    requires '\n' !in s
    ensures FirstLine(s) == s
  {
    if s != "" {
      assert s[0] in s;
      WholeLine(s[1..]);
    }
  }

  /** A line of its own that is a command is that one token. */
  lemma {:induction false} OneCommand(s: string)
    requires '\n' !in s && StartsWithCommand(s)
    ensures LexFrom(s, 0) == ([Token(RawLine, s)], true)
  {
    var line := FirstLine(s);
    WholeLine(s);
    assert s[|line|..] == "";
    NothingLeft(|line|);
    assert [Token(RawLine, s)] + [] == [Token(RawLine, s)];
  }

  lemma {:induction false} NothingLeft(column: nat)
    ensures LexFrom("", column) == ([], true)
  {
    hide Span;
  }

  /** A line that starts with a name is a command exactly when the name is no word of the language and
      what comes after it and the blanks behind it is no operator, equals sign or bracket. */
  lemma {:induction false} NameLine(name: string, gap: string, rest: string)
    requires IsName(name) && AllBlank(gap) && (rest != "" ==> !Blank(rest[0]))
    requires gap == "" && rest != "" ==> !Letter(rest[0]) && !Figure(rest[0])
    ensures var s := name + gap + rest;
      && (StartsWithCommand(s) <==> name !in KEYWORDS && (rest == "" || rest[0] !in AFTER_NAME))
      && (StartsWithCommand(s) || StartsOtherwise(s))
  {
    hide LexFrom, Span, NameKind, StartsWithCommand, StartsOtherwise, StartsExpression, StartsOperator;
    var s, i, j := name + gap + rest, |name|, |name| + |gap|;
    NameEnds(name, gap, rest);
    KeywordKinds(name);
    Characters(s[0]);
    Characters(At(s, j));
    if LooksLikeCommand(s) { TakenAsCommand(s); } else { NotTaken(s); }
  }

  lemma {:induction false} NameEnds(name: string, gap: string, rest: string)
    requires IsName(name) && AllBlank(gap) && (rest != "" ==> !Blank(rest[0]))
    requires gap == "" && rest != "" ==> !Letter(rest[0]) && !Figure(rest[0])
    ensures var s := name + gap + rest;
      && s[0] == name[0] && Span(s, NameChars) == |name| && s[..|name|] == name
      && Span(s[|name|..], Blanks) == |gap| && At(s, |name| + |gap|) == (if rest == "" then '\0' else rest[0])
  {
    var s := name + gap + rest;
    forall i | 0 <= i < |name| ensures In(s[i], NameChars) { Characters(s[i]); }
    if |name| < |s| {
      Characters(s[|name|]);
      assert gap != "" ==> s[|name|] == gap[0];
    }
    SpanIs(s, NameChars, |name|);
    var t := s[|name|..];
    assert t == gap + rest;
    forall i | 0 <= i < |gap| ensures In(t[i], Blanks) { Characters(t[i]); }
    if rest != "" { Characters(rest[0]); }
    SpanIs(t, Blanks, |gap|);
  }

  /** Every line that starts with a letter or an underscore is of that form. */
  lemma {:induction false} NameAndRest(s: string) returns (name: string, gap: string, rest: string)
    requires s != "" && Letter(s[0])
    ensures s == name + gap + rest && IsName(name) && AllBlank(gap) && (rest != "" ==> !Blank(rest[0]))
    ensures gap == "" && rest != "" ==> !Letter(rest[0]) && !Figure(rest[0])
  {
    var i := Span(s, NameChars);
    var j := i + Span(s[i..], Blanks);
    name, gap, rest := s[..i], s[i..j], s[j..];
    Characters(s[0]);
    forall k | 0 <= k < |name| ensures Letter(name[k]) || Figure(name[k]) { Characters(name[k]); }
    forall k | 0 <= k < |gap| ensures Blank(gap[k]) {
      assert gap[k] == s[i..][k];
      Characters(gap[k]);
    }
    if j < |s| {
      assert rest[0] == s[i..][j - i];
      Characters(rest[0]);
    }
  }

  /** A line that starts with anything else but a blank is a command, unless that is a digit, a sign, a
      parenthesis, a quote or a bracket. */
  lemma {:induction false} OtherLine(s: string)
    requires s != "" && !Blank(s[0]) && !Letter(s[0])
    ensures StartsWithCommand(s) <==> !Figure(s[0]) && s[0] !in BEFORE_EXPRESSION
    ensures StartsWithCommand(s) || StartsOtherwise(s)
  {
    hide LexFrom, Span, NameKind, StartsWithCommand, StartsOtherwise, StartsExpression, StartsOperator;
    Characters(s[0]);
    if LooksLikeCommand(s) { TakenAsCommand(s); } else { NotTaken(s); }
  }

  /** A line that is indented is never a command. */
  lemma {:induction false} IndentedLine(s: string)
    requires s != "" && Blank(s[0]) && '\n' !in s
    ensures NoCommand(LexFrom(s, 0).0)
  {
    hide LexFrom, ScanToken, Span;
    var b := Span(s, Blanks);
    Characters(s[0]);
    SpanPositive(s);
    if b < |s| {
      ColumnStays(0, s[..b]);
      var t, c := s[b..], ColumnAfter(0, s[..b]);
      if ScanToken(t, c).token.Some? {
        ScanIsNone(t, c);
        var k := Min(ScanToken(t, c).taken, |t|);
        ColumnStays(c, t[..k]);
        NoneBehindStart(t[k..], ColumnAfter(c, t[..k]));
        LexStep(s, 0, b);
      } else {
        NoToken(s, b);
      }
    } else {
      OnlyBlanks(s);
    }
  }

  lemma {:induction false} SpanPositive(s: string)
    requires s != "" && IsBlank(s[0])
    ensures Span(s, Blanks) > 0
  {}

  lemma {:induction false} NoToken(s: string, b: nat)
    requires b == Span(s, Blanks) < |s| && ScanToken(s[b..], ColumnAfter(0, s[..b])).token.None?
    ensures LexFrom(s, 0) == ([], false)
  {
    hide ScanToken, Span;
  }

  lemma {:induction false} OnlyBlanks(s: string)
    requires Span(s, Blanks) == |s|
    ensures LexFrom(s, 0) == ([], true)
  {
    hide Span;
  }

  /** After the end of a line the next one is read as a text of its own. */
  lemma {:induction false} NextLine(t: string, column: nat)
    ensures LexFrom("\n" + t, column) == LexFrom(t, 0)
  {
    hide ScanToken, Span;
    var s, b := "\n" + t, Span(t, Blanks);
    assert s[1..] == t;
    BlankFirst(s);
    assert s[b + 1..] == t[b..] && s[..b + 1] == "\n" + t[..b];
    assert ColumnAfter(column, s[..b + 1]) == ColumnAfter(0, t[..b]) by {
      assert s[..b + 1][1..] == t[..b];
    }
  }

  lemma {:induction false} BlankFirst(s: string)
    requires s != "" && s[0] == '\n'
    ensures Span(s, Blanks) == 1 + Span(s[1..], Blanks)
  {}

  /** So in a text of several lines a command is one token, and what is below it is read for itself. */
  lemma {:induction false} CommandThenLines(line: string, more: string)
    requires '\n' !in line && StartsWithCommand(line + "\n" + more)
    ensures var rest := LexFrom(more, 0);
      LexFrom(line + "\n" + more, 0) == ([Token(RawLine, line)] + rest.0, rest.1)
  {
    hide LexFrom;
    var s := line + "\n" + more;
    LineEnds(line, more);
    assert s[|line|..] == "\n" + more;
    NextLine(more, |line|);
  }

  lemma {:induction false} LineEnds(line: string, more: string)
    requires '\n' !in line
    ensures FirstLine(line + "\n" + more) == line
  {
    var s := line + "\n" + more;
    if line != "" {
      assert line[0] in line && s[0] == line[0] && s[1..] == line[1..] + "\n" + more;
      LineEnds(line[1..], more);
    }
  }

  // ---------- The tokens of the other lines ----------

  /** The words and symbols of the language and what they are. */
  predicate Means(text: string, kind: TokenType) {
    match kind
    case Plus => text == "+" case Minus => text == "-" case Star => text == "*" case Slash => text == "/"
    case Equal => text == "=" case LeftParenthesis => text == "(" case RightParenthesis => text == ")"
    case LeftSquareBrace => text == "[" case RightSquareBrace => text == "]" case Comma => text == ","
    case EqualEqual => text == "==" case NotEqual => text == "!=" case LesserThan => text == "<"
    case GreaterThan => text == ">" case LesserThanEqual => text == "<=" case GreaterThanEqual => text == ">="
    case And => text == "and" case Or => text == "or" case Xor => text == "xor" case Not => text == "not"
    case Var => text == "var" case Const => text == "const" case True => text == "true"
    case False => text == "false"
    case _ => false
  }

  lemma {:induction false} VocabularyRead(text: string, kind: TokenType)
    requires Means(text, kind)
    ensures LexFrom(" " + text, 0) == ([Token(kind, text)], true)
  {
    hide LexFrom;
    assert Lexical(Token(kind, text));
    OneToken(Token(kind, text));
  }

  lemma {:induction false} OneToken(t: Token)
    requires Lexical(t)
    ensures LexFrom(" " + TextOf(t), 0) == ([t], true)
  {
    hide LexFrom, Lexical, TextOf;
    assert Render([t]) == " " + TextOf(t) + "";
    LexesBack([t], " " + TextOf(t), 0);
  }

  /** Names, numbers and strings. */
  lemma {:induction false} OthersRead(name: string, figures: string, quoted: string)
    requires IsName(name) && name !in KEYWORDS && '\"' !in quoted
    requires figures != "" && forall i :: 0 <= i < |figures| ==> Figure(figures[i])
    ensures LexFrom(" " + name, 0) == ([Token(Name, name)], true)
    ensures LexFrom(" " + figures, 0) == ([Token(Integer, figures)], true)
    ensures LexFrom(" \"" + quoted + "\"", 0) == ([Token(String, quoted)], true)
  {
    hide LexFrom, NameKind;
    KeywordKinds(name);
    forall i | 0 <= i < |name| ensures In(name[i], NameChars) { Characters(name[i]); }
    forall i | 0 <= i < |quoted| ensures In(quoted[i], Quoted) { assert quoted[i] in quoted; }
    OneToken(Token(Name, name));
    OneToken(Token(Integer, figures));
    OneToken(Token(String, quoted));
    assert " " + ("\"" + quoted + "\"") == " \"" + quoted + "\"";
  }

  /** Any other character stops the lexer with an error, as does an exclamation mark alone. */
  lemma {:induction false} IllegalCharacter(c: char, rest: string)
    requires !Blank(c) && !Letter(c) && !Figure(c) && c !in "+-*/()[],=<>\"" && c as int != 255
    requires c == '!' ==> rest == "" || rest[0] != '='
    ensures LexFrom(" " + [c] + rest, 0) == ([], false)
  {
    hide LexFrom, LooksLikeCommand, Span, NameKind;
    var s := " " + [c] + rest;
    Characters(c);
    SpanIs(s, Blanks, 1);
    assert s[1..] == [c] + rest && s[..1] == " ";
    ColumnStays(0, " ");
    assert At(s[1..], 1) == At(rest, 0);
    NoToken(s, 1);
  }

  // ---------- The words of a command ----------

  /** A part of a word, with or without quotes around it. */
  datatype Piece = Bare(text: string) | Quotes(text: string)

  predicate Proper(p: Piece) {
    match p
    case Bare(t) => forall i :: 0 <= i < |t| ==> !Blank(t[i]) && t[i] != '\"'
    case Quotes(t) => '\"' !in t
  }

  /** A word as it is typed, after some blanks. */
  datatype Typed = Typed(gap: string, pieces: seq<Piece>)

  predicate AllProper(ps: seq<Piece>) { forall p :: p in ps ==> Proper(p) }

  function Source(ps: seq<Piece>): string {
    if ps == [] then ""
    else (match ps[0] case Bare(t) => t case Quotes(t) => "\"" + t + "\"") + Source(ps[1..])
  }

  function Meant(ps: seq<Piece>): string { if ps == [] then "" else ps[0].text + Meant(ps[1..]) }

  function LineOf(ws: seq<Typed>, trail: string): string {
    if ws == [] then trail else ws[0].gap + Source(ws[0].pieces) + LineOf(ws[1..], trail)
  }

  /** The words, without those that are empty. */
  function WordsOf(ws: seq<Typed>): seq<string> {
    if ws == [] then []
    else (if Meant(ws[0].pieces) == "" then [] else [Meant(ws[0].pieces)]) + WordsOf(ws[1..])
  }

  /** There are blanks between words. */
  ghost predicate Separated(ws: seq<Typed>) {
    forall i :: 0 <= i < |ws| ==> AllBlank(ws[i].gap) && AllProper(ws[i].pieces) && (i > 0 ==> ws[i].gap != "")
  }

  lemma {:induction false} BareRead(t: string, curr: string, rest: string)
    requires Proper(Bare(t))
    ensures Words(t + rest, curr, false) == Words(rest, curr + t, false)
    decreases |t|
  {
    if t == "" {
      assert t + rest == rest && curr + t == curr;
    } else {
      Characters(t[0]);
      assert (t + rest)[1..] == t[1..] + rest && curr + [t[0]] + t[1..] == curr + t;
      BareRead(t[1..], curr + [t[0]], rest);
    }
  }

  lemma {:induction false} QuotesRead(t: string, curr: string, rest: string)
    requires '\"' !in t
    ensures Words(t + "\"" + rest, curr, true) == Words(rest, curr + t, false)
    decreases |t|
  {
    var s := t + "\"" + rest;
    if t == "" {
      assert s[1..] == rest && curr + t == curr;
    } else {
      assert t[0] in t && s[1..] == t[1..] + "\"" + rest && curr + [t[0]] + t[1..] == curr + t;
      QuotesRead(t[1..], curr + [t[0]], rest);
    }
  }

  lemma {:induction false} PiecesRead(ps: seq<Piece>, curr: string, rest: string)
    requires AllProper(ps)
    ensures Words(Source(ps) + rest, curr, false) == Words(rest, curr + Meant(ps), false)
    decreases |ps|
  {
    hide Words, Source, Meant;
    if ps == [] {
      NoPieces();
      assert Source(ps) + rest == rest && curr + Meant(ps) == curr;
    } else {
      var t, more := ps[0].text, Source(ps[1..]) + rest;
      PiecesMore(ps);
      assert ps[0] in ps && curr + t + Meant(ps[1..]) == curr + Meant(ps);
      PiecesRead(ps[1..], curr + t, rest);
      match ps[0] {
        case Bare(_) =>
          assert Source(ps) + rest == t + more;
          BareRead(t, curr, more);
        case Quotes(_) =>
          assert Source(ps) + rest == "\"" + (t + "\"" + more);
          QuoteOpens(t + "\"" + more, curr);
          QuotesRead(t, curr, more);
      }
    }
  }

  lemma {:induction false} NoPieces()
    ensures Source([]) == "" && Meant([]) == ""
  {}

  lemma {:induction false} PiecesMore(ps: seq<Piece>)
    requires ps != []
    ensures Meant(ps) == ps[0].text + Meant(ps[1..])
    ensures Source(ps) == (if ps[0].Bare? then ps[0].text else "\"" + ps[0].text + "\"") + Source(ps[1..])
  {}

  lemma {:induction false} QuoteOpens(s: string, curr: string)
    ensures Words("\"" + s, curr, false) == Words(s, curr, true)
  {
    assert ("\"" + s)[1..] == s;
  }

  function Pending(curr: string): seq<string> { if curr == "" then [] else [curr] }

  lemma {:induction false} GapRead(gap: string, curr: string, rest: string)
    requires AllBlank(gap) && (gap == "" ==> curr == "")
    ensures Words(gap + rest, curr, false) == Pending(curr) + Words(rest, "", false)
    decreases |gap|
  {
    if gap == "" {
      assert gap + rest == rest && [] + Words(rest, "", false) == Words(rest, "", false);
    } else {
      Characters(gap[0]);
      assert (gap + rest)[1..] == gap[1..] + rest;
      GapRead(gap[1..], "", rest);
      assert [] + Words(rest, "", false) == Words(rest, "", false);
    }
  }

  lemma {:induction false} NothingMore(curr: string)
    ensures Words("", curr, false) == Pending(curr)
  {}

  lemma {:induction false} WordsRead(ws: seq<Typed>, trail: string, curr: string)
    requires Separated(ws) && AllBlank(trail) && (ws != [] && curr != "" ==> ws[0].gap != "")
    ensures Words(LineOf(ws, trail), curr, false) == Pending(curr) + WordsOf(ws)
    decreases |ws|
  {
    hide Words, Source, Meant, AllBlank, AllProper;
    if ws == [] {
      assert trail + "" == trail && Pending(curr) + [] == Pending(curr);
      if trail == "" { NothingMore(curr); } else {
        GapRead(trail, curr, "");
        NothingMore("");
      }
    } else {
      var w, more := ws[0], LineOf(ws[1..], trail);
      assert LineOf(ws, trail) == w.gap + (Source(w.pieces) + more);
      assert Separated(ws[1..]) && (|ws| > 1 ==> ws[1..][0].gap != "");
      GapRead(w.gap, curr, Source(w.pieces) + more);
      PiecesRead(w.pieces, "", more);
      assert "" + Meant(w.pieces) == Meant(w.pieces);
      WordsRead(ws[1..], trail, Meant(w.pieces));
    }
  }

  /** A line that is a command is read as its words: blanks separate them, quotes keep blanks and go. */
  lemma {:induction false} CommandRead(ws: seq<Typed>, trail: string)
    requires Separated(ws) && AllBlank(trail) && WordsOf(ws) != []
    requires '\n' !in LineOf(ws, trail) && StartsWithCommand(LineOf(ws, trail))
    ensures ParseAll(LexFrom(LineOf(ws, trail), 0).0) == ([Command(WordsOf(ws))], [])
  {
    hide LexFrom, LineOf, WordsOf, Words, StartsWithCommand, Separated, AllBlank;
    var line := LineOf(ws, trail);
    OneCommand(line);
    WordsRead(ws, trail, "");
    assert [] + WordsOf(ws) == WordsOf(ws);
    CommandParsed([Token(RawLine, line)], WordsOf(ws));
  }

  lemma {:induction false} CommandParsed(ts: Tokens, words: seq<string>)
    requires |ts| == 1 && ts[0].kind == RawLine && Words(ts[0].value, "", false) == words && words != []
    ensures ParseAll(ts) == ([Command(words)], [])
  {
    hide Words, ParseExpr, ParseDeclBody, Left;
    assert ParseDecl(ts) == ParsedNode(None, ts);
    assert ParseNode(ts) == ParsedNode(Some(Command(words)), ts[1..]);
    assert ts[1..] == [] && ParseAll([]) == ([], []) && [Command(words)] + [] == [Command(words)];
  }
}
