/** The scripts the shell reads from files. The last byte of a file is overwritten before the text
    is lexed, so what is read depends on how the file ends. */
module CashScript {
  import opened Wrappers
  import opened CashSyntax
  import opened CashRoundTrip
  import opened CashLexer
  import opened CashFrontEnd
  import CashWeight
  import CashSpacing

  /** The byte that a signed character cannot tell from the end of the file. */
  const END_OF_FILE: char := 255 as char

  /** The characters before the first one equal to `c`. */
  function Before(s: string, c: char): (r: string)
    ensures r <= s && c !in r && (|r| < |s| ==> s[|r|] == c)
  {
    if s == "" || s[0] == c then "" else [s[0]] + Before(s[1..], c)
  }

  lemma {:induction false} BeforeIs(s: string, c: char, k: nat)
    requires k <= |s| && c !in s[..k] && (k < |s| ==> s[k] == c)
    ensures Before(s, c) == s[..k]
  {
    if k > 0 {
      assert s[0] in s[..k];
      assert s[1..][..k - 1] == s[..k][1..] && s[..k] == [s[0]] + s[1..][..k - 1];
      BeforeIs(s[1..], c, k - 1);
    }
  }

  /** What the shell lexes of a file; nothing when the access to the last byte throws, because there
      is none. */
  function FileText(file: string): Option<string> {
    var bytes := Before(file, END_OF_FILE);
    if bytes == "" then None else Some(Before(bytes[..|bytes| - 1], '\0'))
  }

  /** A text with one more character is read as the text, whatever the character is, up to a NUL in it. The
      byte 255 ends the file and what is behind it does not matter. */
  lemma {:induction false} FileTextIs(text: string, behind: string, c: char, lost: string)
    requires (forall i :: 0 <= i < |text| ==> text[i] != '\0' && text[i] as int != 255) && c as int != 255
    requires (behind == "" || behind[0] == '\0') && forall i :: 0 <= i < |behind| ==> behind[i] as int != 255
    requires lost == "" || lost[0] as int == 255
    ensures FileText(text + behind + [c] + lost) == Some(text)
  {
    var bytes := text + behind + [c];
    var file := bytes + lost;
    assert file[..|bytes|] == bytes;
    BeforeIs(file, END_OF_FILE, |bytes|);
    var kept := bytes[..|bytes| - 1];
    assert kept == text + behind && kept[..|text|] == text;
    BeforeIs(kept, '\0', |text|);
  }

  /** `File::read` */
  method ReadBytes(file: string) returns (bytes: string)
    ensures bytes == Before(file, END_OF_FILE)
  {
    bytes := "";
    while |bytes| < |file| && file[|bytes|] != END_OF_FILE
      invariant bytes <= file && END_OF_FILE !in bytes
      decreases |file| - |bytes|
    {
      bytes := bytes + [file[|bytes|]];
    }
    assert file[..|bytes|] == bytes;
    BeforeIs(file, END_OF_FILE, |bytes|);
  }

  /** The string made of the characters before the first NUL. */
  method FromPointer(bytes: string) returns (s: string)
    requires '\0' in bytes
    ensures s == Before(bytes, '\0')
  {
    s := "";
    while bytes[|s|] != '\0'
      invariant |s| < |bytes| && s == bytes[..|s|] && '\0' !in s
      decreases |bytes| - |s|
    {
      s := s + [bytes[|s|]];
      assert s == bytes[..|s|];
      assert |s| == |bytes| ==> bytes == s;
    }
    BeforeIs(bytes, '\0', |s|);
  }

  /** The file is read, a NUL is stored in place of its last byte, and the rest is a string. */
  method LoadFile(file: string) returns (data: Option<string>)
    ensures data == FileText(file)
  {
    var bytes := ReadBytes(file);
    if |bytes| == 0 {
      return None;
    }
    ghost var text := bytes[..|bytes| - 1];
    bytes := bytes[|bytes| - 1 := '\0'];
    assert bytes == text + ['\0'];
    BeforeEnd(text);
    var s := FromPointer(bytes);
    data := Some(s);
  }

  lemma {:induction false} BeforeEnd(s: string)
    ensures Before(s + ['\0'], '\0') == Before(s, '\0')
  {
    var r := Before(s, '\0');
    assert (s + ['\0'])[..|r|] == r;
    BeforeIs(s + ['\0'], '\0', |r|);
  }

  /** What the shell does with a file. */
  method RunFile(file: string) returns (nodes: seq<Node>, ok: bool)
    ensures match FileText(file)
      case None => !ok && nodes == []
      case Some(data) =>
        var lexed := LexFrom(data, 0);
        ok == lexed.1 && nodes == if ok then ParseAll(lexed.0).0 else []
  {
    var data := LoadFile(file);
    if data.None? {
      return [], false;
    }
    nodes, ok := Read(data.value);
  }

  /** The file is read as the program. */
  ghost predicate FileReads(file: string, ns: seq<Node>) {
    FileText(file).Some? && var lexed := LexFrom(FileText(file).value, 0); lexed.1 && ParseAll(lexed.0).0 == ns
  }

  /** The characters can be in a script: no NUL, and not the one taken for the end. */
  ghost predicate Storable(s: string) { '\0' !in s && END_OF_FILE !in s }

  lemma {:induction false} StoredText(s: string, c: char)
    requires Storable(s) && c != END_OF_FILE
    ensures FileText(s + [c]) == Some(s)
  {
    BeforeIs(s + [c], END_OF_FILE, |s| + 1);
    assert (s + [c])[..|s| + 1] == s + [c] && (s + [c])[..|s|] == s;
    BeforeIs(s, '\0', |s|);
    assert s[..|s|] == s;
  }

  lemma {:induction false} CutText(s: string)
    requires Storable(s) && s != ""
    ensures FileText(s) == Some(s[..|s| - 1])
  {
    BeforeIs(s, END_OF_FILE, |s|);
    assert s[..|s|] == s;
    BeforeIs(s[..|s| - 1], '\0', |s| - 1);
    assert s[..|s| - 1][..|s| - 1] == s[..|s| - 1];
  }

  /** A file with one more byte than the text of a program, whatever it is, is read as the program. */
  lemma {:induction false} FileInvertsWrite(ns: seq<Node>, c: char)
    requires Writable(ns) && Storable(SourceOf(ns)) && c != END_OF_FILE
    ensures FileReads(SourceOf(ns) + [c], ns)
  {
    hide Writable, LexFrom, ParseAll, SourceOf, FileText, Storable;
    StoredText(SourceOf(ns), c);
    ReadInvertsWrite(ns);
  }

  // ---------- A file that ends with the program ----------

  /** Tokens that are read before something else. */
  lemma {:induction false} LexesThen(ts: Tokens, tail: string, s: string, column: nat) returns (left: string, c: nat)
    requires (forall t :: t in ts ==> Lexical(t)) && tail != "" && tail[0] == ' '
    requires s == Render(ts) + tail || (column > 0 && s == (Render(ts) + tail)[1..])
    ensures (left == tail || left == tail[1..]) && (if ts == [] then left == s && c == column else c > 0)
    ensures LexFrom(s, column) == (ts + LexFrom(left, c).0, LexFrom(left, c).1)
    decreases |ts|
  {
    hide Lexical, TextOf, LexFrom, Parted, IsBlank;
    if ts == [] {
      assert Render(ts) + tail == tail && ts + LexFrom(s, column).0 == LexFrom(s, column).0;
      left, c := s, column;
    } else {
      var rest := Render(ts[1..]) + tail;
      assert rest[0] == ' ';
      var text := TextOf(ts[0]) + rest;
      assert Render(ts) + tail == " " + text && (" " + text)[1..] == text by { FirstRendered(ts, tail); }
      assert Parted(ts[0], rest) by { SpaceParts(ts[0], rest); }
      var l, d := TakesOne(ts[0], rest, s, column);
      left, c := LexesThen(ts[1..], tail, l, d);
      assert ts + LexFrom(left, c).0 == [ts[0]] + (ts[1..] + LexFrom(left, c).0);
    }
  }

  lemma {:induction false} FirstRendered(ts: Tokens, tail: string)
    requires ts != []
    ensures Render(ts) + tail == " " + (TextOf(ts[0]) + (Render(ts[1..]) + tail))
    ensures (" " + (TextOf(ts[0]) + (Render(ts[1..]) + tail)))[1..] == TextOf(ts[0]) + (Render(ts[1..]) + tail)
  {
    hide TextOf;
    assert Render(ts) == " " + TextOf(ts[0]) + Render(ts[1..]);
  }

  lemma {:induction false} SpaceParts(t: Token, rest: string)
    requires rest == "" || rest[0] == ' '
    ensures Parted(t, rest)
  {}

  lemma {:induction false} RenderLast(ts: Tokens)
    requires ts != []
    ensures var n := |ts| - 1; Render(ts) == Render(ts[..n]) + (" " + TextOf(ts[n]))
  {
    hide Render, TextOf;
    var n := |ts| - 1;
    RenderStep(ts);
    if n > 0 {
      var last := " " + TextOf(ts[n]);
      RenderLast(ts[1..]);
      assert ts[1..][..n - 1] == ts[..n][1..] && ts[1..][n - 1] == ts[n];
      RenderStep(ts[..n]);
      Regrouped(" " + TextOf(ts[0]), Render(ts[..n][1..]), last);
    } else {
      assert ts[1..] == [] && ts[..0] == [];
      RenderNone();
    }
  }

  lemma {:induction false} RenderStep(ts: Tokens)
    requires ts != []
    ensures Render(ts) == " " + TextOf(ts[0]) + Render(ts[1..])
  {}

  lemma {:induction false} RenderNone()
    ensures Render([]) == ""
  {}

  lemma {:induction false} Regrouped(a: string, b: string, c: string)
    ensures a + (b + c) == (a + b) + c
  {}

  /** The kinds of the last token of an expression. */
  predicate Ends(k: TokenType) { k in {Integer, True, False, String, Name, RightParenthesis, RightSquareBrace} }

  function LastKind(ts: Tokens): TokenType
    requires ts != []
  {
    ts[|ts| - 1].kind
  }

  lemma {:induction false} LastOfBoth(a: Tokens, b: Tokens)
    requires b != []
    ensures LastKind(a + b) == LastKind(b)
  {}

  lemma {:induction false} PrintEnds(t: Text)
    requires Grammatical(t)
    ensures Ends(LastKind(Print(t)))
    decreases t
  {
    hide LastKind;
    match t {
      case Prefix(op, e) =>
        PrintEnds(e);
        LastOfBoth([Tok(op)], Print(e));
      case Infix(op, l, r) =>
        PrintEnds(r);
        LastOfBoth([Tok(op)], Print(r));
        LastOfBoth(Print(l), [Tok(op)] + Print(r));
      case Assign(x, at, e) =>
        PrintEnds(e);
        AssignEnds(x, at, e);
      case Paren(e) => EndsWith([Tok(LeftParenthesis)], Print(e), Tok(RightParenthesis));
      case Brackets(es) => EndsWith([Tok(LeftSquareBrace)], PrintAll(es), Tok(RightSquareBrace));
      case Digits(v) => EndsWith([], [], Token(Integer, v));
      case Word(v) => EndsWith([], [], Token(if v == "true" then True else False, v));
      case Quote(v) => EndsWith([], [], Token(String, v));
      case Ident(v) => EndsWith([], [], Token(Name, v));
    }
  }

  lemma {:induction false} EndsWith(a: Tokens, b: Tokens, t: Token)
    ensures LastKind(a + (b + [t])) == t.kind && LastKind([t]) == t.kind
  {}

  lemma {:induction false} AssignEnds(x: string, at: Option<Text>, e: Text)
    ensures LastKind(Print(Assign(x, at, e))) == LastKind(Print(e))
  {}

  lemma {:induction false} ProgramEnds(ns: seq<Node>)
    requires (forall n :: n in ns ==> Declaration(n)) && ns != []
    ensures var ts := PrintProgram(DeclsOf(ns)); |ts| > 1 && Ends(LastKind(ts))
  {
    hide Print;
    assert Declaration(ns[0]);
    if |ns| == 1 {
      MinimalIsText(ns[0].value.value);
      PrintEnds(DeclOf(ns[0]).value);
      assert DeclsOf(ns)[1..] == [];
    } else {
      ProgramEnds(ns[1..]);
      assert DeclsOf(ns)[1..] == DeclsOf(ns[1..]);
    }
  }

  /** What is left of the last token when its last character is gone: the string itself, a lighter
      token, or nothing. */
  lemma {:induction false} CutToken(t: Token, left: string, column: nat)
    requires Lexical(t) && Ends(t.kind) && column > 0
    requires var cut := TextOf(t)[..|TextOf(t)| - 1]; left == " " + cut || left == cut
    ensures var r := LexFrom(left, column);
      && r.1 && (t.kind == String ==> r.0 == [t])
      && (t.kind != String ==> CashWeight.Weight(r.0) < CashWeight.Weight([t]))
  {
    hide LexFrom, Lexical, TextOf;
    CashSpacing.FirstCharacter(t);
    var cut := TextOf(t)[..|TextOf(t)| - 1];
    if t.kind == String { QuotedText(t); }
    if cut == "" {
      BlankLexed(left, column);
      CashWeight.WeightOne(t);
    } else {
      var c := if left == cut then column else column + 1;
      if left != cut { CashSpacing.SpaceLexed(cut, column); }
      if t.kind == String { OpenString(t, cut, c); } else { ShorterWord(t, cut, c); }
    }
  }

  lemma {:induction false} QuotedText(t: Token)
    requires t.kind == String
    ensures |TextOf(t)| > 1 && TextOf(t)[..|TextOf(t)| - 1] == "\"" + t.value
  {}

  lemma {:induction false} BlankLexed(s: string, column: nat)
    requires s == "" || s == " "
    ensures LexFrom(s, column) == ([], true)
  {
    SpanIs(s, Blanks, |s|);
  }

  /** A string without its closing quote at the end of the text. */
  lemma {:induction false} OpenString(t: Token, cut: string, column: nat)
    requires Lexical(t) && t.kind == String && column > 0 && cut == "\"" + t.value
    ensures LexFrom(cut, column) == ([t], true)
  {
    hide LexFrom, LooksLikeCommand, ColumnAfter;
    SpanIs(cut, Blanks, 0);
    assert cut[0..] == cut && cut[..0] == "" && ColumnAfter(column, "") == column by { NoColumn(column); }
    assert cut[1..] == t.value;
    SpanIs(cut[1..], Quoted, |t.value|);
    assert cut[1..1 + |t.value|] == t.value;
    assert ScanToken(cut, column) == Scan(Some(t), |t.value| + 2);
    LexStep(cut, column, 0);
    assert Min(|t.value| + 2, |cut|) == |cut| && cut[|cut|..] == "";
    CashSpacing.NothingLexed(ColumnAfter(column, cut[..|cut|]));
    assert [t] + [] == [t];
  }

  lemma {:induction false} NoColumn(column: nat)
    ensures ColumnAfter(column, "") == column
  {}

  /** A number or a word without its last character. */
  lemma {:induction false} ShorterWord(t: Token, cut: string, column: nat)
    requires Lexical(t) && Ends(t.kind) && t.kind != String && column > 0
    requires cut != "" && cut == TextOf(t)[..|TextOf(t)| - 1]
    ensures var r := LexFrom(cut, column); r.1 && CashWeight.Weight(r.0) < CashWeight.Weight([t])
  {
    hide LexFrom, LooksLikeCommand, ColumnAfter, NameKind, Span;
    var cls := if t.kind == Integer then Class.Digits else NameChars;
    CashSpacing.WordText(t);
    CashSpacing.FirstCharacter(t);
    forall i | 0 <= i < |cut| ensures In(cut[i], cls) { assert cut[i] == t.value[i]; }
    SpanIs(cut, Blanks, 0);
    SpanIs(cut, cls, |cut|);
    NoColumn(column);
    assert cut[0..] == cut && cut[..0] == "" && cut[..|cut|] == cut && cut[|cut|..] == "";
    var r := ScanToken(cut, column);
    assert r.token.Some? && r.token.value.value == cut && r.taken == |cut|;
    LexStep(cut, column, 0);
    CashSpacing.NothingLexed(ColumnAfter(column, cut[..|cut|]));
    assert [r.token.value] + [] == [r.token.value];
    CashWeight.WeightOne(r.token.value);
    CashWeight.WeightOne(t);
  }

  /** A file that holds the text of a program and nothing after it. */
  lemma {:induction false} CutProgram(ns: seq<Node>) returns (init: Tokens, last: Token, more: Tokens)
    requires Writable(ns) && ns != [] && SourceOf(ns) != ""
    ensures (forall n :: n in ns ==> Declaration(n)) && PrintProgram(DeclsOf(ns)) == init + [last] && Lexical(last)
    ensures Ends(last.kind) && SourceOf(ns)[|SourceOf(ns)| - 1] == TextOf(last)[|TextOf(last)| - 1]
    ensures LexFrom(SourceOf(ns)[..|SourceOf(ns)| - 1], 0) == (init + more, true)
    ensures if last.kind == String then more == [last] else CashWeight.Weight(more) < CashWeight.Weight([last])
  {
    hide LexFrom, Lexical, Writable, Declaration, PrintProgram, DeclsOf, TextOf;
    WritableDeclares(ns);
    ProgramLexical(ns);
    ProgramEnds(ns);
    var ts := PrintProgram(DeclsOf(ns));
    var n := |ts| - 1;
    init, last := ts[..n], ts[n];
    RenderLast(ts);
    CashSpacing.FirstCharacter(last);
    var text := TextOf(last);
    var tail := " " + text[..|text| - 1];
    assert " " + text == tail + [text[|text| - 1]];
    assert SourceOf(ns)[..|SourceOf(ns)| - 1] == Render(init) + tail;
    var left, c := LexesThen(init, tail, Render(init) + tail, 0);
    CutToken(last, left, c);
    more := LexFrom(left, c).0;
  }

  lemma {:induction false} QuoteEnds(t: Token)
    requires Lexical(t) && Ends(t.kind)
    ensures TextOf(t) != "" && (TextOf(t)[|TextOf(t)| - 1] == '\"' <==> t.kind == String)
  {
    hide NameKind;
    if t.kind == Integer { assert In(t.value[|t.value| - 1], Class.Digits); }
    if t.kind == Name { assert In(t.value[|t.value| - 1], NameChars); }
  }

  /** A file that ends with the text of a program is read as the program exactly when that text ends
      with a quote. */
  lemma {:induction false} FileReadsIff(ns: seq<Node>)
    requires Writable(ns) && Storable(SourceOf(ns)) && SourceOf(ns) != ""
    ensures FileReads(SourceOf(ns), ns) <==> SourceOf(ns)[|SourceOf(ns)| - 1] == '\"'
  {
    hide LexFrom, Lexical, Writable, Declaration, PrintProgram, ParseAll, FileText, Storable, TextOf, SourceOf;
    NoProgramNoText(ns);
    CutText(SourceOf(ns));
    var init, last, more := CutProgram(ns);
    QuoteEnds(last);
    if last.kind == String {
      ParseInvertsPrint(ns);
    } else if ParseAll(init + more).0 == ns {
      CashWeight.PrintIsLightest(init + more);
      CashWeight.WeightConcat(init, more);
      CashWeight.WeightConcat(init, [last]);
    }
  }

  lemma {:induction false} NoProgramNoText(ns: seq<Node>)
    requires Writable(ns)
    ensures ns == [] <==> SourceOf(ns) == ""
  {}

  /** A file without bytes is not read at all. */
  lemma {:induction false} NoFile()
    ensures FileText("") == None
  {}

  /** The text of a declaration of a number. */
  lemma {:induction false} DeclSource(v: string)
    requires Lexical(Token(Integer, v))
    ensures var ns := [VarDecl("x", Some(IntegerNode(v)))]; Writable(ns) && SourceOf(ns) == " var x = " + v
  {
    hide NameKind, Render, Lexical, Legible, Minimal;
    var n := VarDecl("x", Some(IntegerNode(v)));
    assert Minimal(IntegerNode(v)) == Text.Digits(v) && Legible(Text.Digits(v)) by { NumberLegible(v); }
    NameX();
    assert [n][1..] == [] && DeclsOf([n]) == [DeclOf(n)] && [DeclOf(n)][1..] == [];
    assert PrintProgram([DeclOf(n)]) == PrintDecl(DeclOf(n)) + [] == PrintDecl(DeclOf(n));
    assert DeclOf(n) == Decl(false, "x", Text.Digits(v));
    assert PrintDecl(DeclOf(n)) == [Tok(Var), Token(Name, "x"), Tok(Equal), Token(Integer, v)];
    assert SourceOf([n]) == Render(PrintProgram(DeclsOf([n])));
    RenderFour(v);
  }

  lemma {:induction false} NumberLegible(v: string)
    requires Lexical(Token(Integer, v))
    ensures Minimal(IntegerNode(v)) == Text.Digits(v) && Legible(Text.Digits(v))
  {
    hide Lexical;
  }

  lemma {:induction false} RenderFour(v: string)
    ensures Render([Tok(Var), Token(Name, "x"), Tok(Equal), Token(Integer, v)]) == " var x = " + v
  {
    hide Render;
    var x, number := Token(Name, "x"), Token(Integer, v);
    RenderMore(number, []);
    RenderMore(Tok(Equal), [number]);
    RenderMore(x, [Tok(Equal), number]);
    RenderMore(Tok(Var), [x, Tok(Equal), number]);
    assert [number] + [] == [number] && [Tok(Equal)] + [number] == [Tok(Equal), number];
    assert [x] + [Tok(Equal), number] == [x, Tok(Equal), number];
    assert [Tok(Var)] + [x, Tok(Equal), number] == [Tok(Var), x, Tok(Equal), number];
    assert Render([]) == "" by { RenderNone(); }
    assert " var" + (" x" + (" =" + (" " + v + ""))) == " var x = " + v;
  }

  lemma {:induction false} RenderMore(t: Token, ts: Tokens)
    ensures Render([t] + ts) == " " + TextOf(t) + Render(ts)
  {
    assert ([t] + ts)[1..] == ts;
  }

  lemma {:induction false} NameX()
    ensures Lexical(Token(Name, "x"))
  {}

  /** `var x = 12` at the end of a file is read as `var x = 1`. */
  lemma {:induction false} LastDigitLost()
    ensures var twelve, one := [VarDecl("x", Some(IntegerNode("12")))], [VarDecl("x", Some(IntegerNode("1")))];
      Writable(twelve) && Writable(one) && FileReads(SourceOf(twelve), one)
  {
    hide SourceOf, Writable, LexFrom, ParseAll, FileText;
    var one := [VarDecl("x", Some(IntegerNode("1")))];
    DeclSource("12");
    DeclSource("1");
    ReadInvertsWrite(one);
    assert " var x = " + "12" == " var x = 12" && " var x = " + "1" == " var x = 1";
    assert " var x = 12"[..10] == " var x = 1";
    CutText(" var x = 12");
  }
}
