/** From source text to trees: the lexer and the parser together invert writing. */
module CashFrontEnd {
  import opened CashSyntax
  import opened CashRoundTrip
  import opened CashLexer
  import CashScanner
  import CashParser

  /** The words of the text are those of the language. */
  predicate Legible(t: Text) {
    match t
    case Digits(v) => Lexical(Token(Integer, v))
    case Word(v) => v == "true" || v == "false"
    case Quote(v) => Lexical(Token(String, v))
    case Ident(v) => Lexical(Token(Name, v))
    case Prefix(_, e) => Legible(e)
    case Infix(_, l, r) => Legible(l) && Legible(r)
    case Paren(e) => Legible(e)
    case Brackets(es) => forall e :: e in es ==> Legible(e)
    case Assign(x, at, e) => Lexical(Token(Name, x)) && Legible(e) && (at.Some? ==> Legible(at.value))
  }

  lemma {:induction false} Joined(a: Tokens, b: Tokens)
    requires AllLexical(a) && AllLexical(b)
    ensures AllLexical(a + b)
  {}

  lemma {:induction false} Symbol(k: TokenType)
    requires k !in {Integer, Name, String, RawLine, EndOfFile}
    ensures AllLexical([Tok(k)])
  {}

  /** The tokens of a legible text can be written. */
  lemma {:induction false} PrintsLexical(t: Text)
    requires Grammatical(t) && Legible(t)
    ensures AllLexical(Print(t))
    decreases t, 0
  {
    hide Lexical;
    match t
    case Word(v) => Symbol(if v == "true" then True else False);
    case Prefix(op, e) =>
      PrintsLexical(e);
      Symbol(op);
    case Infix(op, l, r) =>
      PrintsLexical(l);
      PrintsLexical(r);
      Symbol(op);
    case Paren(e) =>
      PrintsLexical(e);
      Symbol(LeftParenthesis);
      Symbol(RightParenthesis);
    case Brackets(es) =>
      ElementsLexical(es);
      Symbol(LeftSquareBrace);
      Symbol(RightSquareBrace);
    case Assign(x, at, e) =>
      PrintsLexical(e);
      Symbol(Equal);
      Symbol(LeftSquareBrace);
      Symbol(RightSquareBrace);
      if at.Some? { PrintsLexical(at.value); }
    case _ =>
  }

  lemma {:induction false} ElementsLexical(es: seq<Text>)
    requires forall e :: e in es ==> Grammatical(e) && Legible(e)
    ensures AllLexical(PrintAll(es))
    decreases es, 0
  {
    hide Lexical, Grammatical, Legible;
    if es != [] {
      PrintsLexical(es[0]);
      ElementsLexical(es[1..]);
      Symbol(Comma);
    }
  }

  /** The names and values of the declarations can be written. */
  ghost predicate Writable(ns: seq<Node>) {
    forall n :: n in ns ==> Declaration(n) && Lexical(Token(Name, n.name)) && Legible(Minimal(n.value.value))
  }

  lemma {:induction false} WritableDeclares(ns: seq<Node>)
    requires Writable(ns)
    ensures forall n :: n in ns ==> Declaration(n)
  {}

  lemma {:induction false} DeclLexical(n: Node)
    requires Declaration(n) && Lexical(Token(Name, n.name)) && Legible(Minimal(n.value.value))
    ensures AllLexical(PrintDecl(DeclOf(n)))
  {
    var d := DeclOf(n);
    MinimalIsText(n.value.value);
    PrintsLexical(d.value);
    Symbol(Var);
    Symbol(Const);
    Symbol(Equal);
    hide Lexical, Legible, Grammatical, Print;
  }

  lemma {:induction false} ProgramLexical(ns: seq<Node>)
    requires (forall n :: n in ns ==> Declaration(n)) && Writable(ns)
    ensures AllLexical(PrintProgram(DeclsOf(ns)))
  {
    hide Lexical, Legible, Declaration, PrintDecl;
    if ns != [] {
      assert ns[0] in ns;
      DeclLexical(ns[0]);
      ProgramLexical(ns[1..]);
      Joined(PrintDecl(DeclOf(ns[0])), PrintProgram(DeclsOf(ns[1..])));
    }
  }

  /** The source text of a program, with parentheses only where they are needed. */
  ghost function SourceOf(ns: seq<Node>): string
    requires Writable(ns)
  {
    WritableDeclares(ns);
    Render(PrintProgram(DeclsOf(ns)))
  }

  /** Lexing and parsing the text of any program gives back the program and uses all of the text. */
  lemma {:induction false} ReadInvertsWrite(ns: seq<Node>)
    requires Writable(ns)
    ensures var lexed := LexFrom(SourceOf(ns), 0); lexed.1 && ParseAll(lexed.0) == (ns, [])
  {
    hide Writable, Declaration, Lexical, LexFrom, ParseAll;
    WritableDeclares(ns);
    ProgramLexical(ns);
    LexesBack(PrintProgram(DeclsOf(ns)), SourceOf(ns), 0);
    ParseInvertsPrint(ns);
  }

  /** Different programs have different texts. */
  lemma {:induction false} SourceInjective(a: seq<Node>, b: seq<Node>)
    requires Writable(a) && Writable(b) && SourceOf(a) == SourceOf(b)
    ensures a == b
  {
    hide Writable, LexFrom, ParseAll, SourceOf;
    ReadInvertsWrite(a);
    ReadInvertsWrite(b);
  }

  /** Lexing and parsing a text, as the shell does with a line that is typed and with what it has
      loaded from a file. */
  method Read(source: string) returns (nodes: seq<Node>, ok: bool)
    ensures var lexed := LexFrom(source, 0); ok == lexed.1 && nodes == if ok then ParseAll(lexed.0).0 else []
    ensures forall ns :: Writable(ns) && source == SourceOf(ns) ==> ok && nodes == ns
  {
    hide Writable, LexFrom, ParseAll, SourceOf;
    forall ns | Writable(ns) && source == SourceOf(ns)
      ensures var lexed := LexFrom(source, 0); lexed.1 && ParseAll(lexed.0) == (ns, [])
    {
      ReadInvertsWrite(ns);
    }
    var lexer := new CashScanner.Lexer(source);
    ok := lexer.Lex();
    if !ok { return [], false; }
    var parser := new CashParser.Parser(lexer.tokens);
    parser.Parse();
    nodes := parser.nodes;
  }
}
