/** The parser of the CASH shell inverts printing. */
module CashRoundTrip {
  import opened Wrappers
  import opened CashSyntax

  /** Source text as a tree: an expression with its parentheses. Names are not indexed, except as
      targets of assignments. */
  datatype Text =
    | Digits(v: string)
    | Word(v: string)
    | Quote(v: string)
    | Ident(v: string)
    | Prefix(op: TokenType, e: Text)
    | Infix(op: TokenType, l: Text, r: Text)
    | Paren(e: Text)
    | Brackets(es: seq<Text>)
    | Assign(target: string, at: Option<Text>, e: Text)

  /** The tree without the parentheses. */
  function Erase(t: Text): Expr {
    match t
    case Digits(v) => IntegerNode(v)
    case Word(v) => BoolNode(v)
    case Quote(v) => StringNode(v)
    case Ident(v) => NameNode(v, None)
    case Prefix(op, e) => UnaryNode(op, Erase(e))
    case Infix(op, l, r) => BinaryNode(op, Erase(l), Erase(r))
    case Paren(e) => Erase(e)
    case Brackets(es) => ListNode(EraseAll(es))
    case Assign(x, at, e) => AssignNode(x, match at case None => None case Some(i) => Some(Erase(i)), Erase(e))
  }

  function EraseAll(es: seq<Text>): (r: seq<Expr>)
    ensures |r| == |es|
  {
    if es == [] then [] else [Erase(es[0])] + EraseAll(es[1..])
  }

  /** The tokens of the text. */
  function Print(t: Text): (ts: Tokens)
    ensures ts != []
  {
    match t
    case Digits(v) => [Token(Integer, v)]
    case Word(v) => [Token(if v == "true" then True else False, v)]
    case Quote(v) => [Token(String, v)]
    case Ident(v) => [Token(Name, v)]
    case Prefix(op, e) => [Tok(op)] + Print(e)
    case Infix(op, l, r) => Print(l) + ([Tok(op)] + Print(r))
    case Paren(e) => [Tok(LeftParenthesis)] + (Print(e) + [Tok(RightParenthesis)])
    case Brackets(es) => [Tok(LeftSquareBrace)] + (PrintAll(es) + [Tok(RightSquareBrace)])
    case Assign(x, at, e) =>
      match at
      case None => [Token(Name, x), Tok(Equal)] + Print(e)
      case Some(i) =>
        [Token(Name, x), Tok(LeftSquareBrace)]
        + (Print(i) + ([Tok(RightSquareBrace), Tok(Equal)] + Print(e)))
  }

  /** Elements separated by commas. */
  function PrintAll(es: seq<Text>): Tokens {
    if es == [] then []
    else if |es| == 1 then Print(es[0])
    else Print(es[0]) + ([Tok(Comma)] + PrintAll(es[1..]))
  }

  /** 0 for a sum, 1 for a product, 2 for what `parsePrimaryExpr` reads. */
  function Level(t: Text): nat {
    if t.Infix? then (if IsSum(t.op) then 0 else 1) else 2
  }

  /** The text ends in an assignment without parentheses, which swallows any operator that follows. */
  predicate Open(t: Text) {
    match t
    case Assign(_, _, _) => true
    case Prefix(_, e) => Open(e)
    case Infix(_, _, r) => Open(r)
    case _ => false
  }

  /** The grammar: operators are left-associative, products bind tighter than sums, prefix
      operators tighter still, and nothing follows an open assignment. */
  predicate Grammatical(t: Text) {
    match t
    case Prefix(op, e) => IsUnary(op) && Grammatical(e) && Level(e) == 2
    case Infix(op, l, r) =>
      && (IsSum(op) || IsProduct(op)) && Grammatical(l) && Grammatical(r) && !Open(l)
      && (if IsSum(op) then Level(r) >= 1 else Level(l) >= 1 && Level(r) == 2)
    case Paren(e) => Grammatical(e)
    case Brackets(es) => forall e :: e in es ==> Grammatical(e)
    case Assign(_, at, e) => Grammatical(e) && (at.Some? ==> Grammatical(at.value))
    case _ => true
  }

  /** The tokens after a text of the given level do not belong to it. */
  predicate Stops(level: nat, rest: Tokens) {
    rest != [] ==>
      && rest[0].kind != Equal && rest[0].kind != LeftSquareBrace
      && (level <= 1 ==> !IsProduct(rest[0].kind))
      && (level == 0 ==> !IsSum(rest[0].kind))
  }

  predicate Follows(t: Text, level: nat, rest: Tokens) { Stops(if Open(t) then 0 else level, rest) }

  // ---------- Parsing what was printed ----------

  /** A name or an opening bracket is first tried as the target of an assignment. */
  lemma {:induction false} PrimaryIsAssign(ts: Tokens)
    requires Expect(ts, Name) && ParseAssign(ts).tree.Some?
    ensures ParsePrimary(ts) == ParseAssign(ts)
  {
    hide ParseAssign, ParseExpr, ParseUnary, ParseList, ParseName;
  }

  lemma {:induction false} PrimaryIsList(ts: Tokens)
    requires Expect(ts, LeftSquareBrace) && ParseList(ts).tree.Some?
    ensures ParsePrimary(ts) == ParseList(ts)
  {
    hide ParseAssign, ParseExpr, ParseUnary, ParseList, ParseName, Left, AssignValue;
    NoAssign(ts);
  }

  /** What does not start with a name, or has neither an equals sign nor a bracket after it, is no
      assignment, and the cursor is where it was. */
  lemma {:induction false} NoAssign(ts: Tokens)
    requires Expect(ts, Name) ==> |ts| > 1 ==> ts[1].kind != Equal && ts[1].kind != LeftSquareBrace
    ensures ParseAssign(ts) == Parsed(None, ts)
  {
    hide ParseExpr, Left;
  }

  lemma {:induction false} NoList(ts: Tokens)
    requires !Expect(ts, LeftSquareBrace)
    ensures ParseList(ts) == Parsed(None, ts)
  {
    hide ListLoop, Left;
  }

  lemma {:induction false} PlainName(ts: Tokens)
    requires Expect(ts, Name) && (|ts| > 1 ==> ts[1].kind != LeftSquareBrace)
    ensures ParseName(ts) == Parsed(Some(NameNode(ts[0].value, None)), ts[1..])
  {
    hide ParseExpr, Left;
  }

  /** A name without a bracket or an equals sign after it is a name. */
  lemma {:induction false} PrimaryIsName(ts: Tokens)
    requires Expect(ts, Name) && (|ts| > 1 ==> ts[1].kind != Equal && ts[1].kind != LeftSquareBrace)
    ensures ParsePrimary(ts) == Parsed(Some(NameNode(ts[0].value, None)), ts[1..])
  {
    hide ParseAssign, ParseExpr, ParseUnary, ParseList, ParseName, Left, AssignValue;
    NoAssign(ts);
    NoList(ts);
    PlainName(ts);
  }

  lemma {:induction false} PrimaryParses(t: Text, rest: Tokens)
    requires Grammatical(t) && Level(t) == 2 && Follows(t, 2, rest)
    ensures ParsePrimary(Print(t) + rest) == Parsed(Some(Erase(t)), rest)
    decreases t, 1
  {
    hide ParseExpr, ParseAssign, ParseList, ParseName, Left;
    var ts := Print(t) + rest;
    match t
    case Digits(_) =>
      assert ts[1..] == rest;
    case Word(_) =>
      assert ts[1..] == rest;
    case Quote(_) =>
      QuoteParses(t, rest);
    case Ident(_) =>
      assert ts[1..] == rest;
      PrimaryIsName(ts);
    case Prefix(op, e) =>
      assert ts[1..] == Print(e) + rest;
      PrimaryParses(e, rest);
    case Paren(e) =>
      ParenParses(t, rest);
    case Brackets(es) => BracketsParse(t, rest);
    case Assign(x, at, e) => AssignParses(t, rest);
  }

  lemma {:induction false} QuoteParses(t: Text, rest: Tokens)
    requires t.Quote?
    ensures ParsePrimary(Print(t) + rest) == Parsed(Some(Erase(t)), rest)
  {
    hide ParseAssign, ParseExpr, ParseUnary, ParseList, ParseName, Left;
    var ts := Print(t) + rest;
    assert ts[1..] == rest;
    NoAssign(ts);
  }

  lemma {:induction false} ParenParses(t: Text, rest: Tokens)
    requires t.Paren? && Grammatical(t)
    ensures ParsePrimary(Print(t) + rest) == Parsed(Some(Erase(t)), rest)
    decreases t, 0
  {
    hide ParseAssign, ParseExpr, ParseUnary, ParseList, ParseName;
    var ts := Print(t) + rest;
    var after := [Tok(RightParenthesis)] + rest;
    assert ts[1..] == Print(t.e) + after;
    ExprParses(t.e, after);
    assert after[1..] == rest;
  }

  lemma {:induction false} AssignParses(t: Text, rest: Tokens)
    requires t.Assign? && Grammatical(t) && Stops(0, rest)
    ensures ParsePrimary(Print(t) + rest) == Parsed(Some(Erase(t)), rest)
    decreases t, 0
  {
    hide ParseExpr, ParsePrimary, ParseAssign, Print, PrintAll;
    ExprParses(t.e, rest);
    var ts := Print(t) + rest;
    match t.at {
      case None =>
        PlainShape(t, rest);
        PlainTarget(ts, Erase(t.e), rest);
      case Some(i) =>
        var close := IndexShape(t, i, rest);
        ExprParses(i, close);
        IndexedTarget(ts, Erase(i), close, Erase(t.e), rest);
    }
    PrimaryIsAssign(ts);
  }

  lemma {:induction false} PlainShape(t: Text, rest: Tokens)
    requires t.Assign? && t.at.None?
    ensures |Print(t)| > 1 && Print(t)[0] == Token(Name, t.target) && Print(t)[1] == Tok(Equal)
    ensures (Print(t) + rest)[2..] == Print(t.e) + rest
  {}

  lemma {:induction false} IndexShape(t: Text, i: Text, rest: Tokens) returns (close: Tokens)
    requires t.Assign? && t.at == Some(i)
    ensures |Print(t)| > 1 && Print(t)[0] == Token(Name, t.target) && Print(t)[1] == Tok(LeftSquareBrace)
    ensures (Print(t) + rest)[2..] == Print(i) + close
    ensures |close| > 1 && close[0] == Tok(RightSquareBrace)
      && close[1] == Tok(Equal) && close[2..] == Print(t.e) + rest
  {
    var tail := [Tok(RightSquareBrace), Tok(Equal)] + Print(t.e);
    close := tail + rest;
    assert Print(t) == [Token(Name, t.target), Tok(LeftSquareBrace)] + (Print(i) + tail);
    hide Print;
    assert close[2..] == Print(t.e) + rest;
  }

  lemma {:induction false} PlainTarget(ts: Tokens, e: Expr, rest: Tokens)
    requires |ts| > 1 && ts[0].kind == Name && ts[1].kind == Equal
    requires ParseExpr(ts[2..]) == Parsed(Some(e), rest)
    ensures ParseAssign(ts) == Parsed(Some(AssignNode(ts[0].value, None, e)), rest)
  {
    hide ParseExpr;
    assert ts[1..][1..] == ts[2..];
  }

  lemma {:induction false} IndexedTarget(ts: Tokens, index: Expr, close: Tokens, e: Expr, rest: Tokens)
    requires |ts| > 1 && ts[0].kind == Name && ts[1].kind == LeftSquareBrace
    requires ParseExpr(ts[2..]) == Parsed(Some(index), close)
    requires |close| > 1 && close[0].kind == RightSquareBrace && close[1].kind == Equal
    requires ParseExpr(close[2..]) == Parsed(Some(e), rest)
    ensures ParseAssign(ts) == Parsed(Some(AssignNode(ts[0].value, Some(index), e)), rest)
  {
    hide ParseExpr;
    assert close[1..][1..] == close[2..];
    assert ParseAssign(ts) == AssignValue(ts, Some(index), close[1..]);
  }

  lemma {:induction false} BracketsParse(t: Text, rest: Tokens)
    requires t.Brackets? && Grammatical(t)
    ensures ParsePrimary(Print(t) + rest) == Parsed(Some(Erase(t)), rest)
    decreases t, 0
  {
    hide ParseExpr, ParsePrimary, ListLoop, ParseList, PrintAll;
    var ts := Print(t) + rest;
    var after := [Tok(RightSquareBrace)] + rest;
    assert ts[1..] == PrintAll(t.es) + after;
    if t.es == [] {
      ElementsStart(t.es);
      assert ts[1..] == after;
      EmptyList(ts, rest);
    } else {
      PrintHead(t.es[0]);
      ElementsStart(t.es);
      ListParses([], t.es, rest);
      assert [] + EraseAll(t.es) == EraseAll(t.es);
      FullList(ts);
    }
    PrimaryIsList(ts);
  }

  lemma {:induction false} EmptyList(ts: Tokens, rest: Tokens)
    requires Expect(ts, LeftSquareBrace) && ts[1..] == [Tok(RightSquareBrace)] + rest
    ensures ParseList(ts) == Parsed(Some(ListNode([])), rest)
  {
    assert ts[2..] == ts[1..][1..] == rest;
  }

  lemma {:induction false} FullList(ts: Tokens)
    requires Expect(ts, LeftSquareBrace) && |ts| > 1 && ts[1].kind != RightSquareBrace
    ensures ParseList(ts) == ListLoop([], ts[1..])
  {
    hide ListLoop;
  }

  /** A text does not start with a closing bracket or an equals sign. */
  lemma {:induction false} PrintHead(t: Text)
    requires Grammatical(t)
    ensures Print(t)[0].kind != RightSquareBrace && Print(t)[0].kind != Equal
  {
    if t.Infix? { PrintHead(t.l); }
  }

  lemma {:induction false} ElementsStart(es: seq<Text>)
    ensures if es == [] then PrintAll(es) == [] else PrintAll(es) != [] && PrintAll(es)[0] == Print(es[0])[0]
  {}

  lemma {:induction false} ListParses(done: seq<Expr>, es: seq<Text>, rest: Tokens)
    requires es != [] && forall e :: e in es ==> Grammatical(e)
    ensures ListLoop(done, PrintAll(es) + ([Tok(RightSquareBrace)] + rest))
      == Parsed(Some(ListNode(done + EraseAll(es))), rest)
    decreases es, 5
  {
    hide ParseExpr, Grammatical, Erase, Print;
    var close := [Tok(RightSquareBrace)] + rest;
    assert close[1..] == rest;
    if |es| == 1 {
      ExprParses(es[0], close);
      assert EraseAll(es) == [Erase(es[0])];
    } else {
      var next := PrintAll(es[1..]) + close;
      var after := [Tok(Comma)] + next;
      assert PrintAll(es) + close == Print(es[0]) + after;
      ExprParses(es[0], after);
      assert after[1..] == next;
      ListParses(done + [Erase(es[0])], es[1..], rest);
      assert done + [Erase(es[0])] + EraseAll(es[1..]) == done + EraseAll(es);
    }
  }

  /** After a term has been read, its loop goes on with whatever follows. */
  lemma {:induction false} TermParses(t: Text, rest: Tokens)
    requires Grammatical(t) && Level(t) >= 1 && Follows(t, 2, rest)
    ensures ParseTerm(Print(t) + rest) == ProductLoop(Erase(t), rest)
    decreases t, 2
  {
    hide ParsePrimary, PrintAll, EraseAll;
    if t.Infix? {
      var after := [Tok(t.op)] + (Print(t.r) + rest);
      assert Print(t) + rest == Print(t.l) + after;
      assert after[1..] == Print(t.r) + rest;
      TermParses(t.l, after);
      PrimaryParses(t.r, rest);
    } else {
      PrimaryParses(t, rest);
    }
  }

  lemma {:induction false} SumParses(t: Text, rest: Tokens)
    requires Grammatical(t) && Follows(t, 1, rest)
    ensures ParseExpr(Print(t) + rest) == SumLoop(Erase(t), rest)
    decreases t, 3
  {
    hide ParsePrimary, ParseTerm, PrintAll, EraseAll;
    if t.Infix? && IsSum(t.op) {
      var after := [Tok(t.op)] + (Print(t.r) + rest);
      assert Print(t) + rest == Print(t.l) + after;
      assert after[1..] == Print(t.r) + rest;
      SumParses(t.l, after);
      TermParses(t.r, rest);
    } else {
      TermParses(t, rest);
    }
  }

  /** Every grammatical text, with any parentheses, is parsed to its tree, up to the tokens that
      follow it. */
  lemma {:induction false} ExprParses(t: Text, rest: Tokens)
    requires Grammatical(t) && Stops(0, rest)
    ensures ParseExpr(Print(t) + rest) == Parsed(Some(Erase(t)), rest)
    decreases t, 4
  {
    SumParses(t, rest);
  }

  /** Texts with the same tokens have the same tree. */
  lemma {:induction false} Unambiguous(s: Text, t: Text)
    requires Grammatical(s) && Grammatical(t) && Print(s) == Print(t)
    ensures Erase(s) == Erase(t)
  {
    ExprParses(s, []);
    ExprParses(t, []);
    assert Print(s) + [] == Print(s) && Print(t) + [] == Print(t);
  }

  // ---------- Trees to text, with as few parentheses as possible ----------

  /** The trees with a text: operators in their place and no index on a name that is read. */
  predicate Proper(e: Expr) {
    match e
    case NameNode(_, index) => index.None?
    case UnaryNode(op, x) => IsUnary(op) && Proper(x)
    case BinaryNode(op, l, r) => (IsSum(op) || IsProduct(op)) && Proper(l) && Proper(r)
    case AssignNode(_, at, x) => Proper(x) && (at.Some? ==> Proper(at.value))
    case ListNode(es) => forall x :: x in es ==> Proper(x)
    case _ => true
  }

  /** Parentheses where the place asks for a higher level, or where an operator follows an open
      assignment. */
  function Protect(t: Text, level: nat, followed: bool): Text {
    if Level(t) < level || (followed && Open(t)) then Paren(t) else t
  }

  function Minimal(e: Expr): Text {
    match e
    case IntegerNode(v) => Digits(v)
    case BoolNode(v) => Word(v)
    case StringNode(v) => Quote(v)
    case NameNode(v, _) => Ident(v)
    case UnaryNode(op, x) => Prefix(op, Protect(Minimal(x), 2, false))
    case BinaryNode(op, l, r) =>
      if IsSum(op) then Infix(op, Protect(Minimal(l), 0, true), Protect(Minimal(r), 1, false))
      else Infix(op, Protect(Minimal(l), 1, true), Protect(Minimal(r), 2, false))
    case ListNode(es) => Brackets(MinimalAll(es))
    case AssignNode(x, at, v) => Assign(x, match at case None => None case Some(i) => Some(Minimal(i)), Minimal(v))
  }

  function MinimalAll(es: seq<Expr>): (r: seq<Text>)
    ensures |r| == |es|
  {
    if es == [] then [] else [Minimal(es[0])] + MinimalAll(es[1..])
  }

  /** The text written for a tree is grammatical and has that tree. */
  lemma {:induction false} MinimalIsText(e: Expr)
    requires Proper(e)
    ensures Grammatical(Minimal(e)) && Erase(Minimal(e)) == e
  {
    match e
    case UnaryNode(_, x) => MinimalIsText(x);
    case BinaryNode(_, l, r) => MinimalIsText(l); MinimalIsText(r);
    case ListNode(es) => MinimalAllAreTexts(es);
    case AssignNode(_, at, x) =>
      MinimalIsText(x);
      if at.Some? { MinimalIsText(at.value); }
    case _ =>
  }

  lemma {:induction false} MinimalAllAreTexts(es: seq<Expr>)
    requires forall x :: x in es ==> Proper(x)
    ensures (forall t :: t in MinimalAll(es) ==> Grammatical(t)) && EraseAll(MinimalAll(es)) == es
  {
    if es != [] {
      MinimalIsText(es[0]);
      MinimalAllAreTexts(es[1..]);
    }
  }

  /** Tokens that leaving out parentheses of `t` must cost again in `m`. */
  function Slack(m: Text, t: Text): nat {
    if (Open(m) && !Open(t)) || Level(m) < Level(t) then 2 else 0
  }

  lemma {:induction false} ProtectCost(m: Text, t: Text, level: nat, followed: bool)
    requires Level(t) >= level && (followed ==> !Open(t))
    requires |Print(m)| + Slack(m, t) <= |Print(t)|
    ensures |Print(Protect(m, level, followed))|
      + (if Open(Protect(m, level, followed)) && !Open(t) then 2 else 0) <= |Print(t)|
  {}

  /** No text that is read back as the same tree has fewer tokens. */
  lemma {:induction false} MinimalIsShortest(t: Text)
    requires Grammatical(t)
    ensures |Print(Minimal(Erase(t)))| + Slack(Minimal(Erase(t)), t) <= |Print(t)|
    decreases t, 0
  {
    match t
    case Prefix(_, e) =>
      MinimalIsShortest(e);
      ProtectCost(Minimal(Erase(e)), e, 2, false);
    case Infix(op, l, r) =>
      MinimalIsShortest(l);
      MinimalIsShortest(r);
      ProtectCost(Minimal(Erase(l)), l, if IsSum(op) then 0 else 1, true);
      ProtectCost(Minimal(Erase(r)), r, if IsSum(op) then 1 else 2, false);
    case Paren(e) => MinimalIsShortest(e);
    case Brackets(es) => ElementsAreShortest(es);
    case Assign(_, at, e) =>
      MinimalIsShortest(e);
      if at.Some? { MinimalIsShortest(at.value); }
    case _ =>
  }

  lemma {:induction false} ElementsAreShortest(es: seq<Text>)
    requires forall e :: e in es ==> Grammatical(e)
    ensures |PrintAll(MinimalAll(EraseAll(es)))| <= |PrintAll(es)|
    decreases es, 0
  {
    if es != [] {
      MinimalIsShortest(es[0]);
      ElementsAreShortest(es[1..]);
    }
  }

  // ---------- Whole programs ----------

  datatype Decl = Decl(constant: bool, name: string, value: Text)

  function NodeOf(d: Decl): Node {
    if d.constant then ConstDecl(d.name, Some(Erase(d.value))) else VarDecl(d.name, Some(Erase(d.value)))
  }

  function PrintDecl(d: Decl): Tokens {
    [Tok(if d.constant then Const else Var), Token(Name, d.name), Tok(Equal)] + Print(d.value)
  }

  function PrintProgram(ds: seq<Decl>): Tokens {
    if ds == [] then [] else PrintDecl(ds[0]) + PrintProgram(ds[1..])
  }

  function NodesOf(ds: seq<Decl>): seq<Node> {
    if ds == [] then [] else [NodeOf(ds[0])] + NodesOf(ds[1..])
  }

  lemma {:induction false} DeclParses(d: Decl, rest: Tokens)
    requires Grammatical(d.value) && Stops(0, rest)
    ensures ParseNode(PrintDecl(d) + rest) == ParsedNode(Some(NodeOf(d)), rest)
  {
    hide ParseExpr, Print, Grammatical, Erase, Stops, Left, ParseDeclBody;
    ExprParses(d.value, rest);
    var ts := PrintDecl(d) + rest;
    assert ts[1..][2..] == Print(d.value) + rest;
    BodyParses(ts[1..], Erase(d.value), rest);
  }

  lemma {:induction false} BodyParses(ts: Tokens, e: Expr, rest: Tokens)
    requires |ts| > 1 && ts[0].kind == Name && ts[1].kind == Equal
    requires ParseExpr(ts[2..]) == Parsed(Some(e), rest)
    ensures ParseDeclBody(true, ts) == ParsedNode(Some(VarDecl(ts[0].value, Some(e))), rest)
    ensures ParseDeclBody(false, ts) == ParsedNode(Some(ConstDecl(ts[0].value, Some(e))), rest)
  {
    hide ParseExpr, Left;
  }

  /** A list of declarations, in any grammatical text, is parsed to those declarations and every
      token is consumed. */
  lemma {:induction false} ProgramParses(ds: seq<Decl>)
    requires forall d :: d in ds ==> Grammatical(d.value)
    ensures ParseAll(PrintProgram(ds)) == (NodesOf(ds), [])
  {
    hide ParseNode, Grammatical, NodeOf, ParseAll, PrintDecl;
    if ds == [] {
      NothingParses();
    } else {
      var rest := PrintProgram(ds[1..]);
      ProgramStops(ds[1..]);
      DeclThen(ds[0], rest);
      ProgramParses(ds[1..]);
    }
  }

  lemma {:induction false} NothingParses()
    ensures ParseAll([]) == ([], [])
  {}

  /** A declaration ends where the next one starts. */
  lemma {:induction false} ProgramStops(ds: seq<Decl>)
    ensures Stops(0, PrintProgram(ds))
  {}

  lemma {:induction false} DeclThen(d: Decl, rest: Tokens)
    requires Grammatical(d.value) && Stops(0, rest)
    ensures ParseAll(PrintDecl(d) + rest) == ([NodeOf(d)] + ParseAll(rest).0, ParseAll(rest).1)
  {
    hide ParseNode, Grammatical, NodeOf, Stops;
    DeclParses(d, rest);
  }

  /** The declarations the source of a program consists of, each with a value. */
  predicate Declaration(n: Node) {
    (n.VarDecl? || n.ConstDecl?) && n.value.Some? && Proper(n.value.value)
  }

  function DeclOf(n: Node): Decl
    requires Declaration(n)
  {
    Decl(n.ConstDecl?, n.name, Minimal(n.value.value))
  }

  function DeclsOf(ns: seq<Node>): (ds: seq<Decl>)
    requires forall n :: n in ns ==> Declaration(n)
  {
    if ns == [] then [] else [DeclOf(ns[0])] + DeclsOf(ns[1..])
  }

  lemma {:induction false} DeclsFaithful(ns: seq<Node>)
    requires forall n :: n in ns ==> Declaration(n)
    ensures NodesOf(DeclsOf(ns)) == ns && forall d :: d in DeclsOf(ns) ==> Grammatical(d.value)
  {
    if ns != [] {
      assert Declaration(ns[0]);
      MinimalIsText(ns[0].value.value);
      DeclsFaithful(ns[1..]);
    }
  }

  /** Parsing inverts printing with parentheses only where they are needed. */
  lemma {:induction false} ParseInvertsPrint(ns: seq<Node>)
    requires forall n :: n in ns ==> Declaration(n)
    ensures ParseAll(PrintProgram(DeclsOf(ns))) == (ns, [])
  {
    DeclsFaithful(ns);
    ProgramParses(DeclsOf(ns));
  }
}
