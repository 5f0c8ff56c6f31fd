/** Which programs the parser can read at all. Reading an indexed name leaves the closing bracket
    behind, so no text whose brackets match is read completely as a program with an indexed name. */
module CashBrackets {
  import opened Wrappers
  import opened CashSyntax
  import opened CashRoundTrip

  function Balance(k: TokenType): int {
    if k == LeftSquareBrace then 1 else if k == RightSquareBrace then -1 else 0
  }

  /** Opening square brackets less closing ones. */
  function Surplus(ts: Tokens): int {
    if ts == [] then 0 else Balance(ts[0].kind) + Surplus(ts[1..])
  }

  /** The indexed names in a tree that are read; the target of an assignment is not one. */
  function Indexed(e: Expr): nat {
    match e
    case NameNode(_, index) => (match index case None => 0 case Some(i) => 1 + Indexed(i))
    case UnaryNode(_, x) => Indexed(x)
    case BinaryNode(_, l, r) => Indexed(l) + Indexed(r)
    case AssignNode(_, at, x) => (match at case None => 0 case Some(i) => Indexed(i)) + Indexed(x)
    case ListNode(es) => IndexedAll(es)
    case _ => 0
  }

  function IndexedAll(es: seq<Expr>): nat {
    if es == [] then 0 else IndexedAll(es[..|es| - 1]) + Indexed(es[|es| - 1])
  }

  function IndexedIn(e: Option<Expr>): nat { match e case None => 0 case Some(x) => Indexed(x) }

  function IndexedNode(n: Node): nat {
    match n
    case VarDecl(_, value) => IndexedIn(value)
    case ConstDecl(_, value) => IndexedIn(value)
    case Command(_) => 0
    case Statement(e) => Indexed(e)
  }

  function IndexedNodes(ns: seq<Node>): nat {
    if ns == [] then 0 else IndexedNode(ns[0]) + IndexedNodes(ns[1..])
  }

  lemma {:induction false} SurplusConcat(a: Tokens, b: Tokens)
    ensures Surplus(a + b) == Surplus(a) + Surplus(b)
  {
    if a == [] {
      assert a + b == b;
    } else {
      assert (a + b)[1..] == a[1..] + b;
      SurplusConcat(a[1..], b);
    }
  }

  lemma {:induction false} SurplusTwo(ts: Tokens)
    requires |ts| > 1
    ensures Surplus(ts[1..]) == Balance(ts[1].kind) + Surplus(ts[2..])
  {
    assert ts[1..][1..] == ts[2..];
  }

  lemma {:induction false} SurplusOne(t: Token)
    ensures Surplus([t]) == Balance(t.kind)
  {
    assert [t][1..] == [];
  }

  lemma {:induction false} SurplusPlain(ts: Tokens)
    requires ts != [] && ts[0].kind != LeftSquareBrace && ts[0].kind != RightSquareBrace
    ensures Surplus(ts) == Surplus(ts[1..])
  {}

  // ---------- What is consumed has an opening bracket more for every indexed name ----------

  /** Operators are in their place; names may have an index. */
  predicate Formed(e: Expr) {
    match e
    case NameNode(_, index) => index.Some? ==> Formed(index.value)
    case UnaryNode(op, x) => IsUnary(op) && Formed(x)
    case BinaryNode(op, l, r) => (IsSum(op) || IsProduct(op)) && Formed(l) && Formed(r)
    case AssignNode(_, at, x) => Formed(x) && (at.Some? ==> Formed(at.value))
    case ListNode(es) => forall x :: x in es ==> Formed(x)
    case _ => true
  }

  predicate FormedNode(n: Node) {
    match n
    case VarDecl(_, value) => value.Some? ==> Formed(value.value)
    case ConstDecl(_, value) => value.Some? ==> Formed(value.value)
    case Command(_) => true
    case Statement(e) => Formed(e)
  }

  /** The tree is in order, and its indexed names are paid for with opening brackets. */
  ghost predicate Pays(ts: Tokens, r: Parsed) {
    Surplus(ts) - Surplus(r.rest) >= IndexedIn(r.tree) && (r.tree.Some? ==> Formed(r.tree.value))
  }

  ghost predicate NodePaid(ts: Tokens, r: ParsedNode) {
    Surplus(ts) - Surplus(r.rest) >= (if r.node.Some? then IndexedNode(r.node.value) else 0)
      && (r.node.Some? ==> FormedNode(r.node.value))
  }

  lemma {:induction false} ExprPays(ts: Tokens)
    ensures Pays(ts, ParseExpr(ts))
    decreases |ts|, 4
  {
    hide ParseTerm, SumLoop, Surplus;
    var l := ParseTerm(ts);
    TermPays(ts);
    if l.tree.Some? { SumPays(l.tree.value, l.rest); }
  }

  lemma {:induction false} SumPays(left: Expr, ts: Tokens)
    requires Formed(left)
    ensures var r := SumLoop(left, ts);
      Surplus(ts) - Surplus(r.rest) >= IndexedIn(r.tree) - (if r.tree.Some? then Indexed(left) else 0)
    ensures var r := SumLoop(left, ts); r.tree.Some? ==> Formed(r.tree.value)
    decreases |ts|, 0
  {
    hide ParseTerm, Surplus, Left;
    if ts != [] && IsSum(ts[0].kind) {
      var right := ParseTerm(ts[1..]);
      SurplusPlain(ts);
      TermPays(ts[1..]);
      LeftTail(ts, 1);
      LeftTrans(right.rest, ts[1..], ts);
      if right.tree.Some? {
        var both := BinaryNode(ts[0].kind, left, right.tree.value);
        assert Indexed(both) == Indexed(left) + Indexed(right.tree.value);
        SumPays(both, right.rest);
      }
    }
  }

  lemma {:induction false} TermPays(ts: Tokens)
    ensures Pays(ts, ParseTerm(ts))
    decreases |ts|, 3
  {
    hide ParsePrimary, ProductLoop, Surplus;
    var l := ParsePrimary(ts);
    PrimaryPays(ts);
    if l.tree.Some? { ProductPays(l.tree.value, l.rest); }
  }

  lemma {:induction false} ProductPays(left: Expr, ts: Tokens)
    requires Formed(left)
    ensures var r := ProductLoop(left, ts);
      Surplus(ts) - Surplus(r.rest) >= IndexedIn(r.tree) - (if r.tree.Some? then Indexed(left) else 0)
    ensures var r := ProductLoop(left, ts); r.tree.Some? ==> Formed(r.tree.value)
    decreases |ts|, 0
  {
    hide ParsePrimary, Surplus, Left;
    if ts != [] && IsProduct(ts[0].kind) {
      var right := ParsePrimary(ts[1..]);
      SurplusPlain(ts);
      PrimaryPays(ts[1..]);
      LeftTail(ts, 1);
      LeftTrans(right.rest, ts[1..], ts);
      if right.tree.Some? {
        var both := BinaryNode(ts[0].kind, left, right.tree.value);
        assert Indexed(both) == Indexed(left) + Indexed(right.tree.value);
        ProductPays(both, right.rest);
      }
    }
  }

  lemma {:induction false} PrimaryPays(ts: Tokens)
    ensures Pays(ts, ParsePrimary(ts))
    decreases |ts|, 2
  {
    hide ParseExpr, ParseUnary, ParseAssign, ParseList, ParseName, Left;
    if ts == [] {
    } else if IsUnary(ts[0].kind) {
      UnaryPays(ts);
    } else if ts[0].kind == LeftParenthesis {
      ExprPays(ts[1..]);
    } else if ts[0].kind == Integer || ts[0].kind == True || ts[0].kind == False {
    } else {
      AssignPays(ts);
      var assign := ParseAssign(ts);
      if assign.tree.None? && !Expect(assign.rest, String) {
        LeftRefl(assign.rest);
        LeftTrans(assign.rest, assign.rest, ts);
        ListPays(assign.rest);
        var list := ParseList(assign.rest);
        LeftTrans(list.rest, assign.rest, ts);
        NamePays(list.rest);
      }
    }
  }

  lemma {:induction false} UnaryPays(ts: Tokens)
    requires ts != [] && IsUnary(ts[0].kind)
    ensures Pays(ts, ParseUnary(ts))
    decreases |ts|, 1
  {
    hide ParsePrimary;
    PrimaryPays(ts[1..]);
  }

  lemma {:induction false} AssignPays(ts: Tokens)
    ensures Pays(ts, ParseAssign(ts))
    decreases |ts|, 1
  {
    hide ParseExpr, AssignValue, Left;
    if Expect(ts, Name) && |ts| > 1 {
      SurplusTwo(ts);
      if ts[1].kind == LeftSquareBrace {
        var index := ParseExpr(ts[2..]);
        ExprPays(ts[2..]);
        if Expect(index.rest, RightSquareBrace) {
          LeftTail(ts, 2);
          LeftTrans(index.rest, ts[2..], ts);
          LeftTail(index.rest, 1);
          LeftTrans(index.rest[1..], index.rest, ts);
          ValuePays(ts, index.tree, index.rest[1..]);
        }
      } else {
        LeftTail(ts, 1);
        ValuePays(ts, None, ts[1..]);
      }
    }
  }

  lemma {:induction false} ValuePays(ts: Tokens, index: Option<Expr>, at: Tokens)
    requires ts != [] && Left(at, ts) && |at| < |ts| && Surplus(ts) - Surplus(at) >= IndexedIn(index)
    requires index.Some? ==> Formed(index.value)
    ensures Pays(ts, AssignValue(ts, index, at))
    decreases |ts|, 0
  {
    hide ParseExpr;
    if Expect(at, Equal) { ExprPays(at[1..]); }
  }

  lemma {:induction false} ListPays(ts: Tokens)
    ensures Pays(ts, ParseList(ts))
    decreases |ts|, 1
  {
    hide ParseExpr, ListLoop, Left;
    if Expect(ts, LeftSquareBrace) {
      if Expect(ts[1..], RightSquareBrace) { SurplusTwo(ts); } else { LoopPays([], ts[1..]); }
    }
  }

  lemma {:induction false} LoopPays(content: seq<Expr>, ts: Tokens)
    requires forall x :: x in content ==> Formed(x)
    ensures var r := ListLoop(content, ts);
      Surplus(ts) - Surplus(r.rest) + 1 >= IndexedIn(r.tree) - (if r.tree.Some? then IndexedAll(content) else 0)
    ensures var r := ListLoop(content, ts); r.tree.Some? ==> Formed(r.tree.value)
    decreases |ts|, 5
  {
    hide ParseExpr, Left;
    var e := ParseExpr(ts);
    ExprPays(ts);
    if e.tree.Some? && e.rest != [] {
      var more := content + [e.tree.value];
      assert more[..|more| - 1] == content && IndexedAll(more) == IndexedAll(content) + Indexed(e.tree.value);
      if e.rest[0].kind == Comma { LoopPays(more, e.rest[1..]); }
    }
  }

  lemma {:induction false} NamePays(ts: Tokens)
    ensures Pays(ts, ParseName(ts))
    decreases |ts|, 1
  {
    hide ParseExpr, Left;
    if Expect(ts, Name) && Expect(ts[1..], LeftSquareBrace) {
      SurplusTwo(ts);
      ExprPays(ts[2..]);
    }
  }

  lemma {:induction false} NodePays(ts: Tokens)
    ensures NodePaid(ts, ParseNode(ts))
  {
    hide ParseExpr, ParseDecl, Left, CashSyntax.Words;
    var decl := ParseDecl(ts);
    DeclPays(ts);
    if decl.node.None? {
      var command := if Expect(decl.rest, RawLine) then ParseCommand(decl.rest) else ParsedNode(None, decl.rest);
      if command.node.None? { ExprPays(command.rest); }
    }
  }

  lemma {:induction false} DeclPays(ts: Tokens)
    ensures NodePaid(ts, ParseDecl(ts))
  {
    hide ParseExpr, Left;
    if (Expect(ts, Var) || Expect(ts, Const)) && |ts| > 1 && ts[1].kind == Name {
      SurplusTwo(ts);
      assert ts[1..][1..] == ts[2..];
      if Expect(ts[2..], Equal) {
        assert ts[1..][2..] == ts[2..][1..];
        ExprPays(ts[1..][2..]);
      }
    }
  }

  lemma {:induction false} ProgramPays(ts: Tokens)
    ensures Surplus(ts) - Surplus(ParseAll(ts).1) >= IndexedNodes(ParseAll(ts).0)
    ensures forall n :: n in ParseAll(ts).0 ==> FormedNode(n)
    decreases |ts|
  {
    hide ParseNode;
    if ts != [] {
      NodePays(ts);
      var n := ParseNode(ts);
      if n.node.Some? {
        var more := ParseAll(n.rest);
        ProgramPays(n.rest);
        assert ([n.node.value] + more.0)[1..] == more.0;
      }
    }
  }

  /** A text that is read to its end and has no closing bracket too few has no indexed name. */
  lemma {:induction false} CompleteHasNoIndex(ts: Tokens)
    requires Surplus(ts) <= 0 && ParseAll(ts).1 == []
    ensures IndexedNodes(ParseAll(ts).0) == 0
  {
    ProgramPays(ts);
  }

  // ---------- The programs that can be read ----------

  lemma {:induction false} ProperIff(e: Expr)
    requires Formed(e)
    ensures Proper(e) <==> Indexed(e) == 0
  {
    match e
    case UnaryNode(_, x) => ProperIff(x);
    case BinaryNode(_, l, r) => ProperIff(l); ProperIff(r);
    case AssignNode(_, at, x) =>
      ProperIff(x);
      if at.Some? { ProperIff(at.value); }
    case ListNode(es) => AllProperIff(es);
    case _ =>
  }

  lemma {:induction false} AllProperIff(es: seq<Expr>)
    requires forall x :: x in es ==> Formed(x)
    ensures (forall x :: x in es ==> Proper(x)) <==> IndexedAll(es) == 0
  {
    if es != [] {
      var init, last := es[..|es| - 1], es[|es| - 1];
      assert es == init + [last];
      AllProperIff(init);
      ProperIff(last);
    }
  }

  /** A declaration with a value. */
  predicate Declares(n: Node) {
    (n.VarDecl? || n.ConstDecl?) && n.value.Some? && Formed(n.value.value)
  }

  lemma {:induction false} DeclarationsIff(ns: seq<Node>)
    requires forall n :: n in ns ==> Declares(n)
    ensures (forall n :: n in ns ==> Declaration(n)) <==> IndexedNodes(ns) == 0
  {
    if ns != [] {
      assert forall n :: n in ns <==> n == ns[0] || n in ns[1..];
      assert Declares(ns[0]);
      DeclarationsIff(ns[1..]);
      ProperIff(ns[0].value.value);
      assert Declaration(ns[0]) <==> IndexedNode(ns[0]) == 0;
    }
  }

  /** The brackets of a printed text match. */
  lemma {:induction false} TextMatches(t: Text)
    requires Grammatical(t)
    ensures Surplus(Print(t)) == 0
    decreases t, 0
  {
    hide Surplus;
    match t {
      case Digits(v) => SurplusOne(Token(Integer, v));
      case Word(v) => SurplusOne(Token(if v == "true" then True else False, v));
      case Quote(v) => SurplusOne(Token(String, v));
      case Ident(v) => SurplusOne(Token(Name, v));
      case Prefix(op, e) =>
        TextMatches(e);
        SurplusAround([Tok(op)], Print(e), []);
      case Infix(op, l, r) =>
        TextMatches(l);
        TextMatches(r);
        SurplusAround([Tok(op)], Print(r), []);
        SurplusConcat(Print(l), [Tok(op)] + Print(r));
      case Paren(e) =>
        TextMatches(e);
        SurplusAround([Tok(LeftParenthesis)], Print(e), [Tok(RightParenthesis)]);
      case Brackets(es) =>
        ElementsMatch(es);
        SurplusAround([Tok(LeftSquareBrace)], PrintAll(es), [Tok(RightSquareBrace)]);
      case Assign(x, at, e) =>
        TextMatches(e);
        if at.Some? { TextMatches(at.value); }
        TargetMatches(x, at, e);
    }
  }

  /** One token at most before and after. */
  lemma {:induction false} SurplusAround(before: Tokens, middle: Tokens, after: Tokens)
    requires |before| == 1 && |after| <= 1
    ensures Surplus(before + (middle + after)) == Balance(before[0].kind)
      + Surplus(middle) + (if after == [] then 0 else Balance(after[0].kind))
    ensures after == [] ==> middle + after == middle
  {
    SurplusConcat(before, middle + after);
    SurplusConcat(middle, after);
    SurplusOne(before[0]);
    assert before == [before[0]];
    if after != [] {
      SurplusOne(after[0]);
      assert after == [after[0]];
    }
  }

  lemma {:induction false} TargetMatches(x: string, at: Option<Text>, e: Text)
    requires Surplus(Print(e)) == 0 && (at.Some? ==> Surplus(Print(at.value)) == 0)
    ensures Surplus(Print(Assign(x, at, e))) == 0
  {
    hide Surplus;
    match at {
      case None =>
        SurplusPair(Token(Name, x), Tok(Equal));
        SurplusConcat([Token(Name, x), Tok(Equal)], Print(e));
      case Some(i) =>
        var open, close := [Token(Name, x), Tok(LeftSquareBrace)], [Tok(RightSquareBrace), Tok(Equal)];
        SurplusPair(open[0], open[1]);
        SurplusPair(close[0], close[1]);
        SurplusConcat(close, Print(e));
        SurplusConcat(Print(i), close + Print(e));
        SurplusConcat(open, Print(i) + (close + Print(e)));
    }
  }

  lemma {:induction false} SurplusPair(a: Token, b: Token)
    ensures Surplus([a, b]) == Balance(a.kind) + Balance(b.kind)
  {
    assert [a, b][1..] == [b];
    SurplusOne(b);
  }

  lemma {:induction false} ElementsMatch(es: seq<Text>)
    requires forall e :: e in es ==> Grammatical(e)
    ensures Surplus(PrintAll(es)) == 0
    decreases es, 0
  {
    if es != [] {
      TextMatches(es[0]);
      if |es| > 1 {
        ElementsMatch(es[1..]);
        SurplusConcat([Tok(Comma)], PrintAll(es[1..]));
        SurplusConcat(Print(es[0]), [Tok(Comma)] + PrintAll(es[1..]));
      }
    }
  }

  lemma {:induction false} SurplusOfThree(ts: Tokens)
    requires |ts| == 3 && forall t :: t in ts ==> t.kind != LeftSquareBrace && t.kind != RightSquareBrace
    ensures Surplus(ts) == 0
  {
    assert ts[0] in ts && ts[1] in ts && ts[2] in ts;
    SurplusOne(ts[2]);
    assert ts[2..] == [ts[2]];
    SurplusTwo(ts);
  }

  lemma {:induction false} ProgramMatches(ds: seq<Decl>)
    requires forall d :: d in ds ==> Grammatical(d.value)
    ensures Surplus(PrintProgram(ds)) == 0
  {
    if ds != [] {
      var d := ds[0];
      assert d in ds && forall e :: e in ds[1..] ==> e in ds;
      TextMatches(d.value);
      var head := [Tok(if d.constant then Const else Var), Token(Name, d.name), Tok(Equal)];
      SurplusOfThree(head);
      SurplusConcat(head, Print(d.value));
      ProgramMatches(ds[1..]);
      SurplusConcat(PrintDecl(d), PrintProgram(ds[1..]));
    }
  }

  /** A list of declarations is what some text with matching brackets is read as, to its end,
      exactly when no indexed name is read in it. */
  lemma {:induction false} ReadableIff(ns: seq<Node>)
    requires forall n :: n in ns ==> Declares(n)
    ensures (exists ts :: Surplus(ts) == 0 && ParseAll(ts) == (ns, [])) <==> IndexedNodes(ns) == 0
  {
    DeclarationsIff(ns);
    if IndexedNodes(ns) == 0 {
      var ds := DeclsOf(ns);
      DeclsFaithful(ns);
      ProgramMatches(ds);
      ParseInvertsPrint(ns);
      assert Surplus(PrintProgram(ds)) == 0 && ParseAll(PrintProgram(ds)) == (ns, []);
    }
    forall ts | Surplus(ts) == 0 && ParseAll(ts) == (ns, []) ensures IndexedNodes(ns) == 0 {
      CompleteHasNoIndex(ts);
    }
  }

  /** Writing a complete program anew, with parentheses only where they are needed, does not change
      what is read. */
  lemma {:induction false} ReformatKeeps(ts: Tokens)
    requires Surplus(ts) <= 0 && ParseAll(ts).1 == []
    requires forall n :: n in ParseAll(ts).0 ==> (n.VarDecl? || n.ConstDecl?) && n.value.Some?
    ensures forall n :: n in ParseAll(ts).0 ==> Declaration(n)
    ensures ParseAll(PrintProgram(DeclsOf(ParseAll(ts).0))) == ParseAll(ts)
  {
    var ns := ParseAll(ts).0;
    ProgramPays(ts);
    forall n | n in ns ensures Declares(n) { assert FormedNode(n); }
    DeclarationsIff(ns);
    ParseInvertsPrint(ns);
  }

  /** What happens instead: the name and its index are read, and the closing bracket is what comes
      next. */
  lemma {:induction false} IndexedNameLeavesBracket(x: string, i: Text, rest: Tokens)
    requires Grammatical(i) && !Expect(rest, Equal)
    ensures var after := [Tok(RightSquareBrace)] + rest;
      ParsePrimary([Token(Name, x), Tok(LeftSquareBrace)] + (Print(i) + after))
        == Parsed(Some(NameNode(x, Some(Erase(i)))), after)
  {
    hide ParseExpr, ParseUnary, Left, Print;
    var after := [Tok(RightSquareBrace)] + rest;
    var ts := [Token(Name, x), Tok(LeftSquareBrace)] + (Print(i) + after);
    assert ts[2..] == Print(i) + after && ts[1..][0] == ts[1] == Tok(LeftSquareBrace);
    ExprParses(i, after);
    assert after[1..] == rest;
    assert ParseAssign(ts) == Parsed(None, ts);
    assert ParseName(ts) == Parsed(Some(NameNode(x, Some(Erase(i)))), after);
    NoList(ts);
  }
}
