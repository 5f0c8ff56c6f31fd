/** No list of tokens at all that is read as a program is lighter than the program as it is printed,
    where a token weighs one more than the characters that are its value. */
module CashWeight {
  import opened Wrappers
  import opened CashSyntax
  import opened CashRoundTrip

  predicate HasValue(k: TokenType) { k in {Integer, Name, String, True, False} }

  function TokenWeight(t: Token): nat { 1 + if HasValue(t.kind) then |t.value| else 0 }

  function Weight(ts: Tokens): nat {
    if ts == [] then 0 else TokenWeight(ts[0]) + Weight(ts[1..])
  }

  /** The weight of a printed text. */
  function Mass(t: Text): nat {
    match t
    case Digits(v) => 1 + |v|
    case Word(v) => 1 + |v|
    case Quote(v) => 1 + |v|
    case Ident(v) => 1 + |v|
    case Prefix(_, e) => 1 + Mass(e)
    case Infix(_, l, r) => Mass(l) + 1 + Mass(r)
    case Paren(e) => Mass(e) + 2
    case Brackets(es) => MassAll(es) + 2
    case Assign(x, at, e) => 1 + |x| + (match at case None => 0 case Some(i) => Mass(i) + 2) + 1 + Mass(e)
  }

  function MassAll(es: seq<Text>): nat {
    if es == [] then 0 else Mass(es[0]) + (if |es| == 1 then 0 else 1 + MassAll(es[1..]))
  }

  // ---------- Weights of token lists ----------

  lemma {:induction false} WeightConcat(a: Tokens, b: Tokens)
    ensures Weight(a + b) == Weight(a) + Weight(b)
  {
    if a == [] {
      assert a + b == b;
    } else {
      assert (a + b)[1..] == a[1..] + b;
      WeightConcat(a[1..], b);
    }
  }

  lemma {:induction false} WeightOne(t: Token)
    ensures Weight([t]) == TokenWeight(t)
  {
    assert [t][1..] == [];
  }

  lemma {:induction false} WeightTwo(ts: Tokens)
    requires |ts| > 1
    ensures Weight(ts) == TokenWeight(ts[0]) + TokenWeight(ts[1]) + Weight(ts[2..])
  {
    assert ts[1..][1..] == ts[2..];
  }

  lemma {:induction false} PrintWeighs(t: Text)
    requires Grammatical(t)
    ensures Weight(Print(t)) == Mass(t)
    decreases t, 0
  {
    hide Weight;
    match t {
      case Digits(v) => WeightOne(Token(Integer, v));
      case Word(v) => WeightOne(Token(if v == "true" then True else False, v));
      case Quote(v) => WeightOne(Token(String, v));
      case Ident(v) => WeightOne(Token(Name, v));
      case Prefix(op, e) =>
        PrintWeighs(e);
        WeightAround([Tok(op)], Print(e), []);
      case Infix(op, l, r) =>
        PrintWeighs(l);
        PrintWeighs(r);
        WeightAround([Tok(op)], Print(r), []);
        WeightConcat(Print(l), [Tok(op)] + Print(r));
      case Paren(e) =>
        PrintWeighs(e);
        WeightAround([Tok(LeftParenthesis)], Print(e), [Tok(RightParenthesis)]);
      case Brackets(es) =>
        ElementsWeigh(es);
        WeightAround([Tok(LeftSquareBrace)], PrintAll(es), [Tok(RightSquareBrace)]);
      case Assign(x, at, e) =>
        PrintWeighs(e);
        if at.Some? { PrintWeighs(at.value); }
        AssignWeighs(x, at, e);
    }
  }

  lemma {:induction false} WeightAround(before: Tokens, middle: Tokens, after: Tokens)
    requires |before| == 1 && |after| <= 1
    ensures Weight(before + (middle + after)) ==
      TokenWeight(before[0]) + Weight(middle) + (if after == [] then 0 else TokenWeight(after[0]))
    ensures after == [] ==> middle + after == middle
  {
    WeightConcat(before, middle + after);
    WeightConcat(middle, after);
    WeightOne(before[0]);
    assert before == [before[0]];
    if after != [] {
      WeightOne(after[0]);
      assert after == [after[0]];
    }
  }

  lemma {:induction false} AssignWeighs(x: string, at: Option<Text>, e: Text)
    requires Weight(Print(e)) == Mass(e) && (at.Some? ==> Weight(Print(at.value)) == Mass(at.value))
    ensures Weight(Print(Assign(x, at, e))) == Mass(Assign(x, at, e))
  {
    hide Weight;
    match at {
      case None =>
        WeightPair(Token(Name, x), Tok(Equal));
        WeightConcat([Token(Name, x), Tok(Equal)], Print(e));
      case Some(i) =>
        var open, close := [Token(Name, x), Tok(LeftSquareBrace)], [Tok(RightSquareBrace), Tok(Equal)];
        WeightPair(open[0], open[1]);
        WeightPair(close[0], close[1]);
        WeightConcat(close, Print(e));
        WeightConcat(Print(i), close + Print(e));
        WeightConcat(open, Print(i) + (close + Print(e)));
    }
  }

  lemma {:induction false} WeightPair(a: Token, b: Token)
    ensures Weight([a, b]) == TokenWeight(a) + TokenWeight(b)
  {
    assert [a, b][1..] == [b];
    WeightOne(b);
  }

  lemma {:induction false} ElementsWeigh(es: seq<Text>)
    requires forall e :: e in es ==> Grammatical(e)
    ensures Weight(PrintAll(es)) == MassAll(es)
    decreases es, 0
  {
    hide Weight;
    if es == [] {
      NothingWeighs();
    } else {
      PrintWeighs(es[0]);
      if |es| > 1 {
        ElementsWeigh(es[1..]);
        WeightAround([Tok(Comma)], PrintAll(es[1..]), []);
        WeightConcat(Print(es[0]), [Tok(Comma)] + PrintAll(es[1..]));
      }
    }
  }

  lemma {:induction false} NothingWeighs()
    ensures Weight([]) == 0
  {}

  // ---------- What is read has been paid for ----------

  /** The weight of the tree in a place of the given level, before an operator or not. */
  function Need(e: Expr, level: nat, followed: bool): nat { Mass(Protect(Minimal(e), level, followed)) }

  /** The tokens start with an operator. */
  predicate Operator(ts: Tokens) { ts != [] && (IsSum(ts[0].kind) || IsProduct(ts[0].kind)) }

  ghost predicate Pays(ts: Tokens, r: Parsed, level: nat) {
    && Weight(r.rest) <= Weight(ts)
    && (r.tree.Some? && Proper(r.tree.value)
      ==> Weight(ts) - Weight(r.rest) >= Need(r.tree.value, level, Operator(r.rest)))
  }

  lemma {:induction false} NeedLess(e: Expr, level: nat, followed: bool)
    ensures Mass(Minimal(e)) <= Need(e, level, followed) <= Mass(Minimal(e)) + 2
    ensures level > 0 ==> Need(e, level - 1, followed) <= Need(e, level, followed)
    ensures Need(e, 0, false) == Mass(Minimal(e))
  {}

  lemma {:induction false} NeedOfBinary(op: TokenType, l: Expr, r: Expr, followed: bool)
    requires IsSum(op) || IsProduct(op)
    ensures var level := if IsSum(op) then 0 else 1;
      Need(BinaryNode(op, l, r), level, followed) <= Need(l, level, true) + 1 + Need(r, level + 1, followed)
  {
    var level := if IsSum(op) then 0 else 1;
    var pl, pr := Protect(Minimal(l), level, true), Protect(Minimal(r), level + 1, false);
    var m := Infix(op, pl, pr);
    assert Minimal(BinaryNode(op, l, r)) == m && Mass(m) == Mass(pl) + 1 + Mass(pr);
    ProtectedMass(m, level, followed);
    ProtectedMass(Minimal(r), level + 1, followed);
    ProtectedMass(Minimal(r), level + 1, false);
  }

  lemma {:induction false} ProtectedMass(t: Text, level: nat, followed: bool)
    ensures Mass(Protect(t, level, followed)) == Mass(t) + (if Level(t) < level || (followed && Open(t)) then 2 else 0)
  {}

  lemma {:induction false} NeedOfUnary(op: TokenType, x: Expr, followed: bool)
    ensures Need(UnaryNode(op, x), 2, followed) <= 1 + Need(x, 2, followed)
  {
    var m := Prefix(op, Protect(Minimal(x), 2, false));
    assert Minimal(UnaryNode(op, x)) == m && Mass(m) == 1 + Mass(Protect(Minimal(x), 2, false));
    ProtectedMass(m, 2, followed);
    ProtectedMass(Minimal(x), 2, followed);
    ProtectedMass(Minimal(x), 2, false);
  }

  lemma {:induction false} ExprPays(ts: Tokens)
    ensures Pays(ts, ParseExpr(ts), 0)
    ensures ParseExpr(ts).tree.Some? ==> !Operator(ParseExpr(ts).rest)
    decreases |ts|, 4
  {
    hide ParseTerm, SumLoop, Need, Weight, Proper;
    var l := ParseTerm(ts);
    TermPays(ts);
    if l.tree.Some? {
      NeedLess(l.tree.value, 1, Operator(l.rest));
      SumPays(l.tree.value, l.rest, Weight(ts) - Weight(l.rest));
    }
  }

  /** The loop, where the tree so far has been paid for with `paid`. */
  lemma {:induction false} SumPays(left: Expr, ts: Tokens, paid: nat)
    requires Proper(left) ==> paid >= Need(left, 0, Operator(ts))
    requires ts != [] ==> !IsProduct(ts[0].kind)
    ensures var r := SumLoop(left, ts);
      && Weight(r.rest) <= Weight(ts)
      && (r.tree.Some? && Proper(r.tree.value)
        ==> paid + Weight(ts) - Weight(r.rest) >= Need(r.tree.value, 0, Operator(r.rest)))
      && (r.tree.Some? ==> !Operator(r.rest))
    decreases |ts|, 0
  {
    hide ParseTerm, Need, Left;
    if ts != [] && IsSum(ts[0].kind) {
      var right := ParseTerm(ts[1..]);
      TermPays(ts[1..]);
      LeftTail(ts, 1);
      LeftTrans(right.rest, ts[1..], ts);
      if right.tree.Some? {
        var both := BinaryNode(ts[0].kind, left, right.tree.value);
        NeedOfBinary(ts[0].kind, left, right.tree.value, Operator(right.rest));
        SumPays(both, right.rest, paid + Weight(ts) - Weight(right.rest));
      }
    }
  }

  lemma {:induction false} TermPays(ts: Tokens)
    ensures Pays(ts, ParseTerm(ts), 1)
    ensures var r := ParseTerm(ts); r.tree.Some? && r.rest != [] ==> !IsProduct(r.rest[0].kind)
    decreases |ts|, 3
  {
    hide ParsePrimary, ProductLoop, Need, Weight, Proper;
    var l := ParsePrimary(ts);
    PrimaryPays(ts);
    if l.tree.Some? {
      NeedLess(l.tree.value, 2, Operator(l.rest));
      ProductPays(l.tree.value, l.rest, Weight(ts) - Weight(l.rest));
    }
  }

  lemma {:induction false} ProductPays(left: Expr, ts: Tokens, paid: nat)
    requires Proper(left) ==> paid >= Need(left, 1, Operator(ts))
    ensures var r := ProductLoop(left, ts);
      && Weight(r.rest) <= Weight(ts)
      && (r.tree.Some? && Proper(r.tree.value)
        ==> paid + Weight(ts) - Weight(r.rest) >= Need(r.tree.value, 1, Operator(r.rest)))
      && (r.tree.Some? && r.rest != [] ==> !IsProduct(r.rest[0].kind))
    decreases |ts|, 0
  {
    hide ParsePrimary, Need, Left;
    if ts != [] && IsProduct(ts[0].kind) {
      var right := ParsePrimary(ts[1..]);
      PrimaryPays(ts[1..]);
      LeftTail(ts, 1);
      LeftTrans(right.rest, ts[1..], ts);
      if right.tree.Some? {
        var both := BinaryNode(ts[0].kind, left, right.tree.value);
        NeedOfBinary(ts[0].kind, left, right.tree.value, Operator(right.rest));
        ProductPays(both, right.rest, paid + Weight(ts) - Weight(right.rest));
      }
    }
  }

  lemma {:induction false} PrimaryPays(ts: Tokens)
    ensures Pays(ts, ParsePrimary(ts), 2)
    decreases |ts|, 2
  {
    hide ParseExpr, ParseUnary, ParseAssign, ParseList, ParseName, Left, Need;
    if ts == [] {
    } else if IsUnary(ts[0].kind) {
      UnaryPays(ts);
    } else if ts[0].kind == LeftParenthesis {
      ExprPays(ts[1..]);
      var inner := ParseExpr(ts[1..]);
      if inner.tree.Some? {
        NeedLess(inner.tree.value, 0, false);
        NeedLess(inner.tree.value, 2, inner.rest != [] && Operator(inner.rest[1..]));
      }
    } else if ts[0].kind == Integer || ts[0].kind == True || ts[0].kind == False {
      LeafNeeds(ts[0].value, Operator(ts[1..]));
    } else {
      AssignPays(ts);
      var assign := ParseAssign(ts);
      LeftRefl(assign.rest);
      LeftTrans(assign.rest, assign.rest, ts);
      if assign.tree.None? {
        if Expect(assign.rest, String) {
          LeafNeeds(assign.rest[0].value, Operator(assign.rest[1..]));
        } else {
          ListPays(assign.rest);
          var list := ParseList(assign.rest);
          LeftTrans(list.rest, assign.rest, ts);
          NamePays(list.rest);
        }
      }
    }
  }

  lemma {:induction false} LeafNeeds(v: string, followed: bool)
    ensures Need(IntegerNode(v), 2, followed) == 1 + |v| && Need(BoolNode(v), 2, followed) == 1 + |v|
    ensures Need(StringNode(v), 2, followed) == 1 + |v| && Need(NameNode(v, None), 2, followed) == 1 + |v|
  {}

  lemma {:induction false} UnaryPays(ts: Tokens)
    requires ts != [] && IsUnary(ts[0].kind)
    ensures Pays(ts, ParseUnary(ts), 2)
    decreases |ts|, 1
  {
    hide ParsePrimary, Need;
    PrimaryPays(ts[1..]);
    var value := ParsePrimary(ts[1..]);
    if value.tree.Some? { NeedOfUnary(ts[0].kind, value.tree.value, Operator(value.rest)); }
  }

  lemma {:induction false} AssignPays(ts: Tokens)
    ensures Pays(ts, ParseAssign(ts), 2)
    decreases |ts|, 1
  {
    hide ParseExpr, AssignValue, Left, Need, Minimal;
    if Expect(ts, Name) && |ts| > 1 {
      WeightTwo(ts);
      if ts[1].kind == LeftSquareBrace {
        var index := ParseExpr(ts[2..]);
        ExprPays(ts[2..]);
        if index.tree.Some? { NeedLess(index.tree.value, 0, Operator(index.rest)); }
        if Expect(index.rest, RightSquareBrace) {
          LeftTail(ts, 2);
          LeftTrans(index.rest, ts[2..], ts);
          LeftTail(index.rest, 1);
          LeftTrans(index.rest[1..], index.rest, ts);
          ValuePays(ts, index.tree, index.rest[1..]);
        }
      } else {
        LeftTail(ts, 1);
        ValuePays(ts, None, ts[1..]);
      }
    }
  }

  /** What the target of an assignment weighs. */
  function TargetWeight(x: string, index: Option<Expr>): nat {
    1 + |x| + match index case None => 0 case Some(i) => Mass(Minimal(i)) + 2
  }

  lemma {:induction false} AssignNeeds(x: string, index: Option<Expr>, e: Expr)
    ensures Need(AssignNode(x, index, e), 2, false) == TargetWeight(x, index) + 1 + Mass(Minimal(e))
  {}

  lemma {:induction false} ValuePays(ts: Tokens, index: Option<Expr>, at: Tokens)
    requires ts != [] && Left(at, ts) && |at| < |ts| && Weight(at) <= Weight(ts)
    requires (index.Some? ==> Proper(index.value)) ==> Weight(ts) - Weight(at) >= TargetWeight(ts[0].value, index)
    ensures Pays(ts, AssignValue(ts, index, at), 2)
    decreases |ts|, 0
  {
    hide ParseExpr, Need, TargetWeight, Minimal;
    if Expect(at, Equal) {
      ExprPays(at[1..]);
      var value := ParseExpr(at[1..]);
      if value.tree.Some? {
        NeedLess(value.tree.value, 0, false);
        AssignNeeds(ts[0].value, index, value.tree.value);
      }
    }
  }

  /** Elements and the commas between them. */
  function ListWeight(es: seq<Expr>): nat { MassAll(MinimalAll(es)) }

  predicate AllProper(es: seq<Expr>) { forall x :: x in es ==> Proper(x) }

  lemma {:induction false} ListMore(es: seq<Expr>, e: Expr)
    ensures ListWeight(es + [e]) == ListWeight(es) + (if es == [] then 0 else 1) + Mass(Minimal(e))
  {
    if es == [] {
      assert es + [e] == [e];
    } else {
      assert (es + [e])[1..] == es[1..] + [e] && (es + [e])[0] == es[0];
      ListMore(es[1..], e);
      if |es| == 1 { assert es[1..] == []; }
    }
  }

  lemma {:induction false} ListNeeds(es: seq<Expr>, followed: bool)
    ensures Need(ListNode(es), 2, followed) == ListWeight(es) + 2
  {}

  lemma {:induction false} ListPays(ts: Tokens)
    ensures Pays(ts, ParseList(ts), 2)
    decreases |ts|, 1
  {
    hide ParseExpr, ListLoop, Left, Need;
    if Expect(ts, LeftSquareBrace) {
      if Expect(ts[1..], RightSquareBrace) {
        WeightTwo(ts);
        ListNeeds([], Operator(ts[2..]));
      } else {
        LoopPays([], ts[1..], 1);
      }
    }
  }

  lemma {:induction false} LoopPays(content: seq<Expr>, ts: Tokens, paid: nat)
    requires AllProper(content) ==> paid >= ListWeight(content) + 1 + (if content == [] then 0 else 1)
    ensures var r := ListLoop(content, ts);
      && Weight(r.rest) <= Weight(ts)
      && (r.tree.Some? && Proper(r.tree.value)
        ==> paid + Weight(ts) - Weight(r.rest) >= Need(r.tree.value, 2, Operator(r.rest)))
    decreases |ts|, 5
  {
    hide ParseExpr, Left, Need, ListWeight, Minimal;
    var e := ParseExpr(ts);
    ExprPays(ts);
    if e.tree.Some? && e.rest != [] {
      NeedLess(e.tree.value, 0, false);
      var more := content + [e.tree.value];
      ListMore(content, e.tree.value);
      assert AllProper(more) ==> AllProper(content) && Proper(e.tree.value) by {
        if AllProper(more) {
          assert e.tree.value in more;
          forall x | x in content ensures Proper(x) { assert x in more; }
        }
      }
      if e.rest[0].kind == Comma {
        LoopPays(more, e.rest[1..], paid + Weight(ts) - Weight(e.rest[1..]));
      } else {
        ListNeeds(more, Operator(e.rest[1..]));
      }
    }
  }

  lemma {:induction false} NamePays(ts: Tokens)
    ensures Pays(ts, ParseName(ts), 2)
    decreases |ts|, 1
  {
    hide ParseExpr, Left, Need;
    if Expect(ts, Name) {
      LeafNeeds(ts[0].value, Operator(ParseName(ts).rest));
      if Expect(ts[1..], LeftSquareBrace) {
        WeightTwo(ts);
        ExprPays(ts[2..]);
      }
    }
  }

  // ---------- Programs ----------

  /** The weight of a printed declaration. */
  function NodeWeight(n: Node): nat {
    if Declaration(n) then 3 + |n.name| + Mass(Minimal(n.value.value)) else 0
  }

  function NodesWeight(ns: seq<Node>): nat {
    if ns == [] then 0 else NodeWeight(ns[0]) + NodesWeight(ns[1..])
  }

  ghost predicate NodePaid(ts: Tokens, r: ParsedNode) {
    Weight(r.rest) + (if r.node.Some? then NodeWeight(r.node.value) else 0) <= Weight(ts)
  }

  lemma {:induction false} DeclPays(ts: Tokens)
    ensures NodePaid(ts, ParseDecl(ts))
  {
    hide ParseExpr, Left, Minimal, Weight;
    if Expect(ts, Var) || Expect(ts, Const) {
      WeightHead(ts);
      if |ts| > 1 && ts[1].kind == Name {
        WeightHead(ts[1..]);
        if |ts| > 2 && ts[2].kind == Equal {
          assert ts[1..][1..][1..] == ts[1..][2..];
          WeightHead(ts[1..][1..]);
          ExprPays(ts[1..][2..]);
          var value := ParseExpr(ts[1..][2..]);
          if value.tree.Some? { NeedLess(value.tree.value, 0, Operator(value.rest)); }
        }
      }
    }
  }

  lemma {:induction false} WeightHead(ts: Tokens)
    requires ts != []
    ensures Weight(ts) == TokenWeight(ts[0]) + Weight(ts[1..])
  {}

  lemma {:induction false} NodePays(ts: Tokens)
    ensures NodePaid(ts, ParseNode(ts))
  {
    hide ParseExpr, ParseDecl, Left, CashSyntax.Words;
    var decl := ParseDecl(ts);
    DeclPays(ts);
    if decl.node.None? {
      var command := if Expect(decl.rest, RawLine) then ParseCommand(decl.rest) else ParsedNode(None, decl.rest);
      if command.node.None? { ExprPays(command.rest); }
    }
  }

  lemma {:induction false} ProgramPays(ts: Tokens)
    ensures Weight(ParseAll(ts).1) + NodesWeight(ParseAll(ts).0) <= Weight(ts)
    decreases |ts|
  {
    hide ParseNode, NodeWeight, Weight;
    if ts != [] {
      NodePays(ts);
      var n := ParseNode(ts);
      if n.node.Some? {
        var more := ParseAll(n.rest);
        ProgramPays(n.rest);
        assert ([n.node.value] + more.0)[1..] == more.0;
      }
    }
  }

  lemma {:induction false} DeclWeighs(n: Node)
    requires Declaration(n)
    ensures Weight(PrintDecl(DeclOf(n))) == NodeWeight(n)
  {
    hide Weight;
    var d := DeclOf(n);
    MinimalIsText(n.value.value);
    PrintWeighs(d.value);
    var k := Tok(if d.constant then Const else Var);
    WeightPair(Token(Name, d.name), Tok(Equal));
    WeightOne(k);
    assert [k, Token(Name, d.name), Tok(Equal)] == [k] + [Token(Name, d.name), Tok(Equal)];
    WeightConcat([k], [Token(Name, d.name), Tok(Equal)]);
    WeightConcat([k, Token(Name, d.name), Tok(Equal)], Print(d.value));
  }

  lemma {:induction false} ProgramWeighs(ns: seq<Node>)
    requires forall n :: n in ns ==> Declaration(n)
    ensures Weight(PrintProgram(DeclsOf(ns))) == NodesWeight(ns)
  {
    hide Weight, PrintDecl, NodeWeight, DeclOf;
    if ns == [] {
      NothingWeighs();
    } else {
      assert ns[0] in ns;
      DeclWeighs(ns[0]);
      ProgramWeighs(ns[1..]);
      WeightConcat(PrintDecl(DeclOf(ns[0])), PrintProgram(DeclsOf(ns[1..])));
    }
  }

  /** Whatever is read as the declarations weighs at least as much as what is printed for them. */
  lemma {:induction false} PrintIsLightest(ts: Tokens)
    requires forall n :: n in ParseAll(ts).0 ==> Declaration(n)
    ensures Weight(PrintProgram(DeclsOf(ParseAll(ts).0))) <= Weight(ts)
  {
    ProgramPays(ts);
    ProgramWeighs(ParseAll(ts).0);
  }
}
