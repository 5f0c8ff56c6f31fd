/** What the parser of the CASH shell makes of text that is not well formed, with the kinds of tokens
    written out. A failed attempt keeps what it has consumed, so the tokens left are part of the answer. */
module CashErrors {
  import opened Wrappers
  import opened CashSyntax
  import opened CashPrecedence

  /** What an expression can start with. */
  const STARTS: set<TokenType> :=
    {Plus, Minus, Not, LeftParenthesis, Integer, True, False, Name, String, LeftSquareBrace}

  /** No expression starts here. */
  predicate Bad(ts: Tokens) { ts != [] ==> ts[0].kind !in STARTS }

  // ---------- Expressions ----------

  /** Where no expression starts, none is read, and nothing is consumed. */
  lemma {:induction false} NoExpression(ts: Tokens)
    requires Bad(ts)
    ensures ParsePrimary(ts) == Parsed(None, ts) && ParseTerm(ts) == Parsed(None, ts)
    ensures ParseExpr(ts) == Parsed(None, ts)
  {
    hide Left, ParseUnary, ParseAssign, ParseList, ParseName, SumLoop, ProductLoop;
    NoneOfThem(ts);
    assert ParsePrimary(ts) == Parsed(None, ts);
  }

  lemma {:induction false} NoneOfThem(ts: Tokens)
    requires ts != [] ==> ts[0].kind !in {Name, LeftSquareBrace}
    ensures ParseAssign(ts) == Parsed(None, ts) && ParseList(ts) == Parsed(None, ts)
    ensures ParseName(ts) == Parsed(None, ts)
  {
    hide Left, ParseExpr, ListLoop;
  }

  /** An operator without an operand after it takes the operand before it along. */
  lemma {:induction false} OperandMissing(x: Operand, op: Token, bad: Tokens)
    requires Primary(x.ts, x.tree) && op.kind in TIGHT + LOOSE && Bad(bad)
    ensures ParseExpr(x.ts + ([op] + bad)) == Parsed(None, bad)
  {
    hide ParsePrimary, Left, ParseTerm, ProductLoop, SumLoop;
    var more := [op] + bad;
    assert more[1..] == bad && ParsePrimary(x.ts + more) == Parsed(Some(x.tree), more);
    KindsAgree(op.kind);
    NoExpression(bad);
    LoopsEnd(x.tree, more);
    assert ParseTerm(x.ts + more) == ProductLoop(x.tree, more) by { TermOf(x.ts + more, x.tree, more); }
    if ParseTerm(x.ts + more).tree.Some? { SumOf(x.ts + more, x.tree, more); } else { NoSum(x.ts + more); }
  }

  lemma {:induction false} LoopsEnd(e: Expr, ts: Tokens)
    requires ts != [] && Bad(ts[1..])
    ensures ProductLoop(e, ts) == if IsProduct(ts[0].kind) then Parsed(None, ts[1..]) else Parsed(Some(e), ts)
    ensures SumLoop(e, ts) == if IsSum(ts[0].kind) then Parsed(None, ts[1..]) else Parsed(Some(e), ts)
  {
    hide ParsePrimary, ParseTerm, Left;
    NoExpression(ts[1..]);
  }

  lemma {:induction false} TermOf(ts: Tokens, e: Expr, more: Tokens)
    requires ParsePrimary(ts) == Parsed(Some(e), more)
    ensures ParseTerm(ts) == ProductLoop(e, more)
  {
    hide ParsePrimary, ProductLoop, Left;
  }

  lemma {:induction false} SumOf(ts: Tokens, e: Expr, more: Tokens)
    requires ParseTerm(ts) == Parsed(Some(e), more)
    ensures ParseExpr(ts) == SumLoop(e, more)
  {
    hide ParseTerm, SumLoop, Left;
  }

  lemma {:induction false} NoSum(ts: Tokens)
    requires ParseTerm(ts).tree.None?
    ensures ParseExpr(ts) == ParseTerm(ts)
  {
    hide ParseTerm, SumLoop, Left;
  }

  /** A parenthesis that is not closed. */
  lemma {:induction false} ParenthesisMissing(x: Operand, ops: Tokens, xs: seq<Operand>, rest: Tokens)
    requires |xs| == |ops| && AllIn(ops, TIGHT + LOOSE) && Primary(x.ts, x.tree) && Operands(xs) && Ends(rest)
    requires rest != [] ==> rest[0].kind != RightParenthesis
    ensures ParsePrimary([Tok(LeftParenthesis)] + (x.ts + (Tail(ops, xs) + rest))) == Parsed(None, rest)
  {
    hide Primary, Operands, Tail, Tree, ParseExpr, Left;
    var inner := x.ts + (Tail(ops, xs) + rest);
    ChainParses(x, ops, xs, rest);
    assert ([Tok(LeftParenthesis)] + inner)[1..] == inner;
  }

  /** What an operand starts with. */
  lemma {:induction false} OperandStarts(ts: Tokens, e: Expr)
    requires Primary(ts, e)
    ensures ts != [] && ts[0].kind in STARTS
  {
    hide ParsePrimary;
    assert ts + [] == ts && ParsePrimary(ts + []) == Parsed(Some(e), []);
    if Bad(ts) { NoExpression(ts); }
  }

  /** A list that is not closed, and one with a comma before its end. */
  lemma {:induction false} ElementMissing(x: Operand, ops: Tokens, xs: seq<Operand>, rest: Tokens)
    requires |xs| == |ops| && AllIn(ops, TIGHT + LOOSE) && Primary(x.ts, x.tree) && Operands(xs) && Ends(rest)
    ensures rest == [] || rest[0].kind !in {Comma, RightSquareBrace}
      ==> ParseList([Tok(LeftSquareBrace)] + (x.ts + (Tail(ops, xs) + rest))) == Parsed(None, rest)
    ensures rest != [] && rest[0].kind == Comma && Bad(rest[1..])
      ==> ParseList([Tok(LeftSquareBrace)] + (x.ts + (Tail(ops, xs) + rest))) == Parsed(None, rest[1..])
  {
    hide Primary, Operands, Tail, Tree, ParseExpr, ParseList, Left;
    var inner := x.ts + (Tail(ops, xs) + rest);
    ChainParses(x, ops, xs, rest);
    OperandStarts(x.ts, x.tree);
    assert ([Tok(LeftSquareBrace)] + inner)[1..] == inner && inner[0] == x.ts[0];
    ListOf([Tok(LeftSquareBrace)] + inner, Tree(ops, [x] + xs), rest);
    if rest != [] && Bad(rest[1..]) { NoExpression(rest[1..]); }
  }

  lemma {:induction false} ListOf(ts: Tokens, e: Expr, rest: Tokens)
    requires |ts| > 1 && ts[0].kind == LeftSquareBrace && ts[1].kind != RightSquareBrace
    requires ParseExpr(ts[1..]) == Parsed(Some(e), rest)
    ensures rest == [] || rest[0].kind !in {Comma, RightSquareBrace} ==> ParseList(ts) == Parsed(None, rest)
    ensures rest != [] && rest[0].kind == Comma && ParseExpr(rest[1..]).tree.None?
      ==> ParseList(ts) == ParseExpr(rest[1..])
  {
    hide ParseExpr, Left;
    assert ParseList(ts) == ListLoop([], ts[1..]);
    if rest != [] && rest[0].kind == Comma {
      assert ParseList(ts) == ListLoop([e], rest[1..]) by { assert [] + [e] == [e]; }
    }
  }

  /** Without a value after the equals sign the name is read, and the sign is left. */
  lemma {:induction false} ValueMissing(name: string, bad: Tokens)
    requires Bad(bad)
    ensures var rest := [Tok(Equal)] + bad;
      ParsePrimary([Token(Name, name)] + rest) == Parsed(Some(NameNode(name, None)), rest)
  {
    hide ParsePrimary, ParseExpr, Left;
    var rest := [Tok(Equal)] + bad;
    var ts := [Token(Name, name)] + rest;
    assert ts[1..] == rest && rest[1..] == bad;
    NoExpression(bad);
    NameAlone(ts);
  }

  lemma {:induction false} NameAlone(ts: Tokens)
    requires |ts| > 1 && ts[0].kind == Name && ts[1].kind == Equal && ParseExpr(ts[2..]).tree.None?
    ensures ParsePrimary(ts) == Parsed(Some(NameNode(ts[0].value, None)), ts[1..])
  {
    hide ParseExpr, Left, ParseUnary, ListLoop;
    assert ts[1..][1..] == ts[2..];
    assert ParseAssign(ts) == Parsed(None, ts);
    assert ParseList(ts) == Parsed(None, ts);
  }

  /** When the bracket of an index is missing the name is lost, and a string that follows is
      read instead. */
  lemma {:induction false} BracketMissing(name: string, x: Operand, ops: Tokens, xs: seq<Operand>, rest: Tokens)
    requires |xs| == |ops| && AllIn(ops, TIGHT + LOOSE) && Primary(x.ts, x.tree) && Operands(xs) && Ends(rest)
    requires rest != [] ==> rest[0].kind != RightSquareBrace && rest[0].kind != Name
    ensures var ts := [Token(Name, name), Tok(LeftSquareBrace)] + (x.ts + (Tail(ops, xs) + rest));
      ParsePrimary(ts) == if rest != [] && rest[0].kind == String
        then Parsed(Some(StringNode(rest[0].value)), rest[1..]) else Parsed(None, rest)
  {
    hide Primary, Operands, Tail, Tree, ParseExpr, Left, ParseUnary, ListLoop;
    var inner := x.ts + (Tail(ops, xs) + rest);
    var ts := [Token(Name, name), Tok(LeftSquareBrace)] + inner;
    ChainParses(x, ops, xs, rest);
    assert ts[2..] == inner;
    NoneOfThem(rest);
  }

  // ---------- Declarations ----------

  predicate StartsDeclaration(ts: Tokens) {
    |ts| >= 3 && ts[0].kind in {Var, Const} && ts[1].kind == Name && ts[2].kind == Equal
  }

  /** A declaration is its keyword, a name and an equals sign; its value is whatever expression follows,
      and null when none does. */
  lemma {:induction false} DeclarationIff(ts: Tokens)
    ensures ParseDecl(ts).node.Some? <==> StartsDeclaration(ts)
    ensures StartsDeclaration(ts) ==>
      var e := ParseExpr(ts[3..]);
      ParseNode(ts) == ParsedNode(Some(if ts[0].kind == Var then VarDecl(ts[1].value, e.tree)
                                       else ConstDecl(ts[1].value, e.tree)), e.rest)
  {
    hide ParseExpr, Left;
    if |ts| >= 3 { assert ts[1..][2..] == ts[3..]; }
  }

  /** Of a declaration that is none the keyword is lost, and a name after it; what follows is read as an
      expression. */
  lemma {:induction false} BrokenDeclaration(ts: Tokens)
    requires ts != [] && ts[0].kind in {Var, Const} && !StartsDeclaration(ts)
    ensures var rest := if |ts| > 1 && ts[1].kind == Name then ts[2..] else ts[1..];
      rest == [] || rest[0].kind != RawLine ==>
        var e := ParseExpr(rest);
        ParseNode(ts) == ParsedNode(if e.tree.None? then None else Some(Statement(e.tree.value)), e.rest)
  {
    hide ParseExpr, Left;
    if |ts| > 1 { assert ts[1..][1..] == ts[2..]; }
  }

  /** A program ends before what can start none of its parts, and all from there is left. */
  lemma {:induction false} NothingMore(ts: Tokens)
    requires Bad(ts) && (ts != [] ==> ts[0].kind !in {Var, Const, RawLine})
    ensures ParseAll(ts) == ([], ts)
  {
    hide ParseExpr, Left, ParseCommand;
    NoExpression(ts);
  }
}
