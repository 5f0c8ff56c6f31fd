/** The recursive-descent parser of the CASH shell, with its cursor into the tokens. */
module CashParser {
  import opened Wrappers
  import opened CashSyntax
  import CashRoundTrip

  class Parser {
    var tokens: Tokens
    var tokenCursor: nat
    var nodes: seq<Node>

    ghost predicate Valid()
      reads this
    {
      tokenCursor <= |tokens|
    }

    /** The tokens the cursor has not passed. */
    ghost function Ahead(): Tokens
      requires Valid()
      reads this
    {
      tokens[tokenCursor..]
    }

    constructor (tokens: Tokens)
      ensures Valid() && this.tokens == tokens && tokenCursor == 0 && nodes == []
    {
      this.tokens, tokenCursor, nodes := tokens, 0, [];
    }

    predicate Sees(kind: TokenType)
      requires Valid()
      reads this
      ensures Sees(kind) == Expect(Ahead(), kind)
    {
      tokenCursor < |tokens| && tokens[tokenCursor].kind == kind
    }

    method Advance() returns (tok: Token)
      requires Valid() && tokenCursor < |tokens|
      modifies this`tokenCursor
      ensures Valid() && tokenCursor == old(tokenCursor) + 1
      ensures tok == old(Ahead()[0]) && Ahead() == old(Ahead())[1..]
    {
      tok := tokens[tokenCursor];
      tokenCursor := tokenCursor + 1;
    }

    method ParseExpr() returns (node: Option<Expr>)
      requires Valid()
      modifies this`tokenCursor
      ensures Valid() && old(tokenCursor) <= tokenCursor && (node.Some? ==> old(tokenCursor) < tokenCursor)
      ensures CashSyntax.ParseExpr(old(Ahead())) == Parsed(node, Ahead())
      decreases |tokens| - tokenCursor, 4
    {
      hide CashSyntax.ParseTerm, Left;
      var left := ParseTerm();
      if left.None? { return None; }
      while tokenCursor < |tokens|
        invariant Valid() && old(tokenCursor) < tokenCursor && left.Some?
        invariant CashSyntax.ParseExpr(old(Ahead())) == SumLoop(left.value, Ahead())
      {
        if !(Sees(Plus) || Sees(Minus) || Sees(Or) || Sees(Xor) || Sees(EqualEqual) || Sees(NotEqual)
             || Sees(LesserThan) || Sees(LesserThanEqual) || Sees(GreaterThan) || Sees(GreaterThanEqual)) {
          break;
        }
        var op := Advance();
        var right := ParseTerm();
        if right.None? { return None; }
        left := Some(BinaryNode(op.kind, left.value, right.value));
      }
      return left;
    }

    method ParseTerm() returns (node: Option<Expr>)
      requires Valid()
      modifies this`tokenCursor
      ensures Valid() && old(tokenCursor) <= tokenCursor && (node.Some? ==> old(tokenCursor) < tokenCursor)
      ensures CashSyntax.ParseTerm(old(Ahead())) == Parsed(node, Ahead())
      decreases |tokens| - tokenCursor, 3
    {
      hide CashSyntax.ParsePrimary, Left;
      var left := ParsePrimaryExpr();
      if left.None? { return None; }
      while tokenCursor < |tokens|
        invariant Valid() && old(tokenCursor) < tokenCursor && left.Some?
        invariant CashSyntax.ParseTerm(old(Ahead())) == ProductLoop(left.value, Ahead())
      {
        if !(Sees(Star) || Sees(Slash) || Sees(And)) { break; }
        var op := Advance();
        var right := ParsePrimaryExpr();
        if right.None? { return None; }
        left := Some(BinaryNode(op.kind, left.value, right.value));
      }
      return left;
    }

    method ParsePrimaryExpr() returns (node: Option<Expr>)
      requires Valid()
      modifies this`tokenCursor
      ensures Valid() && old(tokenCursor) <= tokenCursor && (node.Some? ==> old(tokenCursor) < tokenCursor)
      ensures CashSyntax.ParsePrimary(old(Ahead())) == Parsed(node, Ahead())
      decreases |tokens| - tokenCursor, 2
    {
      hide CashSyntax.ParseExpr, CashSyntax.ParseUnary, CashSyntax.ParseAssign,
        CashSyntax.ParseList, CashSyntax.ParseName, Left;
      if tokenCursor >= |tokens| { return None; }
      if Sees(Plus) || Sees(Minus) || Sees(Not) {
        node := ParseUnaryOp();
        return;
      }
      if Sees(LeftParenthesis) {
        var _ := Advance();
        var inner := ParseExpr();
        if !Sees(RightParenthesis) { return None; }
        var _ := Advance();
        return inner;
      }
      node := ParseLeaf(Integer);
      if node.Some? { return; }
      node := ParseBool();
      if node.Some? { return; }
      node := ParseAssign();
      if node.Some? { return; }
      node := ParseLeaf(String);
      if node.Some? { return; }
      node := ParseList();
      if node.Some? { return; }
      node := ParseName();
    }

    method ParseUnaryOp() returns (node: Option<Expr>)
      requires Valid() && tokenCursor < |tokens|
      modifies this`tokenCursor
      ensures Valid() && old(tokenCursor) <= tokenCursor && (node.Some? ==> old(tokenCursor) < tokenCursor)
      ensures CashSyntax.ParseUnary(old(Ahead())) == Parsed(node, Ahead())
      decreases |tokens| - tokenCursor, 1
    {
      hide CashSyntax.ParsePrimary, Left;
      var op := Advance();
      var value := ParsePrimaryExpr();
      if value.None? { return None; }
      return Some(UnaryNode(op.kind, value.value));
    }

    /** `parseInteger` and `parseString`. */
    method ParseLeaf(kind: TokenType) returns (node: Option<Expr>)
      requires Valid() && kind in {Integer, String}
      modifies this`tokenCursor
      ensures Valid()
      ensures if Expect(old(Ahead()), kind)
        then tokenCursor == old(tokenCursor) + 1 && Ahead() == old(Ahead())[1..]
             && node == Some(if kind == Integer then IntegerNode(old(Ahead()[0].value))
               else StringNode(old(Ahead()[0].value)))
        else tokenCursor == old(tokenCursor) && node == None
    {
      if Sees(kind) {
        var _ := Advance();
        var value := tokens[tokenCursor - 1].value;
        return Some(if kind == Integer then IntegerNode(value) else StringNode(value));
      }
      return None;
    }

    method ParseBool() returns (node: Option<Expr>)
      requires Valid()
      modifies this`tokenCursor
      ensures Valid()
      ensures if Expect(old(Ahead()), True) || Expect(old(Ahead()), False)
        then tokenCursor == old(tokenCursor) + 1 && Ahead() == old(Ahead())[1..]
             && node == Some(BoolNode(old(Ahead()[0].value)))
        else tokenCursor == old(tokenCursor) && node == None
    {
      if Sees(True) || Sees(False) {
        var _ := Advance();
        return Some(BoolNode(tokens[tokenCursor - 1].value));
      }
      return None;
    }

    method ParseName() returns (node: Option<Expr>)
      requires Valid()
      modifies this`tokenCursor
      ensures Valid() && old(tokenCursor) <= tokenCursor && (node.Some? ==> old(tokenCursor) < tokenCursor)
      ensures CashSyntax.ParseName(old(Ahead())) == Parsed(node, Ahead())
      decreases |tokens| - tokenCursor, 1
    {
      hide CashSyntax.ParseExpr, Left;
      ghost var ts := Ahead();
      if Sees(Name) {
        var name := Advance();
        if Sees(LeftSquareBrace) {
          var _ := Advance();
          assert Ahead() == ts[2..];
          var index := ParseExpr();
          if !Sees(RightSquareBrace) { return None; }
          return Some(NameNode(name.value, index));
        }
        return Some(NameNode(name.value, None));
      }
      return None;
    }

    method ParseAssign() returns (node: Option<Expr>)
      requires Valid()
      modifies this`tokenCursor
      ensures Valid() && old(tokenCursor) <= tokenCursor && (node.Some? ==> old(tokenCursor) < tokenCursor)
      ensures CashSyntax.ParseAssign(old(Ahead())) == Parsed(node, Ahead())
      decreases |tokens| - tokenCursor, 1
    {
      hide CashSyntax.ParseExpr, Left, CashSyntax.AssignValue;
      var startCursor := tokenCursor;
      ghost var ts := Ahead();
      var index: Option<Expr> := None;
      if Sees(Name) {
        var name := Advance();
        if tokenCursor >= |tokens| {
          tokenCursor := startCursor;
          return None;
        }
        if Sees(LeftSquareBrace) {
          var _ := Advance();
          assert Ahead() == ts[2..];
          index := ParseExpr();
          if !Sees(RightSquareBrace) { return None; }
          var _ := Advance();
        }
        LeftTail(ts, tokenCursor - startCursor);
        ghost var at := Ahead();
        assert ts[tokenCursor - startCursor..] == at;
        assert CashSyntax.ParseAssign(ts) == AssignValue(ts, index, at);
        ValueFollows(ts, index, at);
        if Sees(Equal) {
          var _ := Advance();
          var value := ParseExpr();
          if value.Some? { return Some(AssignNode(name.value, index, value.value)); }
        }
      }
      tokenCursor := startCursor;
      return None;
    }

    static lemma {:induction false} ValueFollows(ts: Tokens, index: Option<Expr>, at: Tokens)
      requires ts != [] && Left(at, ts) && |at| < |ts|
      ensures !Expect(at, Equal) ==> AssignValue(ts, index, at) == Parsed(None, ts)
      ensures Expect(at, Equal) ==> var value := CashSyntax.ParseExpr(at[1..]);
        (AssignValue(ts, index, at) == if value.tree.Some?
          then Parsed(Some(AssignNode(ts[0].value, index, value.tree.value)), value.rest)
                                       else Parsed(None, ts))
    {
      hide CashSyntax.ParseExpr, Left;
    }

    method ParseList() returns (node: Option<Expr>)
      requires Valid()
      modifies this`tokenCursor
      ensures Valid() && old(tokenCursor) <= tokenCursor && (node.Some? ==> old(tokenCursor) < tokenCursor)
      ensures CashSyntax.ParseList(old(Ahead())) == Parsed(node, Ahead())
      decreases |tokens| - tokenCursor, 1
    {
      hide CashSyntax.ParseExpr, Left;
      ghost var ts := Ahead();
      if Sees(LeftSquareBrace) {
        var content: seq<Expr> := [];
        var _ := Advance();
        if !Sees(RightSquareBrace) {
          while true
            invariant Valid() && old(tokenCursor) < tokenCursor
            invariant CashSyntax.ParseList(ts) == ListLoop(content, Ahead())
            decreases |tokens| - tokenCursor
          {
            ghost var before := Ahead();
            var expr := ParseExpr();
            if expr.None? { return None; }
            content := content + [expr.value];
            if tokenCursor >= |tokens| { return None; }
            if Sees(Comma) {
              var _ := Advance();
              continue;
            }
            break;
          }
        }
        if !Sees(RightSquareBrace) { return None; }
        var _ := Advance();
        return Some(ListNode(content));
      }
      return None;
    }

    method ParseDecl() returns (node: Option<Node>)
      requires Valid()
      modifies this`tokenCursor
      ensures Valid() && old(tokenCursor) <= tokenCursor && (node.Some? ==> old(tokenCursor) < tokenCursor)
      ensures CashSyntax.ParseDecl(old(Ahead())) == ParsedNode(node, Ahead())
    {
      hide ParseDeclBody, Left;
      if Sees(Var) {
        var _ := Advance();
        node := ParseBinding(true);
        return;
      } else if Sees(Const) {
        var _ := Advance();
        node := ParseBinding(false);
        return;
      }
      return None;
    }

    /** `parseVarDecl` and `parseConstDecl`, which differ in the node they allocate. */
    method ParseBinding(isVar: bool) returns (node: Option<Node>)
      requires Valid()
      modifies this`tokenCursor
      ensures Valid() && old(tokenCursor) <= tokenCursor && (node.Some? ==> old(tokenCursor) < tokenCursor)
      ensures ParseDeclBody(isVar, old(Ahead())) == ParsedNode(node, Ahead())
    {
      hide CashSyntax.ParseExpr, Left;
      ghost var ts := Ahead();
      if Sees(Name) {
        var name := Advance();
        if tokenCursor >= |tokens| { return None; }
        if Sees(Equal) {
          var _ := Advance();
          assert Ahead() == ts[2..];
          var value := ParseExpr();
          return Some(if isVar then VarDecl(name.value, value) else ConstDecl(name.value, value));
        }
      }
      return None;
    }

    /** Ends a word of a command, if there is one. */
    static method FlushCommandWord(words: seq<string>, curr: string) returns (flushed: seq<string>)
      ensures flushed == words + (if curr == "" then [] else [curr])
    {
      if |curr| == 0 { return words; }
      return words + [curr];
    }

    method ParseCommand() returns (node: Option<Node>)
      requires Valid() && tokenCursor < |tokens|
      modifies this`tokenCursor
      ensures Valid() && old(tokenCursor) < tokenCursor
      ensures CashSyntax.ParseCommand(old(Ahead())) == ParsedNode(node, Ahead())
    {
      var tok := Advance();
      var line := tok.value;
      var words: seq<string> := [];
      var curr := "";
      var isInQuotes := false;
      for i := 0 to |line|
        invariant tokenCursor == old(tokenCursor) + 1 <= |tokens|
        invariant Words(line, "", false) == words + Words(line[i..], curr, isInQuotes)
      {
        var c := line[i];
        assert line[i..][0] == c && line[i..][1..] == line[i + 1..];
        if c == '\"' {
          isInQuotes := !isInQuotes;
          continue;
        }
        if IsBlank(c) && !isInQuotes {
          words := FlushCommandWord(words, curr);
          curr := "";
          continue;
        }
        curr := curr + [c];
      }
      words := FlushCommandWord(words, curr);
      return if words == [] then None else Some(Command(words));
    }

    method Parse()
      modifies this
      ensures Valid() && tokens == old(tokens)
      ensures nodes == ParseAll(tokens).0 && Ahead() == ParseAll(tokens).1
    {
      hide ParseNode, ParseAll;
      AllDone();
      tokenCursor, nodes := 0, [];
      assert Ahead() == tokens;
      while tokenCursor < |tokens|
        invariant Valid() && tokens == old(tokens)
        invariant ParseAll(tokens).0 == nodes + ParseAll(Ahead()).0 && ParseAll(tokens).1 == ParseAll(Ahead()).1
        decreases |tokens| - tokenCursor
      {
        ghost var ts, found := Ahead(), nodes;
        var node := ParseRound();
        AllStep(ts);
        if node.None? { return; }
        nodes := nodes + [node.value];
        assert found + ([node.value] + ParseAll(Ahead()).0) == nodes + ParseAll(Ahead()).0;
      }
      assert Ahead() == [];
    }

    static lemma {:induction false} AllDone()
      ensures ParseAll([]) == ([], [])
    {}

    static lemma {:induction false} AllStep(ts: Tokens)
      requires ts != []
      ensures var n := ParseNode(ts);
        (ParseAll(ts) == if n.node.None? then ([], n.rest)
          else ([n.node.value] + ParseAll(n.rest).0, ParseAll(n.rest).1))
    {
      hide ParseNode;
    }

    /** One round of `parse`. */
    method ParseRound() returns (node: Option<Node>)
      requires Valid()
      modifies this`tokenCursor
      ensures Valid() && old(tokenCursor) <= tokenCursor && (node.Some? ==> old(tokenCursor) < tokenCursor)
      ensures ParseNode(old(Ahead())) == ParsedNode(node, Ahead())
    {
      hide CashSyntax.ParseExpr, CashSyntax.ParseDecl, CashSyntax.ParseCommand, Left;
      node := ParseDecl();
      if node.Some? { return; }
      if Sees(RawLine) {
        node := ParseCommand();
        if node.Some? { return; }
      }
      var expr := ParseExpr();
      return if expr.Some? then Some(Statement(expr.value)) else None;
    }

    /** Parsing a program as it is written gives back its declarations and consumes every token. */
    method ParseProgram(ghost program: seq<Node>)
      requires forall n :: n in program ==> CashRoundTrip.Declaration(n)
      requires tokens == CashRoundTrip.PrintProgram(CashRoundTrip.DeclsOf(program))
      modifies this
      ensures nodes == program && tokenCursor == |tokens|
    {
      Parse();
      CashRoundTrip.ParseInvertsPrint(program);
    }
  }
}
