/** Tokens and syntax trees of the CASH shell, and the parser as functions on the tokens that
    are left. */
module CashSyntax {
  import opened Wrappers

  datatype TokenType =
    | Integer | Name | String | RawLine
    | Plus | Minus | Star | Slash | Equal | And | Or | Xor | Not
    | EqualEqual | NotEqual | LesserThan | GreaterThan | LesserThanEqual | GreaterThanEqual
    | LeftParenthesis | RightParenthesis | LeftSquareBrace | RightSquareBrace | Comma
    | Var | Const | True | False | EndOfFile

  datatype Token = Token(kind: TokenType, value: string)

  type Tokens = seq<Token>

  /** What the lexer stores with a token whose text is fixed. */
  function Spelling(k: TokenType): string {
    match k
    case Plus => "+" case Minus => "-" case Star => "*" case Slash => "/" case Equal => "="
    case And => "and" case Or => "or" case Xor => "xor" case Not => "not"
    case EqualEqual => "==" case NotEqual => "!="
    case LesserThan => "<" case GreaterThan => ">" case LesserThanEqual => "<=" case GreaterThanEqual => ">="
    case LeftParenthesis => "(" case RightParenthesis => ")"
    case LeftSquareBrace => "[" case RightSquareBrace => "]" case Comma => ","
    case Var => "var" case Const => "const" case True => "true" case False => "false"
    case EndOfFile => "EOF"
    case Integer => "" case Name => "" case String => "" case RawLine => ""
  }

  function Tok(k: TokenType): Token { Token(k, Spelling(k)) }

  datatype Expr =
    | IntegerNode(digits: string)
    | BoolNode(word: string)
    | StringNode(text: string)
    | NameNode(name: string, index: Option<Expr>)
    | UnaryNode(op: TokenType, operand: Expr)
    | BinaryNode(op: TokenType, left: Expr, right: Expr)
    | AssignNode(target: string, at: Option<Expr>, value: Expr)
    | ListNode(content: seq<Expr>)

  /** What `parse` collects. A declaration keeps the null its expression may have parsed to. */
  datatype Node =
    | VarDecl(name: string, value: Option<Expr>)
    | ConstDecl(name: string, value: Option<Expr>)
    | Command(words: seq<string>)
    | Statement(expr: Expr)

  predicate IsSum(k: TokenType) {
    k in {Plus, Minus, Or, Xor, EqualEqual, NotEqual, LesserThan, LesserThanEqual, GreaterThan, GreaterThanEqual}
  }

  predicate IsProduct(k: TokenType) { k in {Star, Slash, And} }

  predicate IsUnary(k: TokenType) { k in {Plus, Minus, Not} }

  /** `expect`: the next token, if any, is of the kind. */
  predicate Expect(ts: Tokens, k: TokenType) { ts != [] && ts[0].kind == k }

  /** `rest` is what is left of `ts`. */
  predicate Left(rest: Tokens, ts: Tokens) { |rest| <= |ts| && rest == ts[|ts| - |rest|..] }

  lemma {:induction false} LeftTrans(a: Tokens, b: Tokens, c: Tokens)
    requires Left(a, b) && Left(b, c)
    ensures Left(a, c) && |a| <= |b| <= |c|
  {}

  lemma {:induction false} LeftRefl(ts: Tokens)
    ensures Left(ts, ts)
  {}

  /** What is left after some tokens. */
  lemma {:induction false} LeftTail(ts: Tokens, k: nat)
    requires k <= |ts|
    ensures Left(ts[k..], ts)
  {}

  /** The result of a parsing function: a tree or null, and the tokens left. */
  datatype Parsed = Parsed(tree: Option<Expr>, rest: Tokens)

  ghost predicate Consumes(r: Parsed, ts: Tokens) {
    Left(r.rest, ts) && (r.tree.Some? ==> |r.rest| < |ts|)
  }

  function ParseExpr(ts: Tokens): (r: Parsed)
    ensures Consumes(r, ts)
    decreases |ts|, 4
  {
    var l := ParseTerm(ts);
    if l.tree.None? then l
    else
      var r := SumLoop(l.tree.value, l.rest);
      LeftTrans(r.rest, l.rest, ts);
      r
  }

  /** The loop of `parseExpr`, with the tree built so far. */
  function SumLoop(left: Expr, ts: Tokens): (r: Parsed)
    ensures Left(r.rest, ts)
    decreases |ts|, 0
  {
    if ts == [] || !IsSum(ts[0].kind) then Parsed(Some(left), ts)
    else
      var right := ParseTerm(ts[1..]);
      LeftTrans(right.rest, ts[1..], ts);
      if right.tree.None? then right
      else
        var r := SumLoop(BinaryNode(ts[0].kind, left, right.tree.value), right.rest);
        LeftTrans(r.rest, right.rest, ts);
        r
  }

  function ParseTerm(ts: Tokens): (r: Parsed)
    ensures Consumes(r, ts)
    decreases |ts|, 3
  {
    var l := ParsePrimary(ts);
    if l.tree.None? then l
    else
      var r := ProductLoop(l.tree.value, l.rest);
      LeftTrans(r.rest, l.rest, ts);
      r
  }

  /** The loop of `parseTerm`. */
  function ProductLoop(left: Expr, ts: Tokens): (r: Parsed)
    ensures Left(r.rest, ts)
    decreases |ts|, 0
  {
    if ts == [] || !IsProduct(ts[0].kind) then Parsed(Some(left), ts)
    else
      var right := ParsePrimary(ts[1..]);
      LeftTrans(right.rest, ts[1..], ts);
      if right.tree.None? then right
      else
        var r := ProductLoop(BinaryNode(ts[0].kind, left, right.tree.value), right.rest);
        LeftTrans(r.rest, right.rest, ts);
        r
  }

  function ParsePrimary(ts: Tokens): (r: Parsed)
    ensures Consumes(r, ts)
    decreases |ts|, 2
  {
    hide Left;
    LeftTail(ts, 0);
    if ts == [] then Parsed(None, ts)
    else if IsUnary(ts[0].kind) then ParseUnary(ts)
    else if ts[0].kind == LeftParenthesis then
      LeftTail(ts, 1);
      var inner := ParseExpr(ts[1..]);
      LeftTrans(inner.rest, ts[1..], ts);
      if !Expect(inner.rest, RightParenthesis) then Parsed(None, inner.rest)
      else
        LeftTail(inner.rest, 1);
        LeftTrans(inner.rest[1..], inner.rest, ts);
        Parsed(inner.tree, inner.rest[1..])
    else if ts[0].kind == Integer then LeftTail(ts, 1); Parsed(Some(IntegerNode(ts[0].value)), ts[1..])
    else if ts[0].kind == True || ts[0].kind == False then LeftTail(ts, 1); Parsed(Some(BoolNode(ts[0].value)), ts[1..])
    else
      var assign := ParseAssign(ts);
      if assign.tree.Some? then assign
      else if Expect(assign.rest, String) then
        LeftTail(assign.rest, 1);
        LeftTrans(assign.rest[1..], assign.rest, ts);
        Parsed(Some(StringNode(assign.rest[0].value)), assign.rest[1..])
      else
        LeftRefl(assign.rest);
        LeftTrans(assign.rest, assign.rest, ts);
        var list := ParseList(assign.rest);
        LeftTrans(list.rest, assign.rest, ts);
        if list.tree.Some? then list
        else
          var name := ParseName(list.rest);
          LeftTrans(name.rest, list.rest, ts);
          name
  }

  function ParseUnary(ts: Tokens): (r: Parsed)
    requires ts != []
    ensures Consumes(r, ts)
    decreases |ts|, 1
  {
    var value := ParsePrimary(ts[1..]);
    LeftTrans(value.rest, ts[1..], ts);
    if value.tree.None? then value else Parsed(Some(UnaryNode(ts[0].kind, value.tree.value)), value.rest)
  }

  /** On failure the cursor goes back to the start, except when the bracket of an index is not
      closed. */
  function ParseAssign(ts: Tokens): (r: Parsed)
    ensures Consumes(r, ts)
    decreases |ts|, 1
  {
    if !Expect(ts, Name) || |ts| == 1 then Parsed(None, ts)
    else if ts[1].kind == LeftSquareBrace then
      var index := ParseExpr(ts[2..]);
      LeftTrans(index.rest, ts[2..], ts);
      if !Expect(index.rest, RightSquareBrace) then Parsed(None, index.rest)
      else
        LeftTrans(index.rest[1..], index.rest, ts);
        AssignValue(ts, index.tree, index.rest[1..])
    else AssignValue(ts, None, ts[1..])
  }

  /** The value of an assignment to the name at the start of `ts`; `at` is what follows the target. */
  function AssignValue(ts: Tokens, index: Option<Expr>, at: Tokens): (r: Parsed)
    requires ts != [] && Left(at, ts) && |at| < |ts|
    ensures Consumes(r, ts)
    decreases |ts|, 0
  {
    if !Expect(at, Equal) then Parsed(None, ts)
    else
      var value := ParseExpr(at[1..]);
      LeftTrans(at[1..], at, ts);
      LeftTrans(value.rest, at[1..], ts);
      if value.tree.Some? then Parsed(Some(AssignNode(ts[0].value, index, value.tree.value)), value.rest)
        else Parsed(None, ts)
  }

  function ParseList(ts: Tokens): (r: Parsed)
    ensures Consumes(r, ts)
    decreases |ts|, 1
  {
    if !Expect(ts, LeftSquareBrace) then Parsed(None, ts)
    else if Expect(ts[1..], RightSquareBrace) then Parsed(Some(ListNode([])), ts[2..])
    else
      var r := ListLoop([], ts[1..]);
      LeftTrans(r.rest, ts[1..], ts);
      r
  }

  /** The loop of `parseList` and the closing bracket. */
  function ListLoop(content: seq<Expr>, ts: Tokens): (r: Parsed)
    ensures Left(r.rest, ts)
    decreases |ts|, 5
  {
    var e := ParseExpr(ts);
    if e.tree.None? then e
    else if e.rest == [] then Parsed(None, e.rest)
    else
      LeftTrans(e.rest[1..], e.rest, ts);
      if e.rest[0].kind == Comma then
        var r := ListLoop(content + [e.tree.value], e.rest[1..]);
        LeftTrans(r.rest, e.rest[1..], ts);
        r
      else if e.rest[0].kind == RightSquareBrace then Parsed(Some(ListNode(content + [e.tree.value])), e.rest[1..])
      else Parsed(None, e.rest)
  }

  /** The closing bracket of an index is looked at but not consumed. */
  function ParseName(ts: Tokens): (r: Parsed)
    ensures Consumes(r, ts)
    decreases |ts|, 1
  {
    if !Expect(ts, Name) then Parsed(None, ts)
    else if Expect(ts[1..], LeftSquareBrace) then
      var index := ParseExpr(ts[2..]);
      LeftTrans(index.rest, ts[2..], ts);
      if Expect(index.rest, RightSquareBrace) then Parsed(Some(NameNode(ts[0].value, index.tree)), index.rest)
      else Parsed(None, index.rest)
    else Parsed(Some(NameNode(ts[0].value, None)), ts[1..])
  }

  // ---------- Declarations, commands, programs ----------

  datatype ParsedNode = ParsedNode(node: Option<Node>, rest: Tokens)

  /** `parseVarDecl` and `parseConstDecl`, after their keyword. */
  function ParseDeclBody(isVar: bool, ts: Tokens): (r: ParsedNode)
    ensures Left(r.rest, ts) && (r.node.Some? ==> |r.rest| < |ts|)
  {
    hide Left;
    LeftTail(ts, 0);
    if !Expect(ts, Name) then ParsedNode(None, ts)
    else
      LeftTail(ts, 1);
      if !Expect(ts[1..], Equal) then ParsedNode(None, ts[1..])
      else
      LeftTail(ts, 2);
      var value := ParseExpr(ts[2..]);
      LeftTrans(value.rest, ts[2..], ts);
      ParsedNode(Some(if isVar then VarDecl(ts[0].value, value.tree)
        else ConstDecl(ts[0].value, value.tree)), value.rest)
  }

  function ParseDecl(ts: Tokens): (r: ParsedNode)
    ensures Left(r.rest, ts) && (r.node.Some? ==> |r.rest| < |ts|)
  {
    if Expect(ts, Var) || Expect(ts, Const) then
      var r := ParseDeclBody(ts[0].kind == Var, ts[1..]);
      LeftTrans(r.rest, ts[1..], ts);
      r
    else ParsedNode(None, ts)
  }

  predicate IsBlank(c: char) { c == ' ' || c == '\t' || c == '\n' || c == '\r' || c == 11 as char || c == 12 as char }

  /** The words of a command line: blanks separate, quotes keep blanks and are dropped. */
  function Words(line: string, curr: string, quoted: bool): seq<string> {
    if line == "" then (if curr == "" then [] else [curr])
    else if line[0] == '\"' then Words(line[1..], curr, !quoted)
    else if IsBlank(line[0]) && !quoted then (if curr == "" then [] else [curr]) + Words(line[1..], "", quoted)
    else Words(line[1..], curr + [line[0]], quoted)
  }

  function ParseCommand(ts: Tokens): (r: ParsedNode)
    requires ts != []
    ensures r.rest == ts[1..]
  {
    var words := Words(ts[0].value, "", false);
    ParsedNode(if words == [] then None else Some(Command(words)), ts[1..])
  }

  /** One round of `parse`: a declaration, a command or an expression. What a failed attempt has
      consumed stays consumed for the next. */
  function ParseNode(ts: Tokens): (r: ParsedNode)
    ensures Left(r.rest, ts) && (r.node.Some? ==> |r.rest| < |ts|)
  {
    var decl := ParseDecl(ts);
    if decl.node.Some? then decl
    else
      var command := if Expect(decl.rest, RawLine) then ParseCommand(decl.rest) else ParsedNode(None, decl.rest);
      LeftTrans(command.rest, decl.rest, ts);
      if command.node.Some? then command
      else
        var e := ParseExpr(command.rest);
        LeftTrans(e.rest, command.rest, ts);
        if e.tree.Some? then ParsedNode(Some(Statement(e.tree.value)), e.rest) else ParsedNode(None, e.rest)
  }

  /** `parse`: the nodes up to the first round that yields none. */
  function ParseAll(ts: Tokens): (seq<Node>, Tokens)
    decreases |ts|
  {
    if ts == [] then ([], ts)
    else
      var n := ParseNode(ts);
      if n.node.None? then ([], n.rest)
      else
        var more := ParseAll(n.rest);
        ([n.node.value] + more.0, more.1)
  }
}
