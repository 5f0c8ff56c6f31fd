/** What the operators of the CASH shell bind: the tree of a chain of any length, with the operators
    written out. */
module CashPrecedence {
  import opened Wrappers
  import opened CashSyntax
  import opened CashRoundTrip

  const TIGHT: set<TokenType> := {Star, Slash, And}

  const LOOSE: set<TokenType> :=
    {Plus, Minus, Or, Xor, EqualEqual, NotEqual, LesserThan, LesserThanEqual, GreaterThan, GreaterThanEqual}

  const SIGNS: set<TokenType> := {Plus, Minus, Not}

  /** The tokens do not go on with an assignment or an index. */
  predicate Apart(rest: Tokens) { rest != [] ==> rest[0].kind != Equal && rest[0].kind != LeftSquareBrace }

  /** The tokens are those of a primary expression, whatever follows. */
  ghost predicate Primary(ts: Tokens, e: Expr) {
    forall rest :: Apart(rest) ==> ParsePrimary(ts + rest) == Parsed(Some(e), rest)
  }

  /** An operand of a chain. */
  datatype Operand = Operand(ts: Tokens, tree: Expr)

  ghost predicate Operands(xs: seq<Operand>) { forall x :: x in xs ==> Primary(x.ts, x.tree) }

  /** Operators, each with the operand after it. */
  function Tail(ops: Tokens, xs: seq<Operand>): Tokens
    requires |xs| == |ops|
  {
    if ops == [] then [] else [ops[0]] + (xs[0].ts + Tail(ops[1..], xs[1..]))
  }

  /** The operator at the root: the last of those that bind loosely, or the last of all. */
  function Root(ops: Tokens): (i: nat)
    requires ops != []
    ensures i < |ops|
    ensures ops[i].kind in LOOSE ==> forall j :: i < j < |ops| ==> ops[j].kind !in LOOSE
    ensures ops[i].kind !in LOOSE ==> i == |ops| - 1 && forall j :: 0 <= j < |ops| ==> ops[j].kind !in LOOSE
  {
    var n := |ops| - 1;
    if ops[n].kind in LOOSE || n == 0 then n
    else
      var i := Root(ops[..n]);
      if ops[i].kind in LOOSE then i else n
  }

  /** What the chain means. */
  function Tree(ops: Tokens, xs: seq<Operand>): Expr
    requires |xs| == |ops| + 1
    decreases |ops|
  {
    if ops == [] then xs[0].tree
    else
      var i := Root(ops);
      BinaryNode(ops[i].kind, Tree(ops[..i], xs[..i + 1]), Tree(ops[i + 1..], xs[i + 1..]))
  }

  predicate AllIn(ops: Tokens, kinds: set<TokenType>) { forall op :: op in ops ==> op.kind in kinds }

  /** What follows a chain is none of the operators. */
  predicate Ends(rest: Tokens) { Apart(rest) && (rest != [] ==> rest[0].kind !in TIGHT && rest[0].kind !in LOOSE) }

  // ---------- Products ----------

  lemma {:induction false} TailMore(ops: Tokens, xs: seq<Operand>, rest: Tokens)
    requires |xs| == |ops| > 0
    ensures var ts := Tail(ops, xs) + rest;
      ts != [] && ts[0] == ops[0] && ts[1..] == xs[0].ts + (Tail(ops[1..], xs[1..]) + rest)
  {
    assert Tail(ops, xs) + rest == [ops[0]] + (xs[0].ts + (Tail(ops[1..], xs[1..]) + rest));
  }

  lemma {:induction false} TailApart(ops: Tokens, xs: seq<Operand>, rest: Tokens)
    requires |xs| == |ops| && AllIn(ops, TIGHT + LOOSE) && Apart(rest)
    ensures Apart(Tail(ops, xs) + rest)
  {
    if ops == [] { assert Tail(ops, xs) + rest == rest; } else { assert ops[0] in ops; TailMore(ops, xs, rest); }
  }

  /** Operators of one level group from the left. */
  function FromLeft(left: Expr, ops: Tokens, xs: seq<Operand>): Expr
    requires |xs| == |ops|
    decreases |ops|
  {
    if ops == [] then left
    else FromLeft(BinaryNode(ops[0].kind, left, xs[0].tree), ops[1..], xs[1..])
  }

  /** The parser asks for the same kinds. */
  lemma {:induction false} KindsAgree(k: TokenType)
    ensures (k in TIGHT <==> IsProduct(k)) && (k in LOOSE <==> IsSum(k)) && (k in SIGNS <==> IsUnary(k))
  {}

  lemma {:induction false} ProductStep(left: Expr, ts: Tokens, e: Expr, more: Tokens)
    requires ts != [] && ts[0].kind in TIGHT && ParsePrimary(ts[1..]) == Parsed(Some(e), more)
    ensures ProductLoop(left, ts) == ProductLoop(BinaryNode(ts[0].kind, left, e), more)
  {
    hide ParsePrimary, IsProduct, Left;
    KindsAgree(ts[0].kind);
  }

  lemma {:induction false} ProductsLoop(left: Expr, ops: Tokens, xs: seq<Operand>, rest: Tokens)
    requires |xs| == |ops| && AllIn(ops, TIGHT) && Operands(xs) && Apart(rest)
    requires rest != [] ==> rest[0].kind !in TIGHT
    ensures ProductLoop(left, Tail(ops, xs) + rest) == Parsed(Some(FromLeft(left, ops, xs)), rest)
    decreases |ops|
  {
    hide ParsePrimary;
    if ops == [] {
      assert Tail(ops, xs) + rest == rest;
    } else {
      hide ProductLoop, Tail;
      var more := Tail(ops[1..], xs[1..]) + rest;
      assert ops[0] in ops && xs[0] in xs;
      TailMore(ops, xs, rest);
      TailApart(ops[1..], xs[1..], rest);
      assert Primary(xs[0].ts, xs[0].tree);
      ProductStep(left, Tail(ops, xs) + rest, xs[0].tree, more);
      ProductsLoop(BinaryNode(ops[0].kind, left, xs[0].tree), ops[1..], xs[1..], rest);
    }
  }

  /** A term: an operand and the products after it. */
  lemma {:induction false} TermParses(x: Operand, ops: Tokens, xs: seq<Operand>, rest: Tokens)
    requires |xs| == |ops| && AllIn(ops, TIGHT) && Primary(x.ts, x.tree) && Operands(xs) && Apart(rest)
    requires rest != [] ==> rest[0].kind !in TIGHT
    ensures ParseTerm(x.ts + (Tail(ops, xs) + rest)) == Parsed(Some(FromLeft(x.tree, ops, xs)), rest)
  {
    hide ParsePrimary, ProductLoop;
    TailApart(ops, xs, rest);
    ProductsLoop(x.tree, ops, xs, rest);
  }

  // ---------- Sums ----------

  /** How many of the operators come before the first loose one. */
  function Lead(ops: Tokens): (m: nat)
    ensures m <= |ops| && (forall j :: 0 <= j < m ==> ops[j].kind !in LOOSE) && (m < |ops| ==> ops[m].kind in LOOSE)
  {
    if ops == [] || ops[0].kind in LOOSE then 0 else 1 + Lead(ops[1..])
  }

  /** A loose operator, its term, and so on. */
  function Terms(left: Expr, ops: Tokens, xs: seq<Operand>): Expr
    requires |xs| == |ops|
    decreases |ops|
  {
    if ops == [] then left
    else
      var m := 1 + Lead(ops[1..]);
      Terms(BinaryNode(ops[0].kind, left, FromLeft(xs[0].tree, ops[1..m], xs[1..m])), ops[m..], xs[m..])
  }

  lemma {:induction false} Sub<T>(s: seq<T>, m: nat, i: nat)
    requires m <= i <= |s|
    ensures s[m..][..i - m] == s[m..i] == s[..i][m..] && s[..i][..m] == s[..m]
    ensures s[m..][i - m..] == s[i..]
  {}

  lemma {:induction false} TailSplit(ops: Tokens, xs: seq<Operand>, m: nat, rest: Tokens)
    requires |xs| == |ops| && m <= |ops|
    ensures Tail(ops, xs) + rest == Tail(ops[..m], xs[..m]) + (Tail(ops[m..], xs[m..]) + rest)
    decreases m
  {
    if m == 0 {
      assert ops[0..] == ops && xs[0..] == xs;
      assert Tail(ops[..0], xs[..0]) == [];
    } else {
      hide Tail;
      var a, b := Tail(ops[1..m], xs[1..m]), Tail(ops[m..], xs[m..]) + rest;
      TailSplit(ops[1..], xs[1..], m - 1, rest);
      Sub(ops, 1, m);
      Sub(xs, 1, m);
      TailMore(ops, xs, rest);
      TailHead(ops[..m], xs[..m]);
      Regroup(ops[0], xs[0].ts, a, b);
      TailHead(ops, xs);
      Regroup(ops[0], xs[0].ts, Tail(ops[1..], xs[1..]), rest);
    }
  }

  lemma {:induction false} TailHead(ops: Tokens, xs: seq<Operand>)
    requires |xs| == |ops| > 0
    ensures Tail(ops, xs) == [ops[0]] + (xs[0].ts + Tail(ops[1..], xs[1..]))
  {}

  lemma {:induction false} Regroup(op: Token, x: Tokens, a: Tokens, b: Tokens)
    ensures [op] + (x + a) + b == [op] + (x + (a + b))
  {}

  lemma {:induction false} LeadTight(ops: Tokens, m: nat)
    requires AllIn(ops, TIGHT + LOOSE) && m == Lead(ops)
    ensures AllIn(ops[..m], TIGHT) && AllIn(ops[m..], TIGHT + LOOSE)
  {
    forall op | op in ops[..m] ensures op.kind in TIGHT { assert op in ops; }
    forall op | op in ops[m..] ensures op.kind in TIGHT + LOOSE { assert op in ops; }
  }

  /** Behind the leading products there is nothing that belongs to a term. */
  lemma {:induction false} AfterLead(ops: Tokens, xs: seq<Operand>, m: nat, rest: Tokens)
    requires |xs| == |ops| && AllIn(ops, TIGHT + LOOSE) && m == Lead(ops) && Ends(rest)
    ensures var more := Tail(ops[m..], xs[m..]) + rest; Apart(more) && (more != [] ==> more[0].kind !in TIGHT)
  {
    LeadTight(ops, m);
    TailApart(ops[m..], xs[m..], rest);
    if m < |ops| { TailMore(ops[m..], xs[m..], rest); } else { assert Tail(ops[m..], xs[m..]) + rest == rest; }
  }

  lemma {:induction false} SumStep(left: Expr, ts: Tokens, e: Expr, more: Tokens)
    requires ts != [] && ts[0].kind in LOOSE && ParseTerm(ts[1..]) == Parsed(Some(e), more)
    ensures SumLoop(left, ts) == SumLoop(BinaryNode(ts[0].kind, left, e), more)
  {
    hide ParseTerm, IsSum, Left;
    KindsAgree(ts[0].kind);
  }

  lemma {:induction false} TermsStep(left: Expr, ops: Tokens, xs: seq<Operand>, m: nat)
    requires |xs| == |ops| > 0 && m == 1 + Lead(ops[1..])
    ensures m <= |ops|
    ensures Terms(left, ops, xs)
      == Terms(BinaryNode(ops[0].kind, left, FromLeft(xs[0].tree, ops[1..m], xs[1..m])), ops[m..], xs[m..])
  {
    hide FromLeft, Lead;
  }

  lemma {:induction false} SumsLoop(left: Expr, ops: Tokens, xs: seq<Operand>, rest: Tokens)
    requires |xs| == |ops| && AllIn(ops, TIGHT + LOOSE) && Operands(xs) && Ends(rest)
    requires ops != [] ==> ops[0].kind in LOOSE
    ensures SumLoop(left, Tail(ops, xs) + rest) == Parsed(Some(Terms(left, ops, xs)), rest)
    decreases |ops|
  {
    hide ParseTerm, Primary, AllIn;
    if ops == [] {
      assert Tail(ops, xs) + rest == rest;
    } else {
      hide Tail, Terms, FromLeft, SumLoop, Apart, Operands, Left;
      var m := 1 + Lead(ops[1..]);
      var more := Tail(ops[m..], xs[m..]) + rest;
      Fewer(ops, TIGHT + LOOSE, 1);
      FewerOperands(xs, m);
      TailMore(ops, xs, rest);
      TailSplit(ops[1..], xs[1..], m - 1, rest);
      Sub(ops, 1, m);
      Sub(xs, 1, m);
      LeadTight(ops[1..], m - 1);
      AfterLead(ops[1..], xs[1..], m - 1, rest);
      TermParses(xs[0], ops[1..m], xs[1..m], more);
      TermsStep(left, ops, xs, m);
      var e := FromLeft(xs[0].tree, ops[1..m], xs[1..m]);
      SumStep(left, Tail(ops, xs) + rest, e, more);
      LeadThen(ops, m);
      SumsLoop(BinaryNode(ops[0].kind, left, e), ops[m..], xs[m..], rest);
    }
  }

  lemma {:induction false} LeadThen(ops: Tokens, m: nat)
    requires ops != [] && m == 1 + Lead(ops[1..])
    ensures m < |ops| ==> ops[m..][0].kind in LOOSE
  {}

  lemma {:induction false} FewerOperands(xs: seq<Operand>, m: nat)
    requires Operands(xs) && 1 <= m <= |xs|
    ensures Primary(xs[0].ts, xs[0].tree) && Operands(xs[1..m]) && Operands(xs[m..]) && Operands(xs[1..])
  {
    hide Primary;
    assert xs[0] in xs;
  }

  lemma {:induction false} Fewer(ops: Tokens, kinds: set<TokenType>, m: nat)
    requires AllIn(ops, kinds) && m <= |ops|
    ensures AllIn(ops[m..], kinds) && AllIn(ops[..m], kinds)
  {}

  // ---------- The tree ----------

  lemma {:induction false} FromLeftLast(left: Expr, ops: Tokens, xs: seq<Operand>)
    requires |xs| == |ops| > 0
    ensures var n := |ops| - 1;
      FromLeft(left, ops, xs) == BinaryNode(ops[n].kind, FromLeft(left, ops[..n], xs[..n]), xs[n].tree)
    decreases |ops|
  {
    var n := |ops| - 1;
    if n > 0 {
      FromLeftLast(BinaryNode(ops[0].kind, left, xs[0].tree), ops[1..], xs[1..]);
      assert ops[..n][1..] == ops[1..][..n - 1] && xs[..n][1..] == xs[1..][..n - 1];
    }
  }

  /** Without loose operators the chain groups from the left. */
  lemma {:induction false} TightTree(x: Operand, ops: Tokens, xs: seq<Operand>)
    requires |xs| == |ops| && forall j :: 0 <= j < |ops| ==> ops[j].kind !in LOOSE
    ensures Tree(ops, [x] + xs) == FromLeft(x.tree, ops, xs)
    decreases |ops|
  {
    if ops != [] {
      var n := |ops| - 1;
      FromLeftLast(x.tree, ops, xs);
      TightTree(x, ops[..n], xs[..n]);
      assert ([x] + xs)[..n + 1] == [x] + xs[..n];
      assert ([x] + xs)[n + 1..] == [xs[n]] && ops[n + 1..] == [];
    }
  }

  /** The last loose operator has what is before it on its left and its term on its right. */
  lemma {:induction false} TermsLast(left: Expr, ops: Tokens, xs: seq<Operand>)
    requires |xs| == |ops| > 0 && ops[0].kind in LOOSE
    ensures var i := Root(ops);
      ops[i].kind in LOOSE
      && Terms(left, ops, xs)
         == BinaryNode(ops[i].kind, Terms(left, ops[..i], xs[..i]), FromLeft(xs[i].tree, ops[i + 1..], xs[i + 1..]))
    decreases |ops|
  {
    hide FromLeft, Terms, Root, Lead;
    var i, m := Root(ops), 1 + Lead(ops[1..]);
    var e := FromLeft(xs[0].tree, ops[1..m], xs[1..m]);
    TermsStep(left, ops, xs, m);
    if m == |ops| {
      OnlyRoot(ops);
      NoTerms(BinaryNode(ops[0].kind, left, e));
      NoTerms(left);
      assert ops[1..m] == ops[1..] && xs[1..m] == xs[1..] && ops[m..] == [] && xs[m..] == [];
      assert ops[..0] == [] && xs[..0] == [];
    } else {
      assert ops[m] == ops[1..][m - 1];
      TermsLast(BinaryNode(ops[0].kind, left, e), ops[m..], xs[m..]);
      RootShift(ops, m);
      Sub(ops, m, i);
      Sub(xs, m, i);
      Sub(ops, m, i + 1);
      Sub(xs, m, i + 1);
      LeadOfPrefix(ops, i, m);
      Sub(ops, 1, m);
      assert ops[..i][1..m] == ops[1..m] && xs[..i][1..m] == xs[1..m];
      TermsStep(left, ops[..i], xs[..i], m);
    }
  }

  lemma {:induction false} OnlyRoot(ops: Tokens)
    requires ops != [] && ops[0].kind in LOOSE && Lead(ops[1..]) == |ops| - 1
    ensures Root(ops) == 0
  {
    assert forall j :: 0 < j < |ops| ==> ops[j] == ops[1..][j - 1];
  }

  lemma {:induction false} NoTerms(left: Expr)
    ensures Terms(left, [], []) == left
  {}

  lemma {:induction false} RootShift(ops: Tokens, m: nat)
    requires m < |ops| && ops[m].kind in LOOSE
    ensures Root(ops) == m + Root(ops[m..])
  {
    var i, k := Root(ops), Root(ops[m..]);
    assert ops[m..][0] == ops[m];
    assert forall j :: m <= j < |ops| ==> ops[j] == ops[m..][j - m];
  }

  /** Up to a later loose operator there are as many products after the first. */
  lemma {:induction false} LeadOfPrefix(ops: Tokens, i: nat, m: nat)
    requires 0 < m <= i < |ops| && m == 1 + Lead(ops[1..]) && (i > m ==> ops[m].kind in LOOSE)
    ensures Lead(ops[..i][1..]) == m - 1
  {
    assert ops[..i][1..] == ops[1..i];
    LeadIs(ops[1..i], m - 1);
  }

  lemma {:induction false} LeadIs(ops: Tokens, m: nat)
    requires m <= |ops| && (forall j :: 0 <= j < m ==> ops[j].kind !in LOOSE) && (m < |ops| ==> ops[m].kind in LOOSE)
    ensures Lead(ops) == m
  {}

  /** The whole chain, as the loops build it, is the tree. */
  lemma {:induction false} TreeOfTerms(x: Operand, ops: Tokens, xs: seq<Operand>)
    requires |xs| == |ops|
    ensures var m := Lead(ops); Tree(ops, [x] + xs) == Terms(FromLeft(x.tree, ops[..m], xs[..m]), ops[m..], xs[m..])
    decreases |ops|
  {
    hide FromLeft, Terms, Root, Lead, Tree;
    var m := Lead(ops);
    if m == |ops| {
      assert ops[..m] == ops && xs[..m] == xs && ops[m..] == [] && xs[m..] == [];
      TightTree(x, ops, xs);
      NoTerms(FromLeft(x.tree, ops, xs));
    } else {
      var i := Root(ops);
      RootShift(ops, m);
      assert ops[m..][0] == ops[m];
      TermsLast(FromLeft(x.tree, ops[..m], xs[..m]), ops[m..], xs[m..]);
      LeadIs(ops[..i], m);
      TreeOfTerms(x, ops[..i], xs[..i]);
      Sub(ops, m, i);
      Sub(xs, m, i);
      Sub(ops, m, i + 1);
      Sub(xs, m, i + 1);
      TightAfterRoot(ops);
      TightTree(xs[i], ops[i + 1..], xs[i + 1..]);
      assert ([x] + xs)[..i + 1] == [x] + xs[..i];
      assert ([x] + xs)[i + 1..] == [xs[i]] + xs[i + 1..];
      TreeAt(ops, [x] + xs);
    }
  }

  lemma {:induction false} TreeAt(ops: Tokens, xs: seq<Operand>)
    requires |xs| == |ops| + 1 && ops != []
    ensures var i := Root(ops);
      Tree(ops, xs) == BinaryNode(ops[i].kind, Tree(ops[..i], xs[..i + 1]), Tree(ops[i + 1..], xs[i + 1..]))
  {
    hide Root;
  }

  lemma {:induction false} TightAfterRoot(ops: Tokens)
    requires ops != []
    ensures var after := ops[Root(ops) + 1..]; forall j :: 0 <= j < |after| ==> after[j].kind !in LOOSE
  {}

  /** A chain of operands is read as its tree: `*`, `/` and `and` bind tighter than the rest, each level
      groups from the left, and whatever is no operator ends it. */
  lemma {:induction false} ChainParses(x: Operand, ops: Tokens, xs: seq<Operand>, rest: Tokens)
    requires |xs| == |ops| && AllIn(ops, TIGHT + LOOSE) && Primary(x.ts, x.tree) && Operands(xs) && Ends(rest)
    ensures ParseExpr(x.ts + (Tail(ops, xs) + rest)) == Parsed(Some(Tree(ops, [x] + xs)), rest)
  {
    hide ParseTerm, SumLoop, Primary;
    var m := Lead(ops);
    var more := Tail(ops[m..], xs[m..]) + rest;
    TailSplit(ops, xs, m, rest);
    LeadTight(ops, m);
    AfterLead(ops, xs, m, rest);
    TermParses(x, ops[..m], xs[..m], more);
    SumsLoop(FromLeft(x.tree, ops[..m], xs[..m]), ops[m..], xs[m..], rest);
    TreeOfTerms(x, ops, xs);
  }

  // ---------- Operands ----------

  /** Every primary text that is not an open assignment is an operand. */
  lemma {:induction false} TextIsPrimary(t: Text)
    requires Grammatical(t) && Level(t) == 2 && !Open(t)
    ensures Primary(Print(t), Erase(t))
  {
    hide ParsePrimary, Grammatical, Print, Erase;
    forall rest | Apart(rest) ensures ParsePrimary(Print(t) + rest) == Parsed(Some(Erase(t)), rest) {
      PrimaryParses(t, rest);
    }
  }

  /** Numbers, words, strings and names are. */
  lemma {:induction false} AtomsArePrimary(v: string)
    ensures Primary([Token(Integer, v)], IntegerNode(v)) && Primary([Token(String, v)], StringNode(v))
    ensures Primary([Token(Name, v)], NameNode(v, None))
    ensures Primary([Token(True, "true")], BoolNode("true")) && Primary([Token(False, "false")], BoolNode("false"))
  {
    hide Primary;
    TextIsPrimary(Digits(v));
    TextIsPrimary(Quote(v));
    TextIsPrimary(Ident(v));
    TextIsPrimary(Word("true"));
    TextIsPrimary(Word("false"));
  }

  /** A sign before an operand takes that operand alone. */
  lemma {:induction false} SignBinds(op: Token, ts: Tokens, e: Expr)
    requires op.kind in SIGNS && Primary(ts, e)
    ensures Primary([op] + ts, UnaryNode(op.kind, e))
  {
    hide ParsePrimary;
    forall rest | Apart(rest) ensures ParsePrimary([op] + ts + rest) == Parsed(Some(UnaryNode(op.kind, e)), rest) {
      var all := [op] + ts + rest;
      assert all[0] == op && all[1..] == ts + rest;
      SignStep(all, e, rest);
    }
  }

  lemma {:induction false} SignStep(ts: Tokens, e: Expr, rest: Tokens)
    requires ts != [] && ts[0].kind in SIGNS && ParsePrimary(ts[1..]) == Parsed(Some(e), rest)
    ensures ParsePrimary(ts) == Parsed(Some(UnaryNode(ts[0].kind, e)), rest)
  {
    hide ParseExpr, ParseAssign, ParseList, ParseName, Left, IsUnary;
    KindsAgree(ts[0].kind);
  }

  /** A chain in parentheses is an operand. */
  lemma {:induction false} ParenthesesBind(x: Operand, ops: Tokens, xs: seq<Operand>)
    requires |xs| == |ops| && AllIn(ops, TIGHT + LOOSE) && Primary(x.ts, x.tree) && Operands(xs)
    ensures Primary([Tok(LeftParenthesis)] + (x.ts + Tail(ops, xs)) + [Tok(RightParenthesis)], Tree(ops, [x] + xs))
  {
    hide ParsePrimary, Tail, Tree, AllIn, Operands;
    var ts := [Tok(LeftParenthesis)] + (x.ts + Tail(ops, xs)) + [Tok(RightParenthesis)];
    forall rest | Apart(rest) ensures ParsePrimary(ts + rest) == Parsed(Some(Tree(ops, [x] + xs)), rest) {
      ParenthesesThen(x, ops, xs, rest);
    }
  }

  lemma {:induction false} ParenthesesThen(x: Operand, ops: Tokens, xs: seq<Operand>, rest: Tokens)
    requires |xs| == |ops| && AllIn(ops, TIGHT + LOOSE) && Primary(x.ts, x.tree) && Operands(xs)
    ensures ParsePrimary([Tok(LeftParenthesis)] + (x.ts + Tail(ops, xs)) + [Tok(RightParenthesis)] + rest)
      == Parsed(Some(Tree(ops, [x] + xs)), rest)
  {
    hide Primary, ParsePrimary, ParseExpr, Tail, Tree, AllIn, Operands;
    var ts := [Tok(LeftParenthesis)] + (x.ts + Tail(ops, xs)) + [Tok(RightParenthesis)] + rest;
    var close := [Tok(RightParenthesis)] + rest;
    ChainParses(x, ops, xs, close);
    InParentheses(x.ts, Tail(ops, xs), rest);
    ParenthesesStep(ts, Tree(ops, [x] + xs), close);
  }

  lemma {:induction false} InParentheses(a: Tokens, b: Tokens, rest: Tokens)
    ensures var ts := [Tok(LeftParenthesis)] + (a + b) + [Tok(RightParenthesis)] + rest;
      ts[0] == Tok(LeftParenthesis) && ts[1..] == a + (b + ([Tok(RightParenthesis)] + rest))
    ensures ([Tok(RightParenthesis)] + rest)[1..] == rest
  {}

  lemma {:induction false} ParenthesesStep(ts: Tokens, e: Expr, close: Tokens)
    requires ts != [] && ts[0].kind == LeftParenthesis && ParseExpr(ts[1..]) == Parsed(Some(e), close)
    requires close != [] && close[0].kind == RightParenthesis
    ensures ParsePrimary(ts) == Parsed(Some(e), close[1..])
  {
    hide ParseExpr, ParseUnary, ParseAssign, ParseList, ParseName, Left;
  }

  /** Three operands and a loose operator beside a tight one: the tight one binds first, on whichever
      side it is. */
  lemma {:induction false} TightFirst(a: Operand, b: Operand, c: Operand, loose: Token, tight: Token, rest: Tokens)
    requires Operands([a, b, c]) && loose.kind in LOOSE && tight.kind in TIGHT && Ends(rest)
    ensures ParseExpr(a.ts + ([loose] + (b.ts + ([tight] + (c.ts + rest)))))
      == Parsed(Some(BinaryNode(loose.kind, a.tree, BinaryNode(tight.kind, b.tree, c.tree))), rest)
    ensures ParseExpr(a.ts + ([tight] + (b.ts + ([loose] + (c.ts + rest)))))
      == Parsed(Some(BinaryNode(loose.kind, BinaryNode(tight.kind, a.tree, b.tree), c.tree)), rest)
  {
    hide ParseExpr, Operands;
    TwoParse(a, b, c, loose, tight, rest);
    TwoParse(a, b, c, tight, loose, rest);
  }

  /** Two operators of one level group from the left. */
  lemma {:induction false} SameGroupsLeft(a: Operand, b: Operand, c: Operand, p: Token, q: Token, rest: Tokens)
    requires Operands([a, b, c]) && Ends(rest)
    requires (p.kind in LOOSE && q.kind in LOOSE) || (p.kind in TIGHT && q.kind in TIGHT)
    ensures ParseExpr(a.ts + ([p] + (b.ts + ([q] + (c.ts + rest)))))
      == Parsed(Some(BinaryNode(q.kind, BinaryNode(p.kind, a.tree, b.tree), c.tree)), rest)
  {
    hide ParseExpr, Operands;
    TwoParse(a, b, c, p, q, rest);
  }

  lemma {:induction false} TwoParse(a: Operand, b: Operand, c: Operand, p: Token, q: Token, rest: Tokens)
    requires Operands([a, b, c]) && p.kind in TIGHT + LOOSE && q.kind in TIGHT + LOOSE && Ends(rest)
    ensures ParseExpr(a.ts + ([p] + (b.ts + ([q] + (c.ts + rest)))))
      == Parsed(Some(if q.kind in TIGHT && p.kind in LOOSE
                     then BinaryNode(p.kind, a.tree, BinaryNode(q.kind, b.tree, c.tree))
                     else BinaryNode(q.kind, BinaryNode(p.kind, a.tree, b.tree), c.tree)), rest)
  {
    hide ParseExpr, Primary;
    var ops, xs := [p, q], [b, c];
    assert a in [a, b, c] && b in [a, b, c] && c in [a, b, c];
    ChainParses(a, ops, xs, rest);
    TwoTokens(ops, xs, rest);
    TwoTree(ops, [a] + xs);
  }

  lemma {:induction false} TwoTokens(ops: Tokens, xs: seq<Operand>, rest: Tokens)
    requires |xs| == |ops| == 2
    ensures Tail(ops, xs) + rest == [ops[0]] + (xs[0].ts + ([ops[1]] + (xs[1].ts + rest)))
  {
    var last := Tail(ops[1..], xs[1..]);
    assert ops[1..][1..] == [] && Tail(ops[1..][1..], xs[1..][1..]) == [] && last == [ops[1]] + (xs[1].ts + []);
    assert Tail(ops, xs) == [ops[0]] + (xs[0].ts + last);
    assert last + rest == [ops[1]] + (xs[1].ts + rest);
    assert [ops[0]] + (xs[0].ts + last) + rest == [ops[0]] + (xs[0].ts + (last + rest));
  }

  lemma {:induction false} TwoTree(ops: Tokens, xs: seq<Operand>)
    requires |ops| == 2 && |xs| == 3 && AllIn(ops, TIGHT + LOOSE)
    ensures Tree(ops, xs) ==
      if ops[1].kind in TIGHT && ops[0].kind in LOOSE
      then BinaryNode(ops[0].kind, xs[0].tree, BinaryNode(ops[1].kind, xs[1].tree, xs[2].tree))
      else BinaryNode(ops[1].kind, BinaryNode(ops[0].kind, xs[0].tree, xs[1].tree), xs[2].tree)
  {
    assert ops[0] in ops && ops[1] in ops;
    var i := Root(ops);
    OneTree(ops[..1], xs[..2]);
    OneTree(ops[1..], xs[1..]);
    assert ops[2..] == [] && ops[..0] == [] && xs[2..] == [xs[2]] && xs[..1] == [xs[0]];
  }

  lemma {:induction false} OneTree(ops: Tokens, xs: seq<Operand>)
    requires |ops| == 1 && |xs| == 2
    ensures Tree(ops, xs) == BinaryNode(ops[0].kind, xs[0].tree, xs[1].tree)
  {
    assert ops[..0] == [] && ops[1..] == [] && xs[..1] == [xs[0]] && xs[1..] == [xs[1]];
  }
}
