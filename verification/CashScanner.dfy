/** The lexer as it runs, with its cursor and column. */
module CashScanner {
  import opened Wrappers
  import opened CashSyntax
  import opened CashLexer

  class Lexer {
    var data: string
    var cursor: nat
    var column: nat
    var tokens: Tokens
    var lexing: bool
    var hasError: bool

    constructor (data: string)
      ensures this.data == data
    {
      this.data, cursor, column, tokens, lexing, hasError := data, 0, 0, [], false, false;
    }

    /** What is left of the data. */
    ghost function Ahead(): string
      reads this
    {
      if cursor <= |data| then data[cursor..] else ""
    }

    predicate Sees(cls: Class)
      reads this
    {
      cursor < |data| && In(data[cursor], cls)
    }

    /** `advance` may go past the end, where it reads the terminator. */
    method Advance()
      requires cursor <= |data|
      modifies `cursor, `column
      ensures cursor == old(cursor) + 1 && column == if At(data, old(cursor)) == '\n' then 0 else old(column) + 1
    {
      if At(data, cursor) == '\n' {
        column := 0;
      } else {
        column := column + 1;
      }
      cursor := cursor + 1;
    }

    method AddToken(token: Token)
      modifies `tokens
      ensures tokens == old(tokens) + [token]
    {
      tokens := tokens + [token];
    }

    method Error()
      modifies `lexing, `hasError
      ensures !lexing && hasError
    {
      lexing, hasError := false, true;
    }

    /** The loops that run over characters of one kind and collect them. */
    method Take(cls: Class) returns (taken: string)
      requires cursor <= |data|
      modifies `cursor, `column
      ensures taken == old(Ahead())[..Span(old(Ahead()), cls)]
      ensures cursor == old(cursor) + |taken| <= |data| && column == ColumnAfter(old(column), taken)
    {
      taken := "";
      while Sees(cls)
        decreases |data| - cursor
        invariant old(cursor) <= cursor <= |data| && taken == data[old(cursor)..cursor]
        invariant forall i :: 0 <= i < |taken| ==> In(taken[i], cls)
        invariant column == ColumnAfter(old(column), taken)
      {
        ColumnStep(old(column), taken, data[cursor]);
        taken := taken + [data[cursor]];
        Advance();
      }
      ghost var s := data[old(cursor)..];
      assert forall i :: 0 <= i < |taken| ==> s[i] == taken[i];
      assert |taken| < |s| ==> s[|taken|] == data[cursor];
      SpanIs(s, cls, |taken|);
    }

    /** The end of the run of characters of one kind at an index; the cursor stays. */
    method RunEnd(from: nat, cls: Class) returns (end: nat)
      requires from <= |data|
      ensures end == from + Span(data[from..], cls)
    {
      end := from;
      while end < |data| && In(data[end], cls)
        invariant from <= end <= |data| && forall k :: from <= k < end ==> In(data[k], cls)
      {
        end := end + 1;
      }
      ghost var s, m := data[from..], end - from;
      assert forall k :: 0 <= k < m ==> s[k] == data[from + k];
      assert m < |s| ==> s[m] == data[end];
      SpanIs(s, cls, m);
    }

    method LooksLikeCommandStart() returns (r: bool)
      requires cursor < |data|
      ensures r == LooksLikeCommand(Ahead())
    {
      hide Span, NameKind;
      var c := data[cursor];
      if IsDigit(c) { return false; }
      if StartsExpression(c) { return false; }
      if StartsName(c) {
        var i := RunEnd(cursor, NameChars);
        var word := data[cursor..i];
        AheadAt(i);
        if NameKind(word) != Name { return false; }
        var j := RunEnd(i, Blanks);
        AheadAt(j);
        AheadAt(j + 1);
        if j < |data| && data[j] == '=' && (j + 1 >= |data| || data[j + 1] != '=') { return false; }
        if j < |data| && StartsOperator(data[j]) { return false; }
        return true;
      }
      return true;
    }

    /** Indices into the data and into what is left of it. */
    lemma {:induction false} AheadAt(i: nat)
      requires cursor <= |data| && cursor <= i
      ensures At(Ahead(), i - cursor) == At(data, i)
      ensures i <= |data| ==> Ahead()[i - cursor..] == data[i..] && Ahead()[..i - cursor] == data[cursor..i]
    {}

    /** The tokens of one or two characters and strings. */
    method Punctuate()
      requires cursor < |data| && lexing && !hasError
      modifies `cursor, `column, `tokens, `lexing, `hasError
      ensures var r := Punctuation(old(Ahead()));
        (if r.token.Some? then lexing && !hasError
          && tokens == old(tokens) + [r.token.value] && cursor == old(cursor) + r.taken
         else !lexing && hasError && tokens == old(tokens))
      ensures old(cursor) <= cursor && (cursor <= |data|
        ==> column == ColumnAfter(old(column), data[old(cursor)..cursor]))
    {
      ghost var s, from, start := Ahead(), cursor, column;
      match data[cursor]
      case '+' => AddToken(Tok(Plus)); Step();
      case '-' => AddToken(Tok(Minus)); Step();
      case '*' => AddToken(Tok(Star)); Step();
      case '/' => AddToken(Tok(Slash)); Step();
      case '(' => AddToken(Tok(LeftParenthesis)); Step();
      case ')' => AddToken(Tok(RightParenthesis)); Step();
      case '=' => TwoCharacters(EqualEqual, Equal);
      case '<' => TwoCharacters(LesserThanEqual, LesserThan);
      case '>' => TwoCharacters(GreaterThanEqual, GreaterThan);
      case '[' => AddToken(Tok(LeftSquareBrace)); Step();
      case ']' => AddToken(Tok(RightSquareBrace)); Step();
      case ',' => AddToken(Tok(Comma)); Step();
      case '!' =>
        Step();
        if At(data, cursor) == '=' {
          AddToken(Tok(NotEqual));
          Extend(from, start);
        } else {
          Error();
        }
      case '\"' =>
        TakeString();
      case _ =>
        ColumnNothing(start, from);
        if data[cursor] as int == 255 {
          AddToken(Tok(EndOfFile));
          Step();
        } else {
          Error();
        }
    }

    /** A string, up to the closing quote or the end of the data. */
    method TakeString()
      requires cursor < |data|
      modifies `cursor, `column, `tokens
      ensures var k := Span(old(Ahead())[1..], Quoted);
        (tokens == old(tokens) + [Token(String, old(Ahead())[1..1 + k])] && cursor == old(cursor) + (k + 2))
      ensures cursor <= |data| ==> column == ColumnAfter(old(column), data[old(cursor)..cursor])
    {
      ghost var s, from, start := Ahead(), cursor, column;
      hide ColumnAfter, Span;
      Step();
      assert Ahead() == s[1..];
      var text := Take(Quoted);
      assert text == s[1..1 + Span(s[1..], Quoted)];
      AddToken(Token(String, text));
      ColumnConcat(start, data[from..from + 1], text);
      assert data[from..from + 1] + text == data[from..cursor];
      Extend(from, start);
    }

    lemma {:induction false} ColumnNothing(start: nat, from: nat)
      requires from <= |data|
      ensures ColumnAfter(start, data[from..from]) == start
    {}

    static lemma {:induction false} ColumnConcat(start: nat, a: string, b: string)
      ensures ColumnAfter(start, a + b) == ColumnAfter(ColumnAfter(start, a), b)
      decreases |b|
    {
      if b == "" {
        assert a + b == a;
      } else {
        var c := b[|b| - 1];
        assert b == b[..|b| - 1] + [c] && a + b == (a + b[..|b| - 1]) + [c];
        ColumnConcat(start, a, b[..|b| - 1]);
        ColumnStep(start, a + b[..|b| - 1], c);
        ColumnStep(ColumnAfter(start, a), b[..|b| - 1], c);
      }
    }

    /** `advance`, with the column said as a function of the characters passed. */
    method Step()
      requires cursor < |data|
      modifies `cursor, `column
      ensures cursor == old(cursor) + 1 && column == ColumnAfter(old(column), data[old(cursor)..cursor])
    {
      ghost var from, start := cursor, column;
      ColumnNothing(start, from);
      Extend(from, start);
    }

    method Extend(ghost from: nat, ghost start: nat)
      requires from <= cursor <= |data| && column == ColumnAfter(start, data[from..cursor])
      modifies `cursor, `column
      ensures cursor == old(cursor) + 1
      ensures cursor <= |data| ==> column == ColumnAfter(start, data[from..cursor])
    {
      if cursor < |data| {
        ColumnStep(start, data[from..cursor], data[cursor]);
        assert data[from..cursor] + [data[cursor]] == data[from..cursor + 1];
      }
      Advance();
    }

    /** A character that may be followed by an equals sign: two characters are passed either way. */
    method TwoCharacters(withEqual: TokenType, alone: TokenType)
      requires cursor < |data|
      modifies `cursor, `column, `tokens
      ensures tokens == old(tokens) + [Tok(if At(old(Ahead()), 1) == '=' then withEqual else alone)]
      ensures cursor == old(cursor) + 2
      ensures cursor <= |data| ==> column == ColumnAfter(old(column), data[old(cursor)..cursor])
    {
      ghost var from, start := cursor, column;
      Step();
      if At(data, cursor) == '=' {
        AddToken(Tok(withEqual));
      } else {
        AddToken(Tok(alone));
      }
      Extend(from, start);
    }

    /** One round of `lex`, after the blanks. */
    method Round()
      requires cursor < |data| && lexing && !hasError && !IsBlank(data[cursor])
      modifies `cursor, `column, `tokens, `lexing, `hasError
      ensures var r := ScanToken(old(Ahead()), old(column));
        (if r.token.Some? then lexing && !hasError
          && tokens == old(tokens) + [r.token.value] && cursor == old(cursor) + r.taken
         else !lexing && hasError && tokens == old(tokens))
      ensures old(cursor) <= cursor && (cursor <= |data|
        ==> column == ColumnAfter(old(column), data[old(cursor)..cursor]))
    {
      hide LooksLikeCommand, ColumnAfter, Span, Punctuation, NameKind;
      var c := data[cursor];
      ghost var from := cursor;
      assert Ahead()[0] == c;
      var command := false;
      if column == 0 || c == '\n' { command := LooksLikeCommandStart(); }
      if command {
        var line := Take(Line);
        assert line == data[from..cursor];
        AddToken(Token(RawLine, line));
        return;
      }
      if IsDigit(c) {
        var digits := Take(Digits);
        assert digits == data[from..cursor];
        AddToken(Token(Integer, digits));
        return;
      }
      if StartsName(c) {
        var name := Take(NameChars);
        assert name == data[from..cursor];
        AddToken(Token(NameKind(name), name));
        return;
      }
      Punctuate();
    }

    method Lex() returns (ok: bool)
      modifies this
      ensures data == old(data) && tokens == LexFrom(data, 0).0 && ok == LexFrom(data, 0).1
    {
      hide LexFrom;
      tokens, cursor, column, hasError := [], 0, 0, false;
      lexing := true;
      assert data[0..] == data;
      ghost var all := LexFrom(data, 0);
      while cursor < |data| && lexing
        invariant data == old(data) && hasError == !lexing
        invariant all.0 == tokens + (if lexing then LexFrom(Ahead(), column).0 else [])
        invariant all.1 == (lexing && LexFrom(Ahead(), column).1)
        decreases |data| - cursor, lexing
      {
        ghost var before := tokens;
        ghost var added := BlanksAndToken();
        ghost var rest := if lexing then LexFrom(Ahead(), column).0 else [];
        assert before + (added + rest) == (before + added) + rest;
      }
      ok := !hasError;
      EmptyRest(column);
      assert lexing ==> Ahead() == "";
      assert tokens + [] == tokens;
    }

    /** The body of the loop of `lex`. */
    method BlanksAndToken() returns (ghost added: Tokens)
      requires cursor < |data| && lexing && !hasError
      modifies `cursor, `column, `tokens, `lexing, `hasError
      ensures hasError == !lexing && old(cursor) <= cursor
        && (lexing ==> old(cursor) < cursor) && tokens == old(tokens) + added
      ensures LexFrom(old(Ahead()), old(column)).0
        == added + (if lexing then LexFrom(Ahead(), column).0 else [])
      ensures LexFrom(old(Ahead()), old(column)).1 == (lexing && LexFrom(Ahead(), column).1)
    {
      hide ScanToken, ColumnAfter, Span, LexFrom;
      added := [];
      ghost var s, start := Ahead(), column;
      var blanks := Take(Blanks);
      ghost var b, t := |blanks|, s[|blanks|..];
      assert Ahead() == t && s[..b] == blanks;
      LexBlank(s, start, b);
      LexBlank("", column, 0);
      if cursor >= |data| { return; }
      ghost var from, col := cursor, column;
      Round();
      if lexing {
        LexStep(s, start, b);
        LeftAfter(from, t, ScanToken(t, col).taken, col);
        added := [ScanToken(t, col).token.value];
      }
    }

    /** What is left of the data after a token; past the end the column does not matter. */
    lemma {:induction false} LeftAfter(from: nat, t: string, taken: nat, col: nat)
      requires from < |data| && t == data[from..] && cursor == from + taken
      requires cursor <= |data| ==> column == ColumnAfter(col, data[from..cursor])
      ensures var k := Min(taken, |t|);
        Ahead() == t[k..] && LexFrom(Ahead(), column) == LexFrom(t[k..], ColumnAfter(col, t[..k]))
    {
      hide ColumnAfter, LexFrom, Span;
      var k := Min(taken, |t|);
      if cursor <= |data| {
        assert t[..k] == data[from..cursor] && t[k..] == data[cursor..];
      } else {
        assert t[k..] == "";
        EmptyRest(column);
        EmptyRest(ColumnAfter(col, t[..k]));
      }
    }

    static lemma {:induction false} EmptyRest(column: nat)
      ensures LexFrom("", column) == ([], true)
    {}

    /** The rest of the data when it is blank, or starts with what no token starts with. */
    static lemma {:induction false} LexBlank(s: string, column: nat, b: nat)
      requires b == Span(s, Blanks)
      ensures b == |s| ==> LexFrom(s, column) == ([], true)
      ensures b < |s| && ScanToken(s[b..], ColumnAfter(column, s[..b])).token.None?
        ==> LexFrom(s, column) == ([], false)
    {}
  }
}
