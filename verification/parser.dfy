/**
 * The expression parser (src/Core/Parser.cs): recursive descent over a token list with a
 * cursor. The four binary precedence levels are one function indexed by rank, 4 for
 * equality down to 1 for multiplication; below them come unary and primary.
 *
 * The host's `ParseError` exception becomes the `Failed` outcome, which carries the
 * diagnostic that `Error` logs before throwing. Every new node takes the next integer of
 * an id counter, standing for the node's object identity.
 */
module Parser {
  import opened Common
  import opened Tokens
  import opened Exprs

  datatype ParseError = ParseError(token: Token, message: string)

  const ExpectedExpression: string := "Expected expression."
  const ExpectedRightParen: string := "Expected ')' after expression."

  /** The outcome of one parsing function: the tree, the cursor after it and the next free id. */
  datatype Parsed =
    | Parsed(expr: Expr, next: nat, nextId: int)
    | Failed(error: ParseError)

  /** The scanner's output shape: non-empty and ending in the end-of-input token. */
  ghost predicate ValidTokens(ts: seq<Token>)
  {
    |ts| > 0 && ts[|ts| - 1].kind == Eof
  }

  /** The position of the first end-of-input token, `|ts|` when there is none. */
  function FirstEof(ts: seq<Token>): (r: nat)
    ensures r <= |ts| && (r < |ts| ==> ts[r].kind == Eof)
    ensures forall i :: 0 <= i < r ==> ts[i].kind != Eof
  {
    if ts == [] || ts[0].kind == Eof then 0 else 1 + FirstEof(ts[1..])
  }

  /** A cursor that has not moved past the first end-of-input token. */
  ghost predicate Cursor(ts: seq<Token>, c: nat)
  {
    c < |ts| && c <= FirstEof(ts)
  }

  // ---------------------------------------------------------------------------------
  // Cursor helpers
  // ---------------------------------------------------------------------------------

  function Peek(ts: seq<Token>, c: nat): Token
    requires c < |ts|
  {
    ts[c]
  }

  function Previous(ts: seq<Token>, c: nat): Token
    requires 0 < c <= |ts|
  {
    ts[c - 1]
  }

  function IsAtEnd(ts: seq<Token>, c: nat): bool
    requires c < |ts|
  {
    Peek(ts, c).kind == Eof
  }

  function Check(ts: seq<Token>, c: nat, kind: TokenType): (r: bool)
    requires c < |ts|
    ensures r <==> ts[c].kind != Eof && ts[c].kind == kind
  {
    if IsAtEnd(ts, c) then false else Peek(ts, c).kind == kind
  }

  /**
   * Moves past the current token unless it is the end of input, and returns the token
   * before the new cursor. At the end of input with nothing before it, the host would
   * index -1; that case is excluded.
   */
  function Advance(ts: seq<Token>, c: nat): (r: (nat, Token))
    requires Cursor(ts, c) && (IsAtEnd(ts, c) ==> c > 0)
    ensures r.0 == if ts[c].kind == Eof then c else c + 1
    ensures r.1 == ts[r.0 - 1]
  {
    var next := if !IsAtEnd(ts, c) then c + 1 else c;
    (next, Previous(ts, next))
  }

  /** Consumes the current token if it is one of `kinds`. */
  function Match(ts: seq<Token>, c: nat, kinds: seq<TokenType>): (r: (bool, nat))
    requires Cursor(ts, c)
    ensures r.0 <==> ts[c].kind != Eof && ts[c].kind in kinds
    ensures r.1 == if r.0 then c + 1 else c
  {
    if kinds == [] then (false, c)
    else if Check(ts, c, kinds[0]) then (true, Advance(ts, c).0)
    else Match(ts, c, kinds[1..])
  }

  /** Consumes the current token if it has the given kind, and fails with `message` otherwise. */
  function Consume(ts: seq<Token>, c: nat, kind: TokenType, message: string): (r: Result<(nat, Token), ParseError>)
    requires Cursor(ts, c)
    ensures r.Ok? <==> ts[c].kind != Eof && ts[c].kind == kind
    ensures r.Ok? ==> r.value == (c + 1, ts[c])
    ensures r.Err? ==> r.error == ParseError(ts[c], message)
  {
    if Check(ts, c, kind) then Ok(Advance(ts, c)) else Err(ParseError(Peek(ts, c), message))
  }

  lemma CursorStep(ts: seq<Token>, c: nat)
    requires ValidTokens(ts) && Cursor(ts, c) && ts[c].kind != Eof
    ensures Cursor(ts, c + 1)
  {
  }

  // ---------------------------------------------------------------------------------
  // Grammar
  // ---------------------------------------------------------------------------------

  /** The operators of a binary level, in the order the source lists them. */
  function Operators(rank: nat): seq<TokenType>
  {
    if rank == 4 then [BangEqual, EqualEqual]
    else if rank == 3 then [Greater, GreaterEqual, Less, LessEqual]
    else if rank == 2 then [Minus, Plus]
    else if rank == 1 then [Slash, Star]
    else []
  }

  const UnaryOperators: seq<TokenType> := [Bang, Minus]

  /** `Expression`: the loosest level, equality. */
  function Expression(ts: seq<Token>, c: nat, id: int): (r: Parsed)
    requires ValidTokens(ts) && Cursor(ts, c)
    ensures r.Parsed? ==> c < r.next && Cursor(ts, r.next)
    ensures r.Parsed? ==> r.nextId == id + Size(r.expr) && Numbered(r.expr, id)
    ensures r.Failed? ==> r.error.message in {ExpectedExpression, ExpectedRightParen}
    decreases |ts| - c, 10
  {
    BinaryLevel(4, ts, c, id)
  }

  /**
   * `ParseLeftAssociativeBinaryOperation` at a level: one operand of the next tighter
   * level, then the loop over this level's operators.
   */
  function BinaryLevel(rank: nat, ts: seq<Token>, c: nat, id: int): (r: Parsed)
    requires 1 <= rank <= 4 && ValidTokens(ts) && Cursor(ts, c)
    ensures r.Parsed? ==> c < r.next && Cursor(ts, r.next)
    ensures r.Parsed? ==> r.nextId == id + Size(r.expr) && Numbered(r.expr, id)
    ensures r.Failed? ==> r.error.message in {ExpectedExpression, ExpectedRightParen}
    decreases |ts| - c, 2 * rank + 1
  {
    match Operand(rank, ts, c, id)
    case Failed(error) => Failed(error)
    case Parsed(left, next, nextId) => BinaryLoop(rank, left, ts, next, nextId, id)
  }

  /**
   * The `while (Match(tokenTypes))` loop: each operator and right operand extend the tree
   * built so far to the left. `lo` is the first id the level handed out. The loop test is
   * written through `Precedence`; `MatchesLevel` shows it is `Match` over the level's list.
   */
  function BinaryLoop(rank: nat, left: Expr, ts: seq<Token>, c: nat, id: int, lo: int): (r: Parsed)
    requires 1 <= rank <= 4 && ValidTokens(ts) && Cursor(ts, c)
    requires Numbered(left, lo) && id == lo + Size(left)
    ensures r.Parsed? ==> c <= r.next && Cursor(ts, r.next)
    ensures r.Parsed? ==> r.nextId == lo + Size(r.expr) && Numbered(r.expr, lo)
    ensures r.Failed? ==> r.error.message in {ExpectedExpression, ExpectedRightParen}
    decreases |ts| - c, 2 * rank + 1
  {
    if Precedence(Peek(ts, c).kind) != rank then Parsed(left, c, id)
    else
      CursorStep(ts, c);
      var op := Previous(ts, c + 1);
      match Operand(rank, ts, c + 1, id)
      case Failed(error) => Failed(error)
      case Parsed(right, next, nextId) =>
        NumberedShift(right, id, lo + Size(left));
        BinaryLoop(rank, Binary(nextId, left, op, right), ts, next, nextId + 1, lo)
  }

  /** The loop's test consumes exactly what `Match` over the level's operators consumes. */
  lemma MatchesLevel(ts: seq<Token>, c: nat, rank: nat)
    requires 1 <= rank <= 4 && ValidTokens(ts) && Cursor(ts, c)
    ensures Match(ts, c, Operators(rank)) == (Precedence(ts[c].kind) == rank, if Precedence(ts[c].kind) == rank then c + 1 else c)
  {
    OperatorsByPrecedence(ts[c].kind, rank);
  }

  /** The operand of a binary level: the next tighter level, or `Unary` below multiplication. */
  function Operand(rank: nat, ts: seq<Token>, c: nat, id: int): (r: Parsed)
    requires 1 <= rank <= 4 && ValidTokens(ts) && Cursor(ts, c)
    ensures r.Parsed? ==> c < r.next && Cursor(ts, r.next)
    ensures r.Parsed? ==> r.nextId == id + Size(r.expr) && Numbered(r.expr, id)
    ensures r.Failed? ==> r.error.message in {ExpectedExpression, ExpectedRightParen}
    decreases |ts| - c, 2 * rank
  {
    if rank == 1 then Unary(ts, c, id) else BinaryLevel(rank - 1, ts, c, id)
  }

  /** `Unary`: any number of prefix `!` and `-`, then a primary. */
  function Unary(ts: seq<Token>, c: nat, id: int): (r: Parsed)
    requires ValidTokens(ts) && Cursor(ts, c)
    ensures r.Parsed? ==> c < r.next && Cursor(ts, r.next)
    ensures r.Parsed? ==> r.nextId == id + Size(r.expr) && Numbered(r.expr, id)
    ensures r.Failed? ==> r.error.message in {ExpectedExpression, ExpectedRightParen}
    decreases |ts| - c, 1
  {
    var (found, c1) := Match(ts, c, UnaryOperators);
    if found then
      CursorStep(ts, c);
      var op := Previous(ts, c1);
      match Unary(ts, c1, id)
      case Failed(error) => Failed(error)
      case Parsed(right, next, nextId) =>
        Parsed(Expr.Unary(nextId, op, right), next, nextId + 1)
    else
      Primary(ts, c, id)
  }

  /** `Primary`: a literal, or a parenthesised expression; anything else is an error. */
  function Primary(ts: seq<Token>, c: nat, id: int): (r: Parsed)
    requires ValidTokens(ts) && Cursor(ts, c)
    ensures r.Parsed? ==> c < r.next && Cursor(ts, r.next)
    ensures r.Parsed? ==> r.nextId == id + Size(r.expr) && Numbered(r.expr, id)
    ensures r.Failed? ==> r.error.message in {ExpectedExpression, ExpectedRightParen}
    decreases |ts| - c, 0
  {
    assert ts[c].kind != Eof ==> Cursor(ts, c + 1) by {
      if ts[c].kind != Eof { CursorStep(ts, c); }
    }
    match ts[c].kind
    case False => Parsed(Literal(id, BoolValue(false)), c + 1, id + 1)
    case True => Parsed(Literal(id, BoolValue(true)), c + 1, id + 1)
    case Nil => Parsed(Literal(id, NilValue), c + 1, id + 1)
    case NumberLiteral | StringLiteral => Parsed(Literal(id, ts[c].literal), c + 1, id + 1)
    case LeftParen => Parenthesized(ts, c + 1, id)
    case _ => Failed(ParseError(Peek(ts, c), ExpectedExpression))
  }

  /** After `(`: an expression, then the `)` that `Consume` demands. */
  function Parenthesized(ts: seq<Token>, c: nat, id: int): (r: Parsed)
    requires ValidTokens(ts) && Cursor(ts, c)
    ensures r.Parsed? ==> c < r.next && Cursor(ts, r.next)
    ensures r.Parsed? ==> r.nextId == id + Size(r.expr) && Numbered(r.expr, id)
    ensures r.Failed? ==> r.error.message in {ExpectedExpression, ExpectedRightParen}
    decreases |ts| - c, 11
  {
    match Expression(ts, c, id)
    case Failed(error) => Failed(error)
    case Parsed(inner, next, nextId) =>
      match Consume(ts, next, RightParen, ExpectedRightParen)
      case Err(error) => Failed(error)
      case Ok((after, _)) =>
        CursorStep(ts, next);
        Parsed(Grouping(nextId, inner), after, nextId + 1)
  }

  /** The outcome of `Parse`: the tree or nothing, and what was logged. */
  datatype ParseOutcome = ParseOutcome(result: Option<Expr>, diagnostics: seq<ParseError>)

  /**
   * `Parse`: one expression from the start of the list. The first error aborts the parse,
   * so at most one diagnostic is logged, and it is logged exactly when there is no tree.
   * Tokens after a complete expression are left alone.
   */
  function Parse(ts: seq<Token>): (r: ParseOutcome)
    requires ValidTokens(ts)
    ensures r.result.None? <==> |r.diagnostics| == 1
    ensures r.result.Some? ==> r.diagnostics == [] && UniqueIds(r.result.value)
    ensures |r.diagnostics| == 1 ==>
              r.diagnostics[0].message in {ExpectedExpression, ExpectedRightParen}
  {
    match Expression(ts, 0, 0)
    case Parsed(e, _, _) => NumberedIdsUnique(e, 0); ParseOutcome(Some(e), [])
    case Failed(error) => ParseOutcome(None, [error])
  }

  // ---------------------------------------------------------------------------------
  // Error recovery
  // ---------------------------------------------------------------------------------

  /** The statement keywords `Synchronize` stops in front of. */
  const StatementStarts: set<TokenType> := {TokenType.Class, Fun, TokenType.Var, For, TokenType.If, TokenType.While, TokenType.Print, TokenType.Return}

  /** A place where `Synchronize` may stop: after a `;`, before a statement keyword, or at the end. */
  ghost predicate Boundary(ts: seq<Token>, c: nat)
    requires 0 < c < |ts|
  {
    ts[c].kind == Eof || ts[c - 1].kind == Semicolon || ts[c].kind in StatementStarts
  }

  /**
   * `Synchronize`: discards at least the current token (none at the end of input), then
   * stops at the first boundary.
   */
  function Synchronize(ts: seq<Token>, c: nat): (r: nat)
    requires ValidTokens(ts) && Cursor(ts, c) && (IsAtEnd(ts, c) ==> c > 0)
    ensures Cursor(ts, r) && 0 < r && Boundary(ts, r)
    ensures r == if ts[c].kind == Eof then c else FirstBoundary(ts, c + 1)
  {
    var (next, _) := Advance(ts, c);
    assert ts[c].kind != Eof ==> Cursor(ts, c + 1) by {
      if ts[c].kind != Eof { CursorStep(ts, c); }
    }
    SynchronizeLoop(ts, next)
  }

  function SynchronizeLoop(ts: seq<Token>, c: nat): (r: nat)
    requires ValidTokens(ts) && Cursor(ts, c) && c > 0
    ensures Cursor(ts, r) && c <= r && Boundary(ts, r)
    ensures forall k :: c <= k < r ==> !Boundary(ts, k)
    decreases |ts| - c
  {
    if IsAtEnd(ts, c) then c
    else if Previous(ts, c).kind == Semicolon then c
    else if Peek(ts, c).kind in StatementStarts then c
    else
      CursorStep(ts, c);
      SynchronizeLoop(ts, c + 1)
  }

  /** The first boundary at or after `c`: an independent description of where recovery stops. */
  ghost function FirstBoundary(ts: seq<Token>, c: nat): (r: nat)
    requires ValidTokens(ts) && Cursor(ts, c) && c > 0
    ensures c <= r < |ts| && Boundary(ts, r)
    ensures forall k :: c <= k < r ==> !Boundary(ts, k)
    decreases |ts| - c
  {
    if Boundary(ts, c) then c
    else
      CursorStep(ts, c);
      FirstBoundary(ts, c + 1)
  }

  // ---------------------------------------------------------------------------------
  // Precedence and associativity: trees shaped by the grammar read back from their tokens.
  // ---------------------------------------------------------------------------------

  /** The token a literal is read back from. */
  function LiteralToken(v: LiteralValue): Token
  {
    match v
    case NilValue => Token(Nil, "nil", NilValue, 0)
    case BoolValue(b) =>
      if b then Token(TokenType.True, "true", NilValue, 0) else Token(TokenType.False, "false", NilValue, 0)
    case NumberValue(_) => Token(NumberLiteral, "", v, 0)
    case StringValue(_) => Token(StringLiteral, "", v, 0)
  }

  const LeftParenToken: Token := Token(LeftParen, "(", NilValue, 0)
  const RightParenToken: Token := Token(RightParen, ")", NilValue, 0)

  /** The tokens an expression is written with (fully written out, without extra parentheses). */
  function Unparse(e: Expr): seq<Token>
  {
    match e
    case Binary(_, l, op, r) => Unparse(l) + [op] + Unparse(r)
    case Unary(_, op, r) => [op] + Unparse(r)
    case Grouping(_, g) => [LeftParenToken] + Unparse(g) + [RightParenToken]
    case Literal(_, v) => [LiteralToken(v)]
    case _ => []
  }

  /**
   * The trees the grammar produces at a level: at a binary level, a binary node whose
   * operator belongs to the level, whose left operand is at the same level and whose right
   * operand is at the next tighter one (left associativity), or any tree of the tighter
   * level; at level 0, prefix operators over literals and parenthesised expressions.
   */
  ghost predicate Shaped(e: Expr, rank: nat)
    decreases e, rank
  {
    if rank == 0 then
      match e
      case Unary(_, op, r) => op.kind in UnaryOperators && Shaped(r, 0)
      case Literal(_, _) => true
      case Grouping(_, g) => Shaped(g, 4)
      case _ => false
    else
      && rank <= 4
      && ((e.Binary? && Precedence(e.operator.kind) == rank && Shaped(e.left, rank) && Shaped(e.right, rank - 1))
          || Shaped(e, rank - 1))
  }

  /** The binary level an operator belongs to, 0 for a token that is no binary operator. */
  function Precedence(kind: TokenType): nat
  {
    match kind
    case BangEqual | EqualEqual => 4
    case Greater | GreaterEqual | Less | LessEqual => 3
    case Minus | Plus => 2
    case Slash | Star => 1
    case _ => 0
  }

  /** The operator lists of the levels are exactly the tokens of each precedence. */
  lemma OperatorsByPrecedence(kind: TokenType, rank: nat)
    requires 1 <= rank <= 4
    ensures kind in Operators(rank) <==> Precedence(kind) == rank
  {
  }

  /** `kind` is an operator of a level that binds tighter than `rank`. */
  predicate Continues(kind: TokenType, rank: nat)
  {
    0 < Precedence(kind) < rank
  }

  /** A token that does not continue a level does not continue, nor end, the next tighter one. */
  lemma StopsTighterLevel(kind: TokenType, rank: nat)
    requires 2 <= rank && !Continues(kind, rank)
    ensures !Continues(kind, rank - 1) && Precedence(kind) != rank - 1
  {
  }

  /** The `n` tokens from position `c` on, built one at a time. */
  function Window(ts: seq<Token>, c: nat, n: nat): (r: seq<Token>)
    requires c + n <= |ts|
    ensures |r| == n
    decreases n
  {
    if n == 0 then [] else [ts[c]] + Window(ts, c + 1, n - 1)
  }

  lemma {:induction false} WindowIsSlice(ts: seq<Token>, c: nat, n: nat)
    requires c + n <= |ts|
    ensures Window(ts, c, n) == ts[c..c + n]
    decreases n
  {
    if n > 0 {
      WindowIsSlice(ts, c + 1, n - 1);
      assert ts[c..c + n] == [ts[c]] + ts[c + 1..c + n];
    }
  }

  /** The tokens of `e` stand at position `c`, and a token follows them. */
  ghost predicate Spells(ts: seq<Token>, c: nat, e: Expr)
  {
    c + |Unparse(e)| < |ts| && Window(ts, c, |Unparse(e)|) == Unparse(e)
  }

  /** A window is the window of its first `n` tokens followed by the window of the rest. */
  lemma {:induction false} WindowSplit(ts: seq<Token>, c: nat, n: nat, m: nat)
    requires c + n + m <= |ts|
    ensures Window(ts, c, n + m) == Window(ts, c, n) + Window(ts, c + n, m)
    decreases n
  {
    if n > 0 {
      WindowSplit(ts, c + 1, n - 1, m);
      AppendAssoc([ts[c]], Window(ts, c + 1, n - 1), Window(ts, c + n, m));
    }
  }

  /** Two concatenations with equally long first parts agree part by part. */
  lemma ConcatSplit<T>(a: seq<T>, b: seq<T>, x: seq<T>, y: seq<T>)
    requires |a| == |x| && a + b == x + y
    ensures a == x && b == y
  {
    assert a == (a + b)[..|a|] && x == (x + y)[..|x|];
    assert b == (a + b)[|a|..] && y == (x + y)[|x|..];
  }

  /** The tokens of a binary node: its left operand, its operator at `m`, its right operand. */
  lemma SpellsBinary(ts: seq<Token>, c: nat, e: Expr, m: nat)
    requires e.Binary? && Spells(ts, c, e) && m == c + |Unparse(e.left)|
    ensures c + |Unparse(e)| == m + 1 + |Unparse(e.right)|
    ensures Spells(ts, c, e.left) && ts[m] == e.operator && Spells(ts, m + 1, e.right)
  {
    var l, r := Unparse(e.left), Unparse(e.right);
    var nl, nr := |l|, |r|;
    assert Unparse(e) == l + [e.operator] + r;
    AppendAssoc(l, [e.operator], r);
    WindowSplit(ts, c, nl, 1 + nr);
    WindowSplit(ts, m, 1, nr);
    ConcatSplit(Window(ts, c, nl), Window(ts, m, 1 + nr), l, [e.operator] + r);
    ConcatSplit(Window(ts, m, 1), Window(ts, m + 1, nr), [e.operator], r);
    assert Window(ts, m, 1) == [ts[m]];
  }

  /** The tokens of a prefix operation: the operator, then the operand. */
  lemma SpellsUnary(ts: seq<Token>, c: nat, e: Expr)
    requires e.Unary? && Spells(ts, c, e)
    ensures |Unparse(e)| == 1 + |Unparse(e.right)|
    ensures ts[c] == e.operator && Spells(ts, c + 1, e.right)
  {
    var r := Unparse(e.right);
    assert Unparse(e) == [e.operator] + r;
    WindowSplit(ts, c, 1, |r|);
    ConcatSplit(Window(ts, c, 1), Window(ts, c + 1, |r|), [e.operator], r);
    assert Window(ts, c, 1) == [ts[c]];
  }

  /** The tokens of a group: `(`, the inner expression, `)`. */
  lemma SpellsGrouping(ts: seq<Token>, c: nat, e: Expr)
    requires e.Grouping? && Spells(ts, c, e)
    ensures |Unparse(e)| == |Unparse(e.expression)| + 2
    ensures ts[c] == LeftParenToken && Spells(ts, c + 1, e.expression)
    ensures ts[c + 1 + |Unparse(e.expression)|] == RightParenToken
  {
    var g := Unparse(e.expression);
    var n := |g|;
    assert Unparse(e) == [LeftParenToken] + g + [RightParenToken];
    AppendAssoc([LeftParenToken], g, [RightParenToken]);
    WindowSplit(ts, c, 1, n + 1);
    WindowSplit(ts, c + 1, n, 1);
    ConcatSplit(Window(ts, c, 1), Window(ts, c + 1, n + 1), [LeftParenToken], g + [RightParenToken]);
    ConcatSplit(Window(ts, c + 1, n), Window(ts, c + 1 + n, 1), g, [RightParenToken]);
    assert Window(ts, c, 1) == [ts[c]];
    assert Window(ts, c + 1 + n, 1) == [ts[c + 1 + n]];
  }

  /** The token of a literal. */
  lemma SpellsLiteral(ts: seq<Token>, c: nat, e: Expr)
    requires e.Literal? && Spells(ts, c, e)
    ensures |Unparse(e)| == 1 && ts[c] == LiteralToken(e.literal)
  {
    assert Window(ts, c, 1) == [ts[c]];
  }

  lemma {:induction false} UnparseHasNoEof(e: Expr, rank: nat)
    requires Shaped(e, rank)
    ensures forall i :: 0 <= i < |Unparse(e)| ==> Unparse(e)[i].kind != Eof
    decreases e, rank
  {
    if rank == 0 {
      match e
      case Unary(_, op, r) => UnparseHasNoEof(r, 0);
      case Literal(_, _) =>
      case Grouping(_, g) => UnparseHasNoEof(g, 4);
    } else if e.Binary? && Precedence(e.operator.kind) == rank && Shaped(e.left, rank) && Shaped(e.right, rank - 1) {
      UnparseHasNoEof(e.left, rank);
      UnparseHasNoEof(e.right, rank - 1);
    } else {
      UnparseHasNoEof(e, rank - 1);
    }
  }

  /** The cursor may skip the tokens of a shaped expression. */
  lemma CursorSkips(ts: seq<Token>, c: nat, e: Expr, rank: nat)
    requires ValidTokens(ts) && Cursor(ts, c) && Spells(ts, c, e) && Shaped(e, rank)
    ensures Cursor(ts, c + |Unparse(e)|)
  {
    UnparseHasNoEof(e, rank);
    WindowIsSlice(ts, c, |Unparse(e)|);
    forall i | c <= i < c + |Unparse(e)|
      ensures ts[i].kind != Eof
    {
      assert ts[i] == ts[c..c + |Unparse(e)|][i - c];
    }
    NoEofBetween(ts, c, c + |Unparse(e)|);
  }

  /** A run of tokens without end of input, starting at a cursor, ends at a cursor. */
  lemma NoEofBetween(ts: seq<Token>, c: nat, d: nat)
    requires c <= FirstEof(ts) && d <= |ts|
    requires forall i :: c <= i < d ==> ts[i].kind != Eof
    ensures d <= FirstEof(ts)
  {
  }

  // One unfolding of a grammar function each, so that the round trip below never has to
  // unfold more than one at a time.

  /** `Unary` leaves anything but a prefix operator to `Primary`. */
  lemma UnaryFallsThrough(ts: seq<Token>, c: nat, id: int)
    requires ValidTokens(ts) && Cursor(ts, c) && ts[c].kind !in UnaryOperators
    ensures Unary(ts, c, id) == Primary(ts, c, id)
  {
  }

  /** `Primary` hands the tokens after `(` to `Parenthesized`. */
  lemma PrimaryOpensParen(ts: seq<Token>, c: nat, id: int)
    requires ValidTokens(ts) && Cursor(ts, c + 1) && ts[c].kind == LeftParen
    ensures Primary(ts, c, id) == Parenthesized(ts, c + 1, id)
  {
  }

  /** A `)` after the inner expression closes the group. */
  lemma ParenCloses(ts: seq<Token>, c: nat, id: int, inner: Expr, next: nat, nextId: int)
    requires ValidTokens(ts) && Cursor(ts, c) && Expression(ts, c, id) == Parsed(inner, next, nextId)
    requires ts[next].kind == RightParen
    ensures Parenthesized(ts, c, id) == Parsed(Grouping(nextId, inner), next + 1, nextId + 1)
  {
  }

  /** The loop of a level stops in front of anything but one of the level's operators. */
  lemma LoopStops(rank: nat, left: Expr, ts: seq<Token>, c: nat, id: int, lo: int)
    requires 1 <= rank <= 4 && ValidTokens(ts) && Cursor(ts, c)
    requires Numbered(left, lo) && id == lo + Size(left)
    requires Precedence(ts[c].kind) != rank
    ensures BinaryLoop(rank, left, ts, c, id, lo) == Parsed(left, c, id)
  {
  }

  /** The loop of a level takes one of its operators and the operand after it, and goes on. */
  lemma LoopContinues(rank: nat, left: Expr, ts: seq<Token>, c: nat, id: int, lo: int,
                      right: Expr, next: nat, nextId: int)
    requires 1 <= rank <= 4 && ValidTokens(ts) && Cursor(ts, c) && Cursor(ts, c + 1)
    requires Numbered(left, lo) && id == lo + Size(left) && Precedence(ts[c].kind) == rank
    requires Operand(rank, ts, c + 1, id) == Parsed(right, next, nextId)
    ensures Numbered(Binary(nextId, left, Previous(ts, c + 1), right), lo)
    ensures BinaryLoop(rank, left, ts, c, id, lo)
            == BinaryLoop(rank, Binary(nextId, left, Previous(ts, c + 1), right), ts, next, nextId + 1, lo)
  {
    NumberedShift(right, id, lo + Size(left));
  }

  lemma NumberedShift(e: Expr, a: int, b: int)
    requires Numbered(e, a) && a == b
    ensures Numbered(e, b)
  {
  }


  /** `Unary` in front of a prefix operator: the operator applied to the operand after it. */
  lemma PrefixReads(ts: seq<Token>, c: nat, id: int, right: Expr, next: nat, nextId: int)
    requires ValidTokens(ts) && Cursor(ts, c) && Cursor(ts, c + 1) && ts[c].kind in UnaryOperators
    requires Unary(ts, c + 1, id) == Parsed(right, next, nextId)
    ensures Unary(ts, c, id) == Parsed(Expr.Unary(nextId, Previous(ts, c + 1), right), next, nextId + 1)
  {
    assert Match(ts, c, UnaryOperators) == (true, c + 1);
  }

  /** A group whose inner expression ends in front of `)` reads as a grouping node. */
  lemma GroupReads(ts: seq<Token>, c: nat, id: int, inner: Expr, next: nat, nextId: int, end: nat)
    requires ValidTokens(ts) && Cursor(ts, c) && Cursor(ts, c + 1) && ts[c].kind == LeftParen
    requires BinaryLevel(4, ts, c + 1, id) == Parsed(inner, next, nextId)
    requires ts[next].kind == RightParen && end == next + 1
    ensures Unary(ts, c, id) == Parsed(Grouping(nextId, inner), end, nextId + 1)
  {
    assert Expression(ts, c + 1, id) == BinaryLevel(4, ts, c + 1, id);
    ParenCloses(ts, c + 1, id, inner, next, nextId);
    PrimaryOpensParen(ts, c, id);
    UnaryFallsThrough(ts, c, id);
  }

  /** Below multiplication the operand is a unary expression. */
  lemma OperandIsUnary(rank: nat, ts: seq<Token>, c: nat, id: int)
    requires rank == 1 && ValidTokens(ts) && Cursor(ts, c)
    ensures Operand(rank, ts, c, id) == Unary(ts, c, id)
  {
  }

  /** Above multiplication the operand is a tree of the next tighter level. */
  lemma OperandIsTighterLevel(rank: nat, ts: seq<Token>, c: nat, id: int)
    requires 2 <= rank <= 4 && ValidTokens(ts) && Cursor(ts, c)
    ensures Operand(rank, ts, c, id) == BinaryLevel(rank - 1, ts, c, id)
  {
  }

  /** `BinaryLevel` reads one operand and hands it to the loop. */
  lemma LevelOpens(rank: nat, ts: seq<Token>, c: nat, id: int, left: Expr, next: nat, nextId: int)
    requires 1 <= rank <= 4 && ValidTokens(ts) && Cursor(ts, c)
    requires Operand(rank, ts, c, id) == Parsed(left, next, nextId)
    ensures BinaryLevel(rank, ts, c, id) == BinaryLoop(rank, left, ts, next, nextId, id)
  {
  }

  // The round trip proper. Each lemma names the position `end` after the tree's tokens,
  // reads the tree at `c` with ids from `id`, and returns the tree read (`e'`, equal to `e`
  // up to ids) and the next free id (`id'`).

  /** Reading a level-0 tree: prefix operators, then a literal or a parenthesised expression. */
  lemma {:induction false} UnaryRoundTrip(e: Expr, ts: seq<Token>, c: nat, id: int, end: nat)
    returns (e': Expr, id': int)
    requires Shaped(e, 0) && ValidTokens(ts) && Cursor(ts, c) && Spells(ts, c, e)
    requires end == c + |Unparse(e)|
    ensures Unary(ts, c, id) == Parsed(e', end, id') && Erase(e') == Erase(e)
    decreases e, 1
  {
    if e.Unary? {
      e', id' := PrefixRoundTrip(e, ts, c, id, end);
    } else if e.Literal? {
      e', id' := LiteralRoundTrip(e, ts, c, id, end);
    } else {
      e', id' := GroupingRoundTrip(e, ts, c, id, end);
    }
  }

  lemma {:induction false} PrefixRoundTrip(e: Expr, ts: seq<Token>, c: nat, id: int, end: nat)
    returns (e': Expr, id': int)
    requires e.Unary? && e.operator.kind in UnaryOperators && Shaped(e.right, 0)
    requires ValidTokens(ts) && Cursor(ts, c) && Spells(ts, c, e) && end == c + |Unparse(e)|
    ensures Unary(ts, c, id) == Parsed(e', end, id') && Erase(e') == Erase(e)
    decreases e, 0
  {
    SpellsUnary(ts, c, e);
    CursorStep(ts, c);
    var r', idr := UnaryRoundTrip(e.right, ts, c + 1, id, end);
    PrefixReads(ts, c, id, r', end, idr);
    assert Previous(ts, c + 1) == e.operator;
    e', id' := Expr.Unary(idr, e.operator, r'), idr + 1;
  }

  lemma LiteralRoundTrip(e: Expr, ts: seq<Token>, c: nat, id: int, end: nat)
    returns (e': Expr, id': int)
    requires e.Literal? && ValidTokens(ts) && Cursor(ts, c) && Spells(ts, c, e)
    requires end == c + |Unparse(e)|
    ensures Unary(ts, c, id) == Parsed(e', end, id') && Erase(e') == Erase(e)
  {
    SpellsLiteral(ts, c, e);
    UnaryFallsThrough(ts, c, id);
    e', id' := Literal(id, e.literal), id + 1;
  }

  lemma {:induction false} GroupingRoundTrip(e: Expr, ts: seq<Token>, c: nat, id: int, end: nat)
    returns (e': Expr, id': int)
    requires e.Grouping? && Shaped(e.expression, 4) && ValidTokens(ts) && Cursor(ts, c) && Spells(ts, c, e)
    requires end == c + |Unparse(e)|
    ensures Unary(ts, c, id) == Parsed(e', end, id') && Erase(e') == Erase(e)
    decreases e, 0
  {
    SpellsGrouping(ts, c, e);
    CursorStep(ts, c);
    var close := c + 1 + |Unparse(e.expression)|;
    var g', idg := LevelStops(4, e.expression, ts, c + 1, id, close);
    GroupReads(ts, c, id, g', close, idg, end);
    e', id' := Grouping(idg, g'), idg + 1;
  }

  /** A level read in front of a token that is none of its operators ends after the tree. */
  lemma LevelStops(rank: nat, e: Expr, ts: seq<Token>, c: nat, id: int, end: nat)
    returns (e': Expr, id': int)
    requires 1 <= rank <= 4 && Shaped(e, rank) && ValidTokens(ts) && Cursor(ts, c) && Spells(ts, c, e)
    requires end == c + |Unparse(e)|
    requires !Continues(ts[end].kind, rank) && Precedence(ts[end].kind) != rank
    ensures BinaryLevel(rank, ts, c, id) == Parsed(e', end, id') && Erase(e') == Erase(e)
    ensures id' == id + Size(e') && Numbered(e', id)
    decreases e, 3 * rank + 3
  {
    e', id' := LevelRoundTrip(rank, e, ts, c, id, end);
    LoopStops(rank, e', ts, end, id', id);
  }

  /**
   * Reading a level-`rank` tree leaves the level's loop exactly after its tokens, holding
   * a copy of the tree, provided the next token does not continue a tighter level.
   */
  lemma {:induction false} LevelRoundTrip(rank: nat, e: Expr, ts: seq<Token>, c: nat, id: int, end: nat)
    returns (e': Expr, id': int)
    requires 1 <= rank <= 4 && Shaped(e, rank) && ValidTokens(ts) && Cursor(ts, c) && Spells(ts, c, e)
    requires end == c + |Unparse(e)| && !Continues(ts[end].kind, rank)
    ensures Erase(e') == Erase(e) && id' == id + Size(e') && Numbered(e', id)
    ensures Cursor(ts, end)
    ensures BinaryLevel(rank, ts, c, id) == BinaryLoop(rank, e', ts, end, id', id)
    decreases e, 3 * rank + 2
  {
    CursorSkips(ts, c, e, rank);
    if e.Binary? && Precedence(e.operator.kind) == rank && Shaped(e.left, rank) && Shaped(e.right, rank - 1) {
      e', id' := BinaryRoundTrip(rank, e, ts, c, id, end);
    } else {
      e', id' := OperandRoundTrip(rank, e, ts, c, id, end);
      LevelOpens(rank, ts, c, id, e', end, id');
    }
  }

  /**
   * The binary case: the left operand's loop stops at this level's operator, which the
   * loop then takes with the right operand, building the node on the left.
   */
  lemma {:induction false} BinaryRoundTrip(rank: nat, e: Expr, ts: seq<Token>, c: nat, id: int, end: nat)
    returns (e': Expr, id': int)
    requires 1 <= rank <= 4 && ValidTokens(ts) && Cursor(ts, c) && Spells(ts, c, e)
    requires e.Binary? && Precedence(e.operator.kind) == rank && Shaped(e.left, rank) && Shaped(e.right, rank - 1)
    requires end == c + |Unparse(e)| && !Continues(ts[end].kind, rank) && Cursor(ts, end)
    ensures Erase(e') == Erase(e) && id' == id + Size(e') && Numbered(e', id)
    ensures BinaryLevel(rank, ts, c, id) == BinaryLoop(rank, e', ts, end, id', id)
    decreases e, 3 * rank + 1
  {
    var m := c + |Unparse(e.left)|;
    SpellsBinary(ts, c, e, m);
    var l', idl := LevelRoundTrip(rank, e.left, ts, c, id, m);
    e', id' := LoopTakesRight(rank, e, ts, m, id, l', idl, end);
  }

  /** The loop, holding the left operand in front of the operator, takes the right operand. */
  lemma {:induction false} LoopTakesRight(rank: nat, e: Expr, ts: seq<Token>, m: nat, id: int,
                                          l': Expr, idl: int, end: nat)
    returns (e': Expr, id': int)
    requires 1 <= rank <= 4 && ValidTokens(ts) && e.Binary? && Precedence(e.operator.kind) == rank
    requires Shaped(e.right, rank - 1) && Cursor(ts, m) && ts[m] == e.operator && Spells(ts, m + 1, e.right)
    requires end == m + 1 + |Unparse(e.right)| && !Continues(ts[end].kind, rank) && Cursor(ts, end)
    requires Numbered(l', id) && idl == id + Size(l')
    ensures e'.Binary? && e'.left == l' && e'.operator == e.operator && Erase(e'.right) == Erase(e.right)
    ensures id' == id + Size(e') && Numbered(e', id)
    ensures BinaryLoop(rank, l', ts, m, idl, id) == BinaryLoop(rank, e', ts, end, id', id)
    decreases e, 3 * rank
  {
    CursorStep(ts, m);
    assert Previous(ts, m + 1) == e.operator;
    var r', idr := OperandRoundTrip(rank, e.right, ts, m + 1, idl, end);
    assert idr + 1 == id + Size(Binary(idr, l', Previous(ts, m + 1), r'));
    LoopContinues(rank, l', ts, m, idl, id, r', end, idr);
    e', id' := Binary(idr, l', Previous(ts, m + 1), r'), idr + 1;
  }

  /** Reading the operand of a binary level stops exactly after a tree of the tighter level. */
  lemma {:induction false} OperandRoundTrip(rank: nat, e: Expr, ts: seq<Token>, c: nat, id: int, end: nat)
    returns (e': Expr, id': int)
    requires 1 <= rank <= 4 && Shaped(e, rank - 1) && ValidTokens(ts) && Cursor(ts, c) && Spells(ts, c, e)
    requires end == c + |Unparse(e)| && !Continues(ts[end].kind, rank)
    ensures Operand(rank, ts, c, id) == Parsed(e', end, id') && Erase(e') == Erase(e)
    ensures id' == id + Size(e') && Numbered(e', id)
    decreases e, 3 * rank + 1
  {
    if rank == 1 {
      e', id' := UnaryRoundTrip(e, ts, c, id, end);
      OperandIsUnary(rank, ts, c, id);
    } else {
      StopsTighterLevel(ts[end].kind, rank);
      e', id' := LevelStops(rank - 1, e, ts, c, id, end);
      OperandIsTighterLevel(rank, ts, c, id);
    }
  }

  /**
   * Precedence and associativity as a theorem: every tree the grammar shapes is read back
   * from its tokens, whatever follows them, as long as the next token is not a binary
   * operator. `Parse` does not need the end of input right after the expression.
   */
  lemma ParseRoundTrip(e: Expr, rest: seq<Token>)
    requires Shaped(e, 4) && ValidTokens(rest) && Precedence(rest[0].kind) == 0
    ensures ValidTokens(Unparse(e) + rest)
    ensures var r := Parse(Unparse(e) + rest);
            r.result.Some? && Erase(r.result.value) == Erase(e)
  {
    var ts := Unparse(e) + rest;
    assert ts[0..|Unparse(e)|] == Unparse(e);
    WindowIsSlice(ts, 0, |Unparse(e)|);
    assert ts[|Unparse(e)|] == rest[0];
    var e', id' := LevelStops(4, e, ts, 0, 0, |Unparse(e)|);
  }
}
