/**
 * Expression nodes (src/Core/Expr.cs). The twelve visitor methods become the twelve
 * constructors and `Accept` becomes an exhaustive `match`. Every node carries an integer
 * id standing in for object identity, which the resolver uses as its annotation key.
 */
module Exprs {
  import opened Tokens

  type ExprId = int

  datatype Expr =
    | Assign(id: ExprId, name: Token, value: Expr)
    | Binary(id: ExprId, left: Expr, operator: Token, right: Expr)
    | Call(id: ExprId, callee: Expr, paren: Token, arguments: seq<Expr>)
    | Get(id: ExprId, obj: Expr, name: Token)
    | Grouping(id: ExprId, expression: Expr)
    | Literal(id: ExprId, literal: LiteralValue)
    | Logical(id: ExprId, left: Expr, operator: Token, right: Expr)
    | Set(id: ExprId, obj: Expr, name: Token, value: Expr)
    | Super(id: ExprId, keyword: Token, methodName: Token)
    | This(id: ExprId, keyword: Token)
    | Unary(id: ExprId, operator: Token, right: Expr)
    | Variable(id: ExprId, name: Token)

  /** The ids of every node of the tree. */
  function Ids(e: Expr): set<ExprId>
  {
    match e
    case Assign(id, _, value) => {id} + Ids(value)
    case Binary(id, left, _, right) => {id} + Ids(left) + Ids(right)
    case Call(id, callee, _, arguments) => {id} + Ids(callee) + IdsOfAll(arguments)
    case Get(id, obj, _) => {id} + Ids(obj)
    case Grouping(id, inner) => {id} + Ids(inner)
    case Literal(id, _) => {id}
    case Logical(id, left, _, right) => {id} + Ids(left) + Ids(right)
    case Set(id, obj, _, value) => {id} + Ids(obj) + Ids(value)
    case Super(id, _, _) => {id}
    case This(id, _) => {id}
    case Unary(id, _, right) => {id} + Ids(right)
    case Variable(id, _) => {id}
  }

  function IdsOfAll(es: seq<Expr>): set<ExprId>
  {
    if es == [] then {} else Ids(es[0]) + IdsOfAll(es[1..])
  }

  /** No two nodes of the tree share an id, so annotations keyed by id cannot collide. */
  ghost predicate UniqueIds(e: Expr)
  {
    match e
    case Assign(id, _, value) => UniqueIds(value) && id !in Ids(value)
    case Binary(id, left, _, right) =>
      UniqueIds(left) && UniqueIds(right) && Ids(left) !! Ids(right) && id !in Ids(left) + Ids(right)
    case Call(id, callee, _, arguments) =>
      UniqueIds(callee) && UniqueIdsOfAll(arguments) && Ids(callee) !! IdsOfAll(arguments)
      && id !in Ids(callee) + IdsOfAll(arguments)
    case Get(id, obj, _) => UniqueIds(obj) && id !in Ids(obj)
    case Grouping(id, inner) => UniqueIds(inner) && id !in Ids(inner)
    case Literal(_, _) => true
    case Logical(id, left, _, right) =>
      UniqueIds(left) && UniqueIds(right) && Ids(left) !! Ids(right) && id !in Ids(left) + Ids(right)
    case Set(id, obj, _, value) =>
      UniqueIds(obj) && UniqueIds(value) && Ids(obj) !! Ids(value) && id !in Ids(obj) + Ids(value)
    case Super(_, _, _) => true
    case This(_, _) => true
    case Unary(id, _, right) => UniqueIds(right) && id !in Ids(right)
    case Variable(_, _) => true
  }

  ghost predicate UniqueIdsOfAll(es: seq<Expr>)
  {
    es == [] || (UniqueIds(es[0]) && UniqueIdsOfAll(es[1..]) && Ids(es[0]) !! IdsOfAll(es[1..]))
  }

  /** Every id in `e` lies in [lo, hi). */
  ghost predicate IdsWithin(e: Expr, lo: int, hi: int)
  {
    forall i :: i in Ids(e) ==> lo <= i < hi
  }

  /** The number of nodes of the tree. */
  function Size(e: Expr): (r: nat)
    ensures r > 0
  {
    match e
    case Assign(_, _, value) => 1 + Size(value)
    case Binary(_, left, _, right) => 1 + Size(left) + Size(right)
    case Call(_, callee, _, arguments) => 1 + Size(callee) + SizeOfAll(arguments)
    case Get(_, obj, _) => 1 + Size(obj)
    case Grouping(_, inner) => 1 + Size(inner)
    case Literal(_, _) => 1
    case Logical(_, left, _, right) => 1 + Size(left) + Size(right)
    case Set(_, obj, _, value) => 1 + Size(obj) + Size(value)
    case Super(_, _, _) => 1
    case This(_, _) => 1
    case Unary(_, _, right) => 1 + Size(right)
    case Variable(_, _) => 1
  }

  function SizeOfAll(es: seq<Expr>): nat
  {
    if es == [] then 0 else Size(es[0]) + SizeOfAll(es[1..])
  }

  /**
   * The ids of `e` count up from `lo` in post-order: children left to right, then the node.
   * This is the order in which a parser that builds children before their parent hands
   * out identities.
   */
  ghost predicate Numbered(e: Expr, lo: int)
  {
    match e
    case Assign(id, _, value) => Numbered(value, lo) && id == lo + Size(value)
    case Binary(id, left, _, right) =>
      Numbered(left, lo) && Numbered(right, lo + Size(left)) && id == lo + Size(left) + Size(right)
    case Call(id, callee, _, arguments) =>
      Numbered(callee, lo) && NumberedAll(arguments, lo + Size(callee))
      && id == lo + Size(callee) + SizeOfAll(arguments)
    case Get(id, obj, _) => Numbered(obj, lo) && id == lo + Size(obj)
    case Grouping(id, inner) => Numbered(inner, lo) && id == lo + Size(inner)
    case Literal(id, _) => id == lo
    case Logical(id, left, _, right) =>
      Numbered(left, lo) && Numbered(right, lo + Size(left)) && id == lo + Size(left) + Size(right)
    case Set(id, obj, _, value) =>
      Numbered(obj, lo) && Numbered(value, lo + Size(obj)) && id == lo + Size(obj) + Size(value)
    case Super(id, _, _) => id == lo
    case This(id, _) => id == lo
    case Unary(id, _, right) => Numbered(right, lo) && id == lo + Size(right)
    case Variable(id, _) => id == lo
  }

  ghost predicate NumberedAll(es: seq<Expr>, lo: int)
  {
    es == [] || (Numbered(es[0], lo) && NumberedAll(es[1..], lo + Size(es[0])))
  }

  /** Post-order numbering gives every node its own id, all of them in [lo, lo + Size(e)). */
  lemma {:induction false} NumberedIdsUnique(e: Expr, lo: int)
    requires Numbered(e, lo)
    ensures UniqueIds(e) && IdsWithin(e, lo, lo + Size(e))
    decreases Size(e), 2
  {
    if e.Binary? || e.Logical? || e.Set? {
      PairNodeUnique(e, lo);
    } else if e.Call? {
      CallNodeUnique(e, lo);
    } else if e.Assign? || e.Get? || e.Grouping? || e.Unary? {
      OneChildNodeUnique(e, lo);
    }
  }

  lemma {:induction false} OneChildNodeUnique(e: Expr, lo: int)
    requires Numbered(e, lo) && (e.Assign? || e.Get? || e.Grouping? || e.Unary?)
    ensures UniqueIds(e) && IdsWithin(e, lo, lo + Size(e))
    decreases Size(e), 1
  {
    match e
    case Assign(_, _, value) => NumberedIdsUnique(value, lo);
    case Get(_, obj, _) => NumberedIdsUnique(obj, lo);
    case Grouping(_, inner) => NumberedIdsUnique(inner, lo);
    case Unary(_, _, right) => NumberedIdsUnique(right, lo);
  }

  lemma {:induction false} PairNodeUnique(e: Expr, lo: int)
    requires Numbered(e, lo) && (e.Binary? || e.Logical? || e.Set?)
    ensures UniqueIds(e) && IdsWithin(e, lo, lo + Size(e))
    decreases Size(e), 1
  {
    if e.Set? {
      PairUnique(e.obj, e.value, lo);
    } else {
      PairUnique(e.left, e.right, lo);
    }
  }

  lemma {:induction false} CallNodeUnique(e: Expr, lo: int)
    requires Numbered(e, lo) && e.Call?
    ensures UniqueIds(e) && IdsWithin(e, lo, lo + Size(e))
    decreases Size(e), 1
  {
    NumberedIdsUnique(e.callee, lo);
    NumberedAllUnique(e.arguments, lo + Size(e.callee));
    DisjointRanges(Ids(e.callee), IdsOfAll(e.arguments), lo, lo + Size(e.callee), lo + Size(e.callee) + SizeOfAll(e.arguments));
  }

  lemma {:induction false} PairUnique(a: Expr, b: Expr, lo: int)
    requires Numbered(a, lo) && Numbered(b, lo + Size(a))
    ensures UniqueIds(a) && UniqueIds(b) && Ids(a) !! Ids(b)
    ensures IdsWithin(a, lo, lo + Size(a)) && IdsWithin(b, lo + Size(a), lo + Size(a) + Size(b))
    ensures forall i :: i in Ids(a) + Ids(b) ==> lo <= i < lo + Size(a) + Size(b)
    decreases Size(a) + Size(b), 3
  {
    NumberedIdsUnique(a, lo);
    NumberedIdsUnique(b, lo + Size(a));
    DisjointRanges(Ids(a), Ids(b), lo, lo + Size(a), lo + Size(a) + Size(b));
  }

  lemma {:induction false} NumberedAllUnique(es: seq<Expr>, lo: int)
    requires NumberedAll(es, lo)
    ensures UniqueIdsOfAll(es) && forall i :: i in IdsOfAll(es) ==> lo <= i < lo + SizeOfAll(es)
    decreases SizeOfAll(es), 3
  {
    if es != [] {
      NumberedIdsUnique(es[0], lo);
      NumberedAllUnique(es[1..], lo + Size(es[0]));
      DisjointRanges(Ids(es[0]), IdsOfAll(es[1..]), lo, lo + Size(es[0]), lo + SizeOfAll(es));
    }
  }

  lemma DisjointRanges(a: set<ExprId>, b: set<ExprId>, lo: int, mid: int, hi: int)
    requires forall i :: i in a ==> lo <= i < mid
    requires forall i :: i in b ==> mid <= i < hi
    ensures a !! b
  {
    forall i | i in a && i in b
      ensures false
    {
    }
  }

  /** The same tree with every id set to 0: equality of shapes, ignoring identity. */
  function Erase(e: Expr): Expr
  {
    match e
    case Assign(_, name, value) => Assign(0, name, Erase(value))
    case Binary(_, left, op, right) => Binary(0, Erase(left), op, Erase(right))
    case Call(_, callee, paren, arguments) => Call(0, Erase(callee), paren, EraseAll(arguments))
    case Get(_, obj, name) => Get(0, Erase(obj), name)
    case Grouping(_, inner) => Grouping(0, Erase(inner))
    case Literal(_, v) => Literal(0, v)
    case Logical(_, left, op, right) => Logical(0, Erase(left), op, Erase(right))
    case Set(_, obj, name, value) => Set(0, Erase(obj), name, Erase(value))
    case Super(_, keyword, m) => Expr.Super(0, keyword, m)
    case This(_, keyword) => Expr.This(0, keyword)
    case Unary(_, op, right) => Unary(0, op, Erase(right))
    case Variable(_, name) => Variable(0, name)
  }

  function EraseAll(es: seq<Expr>): seq<Expr>
  {
    if es == [] then [] else [Erase(es[0])] + EraseAll(es[1..])
  }
}
