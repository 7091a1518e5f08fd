/**
 * The s-expression printer (src/Core/AstPrinter.cs): every expression and statement as a
 * parenthesised prefix form. The host's number formatting is the `showNumber` parameter.
 *
 * `Parenthesize` and `Parenthesize2` differ only in the kinds of part they accept; once a
 * part is rendered (an expression or statement printed, a token as its lexeme, a string as
 * itself, an argument list as below) both build the same text, so one function models both.
 */
module AstPrinter {
  import opened Common
  import opened Tokens
  import opened Exprs
  import opened Stmts

  /** `sep` before each part. */
  function Prefixed(sep: string, parts: seq<string>): string
  {
    if parts == [] then "" else sep + parts[0] + Prefixed(sep, parts[1..])
  }

  /** The parts with `sep` between neighbours: the reference form of a separated list. */
  function Join(sep: string, parts: seq<string>): string
  {
    if parts == [] then ""
    else if |parts| == 1 then parts[0]
    else parts[0] + sep + Join(sep, parts[1..])
  }

  /** "(" and the name, then a space and each part, then ")". */
  function Parenthesize(name: string, parts: seq<string>): (r: string)
    ensures |r| >= 2 && r[0] == '(' && r[|r| - 1] == ')'
  {
    "(" + name + Prefixed(" ", parts) + ")"
  }

  /** A literal: the host's `null` prints "nil", any other value its host `ToString`. */
  function PrintLiteral(v: LiteralValue, showNumber: Number -> string): string
  {
    if v.NilValue? then "nil" else ObjectText(v, showNumber)
  }

  /** `Print(Expr)`. Names, literals and `this` print bare; every other node in parentheses. */
  function PrintExpr(e: Expr, showNumber: Number -> string): (r: string)
    ensures !(e.Literal? || e.Variable? || e.This?) ==> |r| >= 2 && r[0] == '(' && r[|r| - 1] == ')'
    decreases e, 0
  {
    match e
    case Assign(_, name, value) => Parenthesize("=", [name.lexeme, PrintExpr(value, showNumber)])
    case Binary(_, left, op, right) =>
      Parenthesize(op.lexeme, [PrintExpr(left, showNumber), PrintExpr(right, showNumber)])
    case Call(_, callee, _, arguments) =>
      Parenthesize("call", [PrintExpr(callee, showNumber), ArgumentList(arguments, showNumber)])
    case Get(_, obj, name) => Parenthesize(".", [PrintExpr(obj, showNumber), name.lexeme])
    case Grouping(_, inner) => Parenthesize("group", [PrintExpr(inner, showNumber)])
    case Literal(_, v) => PrintLiteral(v, showNumber)
    case Logical(_, left, op, right) =>
      Parenthesize(op.lexeme, [PrintExpr(left, showNumber), PrintExpr(right, showNumber)])
    case Set(_, obj, name, value) =>
      Parenthesize("=", [PrintExpr(obj, showNumber), name.lexeme, PrintExpr(value, showNumber)])
    case Super(_, _, methodName) => Parenthesize("super", [methodName.lexeme])
    case This(_, _) => "this"
    case Unary(_, op, right) => Parenthesize(op.lexeme, [PrintExpr(right, showNumber)])
    case Variable(_, name) => name.lexeme
  }

  /**
   * An argument list as a part: nothing at all when it is empty (the space before the part
   * is still written), otherwise the arguments in brackets.
   */
  function ArgumentList(args: seq<Expr>, showNumber: Number -> string): string
    decreases args, 1
  {
    if args == [] then "" else "[" + Arguments(args, args[0], showNumber) + "]"
  }

  /**
   * The loop over the arguments: ", " before every argument that is not the list's first
   * node. The host compares object references; node ids stand for them here.
   */
  function Arguments(args: seq<Expr>, first: Expr, showNumber: Number -> string): string
    decreases args, 0
  {
    if args == [] then ""
    else if args[0].id != first.id then
      ", " + PrintExpr(args[0], showNumber) + Arguments(args[1..], first, showNumber)
    else PrintExpr(args[0], showNumber) + Arguments(args[1..], first, showNumber)
  }

  /** `Print(Stmt)`: every statement prints in parentheses. */
  function PrintStmt(s: Stmt, showNumber: Number -> string): (r: string)
    ensures |r| >= 2 && r[0] == '(' && r[|r| - 1] == ')'
    decreases s, 1
  {
    match s
    case Block(statements) => "(block " + PrintAll(statements, showNumber) + ")"
    case Class(name, superclass, methods) =>
      "(class " + name.lexeme
      + (if superclass.Some? then " < " + PrintExpr(superclass.value, showNumber) else "")
      + PrintMethods(methods, showNumber) + ")"
    case Expression(e) => Parenthesize(";", [PrintExpr(e, showNumber)])
    case Function(decl) => PrintFunction(decl, showNumber)
    case If(condition, thenBranch, elseBranch) =>
      if elseBranch.None? then
        Parenthesize("if", [PrintExpr(condition, showNumber), PrintStmt(thenBranch, showNumber)])
      else
        Parenthesize("if-else", [PrintExpr(condition, showNumber), PrintStmt(thenBranch, showNumber),
                                 PrintStmt(elseBranch.value, showNumber)])
    case Print(e) => Parenthesize("print", [PrintExpr(e, showNumber)])
    case Return(_, value) =>
      if value.None? then "(return)" else Parenthesize("return", [PrintExpr(value.value, showNumber)])
    case Var(name, initializer) =>
      if initializer.None? then Parenthesize("var", [name.lexeme])
      else Parenthesize("var", [name.lexeme, "=", PrintExpr(initializer.value, showNumber)])
    case While(condition, body) =>
      Parenthesize("while", [PrintExpr(condition, showNumber), PrintStmt(body, showNumber)])
  }

  /** Statements one after the other, with no separator. */
  function PrintAll(statements: seq<Stmt>, showNumber: Number -> string): string
    decreases statements, 0
  {
    if statements == [] then ""
    else PrintStmt(statements[0], showNumber) + PrintAll(statements[1..], showNumber)
  }

  /** A class's methods, each printed as a function statement after a space. */
  function PrintMethods(methods: seq<FunctionDecl>, showNumber: Number -> string): string
    decreases methods, 0
  {
    if methods == [] then ""
    else " " + PrintFunction(methods[0], showNumber) + PrintMethods(methods[1..], showNumber)
  }

  /** A function: "(fun name(" and the parameters, then ") " and the body, then ")". */
  function PrintFunction(decl: FunctionDecl, showNumber: Number -> string): (r: string)
    ensures |r| >= 2 && r[0] == '(' && r[|r| - 1] == ')'
    decreases decl, 0
  {
    "(fun " + decl.name.lexeme + "(" + Parameters(decl.params) + ") " + PrintAll(decl.body, showNumber) + ")"
  }

  /**
   * The parameter loop: a space before every parameter but the first. The host compares
   * each token's reference with the first one's; the scanner makes a new token for every
   * lexeme, so that test is a test of position.
   */
  function Parameters(params: seq<Token>): string
  {
    if params == [] then "" else params[0].lexeme + Prefixed(" ", Names(params[1..]))
  }

  // ---------------------------------------------------------------------------------------
  // Separated lists

  /** Each node printed, in order. */
  function PrintEach(es: seq<Expr>, showNumber: Number -> string): (r: seq<string>)
    ensures |r| == |es|
    ensures forall i :: 0 <= i < |es| ==> r[i] == PrintExpr(es[i], showNumber)
  {
    if es == [] then [] else [PrintExpr(es[0], showNumber)] + PrintEach(es[1..], showNumber)
  }

  lemma {:induction false} JoinIsFirstThenPrefixed(sep: string, parts: seq<string>)
    requires parts != []
    ensures Join(sep, parts) == parts[0] + Prefixed(sep, parts[1..])
    decreases |parts|
  {
    if |parts| == 1 {
      assert parts[1..] == [];
    } else {
      JoinIsFirstThenPrefixed(sep, parts[1..]);
      assert parts[1..][1..] == parts[2..];
    }
  }

  /** Once the first argument is past, every argument that is not the first node gets its comma. */
  lemma {:induction false} SeparatedArguments(args: seq<Expr>, first: Expr, showNumber: Number -> string)
    requires forall i :: 0 <= i < |args| ==> args[i].id != first.id
    ensures Arguments(args, first, showNumber) == Prefixed(", ", PrintEach(args, showNumber))
    decreases args
  {
    if args != [] {
      SeparatedArguments(args[1..], first, showNumber);
      assert PrintEach(args, showNumber)[1..] == PrintEach(args[1..], showNumber);
    }
  }

  /**
   * Arguments whose nodes are distinct from the first print as a ", "-separated list in
   * brackets.
   */
  lemma ArgumentsJoined(args: seq<Expr>, showNumber: Number -> string)
    requires args != [] && forall i :: 1 <= i < |args| ==> args[i].id != args[0].id
    ensures ArgumentList(args, showNumber) == "[" + Join(", ", PrintEach(args, showNumber)) + "]"
  {
    var rest := args[1..];
    forall i | 0 <= i < |rest|
      ensures rest[i].id != args[0].id
    {
      assert rest[i] == args[i + 1];
    }
    SeparatedArguments(rest, args[0], showNumber);
    var first := PrintExpr(args[0], showNumber);
    var printed := PrintEach(args, showNumber);
    assert printed == [first] + PrintEach(rest, showNumber);
    assert printed[1..] == PrintEach(rest, showNumber);
    JoinIsFirstThenPrefixed(", ", printed);
  }

  /** The parameters print as their lexemes separated by single spaces. */
  lemma ParametersJoined(params: seq<Token>)
    ensures Parameters(params) == Join(" ", Names(params))
  {
    if params != [] {
      JoinIsFirstThenPrefixed(" ", Names(params));
      assert Names(params)[1..] == Names(params[1..]);
    }
  }

  lemma IdInIds(e: Expr)
    ensures e.id in Ids(e)
  {
  }

  lemma {:induction false} IdsOfAllHoldsEach(es: seq<Expr>, i: int)
    requires 0 <= i < |es|
    ensures Ids(es[i]) <= IdsOfAll(es)
    decreases es
  {
    if i > 0 {
      IdsOfAllHoldsEach(es[1..], i - 1);
    }
  }

  /** A form with two parts, written out. */
  lemma TwoParts(name: string, a: string, b: string)
    ensures Parenthesize(name, [a, b]) == "(" + name + " " + a + " " + b + ")"
  {
    assert [a, b][1..] == [b] && [b][1..] == [];
    assert Prefixed(" ", [b]) == " " + b + Prefixed(" ", []);
    assert Prefixed(" ", [a, b]) == " " + a + Prefixed(" ", [b]);
  }

  /** The nodes of a list whose ids are unique are distinct from its first node. */
  lemma UniqueArgumentsDistinct(args: seq<Expr>)
    requires args != [] && UniqueIdsOfAll(args)
    ensures forall i :: 1 <= i < |args| ==> args[i].id != args[0].id
  {
    forall i | 1 <= i < |args|
      ensures args[i].id != args[0].id
    {
      assert Ids(args[0]) !! IdsOfAll(args[1..]);
      IdInIds(args[i]);
      IdsOfAllHoldsEach(args[1..], i - 1);
      assert args[1..][i - 1] == args[i];
      IdInIds(args[0]);
    }
  }

  /**
   * In a tree whose nodes are all distinct (as the parser builds them), a call prints its
   * callee and then its arguments as a ", "-separated list in brackets; with no arguments
   * the list is missing but the space before it is not.
   */
  lemma PrintedCall(e: Expr, showNumber: Number -> string)
    requires e.Call? && UniqueIds(e)
    ensures e.arguments == [] ==>
              PrintExpr(e, showNumber) == "(call " + PrintExpr(e.callee, showNumber) + " )"
    ensures e.arguments != [] ==>
              PrintExpr(e, showNumber)
              == "(call " + PrintExpr(e.callee, showNumber)
                 + " [" + Join(", ", PrintEach(e.arguments, showNumber)) + "])"
  {
    var args := e.arguments;
    var callee := PrintExpr(e.callee, showNumber);
    var list := ArgumentList(args, showNumber);
    TwoParts("call", callee, list);
    assert "(" + "call" + " " == "(call ";
    assert PrintExpr(e, showNumber) == "(call " + callee + " " + list + ")";
    if args != [] {
      UniqueArgumentsDistinct(args);
      ArgumentsJoined(args, showNumber);
    }
  }

  // ---------------------------------------------------------------------------------------
  // Balanced parentheses

  /** A text with as many closing as opening parentheses. */
  predicate Balanced(s: string)
  {
    Count(s, '(') == Count(s, ')')
  }

  /** A text with no parenthesis at all. */
  predicate Plain(s: string)
  {
    '(' !in s && ')' !in s
  }

  /** Every text the printer copies from the tree (lexemes and literal text) is plain. */
  ghost predicate PlainExpr(e: Expr, showNumber: Number -> string)
    decreases e, 0
  {
    match e
    case Assign(_, name, value) => Plain(name.lexeme) && PlainExpr(value, showNumber)
    case Binary(_, left, op, right) => Plain(op.lexeme) && PlainExpr(left, showNumber) && PlainExpr(right, showNumber)
    case Call(_, callee, _, arguments) => PlainExpr(callee, showNumber) && PlainExprs(arguments, showNumber)
    case Get(_, obj, name) => PlainExpr(obj, showNumber) && Plain(name.lexeme)
    case Grouping(_, inner) => PlainExpr(inner, showNumber)
    case Literal(_, v) => Plain(PrintLiteral(v, showNumber))
    case Logical(_, left, op, right) => Plain(op.lexeme) && PlainExpr(left, showNumber) && PlainExpr(right, showNumber)
    case Set(_, obj, name, value) => PlainExpr(obj, showNumber) && Plain(name.lexeme) && PlainExpr(value, showNumber)
    case Super(_, _, methodName) => Plain(methodName.lexeme)
    case This(_, _) => true
    case Unary(_, op, right) => Plain(op.lexeme) && PlainExpr(right, showNumber)
    case Variable(_, name) => Plain(name.lexeme)
  }

  ghost predicate PlainExprs(es: seq<Expr>, showNumber: Number -> string)
    decreases es, 1
  {
    forall i :: 0 <= i < |es| ==> PlainExpr(es[i], showNumber)
  }

  ghost predicate PlainStmt(s: Stmt, showNumber: Number -> string)
    decreases s, 1
  {
    match s
    case Block(statements) => PlainStmts(statements, showNumber)
    case Class(name, superclass, methods) =>
      Plain(name.lexeme) && (superclass.Some? ==> PlainExpr(superclass.value, showNumber))
      && PlainMethods(methods, showNumber)
    case Expression(e) => PlainExpr(e, showNumber)
    case Function(decl) => PlainFunction(decl, showNumber)
    case If(condition, thenBranch, elseBranch) =>
      PlainExpr(condition, showNumber) && PlainStmt(thenBranch, showNumber)
      && (elseBranch.Some? ==> PlainStmt(elseBranch.value, showNumber))
    case Print(e) => PlainExpr(e, showNumber)
    case Return(_, value) => value.Some? ==> PlainExpr(value.value, showNumber)
    case Var(name, initializer) =>
      Plain(name.lexeme) && (initializer.Some? ==> PlainExpr(initializer.value, showNumber))
    case While(condition, body) => PlainExpr(condition, showNumber) && PlainStmt(body, showNumber)
  }

  ghost predicate PlainStmts(statements: seq<Stmt>, showNumber: Number -> string)
    decreases statements, 0
  {
    forall i :: 0 <= i < |statements| ==> PlainStmt(statements[i], showNumber)
  }

  ghost predicate PlainMethods(methods: seq<FunctionDecl>, showNumber: Number -> string)
    decreases methods, 0
  {
    forall i :: 0 <= i < |methods| ==> PlainFunction(methods[i], showNumber)
  }

  ghost predicate PlainFunction(decl: FunctionDecl, showNumber: Number -> string)
    decreases decl, 0
  {
    Plain(decl.name.lexeme) && (forall i :: 0 <= i < |decl.params| ==> Plain(decl.params[i].lexeme))
    && PlainStmts(decl.body, showNumber)
  }

  lemma {:induction false} PlainCountsNone(s: string)
    requires Plain(s)
    ensures Count(s, '(') == 0 && Count(s, ')') == 0
    decreases s
  {
    if s != [] {
      assert s[0] in s;
      assert forall c :: c in s[1..] ==> c in s;
      PlainCountsNone(s[1..]);
    }
  }

  lemma JoinBalanced(a: string, b: string)
    requires Balanced(a) && Balanced(b)
    ensures Balanced(a + b)
  {
    CountAppend(a, b, '(');
    CountAppend(a, b, ')');
  }

  lemma {:induction false} PrefixedBalanced(sep: string, parts: seq<string>)
    requires Plain(sep) && forall i :: 0 <= i < |parts| ==> Balanced(parts[i])
    ensures Balanced(Prefixed(sep, parts))
    decreases parts
  {
    if parts != [] {
      PlainCountsNone(sep);
      PrefixedBalanced(sep, parts[1..]);
      JoinBalanced(sep, parts[0]);
      JoinBalanced(sep + parts[0], Prefixed(sep, parts[1..]));
    }
  }

  /** The parenthesised form adds one matched pair around its parts. */
  lemma ParenthesizeBalanced(name: string, parts: seq<string>)
    requires Plain(name) && forall i :: 0 <= i < |parts| ==> Balanced(parts[i])
    ensures Balanced(Parenthesize(name, parts))
  {
    OpenCounts(name);
    PrefixedBalanced(" ", parts);
    Enclosed("(" + name, Prefixed(" ", parts), ")");
  }

  /** `open + middle + close` is balanced when the middle is and the ends make one pair. */
  lemma Enclosed(open: string, middle: string, close: string)
    requires Count(open, '(') == 1 + Count(open, ')') && Count(close, ')') == 1 + Count(close, '(')
    requires Balanced(middle)
    ensures Balanced(open + middle + close)
  {
    CountAppend(open, middle, '(');
    CountAppend(open, middle, ')');
    CountAppend(open + middle, close, '(');
    CountAppend(open + middle, close, ')');
  }

  lemma OpenCounts(name: string)
    requires Plain(name)
    ensures Count("(" + name, '(') == 1 && Count("(" + name, ')') == 0
  {
    PlainCountsNone(name);
    CountAppend("(", name, '(');
    CountAppend("(", name, ')');
  }

  /**
   * When the lexemes and literal texts of an expression have no parentheses, its printed
   * form has as many closing as opening parentheses: each node adds one matched pair.
   */
  lemma {:induction false} ExprBalanced(e: Expr, showNumber: Number -> string)
    requires PlainExpr(e, showNumber)
    ensures Balanced(PrintExpr(e, showNumber))
    decreases e, 1
  {
    match e
    case Assign(_, name, value) =>
      PlainCountsNone(name.lexeme);
      ExprBalanced(value, showNumber);
      ParenthesizeBalanced("=", [name.lexeme, PrintExpr(value, showNumber)]);
    case Binary(_, left, op, right) =>
      ExprBalanced(left, showNumber);
      ExprBalanced(right, showNumber);
      ParenthesizeBalanced(op.lexeme, [PrintExpr(left, showNumber), PrintExpr(right, showNumber)]);
    case Call(_, callee, _, arguments) =>
      ExprBalanced(callee, showNumber);
      ArgumentListBalanced(arguments, showNumber);
      ParenthesizeBalanced("call", [PrintExpr(callee, showNumber), ArgumentList(arguments, showNumber)]);
    case Get(_, obj, name) =>
      PlainCountsNone(name.lexeme);
      ExprBalanced(obj, showNumber);
      ParenthesizeBalanced(".", [PrintExpr(obj, showNumber), name.lexeme]);
    case Grouping(_, inner) =>
      ExprBalanced(inner, showNumber);
      ParenthesizeBalanced("group", [PrintExpr(inner, showNumber)]);
    case Literal(_, v) =>
      PlainCountsNone(PrintLiteral(v, showNumber));
    case Logical(_, left, op, right) =>
      ExprBalanced(left, showNumber);
      ExprBalanced(right, showNumber);
      ParenthesizeBalanced(op.lexeme, [PrintExpr(left, showNumber), PrintExpr(right, showNumber)]);
    case Set(_, obj, name, value) =>
      PlainCountsNone(name.lexeme);
      ExprBalanced(obj, showNumber);
      ExprBalanced(value, showNumber);
      ParenthesizeBalanced("=", [PrintExpr(obj, showNumber), name.lexeme, PrintExpr(value, showNumber)]);
    case Super(_, _, methodName) =>
      PlainCountsNone(methodName.lexeme);
      ParenthesizeBalanced("super", [methodName.lexeme]);
    case This(_, _) =>
      PlainCountsNone("this");
    case Unary(_, op, right) =>
      ExprBalanced(right, showNumber);
      ParenthesizeBalanced(op.lexeme, [PrintExpr(right, showNumber)]);
    case Variable(_, name) =>
      PlainCountsNone(name.lexeme);
  }

  lemma {:induction false} ArgumentListBalanced(args: seq<Expr>, showNumber: Number -> string)
    requires PlainExprs(args, showNumber)
    ensures Balanced(ArgumentList(args, showNumber))
    decreases args, 3
  {
    if args != [] {
      ArgumentsBalanced(args, args[0], showNumber);
      var inner := Arguments(args, args[0], showNumber);
      CountAppend("[", inner, '(');
      CountAppend("[", inner, ')');
      CountAppend("[" + inner, "]", '(');
      CountAppend("[" + inner, "]", ')');
    }
  }

  lemma {:induction false} ArgumentsBalanced(args: seq<Expr>, first: Expr, showNumber: Number -> string)
    requires PlainExprs(args, showNumber)
    ensures Balanced(Arguments(args, first, showNumber))
    decreases args, 2
  {
    if args != [] {
      assert PlainExpr(args[0], showNumber);
      assert PlainExprs(args[1..], showNumber) by {
        forall i | 0 <= i < |args[1..]|
          ensures PlainExpr(args[1..][i], showNumber)
        {
          assert args[1..][i] == args[i + 1];
        }
      }
      ExprBalanced(args[0], showNumber);
      ArgumentsBalanced(args[1..], first, showNumber);
      var comma := if args[0].id != first.id then ", " else "";
      PlainCountsNone(comma);
      JoinBalanced(comma, PrintExpr(args[0], showNumber));
      if comma == "" {
        assert comma + PrintExpr(args[0], showNumber) == PrintExpr(args[0], showNumber);
      }
      JoinBalanced(comma + PrintExpr(args[0], showNumber), Arguments(args[1..], first, showNumber));
    }
  }

  /** Opening minus closing parentheses. */
  function Excess(s: string): int
  {
    Count(s, '(') - Count(s, ')')
  }

  lemma ExcessAppend(a: string, b: string)
    ensures Excess(a + b) == Excess(a) + Excess(b)
  {
    CountAppend(a, b, '(');
    CountAppend(a, b, ')');
  }

  /** The opening of a keyword form, "(" and a plain keyword, leaves one parenthesis open. */
  lemma KeywordOpens(open: string, keyword: string)
    requires open == "(" + keyword && Plain(keyword)
    ensures Excess(open) == 1
  {
    OpenCounts(keyword);
  }

  /** Statements print balanced under the same condition as expressions. */
  lemma {:induction false} StmtBalanced(s: Stmt, showNumber: Number -> string)
    requires PlainStmt(s, showNumber)
    ensures Balanced(PrintStmt(s, showNumber))
    decreases s, 3
  {
    match s
    case Block(statements) =>
      StmtsBalanced(statements, showNumber);
      KeywordOpens("(block ", "block ");
      Enclosed("(block ", PrintAll(statements, showNumber), ")");
    case Class(name, superclass, methods) =>
      ClassBalanced(name, superclass, methods, showNumber);
    case Expression(e) =>
      ExprBalanced(e, showNumber);
      ParenthesizeBalanced(";", [PrintExpr(e, showNumber)]);
    case Function(decl) =>
      FunctionBalanced(decl, showNumber);
    case If(condition, thenBranch, elseBranch) =>
      IfBalanced(condition, thenBranch, elseBranch, showNumber);
    case Print(e) =>
      ExprBalanced(e, showNumber);
      ParenthesizeBalanced("print", [PrintExpr(e, showNumber)]);
    case Return(keyword, value) =>
      ReturnBalanced(keyword, value, showNumber);
    case Var(name, initializer) =>
      VarBalanced(name, initializer, showNumber);
    case While(condition, body) =>
      ExprBalanced(condition, showNumber);
      StmtBalanced(body, showNumber);
      ParenthesizeBalanced("while", [PrintExpr(condition, showNumber), PrintStmt(body, showNumber)]);
  }

  lemma {:induction false} IfBalanced(condition: Expr, thenBranch: Stmt, elseBranch: Option<Stmt>,
                                      showNumber: Number -> string)
    requires PlainStmt(Stmt.If(condition, thenBranch, elseBranch), showNumber)
    ensures Balanced(PrintStmt(Stmt.If(condition, thenBranch, elseBranch), showNumber))
    decreases Stmt.If(condition, thenBranch, elseBranch), 2
  {
    ExprBalanced(condition, showNumber);
    StmtBalanced(thenBranch, showNumber);
    if elseBranch.None? {
      ParenthesizeBalanced("if", [PrintExpr(condition, showNumber), PrintStmt(thenBranch, showNumber)]);
    } else {
      StmtBalanced(elseBranch.value, showNumber);
      ParenthesizeBalanced("if-else", [PrintExpr(condition, showNumber), PrintStmt(thenBranch, showNumber),
                                       PrintStmt(elseBranch.value, showNumber)]);
    }
  }

  lemma ReturnBalanced(keyword: Token, value: Option<Expr>, showNumber: Number -> string)
    requires PlainStmt(Stmt.Return(keyword, value), showNumber)
    ensures Balanced(PrintStmt(Stmt.Return(keyword, value), showNumber))
  {
    if value.None? {
      BareReturnBalanced();
    } else {
      ExprBalanced(value.value, showNumber);
      ParenthesizeBalanced("return", [PrintExpr(value.value, showNumber)]);
    }
  }

  lemma VarBalanced(name: Token, initializer: Option<Expr>, showNumber: Number -> string)
    requires PlainStmt(Stmt.Var(name, initializer), showNumber)
    ensures Balanced(PrintStmt(Stmt.Var(name, initializer), showNumber))
  {
    PlainCountsNone(name.lexeme);
    if initializer.None? {
      ParenthesizeBalanced("var", [name.lexeme]);
    } else {
      ExprBalanced(initializer.value, showNumber);
      ParenthesizeBalanced("var", [name.lexeme, "=", PrintExpr(initializer.value, showNumber)]);
    }
  }

  lemma BareReturnBalanced()
    ensures Balanced("(return)")
  {
    KeywordOpens("(return", "return");
    ExcessAppend("(return", ")");
    assert "(return)" == "(return" + ")";
  }

  lemma {:induction false} ClassBalanced(name: Token, superclass: Option<Expr>, methods: seq<FunctionDecl>,
                                         showNumber: Number -> string)
    requires PlainStmt(Stmt.Class(name, superclass, methods), showNumber)
    ensures Balanced(PrintStmt(Stmt.Class(name, superclass, methods), showNumber))
    decreases Stmt.Class(name, superclass, methods), 2
  {
    var heading := "(class " + name.lexeme;
    var inheritance := if superclass.Some? then " < " + PrintExpr(superclass.value, showNumber) else "";
    var body := PrintMethods(methods, showNumber);
    assert PrintStmt(Stmt.Class(name, superclass, methods), showNumber) == heading + inheritance + body + ")";
    KeywordOpens("(class ", "class ");
    PlainCountsNone(name.lexeme);
    ExcessAppend("(class ", name.lexeme);
    if superclass.Some? {
      ExprBalanced(superclass.value, showNumber);
      ExcessAppend(" < ", PrintExpr(superclass.value, showNumber));
    }
    MethodsBalanced(methods, showNumber);
    ExcessAppend(heading, inheritance);
    ExcessAppend(heading + inheritance, body);
    ExcessAppend(heading + inheritance + body, ")");
  }

  lemma {:induction false} FunctionBalanced(decl: FunctionDecl, showNumber: Number -> string)
    requires PlainFunction(decl, showNumber)
    ensures Balanced(PrintFunction(decl, showNumber))
    decreases decl, 2
  {
    var params := Parameters(decl.params);
    var body := PrintAll(decl.body, showNumber);
    var heading := "(fun " + decl.name.lexeme + "(";
    KeywordOpens("(fun ", "fun ");
    PlainCountsNone(decl.name.lexeme);
    ExcessAppend("(fun ", decl.name.lexeme);
    ExcessAppend("(fun " + decl.name.lexeme, "(");
    ParametersBalanced(decl.params);
    StmtsBalanced(decl.body, showNumber);
    ExcessAppend(heading, params);
    ExcessAppend(heading + params, ") ");
    ExcessAppend(heading + params + ") ", body);
    ExcessAppend(heading + params + ") " + body, ")");
  }

  lemma ParametersBalanced(params: seq<Token>)
    requires forall i :: 0 <= i < |params| ==> Plain(params[i].lexeme)
    ensures Balanced(Parameters(params))
  {
    if params != [] {
      var names := Names(params[1..]);
      forall i | 0 <= i < |names|
        ensures Balanced(names[i])
      {
        assert params[1..][i] == params[i + 1];
        PlainCountsNone(names[i]);
      }
      PrefixedBalanced(" ", names);
      PlainCountsNone(params[0].lexeme);
      JoinBalanced(params[0].lexeme, Prefixed(" ", names));
    }
  }

  lemma {:induction false} StmtsBalanced(statements: seq<Stmt>, showNumber: Number -> string)
    requires PlainStmts(statements, showNumber)
    ensures Balanced(PrintAll(statements, showNumber))
    decreases statements, 4
  {
    if statements != [] {
      assert PlainStmt(statements[0], showNumber);
      assert PlainStmts(statements[1..], showNumber) by {
        forall i | 0 <= i < |statements[1..]|
          ensures PlainStmt(statements[1..][i], showNumber)
        {
          assert statements[1..][i] == statements[i + 1];
        }
      }
      StmtBalanced(statements[0], showNumber);
      StmtsBalanced(statements[1..], showNumber);
      JoinBalanced(PrintStmt(statements[0], showNumber), PrintAll(statements[1..], showNumber));
    }
  }

  lemma {:induction false} MethodsBalanced(methods: seq<FunctionDecl>, showNumber: Number -> string)
    requires PlainMethods(methods, showNumber)
    ensures Balanced(PrintMethods(methods, showNumber))
    decreases methods, 4
  {
    if methods != [] {
      assert PlainFunction(methods[0], showNumber);
      assert PlainMethods(methods[1..], showNumber) by {
        forall i | 0 <= i < |methods[1..]|
          ensures PlainFunction(methods[1..][i], showNumber)
        {
          assert methods[1..][i] == methods[i + 1];
        }
      }
      FunctionBalanced(methods[0], showNumber);
      MethodsBalanced(methods[1..], showNumber);
      PlainCountsNone(" ");
      JoinBalanced(" ", PrintFunction(methods[0], showNumber));
      JoinBalanced(" " + PrintFunction(methods[0], showNumber), PrintMethods(methods[1..], showNumber));
    }
  }
}
