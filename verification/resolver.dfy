/**
 * The static resolver (src/Interpreter/Resolver.cs). It walks the statements once with a
 * stack of scopes, each mapping a name to whether its initializer has finished, and the
 * kinds of the enclosing function and class. It tells the interpreter, for each reference
 * to a local name, how many scopes out the name lives, and it reports misuse to the logger.
 *
 * The mutable fields become a `Context` that statements return updated; the two outputs,
 * the calls to `_interpreter.Resolve` and `_logger.Error`, become one trace of `Effect`s in
 * the order the host makes the calls.
 */
module Resolver {
  import opened Common
  import opened Tokens
  import opened Exprs
  import opened Stmts

  datatype FunctionType = NoFunction | PlainFunction | Method | Initializer

  datatype ClassType = NoClass | PlainClass | Subclass

  /** A scope: each declared name, and whether its declaration is complete. */
  type Scope = map<string, bool>

  /** The resolver's state; `scopes[0]` is the innermost scope, the top of the host's stack. */
  datatype Context = Context(scopes: seq<Scope>, currentFunction: FunctionType, currentClass: ClassType)

  /** An annotation of a reference with its scope distance, or a diagnostic. */
  datatype Effect = Annotate(id: ExprId, depth: nat) | Report(token: Token, message: string)

  const AlreadyDeclared := "Variable with this name already declared in this scope."
  const OwnInitializer := "Cannot read local variable in its own initializer."
  const TopLevelReturn := "Cannot return from top-level code."
  const InitializerReturn := "Cannot return a value from an initializer."
  const SuperOutsideClass := "Cannot use 'super' outside of a class."
  const SuperWithoutSuperclass := "Cannot use 'super' in a class with no superclass."
  const ThisOutsideClass := "Cannot use 'this' outside of a class."

  /** The context the host's resolver starts in: no scope, outside any function and class. */
  const TopLevel := Context([], NoFunction, NoClass)

  // ---------------------------------------------------------------------------------------
  // Scope operations

  function BeginScope(ctx: Context): (r: Context)
    ensures |r.scopes| == |ctx.scopes| + 1 && r.scopes[0] == map[] && r.scopes[1..] == ctx.scopes
    ensures r.currentFunction == ctx.currentFunction && r.currentClass == ctx.currentClass
  {
    ctx.(scopes := [map[]] + ctx.scopes)
  }

  function EndScope(ctx: Context): (r: Context)
    requires |ctx.scopes| > 0
    ensures r.scopes == ctx.scopes[1..]
    ensures r.currentFunction == ctx.currentFunction && r.currentClass == ctx.currentClass
  {
    ctx.(scopes := ctx.scopes[1..])
  }

  /** The innermost scope with `name` set to `value`; no scope means no change. */
  function Mark(ctx: Context, name: string, value: bool): (r: Context)
    ensures |r.scopes| == |ctx.scopes| && (ctx.scopes != [] ==> r.scopes[1..] == ctx.scopes[1..])
    ensures r.currentFunction == ctx.currentFunction && r.currentClass == ctx.currentClass
    ensures ctx.scopes == [] ==> r == ctx
    ensures ctx.scopes != [] ==> r.scopes[0] == ctx.scopes[0][name := value]
  {
    if ctx.scopes == [] then ctx else ctx.(scopes := [ctx.scopes[0][name := value]] + ctx.scopes[1..])
  }

  /**
   * `Declare`: nothing at top level. In a scope, a name the innermost scope already has is
   * reported, and either way the name is (re)set to not yet initialised.
   */
  function Declare(ctx: Context, name: Token): (r: (Context, seq<Effect>))
    ensures r.0 == Mark(ctx, name.lexeme, false)
    ensures r.1 == if ctx.scopes != [] && name.lexeme in ctx.scopes[0] then [Report(name, AlreadyDeclared)] else []
  {
    if ctx.scopes == [] then (ctx, [])
    else if name.lexeme in ctx.scopes[0] then (Mark(ctx, name.lexeme, false), [Report(name, AlreadyDeclared)])
    else (Mark(ctx, name.lexeme, false), [])
  }

  /** `Define`: nothing at top level; in a scope, the name is marked initialised. */
  function Define(ctx: Context, name: Token): Context
  {
    Mark(ctx, name.lexeme, true)
  }

  /** `IsDeclaredExact`: whether the innermost scope maps the name to `value`; `None` if it lacks it. */
  function IsDeclaredExact(ctx: Context, name: string, value: bool): (r: Option<bool>)
    ensures r.Some? <==> ctx.scopes != [] && name in ctx.scopes[0]
    ensures r == Some(true) <==> ctx.scopes != [] && name in ctx.scopes[0] && ctx.scopes[0][name] == value
  {
    if ctx.scopes != [] && name in ctx.scopes[0] then Some(ctx.scopes[0][name] == value) else None
  }

  /** The loop of `ResolveLocal` from index `i`: the first scope, innermost first, that has the name. */
  function FindDepth(scopes: seq<Scope>, name: string, i: nat): (r: Option<nat>)
    ensures r.Some? ==> i <= r.value < |scopes| && name in scopes[r.value]
    ensures r.Some? ==> forall j :: i <= j < r.value ==> name !in scopes[j]
    ensures r.None? ==> forall j :: i <= j < |scopes| ==> name !in scopes[j]
    decreases |scopes| - i
  {
    if i >= |scopes| then None
    else if name in scopes[i] then Some(i)
    else FindDepth(scopes, name, i + 1)
  }

  /**
   * `ResolveLocal`: annotates the reference with the index of the innermost scope that has
   * the name (0 is the innermost); a name no scope has is left to the globals, unannotated.
   */
  function ResolveLocal(ctx: Context, id: ExprId, name: Token): (r: seq<Effect>)
    ensures |r| <= 1
    ensures r == [] <==> forall j :: 0 <= j < |ctx.scopes| ==> name.lexeme !in ctx.scopes[j]
    ensures forall d: nat :: r == [Annotate(id, d)] <==>
              d < |ctx.scopes| && name.lexeme in ctx.scopes[d]
              && forall j :: 0 <= j < d ==> name.lexeme !in ctx.scopes[j]
  {
    match FindDepth(ctx.scopes, name.lexeme, 0)
    case Some(d) => [Annotate(id, d)]
    case None => []
  }

  // ---------------------------------------------------------------------------------------
  // Expressions: they read the context and never change it.

  function ResolveExpr(e: Expr, ctx: Context): (r: seq<Effect>)
    ensures forall k :: 0 <= k < |r| && r[k].Annotate? ==> r[k].depth < |ctx.scopes|
    decreases e
  {
    match e
    case Assign(id, name, value) => ResolveExpr(value, ctx) + ResolveLocal(ctx, id, name)
    case Binary(_, left, _, right) => ResolveExpr(left, ctx) + ResolveExpr(right, ctx)
    case Call(_, callee, _, arguments) => ResolveExpr(callee, ctx) + ResolveExprs(arguments, ctx)
    case Get(_, obj, _) => ResolveExpr(obj, ctx)
    case Grouping(_, inner) => ResolveExpr(inner, ctx)
    case Literal(_, _) => []
    case Logical(_, left, _, right) => ResolveExpr(left, ctx) + ResolveExpr(right, ctx)
    case Set(_, obj, _, value) => ResolveExpr(value, ctx) + ResolveExpr(obj, ctx)
    case Super(id, keyword, _) =>
      var check :=
        if ctx.currentClass == NoClass then [Report(keyword, SuperOutsideClass)]
        else if ctx.currentClass != Subclass then [Report(keyword, SuperWithoutSuperclass)]
        else [];
      check + ResolveLocal(ctx, id, keyword)
    case This(id, keyword) =>
      if ctx.currentClass == NoClass then [Report(keyword, ThisOutsideClass)]
      else ResolveLocal(ctx, id, keyword)
    case Unary(_, _, right) => ResolveExpr(right, ctx)
    case Variable(id, name) =>
      var check := if IsDeclaredExact(ctx, name.lexeme, false) == Some(true) then [Report(name, OwnInitializer)] else [];
      check + ResolveLocal(ctx, id, name)
  }

  function ResolveExprs(es: seq<Expr>, ctx: Context): (r: seq<Effect>)
    ensures forall k :: 0 <= k < |r| && r[k].Annotate? ==> r[k].depth < |ctx.scopes|
    decreases es
  {
    if es == [] then [] else ResolveExpr(es[0], ctx) + ResolveExprs(es[1..], ctx)
  }

  // ---------------------------------------------------------------------------------------
  // Statements

  /**
   * How a statement leaves the context: the same number of scopes, every scope but the
   * innermost untouched, the innermost one only gaining names, and the same function and
   * class kinds.
   */
  ghost predicate Restores(ctx: Context, r: Context)
  {
    |r.scopes| == |ctx.scopes|
    && (forall i :: 1 <= i < |ctx.scopes| ==> r.scopes[i] == ctx.scopes[i])
    && (ctx.scopes != [] ==> ctx.scopes[0].Keys <= r.scopes[0].Keys)
    && r.currentFunction == ctx.currentFunction && r.currentClass == ctx.currentClass
  }

  function ResolveStmt(s: Stmt, ctx: Context): (r: (Context, seq<Effect>))
    ensures Restores(ctx, r.0)
    ensures s.Block? ==> r.0 == ctx
    decreases s, 1
  {
    match s
    case Block(statements) =>
      var (inner, effects) := ResolveAll(statements, BeginScope(ctx));
      (EndScope(inner), effects)
    case Class(name, superclass, methods) => ResolveClass(name, superclass, methods, ctx)
    case Expression(e) => (ctx, ResolveExpr(e, ctx))
    case Function(decl) =>
      var (c1, declared) := Declare(ctx, decl.name);
      var (c2, effects) := ResolveFunction(decl, PlainFunction, Define(c1, decl.name));
      (c2, declared + effects)
    case If(condition, thenBranch, elseBranch) => ResolveIf(condition, thenBranch, elseBranch, ctx)
    case Print(e) => (ctx, ResolveExpr(e, ctx))
    case Return(keyword, value) =>
      var e1 := if ctx.currentFunction == NoFunction then [Report(keyword, TopLevelReturn)] else [];
      var e2 :=
        if value.Some? then
          (if ctx.currentFunction == Initializer then [Report(keyword, InitializerReturn)] else [])
          + ResolveExpr(value.value, ctx)
        else [];
      (ctx, e1 + e2)
    case Var(name, initializer) =>
      var (c1, declared) := Declare(ctx, name);
      var e1 := if initializer.Some? then ResolveExpr(initializer.value, c1) else [];
      (Define(c1, name), declared + e1)
    case While(condition, body) =>
      var (c1, e2) := ResolveStmt(body, ctx);
      (c1, ResolveExpr(condition, ctx) + e2)
  }

  /** `if`: the condition, the then-branch, and the else-branch when there is one. */
  function ResolveIf(condition: Expr, thenBranch: Stmt, elseBranch: Option<Stmt>, ctx: Context): (r: (Context, seq<Effect>))
    ensures Restores(ctx, r.0)
    decreases Stmt.If(condition, thenBranch, elseBranch), 0
  {
    var e1 := ResolveExpr(condition, ctx);
    var (c1, e2) := ResolveStmt(thenBranch, ctx);
    if elseBranch.Some? then
      var (c2, e3) := ResolveStmt(elseBranch.value, c1);
      (c2, e1 + e2 + e3)
    else (c1, e1 + e2)
  }

  /**
   * A class: its name is declared and defined in the enclosing scope; with a superclass,
   * the superclass expression is resolved and a scope holding `super` opened; then a scope
   * holding `this` surrounds all the methods.
   */
  function ResolveClass(name: Token, superclass: Option<Expr>, methods: seq<FunctionDecl>, ctx: Context): (r: (Context, seq<Effect>))
    ensures Restores(ctx, r.0)
    decreases Stmt.Class(name, superclass, methods), 0
  {
    var (c1, declared) := Declare(ctx, name);
    var c2 := Define(c1, name);
    var c3 := c2.(currentClass := if superclass.Some? then Subclass else PlainClass);
    var superEffects := if superclass.Some? then ResolveExpr(superclass.value, c3) else [];
    var c4 := if superclass.Some? then Mark(BeginScope(c3), "super", true) else c3;
    var c5 := Mark(BeginScope(c4), "this", true);
    var (c6, methodEffects) := ResolveMethods(methods, c5);
    var c7 := EndScope(c6);
    var c8 := if superclass.Some? then EndScope(c7) else c7;
    (c8.(currentClass := ctx.currentClass), declared + superEffects + methodEffects)
  }

  /** `Resolve(List<Stmt>)`: the statements in order, each in the context the previous left. */
  function ResolveAll(statements: seq<Stmt>, ctx: Context): (r: (Context, seq<Effect>))
    ensures Restores(ctx, r.0)
    decreases statements
  {
    if statements == [] then (ctx, [])
    else
      var (c1, e1) := ResolveStmt(statements[0], ctx);
      var (c2, e2) := ResolveAll(statements[1..], c1);
      (c2, e1 + e2)
  }

  /** The methods of a class in order, `init` as an initializer and the others as methods. */
  function ResolveMethods(methods: seq<FunctionDecl>, ctx: Context): (r: (Context, seq<Effect>))
    ensures r.0 == ctx
    decreases methods
  {
    if methods == [] then (ctx, [])
    else
      var kind := if methods[0].name.lexeme == "init" then Initializer else Method;
      var (c1, e1) := ResolveFunction(methods[0], kind, ctx);
      var (c2, e2) := ResolveMethods(methods[1..], c1);
      (c2, e1 + e2)
  }

  /** The parameters, each declared and then defined in the innermost scope. */
  function DeclareParameters(params: seq<Token>, ctx: Context): (r: (Context, seq<Effect>))
    requires ctx.scopes != []
    ensures |r.0.scopes| == |ctx.scopes| && r.0.scopes[1..] == ctx.scopes[1..]
    ensures r.0.currentFunction == ctx.currentFunction && r.0.currentClass == ctx.currentClass
    ensures r.0.scopes[0].Keys == ctx.scopes[0].Keys + (set p | p in params :: p.lexeme)
    ensures forall p :: p in params ==> r.0.scopes[0][p.lexeme]
    ensures forall n :: n in ctx.scopes[0] && n !in (set p | p in params :: p.lexeme) ==>
              r.0.scopes[0][n] == ctx.scopes[0][n]
    decreases params
  {
    if params == [] then (ctx, [])
    else
      var (c1, e1) := Declare(ctx, params[0]);
      var (c2, e2) := DeclareParameters(params[1..], Define(c1, params[0]));
      assert (set p | p in params :: p.lexeme) == {params[0].lexeme} + (set p | p in params[1..] :: p.lexeme);
      (c2, e1 + e2)
  }

  /**
   * `ResolveFunction`: one new scope holding the parameters and, with them, the body's
   * top-level declarations; the function kind is set for the body and restored after it.
   */
  function ResolveFunction(decl: FunctionDecl, kind: FunctionType, ctx: Context): (r: (Context, seq<Effect>))
    ensures r.0 == ctx
    decreases decl
  {
    var c1 := BeginScope(ctx.(currentFunction := kind));
    var (c2, e1) := DeclareParameters(decl.params, c1);
    var (c3, e2) := ResolveAll(decl.body, c2);
    (EndScope(c3).(currentFunction := ctx.currentFunction), e1 + e2)
  }

  // ---------------------------------------------------------------------------------------
  // Properties

  /** Resolving `a + b` is resolving `a`, then `b` in the context `a` left. */
  lemma {:induction false} ResolveAllAppend(a: seq<Stmt>, b: seq<Stmt>, ctx: Context)
    ensures ResolveAll(a + b, ctx)
            == (ResolveAll(b, ResolveAll(a, ctx).0).0, ResolveAll(a, ctx).1 + ResolveAll(b, ResolveAll(a, ctx).0).1)
    decreases a
  {
    if a == [] {
      assert a + b == b;
      assert [] + ResolveAll(b, ctx).1 == ResolveAll(b, ctx).1;
    } else {
      assert (a + b)[0] == a[0] && (a + b)[1..] == a[1..] + b;
      var first := ResolveStmt(a[0], ctx);
      ResolveAllAppend(a[1..], b, first.0);
      var rest := ResolveAll(a[1..], first.0);
      var after := ResolveAll(b, rest.0);
      assert ResolveAll(a, ctx) == (rest.0, first.1 + rest.1);
      assert ResolveAll(a + b, ctx) == (after.0, first.1 + (rest.1 + after.1));
      assert first.1 + (rest.1 + after.1) == (first.1 + rest.1) + after.1;
    }
  }

  /**
   * Every visit restores the context, so a program resolved from the top level ends at the
   * top level, and resolving it a second time gives the same annotations and diagnostics.
   */
  lemma ResolvingTwice(statements: seq<Stmt>)
    ensures ResolveAll(statements, TopLevel).0 == TopLevel
    ensures var e := ResolveAll(statements, TopLevel).1;
            ResolveAll(statements + statements, TopLevel).1 == e + e
  {
    ResolveAllAppend(statements, statements, TopLevel);
  }

  /** Outside every scope there is nothing to annotate: top-level names are left to the globals. */
  lemma TopLevelNamesUnannotated(e: Expr, ctx: Context)
    requires ctx.scopes == []
    ensures forall k :: 0 <= k < |ResolveExpr(e, ctx)| ==> ResolveExpr(e, ctx)[k].Report?
  {
  }

  /**
   * `var a = a;` in a scope: the read finds `a` declared but not yet defined, which is
   * reported, and the read is still annotated, with distance 0.
   */
  lemma OwnInitializerReported(name: Token, id: ExprId, read: Token, ctx: Context)
    requires ctx.scopes != [] && read.lexeme == name.lexeme
    ensures var (_, effects) := ResolveStmt(Stmt.Var(name, Some(Variable(id, read))), ctx);
            effects == Declare(ctx, name).1 + [Report(read, OwnInitializer), Annotate(id, 0)]
  {
    var c1 := Declare(ctx, name).0;
    assert IsDeclaredExact(c1, read.lexeme, false) == Some(true);
    assert ResolveLocal(c1, id, read) == [Annotate(id, 0)];
    assert ResolveExpr(Variable(id, read), c1) == [Report(read, OwnInitializer), Annotate(id, 0)];
    assert ResolveStmt(Stmt.Var(name, Some(Variable(id, read))), ctx).1
           == Declare(ctx, name).1 + ResolveExpr(Variable(id, read), c1);
  }

  /**
   * Inside a method, `this` is one scope out: the method's own scope holds the parameters,
   * and the scope around all methods holds `this`.
   */
  lemma ThisInMethodAtDistanceOne(className: Token, m: FunctionDecl, id: ExprId, keyword: Token, ctx: Context)
    requires keyword.lexeme == "this" && forall p :: p in m.params ==> p.lexeme != "this"
    requires m.body == [Expression(Expr.This(id, keyword))]
    ensures Annotate(id, 1) in ResolveStmt(Stmt.Class(className, None, [m]), ctx).1
  {
    var c1 := Declare(ctx, className).0;
    var c3 := Define(c1, className).(currentClass := PlainClass);
    var c5 := Mark(BeginScope(c3), "this", true);
    var kind := if m.name.lexeme == "init" then Initializer else Method;
    ThisOneScopeOut(m, kind, c5, id, keyword);
    assert [m][1..] == [];
    assert ResolveMethods([m], c5).1 == ResolveFunction(m, kind, c5).1;
  }

  /** The body of a function resolved where the innermost scope holds `this`. */
  lemma ThisOneScopeOut(m: FunctionDecl, kind: FunctionType, ctx: Context, id: ExprId, keyword: Token)
    requires keyword.lexeme == "this" && forall p :: p in m.params ==> p.lexeme != "this"
    requires m.body == [Expression(Expr.This(id, keyword))]
    requires ctx.scopes != [] && "this" in ctx.scopes[0] && ctx.currentClass != NoClass
    ensures Annotate(id, 1) in ResolveFunction(m, kind, ctx).1
  {
    var f1 := BeginScope(ctx.(currentFunction := kind));
    var declared := DeclareParameters(m.params, f1);
    var f2 := declared.0;
    assert f2.scopes[1] == ctx.scopes[0];
    assert "this" !in (set p | p in m.params :: p.lexeme);
    ThisInBody(f2, id, keyword);
    assert ResolveFunction(m, kind, ctx).1 == declared.1 + ResolveAll(m.body, f2).1;
  }

  /** A body `this;` resolved where `this` is not in the innermost scope but in the next. */
  lemma ThisInBody(ctx: Context, id: ExprId, keyword: Token)
    requires keyword.lexeme == "this" && ctx.currentClass != NoClass
    requires |ctx.scopes| >= 2 && "this" !in ctx.scopes[0] && "this" in ctx.scopes[1]
    ensures ResolveAll([Expression(Expr.This(id, keyword))], ctx).1 == [Annotate(id, 1)]
  {
    assert ResolveLocal(ctx, id, keyword) == [Annotate(id, 1)];
    assert [Expression(Expr.This(id, keyword))][1..] == [];
  }

  /**
   * The checks on `return`: outside every function it is reported as a top-level return,
   * and a value returned from an initializer is reported; the returned expression itself
   * never makes either report.
   */
  lemma ReturnChecks(keyword: Token, value: Option<Expr>, ctx: Context)
    ensures var effects := ResolveStmt(Stmt.Return(keyword, value), ctx).1;
            (Report(keyword, TopLevelReturn) in effects <==> ctx.currentFunction == NoFunction)
            && (Report(keyword, InitializerReturn) in effects <==> value.Some? && ctx.currentFunction == Initializer)
  {
    if value.Some? {
      ResolvedExprReportsFrom(value.value, ctx);
    }
  }

  /**
   * The checks on `this` and `super`. Outside a class, `this` is reported and left without
   * annotation; inside one it is resolved like a name. `super` is reported outside a class
   * and in a class without superclass, and is resolved in every case.
   */
  lemma ThisAndSuperChecks(id: ExprId, keyword: Token, methodName: Token, ctx: Context)
    ensures var effects := ResolveExpr(Expr.This(id, keyword), ctx);
            && (ctx.currentClass == NoClass ==> effects == [Report(keyword, ThisOutsideClass)])
            && (ctx.currentClass != NoClass ==> effects == ResolveLocal(ctx, id, keyword))
    ensures var effects := ResolveExpr(Expr.Super(id, keyword, methodName), ctx);
            && (Report(keyword, SuperOutsideClass) in effects <==> ctx.currentClass == NoClass)
            && (Report(keyword, SuperWithoutSuperclass) in effects <==> ctx.currentClass == PlainClass)
            && forall d: nat :: Annotate(id, d) in effects <==> ResolveLocal(ctx, id, keyword) == [Annotate(id, d)]
  {
  }

  /**
   * A name that is read or assigned is annotated with the distance `ResolveLocal` finds for
   * it and with no other; for an assignment this needs the value's nodes to carry other ids,
   * as the parser's numbering gives them.
   */
  lemma NameReferencesAnnotated(id: ExprId, name: Token, value: Expr, ctx: Context)
    ensures forall d: nat :: Annotate(id, d) in ResolveExpr(Variable(id, name), ctx)
              <==> ResolveLocal(ctx, id, name) == [Annotate(id, d)]
    ensures id !in Ids(value) ==>
              forall d: nat :: Annotate(id, d) in ResolveExpr(Assign(id, name, value), ctx)
                <==> ResolveLocal(ctx, id, name) == [Annotate(id, d)]
  {
    AnnotationsOfOwnNodes(value, ctx);
  }

  /** An assignment resolves its value before its name: the value's annotations come first. */
  lemma AssignResolvesValueFirst(id: ExprId, name: Token, value: Expr, ctx: Context)
    requires id !in Ids(value)
    ensures var r := ResolveExpr(Assign(id, name, value), ctx);
            forall i, j ::
              0 <= i < |r| && 0 <= j < |r| && r[i].Annotate? && r[i].id in Ids(value) && r[j].Annotate? && r[j].id == id
              ==> i < j
  {
    AnnotationsOfOwnNodes(value, ctx);
  }

  /** A property set resolves the assigned value before the object: the value's annotations come first. */
  lemma SetResolvesValueFirst(id: ExprId, obj: Expr, name: Token, value: Expr, ctx: Context)
    requires Ids(obj) !! Ids(value)
    ensures var r := ResolveExpr(Set(id, obj, name, value), ctx);
            forall i, j ::
              0 <= i < |r| && 0 <= j < |r| && r[i].Annotate? && r[i].id in Ids(value) && r[j].Annotate? && r[j].id in Ids(obj)
              ==> i < j
  {
    AnnotationsOfOwnNodes(value, ctx);
    AnnotationsOfOwnNodes(obj, ctx);
  }

  /**
   * A method is an initializer exactly when it is named `init`: in a class whose one method
   * begins by returning a value, that return is reported exactly when the method is `init`.
   */
  lemma InitializerReturnInClass(className: Token, m: FunctionDecl, keyword: Token, value: Expr, ctx: Context)
    requires m.body == [Stmt.Return(keyword, Some(value))]
    ensures Report(keyword, InitializerReturn) in ResolveStmt(Stmt.Class(className, None, [m]), ctx).1
            <==> m.name.lexeme == "init"
  {
    var (c1, declared) := Declare(ctx, className);
    var c3 := Define(c1, className).(currentClass := PlainClass);
    var c5 := Mark(BeginScope(c3), "this", true);
    var kind := if m.name.lexeme == "init" then Initializer else Method;
    ValuedReturnInFunction(m, kind, keyword, value, c5);
    assert [m][1..] == [];
    assert ResolveMethods([m], c5).1 == ResolveFunction(m, kind, c5).1;
  }

  /** Declaring parameters reports nothing but names already declared. */
  lemma {:induction false} ParametersReportDuplicates(params: seq<Token>, ctx: Context)
    requires ctx.scopes != []
    ensures forall x :: x in DeclareParameters(params, ctx).1 ==> x.Report? && x.message == AlreadyDeclared
    decreases params
  {
    if params != [] {
      ParametersReportDuplicates(params[1..], Define(Declare(ctx, params[0]).0, params[0]));
    }
  }

  /** A function whose body starts by returning a value: the return is reported exactly in an initializer. */
  lemma ValuedReturnInFunction(m: FunctionDecl, kind: FunctionType, keyword: Token, value: Expr, ctx: Context)
    requires m.body == [Stmt.Return(keyword, Some(value))]
    ensures Report(keyword, InitializerReturn) in ResolveFunction(m, kind, ctx).1 <==> kind == Initializer
  {
    var f1 := BeginScope(ctx.(currentFunction := kind));
    var declared := DeclareParameters(m.params, f1);
    var f2 := declared.0;
    ParametersReportDuplicates(m.params, f1);
    ReturnChecks(keyword, Some(value), f2);
    assert ResolveAll(m.body, f2).1 == ResolveStmt(m.body[0], f2).1;
    assert ResolveFunction(m, kind, ctx).1 == declared.1 + ResolveAll(m.body, f2).1;
  }

  /** Expressions report only `this`/`super` misuse and reads in an own initializer. */
  lemma {:induction false} ResolvedExprReportsFrom(e: Expr, ctx: Context)
    ensures forall k :: 0 <= k < |ResolveExpr(e, ctx)| && ResolveExpr(e, ctx)[k].Report? ==>
              ResolveExpr(e, ctx)[k].message in {OwnInitializer, SuperOutsideClass, SuperWithoutSuperclass, ThisOutsideClass}
    decreases e, 1
  {
    match e
    case Assign(_, _, value) => ResolvedExprReportsFrom(value, ctx);
    case Binary(_, left, _, right) => ResolvedExprReportsFrom(left, ctx); ResolvedExprReportsFrom(right, ctx);
    case Call(_, callee, _, arguments) => ResolvedExprReportsFrom(callee, ctx); ResolvedExprsReportFrom(arguments, ctx);
    case Get(_, obj, _) => ResolvedExprReportsFrom(obj, ctx);
    case Grouping(_, inner) => ResolvedExprReportsFrom(inner, ctx);
    case Literal(_, _) =>
    case Logical(_, left, _, right) => ResolvedExprReportsFrom(left, ctx); ResolvedExprReportsFrom(right, ctx);
    case Set(_, obj, _, value) => ResolvedExprReportsFrom(value, ctx); ResolvedExprReportsFrom(obj, ctx);
    case Super(_, _, _) =>
    case This(_, _) =>
    case Unary(_, _, right) => ResolvedExprReportsFrom(right, ctx);
    case Variable(_, _) =>
  }

  lemma {:induction false} ResolvedExprsReportFrom(es: seq<Expr>, ctx: Context)
    ensures forall k :: 0 <= k < |ResolveExprs(es, ctx)| && ResolveExprs(es, ctx)[k].Report? ==>
              ResolveExprs(es, ctx)[k].message in {OwnInitializer, SuperOutsideClass, SuperWithoutSuperclass, ThisOutsideClass}
    decreases es, 0
  {
    if es != [] {
      ResolvedExprReportsFrom(es[0], ctx);
      ResolvedExprsReportFrom(es[1..], ctx);
    }
  }

  /** Resolving an expression annotates only nodes of that expression. */
  lemma {:induction false} AnnotationsOfOwnNodes(e: Expr, ctx: Context)
    ensures forall k :: 0 <= k < |ResolveExpr(e, ctx)| && ResolveExpr(e, ctx)[k].Annotate? ==>
              ResolveExpr(e, ctx)[k].id in Ids(e)
    decreases e, 1
  {
    match e
    case Assign(_, _, value) => AnnotationsOfOwnNodes(value, ctx);
    case Binary(_, left, _, right) => AnnotationsOfOwnNodes(left, ctx); AnnotationsOfOwnNodes(right, ctx);
    case Call(_, callee, _, arguments) => AnnotationsOfOwnNodes(callee, ctx); ArgumentAnnotationsOfOwnNodes(arguments, ctx);
    case Get(_, obj, _) => AnnotationsOfOwnNodes(obj, ctx);
    case Grouping(_, inner) => AnnotationsOfOwnNodes(inner, ctx);
    case Literal(_, _) =>
    case Logical(_, left, _, right) => AnnotationsOfOwnNodes(left, ctx); AnnotationsOfOwnNodes(right, ctx);
    case Set(_, obj, _, value) => AnnotationsOfOwnNodes(value, ctx); AnnotationsOfOwnNodes(obj, ctx);
    case Super(_, _, _) =>
    case This(_, _) =>
    case Unary(_, _, right) => AnnotationsOfOwnNodes(right, ctx);
    case Variable(_, _) =>
  }

  /** Resolving an argument list annotates only nodes of the arguments. */
  lemma {:induction false} ArgumentAnnotationsOfOwnNodes(es: seq<Expr>, ctx: Context)
    ensures forall k :: 0 <= k < |ResolveExprs(es, ctx)| && ResolveExprs(es, ctx)[k].Annotate? ==>
              ResolveExprs(es, ctx)[k].id in IdsOfAll(es)
    decreases es, 0
  {
    if es != [] {
      AnnotationsOfOwnNodes(es[0], ctx);
      ArgumentAnnotationsOfOwnNodes(es[1..], ctx);
    }
  }
}
