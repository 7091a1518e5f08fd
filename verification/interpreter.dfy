/**
 * The tree-walking evaluator (src/Interpreter/Interpreter.cs) of this snapshot: literals,
 * grouping, unary and binary operators, short-circuit logic, variables and assignment;
 * expression, `print`, `var`, block and `if` statements. The remaining visitors throw the
 * host's NotImplementedException, which is `Crash(NotImplemented)` here.
 *
 * The interpreter's mutable fields become an explicit `State`: the heap, the current frame
 * (`_environment`) and the lines `print` has written.
 */
module Interpreter {
  import opened Common
  import opened Tokens
  import opened Exprs
  import opened Stmts
  import opened Values
  import opened Environment
  import opened Runtime
  import LoxFunctions
  import LoxClasses
  import LoxInstances

  /**
   * The host's double arithmetic, comparisons, `Equals` and `ToString`, which the model
   * leaves uninterpreted.
   */
  datatype Arithmetic = Arithmetic(
    add: (Number, Number) -> Number,
    subtract: (Number, Number) -> Number,
    multiply: (Number, Number) -> Number,
    divide: (Number, Number) -> Number,
    negate: Number -> Number,
    greater: (Number, Number) -> bool,
    greaterEqual: (Number, Number) -> bool,
    less: (Number, Number) -> bool,
    lessEqual: (Number, Number) -> bool,
    equals: (Number, Number) -> bool,
    format: Number -> string)

  datatype State = State(heap: Heap, current: FrameId, output: seq<string>)

  /** A value names no object beyond the first `n`. */
  predicate RefBelow(v: Value, n: nat)
  {
    v.Ref? ==> v.id < n
  }

  /** Every value bound in a frame names an existing object. */
  ghost predicate RefsBelow(fs: Frames, n: nat)
  {
    forall g, k :: 0 <= g < |fs| && k in fs[g].values ==> RefBelow(fs[g].values[k], n)
  }

  /** The interpreter's invariant: a valid heap, an existing current frame, no dangling references. */
  ghost predicate Consistent(st: State)
  {
    Runtime.Valid(st.heap) && st.current < |st.heap.frames|
    && RefsBelow(st.heap.frames, |st.heap.objects|)
  }

  /** Frames keep their parents and the names they bind; only their values may change. */
  ghost predicate Shape(fs: Frames, fs': Frames, except: int)
  {
    |fs'| >= |fs|
    && forall g :: 0 <= g < |fs| && g != except ==>
         fs'[g].enclosing == fs[g].enclosing && fs'[g].values.Keys == fs[g].values.Keys
  }

  // ---------------------------------------------------------------------------------------
  // Value rules

  /** `IsTruthy`: nil and false are falsy; every other value, 0 and "" included, is truthy. */
  function IsTruthy(v: Value): (r: bool)
    ensures !r <==> v == Value.Nil || v == Bool(false)
  {
    match v
    case Nil => false
    case Bool(b) => b
    case _ => true
  }

  /** The host type of a value, which `Equals` compares first. */
  function TypeOf(v: Value): nat
  {
    match v
    case Nil => 0
    case Bool(_) => 1
    case Num(_) => 2
    case Str(_) => 3
    case Ref(_) => 4
  }

  /**
   * `IsEqual`: nil equals only nil; otherwise the host's `Equals`, which holds only between
   * values of the same type: doubles by the host's double equality, strings by content,
   * functions, classes and instances by identity.
   */
  function IsEqual(a: Value, b: Value, ar: Arithmetic): (r: bool)
    ensures r ==> TypeOf(a) == TypeOf(b)
    ensures a.Nil? || b.Nil? ==> (r <==> a.Nil? && b.Nil?)
    ensures !a.Num? ==> (r <==> a == b)
  {
    match (a, b)
    case (Nil, Nil) => true
    case (Nil, _) => false
    case (Bool(x), Bool(y)) => x == y
    case (Num(x), Num(y)) => ar.equals(x, y)
    case (Str(x), Str(y)) => x == y
    case (Ref(x), Ref(y)) => x == y
    case _ => false
  }

  function NumberOperandsError(op: Token): RuntimeError
  {
    RuntimeError(op, "Operands must be numbers.")
  }

  function PlusOperandsError(op: Token): RuntimeError
  {
    RuntimeError(op, "Operands must be two numbers or two strings.")
  }

  /** A comparison or arithmetic operator whose operands `CheckNumberOperands` checks. */
  predicate NumericOperator(kind: TokenType)
  {
    kind == Greater || kind == GreaterEqual || kind == Less || kind == LessEqual
    || kind == Minus || kind == Slash || kind == Star
  }

  /** The binary operators once both operands are values (the `switch` of `VisitBinaryExpr`). */
  function BinaryOp(op: Token, l: Value, r: Value, ar: Arithmetic): (c: Completion<Value>)
    ensures !c.Returning? && !c.Crash?
    ensures NumericOperator(op.kind) ==>
              (c.Failure? <==> !(l.Num? && r.Num?)) && (c.Failure? ==> c.error == NumberOperandsError(op))
    ensures op.kind == Plus ==>
              (c.Failure? <==> !(l.Num? && r.Num?) && !(l.Str? && r.Str?))
              && (c.Failure? ==> c.error == PlusOperandsError(op))
              && (l.Str? && r.Str? ==> c == Normal(Str(l.s + r.s)))
    ensures op.kind == EqualEqual ==> c == Normal(Bool(IsEqual(l, r, ar)))
    ensures op.kind == BangEqual ==> c == Normal(Bool(!IsEqual(l, r, ar)))
    ensures l.Num? && r.Num? ==>
              (op.kind == Greater ==> c == Normal(Bool(ar.greater(l.n, r.n))))
              && (op.kind == GreaterEqual ==> c == Normal(Bool(ar.greaterEqual(l.n, r.n))))
              && (op.kind == Less ==> c == Normal(Bool(ar.less(l.n, r.n))))
              && (op.kind == LessEqual ==> c == Normal(Bool(ar.lessEqual(l.n, r.n))))
              && (op.kind == Minus ==> c == Normal(Num(ar.subtract(l.n, r.n))))
              && (op.kind == Plus ==> c == Normal(Num(ar.add(l.n, r.n))))
              && (op.kind == Slash ==> c == Normal(Num(ar.divide(l.n, r.n))))
              && (op.kind == Star ==> c == Normal(Num(ar.multiply(l.n, r.n))))
    ensures c.Normal? ==> !c.value.Ref?
  {
    match op.kind
    case Greater => if l.Num? && r.Num? then Normal(Bool(ar.greater(l.n, r.n))) else Failure(NumberOperandsError(op))
    case GreaterEqual => if l.Num? && r.Num? then Normal(Bool(ar.greaterEqual(l.n, r.n))) else Failure(NumberOperandsError(op))
    case Less => if l.Num? && r.Num? then Normal(Bool(ar.less(l.n, r.n))) else Failure(NumberOperandsError(op))
    case LessEqual => if l.Num? && r.Num? then Normal(Bool(ar.lessEqual(l.n, r.n))) else Failure(NumberOperandsError(op))
    case BangEqual => Normal(Bool(!IsEqual(l, r, ar)))
    case EqualEqual => Normal(Bool(IsEqual(l, r, ar)))
    case Minus => if l.Num? && r.Num? then Normal(Num(ar.subtract(l.n, r.n))) else Failure(NumberOperandsError(op))
    case Plus =>
      if l.Num? && r.Num? then Normal(Num(ar.add(l.n, r.n)))
      else if l.Str? && r.Str? then Normal(Str(l.s + r.s))
      else Failure(PlusOperandsError(op))
    case Slash => if l.Num? && r.Num? then Normal(Num(ar.divide(l.n, r.n))) else Failure(NumberOperandsError(op))
    case Star => if l.Num? && r.Num? then Normal(Num(ar.multiply(l.n, r.n))) else Failure(NumberOperandsError(op))
    case _ => Normal(Value.Nil)
  }

  /**
   * The unary operators once the operand is a value. `-` casts without a check, so a
   * non-number operand is a host exception, never a runtime error.
   */
  function UnaryOp(op: Token, v: Value, ar: Arithmetic): (c: Completion<Value>)
    ensures !c.Returning? && !c.Failure?
    ensures op.kind == Bang ==> c == Normal(Bool(!IsTruthy(v)))
    ensures op.kind == Minus ==>
              (v.Num? ==> c == Normal(Num(ar.negate(v.n))))
              && (v.Nil? ==> c == Crash(NullReference))
              && (!v.Num? && !v.Nil? ==> c == Crash(InvalidCast))
    ensures c.Normal? ==> !c.value.Ref?
  {
    match op.kind
    case Bang => Normal(Bool(!IsTruthy(v)))
    case Minus =>
      (match v
       case Num(n) => Normal(Num(ar.negate(n)))
       case Nil => Crash(NullReference)
       case _ => Crash(InvalidCast))
    case _ => Normal(Value.Nil)
  }

  /**
   * `Stringify`: "nil" for nil; a double's host text without a trailing ".0"; the host's
   * `ToString` of anything else: `True`/`False`, the string itself, "<fn name>", the class
   * name, "<class name> instance".
   */
  function Stringify(v: Value, h: Heap, ar: Arithmetic): (r: string)
    requires RefBelow(v, |h.objects|)
    ensures v.Num? && |ar.format(v.n)| >= 2 && ar.format(v.n)[|ar.format(v.n)| - 2..] == ".0" ==>
              r + ".0" == ar.format(v.n)
  {
    match v
    case Nil => "nil"
    case Bool(b) => if b then "True" else "False"
    case Num(n) =>
      var text := ar.format(n);
      if |text| >= 2 && text[|text| - 2..] == ".0" then text[..|text| - 2] else text
    case Str(s) => s
    case Ref(id) =>
      match h.objects[id]
      case FunctionObject(fn) => LoxFunctions.ToString(fn)
      case ClassObject(k) => LoxClasses.ToString(k)
      case InstanceObject(_, _) => LoxInstances.ToString(h, id)
  }

  // ---------------------------------------------------------------------------------------
  // Expressions

  /** `Evaluate`: expressions never change the current frame, the output or the objects. */
  function Evaluate(e: Expr, st: State, ar: Arithmetic): (r: (Completion<Value>, State))
    requires Consistent(st)
    ensures Consistent(r.1) && !r.0.Returning?
    ensures r.1.current == st.current && r.1.output == st.output && r.1.heap.objects == st.heap.objects
    ensures |r.1.heap.frames| == |st.heap.frames| && Shape(st.heap.frames, r.1.heap.frames, -1)
    ensures r.0.Normal? ==> RefBelow(r.0.value, |st.heap.objects|)
  {
    match e
    case Assign(_, name, value) =>
      var (c, st1) := Evaluate(value, st, ar);
      if !c.Normal? then (c, st1)
      else
        (match Environment.Assign(st1.heap.frames, st1.current, name, c.value)
         case Err(err) => (Failure(err), st1)
         case Ok(fs) =>
           AssignKeepsRefs(st1.heap.frames, st1.current, name, c.value, |st1.heap.objects|);
           AssignKeepsParents(st1.heap.frames, st1.current, name, c.value);
           (Normal(c.value), State(Heap(fs, st1.heap.objects), st1.current, st1.output)))
    case Binary(_, left, op, right) =>
      var (cl, st1) := Evaluate(left, st, ar);
      if !cl.Normal? then (cl, st1)
      else
        var (cr, st2) := Evaluate(right, st1, ar);
        if !cr.Normal? then (cr, st2)
        else (BinaryOp(op, cl.value, cr.value, ar), st2)
    case Grouping(_, inner) => Evaluate(inner, st, ar)
    case Literal(_, v) => (Normal(FromLiteral(v)), st)
    case Logical(_, left, op, right) =>
      var (cl, st1) := Evaluate(left, st, ar);
      if !cl.Normal? then (cl, st1)
      else if op.kind == Or && IsTruthy(cl.value) then (cl, st1)
      else if op.kind != Or && !IsTruthy(cl.value) then (cl, st1)
      else Evaluate(right, st1, ar)
    case Unary(_, op, right) =>
      var (c, st1) := Evaluate(right, st, ar);
      if !c.Normal? then (c, st1) else (UnaryOp(op, c.value, ar), st1)
    case Variable(_, name) =>
      (match Environment.Get(st.heap.frames, st.current, name)
       case Err(err) => (Failure(err), st)
       case Ok(v) =>
         GetKeepsRefs(st.heap.frames, st.current, name, |st.heap.objects|);
         (Normal(v), st))
    case Call(_, _, _, _) => (Crash(NotImplemented), st)
    case Get(_, _, _) => (Crash(NotImplemented), st)
    case Set(_, _, _, _) => (Crash(NotImplemented), st)
    case Super(_, _, _) => (Crash(NotImplemented), st)
    case This(_, _) => (Crash(NotImplemented), st)
  }

  // ---------------------------------------------------------------------------------------
  // Statements

  /**
   * `Execute`. The current frame is the same afterwards whatever happened, and a statement
   * binds new names only in the current frame; a block binds none outside its own frame.
   */
  function Execute(s: Stmt, st: State, ar: Arithmetic): (r: (Completion<()>, State))
    requires Consistent(st)
    ensures Consistent(r.1) && !r.0.Returning? && r.1.current == st.current
    ensures Shape(st.heap.frames, r.1.heap.frames, if s.Block? then -1 else st.current)
    ensures r.1.heap.objects == st.heap.objects && |r.1.output| >= |st.output|
    decreases s, 0
  {
    match s
    case Block(statements) =>
      var (h1, env) := PushFrame(st.heap, Some(st.current));
      NewFrameKeepsRefs(st.heap.frames, Some(st.current), |st.heap.objects|);
      ExecuteBlock(statements, State(h1, env, st.output), st.current, ar)
    case Expression(e) =>
      var (c, st1) := Evaluate(e, st, ar);
      (if c.Normal? then Normal(()) else Abrupt(c), st1)
    case If(condition, thenBranch, elseBranch) =>
      var (c, st1) := Evaluate(condition, st, ar);
      if !c.Normal? then (Abrupt(c), st1)
      else if IsTruthy(c.value) then Execute(thenBranch, st1, ar)
      else if elseBranch.Some? then Execute(elseBranch.value, st1, ar)
      else (Normal(()), st1)
    case Print(e) =>
      var (c, st1) := Evaluate(e, st, ar);
      if !c.Normal? then (Abrupt(c), st1)
      else (Normal(()), State(st1.heap, st1.current, st1.output + [Stringify(c.value, st1.heap, ar)]))
    case Var(name, initializer) =>
      var (c, st1) :=
        if initializer.Some? then Evaluate(initializer.value, st, ar) else (Normal(Value.Nil), st);
      if !c.Normal? then (Abrupt(c), st1)
      else
        var fs := Define(st1.heap.frames, st1.current, name.lexeme, c.value);
        DefineKeepsRefs(st1.heap.frames, st1.current, name.lexeme, c.value, |st1.heap.objects|);
        (Normal(()), State(Heap(fs, st1.heap.objects), st1.current, st1.output))
    case Class(_, _, _) => (Crash(NotImplemented), st)
    case Function(_) => (Crash(NotImplemented), st)
    case Return(_, _) => (Crash(NotImplemented), st)
    case While(_, _) => (Crash(NotImplemented), st)
  }

  /**
   * `ExecuteBlock`: runs the statements with `st.current` as the current frame, then makes
   * `previous` current again, on every outcome (the host's `finally`).
   */
  function ExecuteBlock(statements: seq<Stmt>, st: State, previous: FrameId, ar: Arithmetic): (r: (Completion<()>, State))
    requires Consistent(st) && previous < |st.heap.frames|
    ensures Consistent(r.1) && !r.0.Returning? && r.1.current == previous
    ensures Shape(st.heap.frames, r.1.heap.frames, st.current)
    ensures r.1.heap.objects == st.heap.objects && |r.1.output| >= |st.output|
    decreases statements, 1
  {
    var (c, st1) := ExecuteAll(statements, st, ar);
    (c, State(st1.heap, previous, st1.output))
  }

  /** The statements one after another, stopping at the first that does not complete normally. */
  function ExecuteAll(statements: seq<Stmt>, st: State, ar: Arithmetic): (r: (Completion<()>, State))
    requires Consistent(st)
    ensures Consistent(r.1) && !r.0.Returning? && r.1.current == st.current
    ensures Shape(st.heap.frames, r.1.heap.frames, st.current)
    ensures r.1.heap.objects == st.heap.objects && |r.1.output| >= |st.output|
    decreases statements, 0
  {
    if statements == [] then (Normal(()), st)
    else
      var (c, st1) := Execute(statements[0], st, ar);
      if !c.Normal? then (c, st1)
      else ExecuteAll(statements[1..], st1, ar)
  }

  /** What `Interpret` leaves behind: the state, the runtime error it reported, a host exception. */
  datatype Run = Run(state: State, reported: seq<RuntimeError>, crashed: Option<HostFault>)

  /**
   * `Interpret`: the statements in order until one fails. A runtime error is reported once
   * and ends the run; a host exception escapes `Interpret`.
   */
  function Interpret(statements: seq<Stmt>, st: State, ar: Arithmetic): (r: Run)
    requires Consistent(st)
    ensures |r.reported| <= 1 && !(r.reported != [] && r.crashed.Some?)
    ensures Consistent(r.state)
  {
    var (c, st1) := ExecuteAll(statements, st, ar);
    match c
    case Normal(_) => Run(st1, [], None)
    case Failure(e) => Run(st1, [e], None)
    case Crash(fault) => Run(st1, [], Some(fault))
    case Returning(_) => assert false; Run(st1, [], None)
  }

  // ---------------------------------------------------------------------------------------
  // Properties

  /** Equality is symmetric whenever the host's double equality is. */
  lemma IsEqualSymmetric(a: Value, b: Value, ar: Arithmetic)
    requires forall x, y :: ar.equals(x, y) == ar.equals(y, x)
    ensures IsEqual(a, b, ar) == IsEqual(b, a, ar)
  {
  }

  /**
   * Short circuit: `or` with a truthy left operand, and `and` with a falsy one, yield the
   * left value and never evaluate the right operand, whatever it is.
   */
  lemma LogicalShortCircuits(id: ExprId, left: Expr, op: Token, right: Expr, other: Expr, st: State, ar: Arithmetic)
    requires Consistent(st)
    requires var (c, _) := Evaluate(left, st, ar);
             c.Normal? && (if op.kind == Or then IsTruthy(c.value) else !IsTruthy(c.value))
    ensures Evaluate(Logical(id, left, op, right), st, ar) == Evaluate(left, st, ar)
    ensures Evaluate(Logical(id, left, op, right), st, ar) == Evaluate(Logical(id, left, op, other), st, ar)
  {
  }

  /**
   * Both operands are evaluated, left first, before any operand check: a failing right
   * operand fails the whole expression even when the left operand has the wrong type.
   */
  lemma OperandsBeforeChecks(id: ExprId, left: Expr, op: Token, right: Expr, st: State, ar: Arithmetic)
    requires Consistent(st)
    ensures var (cl, st1) := Evaluate(left, st, ar);
            cl.Normal? ==>
              var (cr, st2) := Evaluate(right, st1, ar);
              !cr.Normal? ==> Evaluate(Binary(id, left, op, right), st, ar) == (cr, st2)
  {
  }

  /**
   * Once its operands have values, an operator expression is the operator applied to them:
   * the binary rules are BinaryOp's, the unary ones UnaryOp's.
   */
  lemma OperatorsApplied(id: ExprId, left: Expr, op: Token, right: Expr, st: State, ar: Arithmetic)
    requires Consistent(st)
    ensures var (cl, st1) := Evaluate(left, st, ar);
            cl.Normal? ==>
              var (cr, st2) := Evaluate(right, st1, ar);
              cr.Normal? ==> Evaluate(Binary(id, left, op, right), st, ar) == (BinaryOp(op, cl.value, cr.value, ar), st2)
    ensures var (c, st1) := Evaluate(right, st, ar);
            c.Normal? ==> Evaluate(Unary(id, op, right), st, ar) == (UnaryOp(op, c.value, ar), st1)
  {
  }

  /** Two frame arenas with the same parents and the same bound names. */
  ghost predicate SameLayout(fs: Frames, fs': Frames)
  {
    |fs'| == |fs| && Shape(fs, fs', -1)
  }

  /** Rebinding values leaves the nearest binding frame of every name where it was. */
  lemma {:induction false} DistanceUnchanged(fs: Frames, fs': Frames, f: FrameId, name: string)
    requires WellFormed(fs) && WellFormed(fs') && f < |fs| && SameLayout(fs, fs')
    ensures Distance(fs', f, name) == Distance(fs, f, name)
    decreases f
  {
    assert fs'[f].values.Keys == fs[f].values.Keys;
    if name !in fs[f].values {
      match fs[f].enclosing
      case Some(p) => DistanceUnchanged(fs, fs', p, name);
      case None =>
    }
  }

  /**
   * Assignment then read: after `x = e` evaluates to v, reading `x` from the same frame
   * gives v.
   */
  lemma AssignThenRead(id: ExprId, name: Token, value: Expr, readId: ExprId, st: State, ar: Arithmetic)
    requires Consistent(st)
    ensures var (c, st1) := Evaluate(Assign(id, name, value), st, ar);
            c.Normal? ==> Evaluate(Variable(readId, name), st1, ar).0 == c
  {
    var (cv, sv) := Evaluate(value, st, ar);
    if cv.Normal? {
      var fs := sv.heap.frames;
      var f := sv.current;
      if Environment.Assign(fs, f, name, cv.value).Ok? {
        var fs' := Environment.Assign(fs, f, name, cv.value).value;
        AssignIsAssignAtDistance(fs, f, name, cv.value);
        var d := Distance(fs, f, name.lexeme).value;
        GetAtAfterAssignAt(fs, f, d, name, cv.value);
        AssignKeepsParents(fs, f, name, cv.value);
        DistanceUnchanged(fs, fs', f, name.lexeme);
        GetIsGetAtDistance(fs', f, name);
      }
    }
  }

  /** Declaration then read: after `var x = e;` (or `var x;`), reading `x` gives e's value (or nil). */
  lemma VarThenRead(name: Token, initializer: Option<Expr>, readId: ExprId, st: State, ar: Arithmetic)
    requires Consistent(st)
    ensures var (c, st1) := Execute(Stmt.Var(name, initializer), st, ar);
            c.Normal? ==>
              Evaluate(Variable(readId, name), st1, ar).0 ==
                (if initializer.Some? then Evaluate(initializer.value, st, ar).0 else Normal(Value.Nil))
  {
  }

  /** Running `a + b` is running `a`, then, if it completed normally, running `b`. */
  lemma {:induction false} ExecuteAllAppend(a: seq<Stmt>, b: seq<Stmt>, st: State, ar: Arithmetic)
    requires Consistent(st)
    ensures var (ca, sta) := ExecuteAll(a, st, ar);
            ExecuteAll(a + b, st, ar) == if ca.Normal? then ExecuteAll(b, sta, ar) else (ca, sta)
    decreases a
  {
    if a == [] {
      assert a + b == b;
    } else {
      assert (a + b)[0] == a[0] && (a + b)[1..] == a[1..] + b;
      var (c, st1) := Execute(a[0], st, ar);
      if c.Normal? {
        ExecuteAllAppend(a[1..], b, st1, ar);
      }
    }
  }

  /**
   * `Interpret` stops at the first runtime error: when the statements before `s` complete
   * and `s` fails, the run ends in the state `s` left, reports its error once, and the
   * statements after it do not matter.
   */
  lemma InterpretStopsAtFirstFailure(before: seq<Stmt>, s: Stmt, after: seq<Stmt>, st: State, ar: Arithmetic)
    requires Consistent(st)
    requires ExecuteAll(before, st, ar).0.Normal?
    requires Execute(s, ExecuteAll(before, st, ar).1, ar).0.Failure?
    ensures var (c, st2) := Execute(s, ExecuteAll(before, st, ar).1, ar);
            Interpret(before + [s] + after, st, ar) == Run(st2, [c.error], None)
  {
    var (_, st1) := ExecuteAll(before, st, ar);
    ExecuteAllAppend(before, [s] + after, st, ar);
    assert before + [s] + after == before + ([s] + after);
    assert ([s] + after)[0] == s && ([s] + after)[1..] == after;
  }

  // ---------------------------------------------------------------------------------------
  // Invariant helpers

  lemma DefineKeepsRefs(fs: Frames, f: FrameId, name: string, v: Value, n: nat)
    requires f < |fs| && RefsBelow(fs, n) && RefBelow(v, n)
    ensures RefsBelow(Define(fs, f, name, v), n)
  {
  }

  lemma NewFrameKeepsRefs(fs: Frames, enclosing: Option<FrameId>, n: nat)
    requires RefsBelow(fs, n)
    ensures RefsBelow(NewFrame(fs, enclosing), n)
  {
    var fs' := NewFrame(fs, enclosing);
    forall g, k | 0 <= g < |fs'| && k in fs'[g].values
      ensures RefBelow(fs'[g].values[k], n)
    {
      assert g < |fs|;
      assert fs'[g] == fs[g];
    }
  }

  lemma {:induction false} GetKeepsRefs(fs: Frames, f: FrameId, name: Token, n: nat)
    requires WellFormed(fs) && f < |fs| && RefsBelow(fs, n) && Environment.Get(fs, f, name).Ok?
    ensures RefBelow(Environment.Get(fs, f, name).value, n)
    decreases f
  {
    if name.lexeme !in fs[f].values {
      GetKeepsRefs(fs, fs[f].enclosing.value, name, n);
    }
  }

  lemma {:induction false} AssignKeepsRefs(fs: Frames, f: FrameId, name: Token, v: Value, n: nat)
    requires WellFormed(fs) && f < |fs| && RefsBelow(fs, n) && RefBelow(v, n) && Environment.Assign(fs, f, name, v).Ok?
    ensures RefsBelow(Environment.Assign(fs, f, name, v).value, n)
    decreases f
  {
    if name.lexeme !in fs[f].values {
      AssignKeepsRefs(fs, fs[f].enclosing.value, name, v, n);
    }
  }

  lemma {:induction false} AssignKeepsParents(fs: Frames, f: FrameId, name: Token, v: Value)
    requires WellFormed(fs) && f < |fs| && Environment.Assign(fs, f, name, v).Ok?
    ensures Shape(fs, Environment.Assign(fs, f, name, v).value, -1)
    decreases f
  {
    if name.lexeme !in fs[f].values {
      AssignKeepsParents(fs, fs[f].enclosing.value, name, v);
    }
  }
}
