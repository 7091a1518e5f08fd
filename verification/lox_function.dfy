/**
 * User functions (src/Interpreter/ILoxCallable.LoxFunction.cs): arity, the call protocol
 * and binding a method to an instance. The call runs the body through the interpreter's
 * `ExecuteBlock`, which is not part of this file; it is the `run` parameter here: given the
 * body, the frame to run it in and the heap, it says how the body ended and what heap it
 * left.
 */
module LoxFunctions {
  import opened Common
  import opened Tokens
  import opened Stmts
  import opened Values
  import opened Environment
  import opened Runtime

  /** The interpreter's block executor, as the call sees it. */
  type BodyRunner = (seq<Stmt>, FrameId, Heap) -> (Completion<()>, Heap)

  /**
   * A runner keeps the heap invariant and never removes frames or objects; every existing
   * frame but the one the body runs in keeps its parent and the names it binds, as
   * executing a block does: a body assigns to the names of enclosing frames and declares
   * names only in its own.
   */
  ghost predicate Preserving(run: BodyRunner)
  {
    forall body: seq<Stmt>, f: FrameId, h: Heap :: Valid(h) && f < |h.frames| ==>
      Valid(run(body, f, h).1) && |run(body, f, h).1.frames| >= |h.frames|
      && |run(body, f, h).1.objects| >= |h.objects|
      && forall g :: 0 <= g < |h.frames| && g != f ==>
           run(body, f, h).1.frames[g].enclosing == h.frames[g].enclosing
           && run(body, f, h).1.frames[g].values.Keys == h.frames[g].values.Keys
  }

  /** The number of declared parameters. */
  function Arity(fn: LoxFunction): nat
  {
    |fn.declaration.params|
  }

  /**
   * The loop that binds the i-th parameter to the i-th argument in frame `f`. Reading an
   * argument past the end of the list is the host's out-of-range exception; extra
   * arguments are ignored.
   */
  function BindParameters(fs: Frames, f: FrameId, params: seq<Token>, args: seq<Value>): (r: Result<Frames, HostFault>)
    requires f < |fs|
    ensures r.Ok? <==> |args| >= |params|
    ensures r.Err? ==> r.error == ArgumentOutOfRange
    ensures r.Ok? ==> |r.value| == |fs| && r.value[f].enclosing == fs[f].enclosing
    ensures r.Ok? ==> forall g :: 0 <= g < |fs| && g != f ==> r.value[g] == fs[g]
    ensures r.Ok? ==> forall n :: n in fs[f].values && n !in Names(params) ==>
              n in r.value[f].values && r.value[f].values[n] == fs[f].values[n]
    ensures r.Ok? ==> forall n :: n in r.value[f].values ==> n in fs[f].values || n in Names(params)
    ensures r.Ok? && WellFormed(fs) ==> WellFormed(r.value)
    decreases params
  {
    if params == [] then Ok(fs)
    else if args == [] then Err(ArgumentOutOfRange)
    else BindParameters(Define(fs, f, params[0].lexeme, args[0]), f, params[1..], args[1..])
  }

  /**
   * The frame a call runs its body in: a new frame whose parent is the closure (not the
   * caller's frame), holding the arguments.
   */
  function EnterCall(h: Heap, fn: LoxFunction, args: seq<Value>): (r: Result<(Heap, FrameId), HostFault>)
    requires Valid(h) && fn.closure < |h.frames|
    ensures r.Ok? <==> |args| >= Arity(fn)
    ensures r.Err? ==> r.error == ArgumentOutOfRange
    ensures r.Ok? ==> var (h', env) := r.value;
              Valid(h') && env == |h.frames| && |h'.frames| == |h.frames| + 1
              && h'.frames[..|h.frames|] == h.frames && h'.objects == h.objects
              && h'.frames[env].enclosing == Some(fn.closure)
              && forall n :: n in h'.frames[env].values ==> n in Names(fn.declaration.params)
  {
    var (h1, env) := PushFrame(h, Some(fn.closure));
    match BindParameters(h1.frames, env, fn.declaration.params, args)
    case Err(fault) => Err(fault)
    case Ok(fs) =>
      assert fs[..|h.frames|] == h.frames by {
        forall g | 0 <= g < |h.frames|
          ensures fs[g] == h.frames[g]
        {
          assert h1.frames[g] == h.frames[g];
        }
      }
      assert Valid(Heap(fs, h.objects)) by {
        forall o | 0 <= o < |h.objects|
          ensures ClosuresWithin(h.objects[o], |fs|)
        {
          ClosuresGrow(h.objects[o], |h.frames|, |fs|);
        }
      }
      Ok((Heap(fs, h.objects), env))
  }

  /**
   * `Call`. A `Returning` completion of the body ends the call with its value, even in an
   * initializer. On normal completion an initializer yields `this` from its closure frame
   * and any other function yields nil. Runtime errors and host exceptions pass through.
   */
  function Call(h: Heap, fn: LoxFunction, args: seq<Value>, run: BodyRunner): (r: (Completion<Value>, Heap))
    requires Valid(h) && fn.closure < |h.frames| && Preserving(run)
    ensures !r.0.Returning? && Valid(r.1) && |r.1.frames| >= |h.frames| && |r.1.objects| >= |h.objects|
    ensures |args| < Arity(fn) ==> r.0 == Crash(ArgumentOutOfRange)
    ensures |args| >= Arity(fn) ==>
              var (h1, env) := EnterCall(h, fn, args).value;
              var (out, h2) := run(fn.declaration.body, env, h1);
              r.1 == h2
              && (out.Returning? ==> r.0 == Normal(out.result))
              && (out.Normal? && !fn.isInitializer ==> r.0 == Normal(Value.Nil))
              && (out.Normal? && fn.isInitializer ==>
                    r.0 == match GetAt(h2.frames, fn.closure, 0, "this")
                           case Ok(v) => Normal(v)
                           case Err(fault) => Crash(fault))
              && (out.Failure? || out.Crash? ==> r.0 == Abrupt(out))
  {
    match EnterCall(h, fn, args)
    case Err(fault) => (Crash(fault), h)
    case Ok((h1, env)) =>
      var (out, h2) := run(fn.declaration.body, env, h1);
      match out
      case Returning(v) => (Normal(v), h2)
      case Normal(_) =>
        if fn.isInitializer then
          match GetAt(h2.frames, fn.closure, 0, "this")
          case Ok(v) => (Normal(v), h2)
          case Err(fault) => (Crash(fault), h2)
        else (Normal(Value.Nil), h2)
      case Failure(e) => (Failure(e), h2)
      case Crash(fault) => (Crash(fault), h2)
  }

  /**
   * `Bind`: a new frame under the closure holding only `this`, and a new function with the
   * same declaration and initializer flag closed over it. The bound function is a new value;
   * the original, and every existing frame and object, are unchanged.
   */
  function Bind(h: Heap, fn: LoxFunction, instance: ObjectId): (r: (Heap, LoxFunction))
    requires Valid(h) && fn.closure < |h.frames|
    ensures var (h', bound) := r;
            Valid(h') && h'.objects == h.objects && |h'.frames| == |h.frames| + 1
            && h'.frames[..|h.frames|] == h.frames
            && bound.declaration == fn.declaration && bound.isInitializer == fn.isInitializer
            && bound.closure == |h.frames|
            && h'.frames[bound.closure] == Frame(map["this" := Ref(instance)], Some(fn.closure))
  {
    var (h1, env) := PushFrame(h, Some(fn.closure));
    var fs := Define(h1.frames, env, "this", Ref(instance));
    assert fs[..|h.frames|] == h.frames by {
      forall g | 0 <= g < |h.frames|
        ensures fs[g] == h.frames[g]
      {
        assert h1.frames[g] == h.frames[g];
      }
    }
    assert fs[env].values == map["this" := Ref(instance)];
    (Heap(fs, h1.objects), LoxFunction(fn.declaration, env, fn.isInitializer))
  }

  /** `ToString` of a function value. */
  function ToString(fn: LoxFunction): string
  {
    "<fn " + fn.declaration.name.lexeme + ">"
  }

  // ---------------------------------------------------------------------------------------
  // Properties

  /**
   * With as many arguments as the arity and pairwise distinct parameter names, the call
   * frame binds exactly the parameters, the i-th to the i-th argument.
   */
  lemma {:induction false} ParametersBound(fs: Frames, f: FrameId, params: seq<Token>, args: seq<Value>)
    requires f < |fs| && |args| == |params| && fs[f].values == map[]
    requires forall i, j :: 0 <= i < j < |params| ==> params[i].lexeme != params[j].lexeme
    ensures BindParameters(fs, f, params, args).Ok?
    ensures var fs' := BindParameters(fs, f, params, args).value;
            fs'[f].values.Keys == (set n | n in Names(params))
            && forall i :: 0 <= i < |params| ==> fs'[f].values[params[i].lexeme] == args[i]
  {
    BindDistinct(fs, f, params, args);
  }

  lemma {:induction false} BindDistinct(fs: Frames, f: FrameId, params: seq<Token>, args: seq<Value>)
    requires f < |fs| && |args| == |params|
    requires forall i, j :: 0 <= i < j < |params| ==> params[i].lexeme != params[j].lexeme
    ensures BindParameters(fs, f, params, args).Ok?
    ensures var fs' := BindParameters(fs, f, params, args).value;
            fs'[f].values.Keys == fs[f].values.Keys + (set n | n in Names(params))
            && forall i :: 0 <= i < |params| ==> fs'[f].values[params[i].lexeme] == args[i]
    decreases params
  {
    if params != [] {
      var fs1 := Define(fs, f, params[0].lexeme, args[0]);
      BindDistinct(fs1, f, params[1..], args[1..]);
      var fs' := BindParameters(fs1, f, params[1..], args[1..]).value;
      assert Names(params) == [params[0].lexeme] + Names(params[1..]);
      forall i | 0 <= i < |params|
        ensures fs'[f].values[params[i].lexeme] == args[i]
      {
        if i == 0 {
          assert params[0].lexeme !in Names(params[1..]) by {
            forall j | 0 <= j < |params[1..]|
              ensures Names(params[1..])[j] != params[0].lexeme
            {
              assert params[1..][j] == params[j + 1];
            }
          }
        } else {
          assert params[1..][i - 1] == params[i] && args[1..][i - 1] == args[i];
        }
      }
    }
  }

  /**
   * A method bound to an instance and then called finds the instance as `this` one link up
   * from its call frame, the distance the resolver gives `this` in a method body.
   */
  lemma BoundThisAtDistanceOne(h: Heap, fn: LoxFunction, instance: ObjectId, args: seq<Value>)
    requires Valid(h) && fn.closure < |h.frames| && |args| >= Arity(fn)
    ensures var (h1, bound) := Bind(h, fn, instance);
            var (h2, env) := EnterCall(h1, bound, args).value;
            GetAt(h2.frames, env, 1, "this") == Ok(Ref(instance))
  {
    var (h1, bound) := Bind(h, fn, instance);
    var (h2, env) := EnterCall(h1, bound, args).value;
    assert Ancestor(h2.frames, env, 1) == Ancestor(h2.frames, bound.closure, 0);
    assert h2.frames[bound.closure] == h1.frames[bound.closure];
  }

  /**
   * A bound initializer whose body completes normally yields the value `this` has in the
   * bound frame afterwards, never a fault; so, when the body leaves that frame as it was,
   * the instance it was bound to. A `return;` without value yields nil instead.
   */
  lemma InitializerYieldsInstance(h: Heap, init: LoxFunction, instance: ObjectId, args: seq<Value>, run: BodyRunner)
    requires Valid(h) && init.closure < |h.frames| && init.isInitializer && Preserving(run)
    requires |args| >= Arity(init)
    ensures var (h1, bound) := Bind(h, init, instance);
            var (h2, env) := EnterCall(h1, bound, args).value;
            var (out, h3) := run(init.declaration.body, env, h2);
            (out.Normal? ==>
               "this" in h3.frames[bound.closure].values
               && Call(h1, bound, args, run).0 == Normal(h3.frames[bound.closure].values["this"]))
            && (out.Normal? && h3.frames[bound.closure] == h1.frames[bound.closure] ==>
               Call(h1, bound, args, run).0 == Normal(Ref(instance)))
            && (out == Returning(Value.Nil) ==> Call(h1, bound, args, run).0 == Normal(Value.Nil))
  {
    var (h1, bound) := Bind(h, init, instance);
    var (h2, env) := EnterCall(h1, bound, args).value;
    assert h2.frames[bound.closure] == h1.frames[bound.closure];
  }
}
