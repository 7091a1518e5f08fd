/**
 * Classes (src/Interpreter/LoxClass.cs): arity, instantiation and method lookup. Method
 * lookup reads the class's own table only; this snapshot has no superclass chain.
 */
module LoxClasses {
  import opened Common
  import opened Tokens
  import opened Values
  import opened Environment
  import opened Runtime
  import LoxFunctions

  /** The arity of `init` when the class has one, otherwise 0. */
  function Arity(k: LoxClass): nat
  {
    if "init" in k.methods then LoxFunctions.Arity(k.methods["init"]) else 0
  }

  /** `FindMethod`: the named method bound to the instance, or nothing. */
  function FindMethod(h: Heap, k: LoxClass, instance: ObjectId, name: string): (r: (Heap, Option<LoxFunction>))
    requires Valid(h) && MethodsWithin(k, |h.frames|)
    ensures r.1.Some? <==> name in k.methods
    ensures r.1.None? ==> r.0 == h
    ensures r.1.Some? ==> (r.0, r.1.value) == LoxFunctions.Bind(h, k.methods[name], instance)
    ensures Valid(r.0) && r.0.objects == h.objects && |r.0.frames| >= |h.frames|
  {
    if name in k.methods then
      var (h', bound) := LoxFunctions.Bind(h, k.methods[name], instance);
      (h', Some(bound))
    else (h, None)
  }

  /**
   * `Call`: a new instance; when the class has `init`, it is bound to the instance and
   * called with the arguments. The call yields the instance whatever `init` returns; an
   * error inside `init` passes through.
   */
  function Call(h: Heap, k: LoxClass, args: seq<Value>, run: LoxFunctions.BodyRunner): (r: (Completion<Value>, Heap))
    requires Valid(h) && MethodsWithin(k, |h.frames|) && LoxFunctions.Preserving(run)
    ensures !r.0.Returning? && Valid(r.1) && |r.1.objects| > |h.objects|
    ensures r.0.Normal? ==> r.0.value == Ref(|h.objects|)
    ensures "init" !in k.methods ==>
              r.0 == Normal(Ref(|h.objects|)) && r.1.objects[|h.objects|] == InstanceObject(k, map[])
    ensures "init" in k.methods && |args| < Arity(k) ==> r.0 == Crash(ArgumentOutOfRange)
    ensures "init" in k.methods && |args| >= Arity(k) ==>
              var (h1, instance) := NewInstance(h, k);
              var (h2, bound) := LoxFunctions.Bind(h1, k.methods["init"], instance);
              var (out, h3) := LoxFunctions.Call(h2, bound, args, run);
              r.1 == h3
              && (out.Normal? ==> r.0 == Normal(Ref(|h.objects|)))
              && (out.Failure? ==> r.0 == Failure(out.error))
              && (out.Crash? ==> r.0 == Crash(out.fault))
  {
    var (h1, instance) := NewInstance(h, k);
    if "init" in k.methods then
      var (h2, bound) := LoxFunctions.Bind(h1, k.methods["init"], instance);
      var (out, h3) := LoxFunctions.Call(h2, bound, args, run);
      if out.Normal? then (Normal(Ref(instance)), h3) else (Abrupt(out), h3)
    else (Normal(Ref(instance)), h1)
  }

  /**
   * What `init`'s body does decides only whether the class call fails: a body that returns,
   * with or without a value, or runs to its end yields the new instance; an error or a
   * host fault raised in the body is the class call's own.
   */
  lemma InitOutcome(h: Heap, k: LoxClass, args: seq<Value>, run: LoxFunctions.BodyRunner)
    requires Valid(h) && MethodsWithin(k, |h.frames|) && LoxFunctions.Preserving(run)
    requires "init" in k.methods && |args| >= Arity(k)
    ensures var (h1, instance) := NewInstance(h, k);
            var (h2, bound) := LoxFunctions.Bind(h1, k.methods["init"], instance);
            var (h3, env) := LoxFunctions.EnterCall(h2, bound, args).value;
            var (out, h4) := run(k.methods["init"].declaration.body, env, h3);
            var result := Call(h, k, args, run).0;
            (out.Returning? || out.Normal? ==> result == Normal(Ref(|h.objects|)))
            && (out.Failure? ==> result == Failure(out.error))
            && (out.Crash? ==> result == Crash(out.fault))
  {
  }

  /** `ToString` of a class value: its name. */
  function ToString(k: LoxClass): string
  {
    k.name
  }
}
