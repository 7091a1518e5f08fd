/**
 * Instances (src/Interpreter/LoxInstance.cs): property reads look at the fields first and
 * then at the class's methods; property writes always go to the fields.
 */
module LoxInstances {
  import opened Common
  import opened Tokens
  import opened Values
  import opened Environment
  import opened Runtime
  import LoxClasses

  /** The error of a read of a property the instance does not have. */
  function UndefinedProperty(name: Token): RuntimeError
  {
    RuntimeError(name, "Undefined property '" + name.lexeme + "'.")
  }

  /**
   * `Get`: the field if the instance has one of that name; otherwise the class's method of
   * that name, bound to this instance, as a new function object; otherwise the error.
   */
  function Get(h: Heap, instance: ObjectId, name: Token): (r: (Completion<Value>, Heap))
    requires Valid(h) && IsInstance(h, instance)
    ensures Valid(r.1) && |r.1.objects| >= |h.objects| && r.1.objects[..|h.objects|] == h.objects
    ensures var o := h.objects[instance];
            name.lexeme in o.fields ==> r == (Normal(o.fields[name.lexeme]), h)
    ensures var o := h.objects[instance];
            name.lexeme !in o.fields && name.lexeme !in o.klass.methods ==>
              r == (Failure(UndefinedProperty(name)), h)
    ensures var o := h.objects[instance];
            name.lexeme !in o.fields && name.lexeme in o.klass.methods ==>
              var m := o.klass.methods[name.lexeme];
              r.0 == Normal(Ref(|h.objects|)) && |r.1.objects| == |h.objects| + 1
              && r.1.objects[|h.objects|].FunctionObject?
              && var bound := r.1.objects[|h.objects|].fn;
                 bound.declaration == m.declaration && bound.isInitializer == m.isInitializer
                 && bound.closure < |r.1.frames|
                 && r.1.frames[bound.closure] == Frame(map["this" := Ref(instance)], Some(m.closure))
  {
    var o := h.objects[instance];
    if name.lexeme in o.fields then (Normal(o.fields[name.lexeme]), h)
    else
      assert MethodsWithin(o.klass, |h.frames|) by {
        assert ClosuresWithin(h.objects[instance], |h.frames|);
      }
      var (h1, found) := LoxClasses.FindMethod(h, o.klass, instance, name.lexeme);
      match found
      case Some(bound) =>
        var (h2, id) := Allocate(h1, FunctionObject(bound));
        assert h2.objects[..|h.objects|] == h.objects;
        (Normal(Ref(id)), h2)
      case None => (Failure(UndefinedProperty(name)), h)
  }

  /**
   * `Set`: writes the field, creating or replacing it. The class, the other fields, every
   * other object and every frame are unchanged.
   */
  function Set(h: Heap, instance: ObjectId, name: Token, v: Value): (r: Heap)
    requires IsInstance(h, instance)
    ensures |r.objects| == |h.objects| && r.frames == h.frames && IsInstance(r, instance)
    ensures forall o :: 0 <= o < |h.objects| && o != instance ==> r.objects[o] == h.objects[o]
    ensures r.objects[instance].klass == h.objects[instance].klass
    ensures var fields := r.objects[instance].fields;
            name.lexeme in fields && fields[name.lexeme] == v
            && (forall n :: n != name.lexeme ==> (n in fields <==> n in h.objects[instance].fields))
            && (forall n :: n != name.lexeme && n in fields ==> fields[n] == h.objects[instance].fields[n])
    ensures Valid(h) ==> Valid(r)
  {
    var o := h.objects[instance];
    var r := Heap(h.frames, h.objects[instance := InstanceObject(o.klass, o.fields[name.lexeme := v])]);
    assert Valid(h) ==> Valid(r) by {
      if Valid(h) {
        assert ClosuresWithin(h.objects[instance], |h.frames|);
      }
    }
    r
  }

  /** `ToString` of an instance value: its class's name followed by " instance". */
  function ToString(h: Heap, instance: ObjectId): string
    requires IsInstance(h, instance)
  {
    h.objects[instance].klass.name + " instance"
  }

  // ---------------------------------------------------------------------------------------
  // Properties

  /** Fields shadow methods: after a write, a read of the same name gives the value written. */
  lemma GetAfterSet(h: Heap, instance: ObjectId, name: Token, v: Value, again: Token)
    requires Valid(h) && IsInstance(h, instance) && again.lexeme == name.lexeme
    ensures Get(Set(h, instance, name, v), instance, again).0 == Normal(v)
  {
  }

  /** A write is invisible to reads of other names. */
  lemma GetAfterSetOther(h: Heap, instance: ObjectId, name: Token, v: Value, other: Token)
    requires Valid(h) && IsInstance(h, instance) && other.lexeme != name.lexeme
    ensures Get(Set(h, instance, name, v), instance, other).0 == Get(h, instance, other).0
  {
  }

  /**
   * A new instance has no fields, so a read of it finds a method of its class or fails:
   * it fails exactly when the class has no method of that name.
   */
  lemma NewInstanceReadsMethods(h: Heap, k: LoxClass, name: Token)
    requires Valid(h) && MethodsWithin(k, |h.frames|)
    ensures var (h1, instance) := NewInstance(h, k);
            Get(h1, instance, name).0.Failure? <==> name.lexeme !in k.methods
  {
  }
}
