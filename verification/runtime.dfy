/**
 * The run-time objects behind `Ref` values: user functions
 * (src/Interpreter/ILoxCallable.LoxFunction.cs), classes (src/Interpreter/LoxClass.cs) and
 * instances (src/Interpreter/LoxInstance.cs), kept in an arena next to the frame arena.
 * Functions and classes are immutable in the host, so they are plain datatype values here;
 * only an instance's field table changes.
 */
module Runtime {
  import opened Common
  import opened Tokens
  import opened Stmts
  import opened Values
  import opened Environment

  /** A function declaration closed over the frame it was created in. */
  datatype LoxFunction = LoxFunction(declaration: FunctionDecl, closure: FrameId, isInitializer: bool)

  /** A class: its name and its method table, fixed when the class is built. */
  datatype LoxClass = LoxClass(name: string, methods: map<string, LoxFunction>)

  datatype Object =
    | FunctionObject(fn: LoxFunction)
    | ClassObject(klass: LoxClass)
    | InstanceObject(klass: LoxClass, fields: map<string, Value>)

  /** Everything the host allocates: environment frames and objects. */
  datatype Heap = Heap(frames: Frames, objects: seq<Object>)

  /** The heap invariant: frame chains are finite and closures name existing frames. */
  ghost predicate Valid(h: Heap)
  {
    WellFormed(h.frames)
    && (forall o :: 0 <= o < |h.objects| ==> ClosuresWithin(h.objects[o], |h.frames|))
  }

  /** Every closure an object holds names one of the first `frameCount` frames. */
  ghost predicate ClosuresWithin(o: Object, frameCount: nat)
  {
    match o
    case FunctionObject(fn) => fn.closure < frameCount
    case ClassObject(k) => MethodsWithin(k, frameCount)
    case InstanceObject(k, _) => MethodsWithin(k, frameCount)
  }

  ghost predicate MethodsWithin(k: LoxClass, frameCount: nat)
  {
    forall m :: m in k.methods ==> k.methods[m].closure < frameCount
  }

  predicate IsInstance(h: Heap, id: ObjectId)
  {
    id < |h.objects| && h.objects[id].InstanceObject?
  }

  /** `new LoxInstance(klass)`: a new instance of the class, without fields. */
  function NewInstance(h: Heap, k: LoxClass): (r: (Heap, ObjectId))
    ensures r.1 == |h.objects| && IsInstance(r.0, r.1)
    ensures r.0.objects[r.1].klass == k && r.0.objects[r.1].fields == map[]
    ensures r.0.objects[..|h.objects|] == h.objects && r.0.frames == h.frames
    ensures Valid(h) && MethodsWithin(k, |h.frames|) ==> Valid(r.0)
  {
    var r := Allocate(h, InstanceObject(k, map[]));
    assert r.0.objects[..|h.objects|] == h.objects;
    r
  }

  /** Places an object at the end of the arena. */
  function Allocate(h: Heap, o: Object): (r: (Heap, ObjectId))
    ensures r.1 == |h.objects| && r.0.objects == h.objects + [o] && r.0.frames == h.frames
    ensures Valid(h) && ClosuresWithin(o, |h.frames|) ==> Valid(r.0)
  {
    (Heap(h.frames, h.objects + [o]), |h.objects|)
  }

  /** A frame added to the heap, under `enclosing`. */
  function PushFrame(h: Heap, enclosing: Option<FrameId>): (r: (Heap, FrameId))
    ensures r.1 == |h.frames| && r.0.frames == NewFrame(h.frames, enclosing) && r.0.objects == h.objects
    ensures Valid(h) && (enclosing.Some? ==> enclosing.value < |h.frames|) ==> Valid(r.0)
  {
    var r := (Heap(NewFrame(h.frames, enclosing), h.objects), |h.frames|);
    assert Valid(h) && (enclosing.Some? ==> enclosing.value < |h.frames|) ==> Valid(r.0) by {
      if Valid(h) && (enclosing.Some? ==> enclosing.value < |h.frames|) {
        forall o | 0 <= o < |h.objects|
          ensures ClosuresWithin(h.objects[o], |r.0.frames|)
        {
          ClosuresGrow(h.objects[o], |h.frames|, |r.0.frames|);
        }
      }
    }
    r
  }

  lemma ClosuresGrow(o: Object, n: nat, m: nat)
    requires ClosuresWithin(o, n) && n <= m
    ensures ClosuresWithin(o, m)
  {
  }
}
