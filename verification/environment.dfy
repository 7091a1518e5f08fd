/**
 * Environment frames (src/Core/EnvironmentScope.cs). A frame is a table of bindings and
 * an optional enclosing frame. Frames live in an arena indexed by `FrameId`, so a closure
 * and a running block can share one frame; a new frame is appended at the end, and its
 * parent, created before it, has a smaller index.
 */
module Environment {
  import opened Common
  import opened Tokens
  import opened Values

  datatype Frame = Frame(values: map<string, Value>, enclosing: Option<FrameId>)

  type Frames = seq<Frame>

  /** Every parent was created before its child, so every chain of parents is finite. */
  ghost predicate WellFormed(fs: Frames)
  {
    forall f :: 0 <= f < |fs| && fs[f].enclosing.Some? ==> fs[f].enclosing.value < f
  }

  /** The error both `Get` and `Assign` raise when no frame of the chain binds the name. */
  function Undefined(name: Token): RuntimeError
  {
    RuntimeError(name, "Undefined variable '" + name.lexeme + "'.")
  }

  /** `new EnvironmentScope(enclosing)`: an empty frame at the end of the arena. */
  function NewFrame(fs: Frames, enclosing: Option<FrameId>): (r: Frames)
    ensures |r| == |fs| + 1 && r[..|fs|] == fs
    ensures r[|fs|].values == map[] && r[|fs|].enclosing == enclosing
    ensures WellFormed(fs) && (enclosing.Some? ==> enclosing.value < |fs|) ==> WellFormed(r)
  {
    fs + [Frame(map[], enclosing)]
  }

  /**
   * `Define`: binds `name` in frame `f` only, replacing an existing binding silently.
   * No other frame and no other name of `f` changes.
   */
  function Define(fs: Frames, f: FrameId, name: string, v: Value): (r: Frames)
    requires f < |fs|
    ensures |r| == |fs| && name in r[f].values && r[f].values[name] == v
    ensures r[f].enclosing == fs[f].enclosing
    ensures forall g :: 0 <= g < |fs| && g != f ==> r[g] == fs[g]
    ensures forall n :: n != name ==> (n in r[f].values <==> n in fs[f].values)
    ensures forall n :: n != name && n in fs[f].values ==> r[f].values[n] == fs[f].values[n]
    ensures WellFormed(fs) ==> WellFormed(r)
  {
    fs[f := Frame(fs[f].values[name := v], fs[f].enclosing)]
  }

  /**
   * `Get`: the binding of the nearest frame on the parent chain that has the name,
   * otherwise the undefined-variable error.
   */
  function Get(fs: Frames, f: FrameId, name: Token): (r: Result<Value, RuntimeError>)
    requires WellFormed(fs) && f < |fs|
    ensures r.Err? ==> r.error == Undefined(name)
    decreases f
  {
    if name.lexeme in fs[f].values then Ok(fs[f].values[name.lexeme])
    else match fs[f].enclosing
      case Some(p) => Get(fs, p, name)
      case None => Err(Undefined(name))
  }

  /**
   * `Assign`: rebinds the name in the nearest frame that has it. It never creates a
   * binding: every frame binds the same names afterwards.
   */
  function Assign(fs: Frames, f: FrameId, name: Token, v: Value): (r: Result<Frames, RuntimeError>)
    requires WellFormed(fs) && f < |fs|
    ensures r.Err? ==> r.error == Undefined(name)
    ensures r.Ok? ==> |r.value| == |fs| && WellFormed(r.value)
    ensures r.Ok? ==> forall g :: 0 <= g < |fs| ==> r.value[g].values.Keys == fs[g].values.Keys
    decreases f
  {
    if name.lexeme in fs[f].values then Ok(Define(fs, f, name.lexeme, v))
    else match fs[f].enclosing
      case Some(p) => Assign(fs, p, name, v)
      case None => Err(Undefined(name))
  }

  /**
   * `Ancestor`: the frame `d` parent links up from `f`. `None` is the host's `null`,
   * reached when the chain has fewer than `d` links.
   */
  function Ancestor(fs: Frames, f: FrameId, d: nat): (r: Option<FrameId>)
    requires WellFormed(fs) && f < |fs|
    ensures r.Some? ==> r.value < |fs| && r.value <= f
    ensures d == 0 ==> r == Some(f)
  {
    if d == 0 then Some(f)
    else match fs[f].enclosing
      case Some(p) => Ancestor(fs, p, d - 1)
      case None => None
  }

  /** `GetAt`: a read of the frame `d` links up, which must exist and hold the name. */
  function GetAt(fs: Frames, f: FrameId, d: nat, name: string): (r: Result<Value, HostFault>)
    requires WellFormed(fs) && f < |fs|
    ensures r.Ok? <==> Ancestor(fs, f, d).Some? && name in fs[Ancestor(fs, f, d).value].values
    ensures r.Err? ==> r.error == (if Ancestor(fs, f, d).None? then NullReference else KeyNotFound)
  {
    match Ancestor(fs, f, d)
    case None => Err(NullReference)
    case Some(a) => if name in fs[a].values then Ok(fs[a].values[name]) else Err(KeyNotFound)
  }

  /** `AssignAt`: binds the name in the frame `d` links up, inserting it if absent. */
  function AssignAt(fs: Frames, f: FrameId, d: nat, name: Token, v: Value): (r: Result<Frames, HostFault>)
    requires WellFormed(fs) && f < |fs|
    ensures r.Err? <==> Ancestor(fs, f, d).None?
    ensures r.Err? ==> r.error == NullReference
    ensures r.Ok? ==> |r.value| == |fs| && WellFormed(r.value)
  {
    match Ancestor(fs, f, d)
    case None => Err(NullReference)
    case Some(a) => Ok(Define(fs, a, name.lexeme, v))
  }

  /** The number of links from `f` to the nearest frame that binds `name`, if any does. */
  function Distance(fs: Frames, f: FrameId, name: string): (r: Option<nat>)
    requires WellFormed(fs) && f < |fs|
    decreases f
  {
    if name in fs[f].values then Some(0)
    else match fs[f].enclosing
      case Some(p) => (match Distance(fs, p, name) case Some(d) => Some(d + 1) case None => None)
      case None => None
  }

  // ---------------------------------------------------------------------------------------
  // Properties

  /**
   * The host's loop takes one link per iteration from the start; the definition above
   * peels links from the front. Both count the same links: one more step is one more
   * link from the frame reached so far.
   */
  lemma {:induction false} AncestorStep(fs: Frames, f: FrameId, d: nat)
    requires WellFormed(fs) && f < |fs|
    ensures Ancestor(fs, f, d + 1) ==
              match Ancestor(fs, f, d)
              case None => None
              case Some(a) => fs[a].enclosing
    decreases d
  {
    if d > 0 {
      match fs[f].enclosing
      case Some(p) => AncestorStep(fs, p, d - 1);
      case None =>
    }
  }

  /**
   * `Distance` names the nearest binding frame: it exists `d` links up, binds the name,
   * and no frame fewer links up does; `None` means no frame of the chain binds it.
   */
  lemma {:induction false} DistanceIsNearest(fs: Frames, f: FrameId, name: string)
    requires WellFormed(fs) && f < |fs|
    ensures var r := Distance(fs, f, name);
            r.Some? ==> Ancestor(fs, f, r.value).Some? && name in fs[Ancestor(fs, f, r.value).value].values
    ensures var r := Distance(fs, f, name);
            forall j :: 0 <= j && (r.None? || j < r.value) && Ancestor(fs, f, j).Some? ==>
              name !in fs[Ancestor(fs, f, j).value].values
    decreases f
  {
    if name !in fs[f].values {
      match fs[f].enclosing
      case Some(p) =>
        DistanceIsNearest(fs, p, name);
        forall j | 0 < j
          ensures Ancestor(fs, f, j) == Ancestor(fs, p, j - 1)
        {
        }
      case None =>
        forall j | 0 < j
          ensures Ancestor(fs, f, j).None?
        {
        }
    }
  }

  /**
   * The resolver's promise: looking a name up along the chain gives what a read at the
   * distance of its nearest binding frame gives, and an undefined name has no such frame.
   */
  lemma {:induction false} GetIsGetAtDistance(fs: Frames, f: FrameId, name: Token)
    requires WellFormed(fs) && f < |fs|
    ensures Distance(fs, f, name.lexeme).None? <==> Get(fs, f, name).Err?
    ensures Distance(fs, f, name.lexeme).Some? ==>
              GetAt(fs, f, Distance(fs, f, name.lexeme).value, name.lexeme) == Ok(Get(fs, f, name).value)
    decreases f
  {
    if name.lexeme !in fs[f].values {
      match fs[f].enclosing
      case Some(p) => GetIsGetAtDistance(fs, p, name);
      case None =>
    }
  }

  /** Likewise an assignment along the chain is an assignment at the nearest binding's distance. */
  lemma {:induction false} AssignIsAssignAtDistance(fs: Frames, f: FrameId, name: Token, v: Value)
    requires WellFormed(fs) && f < |fs|
    ensures Distance(fs, f, name.lexeme).None? <==> Assign(fs, f, name, v).Err?
    ensures Distance(fs, f, name.lexeme).Some? ==>
              AssignAt(fs, f, Distance(fs, f, name.lexeme).value, name, v) == Ok(Assign(fs, f, name, v).value)
    decreases f
  {
    if name.lexeme !in fs[f].values {
      match fs[f].enclosing
      case Some(p) => AssignIsAssignAtDistance(fs, p, name, v);
      case None =>
    }
  }

  /** A read after a write at the same distance and name gives the written value. */
  lemma GetAtAfterAssignAt(fs: Frames, f: FrameId, d: nat, name: Token, v: Value)
    requires WellFormed(fs) && f < |fs| && AssignAt(fs, f, d, name, v).Ok?
    ensures GetAt(AssignAt(fs, f, d, name, v).value, f, d, name.lexeme) == Ok(v)
  {
    var a := Ancestor(fs, f, d).value;
    var fs' := AssignAt(fs, f, d, name, v).value;
    AncestorUnchanged(fs, fs', f, d);
  }

  /**
   * `AssignAt` changes one binding of one frame: every other frame, and every other name
   * of that frame, keeps its bindings.
   */
  lemma AssignAtChangesOneBinding(fs: Frames, f: FrameId, d: nat, name: Token, v: Value)
    requires WellFormed(fs) && f < |fs| && AssignAt(fs, f, d, name, v).Ok?
    ensures var a := Ancestor(fs, f, d).value;
            var fs' := AssignAt(fs, f, d, name, v).value;
            (forall g :: 0 <= g < |fs| && g != a ==> fs'[g] == fs[g])
            && fs'[a].enclosing == fs[a].enclosing
            && (forall n :: n != name.lexeme ==> (n in fs'[a].values <==> n in fs[a].values))
            && (forall n :: n != name.lexeme && n in fs[a].values ==> fs'[a].values[n] == fs[a].values[n])
  {
  }

  /** Rebinding names keeps every parent link, so every ancestor stays where it was. */
  lemma {:induction false} AncestorUnchanged(fs: Frames, fs': Frames, f: FrameId, d: nat)
    requires WellFormed(fs) && WellFormed(fs') && f < |fs| && |fs'| == |fs|
    requires forall g :: 0 <= g < |fs| ==> fs'[g].enclosing == fs[g].enclosing
    ensures Ancestor(fs', f, d) == Ancestor(fs, f, d)
    decreases d
  {
    if d > 0 {
      match fs[f].enclosing
      case Some(p) => AncestorUnchanged(fs, fs', p, d - 1);
      case None =>
    }
  }

  /** Appending a frame leaves every chain of the older frames as it was. */
  lemma {:induction false} AncestorAfterNewFrame(fs: Frames, enclosing: Option<FrameId>, f: FrameId, d: nat)
    requires WellFormed(fs) && f < |fs| && (enclosing.Some? ==> enclosing.value < |fs|)
    ensures Ancestor(NewFrame(fs, enclosing), f, d) == Ancestor(fs, f, d)
    decreases d
  {
    if d > 0 {
      match fs[f].enclosing
      case Some(p) => AncestorAfterNewFrame(fs, enclosing, p, d - 1);
      case None =>
    }
  }
}
