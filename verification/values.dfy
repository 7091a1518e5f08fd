/**
 * The run-time value domain of the tree-walking interpreter, and the ways a computation
 * can end. The host passes `object`s around and signals with exceptions; here a value is a
 * datatype and every way out is a constructor of `Completion`.
 */
module Values {
  import opened Tokens

  /** Index of an environment frame in the frame arena. */
  type FrameId = nat

  /** Index of a function, class or instance in the object arena. */
  type ObjectId = nat

  /**
   * `Nil` is the host's `null`, `Num` a host double, `Str` a host string. Functions,
   * classes and instances are host references; `Ref` names them by their arena index,
   * which gives them the host's reference equality.
   */
  datatype Value =
    | Nil
    | Bool(b: bool)
    | Num(n: Number)
    | Str(s: string)
    | Ref(id: ObjectId)

  /** The repository's RuntimeError (src/Core/RuntimeError.cs): the offending token and a message. */
  datatype RuntimeError = RuntimeError(token: Token, message: string)

  /**
   * Host exceptions that are not Lox runtime errors. `Interpret` catches only runtime
   * errors, so any of these ends the host program.
   */
  datatype HostFault =
    | InvalidCast          // unboxing a non-double as a double
    | NullReference        // unboxing null, or following a missing enclosing frame
    | KeyNotFound          // a dictionary read of an absent key
    | ArgumentOutOfRange   // a list read past its end
    | NotImplemented       // a visitor this snapshot leaves unimplemented

  /**
   * How an evaluation ends: normally with a result, with a Lox runtime error, with the
   * `Return` signal of src/Interpreter/Return.cs, or with a host exception.
   */
  datatype Completion<T> =
    | Normal(value: T)
    | Failure(error: RuntimeError)
    | Returning(result: Value)
    | Crash(fault: HostFault)

  /** An abrupt completion carried unchanged across a change of result type. */
  function Abrupt<A, B>(c: Completion<A>): (r: Completion<B>)
    requires !c.Normal?
    ensures !r.Normal?
    ensures r.Failure? == c.Failure? && r.Returning? == c.Returning? && r.Crash? == c.Crash?
    ensures c.Failure? ==> r.error == c.error
    ensures c.Returning? ==> r.result == c.result
    ensures c.Crash? ==> r.fault == c.fault
  {
    match c
    case Failure(e) => Failure(e)
    case Returning(v) => Returning(v)
    case Crash(f) => Crash(f)
  }

  /** The object a literal expression holds, as a run-time value. */
  function FromLiteral(l: LiteralValue): (r: Value)
    ensures r.Ref? == false
    ensures r.Nil? <==> l.NilValue?
  {
    match l
    case NilValue => Value.Nil
    case BoolValue(b) => Bool(b)
    case NumberValue(n) => Num(n)
    case StringValue(s) => Str(s)
  }
}
