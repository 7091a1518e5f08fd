/** Small helpers shared by every stage of the interpreter model. */
module Common {

  /** An optional value; `None` stands for the host's `null`. */
  datatype Option<+T> = None | Some(value: T)

  /** Either a value or an error, for operations that report instead of throwing. */
  datatype Result<+T, +E> = Ok(value: T) | Err(error: E)

  /** The number of occurrences of `c` in `s`. */
  function Count(s: string, c: char): nat
  {
    if s == [] then 0 else (if s[0] == c then 1 else 0) + Count(s[1..], c)
  }

  /** Concatenation is associative; stated once so that proofs need not re-derive it. */
  lemma AppendAssoc<T>(a: seq<T>, b: seq<T>, c: seq<T>)
    ensures (a + b) + c == a + (b + c)
  {
  }

  lemma {:induction false} CountAppend(a: string, b: string, c: char)
    ensures Count(a + b, c) == Count(a, c) + Count(b, c)
  {
    if a == [] {
      assert a + b == b;
    } else {
      assert (a + b)[1..] == a[1..] + b;
      CountAppend(a[1..], b, c);
    }
  }
}
