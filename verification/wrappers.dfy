/** JavaScript's absent values and thrown TypeErrors, as plain datatypes. */
module Wrappers {

  /** `null`/`undefined` versus a present value. */
  datatype Option<+T> = None | Some(value: T)

  /** The TypeErrors the helpers can throw: reading a property of `undefined`
      (`path` names the access that failed), or handing a Babel builder a
      field value that is not a string (`field` names the field). */
  datatype Error =
    | MissingProperty(path: string)
    | NotAString(field: string)

  /** A computation that either returns a value or throws. */
  datatype Result<+T> = Success(value: T) | Failure(error: Error)

  /** Runs two list-producing computations one after the other and concatenates
      their lists; the first one to throw decides the outcome. */
  function Append<T>(a: Result<seq<T>>, b: Result<seq<T>>): Result<seq<T>>
  {
    if a.Failure? then a
    else if b.Failure? then b
    else Success(a.value + b.value)
  }

  lemma AppendAssociative<T>(a: Result<seq<T>>, b: Result<seq<T>>, c: Result<seq<T>>)
    ensures Append(Append(a, b), c) == Append(a, Append(b, c))
  {
    if a.Success? && b.Success? && c.Success? {
      assert (a.value + b.value) + c.value == a.value + (b.value + c.value);
    }
  }

  lemma AppendEmpty<T>(a: Result<seq<T>>)
    ensures Append(Success([]), a) == a
    ensures Append(a, Success([])) == a
  {
    if a.Success? {
      assert [] + a.value == a.value;
      assert a.value + [] == a.value;
    }
  }
}
