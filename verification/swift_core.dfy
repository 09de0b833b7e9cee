/** Value-level stand-ins for the two Swift language features every other module
    needs: optionals (`T?`) and calls that may `throw`. */
module SwiftCore {

  /** `T?`: either `nil` or a wrapped value. */
  datatype Optional<+T> = None | Some(value: T)

  /** The outcome of calling a `throws` function: it returned a value or threw an error. */
  datatype Throwing<+T, +E> = Returned(value: T) | Threw(error: E)

  /** `try? f()`: a thrown error becomes `nil`. */
  function Try<T, E>(t: Throwing<T, E>): (r: Optional<T>)
    ensures r.Some? <==> t.Returned?
    ensures r.Some? ==> r.value == t.value
  {
    match t
    case Returned(v) => Some(v)
    case Threw(_) => None
  }

  /** `o ?? fallback` */
  function OrElse<T>(o: Optional<T>, fallback: T): (r: T)
    ensures o.Some? ==> r == o.value
    ensures o.None? ==> r == fallback
  {
    match o
    case Some(v) => v
    case None => fallback
  }
}
