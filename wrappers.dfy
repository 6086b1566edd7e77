/** The optional value used wherever the source may hold `undefined`. */
module Wrappers {

  datatype Option<+T> = None | Some(value: T)

  /** Applies `f` to a present value; an absent value stays absent. */
  function MapOption<T, U>(o: Option<T>, f: T -> U): (r: Option<U>)
    ensures r.Some? <==> o.Some?
    ensures o.Some? ==> r.value == f(o.value)
  {
    match o
    case None => None
    case Some(v) => Some(f(v))
  }
}
