/** Values shared by the whole model: optional values (a Java reference that may be
    null), the two domain error kinds the services raise, and the result shapes that
    replace exceptions. */
module Common {

  /** A nullable Java value: `None` stands for `null`. */
  datatype Option<+T> = None | Some(value: T)

  /** The domain errors of the service layer: ResourceNotFoundException and
      DatabaseException. */
  datatype ServiceError = NotFound | DatabaseError

  /** The result of an operation that returns a value or throws one of the domain errors. */
  datatype Result<+T> = Ok(value: T) | Err(error: ServiceError)

  /** The result of an operation that returns nothing (`void`) or throws a domain error. */
  datatype Outcome = Done | Failed(error: ServiceError)

  /** Applies `f` to every element, keeping the order: the `stream().map(..)` and the
      `forEach(x -> list.add(..))` idioms of the services and transfer objects. */
  function Map<A, B>(f: A -> B, xs: seq<A>): (ys: seq<B>)
    ensures |ys| == |xs|
    ensures forall i :: 0 <= i < |xs| ==> ys[i] == f(xs[i])
  {
    if xs == [] then [] else [f(xs[0])] + Map(f, xs[1..])
  }
}
