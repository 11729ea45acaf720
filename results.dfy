/**
 * `Result<T>` (Result.swift): the value a completion handler receives, either the value of a
 * throwing expression or the error it threw. A throwing Swift function is modelled as a
 * function or method returning a `Result`; `Thrown` is the outcome of evaluating such an
 * expression inside `do`/`catch`.
 */
module Results {
  import opened Errors

  datatype Result<T> = Success(value: T) | Failure(error: Error)

  /** What evaluating a `throws` expression does: return a value or throw an error. */
  datatype Thrown<T> = Returns(value: T) | Throws(error: Error)

  /** `resolve()`: return the value of a `.Success`, throw the error of a `.Failure`. */
  function Resolve<T>(r: Result<T>): (o: Thrown<T>)
    ensures o.Returns? <==> r.Success?
    ensures o.Returns? ==> o.value == r.value
    ensures o.Throws? ==> o.error == r.error
  {
    match r
    case Success(v) => Returns(v)
    case Failure(e) => Throws(e)
  }

  /** `init(_ throwingExpr:)`: `.Success` when the expression returns, `.Failure` when it throws. */
  function Capture<T>(o: Thrown<T>): (r: Result<T>)
    ensures r.Success? <==> o.Returns?
    ensures r.Success? ==> r.value == o.value
    ensures r.Failure? ==> r.error == o.error
  {
    match o
    case Returns(v) => Success(v)
    case Throws(e) => Failure(e)
  }

  /** `Result { try r.resolve() }` is `r`: resolving a captured outcome loses nothing. */
  lemma CaptureResolve<T>(r: Result<T>)
    ensures Capture(Resolve(r)) == r
  {
  }

  /** Capturing and then resolving gives back the original outcome. */
  lemma ResolveCapture<T>(o: Thrown<T>)
    ensures Resolve(Capture(o)) == o
  {
  }
}
