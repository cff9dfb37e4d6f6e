/** How a Go call ends: with a value, with a returned `error`, or with a
    panic (index out of range, `panic(err)` on an I/O failure). */
module Outcomes {

  datatype Outcome<T> = Ok(value: T) | Err(reason: string) | Panic(reason: string)

  /** A failure passed on unchanged to a caller with another result type. */
  function Fail<T, U>(o: Outcome<T>): (r: Outcome<U>)
    requires !o.Ok?
    ensures !r.Ok? && r.reason == o.reason && (r.Err? <==> o.Err?)
  {
    if o.Err? then Err(o.reason) else Panic(o.reason)
  }
}
