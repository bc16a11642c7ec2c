/** `get_db`: one session per request, committed when the request returns and rolled back when it raises. */
module Transactions {
  import opened Collections

  /** How a request handler ends: normally with the session's final state, or with an HTTP error that
      leaves unsaved changes behind. */
  datatype Outcome<+S> = Returned(state: S) | Raised(unsaved: S, status: int)

  /** What the database holds after the request. */
  function Settle<S>(before: S, o: Outcome<S>): S
  {
    match o
    case Returned(state) => state
    case Raised(_, _) => before
  }

  /** The session has done what the handler's specification says; `error` is the status it raised. */
  predicate Did<S(==)>(o: Outcome<S>, state: S, error: Option<int>)
  {
    match o
    case Returned(s) => error == None && state == s
    case Raised(s, code) => error == Some(code) && state == s
  }
}
