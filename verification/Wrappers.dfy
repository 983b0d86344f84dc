/** Small datatypes and functions shared by every module. */
module Wrappers {

  datatype Option<+T> = None | Some(value: T)
  {
    function GetOr(default: T): T {
      match this
      case Some(v) => v
      case None => default
    }

    function OrElse(other: Option<T>): Option<T> {
      if Some? then this else other
    }
  }

  datatype Result<+T, +E> = Ok(value: T) | Err(error: E)

  /** A member of a JSON object: missing, present with a type the reader does not
      accept (`null` included), or present with a value the reader accepts. */
  datatype Field<+T> = Absent | Mistyped | Is(value: T)
  {
    function ToOption(): Option<T> {
      match this
      case Is(v) => Some(v)
      case _ => None
    }

    function Else(other: Field<T>): Field<T> {
      if Absent? then other else this
    }
  }

  function Min(a: nat, b: nat): nat {
    if a < b then a else b
  }

  function Max(a: nat, b: nat): nat {
    if a < b then b else a
  }
}
