/** Identifiers, errors and result types shared by every part of the model. */
module Basics {

  /** Primary keys are TEXT columns; SQLite compares them by their characters. */
  type Id = string

  datatype Option<+T> = None | Some(value: T)

  /** The store's sentinel errors, the raw "no rows" error of a single-row query, and the two codec errors. */
  datatype Error =
    | NotFound
    | FKViolation
    | Conflict
    | InvalidInput(detail: string)
    | NoRows
    | UnknownTitle(title: string)
    | BitsExhausted

  datatype Result<+T> = Ok(value: T) | Err(error: Error) {
    predicate IsFailure() { Err? }

    function PropagateFailure<U>(): Result<U>
      requires Err?
    {
      Err(error)
    }

    function Extract(): T
      requires Ok?
    {
      value
    }
  }

  lemma {:induction false} SubsetSize<T>(a: set<T>, b: set<T>)
    requires a <= b
    ensures |a| <= |b| && (|a| == |b| ==> a == b)
  {
    if a != {} {
      var x :| x in a;
      SubsetSize(a - {x}, b - {x});
    } else if |b| == 0 {
      assert b == {};
    }
  }
}
