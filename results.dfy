/** Outcomes of the fallible operations of the utilities package.

    Go returns "(*value, error)" pairs; here each such pair is one value of
    `Result<T>`. A third outcome, `FloatPath`, marks a call whose answer is
    decided by floating-point arithmetic, which this model does not carry
    out: the source then either succeeds with a float-dependent value or
    fails, and the model does not say which. */
module Results {

  /** What went wrong, one constructor per kind of error message the source produces. */
  datatype Error =
    | OutOfRange             // "... out of range: Any2Int32" and friends
    | CannotConvert          // "cannot convert ... to int32", "cannot convert to string", ...
    | CannotConvertString    // GTAny: left operand a string, right one not
    | CannotConvertDate      // GTAny: left operand a date, right one not; also Any2Date's failure
    | UnsupportedComparison  // GTAny on a type it does not handle
    | CannotCompare          // LTAny on a type it does not handle: "cannot compare: LTAny"
    | UnsupportedOperator    // Comparer with an operator outside the six
    | NilInput               // Any2Kind of nil
    | KindConversion         // Any2Kind: "unsupported type or conversion error"
    | UnmatchedStart         // Matched: "unmatched startChar"
    | NotYesNo               // YesNo: "expected yes/no"
    | NoExtension            // Fig2File: "no extension allowed for outFile"
    | IllegalPlotType        // Fig2File: "illegal plotType"

  datatype Result<+T> = Ok(value: T) | Err(error: Error) | FloatPath {

    predicate IsFailure() {
      !Ok?
    }

    function PropagateFailure<U>(): (r: Result<U>)
      requires !Ok?
      ensures r.Err? == Err? && r.FloatPath? == FloatPath?
    {
      if Err? then Err(error) else FloatPath
    }

    function Extract(): T
      requires Ok?
    {
      value
    }
  }

  datatype Option<+T> = None | Some(value: T)
}
