/** Failure-carrying results for the operations that raise in the original
    program. Each error constructor names the Python exception it stands for. */
module Results {

  datatype Error =
    | ValueError        // unsupported symbol, base outside the whitelist
    | IndexError        // numpy index outside the array
    | ShapeError        // numpy operands whose shapes do not align
    | RecursionError    // a recursion that never reaches its base case
    | NotExact          // a value that needs sqrt(2); outside this exact model

  datatype Result<+T> = Ok(value: T) | Err(error: Error) {
    predicate IsFailure() { Err? }

    function PropagateFailure<U>(): Result<U>
      requires Err?
    {
      Err(error)
    }

    function Extract(): T
      requires Ok?
    {
      value
    }
  }

  datatype Option<+T> = None | Some(value: T)
}
