/** Optional values and the outcome of an operation that can fail the way
    the C++ program fails: a trap, a null-pointer dereference, an
    out-of-range array access or a loop that never ends. */
module Outcomes {

  datatype Option<T> = None | Some(value: T) {

    predicate IsFailure() {
      None?
    }

    function PropagateFailure<U>(): Option<U>
      requires None?
    {
      None
    }

    function Extract(): T
      requires Some?
    {
      value
    }
  }

  /** Why a computation has no defined result. */
  datatype Fault =
    | DivideByZero        // integer `/` or `%` by zero traps
    | NullNode            // a null `ExprNode*` (or list element) is dereferenced
    | UnknownFunction(name: string)  // `funs[name]` default-constructs a definition with no body
    | OutOfFuel           // the bound on nested user-function calls was reached
    | StackUnderflow      // `pop_front` on an empty list
    | EndOfInput          // the token iterator is read past the end of the list
    | TooManyParameters   // a write past the 10-slot parameter array
    | NoRegister          // a `dc` register is loaded before anything was stored in it
    | ArrayOverrun        // a fixed-size array is indexed outside its bounds
    | UnknownOperator     // the `default:` case of the postfix evaluator

  datatype Result<T> = Ok(value: T) | Err(fault: Fault) {

    predicate IsFailure() {
      Err?
    }

    function PropagateFailure<U>(): Result<U>
      requires Err?
    {
      Err(fault)
    }

    function Extract(): T
      requires Ok?
    {
      value
    }
  }
}
