/** Failure-compatible result type shared by the whole engine.

    The C++ core reports precondition violations with GSL `Expects`, which
    throws; reads and writes past the end of a fixed-size `std::array` are
    undefined behaviour there. Both are modelled as a `Failure` carrying the
    reason, so that a handler is a total function `Context -> Result<Context>`.
 */
module Faults {

  datatype Option<+T> = None | Some(value: T)

  /** Why an operation of the engine could not complete. */
  datatype Fault =
    | StackOverflow          // CALL with SP already at the stack size
    | StackUnderflow         // RET with SP == 0 (or SP past the stack)
    | FontDigitOutOfRange    // LD F / LD HF with a digit >= 16
    | RplIndexOutOfRange     // LD R / LD Vx,R with X >= 8
    | MemoryOutOfRange       // an access at or past address 4096
    | KeyOutOfRange          // SKP / SKNP with Vx >= 16
    | UnknownOpcode          // no instruction table entry matches
    | NotImplemented         // the SCD disassembly formatter

  datatype Result<+T> = Success(value: T) | Failure(error: Fault) {

    predicate IsFailure() {
      Failure?
    }

    function PropagateFailure<U>(): Result<U>
      requires Failure?
    {
      Failure(error)
    }

    function Extract(): T
      requires Success?
    {
      value
    }
  }
}
