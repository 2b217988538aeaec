/** Values for the outcomes that the flasher reports by returning or by raising. */
module Results {

  function Max(a: nat, b: nat): nat { if a < b then b else a }

  datatype Option<+T> = None | Some(value: T)
  {
    function GetOr(default: T): T {
      if None? then default else value
    }
  }

  /** Why a FatalError is raised. */
  datatype Fault =
    | TooLong                            // transfer larger than the V1 payload
    | ApWoke                             // the inline AP guard heard a byte
    | Transfer                           // a bulk transfer failed or answered badly
    | BadRdid                            // the chip identity did not read back
    | BringUp                            // a session step before the bridge failed
    | BlockProtected
    | NotAligned
    | WelNotLatched(at: nat)
    | WipStuck
    | EraseNoOp(at: nat, responds: bool)
    | VerifyFailed(at: nat)
    | VerifyLength
    | MinPiece(at: nat, cause: Fault)    // a piece of minimum size could not be written
    | BadImageSize
    | NoFmap
    | MissingRegion(name: string)
    | Overlap(name: string)
    | ReadOnlyRegion(name: string)

  /** Fatal is the program's own FatalError; Crash is any other exception, which
      no handler in the flashing code catches. */
  datatype Error = Fatal(why: Fault) | Crash

  datatype Result<+T> = Ok(value: T) | Err(error: Error)
  {
    predicate IsFailure() {
      Err?
    }

    function PropagateFailure<U>(): Result<U>
      requires Err?
    {
      Err(error)
    }

    function Extract(): T
      requires Ok?
    {
      value
    }
  }
}
