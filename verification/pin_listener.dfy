/** The listener contract between the keypad and the screen: the result codes
    handed back to the launching screen, and the calls whose order the model
    observes. */
module PinListener {
  import opened Wrappers

  /** Integer result codes (PinListener.kt, companion object). */
  const SUCCESS: int := 0
  const CANCELLED: int := 1
  const INVALID: int := 3
  const FORGOT: int := 4

  /** The set of integers that are result codes. */
  const ResultCodes: set<int> := {SUCCESS, CANCELLED, INVALID, FORGOT}

  datatype ResultCode = Success | Cancelled | Invalid | Forgot

  /** The integer a result code is reported as. */
  function Code(rc: ResultCode): (c: int)
    ensures c in ResultCodes
  {
    match rc
    case Success => SUCCESS
    case Cancelled => CANCELLED
    case Invalid => INVALID
    case Forgot => FORGOT
  }

  /** Reads an integer back as a result code; `None` for any other integer. */
  function FromCode(c: int): (r: Option<ResultCode>)
    ensures r.Some? <==> c in ResultCodes
  {
    if c == SUCCESS then Some(Success)
    else if c == CANCELLED then Some(Cancelled)
    else if c == INVALID then Some(Invalid)
    else if c == FORGOT then Some(Forgot)
    else None
  }

  /** The four codes have the documented values. */
  lemma CodeValues()
    ensures Code(Success) == 0 && Code(Cancelled) == 1
    ensures Code(Invalid) == 3 && Code(Forgot) == 4
  {
  }

  /** Every result code survives being reported as an integer and read back. */
  lemma CodeRoundTrip(rc: ResultCode)
    ensures FromCode(Code(rc)) == Some(rc)
  {
  }

  /** Every integer that reads as a result code is reported as itself. */
  lemma FromCodeRoundTrip(c: int)
    requires c in ResultCodes
    ensures FromCode(c).Some? && Code(FromCode(c).value) == c
  {
  }

  /** The four codes are pairwise distinct: no two outcomes share an integer. */
  lemma CodesDistinct(a: ResultCode, b: ResultCode)
    ensures Code(a) == Code(b) <==> a == b
  {
    CodeRoundTrip(a);
    CodeRoundTrip(b);
  }

  /** The calls made during one event, in the order they are made: the three
      listener callbacks (`onPinValueChange`, `onCompleted`, `onForgotPin`)
      and the two platform calls that end a screen (`setResult`, `finish`). */
  datatype Call =
    | PinValueChange(length: nat)
    | Completed(pin: string)
    | ForgotPin
    | SetResult(code: ResultCode)
    | Finish
}
