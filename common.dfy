/** Shared vocabulary of the model: bytes, the error outcomes that stand for
    the reader's fatal exits and uncaught Python exceptions, and the
    failure-compatible Option and Result wrappers. */
module Common {

  /** One byte of the audited file. */
  type Byte = b: int | 0 <= b < 256

  /** The character Python's `chr` gives for a byte. */
  function Chr(b: Byte): char { b as char }

  /** The characters of a run of bytes, as the reader builds its strings. */
  function Chars(s: seq<Byte>): (r: string)
    ensures |r| == |s|
    ensures forall i :: 0 <= i < |s| ==> r[i] == Chr(s[i])
  {
    if s == [] then [] else Chars(s[..|s| - 1]) + [Chr(s[|s| - 1])]
  }

  /** Every way the reader stops before reaching an answer. */
  datatype Error =
    | EndOfData                  // `file.read(1)[0]` on an exhausted file: IndexError
    | EmptyToken                 // `ord(foundword[0])` on the empty word: IndexError
    | NotANumber                 // `num` halts, or Python's `int` raises ValueError
    | UnexpectedToken(token: string) // readobject's `sys.exit(0)`
    | UnhashableKey              // a list or dictionary used as a dictionary key
    | NotInCrossReference(num: int, gen: int) // `hex(None)` in getobjectpos
    | NegativeSeek               // `seek` to a negative absolute position
    | BadReadLength              // `read(n)` with n < -1
    | NotADictionary             // `.get` on a value that is not a dictionary
    | WrongType                  // any other TypeError of the source
    | MissingKey                 // `del` of an absent key: KeyError
    | ZeroRowWidth               // `range(0, len, 0)`: ValueError
    | PredictorNotImplemented    // halt("XREF Stream predictor not implemented")
    | EmptyCrossReference        // `list(crossreflist.keys())[0]` on an empty table
    | NoStartxref                // `start` never assigned: UnboundLocalError
    | StartxrefNotFound          // findstartback seeks before the start of the file
    | Hang                       // the source loops forever without reading
    | DepthExceeded              // nesting deeper than the model's depth bound

  /** The result of a step that computes nothing but may fail. */
  datatype Outcome = Pass | Fail(error: Error)

  datatype Option<+T> = None | Some(value: T)

  datatype Result<+T> = Success(value: T) | Failure(error: Error) {
    predicate IsFailure() { Failure? }
    function PropagateFailure<U>(): Result<U>
      requires Failure?
    {
      Failure(error)
    }
    function Extract(): T
      requires Success?
    {
      value
    }
  }
}
