/*
 * Error codes shared by libballoon and libbaghash.
 *
 * The first group is the enumeration of libballoon/errors.h, in its order.
 * The second group holds the codes the sources return although no header in
 * this model declares them.  ErrorDrawLimit is the one code of the model's
 * own: it stands for a rejection-sampling loop that the model cuts off after
 * a fixed number of attempts (see BagBitstream.ATTEMPT_LIMIT).
 */
module Errors {

  datatype ErrorCode =
    | ErrorNone
    | ErrorIncompatibleOptions
    | ErrorNullPointer
    | ErrorMalloc
    | ErrorMcostTooSmall
    | ErrorMcostTooBig
    | ErrorTcostTooSmall
    | ErrorTcostTooBig
    | ErrorInlenTooBig
    | ErrorNthreadsTooBig
    | ErrorCannotExtractBeforeMix
    | ErrorOpensslHash
    | ErrorOpensslAes
    | ErrorBitstreamUninitialized
    | ErrorBitstreamFinalized
    | ErrorBitstreamMaxTooSmall
    | ErrorPthread
    | ErrorUrandom
    | ErrorSnprintf
    | ErrorParse
    // used by the sources, declared in no header of this model
    | ErrorNoNeighbors
    | ErrorInvalidCompressionMethod
    | ErrorInvalidMixMethod
    | ErrorKeccak
    | ErrorBlake2b
    | ErrorEcho
    | ErrorSempira
    | ErrorDoublePipelineMustUseXor
    | ErrorScostTooSmall
    | ErrorScostTooBig
    | ErrorOutlenTooSmall
    | ErrorOutlenTooBig
    | ErrorInlenTooSmall
    | ErrorSaltlenTooSmall
    | ErrorSaltlenTooBig
    // the model's own: a rejection loop gave up
    | ErrorDrawLimit

  /** A value or the error code that took its place. */
  datatype Result<T> = Ok(value: T) | Err(error: ErrorCode)

  datatype Option<T> = None | Some(value: T)

  /** The first error of a sequence of per-worker return codes, in index order. */
  function FirstError(errs: seq<ErrorCode>): (e: ErrorCode)
    ensures e == ErrorNone <==> forall i :: 0 <= i < |errs| ==> errs[i] == ErrorNone
    ensures e != ErrorNone ==> exists i :: 0 <= i < |errs| && errs[i] == e
                                && forall j :: 0 <= j < i ==> errs[j] == ErrorNone
  {
    if |errs| == 0 then ErrorNone
    else if errs[0] != ErrorNone then errs[0]
    else
      var rest := FirstError(errs[1..]);
      assert forall i :: 1 <= i < |errs| ==> errs[i] == errs[1..][i - 1];
      rest
  }
}
