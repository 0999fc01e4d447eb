/**
  What a part extractor can throw, what `execute` throws, and how the
  engine turns the first into the second.
 */
module Failures {

  /** Throwables that reach the engine from a part task. */
  datatype Thrown =
    | IOException
    | InternalException(message: string)
    | OutOfMemoryError
    | NullPointerException
    | OtherThrowable
      /** `Future.get` wraps whatever the task threw. */
    | ExecutionException(cause: Thrown)

  /** Exceptions `execute` ends with. */
  datatype Error =
    | IOError
    | Internal(message: string)
    | NumberFormat
    | Arithmetic
    | IllegalArgument

  /** The exception `execute` throws, and whether it first stopped the pool with `shutdownNow`. */
  datatype Failure = Failure(error: Error, shutdownNow: bool)

  const FATAL_OOM: string := "Fatal out of memory"
  const CAUGHT_FROM_EXTRACTOR: string := "Caught exception from PartExtractor"

  /**
    The engine's classification of a cause: an `IOException` or
    `InternalException` is rethrown as itself, an `OutOfMemoryError` stops
    the pool and becomes a fatal `InternalException`, and anything else
    becomes a generic `InternalException`.
   */
  function ClassifyCause(cause: Thrown): (f: Failure)
    ensures f.shutdownNow <==> cause == OutOfMemoryError
    ensures f.error == IOError <==> cause == IOException
    ensures cause.InternalException? ==> f.error == Internal(cause.message)
    ensures cause == OutOfMemoryError ==> f.error == Internal(FATAL_OOM)
    ensures f.error.IOError? || f.error.Internal?
    ensures !(cause == IOException || cause.InternalException? || cause == OutOfMemoryError)
            ==> f == Failure(Internal(CAUGHT_FROM_EXTRACTOR), false)
  {
    match cause
    case IOException => Failure(IOError, false)
    case InternalException(m) => Failure(Internal(m), false)
    case OutOfMemoryError => Failure(Internal(FATAL_OOM), true)
    case _ => Failure(Internal(CAUGHT_FROM_EXTRACTOR), false)
  }

  /**
    The classification as the engine runs it: the stream lambda wraps the
    `ExecutionException` from `Future.get` (not the task's own throwable) in
    an `InternalRuntimeException`, so the chain inspects the
    `ExecutionException`.
   */
  function ClassifyAsWritten(taskThrew: Thrown): (f: Failure)
    ensures f == Failure(Internal(CAUGHT_FROM_EXTRACTOR), false)
  {
    ClassifyCause(ExecutionException(taskThrew))
  }

  /**
    A part whose transport fails with an `IOException`: as written,
    `execute` throws an `InternalException` instead of the `IOException`
    its IOException branch is there to rethrow.
   */
  lemma AsWrittenLosesIOException()
    ensures ClassifyAsWritten(IOException).error == Internal(CAUGHT_FROM_EXTRACTOR)
    ensures ClassifyCause(IOException).error == IOError
  {
  }

  /**
    The evidently intended classification: unwrap the `ExecutionException`
    and classify what the task threw.
   */
  function ClassifyTaskFailure(taskThrew: Thrown): (f: Failure)
    ensures taskThrew == IOException ==> f == Failure(IOError, false)
    ensures taskThrew.InternalException? ==> f == Failure(Internal(taskThrew.message), false)
    ensures taskThrew == OutOfMemoryError ==> f == Failure(Internal(FATAL_OOM), true)
    ensures taskThrew == NullPointerException ==> f == Failure(Internal(CAUGHT_FROM_EXTRACTOR), false)
  {
    ClassifyCause(taskThrew)
  }
}
