/**
 * What the core throws. The library's own exceptions (InvalidArgument,
 * Runtime, JobRuntime) share one marker interface; the others come from
 * PHP itself, the broker client or the console framework. A TypeError is
 * an `\Error`, so `catch (\Exception $e)` does not see it.
 */
module Errors {
  import opened Jobs

  /** The reserve-failure codes of the broker client that the core tells apart. */
  datatype NotFoundCode = ReserveNoJobsAvailable | OtherNotFoundCode(code: int)

  datatype Thrown =
    | InvalidArgument           // Phlib\JobQueue\Exception\InvalidArgumentException
    | Runtime                   // Phlib\JobQueue\Exception\RuntimeException
    | JobRuntime(job: JobValue) // Phlib\JobQueue\Exception\JobRuntimeException, with its job
    | SplInvalidArgument        // \InvalidArgumentException
    | JsonFailure               // \JsonException from a decode with JSON_THROW_ON_ERROR
    | NotFound(code: NotFoundCode) // the Beanstalk client's NotFoundException
    | Logic                     // Symfony's LogicException
    | OtherException            // any other \Exception raised by a collaborator
    | TypeError                 // \TypeError, raised by strict_types argument checks
  {
    /** Caught by `catch (Phlib\JobQueue\Exception\Exception $e)`. */
    predicate IsLibrary() {
      InvalidArgument? || Runtime? || JobRuntime?
    }

    /** Caught by `catch (\Exception $e)`. */
    predicate IsException() {
      !TypeError?
    }
  }

  /** A call that returns a value or throws. */
  datatype Outcome<+T> = Done(value: T) | Raised(e: Thrown)
}
