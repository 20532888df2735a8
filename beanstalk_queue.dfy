/**
 * The Beanstalk job queue: it routes a job either to the scheduler (when its
 * delay is longer than the scheduler accepts on the broker) or to the broker
 * tube, and maps the worker's outcomes onto delete, release and bury. The
 * broker connection and the scheduler are collaborators; the queue records
 * the calls it makes to them, in order, and the broker's answer to a
 * reservation is given to `Retrieve`.
 */
module BeanstalkQueue {
  import opened Wrappers
  import opened PhpValues
  import opened Jobs
  import opened Errors
  import opened JobSpec
  import Scheduler
  import BeanstalkFactory
  import Codec

  /** A call on the broker connection or the scheduler. */
  datatype Call =
    | UseTube(tube: string)
    | Put(data: string, priority: int, delay: int, ttr: int)
    | Delete(id: JobId)
    | Release(id: JobId, priority: int, delay: int)
    | Bury(id: JobId)
    | Watch(tube: string)
    | Ignore(tube: string)
    | Reserve(timeout: Option<int>)
    | Store(job: JobValue)

  /** The broker's answer to `reserve`: a raw job, or one of its exceptions. */
  datatype Reservation = Reserved(data: PhpArray) | NothingReserved(code: NotFoundCode) | ReserveFailed(e: Thrown)

  const DefaultRetrieveTimeout := 5

  /** The calls `put($job)` makes for a scheduler whose threshold is `maximumDelay`. */
  function PutCalls(maximumDelay: int, j: JobValue): (r: seq<Call>)
    ensures |r| >= 1 && (r[|r| - 1] == Store(j) || r[|r| - 1].Put?)
    ensures r[|r| - 1].Store? ==> r == [Store(j)]
    ensures r[|r| - 1].Put? ==>
      r == [UseTube(j.queue), Put(r[|r| - 1].data, j.priority, j.delay, j.ttr)] &&
      Codec.Unserialize(r[|r| - 1].data) == Some(Array(SpecArray(j)))
  {
    if Scheduler.ShouldBeScheduled(maximumDelay, j.delay) then [Store(j)]
    else [UseTube(j.queue), Put(BeanstalkFactory.SerializeBody(j), j.priority, j.delay, j.ttr)]
  }

  /** The calls `markAsIncomplete($job)` makes. */
  function IncompleteCalls(maximumDelay: int, j: JobValue): (r: seq<Call>)
    ensures |r| >= 1 && (r[|r| - 1] == Store(j) || r[|r| - 1] == Release(j.id, j.priority, j.delay))
    ensures r[|r| - 1].Release? ==> r == [UseTube(j.queue), r[|r| - 1]]
    ensures forall c :: c in r && c.Delete? ==> c.id == j.id && j.id != NoId
  {
    if Scheduler.ShouldBeScheduled(maximumDelay, j.delay) then
      (if j.id != NoId then [Delete(j.id)] else []) + [Store(j)]
    else [UseTube(j.queue), Release(j.id, j.priority, j.delay)]
  }

  /** `filter_var($value, FILTER_VALIDATE_INT, ['options' => ['min_range' => 0]])` accepts it, or it is null. */
  predicate ValidTimeout(value: Option<int>) {
    value.None? || value.value >= 0
  }

  /** What `retrieve` returns or throws for the broker's answer. */
  function ReserveOutcome(reservation: Reservation): (r: Outcome<Option<JobValue>>)
    ensures r == Done(None) <==> reservation == NothingReserved(ReserveNoJobsAvailable)
    ensures reservation.NothingReserved? && reservation.code.OtherNotFoundCode? ==> r == Raised(NotFound(reservation.code))
    ensures reservation.ReserveFailed? ==> r == Raised(reservation.e)
    ensures reservation.Reserved? ==>
      (r.Done? <==> BeanstalkFactory.CreateFromRaw(reservation.data).Done?) &&
      (r.Done? ==> r.value == Some(BeanstalkFactory.CreateFromRaw(reservation.data).value))
  {
    match reservation
    case NothingReserved(code) => if code == ReserveNoJobsAvailable then Done(None) else Raised(NotFound(code))
    case ReserveFailed(e) => Raised(e)
    case Reserved(data) =>
      match BeanstalkFactory.CreateFromRaw(data)
      case Done(job) => Done(Some(job))
      case Raised(e) => Raised(e)
  }

  /** A job above the threshold only reaches the scheduler; one at or below it only reaches the broker. */
  lemma PutRoutes(maximumDelay: int, j: JobValue)
    ensures Scheduler.ShouldBeScheduled(maximumDelay, j.delay) <==> Store(j) in PutCalls(maximumDelay, j)
    ensures Scheduler.ShouldBeScheduled(maximumDelay, j.delay) <==> forall c :: c in PutCalls(maximumDelay, j) ==> !c.Put?
  {
    if !Scheduler.ShouldBeScheduled(maximumDelay, j.delay) {
      assert PutCalls(maximumDelay, j)[1].Put?;
    }
  }

  /**
   * A job put on the broker and reserved again under broker id `raw` comes
   * back with its queue, body, delay, priority and ttr, carrying that id.
   */
  lemma PutThenReserve(maximumDelay: int, j: JobValue, raw: Value)
    requires !Scheduler.ShouldBeScheduled(maximumDelay, j.delay)
    requires j.body != Null && (raw.Int? || raw.Str?)
    ensures var calls := PutCalls(maximumDelay, j);
      calls[0] == UseTube(j.queue) && calls[1].Put? &&
      ReserveOutcome(Reserved(BeanstalkFactory.Reserved(raw, calls[1].data))) == Done(Some(j.(id := IdOf(raw))))
  {
    BeanstalkFactory.CreateFromRawSerializeBody(j, raw);
  }

  /** An incomplete job that is deferred is deleted (when it has an id) before it is stored, and never released. */
  lemma IncompleteDeferred(maximumDelay: int, j: JobValue)
    requires Scheduler.ShouldBeScheduled(maximumDelay, j.delay)
    ensures var calls := IncompleteCalls(maximumDelay, j);
      calls[|calls| - 1] == Store(j) &&
      (j.id != NoId <==> Delete(j.id) in calls) &&
      (j.id != NoId ==> calls == [Delete(j.id), Store(j)]) &&
      forall c :: c in calls ==> !c.Release?
  {
  }

  /** An incomplete job that is not deferred is released on its own tube with its priority and delay, never stored. */
  lemma IncompleteReleased(maximumDelay: int, j: JobValue)
    requires !Scheduler.ShouldBeScheduled(maximumDelay, j.delay)
    ensures IncompleteCalls(maximumDelay, j) == [UseTube(j.queue), Release(j.id, j.priority, j.delay)]
    ensures forall c :: c in IncompleteCalls(maximumDelay, j) ==> !c.Store?
  {
  }

  class JobQueue {
    /** The threshold of the scheduler this queue was built with. */
    const maximumDelay: int
    var retrieveTimeout: Option<int>
    var trace: seq<Call>

    constructor (maximumDelay: int)
      ensures this.maximumDelay == maximumDelay
      ensures retrieveTimeout == Some(DefaultRetrieveTimeout) && trace == []
    {
      this.maximumDelay := maximumDelay;
      retrieveTimeout := Some(DefaultRetrieveTimeout);
      trace := [];
    }

    /** `put($job)`. */
    method Put(job: Job)
      modifies this`trace
      ensures trace == old(trace) + PutCalls(maximumDelay, job.View())
    {
      var j := job.View();
      if Scheduler.ShouldBeScheduled(maximumDelay, j.delay) {
        trace := trace + [Store(j)];
        return;
      }
      trace := trace + [UseTube(j.queue)];
      trace := trace + [Call.Put(BeanstalkFactory.SerializeBody(j), j.priority, j.delay, j.ttr)];
    }

    /**
     * `setRetrieveTimeout($value)`: null or a non-negative integer is stored;
     * anything else throws and leaves the timeout as it was.
     */
    method SetRetrieveTimeout(value: Option<int>) returns (thrown: Option<Thrown>)
      modifies this`retrieveTimeout
      ensures thrown.None? <==> ValidTimeout(value)
      ensures thrown.Some? ==> thrown.value == InvalidArgument && retrieveTimeout == old(retrieveTimeout)
      ensures thrown.None? ==> retrieveTimeout == value
    {
      if value.Some? && value.value < 0 {
        return Some(InvalidArgument);
      }
      retrieveTimeout := value;
      thrown := None;
    }

    /** `retrieve($queue)`: watch the tube, ignore `default`, reserve with the timeout and decode. */
    method Retrieve(queue: string, reservation: Reservation) returns (r: Outcome<Option<JobValue>>)
      modifies this`trace
      ensures trace == old(trace) + [Watch(queue), Ignore("default"), Reserve(retrieveTimeout)]
      ensures r == ReserveOutcome(reservation)
    {
      trace := trace + [Watch(queue)];
      trace := trace + [Ignore("default")];
      trace := trace + [Reserve(retrieveTimeout)];
      r := DecodeReservation(reservation);
    }

    /** The `try`/`catch` around `reserve` in `retrieve`: the broker's answer turned into the result or the exception. */
    method DecodeReservation(reservation: Reservation) returns (r: Outcome<Option<JobValue>>)
      ensures r == ReserveOutcome(reservation)
    {
      match reservation {
        case NothingReserved(code) =>
          if code != ReserveNoJobsAvailable {
            return Raised(NotFound(code));
          }
          return Done(None);
        case ReserveFailed(e) =>
          return Raised(e);
        case Reserved(data) =>
          var job := BeanstalkFactory.CreateFromRaw(data);
          if job.Raised? {
            return Raised(job.e);
          }
          return Done(Some(job.value));
      }
    }

    /** `markAsComplete($job)`: delete exactly the job's id. */
    method MarkAsComplete(job: Job)
      modifies this`trace
      ensures trace == old(trace) + [Delete(job.id)]
    {
      trace := trace + [Delete(job.id)];
    }

    /** `markAsIncomplete($job)`. */
    method MarkAsIncomplete(job: Job)
      modifies this`trace
      ensures trace == old(trace) + IncompleteCalls(maximumDelay, job.View())
    {
      var j := job.View();
      if Scheduler.ShouldBeScheduled(maximumDelay, j.delay) {
        if j.id != NoId {
          trace := trace + [Delete(j.id)];
        }
        trace := trace + [Store(j)];
        return;
      }
      trace := trace + [UseTube(j.queue)];
      trace := trace + [Release(j.id, j.priority, j.delay)];
    }

    /** `markAsError($job)`: bury exactly the job's id. */
    method MarkAsError(job: Job)
      modifies this`trace
      ensures trace == old(trace) + [Bury(job.id)]
    {
      trace := trace + [Bury(job.id)];
    }
  }
}
