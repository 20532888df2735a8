/**
 * A job: the queue it belongs to, its body, the broker's id for it (null
 * until a broker hands it out), and the delay, priority and time-to-run
 * that a broker honours. `JobValue` is a job as a value; `Job` is the
 * mutable object whose delay, priority and time-to-run the setters change.
 */
module Jobs {
  import opened PhpValues

  const DefaultDelay := 0
  const DefaultPriority := 1024
  const DefaultTtr := 60

  /** `int|string|null`, the type of a job id. */
  datatype JobId = NoId | IntId(i: int) | StrId(s: string)

  datatype JobValue = JobValue(queue: string, body: Value, id: JobId, delay: int, priority: int, ttr: int)

  /** The id as a PHP value. */
  function IdValue(id: JobId): Value {
    match id
    case NoId => Null
    case IntId(i) => Int(i)
    case StrId(s) => Str(s)
  }

  /** The timestamp `getDatetimeDelay()` reports at time `now`: when the job becomes due. */
  function DatetimeDelayAt(now: int, delay: int): (t: int)
    ensures t - now == delay
    ensures t >= now <==> delay >= 0
  {
    now + delay
  }

  /**
   * The delay `setDatetimeDelay(deadline)` stores at time `now`, as written:
   * the clock minus the deadline, clamped at zero. A deadline that is not
   * in the past always gives zero.
   */
  function SetDatetimeDelayAsWritten(now: int, deadline: int): (d: nat)
    ensures deadline >= now ==> d == 0
    ensures deadline < now ==> d == now - deadline
  {
    var value := now - deadline;
    if value < 0 then 0 else value
  }

  /** The delay that makes the job due at `deadline`: the inverse of `DatetimeDelayAt`. */
  function DelayUntil(now: int, deadline: int): (d: nat)
    ensures deadline >= now ==> DatetimeDelayAt(now, d) == deadline
    ensures deadline < now ==> d == 0
  {
    var value := deadline - now;
    if value < 0 then 0 else value
  }

  /** Setting a deadline of `getDatetimeDelay()` gives back the delay, for the corrected setter. */
  lemma DelayUntilInvertsDatetimeDelay(now: int, delay: nat)
    ensures DelayUntil(now, DatetimeDelayAt(now, delay)) == delay
  {
  }

  /** A deadline two minutes ahead: the setter as written stores 0, not 120. */
  lemma SetDatetimeDelayAsWrittenDropsFutureDeadline(now: int)
    ensures SetDatetimeDelayAsWritten(now, DatetimeDelayAt(now, 120)) == 0
    ensures DelayUntil(now, DatetimeDelayAt(now, 120)) == 120
  {
  }

  class Job {
    const queue: string
    const body: Value
    const id: JobId
    var delay: int
    var priority: int
    var ttr: int

    /** `new Job(queue, body, id = null, delay = 0, priority = 1024, ttr = 60)`. */
    constructor (queue: string, body: Value, id: JobId := NoId, delay: int := DefaultDelay,
                 priority: int := DefaultPriority, ttr: int := DefaultTtr)
      ensures View() == JobValue(queue, body, id, delay, priority, ttr)
    {
      this.queue := queue;
      this.body := body;
      this.id := id;
      this.delay := delay;
      this.priority := priority;
      this.ttr := ttr;
    }

    /** The job's current fields, which the getters return one by one. */
    function View(): JobValue
      reads this
    {
      JobValue(queue, body, id, delay, priority, ttr)
    }

    /** `getDatetimeDelay()` at time `now`. */
    function DatetimeDelay(now: int): (t: int)
      reads this
      ensures t - now == delay
      ensures delay >= 0 ==> DelayUntil(now, t) == delay
    {
      DatetimeDelayAt(now, delay)
    }

    method SetDelay(value: int)
      modifies this`delay
      ensures View() == old(View()).(delay := value)
    {
      delay := value;
    }

    method SetTtr(value: int)
      modifies this`ttr
      ensures View() == old(View()).(ttr := value)
    {
      ttr := value;
    }

    method SetPriority(value: int)
      modifies this`priority
      ensures View() == old(View()).(priority := value)
    {
      priority := value;
    }

    /** `setDatetimeDelay(deadline)` at time `now`, as written. */
    method SetDatetimeDelay(deadline: int, now: int)
      modifies this`delay
      ensures View() == old(View()).(delay := SetDatetimeDelayAsWritten(now, deadline))
      ensures delay >= 0
    {
      var value := now - deadline;
      if value < 0 {
        value := 0;
      }
      SetDelay(value);
    }
  }

  /** A job built with every optional argument omitted. */
  method NewJobWithDefaults(queue: string, body: Value) returns (job: Job)
    ensures fresh(job)
    ensures job.View() == JobValue(queue, body, NoId, 0, 1024, 60)
  {
    job := new Job(queue, body);
  }
}
