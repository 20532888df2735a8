/**
 * The worker command: a daemon loop that retrieves a job from its queue,
 * works it, and marks it complete, or as error, by fixed exception rules.
 * The job queue and the concrete `work` are collaborators: what each of
 * their calls returns or throws is given as a script of rounds, and the
 * calls the worker makes on the queue are recorded, in order, in `trace`.
 */
module Worker {
  import opened Wrappers
  import opened Seqs
  import opened Jobs
  import opened Errors

  /** What the queue's `retrieve($queue)` answers. */
  datatype Retrieval = Got(job: JobValue) | NoJob | RetrieveFailed(e: Thrown)

  /** What `work($job, …)` does: return a code, or throw. */
  datatype WorkResult = Code(code: int) | WorkThrew(e: Thrown)

  /**
   * One round of the environment: the retrieve answer; what work does, and
   * whether it clears the daemon's `continue` flag while doing so; and
   * whether markAsComplete and markAsError throw.
   */
  datatype Step = Step(retrieval: Retrieval, work: WorkResult, stops: bool,
                       completeThrows: Option<Thrown>, errorThrows: Option<Thrown>)

  /** A call the worker makes on the job queue, or on its own `work`. */
  datatype Call = Retrieve(queue: string) | Work(job: JobValue) | Complete(job: JobValue) | MarkError(job: JobValue)

  /** The calls of one worked job and the exception that leaves the loop, if any. */
  datatype RoundResult = RoundResult(calls: seq<Call>, thrown: Option<Thrown>)

  /** The worker's answer (0, or what it throws), its calls, and its running flag afterwards. */
  datatype Run = Run(outcome: Outcome<int>, calls: seq<Call>, running: bool)

  /**
   * The `catch` blocks for exception `e` raised while working `job` after
   * `calls`: a library exception (and a TypeError, which is no Exception)
   * leaves unmarked; any other Exception marks the job as error and leaves
   * only when `exitOnException` is set, or when markAsError itself throws.
   */
  function Handle(job: JobValue, calls: seq<Call>, e: Thrown, errorThrows: Option<Thrown>, exitOnException: bool): (r: RoundResult)
    ensures r.calls == calls || r.calls == calls + [MarkError(job)]
    ensures r.calls != calls <==> e.IsException() && !e.IsLibrary()
    ensures r.thrown.None? <==> e.IsException() && !e.IsLibrary() && errorThrows.None? && !exitOnException
    ensures r.thrown.Some? ==> r.thrown == Some(e) || r.thrown == errorThrows
  {
    if e.IsLibrary() || !e.IsException() then RoundResult(calls, Some(e))
    else if errorThrows.Some? then RoundResult(calls + [MarkError(job)], errorThrows)
    else RoundResult(calls + [MarkError(job)], if exitOnException then Some(e) else None)
  }

  /** The `try` block for a retrieved `job`, with its handlers. */
  function Round(job: JobValue, s: Step, exitOnException: bool): (r: RoundResult)
    ensures 1 <= |r.calls| <= 3 && r.calls[0] == Work(job)
    ensures forall c :: c in r.calls ==> c == Work(job) || c == Complete(job) || c == MarkError(job)
    ensures r.thrown.None? ==> r.calls[|r.calls| - 1] == Complete(job) || r.calls[|r.calls| - 1] == MarkError(job)
  {
    match s.work
    case WorkThrew(e) => Handle(job, [Work(job)], e, s.errorThrows, exitOnException)
    case Code(c) =>
      if c != 0 then Handle(job, [Work(job)], Logic, s.errorThrows, exitOnException)
      else if s.completeThrows.Some? then Handle(job, [Work(job), Complete(job)], s.completeThrows.value, s.errorThrows, exitOnException)
      else RoundResult([Work(job), Complete(job)], None)
  }

  function Prepend(calls: seq<Call>, run: Run): Run {
    run.(calls := calls + run.calls)
  }

  /** What retrieve answers for the rest of the script; once it is used up, the queue is empty. */
  function Answer(script: seq<Step>): Retrieval {
    if |script| == 0 then NoJob else script[0].retrieval
  }

  /** The `while` loop on queue `queue` with running flag `running`, over the rest of the script. */
  function Loop(queue: string, exitOnException: bool, running: bool, script: seq<Step>): (r: Run)
    ensures !running ==> r == Run(Done(0), [], false)
    ensures running ==> |r.calls| >= 1 && r.calls[0] == Retrieve(queue)
    ensures r.running ==> running
    ensures forall c :: c in r.calls && c.Retrieve? ==> c.queue == queue
    decreases |script|
  {
    if !running then Run(Done(0), [], running)
    else
      match Answer(script)
      case NoJob => Run(Done(0), [Retrieve(queue)], running)
      case RetrieveFailed(e) => Run(Raised(e), [Retrieve(queue)], if e.IsException() then false else running)
      case Got(job) =>
        var s := script[0];
        var round := Round(job, s, exitOnException);
        var next := if s.stops then false else running;
        if round.thrown.Some? then Run(Raised(round.thrown.value), [Retrieve(queue)] + round.calls, next)
        else Prepend([Retrieve(queue)] + round.calls, Loop(queue, exitOnException, next, script[1..]))
  }

  /** `execute()`: a missing queue throws before anything else; otherwise the loop. */
  function ExecuteSpec(queue: Option<string>, exitOnException: bool, running: bool, script: seq<Step>): (r: Run)
    ensures queue.None? ==> r.outcome == Raised(InvalidArgument) && r.calls == []
    ensures queue.Some? && running ==> |r.calls| >= 1 && r.calls[0] == Retrieve(queue.value)
    ensures forall c :: c in r.calls && c.Retrieve? ==> queue.Some? && c.queue == queue.value
    ensures r.running ==> running
  {
    if queue.None? then Run(Raised(InvalidArgument), [], running)
    else Loop(queue.value, exitOnException, running, script)
  }

  lemma PrependPrepend(a: seq<Call>, b: seq<Call>, run: Run)
    ensures Prepend(a, Prepend(b, run)) == Prepend(a + b, run)
  {
    assert a + (b + run.calls) == a + b + run.calls;
  }

  /** The loop from round `n` on, when it is running and retrieve hands out a job. */
  lemma LoopGot(queue: string, exitOnException: bool, running: bool, script: seq<Step>, n: nat)
    requires running && n < |script| && script[n].retrieval.Got?
    ensures var s := script[n];
      var round := Round(s.retrieval.job, s, exitOnException);
      var next := if s.stops then false else running;
      Loop(queue, exitOnException, running, script[n..]) ==
        if round.thrown.Some? then Run(Raised(round.thrown.value), [Retrieve(queue)] + round.calls, next)
        else Prepend([Retrieve(queue)] + round.calls, Loop(queue, exitOnException, next, script[n + 1..]))
  {
    assert script[n..][0] == script[n];
    assert script[n..][1..] == script[n + 1..];
  }

  /**
   * What the `try` block raises for a retrieved job, if anything: work's
   * exception, LogicException for a non-zero code, or markAsComplete's
   * exception.
   */
  function Raises(s: Step): Option<Thrown> {
    match s.work
    case WorkThrew(e) => Some(e)
    case Code(c) => if c != 0 then Some(Logic) else s.completeThrows
  }

  /** markAsComplete is called exactly when work returned 0, and always right after work. */
  lemma CompleteOnlyOnZero(job: JobValue, s: Step, exitOnException: bool)
    ensures var calls := Round(job, s, exitOnException).calls;
      |calls| >= 1 && calls[0] == Work(job) &&
      (Complete(job) in calls <==> s.work == Code(0)) &&
      (s.work == Code(0) ==> calls[1] == Complete(job))
  {
  }

  /** A round that raises nothing completes the job, never marks it as error, and goes on. */
  lemma CleanRoundCompletes(job: JobValue, s: Step, exitOnException: bool)
    requires Raises(s).None?
    ensures Round(job, s, exitOnException) == RoundResult([Work(job), Complete(job)], None)
  {
  }

  /**
   * markAsError is called exactly when the round raised an Exception that is
   * not the library's own, and is then the last call of the round.
   */
  lemma MarkedAsErrorExactly(job: JobValue, s: Step, exitOnException: bool)
    ensures var calls := Round(job, s, exitOnException).calls;
      (MarkError(job) in calls <==> Raises(s).Some? && Raises(s).value.IsException() && !Raises(s).value.IsLibrary()) &&
      (MarkError(job) in calls ==> calls[|calls| - 1] == MarkError(job))
  {
    var calls := Round(job, s, exitOnException).calls;
    if !(Raises(s).Some? && Raises(s).value.IsException() && !Raises(s).value.IsLibrary()) {
      assert forall c :: c in calls ==> c == Work(job) || c == Complete(job);
    }
  }

  /** A non-zero code marks the job as error, never completes it, and raises LogicException. */
  lemma NonZeroCodeMarksError(job: JobValue, s: Step, exitOnException: bool)
    requires s.work.Code? && s.work.code != 0
    ensures var round := Round(job, s, exitOnException);
      round.calls == [Work(job), MarkError(job)] &&
      round.thrown == if s.errorThrows.Some? then s.errorThrows else if exitOnException then Some(Logic) else None
  {
  }

  /** A library exception, or a TypeError, leaves the loop as it is, with the job unmarked. */
  lemma UncaughtRethrown(job: JobValue, s: Step, exitOnException: bool)
    requires Raises(s).Some? && (Raises(s).value.IsLibrary() || !Raises(s).value.IsException())
    ensures Round(job, s, exitOnException).thrown == Raises(s)
    ensures MarkError(job) !in Round(job, s, exitOnException).calls
  {
    MarkedAsErrorExactly(job, s, exitOnException);
  }

  /**
   * Any other Exception marks the job as error, then leaves the loop only
   * when `exitOnException` is set (or markAsError throws in turn).
   */
  lemma OtherExceptionMarked(job: JobValue, s: Step, exitOnException: bool)
    requires Raises(s).Some? && Raises(s).value.IsException() && !Raises(s).value.IsLibrary()
    ensures var round := Round(job, s, exitOnException);
      round.calls[|round.calls| - 1] == MarkError(job) &&
      round.thrown == if s.errorThrows.Some? then s.errorThrows else if exitOnException then Raises(s) else None
  {
  }

  /** A run that ends normally returns 0. */
  lemma {:induction false} LoopReturnsZero(queue: string, exitOnException: bool, running: bool, script: seq<Step>)
    ensures Loop(queue, exitOnException, running, script).outcome.Done? ==> Loop(queue, exitOnException, running, script).outcome == Done(0)
    decreases |script|
  {
    if running && Answer(script).Got? {
      var s := script[0];
      LoopReturnsZero(queue, exitOnException, if s.stops then false else running, script[1..]);
    }
  }

  lemma ExecuteReturnsZero(queue: Option<string>, exitOnException: bool, running: bool, script: seq<Step>)
    ensures ExecuteSpec(queue, exitOnException, running, script).outcome.Done? ==>
      ExecuteSpec(queue, exitOnException, running, script).outcome == Done(0)
  {
    if queue.Some? {
      LoopReturnsZero(queue.value, exitOnException, running, script);
    }
  }

  /** A step whose failures the worker absorbs: retrieve does not fail, and the try block raises no library exception, no TypeError, and markAsError does not throw. */
  predicate Absorbed(s: Step) {
    !s.retrieval.RetrieveFailed? &&
    (Raises(s).Some? ==> Raises(s).value.IsException() && !Raises(s).value.IsLibrary() && s.errorThrows.None?)
  }

  /**
   * Without `exitOnException`, a worker whose failures are all absorbed
   * never throws: it works until retrieve finds nothing or `continue` is
   * cleared, and returns 0.
   */
  lemma {:induction false} AbsorbedRunReturnsZero(queue: string, running: bool, script: seq<Step>)
    requires forall k :: 0 <= k < |script| ==> Absorbed(script[k])
    ensures Loop(queue, false, running, script).outcome == Done(0)
    decreases |script|
  {
    if running && Answer(script).Got? {
      var s := script[0];
      assert Absorbed(s);
      assert forall k :: 0 <= k < |script[1..]| ==> script[1..][k] == script[k + 1];
      AbsorbedRunReturnsZero(queue, if s.stops then false else running, script[1..]);
    }
  }

  /** `testRunCompletes`: one job whose work returns 0 and clears the flag completes, and the run returns 0. */
  lemma RunCompletes(job: JobValue)
    ensures var s := Step(Got(job), Code(0), true, None, None);
      ExecuteSpec(Some("mockQueue"), true, true, [s]) ==
        Run(Done(0), [Retrieve("mockQueue"), Work(job), Complete(job)], false)
  {
    var s := Step(Got(job), Code(0), true, None, None);
    assert [s][1..] == [];
    assert Loop("mockQueue", true, false, []) == Run(Done(0), [], false);
    assert [Retrieve("mockQueue")] + [Work(job), Complete(job)] + [] == [Retrieve("mockQueue"), Work(job), Complete(job)];
  }

  /** `testLibraryExceptionOnRetrieve`: the retrieve failure is rethrown and the flag is cleared. */
  lemma LibraryExceptionOnRetrieve(work: WorkResult)
    ensures var s := Step(RetrieveFailed(InvalidArgument), work, false, None, None);
      ExecuteSpec(Some("mockQueue"), true, true, [s]) == Run(Raised(InvalidArgument), [Retrieve("mockQueue")], false)
  {
  }

  /** `testLibraryExceptionInMainLoop`: a library exception from markAsComplete is rethrown, the job not marked as error. */
  lemma LibraryExceptionInMainLoop(job: JobValue)
    ensures var s := Step(Got(job), Code(0), true, Some(InvalidArgument), None);
      ExecuteSpec(Some("mockQueue"), true, true, [s]) ==
        Run(Raised(InvalidArgument), [Retrieve("mockQueue"), Work(job), Complete(job)], false)
  {
  }

  class WorkerCommand {
    const queue: Option<string>
    const exitOnException: bool
    /** The daemon's `$this->continue`: the loop stops once it is false. */
    var running: bool
    var trace: seq<Call>

    constructor (queue: Option<string>, exitOnException: bool := false)
      ensures this.queue == queue && this.exitOnException == exitOnException
      ensures running && trace == []
    {
      this.queue := queue;
      this.exitOnException := exitOnException;
      running := true;
      trace := [];
    }

    /** `execute()` against the environment `script`. */
    method Execute(script: seq<Step>) returns (r: Outcome<int>)
      modifies this`running, this`trace
      ensures var run := ExecuteSpec(queue, exitOnException, old(running), script);
        r == run.outcome && trace == old(trace) + run.calls && running == run.running
      ensures queue.None? ==> r == Raised(InvalidArgument) && trace == old(trace)
      ensures !old(running) && queue.Some? ==> r == Done(0) && trace == old(trace)
    {
      if queue.None? {
        return Raised(InvalidArgument);
      }
      var q := queue.value;
      var n := 0;
      while running
        invariant n <= |script|
        invariant Prepend(old(trace), ExecuteSpec(queue, exitOnException, old(running), script)) ==
          Prepend(trace, Loop(q, exitOnException, running, script[n..]))
        decreases |script| - n
      {
        var answer := if n < |script| then script[n].retrieval else NoJob;
        assert n < |script| ==> script[n..][0] == script[n];
        ghost var t0 := trace;
        trace := trace + [Retrieve(q)];
        match answer {
          case NoJob =>
            return Done(0);
          case RetrieveFailed(e) =>
            if e.IsException() {
              running := false;
            }
            return Raised(e);
          case Got(job) =>
            ghost var before := running;
            var s := script[n];
            var thrown := WorkRound(job, s);
            ghost var rc := Round(job, s, exitOnException).calls;
            LoopGot(q, exitOnException, before, script, n);
            Regroup(t0, [Retrieve(q)], rc);
            if thrown.Some? {
              return Raised(thrown.value);
            }
            PrependPrepend(t0, [Retrieve(q)] + rc, Loop(q, exitOnException, running, script[n + 1..]));
            n := n + 1;
        }
      }
      r := Done(0);
    }

    /** One `try`/`catch` round for a retrieved `job`. */
    method WorkRound(job: JobValue, s: Step) returns (thrown: Option<Thrown>)
      modifies this`running, this`trace
      ensures thrown == Round(job, s, exitOnException).thrown
      ensures trace == old(trace) + Round(job, s, exitOnException).calls
      ensures running == if s.stops then false else old(running)
    {
      trace := trace + [Work(job)];
      if s.stops {
        running := false;
      }
      var e: Thrown;
      match s.work {
        case WorkThrew(w) =>
          e := w;
        case Code(c) =>
          if c != 0 {
            e := Logic;
          } else {
            trace := trace + [Complete(job)];
            if s.completeThrows.None? {
              return None;
            }
            e := s.completeThrows.value;
          }
      }
      if e.IsLibrary() || !e.IsException() {
        return Some(e);
      }
      trace := trace + [MarkError(job)];
      if s.errorThrows.Some? {
        return s.errorThrows;
      }
      thrown := if exitOnException then Some(e) else None;
    }
  }
}
