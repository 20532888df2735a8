/**
 * The monitor command: it drains the scheduler into the job queue. Each
 * record the scheduler hands out becomes a job (its id dropped) that is put
 * on the queue, and the row is removed from the scheduler once the put has
 * returned. A batchable scheduler hands out and removes whole batches; a
 * batchable queue takes a batch in one `putBatch`.
 *
 * The scheduler is the database scheduler model; the job queue is a
 * collaborator whose calls are recorded, in order, in `log`.
 */
module Monitor {
  import opened Jobs
  import opened Seqs
  import opened Scheduler
  import Codec
  import BeanstalkQueue

  /** A call the monitor makes on the job queue or the scheduler. */
  datatype Call =
    | Put(job: JobValue)
    | PutBatch(jobs: seq<JobValue>)
    | Remove(id: nat)
    | RemoveBatch(ids: seq<nat>)

  /** `createJob($schedulerJob)`: the record's queue, data, delay, priority and ttr, with a null id. */
  function CreateJob(r: Record): (j: JobValue)
    ensures j.id == NoId && j.queue == r.queue && j.body == r.data
    ensures j.delay == r.delay && j.priority == r.priority && j.ttr == r.ttr
  {
    JobValue(r.queue, r.data, NoId, r.delay, r.priority, r.ttr)
  }

  /** The records the scheduler hands out for `rows` at time `now`, in order. */
  function Records(rows: seq<Row>, now: int): seq<Record> {
    seq(|rows|, k requires 0 <= k < |rows| => ToRecord(rows[k], now))
  }

  /** `array_column($records, 'id')`. */
  function Ids(records: seq<Record>): seq<nat> {
    seq(|records|, k requires 0 <= k < |records| => records[k].id)
  }

  /** The jobs built from `records`, in order. */
  function JobsOf(records: seq<Record>): seq<JobValue> {
    seq(|records|, k requires 0 <= k < |records| => CreateJob(records[k]))
  }

  /** One `put` per job, in list order. */
  function PutEach(jobs: seq<JobValue>): seq<Call> {
    seq(|jobs|, k requires 0 <= k < |jobs| => Put(jobs[k]))
  }

  /** The calls `putJobBatch($jobs)` makes. */
  function PutJobBatchCalls(queueBatchable: bool, jobs: seq<JobValue>): seq<Call> {
    if queueBatchable then [PutBatch(jobs)] else PutEach(jobs)
  }

  /** The calls of the single-record loop for the records it was handed: each one's put, then its remove. */
  function SingleCalls(records: seq<Record>): seq<Call> {
    seq(2 * |records|, p requires 0 <= p < 2 * |records| =>
      if p % 2 == 0 then Put(CreateJob(records[p / 2])) else Remove(records[p / 2].id))
  }

  /** The calls of the batch loop for one non-empty batch: put every job, then remove the batch's ids. */
  function BatchCalls(queueBatchable: bool, records: seq<Record>): seq<Call> {
    if records == [] then [] else PutJobBatchCalls(queueBatchable, JobsOf(records)) + [RemoveBatch(Ids(records))]
  }

  /** In single mode the k-th record is put, and then removed by its own id, before the next one. */
  lemma SingleCallsAt(records: seq<Record>, k: nat)
    requires k < |records|
    ensures SingleCalls(records)[2 * k] == Put(CreateJob(records[k]))
    ensures SingleCalls(records)[2 * k + 1] == Remove(records[k].id)
  {
    assert (2 * k) / 2 == k && (2 * k + 1) / 2 == k && (2 * k + 1) % 2 == 1;
  }

  /** In single mode a row is never removed before its job was put: the call just before is that put. */
  lemma RemovedRightAfterPut(records: seq<Record>, p: nat)
    requires p < |SingleCalls(records)| && SingleCalls(records)[p].Remove?
    ensures p > 0
    ensures exists k ::
      0 <= k < |records| && SingleCalls(records)[p] == Remove(records[k].id) && SingleCalls(records)[p - 1] == Put(CreateJob(records[k]))
  {
    var k := p / 2;
    assert p == 2 * k + 1;
    SingleCallsAt(records, k);
  }

  /**
   * One batch: with a batchable queue a single `putBatch` of the jobs, else
   * one `put` per record in order; then one `removeBatch` of exactly the
   * batch's ids.
   */
  lemma BatchCallsShape(queueBatchable: bool, records: seq<Record>)
    requires records != []
    ensures var calls := BatchCalls(queueBatchable, records);
      calls[|calls| - 1] == RemoveBatch(Ids(records)) &&
      (queueBatchable ==> calls == [PutBatch(JobsOf(records)), RemoveBatch(Ids(records))]) &&
      (!queueBatchable ==> (|calls| == |records| + 1 &&
        forall k :: 0 <= k < |records| ==> calls[k] == Put(CreateJob(records[k]))))
    ensures |Ids(records)| == |records| && forall k :: 0 <= k < |records| ==> Ids(records)[k] == records[k].id
  {
  }

  /** A job stored in the scheduler and promoted later comes back with a null id and the time left as delay. */
  lemma PromotedJob(id: nat, job: JobValue, stored: int, now: int)
    ensures CreateJob(ToRecord(NewRow(id, job, stored), now)) ==
      job.(id := NoId, delay := DelayUntil(now, DatetimeDelayAt(stored, job.delay)))
  {
    Codec.UnserializeSerialize(job.body);
  }

  /**
   * A promoted job goes straight to the broker, not back to the scheduler,
   * when the scheduler's pickup window does not exceed its threshold.
   */
  lemma PromotedJobReachesBroker(maximumDelay: int, minimumPickup: int, row: Row, now: int)
    requires Eligible(row, now, minimumPickup)
    requires (if minimumPickup < 0 then 0 else minimumPickup) <= maximumDelay
    ensures var job := CreateJob(ToRecord(row, now));
      BeanstalkQueue.PutCalls(maximumDelay, job) ==
        [BeanstalkQueue.UseTube(job.queue), BeanstalkQueue.Put(BeanstalkQueue.BeanstalkFactory.SerializeBody(job), job.priority, job.delay, job.ttr)]
  {
    RecordDelayBounded(row, now, minimumPickup);
  }

  /**
   * What the single-record loop does when the job queue is a Beanstalk queue
   * sharing the monitor's scheduler: a claimed row due more than
   * `maximumDelay` seconds ahead is handed back by the put as a new row for
   * the same job, inserted under a fresh id; the round's remove by the
   * claimed row's id then leaves that new row, which is claimable, so
   * retrieve at the same `now` finds it and promotes the same job again.
   */
  lemma SharedSchedulerReclaims(maximumDelay: int, minimumPickup: int, before: seq<Row>, i: nat, connection: int, id: nat, now: int)
    requires IsPick(before, i, now, minimumPickup) && minimumPickup >= 0
    requires before[i].scheduledTs > now + maximumDelay
    requires forall k :: 0 <= k < |before| ==> before[k].id != id
    ensures var row := before[i];
      var job := CreateJob(ToRecord(row, now));
      var again := NewRow(id, job, now);
      var after := WithoutIds(before[i := Claim(row, connection, now)] + [again], [row.id]);
      BeanstalkQueue.PutCalls(maximumDelay, job) == [BeanstalkQueue.Store(job)] &&
      again in after && Eligible(again, now, minimumPickup) &&
      !NoneEligible(after, now, minimumPickup) &&
      CreateJob(ToRecord(again, now)) == job
  {
    var row := before[i];
    var job := CreateJob(ToRecord(row, now));
    var again := NewRow(id, job, now);
    var stored := before[i := Claim(row, connection, now)] + [again];
    RecordDelayBounded(row, now, minimumPickup);
    assert stored[|stored| - 1] == again && again.id !in [row.id];
    WithoutIdsKeeps(stored, [row.id]);
    var after := WithoutIds(stored, [row.id]);
    var j :| 0 <= j < |after| && after[j] == again;
    assert Eligible(after[j], now, minimumPickup);
    PromotedJob(id, job, now, now);
  }

  /** `done` are rows of `start` that were claimable, each once, due last first. */
  ghost predicate Picked(start: seq<Row>, done: seq<Row>, now: int, minimumPickup: int) {
    (forall k :: 0 <= k < |done| ==> done[k] in start && Eligible(done[k], now, minimumPickup)) &&
    (forall k, l :: 0 <= k < l < |done| ==> done[k].id != done[l].id) &&
    (forall k, l :: 0 <= k < l < |done| ==> done[l].scheduledTs <= done[k].scheduledTs)
  }

  /** The rows `done` promoted out of `start`: picked as above, and every claimable row among them. */
  ghost predicate Promoted(start: seq<Row>, done: seq<Row>, now: int, minimumPickup: int) {
    Picked(start, done, now, minimumPickup) &&
    forall j :: 0 <= j < |start| && Eligible(start[j], now, minimumPickup) ==> start[j] in done
  }

  class MonitorCommand {
    const scheduler: DbScheduler
    /** `$this->scheduler instanceof BatchableSchedulerInterface`. */
    const schedulerBatchable: bool
    /** `$this->jobQueue instanceof BatchableJobQueueInterface`. */
    const queueBatchable: bool
    var log: seq<Call>

    constructor (scheduler: DbScheduler, schedulerBatchable: bool, queueBatchable: bool)
      ensures this.scheduler == scheduler && this.schedulerBatchable == schedulerBatchable
      ensures this.queueBatchable == queueBatchable && log == []
    {
      this.scheduler := scheduler;
      this.schedulerBatchable := schedulerBatchable;
      this.queueBatchable := queueBatchable;
      log := [];
    }

    /**
     * `execute()` at time `now`: promote every row that falls due and return
     * 0. The table keeps exactly the rows that were not claimable.
     */
    method Execute(now: int) returns (code: int, ghost done: seq<Row>)
      requires scheduler.Valid()
      modifies this`log, scheduler`rows
      ensures code == 0
      ensures scheduler.Valid()
      ensures Promoted(old(scheduler.rows), done, now, scheduler.minimumPickup)
      ensures scheduler.rows == WithoutIds(old(scheduler.rows), Ids(Records(done, now)))
      ensures !schedulerBatchable ==> log == old(log) + SingleCalls(Records(done, now))
      ensures schedulerBatchable ==> log == old(log) + BatchCalls(queueBatchable, Records(done, now))
    {
      if schedulerBatchable {
        done := PromoteBatches(now);
      } else {
        done := PromoteSingles(now);
      }
      code := 0;
    }

    /** `putJobBatch($jobs)`. */
    method PutJobBatch(jobs: seq<JobValue>)
      modifies this`log
      ensures log == old(log) + PutJobBatchCalls(queueBatchable, jobs)
    {
      if queueBatchable {
        log := log + [PutBatch(jobs)];
        return;
      }
      for k := 0 to |jobs|
        invariant log == old(log) + PutEach(jobs[..k])
      {
        assert PutEach(jobs[..k + 1]) == PutEach(jobs[..k]) + [Put(jobs[k])];
        log := log + [Put(jobs[k])];
      }
      assert jobs[..|jobs|] == jobs;
    }

    /** The single-record loop: retrieve, put the job, remove the row, until retrieve finds nothing. */
    method PromoteSingles(now: int) returns (ghost done: seq<Row>)
      requires scheduler.Valid()
      modifies this`log, scheduler`rows
      ensures scheduler.Valid()
      ensures Promoted(old(scheduler.rows), done, now, scheduler.minimumPickup)
      ensures scheduler.rows == WithoutIds(old(scheduler.rows), Ids(Records(done, now)))
      ensures log == old(log) + SingleCalls(Records(done, now))
    {
      ghost var start := scheduler.rows;
      done := [];
      WithoutIdsNone(start);
      while true
        invariant scheduler.Valid()
        invariant SinglesSoFar(start, scheduler.rows, done, now, scheduler.minimumPickup)
        invariant log == old(log) + SingleCalls(Records(done, now))
        decreases |scheduler.rows|
      {
        ghost var before := scheduler.rows;
        ghost var calls := log;
        var more, i := PromoteOne(now);
        if !more {
          break;
        }
        ghost var row := before[i];
        SingleStep(start, before, done, i, scheduler.connection, now, scheduler.minimumPickup);
        Regroup(old(log), SingleCalls(Records(done, now)), [Put(CreateJob(ToRecord(row, now))), Remove(row.id)]);
        done := done + [row];
      }
      SinglesDone(start, done, now, scheduler.minimumPickup, scheduler.rows);
    }

    /** One round of the single-record loop: false when retrieve finds nothing. */
    method PromoteOne(now: int) returns (more: bool, ghost i: nat)
      requires scheduler.Valid()
      modifies this`log, scheduler`rows
      ensures scheduler.Valid()
      ensures !more <==> NoneEligible(old(scheduler.rows), now, scheduler.minimumPickup)
      ensures !more ==> scheduler.rows == old(scheduler.rows) && log == old(log)
      ensures more ==> (IsPick(old(scheduler.rows), i, now, scheduler.minimumPickup) &&
        var row := old(scheduler.rows)[i];
        scheduler.rows == WithoutIds(old(scheduler.rows)[i := Claim(row, scheduler.connection, now)], [row.id]) &&
        log == old(log) + [Put(CreateJob(ToRecord(row, now))), Remove(row.id)])
    {
      var record;
      record, i := scheduler.Retrieve(now);
      if record.None? {
        return false, i;
      }
      var job := CreateJob(record.value);
      log := log + [Put(job)];
      var removed := scheduler.Remove(record.value.id);
      log := log + [Remove(record.value.id)];
      more := true;
    }

    /** The batch loop: retrieve a batch, put its jobs, remove its ids, until retrieve finds nothing. */
    method PromoteBatches(now: int) returns (ghost done: seq<Row>)
      requires scheduler.Valid()
      modifies this`log, scheduler`rows
      ensures scheduler.Valid()
      ensures Promoted(old(scheduler.rows), done, now, scheduler.minimumPickup)
      ensures scheduler.rows == WithoutIds(old(scheduler.rows), Ids(Records(done, now)))
      ensures log == old(log) + BatchCalls(queueBatchable, Records(done, now))
    {
      ghost var start := scheduler.rows;
      done := [];
      while true
        invariant scheduler.Valid()
        invariant UniqueIds(start)
        invariant done == [] ==> scheduler.rows == start && log == old(log)
        invariant done != [] ==> (Promoted(start, done, now, scheduler.minimumPickup) &&
          NoneEligible(scheduler.rows, now, scheduler.minimumPickup) &&
          scheduler.rows == WithoutIds(start, Ids(Records(done, now))) &&
          log == old(log) + BatchCalls(queueBatchable, Records(done, now)))
        decreases |scheduler.rows|
      {
        ghost var before := scheduler.rows;
        var more, picks, claimed, records := PromoteBatch(now);
        if !more {
          break;
        }
        ghost var batchRows := seq(|picks|, k requires 0 <= k < |picks| => before[picks[k]]);
        assert done == [];
        BatchStep(before, claimed, picks, batchRows, records, scheduler.connection, now, scheduler.minimumPickup);
        BatchLog(queueBatchable, records, old(log), log);
        done := batchRows;
      }
      if done == [] {
        WithoutIdsNone(start);
      }
    }

    /** One round of the batch loop: false when retrieveBatch finds nothing. */
    method PromoteBatch(now: int) returns (more: bool, ghost picks: seq<nat>, ghost claimed: seq<Row>, records: seq<Record>)
      requires scheduler.Valid()
      modifies this`log, scheduler`rows
      ensures scheduler.Valid()
      ensures !more <==> NoneEligible(old(scheduler.rows), now, scheduler.minimumPickup)
      ensures !more ==> scheduler.rows == old(scheduler.rows) && log == old(log)
      ensures more ==> (Drained(old(scheduler.rows), claimed, picks, scheduler.connection, now, scheduler.minimumPickup) &&
        NoneEligible(claimed, now, scheduler.minimumPickup) &&
        |records| == |picks| > 0 &&
        (forall k :: 0 <= k < |picks| ==> records[k] == ToRecord(old(scheduler.rows)[picks[k]], now)) &&
        scheduler.rows == WithoutIds(claimed, Ids(records)) &&
        log == old(log) + PutJobBatchCalls(queueBatchable, JobsOf(records)) + [RemoveBatch(Ids(records))])
    {
      var batch;
      batch, picks := scheduler.RetrieveBatch(now);
      claimed := scheduler.rows;
      if batch.None? {
        return false, picks, claimed, [];
      }
      records := batch.value;
      var jobs := [];
      for k := 0 to |records|
        invariant jobs == JobsOf(records[..k])
      {
        assert JobsOf(records[..k + 1]) == JobsOf(records[..k]) + [CreateJob(records[k])];
        jobs := jobs + [CreateJob(records[k])];
      }
      assert records[..|records|] == records;
      PutJobBatch(jobs);
      var ids := Ids(records);
      var removed := scheduler.RemoveBatch(ids);
      log := log + [RemoveBatch(ids)];
      more := true;
    }
  }

  /** The log after one batch round holds that batch's calls. */
  lemma BatchLog(queueBatchable: bool, records: seq<Record>, prefix: seq<Call>, log: seq<Call>)
    requires records != []
    requires log == prefix + PutJobBatchCalls(queueBatchable, JobsOf(records)) + [RemoveBatch(Ids(records))]
    ensures log == prefix + BatchCalls(queueBatchable, records)
  {
    Regroup(prefix, PutJobBatchCalls(queueBatchable, JobsOf(records)), [RemoveBatch(Ids(records))]);
  }

  /** Deleting no ids deletes nothing. */
  lemma WithoutIdsNone(rows: seq<Row>)
    ensures WithoutIds(rows, []) == rows
  {
    WithoutIdsInOrder(rows, []);
  }

  /** When nothing is deleted, the rows come back in their order. */
  lemma {:induction false} WithoutIdsInOrder(rows: seq<Row>, ids: seq<nat>)
    requires forall j :: 0 <= j < |rows| ==> rows[j].id !in ids
    ensures WithoutIds(rows, ids) == rows
  {
    if |rows| > 0 {
      assert forall j :: 0 <= j < |rows[1..]| ==> rows[1..][j] == rows[j + 1];
      WithoutIdsInOrder(rows[1..], ids);
      assert rows == [rows[0]] + rows[1..];
    }
  }

  /** The records and ids of `done + [row]` extend those of `done`. */
  lemma RecordsAppend(done: seq<Row>, row: Row, now: int)
    ensures Records(done + [row], now) == Records(done, now) + [ToRecord(row, now)]
    ensures Ids(Records(done + [row], now)) == Ids(Records(done, now)) + [row.id]
    ensures SingleCalls(Records(done + [row], now)) ==
      SingleCalls(Records(done, now)) + [Put(CreateJob(ToRecord(row, now))), Remove(row.id)]
  {
    var next := done + [row];
    var rs := Records(done, now) + [ToRecord(row, now)];
    assert Records(next, now) == rs by {
      forall k | 0 <= k < |next| ensures Records(next, now)[k] == rs[k] {
        if k < |done| {
          assert next[k] == done[k];
        }
      }
    }
    var ids := Ids(Records(done, now)) + [row.id];
    assert Ids(rs) == ids by {
      forall k | 0 <= k < |rs| ensures Ids(rs)[k] == ids[k] {
        if k < |done| {
          assert rs[k] == Records(done, now)[k];
        }
      }
    }
    var calls := SingleCalls(Records(done, now)) + [Put(CreateJob(ToRecord(row, now))), Remove(row.id)];
    assert SingleCalls(rs) == calls by {
      forall p | 0 <= p < 2 * |rs| ensures SingleCalls(rs)[p] == calls[p] {
        if p < 2 * |done| {
          assert rs[p / 2] == Records(done, now)[p / 2];
        }
      }
    }
  }

  /**
   * The single-record loop so far: `done` were picked from `start`, the
   * table is `start` without them, and nothing left claimable is due later
   * than the last one.
   */
  ghost predicate SinglesSoFar(start: seq<Row>, rows: seq<Row>, done: seq<Row>, now: int, minimumPickup: int) {
    UniqueIds(start) &&
    rows == WithoutIds(start, Ids(Records(done, now))) &&
    Picked(start, done, now, minimumPickup) &&
    (|done| > 0 ==> forall j :: 0 <= j < |rows| && Eligible(rows[j], now, minimumPickup) ==>
      rows[j].scheduledTs <= done[|done| - 1].scheduledTs)
  }

  /**
   * One round of the single-record loop: claiming the picked row and then
   * removing it by its id keeps `SinglesSoFar` with the row promoted, and
   * shrinks the table.
   */
  lemma SingleStep(start: seq<Row>, before: seq<Row>, done: seq<Row>, i: nat, connection: int, now: int, minimumPickup: int)
    requires SinglesSoFar(start, before, done, now, minimumPickup)
    requires IsPick(before, i, now, minimumPickup)
    ensures var row := before[i];
      var after := WithoutIds(before[i := Claim(row, connection, now)], [row.id]);
      SinglesSoFar(start, after, done + [row], now, minimumPickup) &&
      |after| < |before| &&
      SingleCalls(Records(done + [row], now)) == SingleCalls(Records(done, now)) + [Put(CreateJob(ToRecord(row, now))), Remove(row.id)]
  {
    var row := before[i];
    TableStep(start, before, done, i, connection, now, minimumPickup);
    if |done| > 0 {
      assert row.scheduledTs <= done[|done| - 1].scheduledTs;
    }
    PickedAppend(start, done, row, now, minimumPickup);
    RecordsAppend(done, row, now);
  }

  /** Claiming and removing the picked row deletes one more promoted id from `start`. */
  lemma TableStep(start: seq<Row>, before: seq<Row>, done: seq<Row>, i: nat, connection: int, now: int, minimumPickup: int)
    requires before == WithoutIds(start, Ids(Records(done, now)))
    requires IsPick(before, i, now, minimumPickup)
    ensures var row := before[i];
      var after := WithoutIds(before[i := Claim(row, connection, now)], [row.id]);
      after == WithoutIds(start, Ids(Records(done + [row], now))) &&
      |after| < |before| &&
      row in start &&
      (forall k :: 0 <= k < |done| ==> done[k].id != row.id) &&
      (forall j :: 0 <= j < |after| && Eligible(after[j], now, minimumPickup) ==> after[j].scheduledTs <= row.scheduledTs)
  {
    var row := before[i];
    var claimed := before[i := Claim(row, connection, now)];
    var ids := Ids(Records(done, now));
    RecordsAppend(done, row, now);
    WithoutIdsMembers(start, ids);
    WithoutIdsMembers(before, [row.id]);
    WithoutIdsAgree(claimed, before, [row.id]);
    WithoutIdsCompose(start, ids, [row.id]);
    forall k | 0 <= k < |done| ensures done[k].id != row.id {
      assert ids[k] == done[k].id;
    }
    var after := WithoutIds(before, [row.id]);
    forall j | 0 <= j < |after| && Eligible(after[j], now, minimumPickup) ensures after[j].scheduledTs <= row.scheduledTs {
      assert after[j] in before;
    }
  }

  /** Appending a claimable row of `start` with a new id, due no later than the last, keeps `Picked`. */
  lemma PickedAppend(start: seq<Row>, done: seq<Row>, row: Row, now: int, minimumPickup: int)
    requires Picked(start, done, now, minimumPickup)
    requires row in start && Eligible(row, now, minimumPickup)
    requires forall k :: 0 <= k < |done| ==> done[k].id != row.id
    requires |done| > 0 ==> row.scheduledTs <= done[|done| - 1].scheduledTs
    ensures Picked(start, done + [row], now, minimumPickup)
  {
    var next := done + [row];
    forall k | 0 <= k < |next| ensures next[k] in start && Eligible(next[k], now, minimumPickup) {
      if k < |done| {
        assert next[k] == done[k];
      }
    }
    forall k, l | 0 <= k < l < |next| ensures next[k].id != next[l].id && next[l].scheduledTs <= next[k].scheduledTs {
      assert next[k] == done[k];
      if l < |done| {
        assert next[l] == done[l];
      } else if k < |done| - 1 {
        assert done[|done| - 1].scheduledTs <= done[k].scheduledTs;
      }
    }
  }

  /** When retrieve finds nothing, every claimable row of `start` has been promoted. */
  lemma SinglesDone(start: seq<Row>, done: seq<Row>, now: int, minimumPickup: int, rows: seq<Row>)
    requires SinglesSoFar(start, rows, done, now, minimumPickup)
    requires NoneEligible(rows, now, minimumPickup)
    ensures Promoted(start, done, now, minimumPickup)
  {
    var ids := Ids(Records(done, now));
    WithoutIdsKeeps(start, ids);
    forall j | 0 <= j < |start| && Eligible(start[j], now, minimumPickup) ensures start[j] in done {
      var k :| 0 <= k < |ids| && ids[k] == start[j].id;
      var m :| 0 <= m < |start| && start[m] == done[k];
      assert m == j;
    }
  }

  /**
   * One round of the batch loop from a table that nothing has left yet:
   * the batch is exactly the claimable rows, and removing its ids leaves the
   * table without them and with nothing claimable.
   */
  lemma BatchStep(start: seq<Row>, claimed: seq<Row>, picks: seq<nat>, batchRows: seq<Row>, records: seq<Record>,
                  connection: int, now: int, minimumPickup: int)
    requires UniqueIds(start)
    requires Drained(start, claimed, picks, connection, now, minimumPickup)
    requires NoneEligible(claimed, now, minimumPickup)
    requires |records| == |picks| > 0
    requires forall k :: 0 <= k < |picks| ==> records[k] == ToRecord(start[picks[k]], now)
    requires |batchRows| == |picks| && forall k :: 0 <= k < |picks| ==> batchRows[k] == start[picks[k]]
    ensures records == Records(batchRows, now)
    ensures batchRows != []
    ensures Promoted(start, batchRows, now, minimumPickup)
    ensures var after := WithoutIds(claimed, Ids(records));
      after == WithoutIds(start, Ids(Records(batchRows, now))) &&
      NoneEligible(after, now, minimumPickup) &&
      |after| < |start|
  {
    var ids := Ids(records);
    forall j | 0 <= j < |claimed| ensures claimed[j] == start[j] || (claimed[j].id in ids && start[j].id in ids) {
      if Eligible(start[j], now, minimumPickup) {
        var k :| 0 <= k < |picks| && picks[k] == j;
        assert ids[k] == start[j].id;
      }
    }
    WithoutIdsAgree(claimed, start, ids);
    forall j | 0 <= j < |start| && Eligible(start[j], now, minimumPickup) ensures start[j] in batchRows {
      var k :| 0 <= k < |picks| && picks[k] == j;
      assert batchRows[k] == start[j];
    }
    forall k, l | 0 <= k < l < |batchRows| ensures batchRows[k].id != batchRows[l].id {
      assert picks[k] != picks[l];
    }
    var after := WithoutIds(claimed, ids);
    WithoutIdsMembers(claimed, ids);
    forall j | 0 <= j < |after| ensures !Eligible(after[j], now, minimumPickup) {
      var m :| 0 <= m < |claimed| && claimed[m] == after[j];
    }
    assert claimed[picks[0]].id == ids[0];
  }
}
