/**
 * The database scheduler: jobs whose delay is too long for the broker are
 * parked as rows of the `scheduled_queue` table, and a monitor later claims
 * the rows that fall due and hands them back to the broker. The table is a
 * sequence of rows; the database connection's id (`CONNECTION_ID()`) is the
 * claimant token and `now` is the clock.
 */
module Scheduler {
  import opened Wrappers
  import opened PhpValues
  import opened Codec
  import opened Jobs

  const DefaultMaximumDelay := 300
  const DefaultMinimumPickup := 600

  /** `shouldBeScheduled($delay)` for a scheduler built with `maximumDelay`. */
  predicate ShouldBeScheduled(maximumDelay: int, delay: int): (r: bool)
    ensures r <==> maximumDelay < delay
    ensures maximumDelay >= 0 && delay <= 0 ==> !r
  {
    delay > maximumDelay
  }

  /** With the default threshold 301 s is parked while 300 s and 60 s go to the broker. */
  lemma DefaultThreshold()
    ensures ShouldBeScheduled(DefaultMaximumDelay, 301)
    ensures !ShouldBeScheduled(DefaultMaximumDelay, 300) && !ShouldBeScheduled(DefaultMaximumDelay, 60)
  {
  }

  /**
   * For any threshold: a delay equal to it goes to the broker and one second
   * more is parked, and a longer delay is parked whenever a shorter one is.
   */
  lemma ThresholdSplitsDelays(maximumDelay: int, delay: int, longer: int)
    requires delay <= longer
    ensures !ShouldBeScheduled(maximumDelay, maximumDelay) && ShouldBeScheduled(maximumDelay, maximumDelay + 1)
    ensures ShouldBeScheduled(maximumDelay, delay) ==> ShouldBeScheduled(maximumDelay, longer)
  {
  }

  datatype Row = Row(id: nat, tube: string, data: string, scheduledTs: int, priority: int, ttr: int,
                     createTs: int, pickedBy: Option<int>, pickedTs: Option<int>)

  /** What `retrieve()` returns for a claimed row. */
  datatype Record = Record(id: nat, queue: string, data: Value, delay: int, priority: int, ttr: int)

  /** The row `store($job)` inserts at time `now`. */
  function NewRow(id: nat, job: JobValue, now: int): (row: Row)
    ensures row.pickedBy.None? && row.createTs == now
    ensures row.scheduledTs - now == job.delay
  {
    Row(id, job.queue, Serialize(job.body), DatetimeDelayAt(now, job.delay), job.priority, job.ttr, now, None, None)
  }

  /** A row the claiming UPDATE may pick: unclaimed and due within `minimumPickup` seconds. */
  predicate Eligible(row: Row, now: int, minimumPickup: int) {
    row.pickedBy.None? && row.scheduledTs <= now + minimumPickup
  }

  predicate NoneEligible(rows: seq<Row>, now: int, minimumPickup: int) {
    forall j :: 0 <= j < |rows| ==> !Eligible(rows[j], now, minimumPickup)
  }

  /** Row `i` is one `ORDER BY scheduled_ts DESC LIMIT 1` may claim. */
  predicate IsPick(rows: seq<Row>, i: int, now: int, minimumPickup: int) {
    0 <= i < |rows| && Eligible(rows[i], now, minimumPickup) &&
    forall j :: 0 <= j < |rows| && Eligible(rows[j], now, minimumPickup) ==> rows[j].scheduledTs <= rows[i].scheduledTs
  }

  function Claim(row: Row, connection: int, now: int): Row {
    row.(pickedBy := Some(connection), pickedTs := Some(now))
  }

  /** `unserialize($row['data'])`, which is false for text it cannot read. */
  function Decoded(data: string): Value {
    match Unserialize(data)
    case Some(v) => v
    case None => Bool(false)
  }

  /** The record for a claimed row: its delay is the time left until it is due, never negative. */
  function ToRecord(row: Row, now: int): (r: Record)
    ensures r.id == row.id && r.queue == row.tube && r.priority == row.priority && r.ttr == row.ttr
    ensures r.delay >= 0
    ensures row.scheduledTs <= now ==> r.delay == 0
    ensures row.scheduledTs > now ==> now + r.delay == row.scheduledTs
  {
    Record(row.id, row.tube, Decoded(row.data), DelayUntil(now, row.scheduledTs), row.priority, row.ttr)
  }

  /** A row due two minutes from now is handed out with delay 120. */
  lemma RecordDelayOfFutureRow(row: Row, now: int)
    requires row.scheduledTs == now + 120
    ensures ToRecord(row, now).delay == 120
  {
  }

  /** A claimed row's delay is at most `minimumPickup`. */
  lemma RecordDelayBounded(row: Row, now: int, minimumPickup: int)
    requires Eligible(row, now, minimumPickup)
    ensures 0 <= ToRecord(row, now).delay <= if minimumPickup < 0 then 0 else minimumPickup
  {
  }

  /**
   * Every claimable row goes straight to the broker when put again exactly
   * when `minimumPickup` (or 0) does not exceed `maximumDelay`.
   */
  lemma PromotedRoutedToBroker(maximumDelay: int, minimumPickup: int, now: int)
    ensures (forall row :: Eligible(row, now, minimumPickup) ==> !ShouldBeScheduled(maximumDelay, ToRecord(row, now).delay))
      <==> (if minimumPickup < 0 then 0 else minimumPickup) <= maximumDelay
  {
    var bound := if minimumPickup < 0 then 0 else minimumPickup;
    if bound <= maximumDelay {
      forall row | Eligible(row, now, minimumPickup)
        ensures !ShouldBeScheduled(maximumDelay, ToRecord(row, now).delay)
      {
        RecordDelayBounded(row, now, minimumPickup);
      }
    } else {
      var row := Row(0, "", "", now + minimumPickup, 0, 0, now, None, None);
      assert Eligible(row, now, minimumPickup);
      assert ShouldBeScheduled(maximumDelay, ToRecord(row, now).delay);
    }
  }

  /** With the defaults (300, 600) a row claimed 450 s before it is due is parked again. */
  lemma DefaultsDeferAgain(now: int)
    ensures var row := Row(1, "queue", "N;", now + 450, 1024, 60, now, None, None);
      Eligible(row, now, DefaultMinimumPickup) && ShouldBeScheduled(DefaultMaximumDelay, ToRecord(row, now).delay)
  {
  }

  /** A stored job, claimed later and turned back into a job, is the job due at the same time. */
  lemma StoredJobComesBack(id: nat, job: JobValue, stored: int, now: int)
    requires job.delay >= 0 && stored <= now
    ensures var r := ToRecord(NewRow(id, job, stored), now);
      r.queue == job.queue && r.data == job.body && r.priority == job.priority && r.ttr == job.ttr &&
      r.delay == DelayUntil(now, DatetimeDelayAt(stored, job.delay))
  {
    UnserializeSerialize(job.body);
  }

  /** The rows whose id is not listed in `ids`, in order. */
  function WithoutIds(rows: seq<Row>, ids: seq<nat>): (r: seq<Row>)
    ensures |r| <= |rows|
    ensures |r| == |rows| <==> forall j :: 0 <= j < |rows| ==> rows[j].id !in ids
  {
    if |rows| == 0 then []
    else
      var rest := WithoutIds(rows[1..], ids);
      assert forall j :: 1 <= j < |rows| ==> rows[j] == rows[1..][j - 1];
      if rows[0].id in ids then rest else [rows[0]] + rest
  }

  /** Every row left is a row of the table whose id is not listed. */
  lemma {:induction false} WithoutIdsMembers(rows: seq<Row>, ids: seq<nat>)
    ensures forall j :: 0 <= j < |WithoutIds(rows, ids)| ==> WithoutIds(rows, ids)[j].id !in ids && WithoutIds(rows, ids)[j] in rows
  {
    if |rows| > 0 {
      WithoutIdsMembers(rows[1..], ids);
      var rest := WithoutIds(rows[1..], ids);
      assert forall j :: 0 <= j < |rest| ==> rest[j] in rows by {
        assert forall x :: x in rows[1..] ==> x in rows;
      }
    }
  }

  /** Every row of the table whose id is not listed is left. */
  lemma {:induction false} WithoutIdsKeeps(rows: seq<Row>, ids: seq<nat>)
    ensures forall j :: 0 <= j < |rows| && rows[j].id !in ids ==> rows[j] in WithoutIds(rows, ids)
  {
    if |rows| > 0 {
      WithoutIdsKeeps(rows[1..], ids);
      assert forall j :: 1 <= j < |rows| ==> rows[j] == rows[1..][j - 1];
    }
  }

  /** Deleting the same ids twice deletes nothing the second time. */
  lemma {:induction false} WithoutIdsIdempotent(rows: seq<Row>, ids: seq<nat>)
    ensures WithoutIds(WithoutIds(rows, ids), ids) == WithoutIds(rows, ids)
  {
    if |rows| > 0 {
      WithoutIdsIdempotent(rows[1..], ids);
      var r := WithoutIds(rows, ids);
      if rows[0].id !in ids {
        assert r == [rows[0]] + WithoutIds(rows[1..], ids);
        assert r[0] == rows[0] && r[1..] == WithoutIds(rows[1..], ids);
      } else {
        assert r == WithoutIds(rows[1..], ids);
      }
    }
  }

  /** Deleting `a` and then `b` deletes `a + b`. */
  lemma {:induction false} WithoutIdsCompose(rows: seq<Row>, a: seq<nat>, b: seq<nat>)
    ensures WithoutIds(WithoutIds(rows, a), b) == WithoutIds(rows, a + b)
  {
    if |rows| > 0 {
      WithoutIdsCompose(rows[1..], a, b);
      var r := WithoutIds(rows, a);
      if rows[0].id !in a {
        assert r == [rows[0]] + WithoutIds(rows[1..], a);
        assert r[0] == rows[0] && r[1..] == WithoutIds(rows[1..], a);
      } else {
        assert r == WithoutIds(rows[1..], a);
      }
    }
  }

  /** Two tables that differ only in rows both delete leave the same rows. */
  lemma {:induction false} WithoutIdsAgree(x: seq<Row>, y: seq<Row>, ids: seq<nat>)
    requires |x| == |y|
    requires forall j :: 0 <= j < |x| ==> x[j] == y[j] || (x[j].id in ids && y[j].id in ids)
    ensures WithoutIds(x, ids) == WithoutIds(y, ids)
  {
    if |x| > 0 {
      assert forall j :: 0 <= j < |x[1..]| ==> x[1..][j] == x[j + 1] && y[1..][j] == y[j + 1];
      WithoutIdsAgree(x[1..], y[1..], ids);
    }
  }

  /** The number of claimable rows. */
  function CountEligible(rows: seq<Row>, now: int, minimumPickup: int): nat {
    if |rows| == 0 then 0
    else (if Eligible(rows[0], now, minimumPickup) then 1 else 0) + CountEligible(rows[1..], now, minimumPickup)
  }

  /** Claiming one claimable row leaves one claimable row fewer. */
  lemma {:induction false} CountEligibleClaim(rows: seq<Row>, i: nat, connection: int, now: int, minimumPickup: int)
    requires i < |rows| && Eligible(rows[i], now, minimumPickup)
    ensures CountEligible(rows[i := Claim(rows[i], connection, now)], now, minimumPickup) ==
      CountEligible(rows, now, minimumPickup) - 1
  {
    var s := rows[i := Claim(rows[i], connection, now)];
    if i > 0 {
      assert s[1..] == rows[1..][i - 1 := Claim(rows[i], connection, now)];
      CountEligibleClaim(rows[1..], i - 1, connection, now, minimumPickup);
    } else {
      assert s[1..] == rows[1..];
    }
  }

  /** The first row claimed by `connection`: what `SELECT … WHERE picked_by = CONNECTION_ID() LIMIT 1` reads. */
  function SelectPickedBy(rows: seq<Row>, connection: int): (r: Option<nat>)
    ensures r.Some? ==> r.value < |rows| && rows[r.value].pickedBy == Some(connection)
    ensures r.Some? ==> forall j :: 0 <= j < r.value ==> rows[j].pickedBy != Some(connection)
    ensures r.None? ==> forall j :: 0 <= j < |rows| ==> rows[j].pickedBy != Some(connection)
  {
    if |rows| == 0 then None
    else if rows[0].pickedBy == Some(connection) then Some(0)
    else
      match SelectPickedBy(rows[1..], connection)
      case None => None
      case Some(k) => Some(k + 1)
  }

  /** When the connection holds no earlier claim, the SELECT reads back the row just claimed. */
  lemma {:induction false} SelectPickedByReadsClaim(rows: seq<Row>, i: nat, connection: int, now: int)
    requires i < |rows|
    requires forall j :: 0 <= j < |rows| ==> rows[j].pickedBy != Some(connection)
    ensures SelectPickedBy(rows[i := Claim(rows[i], connection, now)], connection) == Some(i)
  {
    var s := rows[i := Claim(rows[i], connection, now)];
    if i > 0 {
      assert s[0] == rows[0];
      assert s[1..] == rows[1..][i - 1 := Claim(rows[i], connection, now)];
      SelectPickedByReadsClaim(rows[1..], i - 1, connection, now);
    }
  }

  /**
   * A row claimed earlier by the same connection and never removed (its
   * re-put failed) is read back instead of the row the UPDATE just claimed.
   */
  lemma SelectPickedByReadsStaleClaim(now: int)
    ensures var stale := Row(1, "a", "N;", now - 50, 1024, 60, now - 900, Some(7), Some(now - 60));
      var due := Row(2, "b", "N;", now, 1024, 60, now - 900, None, None);
      var rows := [stale, due];
      IsPick(rows, 1, now, DefaultMinimumPickup) &&
      SelectPickedBy(rows[1 := Claim(due, 7, now)], 7) == Some(0)
  {
  }

  class DbScheduler {
    const maximumDelay: int
    const minimumPickup: int
    /** `CONNECTION_ID()` of the scheduler's database connection. */
    const connection: int
    var rows: seq<Row>
    var nextId: nat

    /** Row ids are unique and below the next auto-increment value. */
    ghost predicate Valid()
      reads this
    {
      UniqueIds(rows) && forall i :: 0 <= i < |rows| ==> rows[i].id < nextId
    }

    constructor (connection: int, maximumDelay: int := DefaultMaximumDelay, minimumPickup: int := DefaultMinimumPickup)
      ensures Valid() && rows == [] && nextId == 1
      ensures this.connection == connection && this.maximumDelay == maximumDelay && this.minimumPickup == minimumPickup
    {
      this.connection := connection;
      this.maximumDelay := maximumDelay;
      this.minimumPickup := minimumPickup;
      rows := [];
      nextId := 1;
    }

    /** `store($job)` at time `now`: insert one row; the insert's row count is 1, so true. */
    method Store(job: Job, now: int) returns (ok: bool)
      requires Valid()
      modifies this`rows, this`nextId
      ensures Valid()
      ensures rows == old(rows) + [NewRow(old(nextId), job.View(), now)] && nextId == old(nextId) + 1
      ensures ok
    {
      var count := Insert(NewRow(nextId, job.View(), now));
      ok := count != 0;
    }

    /** `insert($data)`: appends the row and returns the number of rows inserted. */
    method Insert(row: Row) returns (count: nat)
      requires Valid() && row.id == nextId
      modifies this`rows, this`nextId
      ensures Valid()
      ensures rows == old(rows) + [row] && nextId == old(nextId) + 1
      ensures count == 1
    {
      rows := rows + [row];
      nextId := nextId + 1;
      count := 1;
    }

    /**
     * `retrieve()` at time `now`: claim the claimable row due last and return
     * its record, or None (PHP's false) when no row is claimable. The record
     * is read from the row the UPDATE claimed.
     */
    method Retrieve(now: int) returns (r: Option<Record>, ghost i: nat)
      requires Valid()
      modifies this`rows
      ensures Valid()
      ensures r.None? <==> NoneEligible(old(rows), now, minimumPickup)
      ensures r.None? ==> rows == old(rows)
      ensures r.Some? ==> (IsPick(old(rows), i, now, minimumPickup) &&
        rows == old(rows)[i := Claim(old(rows)[i], connection, now)] &&
        r.value == ToRecord(old(rows)[i], now))
    {
      var best := -1;
      var k := 0;
      while k < |rows|
        invariant 0 <= k <= |rows|
        invariant -1 <= best < k
        invariant best == -1 <==> forall j :: 0 <= j < k ==> !Eligible(rows[j], now, minimumPickup)
        invariant best >= 0 ==> Eligible(rows[best], now, minimumPickup)
        invariant best >= 0 ==> forall j :: 0 <= j < k && Eligible(rows[j], now, minimumPickup) ==>
          rows[j].scheduledTs <= rows[best].scheduledTs
      {
        if Eligible(rows[k], now, minimumPickup) && (best == -1 || rows[k].scheduledTs > rows[best].scheduledTs) {
          best := k;
        }
        k := k + 1;
      }
      if best == -1 {
        r, i := None, 0;
        return;
      }
      i := best;
      rows := rows[best := Claim(rows[best], connection, now)];
      r := Some(ToRecord(rows[best], now));
    }

    /** `remove($id)`: delete the row with that id; true when a row was deleted. */
    method Remove(id: nat) returns (ok: bool)
      requires Valid()
      modifies this`rows
      ensures Valid()
      ensures rows == WithoutIds(old(rows), [id])
      ensures ok <==> exists j :: 0 <= j < |old(rows)| && old(rows)[j].id == id
    {
      var before := |rows|;
      rows := WithoutIds(rows, [id]);
      ok := before - |rows| != 0;
      RemovedRowsValid(old(rows), [id], nextId);
    }

    /**
     * `removeBatch($ids)`: delete every row whose id is listed; true only
     * when the delete's row count is the number of ids asked for, so for a
     * list of distinct ids exactly when every one of them named a row.
     */
    method RemoveBatch(ids: seq<nat>) returns (ok: bool)
      requires Valid()
      modifies this`rows
      ensures Valid()
      ensures rows == WithoutIds(old(rows), ids)
      ensures ok <==> |old(rows)| - |rows| == |ids|
      ensures Distinct(ids) ==> (ok <==> AllPresent(old(rows), ids))
    {
      var before := |rows|;
      rows := WithoutIds(rows, ids);
      ok := before - |rows| == |ids|;
      RemovedRowsValid(old(rows), ids, nextId);
      if Distinct(ids) {
        RemoveBatchAllOrNothing(old(rows), ids);
      }
    }

    /**
     * `retrieveBatch()` at time `now`: claim every claimable row, due last
     * first, and return their records, or None when there is none.
     */
    method RetrieveBatch(now: int) returns (r: Option<seq<Record>>, ghost picks: seq<nat>)
      requires Valid()
      modifies this`rows
      ensures Valid()
      ensures r.None? <==> NoneEligible(old(rows), now, minimumPickup)
      ensures r.None? ==> rows == old(rows) && picks == []
      ensures NoneEligible(rows, now, minimumPickup)
      ensures Drained(old(rows), rows, picks, connection, now, minimumPickup)
      ensures r.Some? ==> (|r.value| == |picks| > 0 &&
        forall k :: 0 <= k < |picks| ==> r.value[k] == ToRecord(old(rows)[picks[k]], now))
    {
      ghost var start := rows;
      var records;
      records, picks := ClaimEach(now);
      r := if records == [] then None else Some(records);
      ClaimedAll(start, rows, picks, connection, now, minimumPickup);
    }

    /** The loop of `retrieveBatch()`: `retrieve()` until it finds nothing, collecting the records. */
    method ClaimEach(now: int) returns (records: seq<Record>, ghost picks: seq<nat>)
      requires Valid()
      modifies this`rows
      ensures Valid()
      ensures Claimed(old(rows), rows, picks, connection, now, minimumPickup)
      ensures NoneEligible(rows, now, minimumPickup)
      ensures |records| == |picks|
      ensures forall k :: 0 <= k < |picks| ==> records[k] == ToRecord(old(rows)[picks[k]], now)
      ensures |picks| == 0 ==> rows == old(rows)
    {
      ghost var start := rows;
      records := [];
      picks := [];
      while true
        invariant Valid()
        invariant |records| == |picks|
        invariant Claimed(start, rows, picks, connection, now, minimumPickup)
        invariant forall k :: 0 <= k < |picks| ==> records[k] == ToRecord(start[picks[k]], now)
        invariant |picks| == 0 ==> rows == start
        decreases CountEligible(rows, now, minimumPickup)
      {
        ghost var before := rows;
        var one, i := Retrieve(now);
        if one.None? {
          break;
        }
        CountEligibleClaim(before, i, connection, now, minimumPickup);
        ClaimedStep(start, before, picks, i, connection, now, minimumPickup);
        records := records + [one.value];
        picks := picks + [i];
      }
    }
  }

  /**
   * `rows` is `start` with the rows at `picks` claimed, in that order and due
   * last first, and every row still claimable is due no later than the last pick.
   */
  ghost predicate Claimed(start: seq<Row>, rows: seq<Row>, picks: seq<nat>, connection: int, now: int, minimumPickup: int) {
    |rows| == |start| &&
    (forall k :: 0 <= k < |picks| ==> picks[k] < |start| && Eligible(start[picks[k]], now, minimumPickup)) &&
    (forall k, l :: 0 <= k < l < |picks| ==> picks[k] != picks[l]) &&
    (forall k, l :: 0 <= k < l < |picks| ==> start[picks[l]].scheduledTs <= start[picks[k]].scheduledTs) &&
    (forall j :: 0 <= j < |rows| ==> rows[j] == if j in picks then Claim(start[j], connection, now) else start[j]) &&
    (|picks| > 0 ==> forall j :: 0 <= j < |rows| && Eligible(rows[j], now, minimumPickup) ==>
      rows[j].scheduledTs <= start[picks[|picks| - 1]].scheduledTs)
  }

  /** One more claim of a row `retrieve()` may pick keeps `Claimed`. */
  lemma ClaimedStep(start: seq<Row>, rows: seq<Row>, picks: seq<nat>, i: nat, connection: int, now: int, minimumPickup: int)
    requires Claimed(start, rows, picks, connection, now, minimumPickup)
    requires IsPick(rows, i, now, minimumPickup)
    ensures i !in picks && rows[i] == start[i]
    ensures Claimed(start, rows[i := Claim(rows[i], connection, now)], picks + [i], connection, now, minimumPickup)
  {
    if i in picks {
      assert false;
    }
    assert rows[i] == start[i];
    var next := rows[i := Claim(rows[i], connection, now)];
    var p := picks + [i];
    forall j | 0 <= j < |next| ensures next[j] == if j in p then Claim(start[j], connection, now) else start[j] {
      if j != i {
        assert next[j] == rows[j];
        assert (j in p) == (j in picks);
      }
    }
    forall k | 0 <= k < |picks| ensures start[i].scheduledTs <= start[picks[k]].scheduledTs {
      assert start[i].scheduledTs <= start[picks[|picks| - 1]].scheduledTs;
    }
    forall j | 0 <= j < |next| && Eligible(next[j], now, minimumPickup) ensures next[j].scheduledTs <= start[i].scheduledTs {
      assert j != i && next[j] == rows[j];
    }
  }

  /**
   * `rows` is `start` with every claimable row claimed and nothing else
   * changed; `picks` lists exactly the claimable rows, each once, due last first.
   */
  ghost predicate Drained(start: seq<Row>, rows: seq<Row>, picks: seq<nat>, connection: int, now: int, minimumPickup: int) {
    |rows| == |start| &&
    (forall k :: 0 <= k < |picks| ==> picks[k] < |start| && Eligible(start[picks[k]], now, minimumPickup)) &&
    (forall k, l :: 0 <= k < l < |picks| ==> picks[k] != picks[l]) &&
    (forall k, l :: 0 <= k < l < |picks| ==> start[picks[l]].scheduledTs <= start[picks[k]].scheduledTs) &&
    (forall j :: 0 <= j < |start| && Eligible(start[j], now, minimumPickup) ==> j in picks) &&
    (forall j :: 0 <= j < |rows| ==>
      rows[j] == if Eligible(start[j], now, minimumPickup) then Claim(start[j], connection, now) else start[j])
  }

  /** Once nothing is claimable, `Claimed` says every claimable row of `start` was claimed. */
  lemma ClaimedAll(start: seq<Row>, rows: seq<Row>, picks: seq<nat>, connection: int, now: int, minimumPickup: int)
    requires Claimed(start, rows, picks, connection, now, minimumPickup)
    requires NoneEligible(rows, now, minimumPickup)
    ensures Drained(start, rows, picks, connection, now, minimumPickup)
  {
    forall j | 0 <= j < |rows|
      ensures rows[j] == if Eligible(start[j], now, minimumPickup) then Claim(start[j], connection, now) else start[j]
    {
      if j in picks {
        var k :| 0 <= k < |picks| && picks[k] == j;
        assert Eligible(start[picks[k]], now, minimumPickup);
      } else {
        assert rows[j] == start[j];
      }
    }
  }

  /** No id is listed twice. */
  predicate Distinct(ids: seq<nat>) {
    forall a, b :: 0 <= a < b < |ids| ==> ids[a] != ids[b]
  }

  /** Some row carries `id`. */
  predicate HasId(rows: seq<Row>, id: nat) {
    exists j :: 0 <= j < |rows| && rows[j].id == id
  }

  /** Every listed id names a row. */
  predicate AllPresent(rows: seq<Row>, ids: seq<nat>) {
    forall i :: 0 <= i < |ids| ==> HasId(rows, ids[i])
  }

  /**
   * A batch delete of distinct ids removes at most one row per id, and
   * removes one row for each id exactly when every id names a row: the
   * delete's row count matches the list only when nothing was missing.
   */
  lemma {:induction false} RemoveBatchAllOrNothing(rows: seq<Row>, ids: seq<nat>)
    requires UniqueIds(rows)
    requires Distinct(ids)
    ensures |rows| - |WithoutIds(rows, ids)| <= |ids|
    ensures |rows| - |WithoutIds(rows, ids)| == |ids| <==> AllPresent(rows, ids)
    decreases |ids|
  {
    if |ids| > 0 {
      var x, rest := ids[0], ids[1..];
      assert ids == [x] + rest;
      var left := WithoutIds(rows, [x]);
      WithoutIdsCompose(rows, [x], rest);
      DeleteOneCount(rows, x);
      WithoutIdsUnique(rows, [x]);
      assert Distinct(rest) by {
        assert forall a :: 0 <= a < |rest| ==> rest[a] == ids[a + 1];
      }
      RemoveBatchAllOrNothing(left, rest);
      forall i | 0 <= i < |rest|
        ensures HasId(left, rest[i]) <==> HasId(rows, rest[i])
      {
        assert rest[i] == ids[i + 1];
        HasIdWithout(rows, x, rest[i]);
      }
      if AllPresent(rows, ids) {
        assert HasId(rows, ids[0]);
        forall i | 0 <= i < |rest| ensures HasId(left, rest[i]) {
          assert rest[i] == ids[i + 1];
        }
      }
    }
  }

  /** Deleting one id from unique rows removes one row when it is present and none otherwise. */
  lemma {:induction false} DeleteOneCount(rows: seq<Row>, x: nat)
    requires UniqueIds(rows)
    ensures |rows| - |WithoutIds(rows, [x])| == if HasId(rows, x) then 1 else 0
  {
    if |rows| > 0 {
      var tail := rows[1..];
      assert forall j :: 0 <= j < |tail| ==> tail[j] == rows[j + 1];
      assert UniqueIds(tail);
      if rows[0].id == x {
        assert forall j :: 0 <= j < |tail| ==> tail[j].id !in [x];
        assert HasId(rows, x);
      } else {
        DeleteOneCount(tail, x);
        assert HasId(rows, x) ==> HasId(tail, x) by {
          if HasId(rows, x) {
            var j :| 0 <= j < |rows| && rows[j].id == x;
            assert tail[j - 1] == rows[j];
          }
        }
        assert HasId(tail, x) ==> HasId(rows, x) by {
          if HasId(tail, x) {
            var j :| 0 <= j < |tail| && tail[j].id == x;
            assert rows[j + 1] == tail[j];
          }
        }
      }
    }
  }

  /** Deleting `x` leaves every other id present exactly when it was. */
  lemma HasIdWithout(rows: seq<Row>, x: nat, y: nat)
    requires y != x
    ensures HasId(WithoutIds(rows, [x]), y) <==> HasId(rows, y)
  {
    var r := WithoutIds(rows, [x]);
    WithoutIdsMembers(rows, [x]);
    WithoutIdsKeeps(rows, [x]);
    if HasId(r, y) {
      var j :| 0 <= j < |r| && r[j].id == y;
      var k :| 0 <= k < |rows| && rows[k] == r[j];
    }
    if HasId(rows, y) {
      var k :| 0 <= k < |rows| && rows[k].id == y;
      assert rows[k] in r;
      var j :| 0 <= j < |r| && r[j] == rows[k];
    }
  }

  /** No two rows share an id. */
  predicate UniqueIds(rows: seq<Row>) {
    forall i, j :: 0 <= i < j < |rows| ==> rows[i].id != rows[j].id
  }

  /** Deleting rows keeps ids unique and below the next id. */
  lemma RemovedRowsValid(rows: seq<Row>, ids: seq<nat>, nextId: nat)
    requires UniqueIds(rows)
    requires forall i :: 0 <= i < |rows| ==> rows[i].id < nextId
    ensures UniqueIds(WithoutIds(rows, ids))
    ensures forall i :: 0 <= i < |WithoutIds(rows, ids)| ==> WithoutIds(rows, ids)[i].id < nextId
  {
    WithoutIdsUnique(rows, ids);
    WithoutIdsMembers(rows, ids);
    var r := WithoutIds(rows, ids);
    forall i | 0 <= i < |r| ensures r[i].id < nextId {
      var k :| 0 <= k < |rows| && rows[k] == r[i];
    }
  }

  lemma {:induction false} WithoutIdsUnique(rows: seq<Row>, ids: seq<nat>)
    requires UniqueIds(rows)
    ensures UniqueIds(WithoutIds(rows, ids))
  {
    if |rows| > 0 {
      var tail := rows[1..];
      assert UniqueIds(tail) by {
        assert forall i :: 0 <= i < |tail| ==> tail[i] == rows[i + 1];
      }
      WithoutIdsUnique(tail, ids);
      WithoutIdsMembers(tail, ids);
      var rest := WithoutIds(tail, ids);
      if rows[0].id !in ids {
        forall j | 0 <= j < |rest| ensures rest[j].id != rows[0].id {
          var k :| 0 <= k < |tail| && tail[k] == rest[j];
          assert tail[k] == rows[k + 1];
        }
        ConsUnique(rows[0], rest);
        assert WithoutIds(rows, ids) == [rows[0]] + rest;
      } else {
        assert WithoutIds(rows, ids) == rest;
      }
    }
  }

  lemma ConsUnique(row: Row, rest: seq<Row>)
    requires UniqueIds(rest)
    requires forall j :: 0 <= j < |rest| ==> rest[j].id != row.id
    ensures UniqueIds([row] + rest)
  {
    var r := [row] + rest;
    forall i, j | 0 <= i < j < |r| ensures r[i].id != r[j].id {
      assert r[j] == rest[j - 1];
      if i > 0 {
        assert r[i] == rest[i - 1];
      }
    }
  }
}
