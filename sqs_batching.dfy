/**
 * How `putBatch` arranges jobs for SQS: jobs the scheduler takes are stored,
 * the others become batch entries grouped per queue (queues in the order
 * they first occur, entries in input order) and every group is sent in
 * chunks of at most ten entries, as `array_chunk($entries, 10)` cuts it.
 */
module SqsBatching {
  import opened Decimal
  import opened Jobs
  import Scheduler
  import SqsFactory

  /** The most entries one `sendMessageBatch` carries. */
  const BatchLimit := 10

  /** One entry of a batch: `['Id' => …, 'DelaySeconds' => …, 'MessageBody' => …]`. */
  datatype Entry = Entry(id: string, delay: int, body: string)

  /** The entry for the job at input index `key`. */
  function EntryOf(key: nat, j: JobValue): Entry {
    Entry(NatToString(key), j.delay, SqsFactory.SerializeBody(j))
  }

  /** Entries bound for one queue: a group of `$queues`, or the payload of one `sendMessageBatch`. */
  datatype Batch = Batch(queue: string, entries: seq<Entry>)

  /** `$queues`: the entries per queue, queues in insertion order. */
  type Groups = seq<Batch>

  predicate DistinctNames(groups: Groups) {
    forall g, h :: 0 <= g < h < |groups| ==> groups[g].queue != groups[h].queue
  }

  predicate HasGroup(groups: Groups, queue: string) {
    exists g :: 0 <= g < |groups| && groups[g].queue == queue
  }

  /** The position of `queue`'s group at or after `i`, or `|groups|` when there is none. */
  function FindFrom(groups: Groups, queue: string, i: nat): (r: nat)
    requires i <= |groups|
    ensures i <= r <= |groups|
    ensures r < |groups| ==> groups[r].queue == queue
    ensures forall g :: i <= g < r ==> groups[g].queue != queue
    decreases |groups| - i
  {
    if i == |groups| then i
    else if groups[i].queue == queue then i
    else FindFrom(groups, queue, i + 1)
  }

  /** The position of `queue`'s group, or `|groups|` when it has none. */
  function Find(groups: Groups, queue: string): (r: nat)
    ensures r <= |groups| && (r < |groups| <==> HasGroup(groups, queue))
    ensures r < |groups| ==> groups[r].queue == queue
  {
    FindFrom(groups, queue, 0)
  }

  /** With distinct names, a group is found at its own position. */
  lemma FindDistinct(groups: Groups, g: nat)
    requires DistinctNames(groups) && g < |groups|
    ensures Find(groups, groups[g].queue) == g
  {
  }

  /** `$queues[$queue] ?? []`. */
  function GroupOf(groups: Groups, queue: string): seq<Entry> {
    var i := Find(groups, queue);
    if i < |groups| then groups[i].entries else []
  }

  /** `$queues[$queue][] = $entry`: a new queue goes last, an existing one keeps its place. */
  function AddEntry(groups: Groups, queue: string, e: Entry): Groups {
    var i := Find(groups, queue);
    if i < |groups| then groups[i := Batch(queue, groups[i].entries + [e])]
    else groups + [Batch(queue, [e])]
  }

  /**
   * Adding an entry keeps the queue names distinct and in place, adds
   * `queue` to the names, appends the entry to that queue's list only, and
   * keeps every list non-empty.
   */
  lemma AddEntrySound(groups: Groups, queue: string, e: Entry)
    requires DistinctNames(groups)
    ensures var r := AddEntry(groups, queue, e);
      DistinctNames(r) &&
      (forall g :: 0 <= g < |groups| ==> r[g].queue == groups[g].queue) &&
      (forall q :: HasGroup(r, q) <==> HasGroup(groups, q) || q == queue) &&
      (forall q {:trigger GroupOf(r, q)} :: GroupOf(r, q) == if q == queue then GroupOf(groups, q) + [e] else GroupOf(groups, q)) &&
      ((forall g :: 0 <= g < |groups| ==> |groups[g].entries| > 0) ==> forall g :: 0 <= g < |r| ==> |r[g].entries| > 0)
  {
    var r := AddEntry(groups, queue, e);
    var i := Find(groups, queue);
    assert |r| == (if i < |groups| then |groups| else |groups| + 1);
    assert forall g :: 0 <= g < |groups| ==> r[g].queue == groups[g].queue;
    assert r[i].queue == queue;
    forall q ensures HasGroup(r, q) <==> HasGroup(groups, q) || q == queue {
      if HasGroup(r, q) {
        var g :| 0 <= g < |r| && r[g].queue == q;
        if g < |groups| {
          assert groups[g].queue == q;
        }
      }
      if HasGroup(groups, q) {
        var g :| 0 <= g < |groups| && groups[g].queue == q;
        assert r[g].queue == q;
      }
    }
    forall q {:trigger GroupOf(r, q)} ensures GroupOf(r, q) == if q == queue then GroupOf(groups, q) + [e] else GroupOf(groups, q) {
      if q == queue {
        FindDistinct(r, i);
      } else if HasGroup(groups, q) {
        var j := Find(groups, q);
        assert r[j] == groups[j];
        FindDistinct(r, j);
      }
    }
  }

  /** Whether the scheduler takes the job at index `k` instead of the broker. */
  predicate Deferred(maximumDelay: int, j: JobValue) {
    Scheduler.ShouldBeScheduled(maximumDelay, j.delay)
  }

  /** The entries for `queue` among the first `n` jobs, in input order. */
  function QueueEntries(maximumDelay: int, jobs: seq<JobValue>, n: nat, queue: string): seq<Entry>
    requires n <= |jobs|
  {
    if n == 0 then []
    else
      var rest := QueueEntries(maximumDelay, jobs, n - 1, queue);
      if !Deferred(maximumDelay, jobs[n - 1]) && jobs[n - 1].queue == queue then rest + [EntryOf(n - 1, jobs[n - 1])]
      else rest
  }

  /** One entry per job sent to `queue`, and nothing else, each carrying the job's index as its Id. */
  lemma QueueEntriesSound(maximumDelay: int, jobs: seq<JobValue>, n: nat, queue: string)
    requires n <= |jobs|
    ensures var r := QueueEntries(maximumDelay, jobs, n, queue);
      (forall i :: 0 <= i < |r| ==>
        exists k :: 0 <= k < n && !Deferred(maximumDelay, jobs[k]) && jobs[k].queue == queue && r[i] == EntryOf(k, jobs[k])) &&
      (forall k :: 0 <= k < n && !Deferred(maximumDelay, jobs[k]) && jobs[k].queue == queue ==> EntryOf(k, jobs[k]) in r)
  {
    QueueEntriesOnly(maximumDelay, jobs, n, queue);
    QueueEntriesAll(maximumDelay, jobs, n, queue);
  }

  lemma {:induction false} QueueEntriesOnly(maximumDelay: int, jobs: seq<JobValue>, n: nat, queue: string)
    requires n <= |jobs|
    ensures forall i :: 0 <= i < |QueueEntries(maximumDelay, jobs, n, queue)| ==>
      exists k :: 0 <= k < n && !Deferred(maximumDelay, jobs[k]) && jobs[k].queue == queue &&
        QueueEntries(maximumDelay, jobs, n, queue)[i] == EntryOf(k, jobs[k])
  {
    if n > 0 {
      QueueEntriesOnly(maximumDelay, jobs, n - 1, queue);
      var rest := QueueEntries(maximumDelay, jobs, n - 1, queue);
      var r := QueueEntries(maximumDelay, jobs, n, queue);
      forall i | 0 <= i < |r|
        ensures exists k :: 0 <= k < n && !Deferred(maximumDelay, jobs[k]) && jobs[k].queue == queue && r[i] == EntryOf(k, jobs[k])
      {
        if i < |rest| {
          assert r[i] == rest[i];
          var k :| 0 <= k < n - 1 && !Deferred(maximumDelay, jobs[k]) && jobs[k].queue == queue && rest[i] == EntryOf(k, jobs[k]);
        } else {
          assert r[i] == EntryOf(n - 1, jobs[n - 1]);
        }
      }
    } else {
      assert QueueEntries(maximumDelay, jobs, n, queue) == [];
    }
  }

  lemma {:induction false} QueueEntriesAll(maximumDelay: int, jobs: seq<JobValue>, n: nat, queue: string)
    requires n <= |jobs|
    ensures var r := QueueEntries(maximumDelay, jobs, n, queue);
      forall k :: 0 <= k < n && !Deferred(maximumDelay, jobs[k]) && jobs[k].queue == queue ==> EntryOf(k, jobs[k]) in r
  {
    if n > 0 {
      QueueEntriesAll(maximumDelay, jobs, n - 1, queue);
      var rest := QueueEntries(maximumDelay, jobs, n - 1, queue);
      var r := QueueEntries(maximumDelay, jobs, n, queue);
      var last := EntryOf(n - 1, jobs[n - 1]);
      if !Deferred(maximumDelay, jobs[n - 1]) && jobs[n - 1].queue == queue {
        assert r == rest + [last];
        forall k | 0 <= k < n && !Deferred(maximumDelay, jobs[k]) && jobs[k].queue == queue
          ensures EntryOf(k, jobs[k]) in r
        {
          if k < n - 1 {
            assert EntryOf(k, jobs[k]) in rest;
          } else {
            assert r[|rest|] == last;
          }
        }
      } else {
        assert r == rest;
      }
    }
  }

  /** `$queues` after the first foreach has seen the first `n` jobs. */
  function Grouped(maximumDelay: int, jobs: seq<JobValue>, n: nat): Groups
    requires n <= |jobs|
  {
    if n == 0 then []
    else
      var g := Grouped(maximumDelay, jobs, n - 1);
      var j := jobs[n - 1];
      if Deferred(maximumDelay, j) then g else AddEntry(g, j.queue, EntryOf(n - 1, j))
  }

  /** The groups have distinct, non-empty queues, and a queue's list is that queue's entries. */
  lemma {:induction false} GroupedSound(maximumDelay: int, jobs: seq<JobValue>, n: nat)
    requires n <= |jobs|
    ensures var r := Grouped(maximumDelay, jobs, n);
      DistinctNames(r) &&
      (forall g :: 0 <= g < |r| ==> |r[g].entries| > 0) &&
      (forall q {:trigger GroupOf(r, q)} :: GroupOf(r, q) == QueueEntries(maximumDelay, jobs, n, q))
  {
    if n > 0 {
      GroupedSound(maximumDelay, jobs, n - 1);
      var j := jobs[n - 1];
      if !Deferred(maximumDelay, j) {
        AddEntrySound(Grouped(maximumDelay, jobs, n - 1), j.queue, EntryOf(n - 1, j));
      }
    }
  }

  /** A queue has a group exactly when some job is sent to it. */
  lemma {:induction false} GroupedNames(maximumDelay: int, jobs: seq<JobValue>, n: nat)
    requires n <= |jobs|
    ensures forall q :: HasGroup(Grouped(maximumDelay, jobs, n), q) <==>
      exists k :: 0 <= k < n && !Deferred(maximumDelay, jobs[k]) && jobs[k].queue == q
  {
    if n > 0 {
      GroupedNames(maximumDelay, jobs, n - 1);
      GroupedSound(maximumDelay, jobs, n - 1);
      var g := Grouped(maximumDelay, jobs, n - 1);
      var j := jobs[n - 1];
      if !Deferred(maximumDelay, j) {
        AddEntrySound(g, j.queue, EntryOf(n - 1, j));
        var r := AddEntry(g, j.queue, EntryOf(n - 1, j));
        forall q ensures HasGroup(r, q) <==> exists k :: 0 <= k < n && !Deferred(maximumDelay, jobs[k]) && jobs[k].queue == q {
          if q == j.queue {
            assert 0 <= n - 1 < n && !Deferred(maximumDelay, jobs[n - 1]) && jobs[n - 1].queue == q;
          }
        }
      }
    }
  }

  /**
   * No deferred job has an entry in any group, and a job for the broker has
   * its own entry in the group of its queue and no entry in any other group.
   */
  lemma Partitioned(maximumDelay: int, jobs: seq<JobValue>, k: nat, queue: string)
    requires k < |jobs|
    ensures var groups := Grouped(maximumDelay, jobs, |jobs|);
      var ids := set e | e in GroupOf(groups, queue) :: e.id;
      (Deferred(maximumDelay, jobs[k]) ==> NatToString(k) !in ids) &&
      (!Deferred(maximumDelay, jobs[k]) && jobs[k].queue == queue ==> EntryOf(k, jobs[k]) in GroupOf(groups, queue)) &&
      (!Deferred(maximumDelay, jobs[k]) && jobs[k].queue != queue ==> NatToString(k) !in ids)
  {
    var groups := Grouped(maximumDelay, jobs, |jobs|);
    GroupedSound(maximumDelay, jobs, |jobs|);
    QueueEntriesSound(maximumDelay, jobs, |jobs|, queue);
    var es := GroupOf(groups, queue);
    forall e | e in es && e.id == NatToString(k)
      ensures !Deferred(maximumDelay, jobs[k]) && jobs[k].queue == queue
    {
      var i :| 0 <= i < |es| && es[i] == e;
      var k' :| 0 <= k' < |jobs| && !Deferred(maximumDelay, jobs[k']) && jobs[k'].queue == queue && es[i] == EntryOf(k', jobs[k']);
      NatToStringInjective(k, k');
    }
  }

  /** The first `n` chunks, concatenated. */
  function Flatten(chunks: seq<seq<Entry>>, n: nat): seq<Entry>
    requires n <= |chunks|
  {
    if n == 0 then [] else Flatten(chunks, n - 1) + chunks[n - 1]
  }

  lemma {:induction false} FlattenCons(x: seq<Entry>, rest: seq<seq<Entry>>, n: nat)
    requires n <= |rest|
    ensures Flatten([x] + rest, n + 1) == x + Flatten(rest, n)
  {
    var c := [x] + rest;
    if n == 0 {
      assert c[0] == x;
      assert Flatten(c, 1) == [] + x;
      assert Flatten(rest, 0) == [];
    } else {
      FlattenCons(x, rest, n - 1);
      assert c[n] == rest[n - 1];
      assert Flatten(c, n + 1) == (x + Flatten(rest, n - 1)) + rest[n - 1];
      assert Flatten(rest, n) == Flatten(rest, n - 1) + rest[n - 1];
    }
  }

  /** `array_chunk($entries, 10)`. */
  function Chunks(es: seq<Entry>): seq<seq<Entry>>
    decreases |es|
  {
    if |es| == 0 then []
    else if |es| <= BatchLimit then [es]
    else [es[..BatchLimit]] + Chunks(es[BatchLimit..])
  }

  /** The chunks concatenate to the input: every entry is sent once, in order. */
  lemma {:induction false} ChunksConcatenate(es: seq<Entry>)
    ensures Flatten(Chunks(es), |Chunks(es)|) == es
    decreases |es|
  {
    if |es| == 0 {
    } else if |es| <= BatchLimit {
      assert Flatten([es], 1) == Flatten([es], 0) + es;
    } else {
      var rest := Chunks(es[BatchLimit..]);
      ChunksConcatenate(es[BatchLimit..]);
      FlattenCons(es[..BatchLimit], rest, |rest|);
      assert es[..BatchLimit] + es[BatchLimit..] == es;
    }
  }

  /** The chunks are non-empty, all full but the last, and as many as needed. */
  lemma {:induction false} ChunksBounded(es: seq<Entry>)
    ensures var r := Chunks(es);
      (forall i :: 0 <= i < |r| ==> 0 < |r[i]| <= BatchLimit) &&
      (forall i :: 0 <= i < |r| - 1 ==> |r[i]| == BatchLimit) &&
      |r| == (|es| + BatchLimit - 1) / BatchLimit
    decreases |es|
  {
    var r := Chunks(es);
    if |es| > BatchLimit {
      var rest := Chunks(es[BatchLimit..]);
      ChunksBounded(es[BatchLimit..]);
      assert forall i :: 0 < i < |r| ==> r[i] == rest[i - 1];
    }
  }

  /** 25 entries for one queue go in three sends of 10, 10 and 5, in order. */
  lemma ChunksOfTwentyFive(es: seq<Entry>)
    requires |es| == 25
    ensures var c := Chunks(es);
      |c| == 3 && c[0] == es[..10] && c[1] == es[10..20] && c[2] == es[20..]
  {
    var t := es[10..];
    assert Chunks(t) == [t[..10]] + Chunks(t[10..]);
    assert t[10..] == es[20..] && t[..10] == es[10..20];
    assert Chunks(es[20..]) == [es[20..]];
  }

  /** One queue's chunks as sends to that queue. */
  function SendsOf(queue: string, chunks: seq<seq<Entry>>): (r: seq<Batch>)
    ensures |r| == |chunks| && forall i :: 0 <= i < |r| ==> r[i] == Batch(queue, chunks[i])
  {
    seq(|chunks|, i requires 0 <= i < |chunks| => Batch(queue, chunks[i]))
  }

  /** The sends of the second foreach over the first `g` groups: each group's chunks, group by group. */
  function SendsUpTo(groups: Groups, g: nat): seq<Batch>
    requires g <= |groups|
  {
    if g == 0 then []
    else SendsUpTo(groups, g - 1) + SendsOf(groups[g - 1].queue, Chunks(groups[g - 1].entries))
  }

  /** The entries of the first `n` batches, concatenated. */
  function Entries(xs: seq<Batch>, n: nat): seq<Entry>
    requires n <= |xs|
  {
    if n == 0 then [] else Entries(xs, n - 1) + xs[n - 1].entries
  }

  lemma {:induction false} EntriesAgree(xs: seq<Batch>, ys: seq<Batch>, n: nat)
    requires n <= |xs| && n <= |ys| && forall i :: 0 <= i < n ==> xs[i] == ys[i]
    ensures Entries(xs, n) == Entries(ys, n)
  {
    if n > 0 {
      EntriesAgree(xs, ys, n - 1);
    }
  }

  lemma {:induction false} EntriesAppend(xs: seq<Batch>, ys: seq<Batch>, j: nat)
    requires j <= |ys|
    ensures Entries(xs + ys, |xs| + j) == Entries(xs, |xs|) + Entries(ys, j)
  {
    if j == 0 {
      EntriesAgree(xs + ys, xs, |xs|);
    } else {
      var zs := xs + ys;
      EntriesAppend(xs, ys, j - 1);
      assert zs[|xs| + j - 1] == ys[j - 1];
      assert Entries(zs, |xs| + j) == Entries(zs, |xs| + j - 1) + ys[j - 1].entries;
      assert Entries(ys, j) == Entries(ys, j - 1) + ys[j - 1].entries;
    }
  }

  lemma {:induction false} EntriesOfSends(queue: string, chunks: seq<seq<Entry>>, n: nat)
    requires n <= |chunks|
    ensures Entries(SendsOf(queue, chunks), n) == Flatten(chunks, n)
  {
    if n > 0 {
      EntriesOfSends(queue, chunks, n - 1);
    }
  }

  /** Every send goes to a queue that has a group and carries one to ten entries. */
  lemma {:induction false} SendsTargetGroups(groups: Groups, g: nat)
    requires g <= |groups|
    ensures forall i :: 0 <= i < |SendsUpTo(groups, g)| ==>
      HasGroup(groups, SendsUpTo(groups, g)[i].queue) && 0 < |SendsUpTo(groups, g)[i].entries| <= BatchLimit
  {
    if g > 0 {
      var rest := SendsUpTo(groups, g - 1);
      var mine := SendsOf(groups[g - 1].queue, Chunks(groups[g - 1].entries));
      SendsTargetGroups(groups, g - 1);
      ChunksBounded(groups[g - 1].entries);
      var r := SendsUpTo(groups, g);
      forall i | 0 <= i < |r| ensures HasGroup(groups, r[i].queue) && 0 < |r[i].entries| <= BatchLimit {
        if i < |rest| {
          assert r[i] == rest[i];
        } else {
          assert r[i] == mine[i - |rest|];
          assert groups[g - 1].queue == r[i].queue;
        }
      }
    }
  }

  /** The sends carry all the grouped entries, each once and in order. */
  lemma {:induction false} SendsCarryGroups(groups: Groups, g: nat)
    requires g <= |groups|
    ensures Entries(SendsUpTo(groups, g), |SendsUpTo(groups, g)|) == Entries(groups, g)
  {
    if g > 0 {
      var es := groups[g - 1].entries;
      var rest := SendsUpTo(groups, g - 1);
      var mine := SendsOf(groups[g - 1].queue, Chunks(es));
      SendsCarryGroups(groups, g - 1);
      EntriesAppend(rest, mine, |mine|);
      EntriesOfSends(groups[g - 1].queue, Chunks(es), |mine|);
      ChunksConcatenate(es);
      assert Entries(groups, g) == Entries(groups, g - 1) + es;
    }
  }

  /** Nothing is grouped, so nothing is sent, when every job is deferred, and in particular for no jobs. */
  lemma NothingSentWhenAllDeferred(maximumDelay: int, jobs: seq<JobValue>)
    requires forall k :: 0 <= k < |jobs| ==> Deferred(maximumDelay, jobs[k])
    ensures Grouped(maximumDelay, jobs, |jobs|) == []
  {
    var groups := Grouped(maximumDelay, jobs, |jobs|);
    GroupedNames(maximumDelay, jobs, |jobs|);
    if |groups| > 0 {
      assert HasGroup(groups, groups[0].queue);
    }
  }
}
