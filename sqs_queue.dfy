/**
 * The SQS job queue. The service is a collaborator given as data: the queue
 * URL of each queue name, the RedrivePolicy attribute of each URL, and the
 * URLs whose calls fail with an SqsException. The queue keeps a cache of the
 * URLs it has looked up (keyed by the prefixed name) and records every call
 * it makes to the service and the scheduler, in order.
 */
module SqsQueue {
  import opened Wrappers
  import opened Seqs
  import opened PhpValues
  import opened Codec
  import opened Jobs
  import opened Errors
  import opened JobSpec
  import opened SqsBatching
  import Scheduler
  import SqsFactory

  datatype Call =
    | GetQueueUrl(name: string)
    | SendMessage(url: string, delay: int, body: string)
    | SendMessageBatch(url: string, entries: seq<Entry>)
    | ReceiveMessage(url: string, wait: int, max: int)
    | DeleteMessage(url: string, receipt: JobId)
    | GetQueueAttributes(url: string)
    | Store(job: JobValue)

  datatype Service = Service(urls: map<string, string>, redrive: map<string, string>, failing: set<string>)

  const DefaultRetrieveTimeout := 10
  const DeadLetterArnKey := StrKey("deadLetterTargetArn")

  /** `$this->queuePrefix . $name`. */
  function PrefixedName(prefix: string, name: string): (r: string)
    ensures |r| == |prefix| + |name| && r[..|prefix|] == prefix && r[|prefix|..] == name
  {
    prefix + name
  }

  /** Distinct queues have distinct prefixed names, so they never share a cache slot. */
  lemma PrefixedNameInjective(prefix: string, a: string, b: string)
    requires PrefixedName(prefix, a) == PrefixedName(prefix, b)
    ensures a == b
  {
    assert a == PrefixedName(prefix, a)[|prefix|..];
  }

  /** The cached URLs are the service's URLs. */
  predicate CacheAgrees(s: Service, cache: map<string, string>) {
    forall n :: n in cache ==> n in s.urls && cache[n] == s.urls[n]
  }

  /** Every name the calls show was found is in the cache. */
  predicate FoundCached(s: Service, calls: seq<Call>, cache: map<string, string>) {
    forall c :: c in calls && c.GetQueueUrl? && c.name in s.urls ==> c.name in cache
  }

  /** No lookup of a queue the service has repeats an earlier call. */
  predicate LookedUpOnce(s: Service, calls: seq<Call>) {
    forall i, j :: 0 <= i < j < |calls| && calls[j].GetQueueUrl? && calls[j].name in s.urls ==> calls[i] != calls[j]
  }

  /** The queue's invariant, on the calls made so far and the cache. */
  predicate Consistent(s: Service, calls: seq<Call>, cache: map<string, string>) {
    CacheAgrees(s, cache) && FoundCached(s, calls, cache) && LookedUpOnce(s, calls)
  }

  /** The URL of a queue the service has is fetched at most once over the whole trace. */
  lemma UrlLookedUpOnce(s: Service, calls: seq<Call>, cache: map<string, string>, name: string)
    requires Consistent(s, calls, cache) && name in s.urls
    ensures forall i, j :: 0 <= i < |calls| && 0 <= j < |calls| && calls[i] == GetQueueUrl(name) && calls[j] == GetQueueUrl(name) ==> i == j
  {
  }

  /** Calls made, the cache afterwards, and the value returned or the exception thrown. */
  datatype Answer = Answer(calls: seq<Call>, cache: map<string, string>, value: Outcome<string>)

  /**
   * `getQueueUrl($name)`: served from the cache, else looked up once and
   * cached. The service is asked only on a miss, and the cache only grows.
   * With a cache that agrees with the service, the answer is the service's
   * URL, or InvalidArgument for a queue it does not have, and the cache
   * still agrees, now holding the name exactly when the queue exists.
   */
  function Resolve(s: Service, cache: map<string, string>, name: string): (r: Answer)
    ensures r.calls == if name in cache then [] else [GetQueueUrl(name)]
    ensures forall n :: n in cache ==> n in r.cache && r.cache[n] == cache[n]
    ensures CacheAgrees(s, cache) ==> CacheAgrees(s, r.cache) && (name in r.cache <==> name in s.urls)
    ensures CacheAgrees(s, cache) ==> r.value == if name in s.urls then Done(s.urls[name]) else Raised(InvalidArgument)
  {
    if name in cache then Answer([], cache, Done(cache[name]))
    else if name in s.urls then Answer([GetQueueUrl(name)], cache[name := s.urls[name]], Done(s.urls[name]))
    else Answer([GetQueueUrl(name)], cache, Raised(InvalidArgument))
  }

  /** The SqsException of a call on `url`, turned into the library's RuntimeException. */
  function CallResult(s: Service, url: string): Option<Thrown> {
    if url in s.failing then Some(Runtime) else None
  }

  /** Calls made, the cache afterwards, and the exception thrown, if any. */
  datatype Effect = Effect(calls: seq<Call>, cache: map<string, string>, thrown: Option<Thrown>)

  /** `put($job)`. */
  function PutEffect(s: Service, prefix: string, maximumDelay: int, cache: map<string, string>, j: JobValue): Effect {
    if Scheduler.ShouldBeScheduled(maximumDelay, j.delay) then Effect([Store(j)], cache, None)
    else
      var res := Resolve(s, cache, PrefixedName(prefix, j.queue));
      if res.value.Raised? then Effect(res.calls, res.cache, Some(res.value.e))
      else Effect(res.calls + [SendMessage(res.value.value, j.delay, SqsFactory.SerializeBody(j))], res.cache, CallResult(s, res.value.value))
  }

  /** One `sendMessageBatch` of the second foreach, skipped once something was thrown. */
  function SendStep(s: Service, prefix: string, st: Effect, send: Batch): Effect {
    if st.thrown.Some? then st
    else
      var res := Resolve(s, st.cache, PrefixedName(prefix, send.queue));
      if res.value.Raised? then Effect(st.calls + res.calls, res.cache, Some(res.value.e))
      else Effect(st.calls + res.calls + [SendMessageBatch(res.value.value, send.entries)], res.cache, CallResult(s, res.value.value))
  }

  /** The inner foreach: the first `n` chunks of one queue, one send each. */
  function ChunksFrom(s: Service, prefix: string, st: Effect, queue: string, chunks: seq<seq<Entry>>, n: nat): Effect
    requires n <= |chunks|
  {
    if n == 0 then st
    else SendStep(s, prefix, ChunksFrom(s, prefix, st, queue, chunks, n - 1), Batch(queue, chunks[n - 1]))
  }

  /** The outer foreach over the first `g` groups: each group's chunks, group by group. */
  function GroupsFrom(s: Service, prefix: string, st: Effect, groups: Groups, g: nat): Effect
    requires g <= |groups|
  {
    if g == 0 then st
    else
      var chunks := Chunks(groups[g - 1].entries);
      ChunksFrom(s, prefix, GroupsFrom(s, prefix, st, groups, g - 1), groups[g - 1].queue, chunks, |chunks|)
  }

  /** The effect `e` made after the calls `calls`. */
  function After(calls: seq<Call>, e: Effect): Effect {
    Effect(calls + e.calls, e.cache, e.thrown)
  }

  /** A send depends on the calls made before it only by appending to them. */
  lemma SendStepShift(s: Service, prefix: string, calls: seq<Call>, cache: map<string, string>, send: Batch)
    ensures SendStep(s, prefix, Effect(calls, cache, None), send) == After(calls, SendStep(s, prefix, Effect([], cache, None), send))
  {
    var res := Resolve(s, cache, PrefixedName(prefix, send.queue));
    assert [] + res.calls == res.calls;
    if res.value.Done? {
      var sent := SendMessageBatch(res.value.value, send.entries);
      Regroup(calls, res.calls, [sent]);
    }
  }

  lemma {:induction false} ChunksFromShift(s: Service, prefix: string, calls: seq<Call>, cache: map<string, string>, queue: string, chunks: seq<seq<Entry>>, n: nat)
    requires n <= |chunks|
    ensures ChunksFrom(s, prefix, Effect(calls, cache, None), queue, chunks, n) ==
      After(calls, ChunksFrom(s, prefix, Effect([], cache, None), queue, chunks, n))
  {
    if n == 0 {
      assert calls + [] == calls;
    } else {
      ChunksFromShift(s, prefix, calls, cache, queue, chunks, n - 1);
      var a := ChunksFrom(s, prefix, Effect([], cache, None), queue, chunks, n - 1);
      if a.thrown.None? {
        var send := Batch(queue, chunks[n - 1]);
        SendStepShift(s, prefix, calls + a.calls, a.cache, send);
        SendStepShift(s, prefix, a.calls, a.cache, send);
        var e := SendStep(s, prefix, Effect([], a.cache, None), send);
        Regroup(calls, a.calls, e.calls);
      }
    }
  }

  lemma {:induction false} GroupsFromShift(s: Service, prefix: string, calls: seq<Call>, cache: map<string, string>, groups: Groups, g: nat)
    requires g <= |groups|
    ensures GroupsFrom(s, prefix, Effect(calls, cache, None), groups, g) == After(calls, GroupsFrom(s, prefix, Effect([], cache, None), groups, g))
  {
    if g == 0 {
      assert calls + [] == calls;
    } else {
      GroupsFromShift(s, prefix, calls, cache, groups, g - 1);
      var a := GroupsFrom(s, prefix, Effect([], cache, None), groups, g - 1);
      var queue := groups[g - 1].queue;
      var chunks := Chunks(groups[g - 1].entries);
      if a.thrown.None? {
        ChunksFromShift(s, prefix, calls + a.calls, a.cache, queue, chunks, |chunks|);
        ChunksFromShift(s, prefix, a.calls, a.cache, queue, chunks, |chunks|);
        var e := ChunksFrom(s, prefix, Effect([], a.cache, None), queue, chunks, |chunks|);
        Regroup(calls, a.calls, e.calls);
      } else {
        ChunksFromStopped(s, prefix, a, queue, chunks, 0, |chunks|);
        ChunksFromStopped(s, prefix, After(calls, a), queue, chunks, 0, |chunks|);
      }
    }
  }

  /** Once a send has thrown, the later ones are never made. */
  lemma {:induction false} ChunksFromStopped(s: Service, prefix: string, st: Effect, queue: string, chunks: seq<seq<Entry>>, m: nat, n: nat)
    requires m <= n <= |chunks|
    requires ChunksFrom(s, prefix, st, queue, chunks, m).thrown.Some?
    ensures ChunksFrom(s, prefix, st, queue, chunks, n) == ChunksFrom(s, prefix, st, queue, chunks, m)
    decreases n
  {
    if n > m {
      ChunksFromStopped(s, prefix, st, queue, chunks, m, n - 1);
    }
  }

  /** Once a group's send has thrown, the later groups are never sent. */
  lemma {:induction false} GroupsFromStopped(s: Service, prefix: string, st: Effect, groups: Groups, g: nat, h: nat)
    requires g <= h <= |groups|
    requires GroupsFrom(s, prefix, st, groups, g).thrown.Some?
    ensures GroupsFrom(s, prefix, st, groups, h) == GroupsFrom(s, prefix, st, groups, g)
    decreases h
  {
    if h > g {
      GroupsFromStopped(s, prefix, st, groups, g, h - 1);
      var chunks := Chunks(groups[h - 1].entries);
      ChunksFromStopped(s, prefix, GroupsFrom(s, prefix, st, groups, h - 1), groups[h - 1].queue, chunks, 0, |chunks|);
    }
  }

  /** One more send of the inner fold, from a state that has not thrown. */
  lemma ChunksFromNext(s: Service, prefix: string, init: Effect, queue: string, chunks: seq<seq<Entry>>, c: nat, calls: seq<Call>, cache: map<string, string>)
    requires c < |chunks|
    requires ChunksFrom(s, prefix, init, queue, chunks, c) == Effect(calls, cache, None)
    ensures var e := SendStep(s, prefix, Effect([], cache, None), Batch(queue, chunks[c]));
      ChunksFrom(s, prefix, init, queue, chunks, c + 1) == After(calls, e) &&
      (e.thrown.Some? ==> ChunksFrom(s, prefix, init, queue, chunks, |chunks|) == After(calls, e))
  {
    SendStepShift(s, prefix, calls, cache, Batch(queue, chunks[c]));
    if ChunksFrom(s, prefix, init, queue, chunks, c + 1).thrown.Some? {
      ChunksFromStopped(s, prefix, init, queue, chunks, c + 1, |chunks|);
    }
  }

  /** One more group of the outer fold, from a state that has not thrown. */
  lemma GroupsFromNext(s: Service, prefix: string, start: Effect, groups: Groups, g: nat, calls: seq<Call>, cache: map<string, string>)
    requires g < |groups|
    requires GroupsFrom(s, prefix, start, groups, g) == Effect(calls, cache, None)
    ensures var chunks := Chunks(groups[g].entries);
      var e := ChunksFrom(s, prefix, Effect([], cache, None), groups[g].queue, chunks, |chunks|);
      GroupsFrom(s, prefix, start, groups, g + 1) == After(calls, e) &&
      (e.thrown.Some? ==> GroupsFrom(s, prefix, start, groups, |groups|) == After(calls, e))
  {
    var chunks := Chunks(groups[g].entries);
    ChunksFromShift(s, prefix, calls, cache, groups[g].queue, chunks, |chunks|);
    if GroupsFrom(s, prefix, start, groups, g + 1).thrown.Some? {
      GroupsFromStopped(s, prefix, start, groups, g + 1, |groups|);
    }
  }

  lemma Concat(a: seq<Call>, b: seq<Call>)
    ensures b == [] ==> a + b == a
  {
  }

  /** The batch sends among a list of calls. */
  function BatchSends(calls: seq<Call>): seq<Call> {
    if |calls| == 0 then []
    else (if calls[0].SendMessageBatch? then [calls[0]] else []) + BatchSends(calls[1..])
  }

  lemma {:induction false} BatchSendsAppend(a: seq<Call>, b: seq<Call>)
    ensures BatchSends(a + b) == BatchSends(a) + BatchSends(b)
  {
    if |a| > 0 {
      assert (a + b)[1..] == a[1..] + b;
      BatchSendsAppend(a[1..], b);
    } else {
      assert a + b == b;
    }
  }

  lemma BatchSendsOne(c: Call)
    ensures BatchSends([c]) == if c.SendMessageBatch? then [c] else []
  {
    assert [c][1..] == [];
  }

  /** The service's URL for a queue's prefixed name; the empty string for a name it does not know. */
  function QueueUrl(s: Service, prefix: string, queue: string): string {
    var name := PrefixedName(prefix, queue);
    if name in s.urls then s.urls[name] else ""
  }

  /** The first `n` sends, each made to the URL of its queue, in order. */
  function Deliveries(s: Service, prefix: string, sends: seq<Batch>, n: nat): seq<Call>
    requires n <= |sends|
  {
    if n == 0 then []
    else Deliveries(s, prefix, sends, n - 1) + [SendMessageBatch(QueueUrl(s, prefix, sends[n - 1].queue), sends[n - 1].entries)]
  }

  /** One delivery per send, carrying the send's entries to its queue's URL. */
  lemma {:induction false} DeliveriesSound(s: Service, prefix: string, sends: seq<Batch>, n: nat)
    requires n <= |sends|
    ensures |Deliveries(s, prefix, sends, n)| == n
    ensures forall i :: 0 <= i < n ==>
      Deliveries(s, prefix, sends, n)[i] == SendMessageBatch(QueueUrl(s, prefix, sends[i].queue), sends[i].entries)
  {
    if n > 0 {
      DeliveriesSound(s, prefix, sends, n - 1);
    }
  }

  lemma {:induction false} DeliveriesAgree(s: Service, prefix: string, xs: seq<Batch>, ys: seq<Batch>, n: nat)
    requires n <= |xs| && n <= |ys| && forall i :: 0 <= i < n ==> xs[i] == ys[i]
    ensures Deliveries(s, prefix, xs, n) == Deliveries(s, prefix, ys, n)
  {
    if n > 0 {
      DeliveriesAgree(s, prefix, xs, ys, n - 1);
    }
  }

  lemma {:induction false} DeliveriesAppend(s: Service, prefix: string, xs: seq<Batch>, ys: seq<Batch>, j: nat)
    requires j <= |ys|
    ensures Deliveries(s, prefix, xs + ys, |xs| + j) == Deliveries(s, prefix, xs, |xs|) + Deliveries(s, prefix, ys, j)
  {
    var zs := xs + ys;
    if j == 0 {
      DeliveriesAgree(s, prefix, xs, zs, |xs|);
    } else {
      DeliveriesAppend(s, prefix, xs, ys, j - 1);
      assert zs[|xs| + j - 1] == ys[j - 1];
      var last := SendMessageBatch(QueueUrl(s, prefix, ys[j - 1].queue), ys[j - 1].entries);
      assert Deliveries(s, prefix, zs, |xs| + j) == Deliveries(s, prefix, zs, |xs| + j - 1) + [last];
      assert Deliveries(s, prefix, ys, j) == Deliveries(s, prefix, ys, j - 1) + [last];
    }
  }

  /**
   * When the queue resolves to a URL whose calls succeed, each of its chunks
   * is sent there, in order, and nothing is thrown.
   */
  lemma {:induction false} ChunksFromDelivers(s: Service, prefix: string, st: Effect, queue: string, chunks: seq<seq<Entry>>, n: nat)
    requires n <= |chunks|
    requires st.thrown.None? && CacheAgrees(s, st.cache)
    requires PrefixedName(prefix, queue) in s.urls && s.urls[PrefixedName(prefix, queue)] !in s.failing
    ensures var r := ChunksFrom(s, prefix, st, queue, chunks, n);
      r.thrown.None? && CacheAgrees(s, r.cache) &&
      BatchSends(r.calls) == BatchSends(st.calls) + Deliveries(s, prefix, SendsOf(queue, chunks), n)
  {
    if n > 0 {
      ChunksFromDelivers(s, prefix, st, queue, chunks, n - 1);
      var before := ChunksFrom(s, prefix, st, queue, chunks, n - 1);
      var name := PrefixedName(prefix, queue);
      var res := Resolve(s, before.cache, name);
      var sent := SendMessageBatch(s.urls[name], chunks[n - 1]);
      var r := ChunksFrom(s, prefix, st, queue, chunks, n);
      assert r == Effect(before.calls + res.calls + [sent], res.cache, None);
      assert BatchSends(res.calls) == [] by {
        if |res.calls| > 0 {
          BatchSendsOne(res.calls[0]);
          assert res.calls == [res.calls[0]];
        }
      }
      BatchSendsAppend(before.calls, res.calls);
      BatchSendsAppend(before.calls + res.calls, [sent]);
      BatchSendsOne(sent);
      var sends := SendsOf(queue, chunks);
      assert sends[n - 1] == Batch(queue, chunks[n - 1]);
      assert QueueUrl(s, prefix, queue) == s.urls[name];
      var b := BatchSends(st.calls);
      var d := Deliveries(s, prefix, sends, n - 1);
      assert Deliveries(s, prefix, sends, n) == d + [sent];
      Concat(BatchSends(before.calls), []);
      assert BatchSends(r.calls) == b + d + [sent];
      Regroup(b, d, [sent]);
    }
  }

  /**
   * When every group's queue resolves to a URL whose calls succeed, every
   * send of the first `g` groups is made, in order, to its queue's URL, and
   * nothing is thrown.
   */
  lemma {:induction false} GroupsFromDelivers(s: Service, prefix: string, st: Effect, groups: Groups, g: nat)
    requires g <= |groups|
    requires st.thrown.None? && CacheAgrees(s, st.cache)
    requires forall h :: 0 <= h < g ==>
      PrefixedName(prefix, groups[h].queue) in s.urls && s.urls[PrefixedName(prefix, groups[h].queue)] !in s.failing
    ensures var r := GroupsFrom(s, prefix, st, groups, g);
      r.thrown.None? && CacheAgrees(s, r.cache) &&
      BatchSends(r.calls) == BatchSends(st.calls) + Deliveries(s, prefix, SendsUpTo(groups, g), |SendsUpTo(groups, g)|)
  {
    if g > 0 {
      GroupsFromDelivers(s, prefix, st, groups, g - 1);
      var before := GroupsFrom(s, prefix, st, groups, g - 1);
      var queue := groups[g - 1].queue;
      var chunks := Chunks(groups[g - 1].entries);
      ChunksFromDelivers(s, prefix, before, queue, chunks, |chunks|);
      DeliveriesOfGroup(s, prefix, groups, g);
      var rest := SendsUpTo(groups, g - 1);
      Regroup(BatchSends(st.calls), Deliveries(s, prefix, rest, |rest|), Deliveries(s, prefix, SendsOf(queue, chunks), |chunks|));
    }
  }

  /** The deliveries of the first `g` groups are those of the first `g - 1` followed by the `g`-th group's. */
  lemma DeliveriesOfGroup(s: Service, prefix: string, groups: Groups, g: nat)
    requires 0 < g <= |groups|
    ensures var chunks := Chunks(groups[g - 1].entries);
      Deliveries(s, prefix, SendsUpTo(groups, g), |SendsUpTo(groups, g)|) ==
      Deliveries(s, prefix, SendsUpTo(groups, g - 1), |SendsUpTo(groups, g - 1)|) +
      Deliveries(s, prefix, SendsOf(groups[g - 1].queue, chunks), |chunks|)
  {
    var chunks := Chunks(groups[g - 1].entries);
    var mine := SendsOf(groups[g - 1].queue, chunks);
    DeliveriesAppend(s, prefix, SendsUpTo(groups, g - 1), mine, |mine|);
  }

  /** `scheduler->store($job)` for each deferred job among the first `n`, in order. */
  function StoreCalls(maximumDelay: int, vs: seq<JobValue>, n: nat): seq<Call>
    requires n <= |vs|
  {
    if n == 0 then []
    else StoreCalls(maximumDelay, vs, n - 1) + if Deferred(maximumDelay, vs[n - 1]) then [Store(vs[n - 1])] else []
  }

  /** Only stores are made, of deferred jobs, and a job is stored exactly when it is deferred. */
  lemma {:induction false} StoreCallsSound(maximumDelay: int, vs: seq<JobValue>, n: nat)
    requires n <= |vs|
    ensures forall i :: 0 <= i < |StoreCalls(maximumDelay, vs, n)| ==>
      StoreCalls(maximumDelay, vs, n)[i].Store? && Deferred(maximumDelay, StoreCalls(maximumDelay, vs, n)[i].job)
    ensures forall k :: 0 <= k < n ==> (Store(vs[k]) in StoreCalls(maximumDelay, vs, n) <==> Deferred(maximumDelay, vs[k]))
  {
    if n > 0 {
      StoreCallsSound(maximumDelay, vs, n - 1);
      var rest := StoreCalls(maximumDelay, vs, n - 1);
      var r := StoreCalls(maximumDelay, vs, n);
      forall i | 0 <= i < |r| ensures r[i].Store? && Deferred(maximumDelay, r[i].job) {
        if i < |rest| {
          assert r[i] == rest[i];
        }
      }
      forall k | 0 <= k < n ensures Store(vs[k]) in r <==> Deferred(maximumDelay, vs[k]) {
        if Store(vs[k]) in r {
          var i :| 0 <= i < |r| && r[i] == Store(vs[k]);
        }
        if k < n - 1 && Store(vs[k]) in rest {
          assert r[IndexIn(rest, Store(vs[k]))] == Store(vs[k]);
        }
      }
    }
  }

  /** The index of a call known to be in a list. */
  function IndexIn(calls: seq<Call>, c: Call): (i: nat)
    requires c in calls
    ensures i < |calls| && calls[i] == c
  {
    if calls[0] == c then 0 else 1 + IndexIn(calls[1..], c)
  }

  lemma {:induction false} StoreCallsSendNothing(maximumDelay: int, vs: seq<JobValue>, n: nat)
    requires n <= |vs|
    ensures BatchSends(StoreCalls(maximumDelay, vs, n)) == []
  {
    if n > 0 {
      var rest := StoreCalls(maximumDelay, vs, n - 1);
      var last := if Deferred(maximumDelay, vs[n - 1]) then [Store(vs[n - 1])] else [];
      assert StoreCalls(maximumDelay, vs, n) == rest + last;
      StoreCallsSendNothing(maximumDelay, vs, n - 1);
      BatchSendsAppend(rest, last);
      if last != [] {
        BatchSendsOne(Store(vs[n - 1]));
      }
      assert BatchSends(last) == [];
    }
  }

  /** `putBatch($jobs)` on the job values `vs`. */
  function PutBatchEffect(s: Service, prefix: string, maximumDelay: int, cache: map<string, string>, vs: seq<JobValue>): Effect {
    var groups := Grouped(maximumDelay, vs, |vs|);
    GroupsFrom(s, prefix, Effect(StoreCalls(maximumDelay, vs, |vs|), cache, None), groups, |groups|)
  }

  /** The first foreach's stores come before every call of the second. */
  lemma PutBatchSplit(s: Service, prefix: string, maximumDelay: int, cache: map<string, string>, vs: seq<JobValue>)
    ensures var groups := Grouped(maximumDelay, vs, |vs|);
      PutBatchEffect(s, prefix, maximumDelay, cache, vs) ==
      After(StoreCalls(maximumDelay, vs, |vs|), GroupsFrom(s, prefix, Effect([], cache, None), groups, |groups|))
  {
    var groups := Grouped(maximumDelay, vs, |vs|);
    GroupsFromShift(s, prefix, StoreCalls(maximumDelay, vs, |vs|), cache, groups, |groups|);
  }

  /** With no jobs, or only deferred ones, `putBatch` only stores: it looks up no URL and sends nothing. */
  lemma PutBatchNoSends(s: Service, prefix: string, maximumDelay: int, cache: map<string, string>, vs: seq<JobValue>)
    requires forall k :: 0 <= k < |vs| ==> Deferred(maximumDelay, vs[k])
    ensures var e := PutBatchEffect(s, prefix, maximumDelay, cache, vs);
      e.calls == StoreCalls(maximumDelay, vs, |vs|) && e.cache == cache && e.thrown.None?
  {
    NothingSentWhenAllDeferred(maximumDelay, vs);
  }

  /**
   * When every queue the batch sends to has a URL whose calls succeed,
   * `putBatch` throws nothing and its batch sends are exactly the chunks of
   * every group, in order, each to its queue's URL.
   */
  lemma PutBatchDelivers(s: Service, prefix: string, maximumDelay: int, cache: map<string, string>, vs: seq<JobValue>)
    requires CacheAgrees(s, cache)
    requires forall k :: 0 <= k < |vs| && !Deferred(maximumDelay, vs[k]) ==>
      PrefixedName(prefix, vs[k].queue) in s.urls && s.urls[PrefixedName(prefix, vs[k].queue)] !in s.failing
    ensures var groups := Grouped(maximumDelay, vs, |vs|);
      var sends := SendsUpTo(groups, |groups|);
      var e := PutBatchEffect(s, prefix, maximumDelay, cache, vs);
      e.thrown.None? && BatchSends(e.calls) == Deliveries(s, prefix, sends, |sends|)
  {
    var groups := Grouped(maximumDelay, vs, |vs|);
    GroupedNames(maximumDelay, vs, |vs|);
    forall h | 0 <= h < |groups|
      ensures PrefixedName(prefix, groups[h].queue) in s.urls && s.urls[PrefixedName(prefix, groups[h].queue)] !in s.failing
    {
      assert HasGroup(groups, groups[h].queue);
      var k :| 0 <= k < |vs| && !Deferred(maximumDelay, vs[k]) && vs[k].queue == groups[h].queue;
    }
    GroupsFromDelivers(s, prefix, Effect(StoreCalls(maximumDelay, vs, |vs|), cache, None), groups, |groups|);
    StoreCallsSendNothing(maximumDelay, vs, |vs|);
  }

  /** The message body a receive hands back for `received`. */
  function ReceiveOutcome(received: Option<PhpArray>): (r: Outcome<Option<JobValue>>)
    ensures r == Done(None) <==> received.None?
    ensures received.Some? ==> (r.Done? <==> SqsFactory.CreateFromRaw(received.value).Done?)
    ensures received.Some? && r.Done? ==> r.value == Some(SqsFactory.CreateFromRaw(received.value).value)
  {
    match received
    case None => Done(None)
    case Some(m) =>
      match SqsFactory.CreateFromRaw(m)
      case Done(job) => Done(Some(job))
      case Raised(e) => Raised(e)
  }

  /** `markAsComplete($job)`: delete the message on the job's prefixed queue, by receipt handle. */
  function CompleteEffect(s: Service, prefix: string, cache: map<string, string>, j: JobValue): Effect {
    var res := Resolve(s, cache, PrefixedName(prefix, j.queue));
    if res.value.Raised? then Effect(res.calls, res.cache, Some(res.value.e))
    else Effect(res.calls + [DeleteMessage(res.value.value, j.id)], res.cache, CallResult(s, res.value.value))
  }

  /** `strrpos($s, ':')`: the index of the last colon, if there is one. */
  function LastColon(s: string): (r: Option<nat>)
    ensures r.None? <==> ':' !in s
    ensures r.Some? ==> r.value < |s| && s[r.value] == ':' && ':' !in s[r.value + 1..]
  {
    if |s| == 0 then None
    else if s[|s| - 1] == ':' then Some(|s| - 1)
    else
      var r := LastColon(s[..|s| - 1]);
      assert s == s[..|s| - 1] + [s[|s| - 1]];
      assert r.Some? ==> s[r.value + 1..] == s[..|s| - 1][r.value + 1..] + [s[|s| - 1]];
      r
  }

  /**
   * `substr($arn, strrpos($arn, ':') + 1)`: the text after the last colon;
   * without a colon `strrpos` is false, so the first character is dropped.
   */
  function ArnSuffix(arn: string): (r: string)
    ensures |r| <= |arn| && r == arn[|arn| - |r|..]
    ensures ':' in arn ==> ':' !in r
    ensures ':' !in arn ==> r == if |arn| == 0 then "" else arn[1..]
  {
    match LastColon(arn)
    case None => if |arn| == 0 then "" else arn[1..]
    case Some(i) => arn[i + 1..]
  }

  /** The dead-letter queue name is the last field of a colon-separated ARN. */
  lemma ArnSuffixOfArn(head: string, name: string)
    requires ':' !in name
    ensures ArnSuffix(head + ":" + name) == name
  {
    var arn := head + ":" + name;
    assert arn[|head|] == ':';
    assert arn[|head| + 1..] == name;
  }

  /** An ARN without a colon loses its first character. */
  lemma ArnWithoutColon()
    ensures ArnSuffix("dead-letter") == "ead-letter"
  {
    assert ':' !in "dead-letter";
  }

  /** `empty($arnJson)`: null, the empty string and "0". */
  predicate EmptyPolicy(policy: Option<string>) {
    policy.None? || policy.value == "" || policy.value == "0"
  }

  /**
   * The dead-letter queue name for a RedrivePolicy attribute. A missing
   * `deadLetterTargetArn`, or one that is not a string, reaches `strrpos`
   * as a non-string, which `strict_types` rejects. So an empty policy is a
   * RuntimeException, text the decoder refuses is its exception, a string
   * ARN gives its last segment, and anything else is a TypeError.
   */
  function DeadLetterName(policy: Option<string>): (r: Outcome<string>)
    ensures EmptyPolicy(policy) <==> r == Raised(Runtime)
    ensures !EmptyPolicy(policy) && Unserialize(policy.value).None? ==> r == Raised(JsonFailure)
    ensures r.Done? <==> (!EmptyPolicy(policy) && Unserialize(policy.value).Some? &&
      Unserialize(policy.value).value.Array? && Read(Unserialize(policy.value).value.entries, DeadLetterArnKey).Str?)
    ensures r.Done? ==> r.value == ArnSuffix(Read(Unserialize(policy.value).value.entries, DeadLetterArnKey).s)
    ensures r.Raised? && r.e != Runtime && r.e != JsonFailure ==> r.e == TypeError
  {
    if EmptyPolicy(policy) then Raised(Runtime)
    else
      match Unserialize(policy.value)
      case None => Raised(JsonFailure)
      case Some(Array(a)) =>
        (match Read(a, DeadLetterArnKey)
         case Str(arn) => Done(ArnSuffix(arn))
         case _ => Raised(TypeError))
      case Some(_) => Raised(TypeError)
  }

  /** The redrive policy text `{"deadLetterTargetArn": arn}`, for the value codec. */
  function PolicyText(arn: string): string {
    Serialize(Array([(DeadLetterArnKey, Str(arn))]))
  }

  /** A policy naming `…:name` as its target gives `name`. */
  lemma DeadLetterOfPolicy(head: string, name: string)
    requires ':' !in name
    ensures DeadLetterName(Some(PolicyText(head + ":" + name))) == Done(name)
  {
    var v := Array([(DeadLetterArnKey, Str(head + ":" + name))]);
    UnserializeSerialize(v);
    assert PolicyText(head + ":" + name)[0] == 'a';
    LookupAt(v.entries, 0);
    ArnSuffixOfArn(head, name);
  }

  /** `determineDeadletterQueue($queue)`. */
  function DeadLetterAnswer(s: Service, prefix: string, cache: map<string, string>, queue: string): Answer {
    var res := Resolve(s, cache, PrefixedName(prefix, queue));
    if res.value.Raised? then res
    else
      var calls := res.calls + [GetQueueAttributes(res.value.value)];
      if res.value.value in s.failing then Answer(calls, res.cache, Raised(Runtime))
      else
        var policy := if res.value.value in s.redrive then Some(s.redrive[res.value.value]) else None;
        Answer(calls, res.cache, DeadLetterName(policy))
  }

  /** The resend of `markAsError`: the job, with delay 0, to the URL of the unprefixed queue `name`. */
  function ResendEffect(s: Service, cache: map<string, string>, name: string, j: JobValue): Effect {
    var target := Resolve(s, cache, name);
    if target.value.Raised? then Effect(target.calls, target.cache, Some(target.value.e))
    else Effect(target.calls + [SendMessage(target.value.value, 0, SqsFactory.SerializeBody(j))], target.cache, CallResult(s, target.value.value))
  }

  /** Whether `markAsError` gets as far as `setDelay(0)`. */
  predicate ErrorReachesResend(s: Service, prefix: string, cache: map<string, string>, j: JobValue) {
    var dl := DeadLetterAnswer(s, prefix, cache, j.queue);
    dl.value.Done? && CompleteEffect(s, prefix, dl.cache, j).thrown.None?
  }

  /**
   * `markAsError($job)`: find the dead-letter queue, delete the message as
   * `markAsComplete` does, and resend the job there with delay 0.
   */
  function ErrorEffect(s: Service, prefix: string, cache: map<string, string>, j: JobValue): Effect {
    var dl := DeadLetterAnswer(s, prefix, cache, j.queue);
    if dl.value.Raised? then Effect(dl.calls, dl.cache, Some(dl.value.e))
    else
      var deleted := CompleteEffect(s, prefix, dl.cache, j);
      if deleted.thrown.Some? then After(dl.calls, deleted)
      else After(dl.calls + deleted.calls, ResendEffect(s, deleted.cache, dl.value.value, j.(delay := 0)))
  }

  /**
   * A job marked as error is deleted from its own queue before it is sent,
   * with delay 0, to the queue named by the redrive policy (not prefixed).
   */
  lemma ErrorDeletesThenResends(s: Service, prefix: string, cache: map<string, string>, j: JobValue, head: string, name: string)
    requires CacheAgrees(s, cache) && ':' !in name
    requires PrefixedName(prefix, j.queue) in s.urls
    requires var url := s.urls[PrefixedName(prefix, j.queue)];
      url !in s.failing && url in s.redrive && s.redrive[url] == PolicyText(head + ":" + name)
    requires name in s.urls && s.urls[name] !in s.failing
    ensures var e := ErrorEffect(s, prefix, cache, j);
      var n := |e.calls|;
      e.thrown.None? && n >= 3 &&
      e.calls[n - 1] == SendMessage(s.urls[name], 0, SqsFactory.SerializeBody(j.(delay := 0))) &&
      DeleteMessage(s.urls[PrefixedName(prefix, j.queue)], j.id) in e.calls[..n - 1]
  {
    var q := PrefixedName(prefix, j.queue);
    DeadLetterFound(s, prefix, cache, j.queue, head, name);
    var dl := DeadLetterAnswer(s, prefix, cache, j.queue);
    var del := DeleteMessage(s.urls[q], j.id);
    CompleteCached(s, prefix, dl.cache, j);
    var resent := ResendEffect(s, dl.cache, name, j.(delay := 0));
    ResendDelivers(s, dl.cache, name, j.(delay := 0));
    var e := ErrorEffect(s, prefix, cache, j);
    assert e == After(dl.calls + [del], resent);
    assert e.calls[..|e.calls| - 1] == dl.calls + [del] + resent.calls[..|resent.calls| - 1];
    assert e.calls[|dl.calls|] == del;
  }

  /** A delete on a cached queue URL that does not fail: one DeleteMessage call, and nothing thrown. */
  lemma CompleteCached(s: Service, prefix: string, cache: map<string, string>, j: JobValue)
    requires CacheAgrees(s, cache) && PrefixedName(prefix, j.queue) in cache
    requires cache[PrefixedName(prefix, j.queue)] !in s.failing
    ensures CompleteEffect(s, prefix, cache, j) ==
      Effect([DeleteMessage(cache[PrefixedName(prefix, j.queue)], j.id)], cache, None)
  {
  }

  /** A resend to a queue the service has, whose URL does not fail, ends with the send and throws nothing. */
  lemma ResendDelivers(s: Service, cache: map<string, string>, name: string, j: JobValue)
    requires CacheAgrees(s, cache) && name in s.urls && s.urls[name] !in s.failing
    ensures var r := ResendEffect(s, cache, name, j);
      r.thrown.None? && |r.calls| >= 1 && r.calls[|r.calls| - 1] == SendMessage(s.urls[name], 0, SqsFactory.SerializeBody(j))
  {
    var target := Resolve(s, cache, name);
    assert ResendEffect(s, cache, name, j).calls == target.calls + [SendMessage(s.urls[name], 0, SqsFactory.SerializeBody(j))];
  }

  /** The redrive policy of a queue the service has names `name` as the dead-letter queue, and the queue's URL is then cached. */
  lemma DeadLetterFound(s: Service, prefix: string, cache: map<string, string>, queue: string, head: string, name: string)
    requires CacheAgrees(s, cache) && ':' !in name
    requires PrefixedName(prefix, queue) in s.urls
    requires var url := s.urls[PrefixedName(prefix, queue)];
      url !in s.failing && url in s.redrive && s.redrive[url] == PolicyText(head + ":" + name)
    ensures var dl := DeadLetterAnswer(s, prefix, cache, queue);
      dl.value == Done(name) && CacheAgrees(s, dl.cache) && PrefixedName(prefix, queue) in dl.cache && |dl.calls| >= 1 &&
      dl.cache[PrefixedName(prefix, queue)] == s.urls[PrefixedName(prefix, queue)]
  {
    DeadLetterOfPolicy(head, name);
  }

  /** A job put on SQS and received with receipt handle `receipt` decodes to the job, with the handle as id. */
  lemma PutThenReceive(s: Service, prefix: string, maximumDelay: int, cache: map<string, string>, j: JobValue, receipt: Value)
    requires !Scheduler.ShouldBeScheduled(maximumDelay, j.delay) && CacheAgrees(s, cache)
    requires PrefixedName(prefix, j.queue) in s.urls
    requires j.body != Null && (receipt.Int? || receipt.Str?)
    ensures var e := PutEffect(s, prefix, maximumDelay, cache, j);
      |e.calls| > 0 && e.calls[|e.calls| - 1].SendMessage? &&
      e.calls[|e.calls| - 1].url == s.urls[PrefixedName(prefix, j.queue)] &&
      e.calls[|e.calls| - 1].delay == j.delay &&
      ReceiveOutcome(Some(SqsFactory.Message(receipt, e.calls[|e.calls| - 1].body))) == Done(Some(j.(id := IdOf(receipt))))
  {
    var name := PrefixedName(prefix, j.queue);
    var res := Resolve(s, cache, name);
    var body := SqsFactory.SerializeBody(j);
    var e := PutEffect(s, prefix, maximumDelay, cache, j);
    assert e.calls == res.calls + [SendMessage(s.urls[name], j.delay, body)];
    SqsFactory.CreateFromRawSerializeBody(j, receipt);
  }

  /** `markAsIncomplete($job)`: delete the message; unless that throws, put the job again with delay 0. */
  function IncompleteEffect(s: Service, prefix: string, maximumDelay: int, cache: map<string, string>, j: JobValue): Effect {
    var done := CompleteEffect(s, prefix, cache, j);
    if done.thrown.Some? then done
    else After(done.calls, PutEffect(s, prefix, maximumDelay, done.cache, j.(delay := 0)))
  }

  /**
   * An incomplete job on a queue the service has, whose URL does not fail,
   * is deleted and then sent again to the same URL with delay 0, never
   * stored in the scheduler when its threshold is 0 or more; the URL is
   * looked up at most once, and nothing is thrown.
   */
  lemma IncompleteRequeues(s: Service, prefix: string, maximumDelay: int, cache: map<string, string>, j: JobValue)
    requires CacheAgrees(s, cache) && maximumDelay >= 0
    requires PrefixedName(prefix, j.queue) in s.urls && s.urls[PrefixedName(prefix, j.queue)] !in s.failing
    ensures var name := PrefixedName(prefix, j.queue);
      var url := s.urls[name];
      var e := IncompleteEffect(s, prefix, maximumDelay, cache, j);
      e.thrown.None? && name in e.cache && e.cache[name] == url &&
      e.calls == (if name in cache then [] else [GetQueueUrl(name)]) +
        [DeleteMessage(url, j.id), SendMessage(url, 0, SqsFactory.SerializeBody(j.(delay := 0)))] &&
      forall k :: 0 <= k < |e.calls| ==> !e.calls[k].Store?
  {
    var name := PrefixedName(prefix, j.queue);
    var done := CompleteEffect(s, prefix, cache, j);
    assert done.calls == (if name in cache then [] else [GetQueueUrl(name)]) + [DeleteMessage(s.urls[name], j.id)];
    assert CacheAgrees(s, done.cache) && name in done.cache;
    CompleteCached(s, prefix, done.cache, j.(delay := 0));
  }

  /** The current values of a list of jobs. */
  function Views(jobs: seq<Job>): (r: seq<JobValue>)
    reads jobs
    ensures |r| == |jobs| && forall i :: 0 <= i < |jobs| ==> r[i] == jobs[i].View()
  {
    if |jobs| == 0 then [] else [jobs[0].View()] + Views(jobs[1..])
  }

  /** A lookup keeps the invariant and only grows the cache. */
  lemma ResolveKeeps(s: Service, calls: seq<Call>, cache: map<string, string>, name: string)
    requires Consistent(s, calls, cache)
    ensures var r := Resolve(s, cache, name);
      Consistent(s, calls + r.calls, r.cache) && (forall n :: n in cache ==> n in r.cache)
  {
    var r := Resolve(s, cache, name);
    var t := calls + r.calls;
    forall c | c in t && c.GetQueueUrl? && c.name in s.urls
      ensures c.name in r.cache
    {
      if c !in calls {
        assert c in r.calls;
      }
    }
    forall i, j | 0 <= i < j < |t| && t[j].GetQueueUrl? && t[j].name in s.urls
      ensures t[i] != t[j]
    {
      assert t[i] == calls[i];
      if j < |calls| {
        assert t[j] == calls[j];
      } else {
        assert calls[i] in calls && t[j] == GetQueueUrl(name) && name !in cache;
      }
    }
  }

  /** Calls other than lookups keep the invariant. */
  lemma CallsKeep(s: Service, calls: seq<Call>, cache: map<string, string>, extra: seq<Call>)
    requires Consistent(s, calls, cache)
    requires forall i :: 0 <= i < |extra| ==> !extra[i].GetQueueUrl?
    ensures Consistent(s, calls + extra, cache)
  {
    var t := calls + extra;
    forall c | c in t && c.GetQueueUrl? && c.name in s.urls
      ensures c.name in cache
    {
      assert c !in extra;
    }
    forall i, j | 0 <= i < j < |t| && t[j].GetQueueUrl? && t[j].name in s.urls
      ensures t[i] != t[j]
    {
      if j < |calls| {
        assert t[i] == calls[i] && t[j] == calls[j];
      }
    }
  }

  lemma SendStepKeeps(s: Service, prefix: string, hist: seq<Call>, st: Effect, send: Batch)
    requires Consistent(s, hist + st.calls, st.cache)
    ensures var r := SendStep(s, prefix, st, send); Consistent(s, hist + r.calls, r.cache)
  {
    if st.thrown.None? {
      var res := Resolve(s, st.cache, PrefixedName(prefix, send.queue));
      ResolveKeeps(s, hist + st.calls, st.cache, PrefixedName(prefix, send.queue));
      Regroup(hist, st.calls, res.calls);
      if res.value.Done? {
        var sent := SendMessageBatch(res.value.value, send.entries);
        CallsKeep(s, hist + st.calls + res.calls, res.cache, [sent]);
        Regroup(hist, st.calls + res.calls, [sent]);
      }
    }
  }

  lemma {:induction false} ChunksFromKeeps(s: Service, prefix: string, hist: seq<Call>, st: Effect, queue: string, chunks: seq<seq<Entry>>, n: nat)
    requires n <= |chunks|
    requires Consistent(s, hist + st.calls, st.cache)
    ensures var r := ChunksFrom(s, prefix, st, queue, chunks, n); Consistent(s, hist + r.calls, r.cache)
  {
    if n > 0 {
      ChunksFromKeeps(s, prefix, hist, st, queue, chunks, n - 1);
      SendStepKeeps(s, prefix, hist, ChunksFrom(s, prefix, st, queue, chunks, n - 1), Batch(queue, chunks[n - 1]));
    }
  }

  lemma {:induction false} GroupsFromKeeps(s: Service, prefix: string, hist: seq<Call>, st: Effect, groups: Groups, g: nat)
    requires g <= |groups|
    requires Consistent(s, hist + st.calls, st.cache)
    ensures var r := GroupsFrom(s, prefix, st, groups, g); Consistent(s, hist + r.calls, r.cache)
  {
    if g > 0 {
      GroupsFromKeeps(s, prefix, hist, st, groups, g - 1);
      var chunks := Chunks(groups[g - 1].entries);
      ChunksFromKeeps(s, prefix, hist, GroupsFrom(s, prefix, st, groups, g - 1), groups[g - 1].queue, chunks, |chunks|);
    }
  }

  /** `put` keeps the invariant. */
  lemma PutKeeps(s: Service, prefix: string, maximumDelay: int, calls: seq<Call>, cache: map<string, string>, j: JobValue)
    requires Consistent(s, calls, cache)
    ensures var e := PutEffect(s, prefix, maximumDelay, cache, j); Consistent(s, calls + e.calls, e.cache)
  {
    if Scheduler.ShouldBeScheduled(maximumDelay, j.delay) {
      CallsKeep(s, calls, cache, [Store(j)]);
    } else {
      var res := Resolve(s, cache, PrefixedName(prefix, j.queue));
      ResolveKeeps(s, calls, cache, PrefixedName(prefix, j.queue));
      if res.value.Done? {
        var sent := SendMessage(res.value.value, j.delay, SqsFactory.SerializeBody(j));
        CallsKeep(s, calls + res.calls, res.cache, [sent]);
        Regroup(calls, res.calls, [sent]);
      }
    }
  }

  /** `putBatch` keeps the invariant. */
  lemma PutBatchKeeps(s: Service, prefix: string, maximumDelay: int, calls: seq<Call>, cache: map<string, string>, vs: seq<JobValue>)
    requires Consistent(s, calls, cache)
    ensures var e := PutBatchEffect(s, prefix, maximumDelay, cache, vs); Consistent(s, calls + e.calls, e.cache)
  {
    var groups := Grouped(maximumDelay, vs, |vs|);
    var stores := StoreCalls(maximumDelay, vs, |vs|);
    StoreCallsSound(maximumDelay, vs, |vs|);
    CallsKeep(s, calls, cache, stores);
    GroupsFromKeeps(s, prefix, calls, Effect(stores, cache, None), groups, |groups|);
  }

  /** `markAsComplete` keeps the invariant. */
  lemma CompleteKeeps(s: Service, prefix: string, calls: seq<Call>, cache: map<string, string>, j: JobValue)
    requires Consistent(s, calls, cache)
    ensures var e := CompleteEffect(s, prefix, cache, j); Consistent(s, calls + e.calls, e.cache)
  {
    var res := Resolve(s, cache, PrefixedName(prefix, j.queue));
    ResolveKeeps(s, calls, cache, PrefixedName(prefix, j.queue));
    if res.value.Done? {
      var sent := DeleteMessage(res.value.value, j.id);
      CallsKeep(s, calls + res.calls, res.cache, [sent]);
      Regroup(calls, res.calls, [sent]);
    }
  }

  /** The dead-letter lookup keeps the invariant, and once it succeeds the queue's own URL is cached. */
  lemma DeadLetterKeeps(s: Service, prefix: string, calls: seq<Call>, cache: map<string, string>, queue: string)
    requires Consistent(s, calls, cache)
    ensures var a := DeadLetterAnswer(s, prefix, cache, queue);
      Consistent(s, calls + a.calls, a.cache) &&
      (a.value.Done? ==> PrefixedName(prefix, queue) in a.cache)
  {
    var res := Resolve(s, cache, PrefixedName(prefix, queue));
    ResolveKeeps(s, calls, cache, PrefixedName(prefix, queue));
    if res.value.Done? {
      var asked := GetQueueAttributes(res.value.value);
      CallsKeep(s, calls + res.calls, res.cache, [asked]);
      Regroup(calls, res.calls, [asked]);
    }
  }

  /** The resend keeps the invariant. */
  lemma ResendKeeps(s: Service, calls: seq<Call>, cache: map<string, string>, name: string, j: JobValue)
    requires Consistent(s, calls, cache)
    ensures var e := ResendEffect(s, cache, name, j); Consistent(s, calls + e.calls, e.cache)
  {
    var target := Resolve(s, cache, name);
    ResolveKeeps(s, calls, cache, name);
    if target.value.Done? {
      var sent := SendMessage(target.value.value, 0, SqsFactory.SerializeBody(j));
      CallsKeep(s, calls + target.calls, target.cache, [sent]);
      Regroup(calls, target.calls, [sent]);
    }
  }

  /** `markAsError` keeps the invariant. */
  lemma ErrorKeeps(s: Service, prefix: string, calls: seq<Call>, cache: map<string, string>, j: JobValue)
    requires Consistent(s, calls, cache)
    ensures var e := ErrorEffect(s, prefix, cache, j); Consistent(s, calls + e.calls, e.cache)
  {
    var dl := DeadLetterAnswer(s, prefix, cache, j.queue);
    DeadLetterKeeps(s, prefix, calls, cache, j.queue);
    if dl.value.Done? {
      var h1 := calls + dl.calls;
      var deleted := CompleteEffect(s, prefix, dl.cache, j);
      CompleteKeeps(s, prefix, h1, dl.cache, j);
      Regroup(calls, dl.calls, deleted.calls);
      if deleted.thrown.None? {
        var h2 := h1 + deleted.calls;
        var resent := ResendEffect(s, deleted.cache, dl.value.value, j.(delay := 0));
        ResendKeeps(s, h2, deleted.cache, dl.value.value, j.(delay := 0));
        Regroup(calls, dl.calls + deleted.calls, resent.calls);
      }
    }
  }

  class JobQueue {
    const service: Service
    const prefix: string
    /** The threshold of the scheduler this queue was built with. */
    const maximumDelay: int
    const retrieveTimeout: int
    var queues: map<string, string>
    var trace: seq<Call>

    /**
     * The cache holds the service's URLs and every URL the trace shows was
     * found; since a cached name is never asked for again, no URL is looked
     * up twice.
     */
    ghost predicate Valid()
      reads this
    {
      Consistent(service, trace, queues)
    }

    constructor (service: Service, maximumDelay: int, prefix: string := "")
      ensures Valid()
      ensures this.service == service && this.maximumDelay == maximumDelay && this.prefix == prefix
      ensures retrieveTimeout == DefaultRetrieveTimeout && queues == map[] && trace == []
    {
      this.service := service;
      this.maximumDelay := maximumDelay;
      this.prefix := prefix;
      retrieveTimeout := DefaultRetrieveTimeout;
      queues := map[];
      trace := [];
    }

    /** `getQueueUrl($name)`. */
    method GetQueueUrlOf(name: string) returns (url: Outcome<string>)
      modifies this`queues, this`trace
      ensures var a := Resolve(service, old(queues), name);
        trace == old(trace) + a.calls && queues == a.cache && url == a.value
    {
      if name !in queues {
        trace := trace + [GetQueueUrl(name)];
        if name !in service.urls {
          return Raised(InvalidArgument);
        }
        queues := queues[name := service.urls[name]];
      }
      url := Done(queues[name]);
    }

    /** `getQueueUrlWithPrefix($name)`. */
    method GetQueueUrlWithPrefix(name: string) returns (url: Outcome<string>)
      modifies this`queues, this`trace
      ensures var a := Resolve(service, old(queues), PrefixedName(prefix, name));
        trace == old(trace) + a.calls && queues == a.cache && url == a.value
    {
      url := GetQueueUrlOf(PrefixedName(prefix, name));
    }

    /** A call on the SQS client, whose SqsException becomes a RuntimeException. */
    method Send(c: Call) returns (thrown: Option<Thrown>)
      requires c.SendMessage? || c.SendMessageBatch? || c.DeleteMessage? || c.ReceiveMessage? || c.GetQueueAttributes?
      modifies this`trace
      ensures trace == old(trace) + [c] && thrown == CallResult(service, c.url)
    {
      trace := trace + [c];
      thrown := CallResult(service, c.url);
    }

    /** `put($job)`. */
    method Put(job: Job) returns (thrown: Option<Thrown>)
      requires Valid()
      modifies this`queues, this`trace
      ensures Valid()
      ensures var e := PutEffect(service, prefix, maximumDelay, old(queues), job.View());
        trace == old(trace) + e.calls && queues == e.cache && thrown == e.thrown
    {
      var j := job.View();
      PutKeeps(service, prefix, maximumDelay, trace, queues, j);
      if Scheduler.ShouldBeScheduled(maximumDelay, j.delay) {
        trace := trace + [Store(j)];
        return None;
      }
      var url := GetQueueUrlWithPrefix(j.queue);
      if url.Raised? {
        return Some(url.e);
      }
      thrown := Send(SendMessage(url.value, j.delay, SqsFactory.SerializeBody(j)));
    }

    /** One `sendMessageBatch` of `putBatch`, to the URL of the prefixed queue name. */
    method SendBatch(queue: string, batch: seq<Entry>) returns (thrown: Option<Thrown>)
      modifies this`queues, this`trace
      ensures var e := SendStep(service, prefix, Effect([], old(queues), None), Batch(queue, batch));
        trace == old(trace) + e.calls && queues == e.cache && thrown == e.thrown
    {
      var url := GetQueueUrlWithPrefix(queue);
      if url.Raised? {
        return Some(url.e);
      }
      thrown := Send(SendMessageBatch(url.value, batch));
    }

    /** The inner foreach of `putBatch`: send `entries` to the prefixed queue in chunks of ten. */
    method SendGroup(queue: string, entries: seq<Entry>) returns (thrown: Option<Thrown>)
      modifies this`queues, this`trace
      ensures var chunks := Chunks(entries);
        var e := ChunksFrom(service, prefix, Effect([], old(queues), None), queue, chunks, |chunks|);
        trace == old(trace) + e.calls && queues == e.cache && thrown == e.thrown
    {
      var batches := Chunks(entries);
      ghost var init := Effect([], queues, None);
      ghost var calls: seq<Call> := [];
      var c := 0;
      while c < |batches|
        invariant 0 <= c <= |batches|
        invariant ChunksFrom(service, prefix, init, queue, batches, c) == Effect(calls, queues, None)
        invariant trace == old(trace) + calls
      {
        ghost var e := SendStep(service, prefix, Effect([], queues, None), Batch(queue, batches[c]));
        ChunksFromNext(service, prefix, init, queue, batches, c, calls, queues);
        thrown := SendBatch(queue, batches[c]);
        Regroup(old(trace), calls, e.calls);
        calls := calls + e.calls;
        if thrown.Some? {
          return;
        }
        c := c + 1;
      }
      thrown := None;
    }

    /** The outer foreach of `putBatch`: each group's chunks, group by group, stopping at the first exception. */
    method SendGroups(groups: Groups) returns (thrown: Option<Thrown>)
      modifies this`queues, this`trace
      ensures var e := GroupsFrom(service, prefix, Effect([], old(queues), None), groups, |groups|);
        trace == old(trace) + e.calls && queues == e.cache && thrown == e.thrown
    {
      ghost var start := Effect([], queues, None);
      ghost var calls: seq<Call> := [];
      var g := 0;
      while g < |groups|
        invariant 0 <= g <= |groups|
        invariant GroupsFrom(service, prefix, start, groups, g) == Effect(calls, queues, None)
        invariant trace == old(trace) + calls
      {
        ghost var chunks := Chunks(groups[g].entries);
        ghost var e := ChunksFrom(service, prefix, Effect([], queues, None), groups[g].queue, chunks, |chunks|);
        GroupsFromNext(service, prefix, start, groups, g, calls, queues);
        thrown := SendGroup(groups[g].queue, groups[g].entries);
        Regroup(old(trace), calls, e.calls);
        calls := calls + e.calls;
        if thrown.Some? {
          return;
        }
        g := g + 1;
      }
      thrown := None;
    }

    /** The first foreach of `putBatch`: store the deferred jobs and group the others' entries per queue. */
    method GroupJobs(jobs: seq<Job>) returns (groups: Groups)
      modifies this`trace
      ensures groups == Grouped(maximumDelay, Views(jobs), |jobs|)
      ensures trace == old(trace) + StoreCalls(maximumDelay, Views(jobs), |jobs|)
    {
      ghost var vs := Views(jobs);
      groups := [];
      var k := 0;
      while k < |jobs|
        invariant 0 <= k <= |jobs|
        invariant groups == Grouped(maximumDelay, vs, k)
        invariant trace == old(trace) + StoreCalls(maximumDelay, vs, k)
      {
        var j := jobs[k].View();
        if Scheduler.ShouldBeScheduled(maximumDelay, j.delay) {
          Regroup(old(trace), StoreCalls(maximumDelay, vs, k), [Store(j)]);
          trace := trace + [Store(j)];
        } else {
          Concat(StoreCalls(maximumDelay, vs, k), []);
          groups := AddEntry(groups, j.queue, EntryOf(k, j));
        }
        k := k + 1;
      }
    }

    /**
     * `putBatch($jobs)`: store the deferred jobs, group the others per queue
     * and send each group in chunks of ten.
     */
    method PutBatch(jobs: seq<Job>) returns (thrown: Option<Thrown>)
      requires Valid()
      modifies this`queues, this`trace
      ensures Valid()
      ensures var e := PutBatchEffect(service, prefix, maximumDelay, old(queues), old(Views(jobs)));
        trace == old(trace) + e.calls && queues == e.cache && thrown == e.thrown
    {
      ghost var vs := Views(jobs);
      ghost var before := trace;
      PutBatchKeeps(service, prefix, maximumDelay, trace, queues, vs);
      PutBatchSplit(service, prefix, maximumDelay, queues, vs);
      var groups := GroupJobs(jobs);
      assert Views(jobs) == vs;
      ghost var stores := StoreCalls(maximumDelay, vs, |vs|);
      ghost var sent := GroupsFrom(service, prefix, Effect([], queues, None), groups, |groups|);
      thrown := SendGroups(groups);
      Regroup(before, stores, sent.calls);
    }

    /** `retrieve($queue)`: receive at most one message, waiting `retrieveTimeout` seconds; `received` is the first message, if any. */
    method Retrieve(queue: string, received: Option<PhpArray>) returns (r: Outcome<Option<JobValue>>)
      requires Valid()
      modifies this`queues, this`trace
      ensures Valid()
      ensures var a := Resolve(service, old(queues), PrefixedName(prefix, queue));
        queues == a.cache &&
        (a.value.Raised? ==> trace == old(trace) + a.calls && r == Raised(a.value.e)) &&
        (a.value.Done? ==> (trace == old(trace) + a.calls + [ReceiveMessage(a.value.value, retrieveTimeout, 1)] &&
          r == if a.value.value in service.failing then Raised(Runtime) else ReceiveOutcome(received)))
    {
      ResolveKeeps(service, trace, queues, PrefixedName(prefix, queue));
      var url := GetQueueUrlWithPrefix(queue);
      if url.Raised? {
        return Raised(url.e);
      }
      CallsKeep(service, trace, queues, [ReceiveMessage(url.value, retrieveTimeout, 1)]);
      var thrown := Send(ReceiveMessage(url.value, retrieveTimeout, 1));
      if thrown.Some? {
        return Raised(thrown.value);
      }
      r := ReceiveOutcome(received);
    }

    /** The `deleteMessage` of `markAsComplete` and `markAsError`: on the job's prefixed queue, by receipt handle. */
    method DeleteMessageOf(job: Job) returns (thrown: Option<Thrown>)
      modifies this`queues, this`trace
      ensures var e := CompleteEffect(service, prefix, old(queues), job.View());
        trace == old(trace) + e.calls && queues == e.cache && thrown == e.thrown
    {
      var url := GetQueueUrlWithPrefix(job.queue);
      if url.Raised? {
        return Some(url.e);
      }
      thrown := Send(DeleteMessage(url.value, job.id));
    }

    /** `markAsComplete($job)`. */
    method MarkAsComplete(job: Job) returns (thrown: Option<Thrown>)
      requires Valid()
      modifies this`queues, this`trace
      ensures Valid()
      ensures var e := CompleteEffect(service, prefix, old(queues), job.View());
        trace == old(trace) + e.calls && queues == e.cache && thrown == e.thrown
    {
      CompleteKeeps(service, prefix, trace, queues, job.View());
      thrown := DeleteMessageOf(job);
    }

    /** `markAsIncomplete($job)`: delete the message, set the delay to 0 and put the job again. */
    method MarkAsIncomplete(job: Job) returns (thrown: Option<Thrown>)
      requires Valid()
      modifies this`queues, this`trace, job`delay
      ensures Valid()
      ensures var e := IncompleteEffect(service, prefix, maximumDelay, old(queues), old(job.View()));
        trace == old(trace) + e.calls && queues == e.cache && thrown == e.thrown
      ensures job.View() == if CompleteEffect(service, prefix, old(queues), old(job.View())).thrown.Some? then old(job.View())
        else old(job.View()).(delay := 0)
    {
      thrown := MarkAsComplete(job);
      if thrown.Some? {
        return;
      }
      job.SetDelay(0);
      thrown := Put(job);
    }

    /** `determineDeadletterQueue($queue)`. */
    method DetermineDeadletterQueue(queue: string) returns (name: Outcome<string>)
      modifies this`queues, this`trace
      ensures var a := DeadLetterAnswer(service, prefix, old(queues), queue);
        trace == old(trace) + a.calls && queues == a.cache && name == a.value
    {
      var url := GetQueueUrlWithPrefix(queue);
      if url.Raised? {
        return Raised(url.e);
      }
      var thrown := Send(GetQueueAttributes(url.value));
      if thrown.Some? {
        return Raised(thrown.value);
      }
      var policy := if url.value in service.redrive then Some(service.redrive[url.value]) else None;
      name := DeadLetterName(policy);
    }

    /** The `sendMessage` of `markAsError`: the job, with delay 0, to the unprefixed queue `name`. */
    method Resend(job: Job, name: string) returns (thrown: Option<Thrown>)
      modifies this`queues, this`trace
      ensures var e := ResendEffect(service, old(queues), name, job.View());
        trace == old(trace) + e.calls && queues == e.cache && thrown == e.thrown
    {
      var target := GetQueueUrlOf(name);
      if target.Raised? {
        return Some(target.e);
      }
      thrown := Send(SendMessage(target.value, 0, SqsFactory.SerializeBody(job.View())));
    }

    /** `markAsError($job)`. */
    method MarkAsError(job: Job) returns (thrown: Option<Thrown>)
      requires Valid()
      modifies this`queues, this`trace, job`delay
      ensures Valid()
      ensures var e := ErrorEffect(service, prefix, old(queues), old(job.View()));
        trace == old(trace) + e.calls && queues == e.cache && thrown == e.thrown
      ensures job.View() == if ErrorReachesResend(service, prefix, old(queues), old(job.View()))
        then old(job.View()).(delay := 0) else old(job.View())
    {
      ghost var j := job.View();
      ghost var t0 := trace;
      ErrorKeeps(service, prefix, trace, queues, j);
      ghost var dl := DeadLetterAnswer(service, prefix, queues, j.queue);
      var deadletter := DetermineDeadletterQueue(job.queue);
      if deadletter.Raised? {
        return Some(deadletter.e);
      }
      ghost var deleted := CompleteEffect(service, prefix, dl.cache, j);
      thrown := DeleteMessageOf(job);
      Regroup(t0, dl.calls, deleted.calls);
      if thrown.Some? {
        return;
      }
      job.SetDelay(0);
      ghost var resent := ResendEffect(service, deleted.cache, dl.value.value, j.(delay := 0));
      thrown := Resend(job, deadletter.value);
      Regroup(t0, dl.calls + deleted.calls, resent.calls);
    }
  }
}
