/**
 * The job specification both factories share: the fixed-key array that
 * `serializeBody` encodes, and `createFromSpecification`, which checks the
 * required keys, fills missing options from defaults with PHP's left-biased
 * `+`, and calls the typed `Job` constructor under `strict_types`.
 */
module JobSpec {
  import opened Wrappers
  import opened PhpValues
  import opened Jobs
  import opened Errors

  const QueueKey := StrKey("queue")
  const BodyKey := StrKey("body")
  const IdKey := StrKey("id")
  const DelayKey := StrKey("delay")
  const PriorityKey := StrKey("priority")
  const TtrKey := StrKey("ttr")

  /** `$a[$k]`: a missing key reads as null. */
  function Read(a: PhpArray, k: Key): (v: Value)
    ensures HasKey(a, k) ==> Lookup(a, k) == Some(v)
    ensures !HasKey(a, k) ==> v == Null
  {
    match Lookup(a, k)
    case Some(v) => v
    case None => Null
  }

  /** Whether `v` may be passed as an `int|string|null` id. */
  predicate IsIdValue(v: Value) {
    v.Null? || v.Int? || v.Str?
  }

  function IdOf(v: Value): (id: JobId)
    requires IsIdValue(v)
    ensures IdValue(id) == v
  {
    match v
    case Int(i) => IntId(i)
    case Str(s) => StrId(s)
    case Null => NoId
  }

  /**
   * `new Job($queue, $body, $id, $delay, $priority, $ttr)` from untyped
   * values: a string queue, an int, string or null id and int options,
   * or a TypeError.
   */
  function NewJob(queue: Value, body: Value, id: Value, delay: Value, priority: Value, ttr: Value): (r: Outcome<JobValue>)
    ensures r.Done? <==> queue.Str? && IsIdValue(id) && delay.Int? && priority.Int? && ttr.Int?
    ensures r.Done? ==> (r.value.queue == queue.s && r.value.body == body && IdValue(r.value.id) == id &&
      r.value.delay == delay.i && r.value.priority == priority.i && r.value.ttr == ttr.i)
    ensures r.Raised? ==> r.e == TypeError
  {
    if queue.Str? && IsIdValue(id) && delay.Int? && priority.Int? && ttr.Int? then
      Done(JobValue(queue.s, body, IdOf(id), delay.i, priority.i, ttr.i))
    else Raised(TypeError)
  }

  /** The option defaults merged under a specification. */
  function Defaults(delay: int, priority: int, ttr: int): PhpArray {
    [(DelayKey, Int(delay)), (PriorityKey, Int(priority)), (TtrKey, Int(ttr))]
  }

  lemma ReadDefaults(delay: int, priority: int, ttr: int)
    ensures Read(Defaults(delay, priority, ttr), DelayKey) == Int(delay)
    ensures Read(Defaults(delay, priority, ttr), PriorityKey) == Int(priority)
    ensures Read(Defaults(delay, priority, ttr), TtrKey) == Int(ttr)
  {
    var d := Defaults(delay, priority, ttr);
    assert d[0].0 == DelayKey && d[1].0 == PriorityKey && d[2].0 == TtrKey;
    assert DelayKey != PriorityKey && DelayKey != TtrKey && PriorityKey != TtrKey;
  }

  /** The value an option takes after `$data + defaults`: present keys win, even null ones. */
  function Merged(data: PhpArray, k: Key, default: int): Value {
    if HasKey(data, k) then Read(data, k) else Int(default)
  }

  /** `createFromSpecification($data)` with the given option defaults. */
  function FromSpecification(data: PhpArray, delay: int, priority: int, ttr: int): (r: Outcome<JobValue>)
    ensures r == Raised(SplInvalidArgument) <==> !IsSet(data, BodyKey) || !IsSet(data, QueueKey)
    ensures IsSet(data, BodyKey) && IsSet(data, QueueKey) ==>
      (r.Done? <==> (Read(data, QueueKey).Str? && (!IsSet(data, IdKey) || IsIdValue(Read(data, IdKey))) &&
        Merged(data, DelayKey, delay).Int? && Merged(data, PriorityKey, priority).Int? && Merged(data, TtrKey, ttr).Int?))
    ensures IsSet(data, BodyKey) && IsSet(data, QueueKey) && !r.Done? ==> r == Raised(TypeError)
    ensures r.Done? ==> r.value.queue == Read(data, QueueKey).s && r.value.body == Read(data, BodyKey)
    ensures r.Done? ==> r.value.id == if IsSet(data, IdKey) then IdOf(Read(data, IdKey)) else NoId
    ensures r.Done? ==> (Int(r.value.delay) == Merged(data, DelayKey, delay) &&
      Int(r.value.priority) == Merged(data, PriorityKey, priority) && Int(r.value.ttr) == Merged(data, TtrKey, ttr))
  {
    if !IsSet(data, BodyKey) || !IsSet(data, QueueKey) then Raised(SplInvalidArgument)
    else
      var id := if IsSet(data, IdKey) then Read(data, IdKey) else Null;
      var merged := Union(data, Defaults(delay, priority, ttr));
      ReadDefaults(delay, priority, ttr);
      assert Read(merged, QueueKey) == Read(data, QueueKey);
      assert Read(merged, BodyKey) == Read(data, BodyKey);
      assert Read(merged, DelayKey) == Merged(data, DelayKey, delay);
      assert Read(merged, PriorityKey) == Merged(data, PriorityKey, priority);
      assert Read(merged, TtrKey) == Merged(data, TtrKey, ttr);
      NewJob(Read(merged, QueueKey), Read(merged, BodyKey), id,
             Read(merged, DelayKey), Read(merged, PriorityKey), Read(merged, TtrKey))
  }

  /** The array `serializeBody` encodes: exactly queue, body, delay, priority and ttr. */
  function SpecArray(j: JobValue): (a: PhpArray)
    ensures |a| == 5
  {
    [(QueueKey, Str(j.queue)), (BodyKey, j.body), (DelayKey, Int(j.delay)),
     (PriorityKey, Int(j.priority)), (TtrKey, Int(j.ttr))]
  }

  /** The keys of the encoded specification, in order; the id is not among them. */
  lemma SpecArrayKeys(j: JobValue)
    ensures forall i :: 0 <= i < 5 ==> SpecArray(j)[i].0 == [QueueKey, BodyKey, DelayKey, PriorityKey, TtrKey][i]
    ensures !HasKey(SpecArray(j), IdKey)
  {
    var a := SpecArray(j);
    forall i | 0 <= i < 5 ensures a[i].0 != IdKey {
      assert |a[i].0.s| != 2;
    }
  }

  /** The six keys a decoded specification may carry are pairwise different. */
  lemma KeysDistinct()
    ensures QueueKey != BodyKey && QueueKey != DelayKey && QueueKey != PriorityKey && QueueKey != TtrKey && QueueKey != IdKey
    ensures BodyKey != DelayKey && BodyKey != PriorityKey && BodyKey != TtrKey && BodyKey != IdKey
    ensures DelayKey != PriorityKey && DelayKey != TtrKey && DelayKey != IdKey
    ensures PriorityKey != TtrKey && PriorityKey != IdKey && TtrKey != IdKey
  {
    assert QueueKey.s[0] != DelayKey.s[0];
  }

  /** The specification array with an id appended, as `createFromRaw` builds it. */
  function WithId(j: JobValue, raw: Value): PhpArray {
    [(QueueKey, Str(j.queue)), (BodyKey, j.body), (DelayKey, Int(j.delay)),
     (PriorityKey, Int(j.priority)), (TtrKey, Int(j.ttr)), (IdKey, raw)]
  }

  lemma AssignSpecArray(j: JobValue, raw: Value)
    ensures Assign(SpecArray(j), IdKey, raw) == WithId(j, raw)
  {
    SpecArrayKeys(j);
    AssignAbsent(SpecArray(j), IdKey, raw);
  }

  lemma ReadSpecArray(j: JobValue, raw: Value)
    ensures var a := Assign(SpecArray(j), IdKey, raw);
      Read(a, QueueKey) == Str(j.queue) && Read(a, BodyKey) == j.body && Read(a, IdKey) == raw &&
      HasKey(a, DelayKey) && Read(a, DelayKey) == Int(j.delay) &&
      HasKey(a, PriorityKey) && Read(a, PriorityKey) == Int(j.priority) &&
      HasKey(a, TtrKey) && Read(a, TtrKey) == Int(j.ttr)
  {
    AssignSpecArray(j, raw);
    KeysDistinct();
    LookupSix(WithId(j, raw));
  }

  /** In a six-entry array whose keys differ, every key reads its own entry. */
  lemma LookupSix(a: PhpArray)
    requires |a| == 6
    requires a[0].0 != a[1].0 && a[0].0 != a[2].0 && a[0].0 != a[3].0 && a[0].0 != a[4].0 && a[0].0 != a[5].0
    requires a[1].0 != a[2].0 && a[1].0 != a[3].0 && a[1].0 != a[4].0 && a[1].0 != a[5].0
    requires a[2].0 != a[3].0 && a[2].0 != a[4].0 && a[2].0 != a[5].0
    requires a[3].0 != a[4].0 && a[3].0 != a[5].0 && a[4].0 != a[5].0
    ensures forall i :: 0 <= i < 6 ==> Lookup(a, a[i].0) == Some(a[i].1)
  {
    LookupAt(a, 0);
    LookupAt(a, 1);
    LookupAt(a, 2);
    LookupAt(a, 3);
    LookupAt(a, 4);
    LookupAt(a, 5);
  }

  /**
   * Decoding an encoded specification with an id added gives the job back,
   * carrying that id. A null body is the one thing that does not survive.
   */
  lemma FromSpecArray(j: JobValue, raw: Value, delay: int, priority: int, ttr: int)
    requires j.body != Null && raw != Null && IsIdValue(raw)
    ensures FromSpecification(Assign(SpecArray(j), IdKey, raw), delay, priority, ttr) == Done(j.(id := IdOf(raw)))
  {
    ReadSpecArray(j, raw);
  }

  /** A job whose body is null cannot be decoded: `isset` treats the null body as missing. */
  lemma FromSpecArrayNullBody(j: JobValue, raw: Value, delay: int, priority: int, ttr: int)
    requires j.body == Null
    ensures FromSpecification(Assign(SpecArray(j), IdKey, raw), delay, priority, ttr) == Raised(SplInvalidArgument)
  {
    ReadSpecArray(j, raw);
  }

  /**
   * The specification a factory builds to report a payload that is not an
   * array: the given queue, the raw id and the body `'false'`.
   */
  function FailureSpec(queue: Value, id: Value): PhpArray {
    [(QueueKey, queue), (IdKey, id), (BodyKey, Str("false"))]
  }

  lemma ReadFailureSpec(queue: Value, id: Value)
    ensures var f := FailureSpec(queue, id);
      Read(f, QueueKey) == queue && Read(f, IdKey) == id && Read(f, BodyKey) == Str("false") &&
      !HasKey(f, DelayKey) && !HasKey(f, PriorityKey) && !HasKey(f, TtrKey)
  {
    var f := FailureSpec(queue, id);
    KeysDistinct();
    LookupAt(f, 0);
    LookupAt(f, 1);
    LookupAt(f, 2);
  }

  /** With the empty-string queue, the report decodes to a job with that id and the defaults. */
  lemma FromFailureSpec(id: Value, delay: int, priority: int, ttr: int)
    requires id.Int? || id.Str?
    ensures FromSpecification(FailureSpec(Str(""), id), delay, priority, ttr) ==
      Done(JobValue("", Str("false"), IdOf(id), delay, priority, ttr))
  {
    ReadFailureSpec(Str(""), id);
  }

  /** With the queue `false`, the typed constructor rejects the report. */
  lemma FromFailureSpecFalseQueue(id: Value, delay: int, priority: int, ttr: int)
    ensures FromSpecification(FailureSpec(Bool(false), id), delay, priority, ttr) == Raised(TypeError)
  {
    ReadFailureSpec(Bool(false), id);
  }

  /** A null option is kept by the merge, so the constructor rejects it. */
  lemma NullOptionIsTypeError(data: PhpArray, delay: int, priority: int, ttr: int)
    requires IsSet(data, BodyKey) && IsSet(data, QueueKey)
    requires Lookup(data, DelayKey) == Some(Null)
    ensures FromSpecification(data, delay, priority, ttr) == Raised(TypeError)
  {
  }
}
