/**
 * The Beanstalk job factory: a job travels as the PHP-serialized
 * specification array, and a reserved job (`['id' => …, 'body' => …]`)
 * is decoded back into a job that carries the broker's id.
 */
module BeanstalkFactory {
  import opened Wrappers
  import opened PhpValues
  import opened Codec
  import opened Jobs
  import opened Errors
  import opened JobSpec

  /** The broker client's `Connection::DEFAULT_DELAY`, `DEFAULT_PRIORITY` and `DEFAULT_TTR`. */
  const ConnectionDefaultDelay := 0
  const ConnectionDefaultPriority := 1024
  const ConnectionDefaultTtr := 60

  /** `serializeBody($job)`: the text decodes back to the job's specification array. */
  function SerializeBody(j: JobValue): (s: string)
    ensures Unserialize(s) == Some(Array(SpecArray(j)))
  {
    UnserializeSerialize(Array(SpecArray(j)));
    Serialize(Array(SpecArray(j)))
  }

  function CreateFromSpecification(data: PhpArray): (r: Outcome<JobValue>)
    ensures r == Raised(SplInvalidArgument) <==> !IsSet(data, BodyKey) || !IsSet(data, QueueKey)
    ensures r.Done? ==> (Int(r.value.delay) == Merged(data, DelayKey, 0) &&
      Int(r.value.priority) == Merged(data, PriorityKey, 1024) && Int(r.value.ttr) == Merged(data, TtrKey, 60))
  {
    FromSpecification(data, ConnectionDefaultDelay, ConnectionDefaultPriority, ConnectionDefaultTtr)
  }

  /** `createFromRaw($data)` for a reserved job `['id' => …, 'body' => …]`. */
  function CreateFromRaw(data: PhpArray): (r: Outcome<JobValue>)
    ensures r == Raised(InvalidArgument) <==> !IsSet(data, IdKey) || !IsSet(data, BodyKey)
    ensures r.Done? ==> IdValue(r.value.id) == Read(data, IdKey)
  {
    if !IsSet(data, IdKey) || !IsSet(data, BodyKey) then Raised(InvalidArgument)
    else
      var raw := Read(data, IdKey);
      var body := Read(data, BodyKey);
      if !body.Str? then Raised(TypeError)
      else
        match Unserialize(body.s)
        case Some(Array(spec)) =>
          AssignLookup(spec, IdKey, raw);
          CreateFromSpecification(Assign(spec, IdKey, raw))
        case _ =>
          match CreateFromSpecification(FailureSpec(Str(""), raw))
          case Done(job) => Raised(JobRuntime(job))
          case Raised(e) => Raised(e)
  }

  /** The raw record a reservation of `body` under broker id `raw` yields. */
  function Reserved(raw: Value, body: string): PhpArray {
    [(IdKey, raw), (BodyKey, Str(body))]
  }

  lemma ReadReserved(raw: Value, body: string)
    ensures Read(Reserved(raw, body), IdKey) == raw && Read(Reserved(raw, body), BodyKey) == Str(body)
  {
    var a := Reserved(raw, body);
    assert a[0].0 == IdKey && a[1].0 == BodyKey && IdKey != BodyKey;
    LookupAt(a, 0);
    LookupAt(a, 1);
  }

  /**
   * A job put on the broker and reserved under id `raw` decodes to the same
   * queue, body, delay, priority and ttr, with the broker's id.
   */
  lemma CreateFromRawSerializeBody(j: JobValue, raw: Value)
    requires j.body != Null && (raw.Int? || raw.Str?)
    ensures CreateFromRaw(Reserved(raw, SerializeBody(j))) == Done(j.(id := IdOf(raw)))
  {
    CreateFromRawOfSpec(j, raw, SerializeBody(j));
  }

  lemma CreateFromRawOfSpec(j: JobValue, raw: Value, text: string)
    requires j.body != Null && (raw.Int? || raw.Str?)
    requires Unserialize(text) == Some(Array(SpecArray(j)))
    ensures CreateFromRaw(Reserved(raw, text)) == Done(j.(id := IdOf(raw)))
  {
    var data := Reserved(raw, text);
    ReadReserved(raw, text);
    assert IsSet(data, IdKey) && IsSet(data, BodyKey);
    var spec := Assign(SpecArray(j), IdKey, raw);
    assert CreateFromRaw(data) == CreateFromSpecification(spec);
    FromSpecArray(j, raw, ConnectionDefaultDelay, ConnectionDefaultPriority, ConnectionDefaultTtr);
  }

  /** A body that does not unserialize to an array raises JobRuntime with a job carrying the raw id. */
  lemma NonArrayPayloadRaisesJobRuntime(raw: Value, body: string)
    requires raw.Int? || raw.Str?
    requires Unserialize(body).None? || !Unserialize(body).value.Array?
    ensures CreateFromRaw(Reserved(raw, body)) ==
      Raised(JobRuntime(JobValue("", Str("false"), IdOf(raw), 0, 1024, 60)))
  {
    var data := Reserved(raw, body);
    ReadReserved(raw, body);
    assert IsSet(data, IdKey) && IsSet(data, BodyKey);
    FromFailureSpec(raw, ConnectionDefaultDelay, ConnectionDefaultPriority, ConnectionDefaultTtr);
    var job := JobValue("", Str("false"), IdOf(raw), 0, 1024, 60);
    assert CreateFromSpecification(FailureSpec(Str(""), raw)) == Done(job);
  }

  /** A job whose body is null is put, but cannot be decoded again. */
  lemma CreateFromRawNullBody(j: JobValue, raw: Value)
    requires j.body == Null && (raw.Int? || raw.Str?)
    ensures CreateFromRaw(Reserved(raw, SerializeBody(j))) == Raised(SplInvalidArgument)
  {
    ReadReserved(raw, SerializeBody(j));
    FromSpecArrayNullBody(j, raw, ConnectionDefaultDelay, ConnectionDefaultPriority, ConnectionDefaultTtr);
  }
}
