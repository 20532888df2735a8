/**
 * The SQS job factory: a job travels as the JSON-encoded specification
 * array, and a received message (`['ReceiptHandle' => …, 'Body' => …]`)
 * is decoded back into a job whose id is the receipt handle. The JSON text
 * is written with the same value codec as the Beanstalk payload.
 */
module SqsFactory {
  import opened Wrappers
  import opened PhpValues
  import opened Codec
  import opened Jobs
  import opened Errors
  import opened JobSpec
  import Decimal

  const ReceiptHandleKey := StrKey("ReceiptHandle")
  const MessageBodyKey := StrKey("Body")

  /** `serializeBody($job)`: the JSON text of the job's specification array. */
  function SerializeBody(j: JobValue): (s: string)
    ensures |s| >= 5 && s[..5] == "a:5:{" && s[|s| - 1] == '}'
  {
    var body := Serialize(Array(SpecArray(j)));
    assert Decimal.NatToString(5) == "5";
    body
  }

  lemma SerializeBodyDecodes(j: JobValue)
    ensures Unserialize(SerializeBody(j)) == Some(Array(SpecArray(j)))
  {
    UnserializeSerialize(Array(SpecArray(j)));
  }

  function CreateFromSpecification(data: PhpArray): (r: Outcome<JobValue>)
    ensures r == Raised(SplInvalidArgument) <==> !IsSet(data, BodyKey) || !IsSet(data, QueueKey)
    ensures r.Done? ==> (Int(r.value.delay) == Merged(data, DelayKey, 0) &&
      Int(r.value.priority) == Merged(data, PriorityKey, 1024) && Int(r.value.ttr) == Merged(data, TtrKey, 60))
  {
    FromSpecification(data, 0, 1024, 60)
  }

  /** Everything `createFromRaw` does before the payload is known to be an array. */
  function Decode(data: PhpArray): (r: Outcome<Value>)
    ensures r == Raised(InvalidArgument) <==> !IsSet(data, ReceiptHandleKey) || !IsSet(data, MessageBodyKey)
  {
    if !IsSet(data, ReceiptHandleKey) || !IsSet(data, MessageBodyKey) then Raised(InvalidArgument)
    else
      var body := Read(data, MessageBodyKey);
      if !body.Str? then Raised(TypeError)
      else
        match Unserialize(body.s)
        case None => Raised(JsonFailure)
        case Some(v) => Done(v)
  }

  /** The job for a decoded array payload: the receipt handle replaces any id in it. */
  function FromPayload(spec: PhpArray, receipt: Value): (r: Outcome<JobValue>)
    ensures r.Done? ==> IdValue(r.value.id) == receipt
  {
    AssignLookup(spec, IdKey, receipt);
    CreateFromSpecification(Assign(spec, IdKey, receipt))
  }

  /** `createFromRaw($data)` as written: a non-array payload fails on the `false` queue. */
  function CreateFromRawAsWritten(data: PhpArray): (r: Outcome<JobValue>)
    ensures r == Raised(InvalidArgument) <==> !IsSet(data, ReceiptHandleKey) || !IsSet(data, MessageBodyKey)
    ensures r.Done? ==> IdValue(r.value.id) == Read(data, ReceiptHandleKey)
  {
    match Decode(data)
    case Raised(e) => Raised(e)
    case Done(Array(spec)) => FromPayload(spec, Read(data, ReceiptHandleKey))
    case Done(_) =>
      match CreateFromSpecification(FailureSpec(Bool(false), Read(data, ReceiptHandleKey)))
      case Done(job) => Raised(JobRuntime(job))
      case Raised(e) => Raised(e)
  }

  /** `createFromRaw($data)` with the empty-string queue: a non-array payload raises JobRuntime. */
  function CreateFromRaw(data: PhpArray): (r: Outcome<JobValue>)
    ensures r == Raised(InvalidArgument) <==> !IsSet(data, ReceiptHandleKey) || !IsSet(data, MessageBodyKey)
    ensures r.Done? ==> IdValue(r.value.id) == Read(data, ReceiptHandleKey)
  {
    match Decode(data)
    case Raised(e) => Raised(e)
    case Done(Array(spec)) => FromPayload(spec, Read(data, ReceiptHandleKey))
    case Done(_) =>
      match CreateFromSpecification(FailureSpec(Str(""), Read(data, ReceiptHandleKey)))
      case Done(job) => Raised(JobRuntime(job))
      case Raised(e) => Raised(e)
  }

  /** The message a receive of `body` with receipt handle `receipt` yields. */
  function Message(receipt: Value, body: string): PhpArray {
    [(ReceiptHandleKey, receipt), (MessageBodyKey, Str(body))]
  }

  lemma ReadMessage(receipt: Value, body: string)
    ensures Read(Message(receipt, body), ReceiptHandleKey) == receipt
    ensures Read(Message(receipt, body), MessageBodyKey) == Str(body)
  {
    var a := Message(receipt, body);
    assert a[0].0 == ReceiptHandleKey && a[1].0 == MessageBodyKey && ReceiptHandleKey != MessageBodyKey;
    LookupAt(a, 0);
    LookupAt(a, 1);
  }

  /**
   * As written, a message whose payload decodes to something other than an
   * array never yields JobRuntime: the `false` queue is a TypeError.
   */
  lemma NonArrayPayloadAsWrittenIsTypeError(receipt: Value, body: string)
    requires receipt != Null
    requires Unserialize(body).Some? && !Unserialize(body).value.Array?
    ensures CreateFromRawAsWritten(Message(receipt, body)) == Raised(TypeError)
  {
    var data := Message(receipt, body);
    ReadMessage(receipt, body);
    assert Decode(data) == Done(Unserialize(body).value);
    FromFailureSpecFalseQueue(receipt, 0, 1024, 60);
    assert CreateFromSpecification(FailureSpec(Bool(false), receipt)) == Raised(TypeError);
  }

  /** The payload `5` (an integer, not an array) is one such message. */
  lemma IntegerPayloadAsWrittenIsTypeError()
    ensures CreateFromRawAsWritten(Message(Str("handle"), Serialize(Int(5)))) == Raised(TypeError)
    ensures CreateFromRaw(Message(Str("handle"), Serialize(Int(5)))) ==
      Raised(JobRuntime(JobValue("", Str("false"), StrId("handle"), 0, 1024, 60)))
  {
    UnserializeSerialize(Int(5));
    NonArrayPayloadAsWrittenIsTypeError(Str("handle"), Serialize(Int(5)));
    NonArrayPayloadRaisesJobRuntime(Str("handle"), Serialize(Int(5)));
  }

  /** A non-array payload raises JobRuntime carrying a job whose id is the receipt handle. */
  lemma NonArrayPayloadRaisesJobRuntime(receipt: Value, body: string)
    requires receipt.Int? || receipt.Str?
    requires Unserialize(body).Some? && !Unserialize(body).value.Array?
    ensures CreateFromRaw(Message(receipt, body)) ==
      Raised(JobRuntime(JobValue("", Str("false"), IdOf(receipt), 0, 1024, 60)))
  {
    var data := Message(receipt, body);
    ReadMessage(receipt, body);
    assert Decode(data) == Done(Unserialize(body).value);
    FromFailureSpec(receipt, 0, 1024, 60);
    var job := JobValue("", Str("false"), IdOf(receipt), 0, 1024, 60);
    assert CreateFromSpecification(FailureSpec(Str(""), receipt)) == Done(job);
  }

  /** A payload that is not valid text of the codec raises the decoder's exception. */
  lemma MalformedPayloadRaisesJsonFailure(receipt: Value, body: string)
    requires receipt != Null && Unserialize(body).None?
    ensures CreateFromRaw(Message(receipt, body)) == Raised(JsonFailure)
  {
    ReadMessage(receipt, body);
  }

  /**
   * A job sent to SQS and received with receipt handle `receipt` decodes to
   * the same queue, body, delay, priority and ttr, with the handle as id.
   */
  lemma CreateFromRawSerializeBody(j: JobValue, receipt: Value)
    requires j.body != Null && (receipt.Int? || receipt.Str?)
    ensures CreateFromRaw(Message(receipt, SerializeBody(j))) == Done(j.(id := IdOf(receipt)))
  {
    SerializeBodyDecodes(j);
    CreateFromRawOfSpec(j, receipt, SerializeBody(j));
  }

  lemma CreateFromRawOfSpec(j: JobValue, receipt: Value, text: string)
    requires j.body != Null && (receipt.Int? || receipt.Str?)
    requires Unserialize(text) == Some(Array(SpecArray(j)))
    ensures CreateFromRaw(Message(receipt, text)) == Done(j.(id := IdOf(receipt)))
  {
    var data := Message(receipt, text);
    ReadMessage(receipt, text);
    assert Decode(data) == Done(Array(SpecArray(j)));
    FromSpecArray(j, receipt, 0, 1024, 60);
  }
}
