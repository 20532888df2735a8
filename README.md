# phlib/jobqueue in Dafny

This project models the core of phlib/jobqueue, a PHP job-queue library. It
covers the following parts:

- **The job** (`Jobs`, job.dfy): queue, body, id, delay, priority and ttr. The
  setters and the date-based delay are included.
- **The job factories** of the two brokers: `BeanstalkFactory` and
  `SqsFactory`.
  - Both turn a job into its payload text and back.
  - They share `createFromSpecification`, modelled once as
    `JobSpec.FromSpecification`.
  - PHP's loose arrays are `PhpValues.PhpArray`: an ordered list of key/value
    pairs, with `isset`, lookup, assignment and `+`.
  - The payload text comes from `Codec`, one concrete encoder with a proved
    round trip (`Decimal` writes its numbers).
- **The database scheduler** (`Scheduler.DbScheduler`).
  - It parks jobs whose delay exceeds the broker threshold as rows of a table.
  - The `scheduled_queue` table is a sequence of rows.
  - A monitor later claims the rows that fall due.
- **The Beanstalk job queue** (`BeanstalkQueue.JobQueue`) and **the SQS job
  queue** (`SqsQueue.JobQueue`).
  - Each routes a job either to the scheduler or to the broker.
  - Each maps the worker's outcomes onto broker calls.
  - The broker, the SQS service and the scheduler are collaborators. The queues
    record every call made to them, in order, in a `trace`.
  - The SQS service itself is data: queue URLs, redrive policies, and the URLs
    whose calls throw.
  - `SqsBatching` partitions and chunks `putBatch`.
- **The monitor command** (`Monitor.MonitorCommand`). It drains the scheduler
  into the job queue, one row at a time or in batches.
- **The worker command** (`Worker.WorkerCommand`). It runs the daemon loop:
  retrieve, work, then mark complete or as error.
  - The queue's answers and `work`'s results are given as a script of rounds.

Exceptions are the values of `Errors.Thrown`.
- `IsLibrary` tells the library's marker interface apart.
- `IsException` tells `\Exception` apart from `\TypeError`.

Under `declare(strict_types=1)`, a wrongly typed argument to `new Job(...)` is
a `TypeError`.

## Model

| member | source | states |
|---|---|---|
| PhpValues.Lookup | src/Beanstalk/JobFactory.php:46-48 | A key reads a value exactly when the array holds that key, and the pair read is in the array. |
| PhpValues.LookupAt | src/Beanstalk/JobFactory.php:57 | When no earlier entry has the same key, reading entry i's key yields entry i's value. |
| PhpValues.AssignLookup | src/Beanstalk/JobFactory.php:35 | After `$a[k] = v`, k reads v and every other key reads as before. |
| PhpValues.AssignAbsent | src/Beanstalk/JobFactory.php:35 | Assigning a key the array lacks appends the pair at the end. |
| PhpValues.KeysNotIn | src/Beanstalk/JobFactory.php:51-55 | The entries of b whose keys a lacks: they read as in b, and hold no key of a. |
| PhpValues.LookupAppend | src/Beanstalk/JobFactory.php:51-55 | Reading a concatenation finds the first part's value, or else the second's. |
| PhpValues.Union | src/Beanstalk/JobFactory.php:51-55 | For `$a + $b`, each key reads a's value when a holds it and b's otherwise. |
| Decimal.NatToString | src/AwsSqs/JobQueue.php:84 | `(string) $key` of a natural number is a non-empty string of digits. |
| Decimal.DigitsValueOfNatToString | src/AwsSqs/JobQueue.php:84 | Reading the digits of `(string) $n` back gives n. |
| Decimal.NatToStringInjective | src/AwsSqs/JobQueue.php:84 | Distinct input keys give distinct batch entry ids. |
| Decimal.ParseNatUntilRoundTrip | src/Beanstalk/JobFactory.php:25 | Reading a written length back, up to its terminator, gives that length and the rest of the text. |
| Decimal.ParseIntUntilRoundTrip | src/Beanstalk/JobFactory.php:25 | Reading a written integer, sign included, back up to its terminator gives that integer and the rest. |
| Codec.ParseStrBodyRoundTrip | src/Beanstalk/JobFactory.php:62-68 | A length-prefixed quoted string reads back as itself, followed by the rest of the text. |
| Codec.ParseKeyRoundTrip | src/Beanstalk/JobFactory.php:62-68 | An array key written by the encoder reads back as that key, followed by the rest. |
| Codec.ParseValue | src/Beanstalk/JobFactory.php:62-68 | A parse consumes at least two characters and starts with the value's type letter. Null and booleans are read only from their own encoding. |
| Codec.ParseValueRoundTrip | src/Beanstalk/JobFactory.php:62-68 | Any value written by the encoder, nested arrays included, reads back as itself, followed by the rest. |
| Codec.ParseEntriesRoundTrip | src/Beanstalk/JobFactory.php:62-68 | The written entries of an array, from any index on, read back as those entries. |
| Codec.UnserializeSerialize | src/Beanstalk/JobFactory.php:25 | `unserialize(serialize($v))` is v. |
| Codec.Serialize | src/Beanstalk/JobFactory.php:62-68 | Each encoding starts with its type letter, then `;` for null or `:` otherwise. It ends with `}` for an array and `;` for anything else. |
| Codec.Unserialize | src/Beanstalk/JobFactory.php:25 | A decoded text starts with its value's type letter. A null or a boolean is decoded only from its own encoding. |
| Codec.SerializeInjective | src/Beanstalk/JobFactory.php:62-68 | Distinct values have distinct encodings. |
| Jobs.SetDatetimeDelayAsWritten | src/Job.php:65-73 | As written, the delay is `now - deadline`, clamped at 0. A deadline in the future gives 0. |
| Jobs.DelayUntil | src/Job.php:65-73 | The intended delay for a deadline: a future deadline is reached exactly, and a past one gives 0. |
| Jobs.DatetimeDelayAt | src/Job.php:54-57 | The reported time is `delay` seconds after now. It is not in the past exactly when the delay is not negative. |
| Jobs.DelayUntilInvertsDatetimeDelay | src/Job.php:54-57 | The delay derived from `getDatetimeDelay()` is the job's own delay. |
| Jobs.SetDatetimeDelayAsWrittenDropsFutureDeadline | src/Job.php:67-70 | A deadline 120 s ahead gives delay 0 as written, and 120 as intended. |
| Jobs.Job.constructor | src/Job.php:22-32 | The job holds exactly the queue, body, id, delay, priority and ttr it was given. |
| Jobs.Job.SetDelay | src/Job.php:59-63 | Only the delay changes, to the value given. |
| Jobs.Job.SetTtr | src/Job.php:80-84 | Only the ttr changes, to the value given. |
| Jobs.Job.SetPriority | src/Job.php:91-95 | Only the priority changes, to the value given. |
| Jobs.Job.SetDatetimeDelay | src/Job.php:65-73 | Only the delay changes, to the as-written `now - deadline` clamped at 0. It is never negative. |
| Jobs.Job.DatetimeDelay | src/Job.php:54-57 | The job's due time is its delay after now. For a non-negative delay, the corrected setter turns that time back into the delay. |
| Jobs.NewJobWithDefaults | src/Job.php:12-32 | A new job has a null id, delay 0, priority 1024 and ttr 60. |
| JobSpec.Read | src/Beanstalk/JobFactory.php:57 | `$data[k]` is the key's value, or null when the key is missing. |
| JobSpec.IdOf | src/Job.php:25 | An int or string id read from an array gives back that same value as the job id. |
| JobSpec.NewJob | src/Job.php:22-32 | `new Job(...)` succeeds exactly when queue is a string, id is int, string or null, and delay, priority and ttr are ints. The job holds those values; any other case is a TypeError. |
| JobSpec.ReadDefaults | src/AwsSqs/JobFactory.php:65-69 | The defaults array reads the given delay, priority and ttr. |
| JobSpec.FromSpecification | src/Beanstalk/JobFactory.php:39-58 | A missing (or null) body or queue raises \InvalidArgumentException, and only that does. Otherwise a job results exactly when every field has the right type, and it is a TypeError when one does not. The job carries the queue and body, the id when one is set, and each option merged with its default. |
| JobSpec.SpecArray | src/Beanstalk/JobFactory.php:62-68 | The specification array has five entries. |
| JobSpec.SpecArrayKeys | src/Beanstalk/JobFactory.php:62-68 | Its keys are queue, body, delay, priority and ttr, in that order, and it has no id. |
| JobSpec.FromSpecArray | src/Beanstalk/JobFactory.php:35-57 | A specification array with an id assigned yields the original job with that id. |
| JobSpec.FromSpecArrayNullBody | src/Beanstalk/JobFactory.php:41-43 | A job with a null body cannot be rebuilt: isset fails and \InvalidArgumentException is raised. |
| JobSpec.FromFailureSpec | src/Beanstalk/JobFactory.php:27-31 | The failure specification with queue '' yields the job ('', 'false', id) with the given defaults. |
| JobSpec.FromFailureSpecFalseQueue | src/AwsSqs/JobFactory.php:38-42 | The failure specification with queue false is a TypeError. |
| JobSpec.NullOptionIsTypeError | src/Beanstalk/JobFactory.php:51-57 | A delay key holding null survives `+` and then fails the int check as a TypeError. |
| BeanstalkFactory.SerializeBody | src/Beanstalk/JobFactory.php:60-69 | The payload decodes to the job's five-entry specification array. |
| BeanstalkFactory.CreateFromSpecification | src/Beanstalk/JobFactory.php:39-58 | A missing body or queue is exactly the \InvalidArgumentException case. Options merge with the defaults 0, 1024 and 60. |
| BeanstalkFactory.CreateFromRaw | src/Beanstalk/JobFactory.php:19-37 | A missing id or body raises the library's InvalidArgumentException, and only that does. A job it yields has the raw id. |
| BeanstalkFactory.CreateFromRawSerializeBody | src/Beanstalk/JobFactory.php:19-69 | A reserved payload written by serializeBody decodes to the same job, with the broker's id. |
| BeanstalkFactory.CreateFromRawOfSpec | src/Beanstalk/JobFactory.php:25-36 | Any payload that decodes to a job's specification array yields that job with the raw id. |
| BeanstalkFactory.NonArrayPayloadRaisesJobRuntime | src/Beanstalk/JobFactory.php:25-33 | A payload that is unreadable, or not an array, raises JobRuntimeException. Its job is ('', 'false', raw id, 0, 1024, 60). |
| BeanstalkFactory.CreateFromRawNullBody | src/Beanstalk/JobFactory.php:35-43 | A job with a null body put on the broker comes back as \InvalidArgumentException. |
| SqsFactory.SerializeBody | src/AwsSqs/JobFactory.php:20-29 | The body is the encoding of a five-entry array: it opens with `a:5:{` and closes with `}`. Its decoding is stated by `SqsFactory.SerializeBodyDecodes` (see Left out). |
| SqsFactory.SerializeBodyDecodes | src/AwsSqs/JobFactory.php:20-29 | The message body decodes to the job's specification array. |
| SqsFactory.CreateFromSpecification | src/AwsSqs/JobFactory.php:53-72 | A missing body or queue is exactly the \InvalidArgumentException case. Options merge with the defaults 0, 1024 and 60. |
| SqsFactory.Decode | src/AwsSqs/JobFactory.php:33-36 | A missing ReceiptHandle or Body is exactly the InvalidArgumentException case. |
| SqsFactory.FromPayload | src/AwsSqs/JobFactory.php:46-47 | A job built from an array payload has the receipt handle as id. |
| SqsFactory.CreateFromRawAsWritten | src/AwsSqs/JobFactory.php:31-48 | As written: a missing element is exactly the InvalidArgumentException case, and a job it yields has the receipt handle as id. |
| SqsFactory.CreateFromRaw | src/AwsSqs/JobFactory.php:31-48 | The same guarantees, with the failure job built on queue ''. |
| SqsFactory.NonArrayPayloadAsWrittenIsTypeError | src/AwsSqs/JobFactory.php:37-43 | As written, a payload that is not an array gives a TypeError, never JobRuntimeException. |
| SqsFactory.IntegerPayloadAsWrittenIsTypeError | src/AwsSqs/JobFactory.php:37-43 | Body `5` gives a TypeError as written, and JobRuntimeException as intended. |
| SqsFactory.NonArrayPayloadRaisesJobRuntime | src/AwsSqs/JobFactory.php:37-43 | As intended, a payload that is not an array raises JobRuntimeException with the receipt handle as id. |
| SqsFactory.MalformedPayloadRaisesJsonFailure | src/AwsSqs/JobFactory.php:36 | A body the decoder cannot read raises \JsonException. |
| SqsFactory.CreateFromRawSerializeBody | src/AwsSqs/JobFactory.php:20-48 | A message written by serializeBody decodes to the same job, with the handle as id. |
| SqsFactory.CreateFromRawOfSpec | src/AwsSqs/JobFactory.php:36-47 | Any body that decodes to a job's specification array yields that job with the handle as id. |
| Scheduler.DefaultThreshold | src/Scheduler/DbScheduler.php:25-35 | With the default maximum delay of 300, a delay of 301 is parked, while 300 and 60 are not. |
| Scheduler.ShouldBeScheduled | src/Scheduler/DbScheduler.php:32-35 | A job is parked exactly when its delay is strictly greater than maximumDelay; a delay equal to it is not. With a threshold of 0 or more, a job due now is never parked. |
| Scheduler.ThresholdSplitsDelays | src/Scheduler/DbScheduler.php:32-35 | For any threshold, a delay equal to it goes to the broker and one second more is parked. A longer delay is parked whenever a shorter one is. |
| Scheduler.NewRow | src/Scheduler/DbScheduler.php:37-48 | A stored row is unclaimed, created now, and due `delay` seconds from now. |
| Scheduler.ToRecord | src/Scheduler/DbScheduler.php:75-88 | A record keeps the row's id, tube, priority and ttr. Its delay is the time left until the row is due, or 0 once it is due. |
| Scheduler.RecordDelayOfFutureRow | src/Scheduler/DbScheduler.php:75-80 | A row due in 120 s gives delay 120. |
| Scheduler.RecordDelayBounded | src/Scheduler/DbScheduler.php:60-80 | A claimable row's delay lies between 0 and minimumPickup. |
| Scheduler.PromotedRoutedToBroker | src/Scheduler/DbScheduler.php:32-80 | Every claimable row goes to the broker rather than back to the scheduler exactly when minimumPickup ≤ maximumDelay. |
| Scheduler.DefaultsDeferAgain | src/Scheduler/DbScheduler.php:25-80 | With the defaults 300 and 600, a row due in 450 s is claimed and then parked again. |
| Scheduler.StoredJobComesBack | src/Scheduler/DbScheduler.php:37-88 | A stored job comes back with its queue, body, priority and ttr. Its delay is what remains of the original one. |
| Scheduler.WithoutIds | src/Scheduler/DbScheduler.php:94-102 | Deleting by ids never grows the table, and deletes nothing exactly when no row has one of the ids. |
| Scheduler.WithoutIdsMembers | src/Scheduler/DbScheduler.php:94-102 | Every row left is an original row whose id was not deleted. |
| Scheduler.WithoutIdsKeeps | src/Scheduler/DbScheduler.php:94-102 | Every row whose id was not deleted is left. |
| Scheduler.WithoutIdsIdempotent | src/Scheduler/DbScheduler.php:94-102 | Deleting the same ids twice changes nothing the second time. |
| Scheduler.WithoutIdsCompose | src/Scheduler/DbScheduler.php:94-102 | Two deletions equal one deletion of both id lists. |
| Scheduler.WithoutIdsAgree | src/Scheduler/DbScheduler.php:94-102 | Rows that differ only where ids are deleted leave the same table. |
| Scheduler.CountEligibleClaim | src/Scheduler/DbScheduler.php:55-67 | Claiming a claimable row lowers the number of claimable rows by one. |
| Scheduler.SelectPickedBy | src/Scheduler/DbScheduler.php:72-73 | The SELECT finds the first row claimed by the connection, or none when no row is. |
| Scheduler.SelectPickedByReadsClaim | src/Scheduler/DbScheduler.php:55-73 | When the connection held no claim before, the SELECT reads the row just claimed. |
| Scheduler.SelectPickedByReadsStaleClaim | src/Scheduler/DbScheduler.php:55-73 | A table where the SELECT reads an earlier claim instead of the row just claimed. |
| Scheduler.DbScheduler.constructor | src/Scheduler/DbScheduler.php:25-30 | The table starts empty. Defaults are maximumDelay 300 and minimumPickup 600. |
| Scheduler.DbScheduler.Store | src/Scheduler/DbScheduler.php:37-48 | Exactly one new row is appended for the job, and the result is true. |
| Scheduler.DbScheduler.Insert | src/Scheduler/DbScheduler.php:104-114 | The row is appended and the row count is 1. |
| Scheduler.DbScheduler.Retrieve | src/Scheduler/DbScheduler.php:53-89 | False exactly when no row is claimable, and then nothing changes. Otherwise the claimable row due last is claimed, nothing else changes, and that row's record is returned. This is the corrected read of the first Findings row (see Left out). |
| Scheduler.DbScheduler.Remove | src/Scheduler/DbScheduler.php:94-102 | The row with that id is deleted, and the result is true exactly when such a row existed. |
| Scheduler.DbScheduler.RemoveBatch | tests/Scheduler/DbSchedulerTest.php:234-300 | The rows with those ids are deleted. The result is true exactly when the delete removed as many rows as ids were given, so for distinct ids exactly when every id named a row. |
| Scheduler.RemoveBatchAllOrNothing | tests/Scheduler/DbSchedulerTest.php:258-300 | For distinct ids, the delete removes at most one row per id, and one for each id exactly when every id names a row. |
| Scheduler.DbScheduler.RetrieveBatch | tests/Scheduler/DbSchedulerTest.php:137-232 | False exactly when none is claimable. Otherwise every claimable row is claimed and nothing else changes, and the records come due last first, one per claimed row. |
| Scheduler.DbScheduler.ClaimEach | src/Scheduler/BatchableSchedulerInterface.php:12 | Repeated claims leave no row claimable. They claim picked rows only and return their records in claim order. |
| Scheduler.ClaimedStep | src/Scheduler/DbScheduler.php:55-67 | One more claim keeps the claimed rows distinct, ordered by due time, and the only rows changed. |
| Scheduler.ClaimedAll | src/Scheduler/DbScheduler.php:55-67 | Once nothing is claimable, exactly the rows claimable at the start were claimed. |
| Scheduler.RemovedRowsValid | src/Scheduler/DbScheduler.php:94-114 | Deleting rows keeps ids unique and below the next id. |
| Scheduler.WithoutIdsUnique | src/Scheduler/DbScheduler.php:94-102 | Deleting rows keeps ids unique. |
| BeanstalkQueue.ReserveOutcome | src/Beanstalk/JobQueue.php:75-84 | Null exactly for "no jobs available". Another not-found code, or a client exception, is rethrown. A reserved job is decoded by the factory. |
| BeanstalkQueue.PutRoutes | src/Beanstalk/JobQueue.php:39-49 | A job is stored in the scheduler exactly when its delay exceeds the threshold, and put on the broker exactly when it does not. |
| BeanstalkQueue.PutCalls | src/Beanstalk/JobQueue.php:39-49 | put is either one store of the job, or a use of the job's tube and then one put with its priority, delay and ttr. The put's payload decodes to the job's specification array. |
| BeanstalkQueue.IncompleteCalls | src/Beanstalk/JobQueue.php:93-106 | markAsIncomplete ends with a store of the job, or with a release of its id, priority and delay right after using its tube. A delete is only ever of the job's own id, and only when it has one. |
| BeanstalkQueue.PutThenReserve | src/Beanstalk/JobQueue.php:39-85 | A job put on its tube and reserved with an id comes back as the same job with that id. |
| BeanstalkQueue.IncompleteDeferred | src/Beanstalk/JobQueue.php:93-101 | A long delay stores the job, after a delete exactly when the job has an id, and never releases it. |
| BeanstalkQueue.IncompleteReleased | src/Beanstalk/JobQueue.php:103-105 | A short delay releases the job on its tube with its priority and delay, and never stores it. |
| BeanstalkQueue.JobQueue.constructor | src/Beanstalk/JobQueue.php:20-26 | The retrieve timeout starts at 5 and nothing has been called. |
| BeanstalkQueue.JobQueue.Put | src/Beanstalk/JobQueue.php:39-49 | Appends the routing calls of `put`. |
| BeanstalkQueue.JobQueue.SetRetrieveTimeout | src/Beanstalk/JobQueue.php:56-68 | Null or a non-negative value is stored. A negative value raises InvalidArgumentException and changes nothing. |
| BeanstalkQueue.JobQueue.Retrieve | src/Beanstalk/JobQueue.php:70-85 | Calls watch, ignore('default') and reserve(timeout), and answers as ReserveOutcome. |
| BeanstalkQueue.JobQueue.MarkAsComplete | src/Beanstalk/JobQueue.php:87-91 | Deletes the job's id. |
| BeanstalkQueue.JobQueue.MarkAsIncomplete | src/Beanstalk/JobQueue.php:93-106 | Appends the store or release calls. |
| BeanstalkQueue.JobQueue.MarkAsError | src/Beanstalk/JobQueue.php:108-112 | Buries the job's id. |
| SqsBatching.Find | src/AwsSqs/JobQueue.php:83 | Finds the group of a queue exactly when there is one. |
| SqsBatching.FindDistinct | src/AwsSqs/JobQueue.php:83 | With distinct queue names, a group's name finds that group. |
| SqsBatching.AddEntrySound | src/AwsSqs/JobQueue.php:83-87 | `$queues[$q][] = $e` appends e to q's group only. It opens q at the end when q is new, keeps names distinct and groups non-empty. |
| SqsBatching.QueueEntriesSound | src/AwsSqs/JobQueue.php:77-88 | A queue's entries are exactly the entries of its jobs that are not deferred. |
| SqsBatching.GroupedSound | src/AwsSqs/JobQueue.php:77-88 | Groups have distinct names and are non-empty. Each holds its queue's entries. |
| SqsBatching.GroupedNames | src/AwsSqs/JobQueue.php:77-88 | There is a group for q exactly when some job for q is not deferred. |
| SqsBatching.Partitioned | src/AwsSqs/JobQueue.php:77-88 | A deferred job is sent in no batch. A job that is not deferred is an entry of its own queue's group and of no other. |
| SqsBatching.ChunksConcatenate | src/AwsSqs/JobQueue.php:91 | `array_chunk($e, 10)` loses and reorders nothing. |
| SqsBatching.ChunksBounded | src/AwsSqs/JobQueue.php:91 | Every chunk holds 1 to 10 entries, all but the last exactly 10, with ⌈n/10⌉ chunks. |
| SqsBatching.ChunksOfTwentyFive | src/AwsSqs/JobQueue.php:91 | 25 entries become chunks of 10, 10 and 5. |
| SqsBatching.SendsOf | src/AwsSqs/JobQueue.php:91-96 | One batch per chunk, addressed to the group's queue. |
| SqsBatching.SendsTargetGroups | src/AwsSqs/JobQueue.php:90-97 | Every batch sent targets an existing group and carries 1 to 10 entries. |
| SqsBatching.SendsCarryGroups | src/AwsSqs/JobQueue.php:90-97 | The batches together carry all the groups' entries, in order. |
| SqsBatching.NothingSentWhenAllDeferred | src/AwsSqs/JobQueue.php:77-81 | When every job is deferred, no group is formed. |
| SqsQueue.PrefixedName | src/AwsSqs/JobQueue.php:171-175 | The queue name is the prefix followed by the name. |
| SqsQueue.PrefixedNameInjective | src/AwsSqs/JobQueue.php:171-175 | Distinct names give distinct prefixed names. |
| SqsQueue.Resolve | src/AwsSqs/JobQueue.php:177-191 | getQueueUrl is called only on a cache miss, and the cache only grows. With a cache true to the service, the answer is the service's URL, or InvalidArgumentException for a missing queue. The cache stays true and then holds the name exactly when the queue exists. |
| SqsQueue.UrlLookedUpOnce | src/AwsSqs/JobQueue.php:177-191 | Under the queue's invariant, the URL of a queue the service has is fetched at most once over the whole trace. |
| SqsQueue.ChunksFromDelivers | src/AwsSqs/JobQueue.php:91-96 | When the queue exists and works, a group's chunks are sent as one batch call each, in order. |
| SqsQueue.GroupsFromDelivers | src/AwsSqs/JobQueue.php:90-97 | When every group's queue exists and works, all the batches are sent, in order. |
| SqsQueue.StoreCallsSound | src/AwsSqs/JobQueue.php:77-81 | Exactly the deferred jobs are stored. |
| SqsQueue.StoreCallsSendNothing | src/AwsSqs/JobQueue.php:77-81 | Storing sends no batch. |
| SqsQueue.PutBatchSplit | src/AwsSqs/JobQueue.php:72-103 | putBatch first stores the deferred jobs, then sends the groups. |
| SqsQueue.PutBatchNoSends | src/AwsSqs/JobQueue.php:77-81 | When every job is deferred, putBatch only stores them and never throws. |
| SqsQueue.PutBatchDelivers | src/AwsSqs/JobQueue.php:72-103 | When the queues exist and work, the batch calls are exactly the chunked groups, in order, and nothing is thrown. |
| SqsQueue.ReceiveOutcome | src/AwsSqs/JobQueue.php:114-118 | No message gives null. A message is decoded by the factory. It decodes with the corrected factory (see Left out). |
| SqsQueue.LastColon | src/AwsSqs/JobQueue.php:207 | `strrpos($arn, ':')`: the last colon, or false when there is none. |
| SqsQueue.ArnSuffix | src/AwsSqs/JobQueue.php:207 | The text after the last colon. Without a colon, false + 1 drops the first character. |
| SqsQueue.ArnSuffixOfArn | src/AwsSqs/JobQueue.php:207 | `head:name` gives name. |
| SqsQueue.ArnWithoutColon | src/AwsSqs/JobQueue.php:207 | "dead-letter" gives "ead-letter". |
| SqsQueue.DeadLetterName | src/AwsSqs/JobQueue.php:197-210 | An empty policy raises RuntimeException, and undecodable JSON raises \JsonException. A name comes back exactly when deadLetterTargetArn is a string, and it is that ARN's suffix. Anything else is a TypeError. |
| SqsQueue.DeadLetterOfPolicy | src/AwsSqs/JobQueue.php:201-207 | A policy naming `head:name` gives name. |
| SqsQueue.ErrorDeletesThenResends | src/AwsSqs/JobQueue.php:147-169 | With a redrive policy, the message is deleted and then sent, with delay 0, to the dead-letter queue as the last call. |
| SqsQueue.DeadLetterFound | src/AwsSqs/JobQueue.php:193-211 | A redrive policy naming `…:name` makes the queue's dead-letter queue `name`, and the queue's URL is then cached. |
| SqsQueue.CompleteCached | src/AwsSqs/JobQueue.php:124-136 | On a cached URL that does not fail, markAsComplete makes exactly one DeleteMessage of the job's id and throws nothing. |
| SqsQueue.ResendDelivers | src/AwsSqs/JobQueue.php:147-169 | The resend to an existing, working queue ends with its SendMessage of the job, with delay 0, and throws nothing. |
| SqsQueue.PutThenReceive | src/AwsSqs/JobQueue.php:53-70 | A job put with a short delay is sent to its queue with its delay. Receiving that body gives the same job with the handle as id. |
| SqsQueue.IncompleteRequeues | src/AwsSqs/JobQueue.php:138-145 | On an existing, working queue and a threshold of 0 or more: at most one URL lookup, then DeleteMessage of the job's id, then SendMessage of the job with delay 0 to the same URL. Nothing is stored and nothing is thrown. |
| SqsQueue.ResolveKeeps | src/AwsSqs/JobQueue.php:177-191 | The cache lookup keeps the cache consistent with the calls made so far. |
| SqsQueue.PutKeeps | src/AwsSqs/JobQueue.php:53-70 | put keeps the cache consistent. |
| SqsQueue.PutBatchKeeps | src/AwsSqs/JobQueue.php:72-103 | putBatch keeps the cache consistent. |
| SqsQueue.CompleteKeeps | src/AwsSqs/JobQueue.php:124-136 | markAsComplete keeps the cache consistent. |
| SqsQueue.DeadLetterKeeps | src/AwsSqs/JobQueue.php:193-211 | determineDeadletterQueue keeps the cache consistent and caches the queue it found. |
| SqsQueue.ResendKeeps | src/AwsSqs/JobQueue.php:158-163 | The dead-letter send keeps the cache consistent. |
| SqsQueue.ErrorKeeps | src/AwsSqs/JobQueue.php:147-169 | markAsError keeps the cache consistent. |
| SqsQueue.JobQueue.constructor | src/AwsSqs/JobQueue.php:22-36 | The prefix defaults to ''. The retrieve timeout starts at 10, and the cache and trace start empty. |
| SqsQueue.JobQueue.GetQueueUrlOf | src/AwsSqs/JobQueue.php:177-191 | Resolves through the cache as Resolve states. |
| SqsQueue.JobQueue.GetQueueUrlWithPrefix | src/AwsSqs/JobQueue.php:171-175 | Resolves the prefixed name. |
| SqsQueue.JobQueue.Send | src/AwsSqs/JobQueue.php:119-121 | One service call. It throws RuntimeException exactly when its URL fails. |
| SqsQueue.JobQueue.Put | src/AwsSqs/JobQueue.php:53-70 | Stores a long-delayed job. Otherwise it resolves the queue and sends the body with the job's delay. |
| SqsQueue.JobQueue.SendBatch | src/AwsSqs/JobQueue.php:92-95 | Resolves the queue, then makes one sendMessageBatch. |
| SqsQueue.JobQueue.SendGroup | src/AwsSqs/JobQueue.php:91-96 | Sends a group's chunks in order, stopping at the first exception. |
| SqsQueue.JobQueue.SendGroups | src/AwsSqs/JobQueue.php:90-97 | Sends every group in order, stopping at the first exception. |
| SqsQueue.JobQueue.GroupJobs | src/AwsSqs/JobQueue.php:77-88 | Stores the deferred jobs, in order, and returns the per-queue groups. |
| SqsQueue.JobQueue.PutBatch | src/AwsSqs/JobQueue.php:72-103 | Stores, then sends, as PutBatchSplit and PutBatchDelivers state. |
| SqsQueue.JobQueue.Retrieve | src/AwsSqs/JobQueue.php:105-122 | Resolves the queue and receives one message with the retrieve timeout. A failing URL raises RuntimeException. The answer is as ReceiveOutcome. |
| SqsQueue.JobQueue.DeleteMessageOf | src/AwsSqs/JobQueue.php:127-130 | Deletes the receipt handle on the job's queue. |
| SqsQueue.JobQueue.MarkAsComplete | src/AwsSqs/JobQueue.php:124-136 | The same delete, with SqsException turned into RuntimeException. |
| SqsQueue.JobQueue.MarkAsIncomplete | src/AwsSqs/JobQueue.php:138-145 | Makes the calls of `SqsQueue.IncompleteEffect`: deletes the message and, unless the delete throws, puts the job again with delay 0. The job's delay becomes 0 exactly when the delete throws nothing. |
| SqsQueue.JobQueue.DetermineDeadletterQueue | src/AwsSqs/JobQueue.php:193-211 | Reads the RedrivePolicy and returns the dead-letter name, or the exceptions DeadLetterName lists. |
| SqsQueue.JobQueue.Resend | src/AwsSqs/JobQueue.php:158-163 | Resolves the unprefixed dead-letter name, then sends the body with delay 0. |
| SqsQueue.JobQueue.MarkAsError | src/AwsSqs/JobQueue.php:147-169 | Finds the dead-letter queue, deletes the message, sets the delay to 0 and resends. The delay changes exactly when the resend is reached. |
| Monitor.SingleCallsAt | src/Console/MonitorCommand.php:66-70 | Record k is put at step 2k and removed at step 2k+1. |
| Monitor.RemovedRightAfterPut | src/Console/MonitorCommand.php:66-70 | A row is removed only directly after its job was put. |
| Monitor.BatchCallsShape | src/Console/MonitorCommand.php:56-64 | A batch ends with one removeBatch of all its ids. Before that comes one putBatch on a batchable queue, or one put per record in order. |
| Monitor.CreateJob | src/Console/MonitorCommand.php:76-86 | The job carries the record's queue, data, delay, priority and ttr, and a null id. |
| Monitor.PromotedJob | src/Console/MonitorCommand.php:76-86 | The promoted job is the stored one with a null id and the remaining delay. |
| Monitor.PromotedJobReachesBroker | src/Console/MonitorCommand.php:76-86 | When minimumPickup ≤ maximumDelay, a promoted job is put on the Beanstalk tube, not parked again. |
| Monitor.SharedSchedulerReclaims | src/Console/MonitorCommand.php:66-70 | With a Beanstalk queue that shares the scheduler, a claimed row due more than maximumDelay ahead is stored again by the put, as a new row under a fresh id. The round's remove by the claimed row's id then leaves that claimable row for the same job, so retrieve at the same time finds it again. |
| Monitor.MonitorCommand.constructor | src/Console/MonitorCommand.php:27-38 | Holds the scheduler and the queue it was given. The log starts empty. |
| Monitor.MonitorCommand.Execute | src/Console/MonitorCommand.php:48-74 | Returns 0. Every row claimable at the start is promoted, due last first, and then deleted; the table keeps the other rows. The log is the single or the batch call sequence. It drains through the corrected retrieve, and its queue does not store into this scheduler (see Left out). |
| Monitor.MonitorCommand.PutJobBatch | src/Console/MonitorCommand.php:88-98 | One putBatch on a batchable queue, or otherwise one put per job, in order. |
| Monitor.MonitorCommand.PromoteSingles | src/Console/MonitorCommand.php:66-70 | The single-row loop promotes exactly the claimable rows, each put and then removed. Its queue does not store into the scheduler (see Left out). |
| Monitor.MonitorCommand.PromoteOne | src/Console/MonitorCommand.php:66-70 | One round: none claimable leaves everything unchanged. Otherwise the row due last is put and then removed. Its queue does not store into the scheduler (see Left out). |
| Monitor.MonitorCommand.PromoteBatches | src/Console/MonitorCommand.php:56-64 | The batch loop promotes exactly the claimable rows in one batch, then finds none more. Its queue does not store into the scheduler (see Left out). |
| Monitor.MonitorCommand.PromoteBatch | src/Console/MonitorCommand.php:56-64 | One round: claims every claimable row, puts their jobs and removes their ids. Its queue does not store into the scheduler (see Left out). |
| Monitor.SingleStep | src/Console/MonitorCommand.php:66-70 | One claim-put-remove step keeps the loop invariant and shrinks the table. Its queue does not store into the scheduler (see Left out). |
| Monitor.TableStep | src/Console/MonitorCommand.php:66-70 | After the step, the table is the start minus every promoted id. Its queue does not store into the scheduler (see Left out). |
| Monitor.SinglesDone | src/Console/MonitorCommand.php:66-70 | When the loop ends, exactly the claimable rows were promoted. Its queue does not store into the scheduler (see Left out). |
| Monitor.BatchStep | src/Console/MonitorCommand.php:56-64 | A drained batch is exactly the claimable rows, due last first, and the removal leaves none claimable. Its queue does not store into the scheduler (see Left out). |
| Worker.CompleteOnlyOnZero | src/Command/WorkerCommand.php:45-54 | Work always runs first, and markAsComplete follows exactly when the code is 0. |
| Worker.CleanRoundCompletes | src/Command/WorkerCommand.php:42-55 | When nothing throws, the calls are work then markAsComplete. |
| Worker.Handle | src/Command/WorkerCommand.php:56-66 | markAsError is added exactly for an \Exception outside the library's. The loop goes on only then, when markAsError does not throw and exitOnException is off. Otherwise the original exception, or markAsError's, leaves. |
| Worker.Round | src/Command/WorkerCommand.php:42-66 | A round starts with work, makes at most three calls, all on the retrieved job, and when it raises nothing ends with markAsComplete or markAsError. |
| Worker.MarkedAsErrorExactly | src/Command/WorkerCommand.php:56-66 | A job is marked as error exactly when the try block threw an \Exception outside the library's, and that mark is the last call. |
| Worker.NonZeroCodeMarksError | src/Command/WorkerCommand.php:51-66 | A non-zero code marks the job as error. The loop is left with LogicException only under exitOnException, or when markAsError throws. |
| Worker.UncaughtRethrown | src/Command/WorkerCommand.php:56-58 | A library exception, or a TypeError, is rethrown without marking. |
| Worker.OtherExceptionMarked | src/Command/WorkerCommand.php:59-66 | Any other exception marks the job as error, and is rethrown only under exitOnException. |
| Worker.LoopReturnsZero | src/Command/WorkerCommand.php:41-69 | A loop that returns always returns 0. |
| Worker.Loop | src/Command/WorkerCommand.php:41-69 | A stopped daemon makes no call and returns 0. A running one starts with retrieve, only ever retrieves from its queue, and never sets the flag. |
| Worker.ExecuteSpec | src/Command/WorkerCommand.php:32-69 | A null queue raises InvalidArgumentException before any call. Otherwise a running daemon starts by retrieving from that queue and never retrieves from another. |
| Worker.ExecuteReturnsZero | src/Command/WorkerCommand.php:32-69 | execute answers 0 whenever it does not throw. |
| Worker.AbsorbedRunReturnsZero | src/Command/WorkerCommand.php:41-69 | Without exitOnException, a run where every failure is an ordinary exception and markAsError never throws ends with 0. |
| Worker.RunCompletes | tests/Command/WorkerCommandTest.php:46-56 | One job with code 0 is worked and completed, then the loop stops with 0. |
| Worker.LibraryExceptionOnRetrieve | tests/Command/WorkerCommandTest.php:58-69 | A library exception from retrieve is rethrown after the one retrieve call. |
| Worker.LibraryExceptionInMainLoop | tests/Command/WorkerCommandTest.php:71-86 | A library exception from markAsComplete is rethrown, and the job is never marked as error. |
| Worker.WorkerCommand.constructor | src/Command/WorkerCommand.php:25-30 | Holds the queue name, with exitOnException defaulting to false. The daemon starts running. |
| Worker.WorkerCommand.Execute | src/Command/WorkerCommand.php:32-81 | The outcome, calls and running flag are those of the loop specification. A null queue raises InvalidArgumentException before any call. A stopped daemon returns 0 at once. |
| Worker.WorkerCommand.WorkRound | src/Command/WorkerCommand.php:42-66 | One try/catch round: its calls and exception are Round's, and the flag is cleared when work clears it. |

## Left out

- **One codec.** PHP's `serialize`/`unserialize` (Beanstalk) and `json_encode`/`json_decode` (SQS) are both modelled by the single encoder in `Codec`. It uses serialize's notation for null, booleans, integers, strings and arrays. JSON's exact text, and every difference between the two formats, is not modelled. The length in `s:<length>:` counts characters, where PHP counts bytes; the two agree only for single-byte text.
- **Floats and objects.** Floating-point values and objects as job bodies are not modelled. PHP values are null, bool, int, string and ordered arrays.
- **SQL and the database.** SQL text, the database engine and concurrent monitors are not modelled. The table is a sequence of rows owned by one connection, and the UPDATE's `ORDER BY … LIMIT 1` picks any claimable row due last.
- **Time.** Clocks (`time()`, `NOW()`, `date`) are the parameter `now`. Timestamps are integers, so timestamp formatting and parsing are left out.
- **Beanstalk defaults.** The Beanstalk client's `Connection::DEFAULT_*` constants (src/Beanstalk/JobFactory.php:52-54) are taken as 0, 1024 and 60. The client library is not part of this model.
- **Broker and service.** The Beanstalk connection, the AWS SDK and the scheduler used by the queues are collaborators.
  - Their calls are recorded, not executed.
  - An SQS failure is a URL listed as failing, and a failing call throws `SqsException`, which becomes `RuntimeException`.
- **createJob.** `createJob` of both queues (src/Beanstalk/JobQueue.php:28-37, src/AwsSqs/JobQueue.php:42-51) builds a `Job` from its arguments. It is modelled where it is used, as `JobSpec.NewJob` and `Monitor.CreateJob`.
- **Getters.** `getRetrieveTimeout` and the job's getters read fields; they are the fields and `View()` here.
- **Logging and output.** Logging, console output (`writeln`), the monitor's `--log` option, `configure`, `createChildOutput` and `initialize`'s dependency lookup are left out.
- **Daemons.** The daemon base class (forking, signals) is not part of this model. The worker's `$this->continue` flag is the field `running`, because `continue` is a Dafny keyword. The worker's `getJobQueue`, `getLogger` and `logException` are left out.
- **Worker collaborators.** The worker's concrete `work($job, …)` and its queue's answers are given as a script of rounds. When the script runs out, retrieve answers null.
- **Monitor's queue.** In the monitor, the job queue's `put`, `putBatch` and the scheduler calls are taken not to throw. An exception escaping `execute` is not modelled there.
- **Batch scheduler operations.** src/Scheduler/DbScheduler.php declares no `retrieveBatch` or `removeBatch`. `Scheduler.DbScheduler.RetrieveBatch` and `Scheduler.DbScheduler.RemoveBatch` follow src/Scheduler/BatchableSchedulerInterface.php:12-14 and the scheduler's tests.
  - Claim every claimable row and return their records.
  - Delete every listed id.
- **Helper methods.** These split a loop or a method of the source into smaller methods, and none exists in the source:
  - `Scheduler.DbScheduler.ClaimEach`;
  - `Monitor.MonitorCommand.PromoteOne` and `PromoteBatch`;
  - `BeanstalkQueue.JobQueue.DecodeReservation`;
  - `Worker.WorkerCommand.WorkRound`;
  - `SqsQueue.JobQueue.GroupJobs`, `SendGroups`, `SendGroup`, `SendBatch`, `Send`, `DeleteMessageOf` and `Resend`.
- **Job ids.** Scheduler row ids are natural numbers, as the auto-increment key gives. A job id is null, an int or a string.
- **Bodies that do not round-trip.** A receipt handle or reserved id that is neither int nor string, and a body that is null, do not round-trip. The lemmas about round trips require an int or string id and a non-null body, as `isset` demands.
- Scheduler.DbScheduler.Retrieve: returns the record of the row it has just claimed, the corrected behaviour of the first Findings row. As written (src/Scheduler/DbScheduler.php:72-73), a connection that still holds an earlier claim it never removed gets that row's record instead. `Scheduler.SelectPickedBy` models that read.
- Monitor.MonitorCommand.Execute: drains the scheduler through the corrected `Scheduler.DbScheduler.Retrieve`. As written, when the connection starts out holding a claim it never removed, each round promotes the row claimed one round earlier, and the last row claimed stays claimed and is never promoted.
- Monitor.MonitorCommand.Execute: also assumes the job queue does not store into the scheduler it drains. The source wires both to one scheduler (src/Console/MonitorDependencies.php:19-23), and a queue's put of a job whose delay exceeds maximumDelay calls its scheduler's store. When minimumPickup exceeds maximumDelay (the defaults 600 and 300 do), a claimed row due more than maximumDelay ahead is stored again as a new row, which the same loop claims again. At a fixed `now` that loop never ends; in real time it re-stores the row until it is due within maximumDelay. `Scheduler.DefaultsDeferAgain` gives such a row, and `Monitor.SharedSchedulerReclaims` proves the re-claim. Under minimumPickup ≤ maximumDelay, `Monitor.PromotedJobReachesBroker` shows no promoted job is stored again.
- Monitor.MonitorCommand.PromoteSingles: holds under the same assumption that the queue does not store into the scheduler (see `Monitor.MonitorCommand.Execute` above).
- Monitor.MonitorCommand.PromoteOne: holds under the same assumption that the queue does not store into the scheduler (see `Monitor.MonitorCommand.Execute` above).
- Monitor.MonitorCommand.PromoteBatches: holds under the same assumption that the queue does not store into the scheduler (see `Monitor.MonitorCommand.Execute` above).
- Monitor.MonitorCommand.PromoteBatch: holds under the same assumption that the queue does not store into the scheduler (see `Monitor.MonitorCommand.Execute` above).
- Monitor.SingleStep: holds under the same assumption that the queue does not store into the scheduler (see `Monitor.MonitorCommand.Execute` above).
- Monitor.TableStep: holds under the same assumption that the queue does not store into the scheduler (see `Monitor.MonitorCommand.Execute` above).
- Monitor.SinglesDone: holds under the same assumption that the queue does not store into the scheduler (see `Monitor.MonitorCommand.Execute` above).
- Monitor.BatchStep: holds under the same assumption that the queue does not store into the scheduler (see `Monitor.MonitorCommand.Execute` above).
- SqsFactory.SerializeBody: its own contract states only the five-entry array encoding. That the body decodes back to the job's specification array is the lemma `SqsFactory.SerializeBodyDecodes`, because the same clause on the function makes the batching proofs that mention the body too expensive.
- SqsQueue.ReceiveOutcome: decodes with the corrected `SqsFactory.CreateFromRaw` of the third Findings row. As written, a message whose body decodes to something other than an array raises a TypeError (`SqsFactory.CreateFromRawAsWritten`) instead of JobRuntimeException.
- SqsQueue.JobQueue.Retrieve: answers through `SqsQueue.ReceiveOutcome`, so the same correction applies.
- Scheduler.DbScheduler.RemoveBatch: an id listed twice deletes one row but counts twice, so the result is false. An empty list deletes nothing and the result is true. The SQL for an empty `IN ( )` list is not modelled.
- **Batch entry ids.** `putBatch` gives each entry the id `(string)$key` (src/AwsSqs/JobQueue.php:84). `SqsBatching.EntryOf` uses the job's position in the list, which is the same key for a list. A jobs array with other keys (say `['a' => $job]`) is not modelled.
- **Array keys.** PHP stores a decimal-integer string key such as `"5"` as the int key 5. The model keeps `StrKey("5")` and `IntKey(5)` apart, and no operation of the core builds such keys.
- Jobs.Job.SetDatetimeDelay: keeps the as-written reversed subtraction (see Findings), since that is what the class does. The intended behaviour is `Jobs.DelayUntil`.

## Findings

| source | as written | input that shows it | evidently intended | confidence | as-written member | corrected member |
|---|---|---|---|---|---|---|
| src/Scheduler/DbScheduler.php:72-73 | After the UPDATE claims a row, the SELECT reads any row claimed by this connection (`WHERE picked_by = CONNECTION_ID() LIMIT 1`), with no order. | Row 1 claimed earlier by connection 7 and never removed, and row 2 due now. `retrieve()` on connection 7 claims row 2 but returns row 1's record. | Return the row the UPDATE just claimed. | not executed | Scheduler.SelectPickedBy, Scheduler.SelectPickedByReadsStaleClaim | Scheduler.DbScheduler.Retrieve |
| src/Job.php:67 | `setDatetimeDelay` computes `time() - $deadline`, clamped at 0. | A deadline 120 s in the future gives delay 0 instead of 120. A deadline in the past gives a positive delay. | Delay = deadline − now, clamped at 0, the inverse of `getDatetimeDelay`. | not executed | Jobs.SetDatetimeDelayAsWritten, Jobs.SetDatetimeDelayAsWrittenDropsFutureDeadline | Jobs.DelayUntil, Jobs.DelayUntilInvertsDatetimeDelay |
| src/AwsSqs/JobFactory.php:39 | The failure job for a payload that is not an array is built with `'queue' => false`. Under `strict_types`, `new Job(false, …)` throws a TypeError, so the JobRuntimeException below is never reached. | A message with ReceiptHandle "handle" and Body `5`: json_decode gives an int, not an array, so the factory throws a TypeError. | Throw JobRuntimeException carrying a job with the receipt handle as id, as the Beanstalk factory does with queue ''. | not executed | SqsFactory.CreateFromRawAsWritten, SqsFactory.NonArrayPayloadAsWrittenIsTypeError | SqsFactory.CreateFromRaw, SqsFactory.NonArrayPayloadRaisesJobRuntime |
