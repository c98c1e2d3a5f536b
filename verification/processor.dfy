/** What the job processor decides between its repository calls: pure pieces of `JobProcessor`. */
module Processor {
  import opened Results
  import opened Store

  /** What one spooler submission returns. */
  datatype SpoolerResult = Taken(receipt: nat) | Refused(error: JobError) | Interrupted

  datatype CancelOutcome = CancellationRequested | CancelledNow | NotFound | AlreadyTerminal(state: JobState)

  datatype ProcessOutcome =
    | DidSubmit(id: JobId, message: Message)
    | DidFail(id: JobId, report: Option<Message>)
    | DidCancel(id: JobId)
    | Skipped(id: JobId, state: JobState)

  /** What `submit` and the failure paths answer once their change is committed. */
  function OutcomeOf(id: JobId, c: Change): ProcessOutcome {
    match c
    case Accept(_, Some(status)) => DidSubmit(id, status.message)
    case Fail(_, Some(status)) => DidFail(id, Some(status.message))
    case Fail(_, None) => DidFail(id, None)
    case _ => DidCancel(id)
  }

  /** The report an outcome carries, if any. */
  function MessageOf(outcome: ProcessOutcome): seq<Message> {
    match outcome
    case DidSubmit(_, message) => [message]
    case DidFail(_, Some(message)) => [message]
    case _ => []
  }

  function MessagesOf(outcomes: seq<ProcessOutcome>): seq<Message> {
    if outcomes == [] then [] else MessagesOf(outcomes[..|outcomes| - 1]) + MessageOf(outcomes[|outcomes| - 1])
  }

  lemma OneMoreOutcome(outcomes: seq<ProcessOutcome>, outcome: ProcessOutcome)
    ensures MessagesOf(outcomes + [outcome]) == MessagesOf(outcomes) + MessageOf(outcome)
  {
    assert (outcomes + [outcome])[..|outcomes|] == outcomes;
  }

  /** A receipt is made for a new row and for an exact redelivery, never for a reused key. */
  function Acknowledgement(inserted: Result<InsertResult, StorageError>, id: JobId, ack: MessageId): (r: Result<Option<Message>, StorageError>)
    ensures inserted.Err? <==> r.Err?
    ensures r.Ok? ==> (r.value.None? <==> inserted.value.DuplicateIdempotency?)
  {
    match inserted
    case Ok(DuplicateIdempotency(_, _)) => Ok(None)
    case Ok(_) => Ok(Some(Message(ack, JobReceived, id)))
    case Err(error) => Err(error)
  }

  /** After a recovery an earlier attempt may have printed, so the failure is never retryable. */
  function RecoveryAware(stored: Job, error: JobError): (r: JobError)
    ensures stored.recoveries > 0 ==> !r.retryable && r.code.RecoveryUncertain?
    ensures stored.recoveries == 0 ==> r == error
  {
    if stored.recoveries == 0 then error else JobError(RecoveryUncertain, false)
  }

  function StatusOf(m: MessageId, id: JobId, kind: MessageKind, at: Time): Status {
    Status(m, id, Message(m, kind, id), at)
  }

  /** The durable failure of a job, with its report unless its payload cannot be read back. */
  function FailureChange(stored: Job, error: JobError, id: JobId, report: Option<MessageId>, at: Time): Change {
    var e := RecoveryAware(stored, error);
    Fail(e, if report.Some? then Some(StatusOf(report.value, id, JobFailed(e), at)) else None)
  }

  /** What a finished submission commits; acceptance wins over a cancellation requested meanwhile. */
  function ChangeAfterCall(stored: Job, result: SpoolerResult, cancelled: bool, id: JobId, report: MessageId, at: Time): Change {
    match result
    case Taken(receipt) => Accept(receipt, Some(StatusOf(report, id, JobSubmitted, at)))
    case Interrupted => Cancel
    case Refused(error) =>
      if cancelled then Cancel else FailureChange(stored, error, id, Some(report), at)
  }

  // ---------- What surrounds the processor ----------

  /** What parsing, validation, printer resolution and rendering of a stored job come to. */
  datatype Preparation = Unreadable | Refusal(error: JobError) | Ready

  const INVALID_PERSISTED: JobError := JobError(Reported(0), false)

  datatype Environment = Environment(
    prepare: Job -> Preparation, submit: Job -> SpoolerResult, freshId: nat -> MessageId, clock: nat -> Time)

  /** How an undisturbed drain ends the job it reads as the k-th. */
  function Expected(env: Environment, id: JobId, row: Job, k: nat): ProcessOutcome {
    var failed := (error: JobError) => Message(env.freshId(k), JobFailed(RecoveryAware(row, error)), id);
    match env.prepare(row)
    case Unreadable => DidFail(id, None)
    case Refusal(error) => DidFail(id, Some(failed(error)))
    case Ready =>
      match env.submit(row)
      case Taken(_) => DidSubmit(id, Message(env.freshId(k), JobSubmitted, id))
      case Interrupted => DidCancel(id)
      case Refused(error) => DidFail(id, Some(failed(error)))
  }
}
