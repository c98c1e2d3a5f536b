/**
 The durable job database as a value: two tables, and what each repository call
 does to them in one transaction. `Storage` runs these calls in place.
 */
module Store {
  import opened Results
  import opened Ordering

  type JobId = nat
  type MessageId = nat
  type Time = int

  /** A JSON document; `Null` is also what pruning leaves behind. */
  datatype Payload = Null | Document(content: nat)

  datatype JobState = Received | Submitting | Submitted | Failed | Cancelled

  predicate IsTerminal(s: JobState) { s.Submitted? || s.Failed? || s.Cancelled? }

  datatype ErrorCode = AgentRestarted | RecoveryUncertain | Reported(code: nat)

  datatype JobError = JobError(code: ErrorCode, retryable: bool)

  datatype Job = Job(
    key: nat, printer: nat, payload: Payload, fingerprint: nat, source: MessageId, state: JobState,
    receivedAt: Time, updatedAt: Time, retries: nat, recoveries: nat,
    receipt: Option<nat>, error: Option<JobError>)

  /** A validated delivery. */
  datatype Delivery = Delivery(
    id: JobId, key: nat, printer: nat, payload: Payload, source: MessageId, receivedAt: Time)

  datatype MessageKind = JobReceived | JobSubmitted | JobFailed(error: JobError)

  datatype Message = Message(id: MessageId, kind: MessageKind, job: JobId)

  datatype Status = Status(id: MessageId, job: JobId, message: Message, createdAt: Time)

  datatype Db = Db(jobs: map<JobId, Job>, outbox: map<MessageId, Status>)

  const EMPTY: Db := Db(map[], map[])

  datatype Limits = Limits(maxPending: nat, maxTerminal: nat)

  datatype InsertResult =
    | Inserted
    | DuplicateJob(state: JobState)
    | DuplicateIdempotency(existing: JobId, state: JobState)

  datatype StorageError =
    | QueueFull(maximum: nat)
    | JobIdentityConflict(id: JobId)
    | JobContentConflict(id: JobId)
    | InvalidTransition(id: JobId, current: JobState, requested: JobState)
    | JobNotFound(id: JobId)
    | InvalidInput
    | ConstraintViolation

  // ---------- Queries ----------

  function ReceivedJobs(jobs: map<JobId, Job>): set<JobId> {
    set id | id in jobs && jobs[id].state == Received
  }

  function Pending(jobs: map<JobId, Job>): set<JobId> {
    set id | id in jobs && !IsTerminal(jobs[id].state)
  }

  function Terminal(jobs: map<JobId, Job>): set<JobId> {
    set id | id in jobs && IsTerminal(jobs[id].state)
  }

  /** UNIQUE on the idempotency key. */
  ghost predicate KeysUnique(jobs: map<JobId, Job>) {
    forall a, b :: a in jobs && b in jobs && jobs[a].key == jobs[b].key ==> a == b
  }

  function Owners(jobs: map<JobId, Job>, key: nat): set<JobId> {
    set id | id in jobs && jobs[id].key == key
  }

  function ReceivedAt(jobs: map<JobId, Job>): map<nat, int> { map id | id in jobs :: jobs[id].receivedAt }

  function UpdatedAt(jobs: map<JobId, Job>): map<nat, int> { map id | id in jobs :: jobs[id].updatedAt }

  function CreatedAt(outbox: map<MessageId, Status>): map<nat, int> { map m | m in outbox :: outbox[m].createdAt }

  // ---------- Retention ----------

  function Pruned(jobs: map<JobId, Job>): map<JobId, Job> {
    map id | id in jobs :: if IsTerminal(jobs[id].state) then jobs[id].(payload := Null) else jobs[id]
  }

  function Excess(jobs: map<JobId, Job>, maximum: nat): nat {
    if |Terminal(jobs)| > maximum then |Terminal(jobs)| - maximum else 0
  }

  function Deletable(jobs: map<JobId, Job>, protected: Option<JobId>): set<JobId> {
    Terminal(jobs) - (if protected.Some? then {protected.value} else {})
  }

  function Prefix<T>(s: seq<T>, n: nat): seq<T> { if n < |s| then s[..n] else s }

  /** The oldest deletable rows, as many as there are too many. */
  function Doomed(jobs: map<JobId, Job>, maximum: nat, protected: Option<JobId>): (ids: set<JobId>)
    ensures Oldest(UpdatedAt(jobs), Deletable(jobs, protected), ids, Excess(jobs, maximum))
  {
    FirstN(UpdatedAt(jobs), Deletable(jobs, protected), Excess(jobs, maximum))
  }

  /** Deleting rows takes their outbox entries along: ON DELETE CASCADE. */
  function Delete(db: Db, ids: set<JobId>): Db {
    Db(map id | id in db.jobs && id !in ids :: db.jobs[id],
       map m | m in db.outbox && db.outbox[m].job !in ids :: db.outbox[m])
  }

  /** `prune` is false only for the comparison store that keeps every payload. */
  function Retain(db: Db, maximum: nat, protected: Option<JobId>, prune: bool): Db {
    Delete(db.(jobs := if prune then Pruned(db.jobs) else db.jobs), Doomed(db.jobs, maximum, protected))
  }

  // ---------- Repository calls ----------

  function Accepted(d: Delivery, hash: Payload -> nat): Job {
    Job(d.key, d.printer, d.payload, hash(d.payload), d.source, Received, d.receivedAt, d.receivedAt, 0, 0, None, None)
  }

  predicate SameContent(job: Job, d: Delivery, hash: Payload -> nat) {
    job.printer == d.printer
    && if job.payload == Null then job.fingerprint == hash(d.payload) else job.payload == d.payload
  }

  function InsertReceived(db: Db, limits: Limits, hash: Payload -> nat, d: Delivery): (r: (Db, Result<InsertResult, StorageError>))
    requires KeysUnique(db.jobs)
  {
    if d.id in db.jobs then
      var job := db.jobs[d.id];
      if job.key != d.key then (db, Err(JobIdentityConflict(d.id)))
      else if !SameContent(job, d, hash) then (db, Err(JobContentConflict(d.id)))
      else (db, Ok(DuplicateJob(job.state)))
    else if Owners(db.jobs, d.key) != {} then
      var owner :| owner in Owners(db.jobs, d.key);
      (db, Ok(DuplicateIdempotency(owner, db.jobs[owner].state)))
    else if |Pending(db.jobs)| >= limits.maxPending then (db, Err(QueueFull(limits.maxPending)))
    else (db.(jobs := db.jobs[d.id := Accepted(d, hash)]), Ok(Inserted))
  }

  /** The five lifecycle changes the repository offers. */
  datatype Change =
    | Claim
    | Accept(receipt: nat, report: Option<Status>)
    | Fail(error: JobError, report: Option<Status>)
    | Cancel

  function Requested(c: Change): JobState {
    match c case Claim => Submitting case Accept(_, _) => Submitted case Fail(_, _) => Failed case Cancel => Cancelled
  }

  function ReportOf(c: Change): Option<Status> {
    if c.Accept? || c.Fail? then c.report else None
  }

  predicate Allowed(current: JobState, requested: JobState) {
    match requested
    case Submitting => current == Received
    case Submitted => current == Submitting
    case Failed => current == Received || current == Submitting
    case Cancelled => current == Received || current == Submitting
    case Received => false
  }

  function Changed(job: Job, c: Change, now: Time): Job {
    job.(
      state := Requested(c),
      updatedAt := now,
      retries := job.retries + (if c.Claim? then 1 else 0),
      receipt := if c.Accept? then Some(c.receipt) else job.receipt,
      error := if c.Fail? then Some(c.error) else None)
  }

  function Transition(db: Db, limits: Limits, id: JobId, c: Change, now: Time, prune: bool): (Db, Result<(), StorageError>) {
    if ReportOf(c).Some? && ReportOf(c).value.job != id then (db, Err(InvalidInput))
    else if id !in db.jobs then (db, Err(JobNotFound(id)))
    else if !Allowed(db.jobs[id].state, Requested(c)) then
      (db, Err(InvalidTransition(id, db.jobs[id].state, Requested(c))))
    else if ReportOf(c).Some? && ReportOf(c).value.id in db.outbox then (db, Err(ConstraintViolation))
    else
      var jobs := db.jobs[id := Changed(db.jobs[id], c, now)];
      var outbox := if ReportOf(c).Some? then db.outbox[ReportOf(c).value.id := ReportOf(c).value] else db.outbox;
      if IsTerminal(Requested(c)) then (Retain(Db(jobs, outbox), limits.maxTerminal, Some(id), prune), Ok(()))
      else (Db(jobs, outbox), Ok(()))
  }

  function Restarted(job: Job, now: Time): Job {
    if job.state != Submitting then job
    else job.(
      state := Received, recoveries := job.recoveries + 1, updatedAt := now,
      error := Some(JobError(AgentRestarted, true)))
  }

  function RecoverInterrupted(db: Db, now: Time): Db {
    db.(jobs := map id | id in db.jobs :: Restarted(db.jobs[id], now))
  }

  function Acknowledge(db: Db, m: MessageId): (Db, bool) {
    (db.(outbox := db.outbox - {m}), m in db.outbox)
  }

  /** Received rows, oldest first. */
  function PendingIds(db: Db): seq<JobId> {
    InOrder(ReceivedAt(db.jobs), ReceivedJobs(db.jobs))
  }

  /** The oldest outbox rows. */
  function OutboxIds(db: Db, limit: nat): seq<MessageId> {
    Prefix(InOrder(CreatedAt(db.outbox), db.outbox.Keys), limit)
  }
}
