/**
 The durable print-job protocol as a state machine. Each event is one lock region
 or repository call; events carry what the environment chooses (times, fresh
 message identities, the spooler's answer, storage faults). An event that is not
 enabled changes nothing.
 */
module Protocol {
  import opened Results
  import opened Ordering
  import opened Store
  import opened StoreProperties
  import opened Processor

  datatype Config = Config(limits: Limits, hash: Payload -> nat)

  /** A row as the drain read it; `serial` tells incarnations of one identity apart. */
  datatype Queued = Queued(id: JobId, row: Job, serial: nat)

  /** What the holder of the drain lock is doing. */
  datatype Drain =
    | Idle
    | Draining(queue: seq<Queued>, outcomes: seq<Message>)
    | Claimed(job: Queued, serial: nat, queue: seq<Queued>, outcomes: seq<Message>)
    | Calling(job: Queued, serial: nat, queue: seq<Queued>, outcomes: seq<Message>)

  /** What has ever happened; nothing in the program reads it. */
  datatype History = History(
    serials: map<JobId, nat>,      // the incarnation of each row in the table
    born: nat,                     // rows ever inserted
    calls: multiset<nat>,          // spooler calls started, by incarnation
    recovered: multiset<nat>,      // recoveries, by incarnation
    cancelled: set<nat>,           // incarnations for which cancel_job answered Cancelled
    committed: map<nat, Message>,  // the terminal report committed with an incarnation
    delivered: set<Message>,       // terminal reports the reporter accepted
    acknowledged: set<Message>,    // receipts the reporter accepted
    durable: set<JobId>,           // identities ever inserted
    used: set<MessageId>)          // message identities handed out

  /** `db` survives a crash, `past` is bookkeeping, the rest is memory. */
  datatype State = State(
    db: Db, active: map<JobId, bool>, drain: Drain,
    receipts: set<Message>, reports: set<Message>, unacknowledged: set<Message>,
    past: History)

  const INITIAL: State :=
    State(EMPTY, map[], Idle, {}, {}, {},
      History(map[], 0, multiset{}, multiset{}, {}, map[], {}, {}, {}, {}))

  datatype Event =
    | Deliver(delivery: Delivery, ack: MessageId)
    | Reacknowledge(id: JobId, ack: MessageId)
    | SendReceipt(receipt: Message, accepted: bool)
    | BeginDrain
    | FailEarly(error: JobError, report: Option<MessageId>, at: Time, now: Time, fault: bool)
    | ClaimNext(now: Time, fault: bool)
    | StartCall
    | FinishCall(result: SpoolerResult, reportId: MessageId, at: Time, now: Time, fault: bool)
    | EndDrain
    | CancelJob(id: JobId, now: Time, fault: bool)
    | RecoverJobs(now: Time)
    | ReadOutbox(limit: nat)
    | SendReport(message: Message, accepted: bool)
    | AckReport(message: Message, fault: bool)
    | EnforceRetention
    | Crash

  ghost predicate WellFormed(st: State) {
    KeysUnique(st.db.jobs) && st.past.serials.Keys == st.db.jobs.Keys
  }

  function InFlight(d: Drain): set<JobId> {
    if d.Claimed? || d.Calling? then {d.job.id} else {}
  }

  // ---------- Bookkeeping ----------

  function Remaining(serials: map<JobId, nat>, jobs: map<JobId, Job>): map<JobId, nat> {
    map id | id in serials && id in jobs :: serials[id]
  }

  function Recorded(p: History, id: JobId, c: Change, after: Db): History
    requires id in p.serials
  {
    var kept := p.(serials := Remaining(p.serials, after.jobs));
    if ReportOf(c).None? then kept
    else kept.(committed := p.committed[p.serials[id] := ReportOf(c).value.message], used := p.used + {ReportOf(c).value.id})
  }

  function Claiming(jobs: map<JobId, Job>): set<JobId> {
    set id | id in jobs && jobs[id].state == Submitting
  }

  function SerialsOf(serials: map<JobId, nat>, ids: set<JobId>): set<nat>
    requires ids <= serials.Keys
  {
    set id | id in ids :: serials[id]
  }

  function ReportMessages(c: Change): seq<Message> {
    if ReportOf(c).Some? then [ReportOf(c).value.message] else []
  }

  // ---------- Steps ----------

  /** A conditional row update with its bookkeeping. */
  ghost function Moved(cfg: Config, st: State, id: JobId, c: Change, now: Time): (State, Result<(), StorageError>)
    requires WellFormed(st)
  {
    var (after, r) := Transition(st.db, cfg.limits, id, c, now, true);
    if r.Err? then (st, r)
    else (st.(db := after, past := Recorded(st.past, id, c, after)), r)
  }

  /** `receive_print_job`: the acknowledgement is made only once the row is committed. */
  ghost function AfterDelivery(cfg: Config, st: State, d: Delivery, ack: MessageId): State
    requires WellFormed(st)
  {
    if ack in st.past.used then st else
    var (after, r) := InsertReceived(st.db, cfg.limits, cfg.hash, d);
    if r.Err? || r.value.DuplicateIdempotency? then st
    else
      var acked := st.(receipts := st.receipts + {Message(ack, JobReceived, d.id)});
      var p := st.past.(used := st.past.used + {ack});
      if r.value.DuplicateJob? then acked.(past := p)
      else acked.(db := after, past := p.(
             serials := p.serials[d.id := p.born], born := p.born + 1, durable := p.durable + {d.id}))
  }

  /** The rows as one read returns them. */
  function Listed(ids: seq<JobId>, jobs: map<JobId, Job>, serials: map<JobId, nat>): seq<Queued>
    requires forall i :: 0 <= i < |ids| ==> ids[i] in jobs && ids[i] in serials
  {
    seq(|ids|, i requires 0 <= i < |ids| => Queued(ids[i], jobs[ids[i]], serials[ids[i]]))
  }

  lemma PendingAreReceived(db: Db)
    ensures forall i :: 0 <= i < |PendingIds(db)| ==> PendingIds(db)[i] in ReceivedJobs(db.jobs)
  {
    var ids := PendingIds(db);
    assert forall x :: x in ids <==> x in ReceivedJobs(db.jobs);
    hide *;
    assert forall i :: 0 <= i < |ids| ==> ids[i] in ids;
  }

  ghost function Snapshot(st: State): seq<Queued>
    requires WellFormed(st)
  {
    PendingAreReceived(st.db);
    Listed(PendingIds(st.db), st.db.jobs, st.past.serials)
  }

  /** `persist_failure` and its unreportable form; any storage error ends the drain. */
  ghost function FailedEarly(cfg: Config, st: State, e: Event): State
    requires WellFormed(st) && e.FailEarly?
  {
    if !st.drain.Draining? || st.drain.queue == [] || (e.report.Some? && e.report.value in st.past.used) then st else
    var job := st.drain.queue[0];
    var c := FailureChange(job.row, e.error, job.id, e.report, e.at);
    var (moved, r) := Moved(cfg, st, job.id, c, e.now);
    if e.fault then st.(drain := Idle)
    else if r.Err? then st.(drain := Idle)
    else moved.(drain := Draining(st.drain.queue[1..],
      st.drain.outcomes + ReportMessages(c)))
  }

  /** The first lock region of `submit`: the claim and the active entry appear together. */
  ghost function ClaimedNext(cfg: Config, st: State, now: Time, fault: bool): State
    requires WellFormed(st)
  {
    if !st.drain.Draining? || st.drain.queue == [] then st else
    var job := st.drain.queue[0];
    var (moved, r) := Moved(cfg, st, job.id, Claim, now);
    if fault then st.(drain := Idle)
    else if r.Err? && r.error.InvalidTransition? then st.(drain := Draining(st.drain.queue[1..], st.drain.outcomes))
    else if r.Err? then st.(drain := Idle)
    else moved.(
      active := st.active[job.id := false],
      drain := Claimed(job, if job.id in st.past.serials then st.past.serials[job.id] else 0,
                       st.drain.queue[1..], st.drain.outcomes))
  }

  function CallStarted(st: State): State {
    if !st.drain.Claimed? then st
    else st.(drain := Calling(st.drain.job, st.drain.serial, st.drain.queue, st.drain.outcomes),
             past := st.past.(calls := st.past.calls + multiset{st.drain.serial}))
  }

  /** The second lock region of `submit`: the terminal commit, then the active entry goes. */
  ghost function CallFinished(cfg: Config, st: State, e: Event): State
    requires WellFormed(st) && e.FinishCall?
  {
    if !st.drain.Calling? || e.reportId in st.past.used then st else
    var job := st.drain.job;
    var c := ChangeAfterCall(job.row, e.result, job.id in st.active && st.active[job.id], job.id, e.reportId, e.at);
    var (moved, r) := Moved(cfg, st, job.id, c, e.now);
    if e.fault || r.Err? then st.(active := st.active - {job.id}, drain := Idle)
    else moved.(
      active := st.active - {job.id},
      drain := Draining(st.drain.queue,
        st.drain.outcomes + ReportMessages(c)))
  }

  /** `cancel_job`: under the active lock, either a token or a durable cancellation. */
  ghost function CancelRequested(cfg: Config, st: State, id: JobId, now: Time, fault: bool): (State, Result<CancelOutcome, StorageError>)
    requires WellFormed(st)
  {
    if id in st.active then (st.(active := st.active[id := true]), Ok(CancellationRequested))
    else if fault then (st, Err(ConstraintViolation))
    else
      var (moved, r) := Moved(cfg, st, id, Cancel, now);
      if r.Ok? then
        (moved.(past := moved.past.(cancelled := moved.past.cancelled +
           (if id in st.past.serials then {st.past.serials[id]} else {}))), Ok(CancelledNow))
      else if r.error.JobNotFound? then (st, Ok(NotFound))
      else if r.error.InvalidTransition? && IsTerminal(r.error.current) then (st, Ok(AlreadyTerminal(r.error.current)))
      else (st, Err(r.error))
  }

  /** `recover_interrupted_inner` needs the drain lock. */
  function RecoveredJobs(st: State, now: Time): State {
    if !st.drain.Idle? then st
    else st.(db := Store.RecoverInterrupted(st.db, now),
             past := st.past.(recovered := st.past.recovered
               + multiset(SerialsOf(st.past.serials, Claiming(st.db.jobs) * st.past.serials.Keys))))
  }

  function Messages(s: seq<Message>): set<Message> { set m | m in s }

  function OutboxMessages(db: Db, limit: nat): set<Message> {
    set m | m in OutboxIds(db, limit) && m in db.outbox :: db.outbox[m].message
  }

  function Retained(st: State, after: Db): State {
    st.(db := after, past := st.past.(serials := Remaining(st.past.serials, after.jobs)))
  }

  ghost function Next(cfg: Config, st: State, e: Event): State
    requires WellFormed(st)
  {
    match e
    case Deliver(d, ack) => AfterDelivery(cfg, st, d, ack)
    case Reacknowledge(id, ack) =>
      if ack in st.past.used || id !in ReceivedJobs(st.db.jobs) then st
      else st.(receipts := st.receipts + {Message(ack, JobReceived, id)}, past := st.past.(used := st.past.used + {ack}))
    case SendReceipt(m, accepted) =>
      if m !in st.receipts then st
      else if !accepted then st.(receipts := st.receipts - {m})
      else st.(receipts := st.receipts - {m}, past := st.past.(acknowledged := st.past.acknowledged + {m}))
    case BeginDrain => if st.drain.Idle? then st.(drain := Draining(Snapshot(st), [])) else st
    case FailEarly(_, _, _, _, _) => FailedEarly(cfg, st, e)
    case ClaimNext(now, fault) => ClaimedNext(cfg, st, now, fault)
    case StartCall => CallStarted(st)
    case FinishCall(_, _, _, _, _) => CallFinished(cfg, st, e)
    case EndDrain =>
      if st.drain.Draining? && st.drain.queue == []
      then st.(drain := Idle, reports := st.reports + Messages(st.drain.outcomes)) else st
    case CancelJob(id, now, fault) => CancelRequested(cfg, st, id, now, fault).0
    case RecoverJobs(now) => RecoveredJobs(st, now)
    case ReadOutbox(limit) => st.(reports := st.reports + OutboxMessages(st.db, limit))
    case SendReport(m, accepted) =>
      if m !in st.reports then st
      else if !accepted then st.(reports := st.reports - {m})
      else st.(reports := st.reports - {m}, unacknowledged := st.unacknowledged + {m},
               past := st.past.(delivered := st.past.delivered + {m}))
    case AckReport(m, fault) =>
      if m !in st.unacknowledged then st
      else if fault then st.(unacknowledged := st.unacknowledged - {m})
      else st.(unacknowledged := st.unacknowledged - {m}, db := Acknowledge(st.db, m.id).0)
    case EnforceRetention => Retained(st, Retain(st.db, cfg.limits.maxTerminal, None, true))
    case Crash =>
      State(st.db, map[], Idle, {}, {}, {}, st.past)
  }
}
