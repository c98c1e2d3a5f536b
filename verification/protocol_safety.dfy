/** Safety of the print-job protocol over every run: one invariant, kept by every event. */
module ProtocolSafety {
  import opened Results
  import opened Ordering
  import opened Store
  import opened StoreProperties
  import opened Processor
  import opened Protocol

  // ---------- The invariant, by topic ----------

  /** Incarnations are numbered apart, and history only mentions numbers already given. */
  ghost predicate SerialsFit(
    serials: map<JobId, nat>, born: nat, calls: multiset<nat>, recovered: multiset<nat>,
    committed: map<nat, Message>, cancelled: set<nat>)
  {
    && (forall a, b :: a in serials && b in serials && serials[a] == serials[b] ==> a == b)
    && (forall a :: a in serials ==> serials[a] < born)
    && (forall s :: s in calls ==> s < born)
    && (forall s :: s in recovered ==> s < born)
    && (forall s :: s in committed ==> s < born)
    && (forall s :: s in cancelled ==> s < born)
  }

  /** Started spooler calls against recoveries and the row's own counters. */
  ghost predicate CallsFit(
    jobs: map<JobId, Job>, serials: map<JobId, nat>, calls: multiset<nat>, recovered: multiset<nat>)
  {
    && (forall s :: calls[s] <= recovered[s] + 1)
    && (forall id :: id in jobs && id in serials ==>
          recovered[serials[id]] == jobs[id].recoveries && calls[serials[id]] <= jobs[id].retries)
  }

  /** A claim whose call has not started leaves room for it. */
  ghost predicate ClaimFits(jobs: map<JobId, Job>, calls: multiset<nat>, drain: Drain) {
    drain.Claimed? ==> drain.job.id in jobs && calls[drain.serial] < jobs[drain.job.id].retries
  }

  /** With the active lock free, exactly the in-flight job is active and its row is Submitting. */
  ghost predicate FlightFits(jobs: map<JobId, Job>, serials: map<JobId, nat>, active: map<JobId, bool>, drain: Drain) {
    && active.Keys == InFlight(drain)
    && ((drain.Claimed? || drain.Calling?) ==>
          && drain.job.id in jobs && drain.job.id in serials
          && jobs[drain.job.id].state == Submitting && serials[drain.job.id] == drain.serial
          && (drain.job.serial == drain.serial ==> SameDocument(jobs[drain.job.id], drain.job.row)))
  }

  predicate SameDocument(a: Job, b: Job) {
    a.payload == b.payload && a.printer == b.printer && a.key == b.key
  }

  ghost predicate CancelFits(jobs: map<JobId, Job>, serials: map<JobId, nat>, cancelled: set<nat>) {
    forall id :: id in jobs && id in serials && serials[id] in cancelled ==> jobs[id].state == Cancelled
  }

  /** What a snapshot still says about the row it was taken from, or about a later row of the same identity. */
  ghost predicate SnapshotFits(jobs: map<JobId, Job>, serials: map<JobId, nat>, born: nat, q: Queued) {
    && q.serial < born
    && (q.id in jobs ==> jobs[q.id].recoveries <= q.row.recoveries)
    && (q.id in jobs && q.id in serials && serials[q.id] == q.serial && jobs[q.id].state == Received ==> jobs[q.id] == q.row)
  }

  ghost predicate QueueFits(jobs: map<JobId, Job>, serials: map<JobId, nat>, born: nat, queue: seq<Queued>) {
    forall i :: 0 <= i < |queue| ==> SnapshotFits(jobs, serials, born, queue[i])
  }

  ghost predicate DrainFits(jobs: map<JobId, Job>, serials: map<JobId, nat>, born: nat, drain: Drain) {
    match drain
    case Idle => true
    case Draining(queue, _) => QueueFits(jobs, serials, born, queue)
    case Claimed(job, _, queue, _) => SnapshotFits(jobs, serials, born, job) && QueueFits(jobs, serials, born, queue)
    case Calling(job, _, queue, _) => SnapshotFits(jobs, serials, born, job) && QueueFits(jobs, serials, born, queue)
  }

  /** A recovered row is only ever failed for good. */
  ghost predicate FailuresFit(jobs: map<JobId, Job>) {
    forall id :: id in jobs && jobs[id].state == Failed && jobs[id].recoveries > 0 ==>
      jobs[id].error.Some? && !jobs[id].error.value.retryable
  }

  /** The report committed with a row: what it says, and where it is now. */
  ghost predicate ReportFits(id: JobId, job: Job, outbox: map<MessageId, Status>, delivered: set<Message>, report: Message) {
    && report.job == id
    && match job.state {
         case Submitted => report.kind == JobSubmitted
         case Failed => job.error.Some? && report.kind == JobFailed(job.error.value)
         case _ => false
       }
    && ((report.id in outbox && outbox[report.id].message == report) || report in delivered)
  }

  ghost predicate RowsReported(db: Db, serials: map<JobId, nat>, committed: map<nat, Message>, delivered: set<Message>) {
    forall id :: id in db.jobs && id in serials ==>
      && (db.jobs[id].state == Submitted ==> serials[id] in committed)
      && (serials[id] in committed ==> ReportFits(id, db.jobs[id], db.outbox, delivered, committed[serials[id]]))
  }

  /** Every outbox row holds the report committed with its job's row. */
  ghost predicate StatusFits(status: Status, m: MessageId, serials: map<JobId, nat>, committed: map<nat, Message>) {
    && status.id == m && status.message.id == m && status.message.job == status.job
    && status.job in serials && serials[status.job] in committed && committed[serials[status.job]] == status.message
  }

  ghost predicate OutboxReported(outbox: map<MessageId, Status>, serials: map<JobId, nat>, committed: map<nat, Message>) {
    forall m :: m in outbox ==> StatusFits(outbox[m], m, serials, committed)
  }

  ghost predicate IdentitiesFit(committed: map<nat, Message>, used: set<MessageId>) {
    && (forall s :: s in committed ==> committed[s].id in used)
    && (forall s, t :: s in committed && t in committed && committed[s].id == committed[t].id ==> s == t)
  }

  ghost predicate AllCommitted(messages: set<Message>, committed: map<nat, Message>) {
    forall m :: m in messages ==> m in committed.Values
  }

  function Outcomes(drain: Drain): seq<Message> {
    if drain.Idle? then [] else drain.outcomes
  }

  ghost predicate MemoryFits(
    outcomes: seq<Message>, reports: set<Message>, unacknowledged: set<Message>, delivered: set<Message>,
    committed: map<nat, Message>)
  {
    && AllCommitted(Messages(outcomes), committed) && AllCommitted(reports, committed)
    && AllCommitted(delivered, committed) && unacknowledged <= delivered
  }

  ghost predicate ReceiptsFit(jobs: map<JobId, Job>, receipts: set<Message>, acknowledged: set<Message>, durable: set<JobId>) {
    && jobs.Keys <= durable
    && (forall m :: m in receipts || m in acknowledged ==> m.kind == JobReceived && m.job in durable)
  }

  ghost predicate HistoryFits(db: Db, p: History) {
    && SerialsFit(p.serials, p.born, p.calls, p.recovered, p.committed, p.cancelled)
    && CallsFit(db.jobs, p.serials, p.calls, p.recovered)
    && CancelFits(db.jobs, p.serials, p.cancelled)
    && FailuresFit(db.jobs)
    && RowsReported(db, p.serials, p.committed, p.delivered)
    && OutboxReported(db.outbox, p.serials, p.committed)
    && IdentitiesFit(p.committed, p.used)
  }

  ghost predicate VolatileFits(st: State) {
    && ClaimFits(st.db.jobs, st.past.calls, st.drain)
    && FlightFits(st.db.jobs, st.past.serials, st.active, st.drain)
    && DrainFits(st.db.jobs, st.past.serials, st.past.born, st.drain)
    && MemoryFits(Outcomes(st.drain), st.reports, st.unacknowledged, st.past.delivered, st.past.committed)
    && ReceiptsFit(st.db.jobs, st.receipts, st.past.acknowledged, st.past.durable)
  }

  ghost predicate Inv(cfg: Config, st: State) {
    && WellFormed(st) && cfg.limits.maxPending >= 1 && cfg.limits.maxTerminal >= 1
    && StoreFits(st.db, cfg.limits, cfg.hash)
    && HistoryFits(st.db, st.past) && VolatileFits(st)
  }

  // ---------- Row updates ----------

  /** The row changed and its report stored, before retention. */
  function UpdatedDb(db: Db, id: JobId, c: Change, now: Time): Db
    requires id in db.jobs
  {
    Db(db.jobs[id := Changed(db.jobs[id], c, now)],
       if ReportOf(c).Some? then db.outbox[ReportOf(c).value.id := ReportOf(c).value] else db.outbox)
  }

  /** What retention may do: drop terminal rows with their outbox entries, and null terminal payloads. */
  ghost predicate Trimmed(before: Db, after: Db) {
    && after.jobs.Keys <= before.jobs.Keys
    && (forall x :: x in after.jobs ==>
          after.jobs[x] == before.jobs[x]
          || (IsTerminal(before.jobs[x].state) && after.jobs[x] == before.jobs[x].(payload := Null)))
    && (forall x :: x in before.jobs && !IsTerminal(before.jobs[x].state) ==> x in after.jobs)
    && (forall m :: m in after.outbox ==> m in before.outbox && after.outbox[m] == before.outbox[m])
    && (forall m :: m in before.outbox && before.outbox[m].job in after.jobs ==> m in after.outbox)
  }

  lemma RetainTrims(db: Db, maximum: nat, protected: Option<JobId>)
    ensures Trimmed(db, Retain(db, maximum, protected, true))
    ensures protected.Some? && protected.value in db.jobs ==> protected.value in Retain(db, maximum, protected, true).jobs
  {
    RetainKeeps(db, maximum, protected, true);
    hide Retain, Doomed;
  }

  lemma TransitionTrims(db: Db, limits: Limits, id: JobId, c: Change, now: Time)
    requires Transition(db, limits, id, c, now, true).1.Ok?
    ensures id in db.jobs && Allowed(db.jobs[id].state, Requested(c))
    ensures ReportOf(c).Some? ==> ReportOf(c).value.job == id && ReportOf(c).value.id !in db.outbox
    ensures var after := Transition(db, limits, id, c, now, true).0;
      Trimmed(UpdatedDb(db, id, c, now), after) && id in after.jobs
  {
    RetainTrims(UpdatedDb(db, id, c, now), limits.maxTerminal, Some(id));
    hide Retain;
  }

  lemma TrimKeepsCounts(before: Db, after: Db, p: History)
    requires before.jobs.Keys == p.serials.Keys && Trimmed(before, after)
    requires CallsFit(before.jobs, p.serials, p.calls, p.recovered) && CancelFits(before.jobs, p.serials, p.cancelled)
    requires FailuresFit(before.jobs)
    ensures var serials := Remaining(p.serials, after.jobs);
      && CallsFit(after.jobs, serials, p.calls, p.recovered) && CancelFits(after.jobs, serials, p.cancelled)
      && FailuresFit(after.jobs)
  {
  }

  /** Trimming keeps everything history says about the rows that stay. */
  lemma TrimKeepsHistory(before: Db, after: Db, p: History)
    requires before.jobs.Keys == p.serials.Keys && Trimmed(before, after) && HistoryFits(before, p) && OutboxFits(after)
    ensures HistoryFits(after, p.(serials := Remaining(p.serials, after.jobs)))
    ensures Remaining(p.serials, after.jobs).Keys == after.jobs.Keys
  {
    TrimKeepsCounts(before, after, p);
    TrimKeepsReports(before, after, p);
    hide CallsFit, CancelFits, FailuresFit, RowsReported, OutboxReported, IdentitiesFit;
  }

  lemma TrimKeepsReports(before: Db, after: Db, p: History)
    requires before.jobs.Keys == p.serials.Keys && Trimmed(before, after) && OutboxFits(after)
    requires RowsReported(before, p.serials, p.committed, p.delivered) && OutboxReported(before.outbox, p.serials, p.committed)
    ensures var serials := Remaining(p.serials, after.jobs);
      RowsReported(after, serials, p.committed, p.delivered) && OutboxReported(after.outbox, serials, p.committed)
  {
    var serials := Remaining(p.serials, after.jobs);
    forall id | id in after.jobs && p.serials[id] in p.committed
      ensures ReportFits(id, after.jobs[id], after.outbox, p.delivered, p.committed[p.serials[id]])
    {
      var report := p.committed[p.serials[id]];
      assert ReportFits(id, before.jobs[id], before.outbox, p.delivered, report);
      if report !in p.delivered {
        assert StatusFits(before.outbox[report.id], report.id, p.serials, p.committed);
      }
    }
  }

  lemma TrimKeepsVolatile(st: State, after: Db)
    requires WellFormed(st) && VolatileFits(st) && Trimmed(st.db, after)
    ensures VolatileFits(st.(db := after, past := st.past.(serials := Remaining(st.past.serials, after.jobs))))
  {
    hide MemoryFits;
  }

  /** What the processor guarantees of every change it asks for. */
  ghost predicate Honest(jobs: map<JobId, Job>, used: set<MessageId>, id: JobId, c: Change) {
    && (ReportOf(c).Some? ==>
          var report := ReportOf(c).value;
          report.id !in used && report.job == id && report.message.id == report.id && report.message.job == id)
    && (c.Accept? ==> c.report.Some? && c.report.value.message.kind == JobSubmitted)
    && (c.Fail? ==>
          && (c.report.Some? ==> c.report.value.message.kind == JobFailed(c.error))
          && (id in jobs && jobs[id].recoveries > 0 ==> !c.error.retryable))
  }

  /** The history of a changed row before retention. */
  function Noted(p: History, id: JobId, c: Change): History
    requires id in p.serials
  {
    if ReportOf(c).None? then p
    else p.(committed := p.committed[p.serials[id] := ReportOf(c).value.message], used := p.used + {ReportOf(c).value.id})
  }

  lemma UpdateKeepsCounts(db: Db, p: History, id: JobId, c: Change, now: Time)
    requires id in db.jobs && db.jobs.Keys == p.serials.Keys && Allowed(db.jobs[id].state, Requested(c))
    requires Honest(db.jobs, p.used, id, c)
    requires CallsFit(db.jobs, p.serials, p.calls, p.recovered) && CancelFits(db.jobs, p.serials, p.cancelled)
    requires FailuresFit(db.jobs)
    ensures var jobs := UpdatedDb(db, id, c, now).jobs;
      && CallsFit(jobs, p.serials, p.calls, p.recovered) && CancelFits(jobs, p.serials, p.cancelled) && FailuresFit(jobs)
  {
  }

  lemma ReportedAreTerminal(id: JobId, job: Job, outbox: map<MessageId, Status>, delivered: set<Message>, report: Message)
    ensures ReportFits(id, job, outbox, delivered, report) ==> IsTerminal(job.state)
  {
  }

  /** A row that may still change has no committed report. */
  lemma OpenIsUnreported(db: Db, p: History, id: JobId)
    requires id in db.jobs && id in p.serials && !IsTerminal(db.jobs[id].state)
    requires RowsReported(db, p.serials, p.committed, p.delivered)
    ensures p.serials[id] !in p.committed
  {
    if p.serials[id] in p.committed {
      ReportedAreTerminal(id, db.jobs[id], db.outbox, p.delivered, p.committed[p.serials[id]]);
    }
  }

  lemma NotedIdentities(p: History, id: JobId, c: Change)
    requires id in p.serials && p.serials[id] !in p.committed && IdentitiesFit(p.committed, p.used)
    requires ReportOf(c).Some? ==> ReportOf(c).value.id !in p.used && ReportOf(c).value.message.id == ReportOf(c).value.id
    ensures IdentitiesFit(Noted(p, id, c).committed, Noted(p, id, c).used)
  {
  }

  lemma UpdateKeepsRowsReported(db: Db, p: History, id: JobId, c: Change, now: Time)
    requires id in db.jobs && db.jobs.Keys == p.serials.Keys && Allowed(db.jobs[id].state, Requested(c))
    requires Honest(db.jobs, p.used, id, c) && IdentitiesFit(p.committed, p.used) && p.serials[id] !in p.committed
    requires forall a, b :: a in p.serials && b in p.serials && p.serials[a] == p.serials[b] ==> a == b
    requires RowsReported(db, p.serials, p.committed, p.delivered)
    ensures RowsReported(UpdatedDb(db, id, c, now), p.serials, Noted(p, id, c).committed, p.delivered)
  {
    var after, q := UpdatedDb(db, id, c, now), Noted(p, id, c);
    forall x | x in db.jobs && p.serials[x] in q.committed
      ensures ReportFits(x, after.jobs[x], after.outbox, p.delivered, q.committed[p.serials[x]])
    {
      if x != id {
        assert ReportFits(x, db.jobs[x], db.outbox, p.delivered, p.committed[p.serials[x]]);
      }
    }
  }

  lemma UpdateKeepsOutboxReported(db: Db, p: History, id: JobId, c: Change, now: Time)
    requires id in db.jobs && id in p.serials && p.serials[id] !in p.committed && Honest(db.jobs, p.used, id, c)
    requires OutboxReported(db.outbox, p.serials, p.committed)
    ensures OutboxReported(UpdatedDb(db, id, c, now).outbox, p.serials, Noted(p, id, c).committed)
  {
    var after, q := UpdatedDb(db, id, c, now), Noted(p, id, c);
    forall m | m in after.outbox ensures StatusFits(after.outbox[m], m, p.serials, q.committed) {
      if m in db.outbox {
        assert StatusFits(db.outbox[m], m, p.serials, p.committed);
      }
    }
  }

  lemma UpdateKeepsHistory(db: Db, p: History, id: JobId, c: Change, now: Time)
    requires id in db.jobs && db.jobs.Keys == p.serials.Keys && Allowed(db.jobs[id].state, Requested(c))
    requires Honest(db.jobs, p.used, id, c) && HistoryFits(db, p)
    ensures HistoryFits(UpdatedDb(db, id, c, now), Noted(p, id, c))
  {
    hide CallsFit, CancelFits, FailuresFit, RowsReported, OutboxReported, IdentitiesFit, UpdatedDb;
    OpenIsUnreported(db, p, id);
    NotedIdentities(p, id, c);
    UpdateKeepsRowsReported(db, p, id, c, now);
    UpdateKeepsOutboxReported(db, p, id, c, now);
    UpdateKeepsCounts(db, p, id, c, now);
    hide Honest, Allowed;
  }

  lemma AllCommittedGrows(messages: set<Message>, committed: map<nat, Message>, s: nat, m: Message)
    requires AllCommitted(messages, committed) && s !in committed
    ensures AllCommitted(messages, committed[s := m]) && m in committed[s := m].Values
  {
    var grown := committed[s := m];
    assert grown[s] == m;
    forall x | x in messages ensures x in grown.Values {
      var t :| t in committed && committed[t] == x;
      assert grown[t] == x;
    }
  }

  lemma UpdateKeepsMemory(st: State, id: JobId, c: Change)
    requires id in st.past.serials && st.past.serials[id] !in st.past.committed
    requires MemoryFits(Outcomes(st.drain), st.reports, st.unacknowledged, st.past.delivered, st.past.committed)
    ensures MemoryFits(Outcomes(st.drain), st.reports, st.unacknowledged, st.past.delivered, Noted(st.past, id, c).committed)
    ensures ReportOf(c).Some? ==> ReportOf(c).value.message in Noted(st.past, id, c).committed.Values
  {
    hide AllCommitted;
    if ReportOf(c).Some? {
      var s, m := st.past.serials[id], ReportOf(c).value.message;
      AllCommittedGrows(Messages(Outcomes(st.drain)), st.past.committed, s, m);
      AllCommittedGrows(st.reports, st.past.committed, s, m);
      AllCommittedGrows(st.past.delivered, st.past.committed, s, m);
    }
  }

  lemma UpdateKeepsVolatile(st: State, id: JobId, c: Change, now: Time)
    requires WellFormed(st) && id in st.db.jobs && id !in InFlight(st.drain)
    requires Allowed(st.db.jobs[id].state, Requested(c)) && st.past.serials[id] !in st.past.committed
    requires VolatileFits(st)
    ensures VolatileFits(st.(db := UpdatedDb(st.db, id, c, now), past := Noted(st.past, id, c)))
  {
    UpdateKeepsMemory(st, id, c);
    hide MemoryFits;
  }

  lemma RecordedInTwoSteps(p: History, id: JobId, c: Change, after: Db)
    requires id in p.serials
    ensures Recorded(p, id, c, after) == Noted(p, id, c).(serials := Remaining(p.serials, after.jobs))
  {
  }

  lemma StoreFitsOutbox(db: Db, limits: Limits, hash: Payload -> nat)
    requires StoreFits(db, limits, hash)
    ensures OutboxFits(db) && KeysUnique(db.jobs)
  {
  }

  /** A successful row update keeps the whole invariant. */
  lemma MoveKeepsInv(cfg: Config, st: State, id: JobId, c: Change, now: Time)
    requires Inv(cfg, st) && id !in InFlight(st.drain) && Honest(st.db.jobs, st.past.used, id, c)
    requires Transition(st.db, cfg.limits, id, c, now, true).1.Ok?
    ensures var after := Moved(cfg, st, id, c, now).0;
      Inv(cfg, after) && after == st.(db := after.db, past := after.past)
  {
    hide HistoryFits, VolatileFits, StoreFits, Transition, UpdatedDb, Noted, Recorded, Trimmed, KeysUnique;
    var after := Transition(st.db, cfg.limits, id, c, now, true).0;
    MovedFits(st.db, cfg.limits, cfg.hash, id, c, now);
    StoreFitsOutbox(after, cfg.limits, cfg.hash);
    TransitionTrims(st.db, cfg.limits, id, c, now);
    UpdateFrame(st.db, st.past, id, c, now);
    UpdateKeepsHistory(st.db, st.past, id, c, now);
    var middle := st.(db := UpdatedDb(st.db, id, c, now), past := Noted(st.past, id, c));
    OpenRowsUnreported(st.db, st.past, id);
    UpdateKeepsVolatile(st, id, c, now);
    TrimKeepsHistory(middle.db, after, middle.past);
    UpdateKeepsUnique(st.db, id, c, now);
    TrimKeepsVolatile(middle, after);
    RecordedInTwoSteps(st.past, id, c, after);
  }

  lemma UpdateFrame(db: Db, p: History, id: JobId, c: Change, now: Time)
    requires id in db.jobs && db.jobs.Keys == p.serials.Keys
    ensures UpdatedDb(db, id, c, now).jobs.Keys == db.jobs.Keys && Noted(p, id, c).serials == p.serials
  {
  }

  lemma UpdateKeepsUnique(db: Db, id: JobId, c: Change, now: Time)
    requires id in db.jobs && KeysUnique(db.jobs)
    ensures KeysUnique(UpdatedDb(db, id, c, now).jobs)
  {
  }

  lemma OpenRowsUnreported(db: Db, p: History, id: JobId)
    requires id in db.jobs && id in p.serials && !IsTerminal(db.jobs[id].state) && HistoryFits(db, p)
    ensures p.serials[id] !in p.committed
  {
    OpenIsUnreported(db, p, id);
  }

  /** What the moved row looks like afterwards. */
  lemma MovedRow(cfg: Config, st: State, id: JobId, c: Change, now: Time)
    requires WellFormed(st) && Transition(st.db, cfg.limits, id, c, now, true).1.Ok?
    ensures var after := Moved(cfg, st, id, c, now).0;
      && id in st.db.jobs && id in after.db.jobs && id in after.past.serials
      && after.past.serials[id] == st.past.serials[id]
      && after.db.jobs[id].state == Requested(c)
      && after.db.jobs[id].recoveries == st.db.jobs[id].recoveries
      && (c.Claim? ==> SameDocument(after.db.jobs[id], st.db.jobs[id]))
      && (c.Claim? ==> st.db.jobs[id].state == Received && after.db.jobs[id].retries == st.db.jobs[id].retries + 1)
      && after.past == after.past.(serials := after.past.serials, committed := after.past.committed, used := after.past.used)
      && after.past.calls == st.past.calls && after.past.born == st.past.born && after.past.cancelled == st.past.cancelled
      && (ReportOf(c).Some? ==> after.past.committed == st.past.committed[st.past.serials[id] := ReportOf(c).value.message])
  {
    TransitionTrims(st.db, cfg.limits, id, c, now);
    hide Transition;
  }
}
