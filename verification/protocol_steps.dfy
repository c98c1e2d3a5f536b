/** Every event of the protocol keeps the invariant. */
module ProtocolSteps {
  import opened Results
  import opened Ordering
  import opened Store
  import opened StoreProperties
  import opened Processor
  import opened Protocol
  import opened ProtocolSafety

  // ---------- Receiving ----------

  lemma InsertedRow(db: Db, limits: Limits, hash: Payload -> nat, d: Delivery)
    requires KeysUnique(db.jobs)
    ensures var (after, r) := InsertReceived(db, limits, hash, d);
      && (r == Ok(Inserted) ==> d.id !in db.jobs && after == db.(jobs := db.jobs[d.id := Accepted(d, hash)]))
      && (r != Ok(Inserted) ==> after == db)
      && (r.Ok? && r.value.DuplicateJob? ==> d.id in db.jobs)
  {
  }

  lemma BornKeepsHistory(db: Db, p: History, id: JobId, job: Job, durable: set<JobId>, used: set<MessageId>)
    requires db.jobs.Keys == p.serials.Keys && HistoryFits(db, p) && id !in db.jobs && p.used <= used
    requires job.state == Received && job.recoveries == 0
    ensures HistoryFits(db.(jobs := db.jobs[id := job]),
      p.(serials := p.serials[id := p.born], born := p.born + 1, durable := durable, used := used))
  {
    BornKeepsCounts(db.jobs, p, id, job);
    BornKeepsReports(db, p, id, job);
    hide CallsFit, CancelFits, FailuresFit, RowsReported, OutboxReported;
  }

  lemma BornKeepsCounts(jobs: map<JobId, Job>, p: History, id: JobId, job: Job)
    requires jobs.Keys == p.serials.Keys && id !in jobs && job.state == Received && job.recoveries == 0
    requires SerialsFit(p.serials, p.born, p.calls, p.recovered, p.committed, p.cancelled)
    requires CallsFit(jobs, p.serials, p.calls, p.recovered) && CancelFits(jobs, p.serials, p.cancelled) && FailuresFit(jobs)
    ensures var after, serials := jobs[id := job], p.serials[id := p.born];
      && CallsFit(after, serials, p.calls, p.recovered) && CancelFits(after, serials, p.cancelled) && FailuresFit(after)
  {
    assert p.born !in p.calls && p.born !in p.recovered;
  }

  lemma BornKeepsReports(db: Db, p: History, id: JobId, job: Job)
    requires db.jobs.Keys == p.serials.Keys && id !in db.jobs && job.state == Received
    requires forall s :: s in p.committed ==> s < p.born
    requires RowsReported(db, p.serials, p.committed, p.delivered) && OutboxReported(db.outbox, p.serials, p.committed)
    ensures var serials := p.serials[id := p.born];
      && RowsReported(db.(jobs := db.jobs[id := job]), serials, p.committed, p.delivered)
      && OutboxReported(db.outbox, serials, p.committed)
  {
    hide ReportFits;
    forall m | m in db.outbox ensures StatusFits(db.outbox[m], m, p.serials[id := p.born], p.committed) {
      assert StatusFits(db.outbox[m], m, p.serials, p.committed);
    }
  }

  lemma BornKeepsVolatile(st: State, id: JobId, job: Job, after: State)
    requires WellFormed(st) && VolatileFits(st) && id !in st.db.jobs && job.recoveries == 0
    requires after.db == st.db.(jobs := st.db.jobs[id := job]) && after.active == st.active && after.drain == st.drain
    requires after.reports == st.reports && after.unacknowledged == st.unacknowledged
    requires after.past == st.past.(serials := st.past.serials[id := st.past.born], born := st.past.born + 1,
      durable := st.past.durable + {id}, used := after.past.used)
    requires forall m :: m in after.receipts ==> m in st.receipts || (m.kind == JobReceived && m.job == id)
    ensures VolatileFits(after)
  {
    hide MemoryFits;
  }

  lemma UsedGrows(db: Db, p: History, used: set<MessageId>)
    requires HistoryFits(db, p) && p.used <= used
    ensures HistoryFits(db, p.(used := used))
  {
    hide SerialsFit, CallsFit, CancelFits, FailuresFit, RowsReported, OutboxReported;
  }

  /** Another receipt in hand for a row that exists. */
  lemma ReceiptKeepsInv(cfg: Config, st: State, id: JobId, ack: MessageId)
    requires Inv(cfg, st) && id in st.db.jobs
    ensures Inv(cfg, st.(receipts := st.receipts + {Message(ack, JobReceived, id)},
                         past := st.past.(used := st.past.used + {ack})))
  {
    hide StoreFits, HistoryFits, ClaimFits, FlightFits, DrainFits, MemoryFits;
    UsedGrows(st.db, st.past, st.past.used + {ack});
  }

  lemma InsertKeepsInv(cfg: Config, st: State, d: Delivery, ack: MessageId, job: Job)
    requires Inv(cfg, st) && d.id !in st.db.jobs && job.state == JobState.Received && job.recoveries == 0
    requires StoreFits(st.db.(jobs := st.db.jobs[d.id := job]), cfg.limits, cfg.hash)
    ensures Inv(cfg, st.(db := st.db.(jobs := st.db.jobs[d.id := job]),
      receipts := st.receipts + {Message(ack, JobReceived, d.id)},
      past := st.past.(serials := st.past.serials[d.id := st.past.born], born := st.past.born + 1,
                       durable := st.past.durable + {d.id}, used := st.past.used + {ack})))
  {
    hide HistoryFits, VolatileFits, StoreFits, KeysUnique;
    var db := st.db.(jobs := st.db.jobs[d.id := job]);
    StoreFitsOutbox(db, cfg.limits, cfg.hash);
    var past := st.past.(serials := st.past.serials[d.id := st.past.born], born := st.past.born + 1,
                         durable := st.past.durable + {d.id}, used := st.past.used + {ack});
    BornKeepsHistory(st.db, st.past, d.id, job, past.durable, past.used);
    BornKeepsVolatile(st, d.id, job,
      st.(db := db, receipts := st.receipts + {Message(ack, JobReceived, d.id)}, past := past));
  }

  lemma InvImplies(cfg: Config, st: State)
    requires Inv(cfg, st)
    ensures WellFormed(st) && StoreFits(st.db, cfg.limits, cfg.hash) && HistoryFits(st.db, st.past) && VolatileFits(st)
    ensures cfg.limits.maxTerminal >= 1
  {
  }

  lemma DeliverKeepsInv(cfg: Config, st: State, d: Delivery, ack: MessageId)
    requires Inv(cfg, st)
    ensures WellFormed(st) && Inv(cfg, AfterDelivery(cfg, st, d, ack))
  {
    hide Inv, InsertReceived, StoreFits, HistoryFits, VolatileFits, KeysUnique;
    InvImplies(cfg, st);
    InsertedRow(st.db, cfg.limits, cfg.hash, d);
    InsertFits(st.db, cfg.limits, cfg.hash, d);
    AcceptedFits(d, cfg.hash);
    var r := InsertReceived(st.db, cfg.limits, cfg.hash, d).1;
    if ack !in st.past.used && r == Ok(Inserted) {
      InsertKeepsInv(cfg, st, d, ack, Store.Accepted(d, cfg.hash));
    } else if ack !in st.past.used && r.Ok? && r.value.DuplicateJob? {
      ReceiptKeepsInv(cfg, st, d.id, ack);
    }
  }

  lemma SendReceiptKeepsInv(cfg: Config, st: State, m: Message, accepted: bool)
    requires Inv(cfg, st)
    ensures Inv(cfg, Next(cfg, st, SendReceipt(m, accepted)))
  {
    hide StoreFits, ClaimFits, FlightFits, DrainFits, MemoryFits, KeysUnique;
    hide SerialsFit, CallsFit, CancelFits, FailuresFit, RowsReported, OutboxReported, IdentitiesFit;
  }

  // ---------- The drain ----------

  lemma SnapshotFitsNow(st: State)
    requires WellFormed(st) && SerialsFit(st.past.serials, st.past.born, st.past.calls, st.past.recovered,
                                          st.past.committed, st.past.cancelled)
    ensures QueueFits(st.db.jobs, st.past.serials, st.past.born, Snapshot(st))
  {
    PendingAreReceived(st.db);
    hide PendingIds;
  }

  lemma BeginDrainKeepsInv(cfg: Config, st: State)
    requires Inv(cfg, st)
    ensures Inv(cfg, Next(cfg, st, BeginDrain))
  {
    hide StoreFits, KeysUnique, PendingIds, ReceiptsFit, SerialsFit;
    hide CallsFit, CancelFits, FailuresFit, RowsReported, OutboxReported, IdentitiesFit;
    if st.drain.Idle? {
      SnapshotFitsNow(st);
      hide QueueFits, Snapshot, AllCommitted;
      assert Messages([]) == {};
    }
  }

  lemma QueueTail(jobs: map<JobId, Job>, serials: map<JobId, nat>, born: nat, queue: seq<Queued>)
    requires queue != [] && QueueFits(jobs, serials, born, queue)
    ensures SnapshotFits(jobs, serials, born, queue[0]) && QueueFits(jobs, serials, born, queue[1..])
  {
    hide SnapshotFits;
  }

  lemma OutcomeAppended(
    outcomes: seq<Message>, more: seq<Message>, reports: set<Message>, unacknowledged: set<Message>, delivered: set<Message>,
    committed: map<nat, Message>)
    requires MemoryFits(outcomes, reports, unacknowledged, delivered, committed)
    requires forall m :: m in more ==> m in committed.Values
    ensures MemoryFits(outcomes + more, reports, unacknowledged, delivered, committed)
  {
    assert Messages(outcomes + more) == Messages(outcomes) + Messages(more);
  }

  /** Letting go of the in-flight job, or of the whole drain, keeps the invariant. */
  lemma LeaveFlight(cfg: Config, st: State, drain: Drain)
    requires Inv(cfg, st)
    requires drain.Idle? || (drain.Draining? && st.drain.Calling? && drain == Draining(st.drain.queue, st.drain.outcomes))
    ensures Inv(cfg, st.(active := st.active - InFlight(st.drain), drain := drain))
  {
    hide StoreFits, HistoryFits, KeysUnique, QueueFits, SnapshotFits, ReceiptsFit;
    assert Messages([]) == {};
  }

  /** Moving on to the next queued job with more outcomes in hand. */
  lemma AdvanceKeepsInv(cfg: Config, st: State, more: seq<Message>)
    requires Inv(cfg, st) && st.drain.Draining? && st.drain.queue != []
    requires forall m :: m in more ==> m in st.past.committed.Values
    ensures Inv(cfg, st.(drain := Draining(st.drain.queue[1..], st.drain.outcomes + more)))
  {
    hide StoreFits, HistoryFits, KeysUnique, QueueFits, SnapshotFits, ReceiptsFit, MemoryFits;
    QueueTail(st.db.jobs, st.past.serials, st.past.born, st.drain.queue);
    OutcomeAppended(st.drain.outcomes, more, st.reports, st.unacknowledged, st.past.delivered, st.past.committed);
  }

  /** A committed report is among the committed messages. */
  lemma ReportCommitted(cfg: Config, st: State, id: JobId, c: Change, now: Time)
    requires WellFormed(st) && Transition(st.db, cfg.limits, id, c, now, true).1.Ok?
    ensures forall m :: m in ReportMessages(c) ==> m in Moved(cfg, st, id, c, now).0.past.committed.Values
  {
    MovedRow(cfg, st, id, c, now);
    hide Transition, Moved;
    if ReportOf(c).Some? {
      var committed := st.past.committed[st.past.serials[id] := ReportOf(c).value.message];
      assert committed[st.past.serials[id]] in committed.Values;
    }
  }

  lemma HonestFailure(cfg: Config, st: State, job: Queued, error: JobError, report: Option<MessageId>, at: Time)
    requires SnapshotFits(st.db.jobs, st.past.serials, st.past.born, job)
    requires report.Some? ==> report.value !in st.past.used
    ensures Honest(st.db.jobs, st.past.used, job.id, FailureChange(job.row, error, job.id, report, at))
  {
  }

  lemma {:induction false} FailEarlyKeepsInv(cfg: Config, st: State, e: Event)
    requires Inv(cfg, st) && e.FailEarly?
    ensures WellFormed(st) && Inv(cfg, FailedEarly(cfg, st, e))
  {
    InvImplies(cfg, st);
    if st.drain.Draining? && st.drain.queue != [] && (e.report.Some? ==> e.report.value !in st.past.used) {
      var job := st.drain.queue[0];
      var c := FailureChange(job.row, e.error, job.id, e.report, e.at);
      DrainHead(st);
      HonestFailure(cfg, st, job, e.error, e.report, e.at);
      if Transition(st.db, cfg.limits, job.id, c, e.now, true).1.Ok? {
        MoveKeepsInv(cfg, st, job.id, c, e.now);
        ReportCommitted(cfg, st, job.id, c, e.now);
        AdvanceKeepsInv(cfg, Moved(cfg, st, job.id, c, e.now).0, ReportMessages(c));
      }
      LeaveFlight(cfg, st, Idle);
      hide Inv, Transition;
      assert st.active - InFlight(st.drain) == st.active;
    }
  }

  lemma DrainHead(st: State)
    requires VolatileFits(st) && st.drain.Draining? && st.drain.queue != []
    ensures SnapshotFits(st.db.jobs, st.past.serials, st.past.born, st.drain.queue[0])
    ensures InFlight(st.drain) == {} && st.active == map[]
  {
  }

  lemma {:induction false} ClaimKeepsInv(cfg: Config, st: State, now: Time, fault: bool)
    requires Inv(cfg, st)
    ensures WellFormed(st) && Inv(cfg, ClaimedNext(cfg, st, now, fault))
  {
    InvImplies(cfg, st);
    hide Inv, StoreFits, HistoryFits, VolatileFits, KeysUnique, Transition;
    if st.drain.Draining? && st.drain.queue != [] {
      var job := st.drain.queue[0];
      DrainHead(st);
      var r := Transition(st.db, cfg.limits, job.id, Claim, now, true).1;
      if fault || (r.Err? && !r.error.InvalidTransition?) {
        LeaveFlight(cfg, st, Idle);
        assert st.active - InFlight(st.drain) == st.active;
      } else if r.Err? {
        AdvanceKeepsInv(cfg, st, []);
        assert st.drain.outcomes + [] == st.drain.outcomes;
      } else {
        ClaimStarts(cfg, st, job, now);
      }
    }
  }

  /** A successful claim: the row is Submitting, the entry is active, and the counters leave room for one call. */
  lemma ClaimStarts(cfg: Config, st: State, job: Queued, now: Time)
    requires Inv(cfg, st) && st.drain.Draining? && st.drain.queue != [] && job == st.drain.queue[0]
    requires Transition(st.db, cfg.limits, job.id, Claim, now, true).1.Ok?
    ensures job.id in st.past.serials
    ensures Inv(cfg, Moved(cfg, st, job.id, Claim, now).0.(
      active := st.active[job.id := false],
      drain := Claimed(job, st.past.serials[job.id], st.drain.queue[1..], st.drain.outcomes)))
  {
    hide StoreFits, HistoryFits, KeysUnique, QueueFits, SnapshotFits, ReceiptsFit, MemoryFits, Transition;
    DrainHead(st);
    ClaimedDocument(cfg, st, job, now);
    MoveKeepsInv(cfg, st, job.id, Claim, now);
    MovedRow(cfg, st, job.id, Claim, now);
    CallsOfRow(st, job.id);
    var after := Moved(cfg, st, job.id, Claim, now).0;
    hide Moved;
    QueueTail(after.db.jobs, after.past.serials, after.past.born, after.drain.queue);
  }

  /** A row claimed in the incarnation the drain read is exactly the row the drain read. */
  lemma ClaimedDocument(cfg: Config, st: State, job: Queued, now: Time)
    requires WellFormed(st) && SnapshotFits(st.db.jobs, st.past.serials, st.past.born, job)
    requires Transition(st.db, cfg.limits, job.id, Claim, now, true).1.Ok?
    ensures job.id in st.db.jobs && (st.past.serials[job.id] == job.serial ==> st.db.jobs[job.id] == job.row)
  {
    MovedRow(cfg, st, job.id, Claim, now);
    hide Transition, Moved;
  }

  lemma CallsOfRow(st: State, id: JobId)
    requires WellFormed(st) && HistoryFits(st.db, st.past) && id in st.db.jobs
    ensures st.past.calls[st.past.serials[id]] <= st.db.jobs[id].retries
    ensures st.past.recovered[st.past.serials[id]] == st.db.jobs[id].recoveries
  {
  }

  lemma CountersOf(db: Db, limits: Limits, hash: Payload -> nat, id: JobId)
    requires StoreFits(db, limits, hash) && id in db.jobs
    ensures CountersFit(db.jobs[id])
  {
    hide CountersFit;
  }

  lemma StartCallKeepsInv(cfg: Config, st: State)
    requires Inv(cfg, st)
    ensures Inv(cfg, CallStarted(st))
  {
    if st.drain.Claimed? {
      InFlightRow(st);
      CallsOfRow(st, st.drain.job.id);
      CountersOf(st.db, cfg.limits, cfg.hash, st.drain.job.id);
      CallCounted(st.db.jobs, st.past, st.drain.job.id);
      hide StoreFits, KeysUnique, QueueFits, SnapshotFits, ReceiptsFit, MemoryFits;
      hide SerialsFit, CallsFit, CancelFits, FailuresFit, RowsReported, OutboxReported, IdentitiesFit;
    }
  }

  lemma InFlightRow(st: State)
    requires WellFormed(st) && VolatileFits(st) && (st.drain.Claimed? || st.drain.Calling?)
    ensures var id := st.drain.job.id;
      && id in st.db.jobs && st.db.jobs[id].state == Submitting && st.past.serials[id] == st.drain.serial
      && st.active.Keys == {id} && SnapshotFits(st.db.jobs, st.past.serials, st.past.born, st.drain.job)
      && (st.drain.Claimed? ==> st.past.calls[st.drain.serial] < st.db.jobs[id].retries)
  {
    hide MemoryFits, ReceiptsFit, QueueFits;
  }

  lemma CallCounted(jobs: map<JobId, Job>, p: History, id: JobId)
    requires id in jobs && id in p.serials && CountersFit(jobs[id]) && jobs[id].state == Submitting
    requires p.calls[p.serials[id]] < jobs[id].retries
    requires SerialsFit(p.serials, p.born, p.calls, p.recovered, p.committed, p.cancelled)
    requires CallsFit(jobs, p.serials, p.calls, p.recovered)
    ensures var calls := p.calls + multiset{p.serials[id]};
      && SerialsFit(p.serials, p.born, calls, p.recovered, p.committed, p.cancelled)
      && CallsFit(jobs, p.serials, calls, p.recovered)
  {
  }

  lemma HonestOutcome(st: State, e: Event, c: Change)
    requires e.FinishCall? && st.drain.Calling? && e.reportId !in st.past.used
    requires SnapshotFits(st.db.jobs, st.past.serials, st.past.born, st.drain.job)
    requires exists cancelled :: c == ChangeAfterCall(st.drain.job.row, e.result, cancelled, st.drain.job.id, e.reportId, e.at)
    ensures Honest(st.db.jobs, st.past.used, st.drain.job.id, c)
  {
  }

  /** The finishing step in terms of its transaction. */
  lemma FinishCallIs(cfg: Config, st: State, e: Event, c: Change)
    requires WellFormed(st) && e.FinishCall? && !e.fault && st.drain.Calling? && e.reportId !in st.past.used
    requires var id := st.drain.job.id;
      c == ChangeAfterCall(st.drain.job.row, e.result, id in st.active && st.active[id], id, e.reportId, e.at)
    ensures var (after, r) := Transition(st.db, cfg.limits, st.drain.job.id, c, e.now, true);
      var next := Next(cfg, st, e);
      && next.active == st.active - {st.drain.job.id}
      && next.db == (if r.Ok? then after else st.db)
      && next.drain == (if r.Ok? then Draining(st.drain.queue, st.drain.outcomes + ReportMessages(c)) else Idle)
      && next.past.used <= st.past.used + {e.reportId} && next.past.calls == st.past.calls
  {
    hide ChangeAfterCall, Transition, WellFormed;
    if Transition(st.db, cfg.limits, st.drain.job.id, c, e.now, true).1.Ok? {
      MovedRow(cfg, st, st.drain.job.id, c, e.now);
    }
    ReportIdOf(st.drain.job.row, e, st.drain.job.id in st.active && st.active[st.drain.job.id], st.drain.job.id, c);
  }

  lemma ReportIdOf(stored: Job, e: Event, cancelled: bool, id: JobId, c: Change)
    requires e.FinishCall? && c == ChangeAfterCall(stored, e.result, cancelled, id, e.reportId, e.at)
    ensures ReportOf(c).Some? ==> ReportOf(c).value.id == e.reportId && ReportOf(c).value.job == id
    ensures Allowed(Submitting, Requested(c))
    ensures !c.Claim? && (c.Accept? ==> c.report.Some?)
  {
  }

  /** The early failure in terms of its transaction. */
  lemma FailEarlyIs(cfg: Config, st: State, e: Event, c: Change)
    requires WellFormed(st) && e.FailEarly? && !e.fault && st.drain.Draining? && st.drain.queue != []
    requires e.report.Some? ==> e.report.value !in st.past.used
    requires var job := st.drain.queue[0]; c == FailureChange(job.row, e.error, job.id, e.report, e.at)
    ensures c.Fail? && (ReportOf(c).Some? ==> ReportOf(c).value.job == st.drain.queue[0].id && e.report == Some(ReportOf(c).value.id))
    ensures var (after, r) := Transition(st.db, cfg.limits, st.drain.queue[0].id, c, e.now, true);
      var next := Next(cfg, st, e);
      && next.active == st.active
      && next.db == (if r.Ok? then after else st.db)
      && next.drain == (if r.Ok? then Draining(st.drain.queue[1..], st.drain.outcomes + ReportMessages(c)) else Idle)
      && next.past.used <= st.past.used + (if e.report.Some? then {e.report.value} else {})
      && next.past.calls == st.past.calls
  {
    hide Transition, WellFormed;
    if Transition(st.db, cfg.limits, st.drain.queue[0].id, c, e.now, true).1.Ok? {
      MovedRow(cfg, st, st.drain.queue[0].id, c, e.now);
    }
  }

  lemma FailedTransitionKeeps(db: Db, limits: Limits, id: JobId, c: Change, now: Time)
    ensures Transition(db, limits, id, c, now, true).1.Err? ==> Transition(db, limits, id, c, now, true).0 == db
  {
    hide Retain;
  }

  lemma {:induction false} FinishCallKeepsInv(cfg: Config, st: State, e: Event)
    requires Inv(cfg, st) && e.FinishCall?
    ensures WellFormed(st) && Inv(cfg, CallFinished(cfg, st, e))
  {
    InvImplies(cfg, st);
    if st.drain.Calling? && e.reportId !in st.past.used {
      var job := st.drain.job;
      var c := ChangeAfterCall(job.row, e.result, job.id in st.active && st.active[job.id], job.id, e.reportId, e.at);
      InFlightRow(st);
      HonestOutcome(st, e, c);
      LeaveFlight(cfg, st, Idle);
      hide ChangeAfterCall, Honest, SnapshotFits, VolatileFits, HistoryFits;
      if Transition(st.db, cfg.limits, job.id, c, e.now, true).1.Ok? {
        FinishCommits(cfg, st, c, e.now);
      }
      hide Inv, Transition;
    }
  }

  lemma FinishCommits(cfg: Config, st: State, c: Change, now: Time)
    requires Inv(cfg, st) && st.drain.Calling? && Honest(st.db.jobs, st.past.used, st.drain.job.id, c)
    requires Transition(st.db, cfg.limits, st.drain.job.id, c, now, true).1.Ok?
    ensures Inv(cfg, Moved(cfg, st, st.drain.job.id, c, now).0.(
      active := st.active - {st.drain.job.id},
      drain := Draining(st.drain.queue, st.drain.outcomes + ReportMessages(c))))
  {
    var id := st.drain.job.id;
    var drain := Draining(st.drain.queue, st.drain.outcomes);
    LeaveFlight(cfg, st, drain);
    var free := st.(active := st.active - {id}, drain := drain);
    MoveKeepsInv(cfg, free, id, c, now);
    ReportCommitted(cfg, free, id, c, now);
    var after := Moved(cfg, free, id, c, now).0;
    assert Moved(cfg, st, id, c, now).0 == after.(active := st.active, drain := st.drain) by {
      hide Transition, Inv, Honest;
    }
    OutcomesKeepInv(cfg, after, ReportMessages(c));
    hide Inv, Transition;
  }

  lemma OutcomesKeepInv(cfg: Config, st: State, more: seq<Message>)
    requires Inv(cfg, st) && st.drain.Draining?
    requires forall m :: m in more ==> m in st.past.committed.Values
    ensures Inv(cfg, st.(drain := Draining(st.drain.queue, st.drain.outcomes + more)))
  {
    hide StoreFits, HistoryFits, KeysUnique, QueueFits, SnapshotFits, ReceiptsFit, MemoryFits;
    OutcomeAppended(st.drain.outcomes, more, st.reports, st.unacknowledged, st.past.delivered, st.past.committed);
  }

  lemma EndDrainKeepsInv(cfg: Config, st: State)
    requires Inv(cfg, st)
    ensures Inv(cfg, Next(cfg, st, EndDrain))
  {
    hide StoreFits, HistoryFits, KeysUnique, QueueFits, SnapshotFits, ReceiptsFit;
    assert Messages([]) == {};
  }

  // ---------- Cancelling and recovering ----------

  lemma CancelKeepsInv(cfg: Config, st: State, id: JobId, now: Time, fault: bool)
    requires Inv(cfg, st)
    ensures WellFormed(st) && Inv(cfg, CancelRequested(cfg, st, id, now, fault).0)
  {
    hide Inv, StoreFits, HistoryFits, VolatileFits, WellFormed, Transition;
    InvImplies(cfg, st);
    if id in st.active {
      TokenKeepsInv(cfg, st, id);
    } else {
      NotActive(st, id);
      if Transition(st.db, cfg.limits, id, Cancel, now, true).1.Ok? {
        MoveKeepsInv(cfg, st, id, Cancel, now);
        MovedRow(cfg, st, id, Cancel, now);
        CancelNoted(cfg, Moved(cfg, st, id, Cancel, now).0, id);
      }
    }
  }

  lemma NotActive(st: State, id: JobId)
    requires VolatileFits(st) && id !in st.active
    ensures id !in InFlight(st.drain)
  {
  }

  lemma TokenKeepsInv(cfg: Config, st: State, id: JobId)
    requires Inv(cfg, st) && id in st.active
    ensures Inv(cfg, st.(active := st.active[id := true]))
  {
    hide StoreFits, HistoryFits, KeysUnique, DrainFits, ReceiptsFit, MemoryFits;
    assert st.active[id := true].Keys == st.active.Keys;
  }

  lemma CancelNoted(cfg: Config, st: State, id: JobId)
    requires Inv(cfg, st) && id in st.db.jobs && st.db.jobs[id].state == JobState.Cancelled && id in st.past.serials
    ensures Inv(cfg, st.(past := st.past.(cancelled := st.past.cancelled + {st.past.serials[id]})))
  {
    hide StoreFits, KeysUnique, VolatileFits, CallsFit, FailuresFit, RowsReported, OutboxReported, IdentitiesFit;
    VolatileIgnoresCancelled(st, st.past.cancelled + {st.past.serials[id]});
  }

  lemma VolatileIgnoresCancelled(st: State, cancelled: set<nat>)
    ensures VolatileFits(st.(past := st.past.(cancelled := cancelled))) == VolatileFits(st)
  {
    hide ClaimFits, FlightFits, DrainFits, ReceiptsFit, MemoryFits;
  }

  /** The recovered incarnations are exactly those of the Submitting rows. */
  lemma RecoveredSerials(jobs: map<JobId, Job>, serials: map<JobId, nat>, id: JobId)
    requires jobs.Keys == serials.Keys && id in jobs
    requires forall a, b :: a in serials && b in serials && serials[a] == serials[b] ==> a == b
    ensures serials[id] in SerialsOf(serials, Claiming(jobs) * serials.Keys) <==> jobs[id].state == Submitting
  {
    var claiming := Claiming(jobs) * serials.Keys;
    if serials[id] in SerialsOf(serials, claiming) {
      var other :| other in claiming && serials[other] == serials[id];
      assert other == id;
    }
  }

  /** Counting the marked incarnations once more is what the rows' own counters do. */
  lemma RecoverKeepsCalls(jobs: map<JobId, Job>, p: History, marked: set<nat>, now: Time)
    requires jobs.Keys == p.serials.Keys && CallsFit(jobs, p.serials, p.calls, p.recovered)
    requires forall id :: id in jobs ==> (p.serials[id] in marked <==> jobs[id].state == Submitting)
    ensures CallsFit(map id | id in jobs :: Restarted(jobs[id], now), p.serials, p.calls, p.recovered + multiset(marked))
  {
  }

  lemma RecoverKeepsCounts(jobs: map<JobId, Job>, p: History, now: Time)
    requires jobs.Keys == p.serials.Keys
    requires SerialsFit(p.serials, p.born, p.calls, p.recovered, p.committed, p.cancelled)
    requires CallsFit(jobs, p.serials, p.calls, p.recovered) && CancelFits(jobs, p.serials, p.cancelled) && FailuresFit(jobs)
    ensures var after := map id | id in jobs :: Restarted(jobs[id], now);
      var recovered := p.recovered + multiset(SerialsOf(p.serials, Claiming(jobs) * p.serials.Keys));
      && SerialsFit(p.serials, p.born, p.calls, recovered, p.committed, p.cancelled)
      && CallsFit(after, p.serials, p.calls, recovered) && CancelFits(after, p.serials, p.cancelled) && FailuresFit(after)
  {
    hide SerialsOf, Claiming, CallsFit, CancelFits, FailuresFit, SerialsFit;
    var marked := SerialsOf(p.serials, Claiming(jobs) * p.serials.Keys);
    MarkedSerials(jobs, p, marked);
    RecoverKeepsSerials(p, marked);
    RecoverKeepsCalls(jobs, p, marked, now);
    RecoverKeepsFailures(jobs, p, now);
  }

  lemma MarkedSerials(jobs: map<JobId, Job>, p: History, marked: set<nat>)
    requires jobs.Keys == p.serials.Keys && marked == SerialsOf(p.serials, Claiming(jobs) * p.serials.Keys)
    requires SerialsFit(p.serials, p.born, p.calls, p.recovered, p.committed, p.cancelled)
    ensures forall id :: id in jobs ==> (p.serials[id] in marked <==> jobs[id].state == Submitting)
    ensures forall s :: s in marked ==> s < p.born
  {
    forall id | id in jobs ensures p.serials[id] in marked <==> jobs[id].state == Submitting {
      RecoveredSerials(jobs, p.serials, id);
    }
  }

  lemma RecoverKeepsSerials(p: History, marked: set<nat>)
    requires SerialsFit(p.serials, p.born, p.calls, p.recovered, p.committed, p.cancelled)
    requires forall s :: s in marked ==> s < p.born
    ensures SerialsFit(p.serials, p.born, p.calls, p.recovered + multiset(marked), p.committed, p.cancelled)
  {
  }

  lemma RecoverKeepsFailures(jobs: map<JobId, Job>, p: History, now: Time)
    requires jobs.Keys == p.serials.Keys && CancelFits(jobs, p.serials, p.cancelled) && FailuresFit(jobs)
    ensures var after := map id | id in jobs :: Restarted(jobs[id], now);
      CancelFits(after, p.serials, p.cancelled) && FailuresFit(after)
  {
  }

  lemma RecoverKeepsReports(db: Db, p: History, now: Time)
    requires db.jobs.Keys == p.serials.Keys
    requires RowsReported(db, p.serials, p.committed, p.delivered)
    ensures RowsReported(RecoverInterrupted(db, now), p.serials, p.committed, p.delivered)
  {
    var after := RecoverInterrupted(db, now);
    forall id | id in after.jobs && p.serials[id] in p.committed
      ensures ReportFits(id, after.jobs[id], after.outbox, p.delivered, p.committed[p.serials[id]])
    {
      assert ReportFits(id, db.jobs[id], db.outbox, p.delivered, p.committed[p.serials[id]]);
    }
  }

  lemma RecoverKeepsHistory(db: Db, p: History, now: Time, recovered: multiset<nat>)
    requires db.jobs.Keys == p.serials.Keys && KeysUnique(db.jobs) && HistoryFits(db, p)
    requires recovered == p.recovered + multiset(SerialsOf(p.serials, Claiming(db.jobs) * p.serials.Keys))
    ensures HistoryFits(RecoverInterrupted(db, now), p.(recovered := recovered))
  {
    hide KeysUnique, CallsFit, CancelFits, FailuresFit, RowsReported, OutboxReported, IdentitiesFit, SerialsFit, SerialsOf, Claiming;
    RecoverKeepsCounts(db.jobs, p, now);
    RecoverKeepsReports(db, p, now);
  }

  lemma RecoverKeepsVolatile(st: State, db: Db, past: History)
    requires VolatileFits(st) && st.drain.Idle? && db.jobs.Keys == st.db.jobs.Keys
    requires past == st.past.(recovered := past.recovered)
    ensures VolatileFits(st.(db := db, past := past))
  {
    hide MemoryFits;
  }

  /** Recovery needs an idle drain; each Submitting row goes back to Received with one more recovery. */
  lemma RecoverKeepsInv(cfg: Config, st: State, now: Time)
    requires Inv(cfg, st)
    ensures Inv(cfg, RecoveredJobs(st, now))
  {
    InvImplies(cfg, st);
    if st.drain.Idle? {
      var after := RecoveredJobs(st, now);
      assert after.db.jobs.Keys == st.db.jobs.Keys;
      hide StoreFits, KeysUnique, HistoryFits, VolatileFits, RecoverInterrupted, SerialsOf, Claiming;
      RecoverFits(st.db, cfg.limits, cfg.hash, now);
      StoreFitsOutbox(after.db, cfg.limits, cfg.hash);
      RecoverKeepsHistory(st.db, st.past, now, after.past.recovered);
      RecoverKeepsVolatile(st, after.db, after.past);
    }
  }

  // ---------- Reporting ----------

  lemma ReadOutboxKeepsInv(cfg: Config, st: State, limit: nat)
    requires Inv(cfg, st)
    ensures Inv(cfg, Next(cfg, st, ReadOutbox(limit)))
  {
    OutboxCommitted(st.db, st.past, limit);
    hide StoreFits, HistoryFits, KeysUnique, ClaimFits, FlightFits, DrainFits, ReceiptsFit, OutboxMessages;
  }

  lemma OutboxCommitted(db: Db, p: History, limit: nat)
    requires OutboxReported(db.outbox, p.serials, p.committed)
    ensures AllCommitted(OutboxMessages(db, limit), p.committed)
  {
    hide OutboxIds;
    forall x | x in OutboxMessages(db, limit) ensures x in p.committed.Values {
      var m :| m in db.outbox && db.outbox[m].message == x;
      assert StatusFits(db.outbox[m], m, p.serials, p.committed);
    }
  }

  lemma DeliveredGrows(db: Db, p: History, m: Message)
    requires RowsReported(db, p.serials, p.committed, p.delivered)
    ensures RowsReported(db, p.serials, p.committed, p.delivered + {m})
  {
    forall id | id in db.jobs && id in p.serials && p.serials[id] in p.committed
      ensures ReportFits(id, db.jobs[id], db.outbox, p.delivered + {m}, p.committed[p.serials[id]])
    {
      assert ReportFits(id, db.jobs[id], db.outbox, p.delivered, p.committed[p.serials[id]]);
    }
  }

  lemma SendReportKeepsInv(cfg: Config, st: State, m: Message, accepted: bool)
    requires Inv(cfg, st)
    ensures Inv(cfg, Next(cfg, st, SendReport(m, accepted)))
  {
    hide StoreFits, KeysUnique, ClaimFits, FlightFits, DrainFits, ReceiptsFit;
    hide SerialsFit, CallsFit, CancelFits, FailuresFit, RowsReported, OutboxReported, IdentitiesFit;
    DeliveredGrows(st.db, st.past, m);
  }

  /** Acknowledging takes out only the delivered report itself. */
  lemma AckKeepsReports(db: Db, p: History, m: Message)
    requires RowsReported(db, p.serials, p.committed, p.delivered) && OutboxReported(db.outbox, p.serials, p.committed)
    requires IdentitiesFit(p.committed, p.used) && m in p.delivered && m in p.committed.Values
    ensures RowsReported(Acknowledge(db, m.id).0, p.serials, p.committed, p.delivered)
    ensures OutboxReported(Acknowledge(db, m.id).0.outbox, p.serials, p.committed)
  {
    var after := Acknowledge(db, m.id).0;
    forall id | id in db.jobs && id in p.serials && p.serials[id] in p.committed
      ensures ReportFits(id, db.jobs[id], after.outbox, p.delivered, p.committed[p.serials[id]])
    {
      assert ReportFits(id, db.jobs[id], db.outbox, p.delivered, p.committed[p.serials[id]]);
    }
    forall k | k in after.outbox ensures StatusFits(after.outbox[k], k, p.serials, p.committed) {
      assert StatusFits(db.outbox[k], k, p.serials, p.committed);
    }
  }

  lemma AckKeepsInv(cfg: Config, st: State, m: Message, fault: bool)
    requires Inv(cfg, st)
    ensures Inv(cfg, Next(cfg, st, AckReport(m, fault)))
  {
    hide StoreFits, KeysUnique, ClaimFits, FlightFits, DrainFits, ReceiptsFit;
    hide SerialsFit, CallsFit, CancelFits, FailuresFit, RowsReported, OutboxReported, IdentitiesFit;
    if m in st.unacknowledged && !fault {
      AckFits(st.db, cfg.limits, cfg.hash, m.id);
      AckKeepsReports(st.db, st.past, m);
    }
  }

  // ---------- Retention and crashes ----------

  lemma RetentionFits(db: Db, limits: Limits, hash: Payload -> nat)
    requires StoreFits(db, limits, hash) && limits.maxTerminal >= 1
    ensures StoreFits(Retain(db, limits.maxTerminal, None, true), limits, hash)
  {
    hide Retain, JobsFit, TerminalPruned, OutboxFits, KeysUnique;
    RetainFits(db, limits, hash, None);
  }

  lemma TrimKeepsInv(cfg: Config, st: State, after: Db)
    requires Inv(cfg, st) && Trimmed(st.db, after) && StoreFits(after, cfg.limits, cfg.hash)
    ensures Inv(cfg, Retained(st, after))
  {
    hide StoreFits, HistoryFits, VolatileFits, KeysUnique, Trimmed;
    StoreFitsOutbox(after, cfg.limits, cfg.hash);
    TrimKeepsHistory(st.db, after, st.past);
    TrimKeepsVolatile(st, after);
  }

  lemma RetentionKeepsInv(cfg: Config, st: State)
    requires Inv(cfg, st)
    ensures Inv(cfg, Retained(st, Retain(st.db, cfg.limits.maxTerminal, None, true)))
  {
    InvImplies(cfg, st);
    hide *;
    RetentionFits(st.db, cfg.limits, cfg.hash);
    RetainTrims(st.db, cfg.limits.maxTerminal, None);
    TrimKeepsInv(cfg, st, Retain(st.db, cfg.limits.maxTerminal, None, true));
  }

  lemma CrashKeepsInv(cfg: Config, st: State)
    requires Inv(cfg, st)
    ensures Inv(cfg, Next(cfg, st, Crash))
  {
    hide StoreFits, HistoryFits, KeysUnique;
  }

  // ---------- Runs ----------

  lemma NextIs(cfg: Config, st: State, e: Event)
    requires WellFormed(st)
    ensures match e
      case Deliver(d, ack) => Next(cfg, st, e) == AfterDelivery(cfg, st, d, ack)
      case FailEarly(_, _, _, _, _) => Next(cfg, st, e) == FailedEarly(cfg, st, e)
      case ClaimNext(now, fault) => Next(cfg, st, e) == ClaimedNext(cfg, st, now, fault)
      case StartCall => Next(cfg, st, e) == CallStarted(st)
      case FinishCall(_, _, _, _, _) => Next(cfg, st, e) == CallFinished(cfg, st, e)
      case CancelJob(id, now, fault) => Next(cfg, st, e) == CancelRequested(cfg, st, id, now, fault).0
      case RecoverJobs(now) => Next(cfg, st, e) == RecoveredJobs(st, now)
      case EnforceRetention => Next(cfg, st, e) == Retained(st, Retain(st.db, cfg.limits.maxTerminal, None, true))
      case _ => true
  {
    hide WellFormed, AfterDelivery, FailedEarly, ClaimedNext, CallStarted, CallFinished, CancelRequested, RecoveredJobs;
    hide Retained, Retain, Snapshot, Messages, OutboxMessages;
  }

  lemma ReacknowledgeKeepsInv(cfg: Config, st: State, id: JobId, ack: MessageId)
    requires Inv(cfg, st)
    ensures WellFormed(st) && Inv(cfg, Next(cfg, st, Reacknowledge(id, ack)))
  {
    hide Inv, WellFormed;
    InvImplies(cfg, st);
    if id in ReceivedJobs(st.db.jobs) {
      ReceiptKeepsInv(cfg, st, id, ack);
    }
  }

  lemma NextKeepsInv(cfg: Config, st: State, e: Event)
    requires Inv(cfg, st)
    ensures WellFormed(st) && Inv(cfg, Next(cfg, st, e))
  {
    hide *;
    InvImplies(cfg, st);
    NextIs(cfg, st, e);
    match e {
      case Deliver(d, ack) => DeliverKeepsInv(cfg, st, d, ack);
      case Reacknowledge(id, ack) => ReacknowledgeKeepsInv(cfg, st, id, ack);
      case SendReceipt(m, accepted) => SendReceiptKeepsInv(cfg, st, m, accepted);
      case BeginDrain => BeginDrainKeepsInv(cfg, st);
      case FailEarly(_, _, _, _, _) => FailEarlyKeepsInv(cfg, st, e);
      case ClaimNext(now, fault) => ClaimKeepsInv(cfg, st, now, fault);
      case StartCall => StartCallKeepsInv(cfg, st);
      case FinishCall(_, _, _, _, _) => FinishCallKeepsInv(cfg, st, e);
      case EndDrain => EndDrainKeepsInv(cfg, st);
      case CancelJob(id, now, fault) => CancelKeepsInv(cfg, st, id, now, fault);
      case RecoverJobs(now) => RecoverKeepsInv(cfg, st, now);
      case ReadOutbox(limit) => ReadOutboxKeepsInv(cfg, st, limit);
      case SendReport(m, accepted) => SendReportKeepsInv(cfg, st, m, accepted);
      case AckReport(m, fault) => AckKeepsInv(cfg, st, m, fault);
      case EnforceRetention => RetentionKeepsInv(cfg, st);
      case Crash => CrashKeepsInv(cfg, st);
    }
  }
}
