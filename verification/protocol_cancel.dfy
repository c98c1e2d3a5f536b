/**
 Cancellation against the spooler call in flight: what `cancel_job` answers, and what
 becomes of the row once the call returns, over every run.
 */
module ProtocolCancel {
  import opened Results
  import opened Store
  import opened StoreProperties
  import opened Processor
  import opened Protocol
  import opened ProtocolSafety
  import opened ProtocolSteps
  import opened ProtocolDrain
  import opened ProtocolTheorems

  // ---------- The answers ----------

  /** A row update that succeeded, field by field; every row that stays and did not change keeps all it had. */
  lemma MovedRows(cfg: Config, st: State, id: JobId, c: Change, now: Time)
    requires Inv(cfg, st) && Transition(st.db, cfg.limits, id, c, now, true).1.Ok?
    ensures var after := Transition(st.db, cfg.limits, id, c, now, true).0;
      && id in st.db.jobs && st.db.jobs[id].state in {Received, Submitting}
      && id in after.jobs && after.jobs[id].updatedAt == now && after.jobs[id].state == Requested(c)
      && (forall x :: x in after.jobs && x != id ==> x in st.db.jobs && after.jobs[x] == st.db.jobs[x])
      && (ReportOf(c).None? ==> forall m :: m in after.outbox ==> m in st.db.outbox && after.outbox[m] == st.db.outbox[m])
  {
    hide Transition, Inv, StoreFits, HistoryFits, VolatileFits;
    TransitionTrims(st.db, cfg.limits, id, c, now);
    PrunedAlready(cfg, st);
  }

  lemma PrunedAlready(cfg: Config, st: State)
    requires Inv(cfg, st)
    ensures TerminalPruned(st.db.jobs)
  {
  }

  /** The exact answer of `cancel_job`, and that the database changes only when it is Cancelled. */
  lemma CancelAnswers(cfg: Config, st: State, id: JobId, now: Time, fault: bool)
    requires Inv(cfg, st)
    ensures WellFormed(st)
    ensures var (after, r) := CancelRequested(cfg, st, id, now, fault);
      && (r == Ok(CancellationRequested) <==> id in InFlight(st.drain))
      && (r.Err? <==> fault && id !in InFlight(st.drain))
      && (!fault ==>
            && (r == Ok(NotFound) <==> id !in st.db.jobs)
            && (forall s :: r == Ok(AlreadyTerminal(s)) <==>
                  id in st.db.jobs && s == st.db.jobs[id].state && s in {Submitted, Failed, JobState.Cancelled})
            && (r == Ok(CancelledNow) <==>
                  id in st.db.jobs && st.db.jobs[id].state in {Received, Submitting} && id !in InFlight(st.drain)))
      && (r != Ok(CancelledNow) ==> after.db == st.db)
      && (r == Ok(CancelledNow) ==>
            && id in after.db.jobs && after.db.jobs[id].state == JobState.Cancelled && after.db.jobs[id].updatedAt == now
            && forall m :: m in after.db.outbox ==> m in st.db.outbox && after.db.outbox[m] == st.db.outbox[m])
  {
    InvImplies(cfg, st);
    ActiveIsInFlight(cfg, st, id);
    if Transition(st.db, cfg.limits, id, Cancel, now, true).1.Ok? {
      MovedRows(cfg, st, id, Cancel, now);
    }
    CancelTransition(st.db, cfg.limits, id, now);
    hide Inv, Transition, StoreFits, HistoryFits, VolatileFits, WellFormed, Recorded;
  }

  lemma ActiveIsInFlight(cfg: Config, st: State, id: JobId)
    requires Inv(cfg, st)
    ensures id in st.active <==> id in InFlight(st.drain)
    ensures id in st.active ==> id in st.db.jobs && st.db.jobs[id].state == Submitting
  {
    hide StoreFits, HistoryFits, DrainFits, MemoryFits, ReceiptsFit;
  }

  lemma CancelTransition(db: Db, limits: Limits, id: JobId, now: Time)
    ensures var r := Transition(db, limits, id, Cancel, now, true).1;
      if id !in db.jobs then r == Err(JobNotFound(id))
      else if db.jobs[id].state in {Received, Submitting} then r == Ok(())
      else r == Err(InvalidTransition(id, db.jobs[id].state, JobState.Cancelled))
  {
    hide Retain;
  }

  // ---------- The call in flight ----------

  predicate Undisturbed(events: seq<Event>) {
    forall k :: 0 <= k < |events| ==> !events[k].Crash? && !events[k].FinishCall?
  }

  ghost predicate Asked(events: seq<Event>, id: JobId) {
    exists k :: 0 <= k < |events| && events[k].CancelJob? && events[k].id == id
  }

  ghost predicate Flying(st: State) { st.drain.Claimed? || st.drain.Calling? }

  /** The same call in flight, with its token set or not. */
  ghost predicate StillFlying(st: State, next: State, asked: bool)
    requires Flying(st)
  {
    var id := st.drain.job.id;
    && Flying(next) && next.drain.job == st.drain.job && next.drain.serial == st.drain.serial
    && id in st.active && id in next.active && (next.active[id] <==> st.active[id] || asked)
  }

  lemma DrainEventsFly(cfg: Config, st: State, e: Event)
    requires WellFormed(st) && Flying(st) && st.drain.job.id in st.active
    requires e.BeginDrain? || e.EndDrain? || e.FailEarly? || e.ClaimNext? || e.StartCall? || e.RecoverJobs?
    ensures StillFlying(st, Next(cfg, st, e), false)
  {
    hide WellFormed, Moved, FailureChange, Transition, RecoverInterrupted, Snapshot, SerialsOf, Claiming, Messages;
  }

  lemma CancelFlies(cfg: Config, st: State, e: Event)
    requires WellFormed(st) && Flying(st) && st.drain.job.id in st.active && e.CancelJob?
    ensures StillFlying(st, Next(cfg, st, e), e.id == st.drain.job.id)
  {
    hide WellFormed, Transition, Recorded;
  }

  lemma OtherEventsFly(cfg: Config, st: State, e: Event)
    requires WellFormed(st) && Flying(st) && st.drain.job.id in st.active
    requires e.Deliver? || e.Reacknowledge? || e.SendReceipt? || e.ReadOutbox? || e.SendReport? || e.AckReport? || e.EnforceRetention?
    ensures StillFlying(st, Next(cfg, st, e), false)
  {
    hide WellFormed, InsertReceived, OutboxMessages, Acknowledge, Retain, Remaining, ReceivedJobs;
    hide FailedEarly, ClaimedNext, CallStarted, CallFinished, CancelRequested, RecoveredJobs, Snapshot, Messages;
  }

  /** The call in flight stays the same one, and its token is set by a cancellation of its job and by nothing else. */
  lemma NextFlying(cfg: Config, st: State, e: Event)
    requires Inv(cfg, st) && Flying(st) && !e.Crash? && !e.FinishCall?
    ensures WellFormed(st) && StillFlying(st, Next(cfg, st, e), e.CancelJob? && e.id == st.drain.job.id)
  {
    InvImplies(cfg, st);
    ActiveIsInFlight(cfg, st, st.drain.job.id);
    hide Inv, Next, WellFormed, StillFlying;
    if e.CancelJob? {
      CancelFlies(cfg, st, e);
    } else if e.BeginDrain? || e.EndDrain? || e.FailEarly? || e.ClaimNext? || e.StartCall? || e.RecoverJobs? {
      DrainEventsFly(cfg, st, e);
    } else {
      OtherEventsFly(cfg, st, e);
    }
  }

  lemma {:induction false} RunFlying(cfg: Config, st: State, events: seq<Event>)
    requires Inv(cfg, st) && Flying(st) && Undisturbed(events)
    ensures StillFlying(st, Run(cfg, st, events), Asked(events, st.drain.job.id))
    decreases |events|
  {
    hide Inv, Next;
    InvImplies(cfg, st);
    ActiveIsInFlight(cfg, st, st.drain.job.id);
    if events != [] {
      NextFlying(cfg, st, events[0]);
      NextKeepsInv(cfg, st, events[0]);
      RunFlying(cfg, Next(cfg, st, events[0]), events[1..]);
      AskedFirstOrLater(events, st.drain.job.id);
    }
  }

  lemma AskedFirstOrLater(events: seq<Event>, id: JobId)
    requires events != []
    ensures Asked(events, id) <==> (events[0].CancelJob? && events[0].id == id) || Asked(events[1..], id)
  {
    if Asked(events, id) {
      var k :| 0 <= k < |events| && events[k].CancelJob? && events[k].id == id;
      assert k > 0 ==> events[1..][k - 1] == events[k];
    }
    if Asked(events[1..], id) {
      var k :| 0 <= k < |events[1..]| && events[1..][k].CancelJob? && events[1..][k].id == id;
      assert events[k + 1] == events[1..][k];
    }
  }

  // ---------- How the call ends ----------

  /** The row and the outbox once a call has ended as cancelled: no report is made. */
  ghost predicate EndsCancelled(before: State, after: State, id: JobId, now: Time)
    requires before.drain.Calling?
  {
    && id in after.db.jobs && after.db.jobs[id].state == JobState.Cancelled && after.db.jobs[id].updatedAt == now
    && (forall m :: m in after.db.outbox ==> m in before.db.outbox && after.db.outbox[m] == before.db.outbox[m])
    && after.drain == Draining(before.drain.queue, before.drain.outcomes)
  }

  /** The same with a state, an error or receipt, and the one new report. */
  ghost predicate EndsReported(
    before: State, after: State, id: JobId, s: JobState, receipt: Option<nat>, error: Option<JobError>,
    kind: MessageKind, reportId: MessageId, at: Time, now: Time)
    requires before.drain.Calling?
  {
    && id in after.db.jobs && after.db.jobs[id].state == s && after.db.jobs[id].updatedAt == now
    && after.db.jobs[id].receipt == receipt && after.db.jobs[id].error == error
    && reportId in after.db.outbox
    && after.db.outbox[reportId] == Status(reportId, id, Message(reportId, kind, id), at)
    && (forall m :: m in after.db.outbox && m != reportId ==> m in before.db.outbox && after.db.outbox[m] == before.db.outbox[m])
    && after.drain == Draining(before.drain.queue, before.drain.outcomes + [Message(reportId, kind, id)])
  }

  /** What a call ends as, by the spooler's answer and whether a cancellation was asked for meanwhile. */
  ghost predicate EndsAs(before: State, after: State, result: SpoolerResult, asked: bool, reportId: MessageId, at: Time, now: Time)
    requires before.drain.Calling?
  {
    var id, row := before.drain.job.id, before.drain.job.row;
    match result
    case Taken(receipt) => EndsReported(before, after, id, Submitted, Some(receipt), None, JobSubmitted, reportId, at, now)
    case Interrupted => EndsCancelled(before, after, id, now)
    case Refused(error) =>
      if asked then EndsCancelled(before, after, id, now)
      else
        var e := if row.recoveries == 0 then error else JobError(RecoveryUncertain, false);
        EndsReported(before, after, id, Failed, None, Some(e), JobFailed(e), reportId, at, now)
  }

  lemma NoReceiptYet(cfg: Config, st: State, id: JobId)
    requires Inv(cfg, st) && id in st.db.jobs && st.db.jobs[id].state == Submitting
    ensures st.db.jobs[id].receipt == None
  {
    hide HistoryFits, VolatileFits;
  }

  lemma UpdatedRow(db: Db, id: JobId, c: Change, now: Time)
    requires id in db.jobs && !c.Claim? && db.jobs[id].receipt == None
    ensures var after := UpdatedDb(db, id, c, now);
      && id in after.jobs
      && after.jobs[id].receipt == (if c.Accept? then Some(c.receipt) else None)
      && after.jobs[id].error == (if c.Fail? then Some(c.error) else None)
      && (ReportOf(c).Some? ==>
            var report := ReportOf(c).value;
            && report.id in after.outbox && after.outbox[report.id] == report
            && forall m :: m in after.outbox && m != report.id ==> m in db.outbox && after.outbox[m] == db.outbox[m])
  {
  }

  lemma FinishedRow(cfg: Config, st: State, id: JobId, c: Change, now: Time)
    requires Inv(cfg, st) && Transition(st.db, cfg.limits, id, c, now, true).1.Ok?
    requires id in st.db.jobs && st.db.jobs[id].state == Submitting && !c.Claim?
    ensures var after := Transition(st.db, cfg.limits, id, c, now, true).0;
      && id in after.jobs
      && after.jobs[id].receipt == (if c.Accept? then Some(c.receipt) else None)
      && after.jobs[id].error == (if c.Fail? then Some(c.error) else None)
      && (ReportOf(c).Some? ==>
            var report := ReportOf(c).value;
            && report.id in after.outbox && after.outbox[report.id] == report
            && forall m :: m in after.outbox && m != report.id ==> m in st.db.outbox && after.outbox[m] == st.db.outbox[m])
  {
    TransitionTrims(st.db, cfg.limits, id, c, now);
    NoReceiptYet(cfg, st, id);
    UpdatedRow(st.db, id, c, now);
    UpdateFrame(st.db, st.past, id, c, now);
    hide Transition, Inv, UpdatedDb, Allowed, Requested;
  }

  lemma ChangeIs(row: Job, result: SpoolerResult, asked: bool, id: JobId, reportId: MessageId, at: Time)
    ensures var c := ChangeAfterCall(row, result, asked, id, reportId, at);
      match result
      case Taken(receipt) => c == Accept(receipt, Some(Status(reportId, id, Message(reportId, JobSubmitted, id), at)))
      case Interrupted => c == Cancel
      case Refused(error) =>
        var e := if row.recoveries == 0 then error else JobError(RecoveryUncertain, false);
        c == if asked then Cancel else Fail(e, Some(Status(reportId, id, Message(reportId, JobFailed(e), id), at)))
  {
  }

  /** Every commit of a finished call succeeds, and is this one. */
  lemma {:induction false} CallEnds(cfg: Config, st: State, result: SpoolerResult, reportId: MessageId, at: Time, now: Time)
    requires Inv(cfg, st) && st.drain.Calling? && reportId !in st.past.used
    ensures WellFormed(st) && st.drain.job.id in st.active
    ensures EndsAs(st, Next(cfg, st, FinishCall(result, reportId, at, now, false)), result, st.active[st.drain.job.id], reportId, at, now)
  {
    hide Inv, Next, Transition, StoreFits, HistoryFits, VolatileFits, WellFormed, ChangeAfterCall;
    var id, e := st.drain.job.id, FinishCall(result, reportId, at, now, false);
    InvImplies(cfg, st);
    ActiveIsInFlight(cfg, st, id);
    var c := ChangeAfterCall(st.drain.job.row, result, st.active[id], id, reportId, at);
    FinishCallIs(cfg, st, e, c);
    ReportIdOf(st.drain.job.row, e, st.active[id], id, c);
    AllowedMovesSucceed(cfg, st, id, c, now);
    MovedRows(cfg, st, id, c, now);
    FinishedRow(cfg, st, id, c, now);
    ChangeIs(st.drain.job.row, result, st.active[id], id, reportId, at);
  }

  // ---------- Over runs ----------

  /**
   A call that is neither faulty nor lost in a crash ends cancelled, without a report, exactly when the spooler
   was interrupted, or refused a job for which `cancel_job` was called at any moment since the claim. Acceptance
   wins: a taken job is Submitted and reported either way.
   */
  lemma {:induction false} CallsEndAsAsked(
    cfg: Config, events: seq<Event>, claimedAt: Time, meanwhile: seq<Event>,
    result: SpoolerResult, reportId: MessageId, at: Time, now: Time)
    requires Positive(cfg.limits) && Undisturbed(meanwhile)
    requires var st := Reached(cfg, events);
      st.drain.Draining? && WellFormed(st) && Next(cfg, st, ClaimNext(claimedAt, false)).drain.Claimed?
    requires var before := Run(cfg, Next(cfg, Reached(cfg, events), ClaimNext(claimedAt, false)), meanwhile);
      before.drain.Calling? && reportId !in before.past.used
    ensures var before := Run(cfg, Next(cfg, Reached(cfg, events), ClaimNext(claimedAt, false)), meanwhile);
      && WellFormed(before)
      && EndsAs(before, Next(cfg, before, FinishCall(result, reportId, at, now, false)), result,
                Asked(meanwhile, before.drain.job.id), reportId, at, now)
  {
    var st, claim := Reached(cfg, events), ClaimNext(claimedAt, false);
    var claimed := Next(cfg, st, claim);
    ReachedFits(cfg, events);
    NextKeepsInv(cfg, st, claim);
    RunKeepsInv(cfg, claimed, meanwhile);
    ClaimStartsUnasked(cfg, st, claimedAt);
    hide Inv, Next, Run, Reached, EndsAs;
    RunFlying(cfg, claimed, meanwhile);
    CallEnds(cfg, Run(cfg, claimed, meanwhile), result, reportId, at, now);
  }

  lemma ClaimStartsUnasked(cfg: Config, st: State, claimedAt: Time)
    requires WellFormed(st) && st.drain.Draining? && Next(cfg, st, ClaimNext(claimedAt, false)).drain.Claimed?
    ensures var claimed := Next(cfg, st, ClaimNext(claimedAt, false));
      claimed.drain.job.id in claimed.active && !claimed.active[claimed.drain.job.id]
  {
    hide Transition, WellFormed;
  }

  /**
   Once `cancel_job` has answered CancellationRequested for the call in flight, a refusal leaves the row
   Cancelled and makes no report, and only acceptance still leaves it Submitted.
   */
  lemma {:induction false} CancellationIsObeyed(
    cfg: Config, events: seq<Event>, id: JobId, askedAt: Time, fault: bool, meanwhile: seq<Event>,
    result: SpoolerResult, reportId: MessageId, at: Time, now: Time)
    requires Positive(cfg.limits) && Undisturbed(meanwhile)
    requires WellFormed(Reached(cfg, events)) && id in InFlight(Reached(cfg, events).drain)
    requires var before := Run(cfg, Next(cfg, Reached(cfg, events), CancelJob(id, askedAt, fault)), meanwhile);
      before.drain.Calling? && reportId !in before.past.used
    ensures var before := Run(cfg, Next(cfg, Reached(cfg, events), CancelJob(id, askedAt, fault)), meanwhile);
      && WellFormed(before) && before.drain.job.id == id
      && var after := Next(cfg, before, FinishCall(result, reportId, at, now, false));
      && id in after.db.jobs
      && after.db.jobs[id].state == (if result.Taken? then Submitted else JobState.Cancelled)
      && (!result.Taken? ==>
            && after.drain == Draining(before.drain.queue, before.drain.outcomes)
            && forall m :: m in after.db.outbox ==> m in before.db.outbox && after.db.outbox[m] == before.db.outbox[m])
  {
    var st, cancel := Reached(cfg, events), CancelJob(id, askedAt, fault);
    ReachedFits(cfg, events);
    NextKeepsInv(cfg, st, cancel);
    NextFlying(cfg, st, cancel);
    RunKeepsInv(cfg, Next(cfg, st, cancel), meanwhile);
    hide Inv, Next, Run, Reached;
    RunFlying(cfg, Next(cfg, st, cancel), meanwhile);
    CallEnds(cfg, Run(cfg, Next(cfg, st, cancel), meanwhile), result, reportId, at, now);
  }
}
