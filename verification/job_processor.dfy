/** The job processor in place: its lock regions, each one step of the protocol, and the drain loop. */
module JobProcessing {
  import opened Results
  import opened Ordering
  import opened Store
  import opened StoreProperties
  import opened StoreEffects
  import opened Storage
  import opened Processor
  import opened Protocol
  import opened ProtocolSafety
  import opened ProtocolSteps
  import opened ProtocolDrain
  import opened ProtocolCancel

  lemma ExpectedOutcome(env: Environment, id: JobId, row: Job, k: nat, at: Time)
    ensures var e := Expected(env, id, row, k);
      match env.prepare(row)
      case Unreadable => e == OutcomeOf(id, FailureChange(row, INVALID_PERSISTED, id, None, at))
      case Refusal(error) => e == OutcomeOf(id, FailureChange(row, error, id, Some(env.freshId(k)), at))
      case Ready => e == OutcomeOf(id, ChangeAfterCall(row, env.submit(row), false, id, env.freshId(k), at))
  {
  }

  /** The report an outcome carries is the one that was committed. */
  lemma OutcomeMessage(id: JobId, c: Change)
    requires !c.Claim? && (c.Accept? ==> c.report.Some?)
    ensures MessageOf(OutcomeOf(id, c)) == ReportMessages(c)
  {
  }

  lemma FailStoredJob(cfg: Config, st: State, e: Event)
    requires Inv(cfg, st) && st.drain.Draining? && st.drain.queue != [] && e.FailEarly? && !e.fault
    requires e.report.Some? ==> e.report.value !in st.past.used
    ensures WellFormed(st)
    ensures var after := Next(cfg, st, e);
      && after.past.used <= st.past.used + (if e.report.Some? then {e.report.value} else {})
      && (Waiting(st) ==>
            Waiting(after) && after.drain.Draining? && after.drain.queue == st.drain.queue[1..]
            && after.past.calls == st.past.calls
            && Claiming(after.db.jobs) <= Claiming(st.db.jobs)
            && after.drain.outcomes == st.drain.outcomes + MessageOf(OutcomeOf(st.drain.queue[0].id,
                 FailureChange(st.drain.queue[0].row, e.error, st.drain.queue[0].id, e.report, e.at))))
  {
    hide Inv, StoreFits, HistoryFits, VolatileFits, Next, Waiting, WellFormed, Claiming, MessageOf, OutcomeOf, ReportMessages;
    InvImplies(cfg, st);
    var job := st.drain.queue[0];
    FailEarlyIs(cfg, st, e, FailureChange(job.row, e.error, job.id, e.report, e.at));
    OutcomeMessage(job.id, FailureChange(job.row, e.error, job.id, e.report, e.at));
    if Waiting(st) {
      FailWaits(cfg, st, e);
    }
  }

  /** Message identities are random, hence new and distinct. */
  ghost predicate FreshIds(env: Environment, used: set<MessageId>, from: nat) {
    && (forall k :: from <= k ==> env.freshId(k) !in used)
    && (forall j, k :: from <= j < k ==> env.freshId(j) != env.freshId(k))
  }

  lemma FreshNow(env: Environment, used: set<MessageId>, k: nat)
    requires FreshIds(env, used, k)
    ensures env.freshId(k) !in used
  {
  }

  lemma NextFreshIds(env: Environment, used: set<MessageId>, later: set<MessageId>, k: nat)
    requires FreshIds(env, used, k) && later <= used + {env.freshId(k)}
    ensures FreshIds(env, later, k + 1)
  {
  }

  /** How many of the rows are ready to be submitted. */
  function ReadyCount(env: Environment, ids: seq<JobId>, jobs: map<JobId, Job>): nat {
    if ids == [] then 0
    else
      var last := ids[|ids| - 1];
      ReadyCount(env, ids[..|ids| - 1], jobs) + (if last in jobs && env.prepare(jobs[last]).Ready? then 1 else 0)
  }

  lemma NoOutcomes()
    ensures MessagesOf([]) == []
  {
  }

  /** Once the queue is empty the drain ends and nothing waits any more. */
  lemma EndWaits(cfg: Config, st: State)
    requires Inv(cfg, st) && Waiting(st) && st.drain.queue == []
    ensures WellFormed(st)
    ensures var after := Next(cfg, st, EndDrain);
      after.drain.Idle? && after.db == st.db && after.active == st.active && after.past == st.past
      && after.reports == st.reports + Messages(st.drain.outcomes)
      && ReceivedJobs(st.db.jobs) == {}
  {
    InvImplies(cfg, st);
    hide Inv, StoreFits, HistoryFits, VolatileFits, WellFormed;
  }

  /** What `submit` answers, by the spooler's answer. */
  lemma OutcomeIs(stored: Job, result: SpoolerResult, asked: bool, id: JobId, reportId: MessageId, at: Time)
    ensures OutcomeOf(id, ChangeAfterCall(stored, result, asked, id, reportId, at)) ==
      match result
      case Taken(_) => DidSubmit(id, Message(reportId, JobSubmitted, id))
      case Interrupted => DidCancel(id)
      case Refused(error) =>
        if asked then DidCancel(id)
        else DidFail(id, Some(Message(reportId,
               JobFailed(if stored.recoveries == 0 then error else JobError(RecoveryUncertain, false)), id)))
  {
  }

  lemma FailureIs(stored: Job, error: JobError, id: JobId, report: Option<MessageId>, at: Time)
    ensures var e := if stored.recoveries == 0 then error else JobError(RecoveryUncertain, false);
      var status := match report case None => None case Some(m) => Some(Status(m, id, Message(m, JobFailed(e), id), at));
      && FailureChange(stored, error, id, report, at) == Fail(e, status)
      && OutcomeOf(id, Fail(e, status)) == DidFail(id, if report.None? then None else Some(Message(report.value, JobFailed(e), id)))
  {
  }

  lemma FreshReport(cfg: Config, st: State, id: JobId, c: Change)
    requires Inv(cfg, st) && c.Fail? && (c.report.Some? ==> c.report.value.job == id && c.report.value.id !in st.past.used)
    ensures ReportIsNew(st.db, id, c)
    ensures MayChange(Received, c) && MayChange(Submitting, c) && !MayChange(Submitted, c) && !MayChange(Failed, c)
         && !MayChange(JobState.Cancelled, c)
  {
    if c.report.Some? && c.report.value.id in st.db.outbox {
      OutboxIsUsed(cfg, st, c.report.value.id);
    }
  }

  class JobProcessor {
    const repository: Repository
    var active: map<JobId, bool>
    ghost var state: State

    ghost const cfg: Config := Config(repository.limits, repository.hash)

    /** The object's fields are what the protocol state says. */
    ghost predicate Valid()
      reads this, repository
    {
      repository.Valid() && Inv(cfg, state) && state.db == repository.View() && state.active == active
    }

    /** A process start: nothing is active yet and no drain is under way. */
    constructor (repository: Repository, ghost start: State)
      requires repository.Valid() && Inv(Config(repository.limits, repository.hash), start)
      requires start.db == repository.View() && start.active == map[] && start.drain.Idle?
      ensures Valid() && this.repository == repository && state == start
    {
      this.repository, active, state := repository, map[], start;
    }

    /** `receive_print_job`: commits the row before the acknowledgement exists. */
    method ReceivePrintJob(d: Delivery, ack: MessageId)
      returns (r: Result<Option<Message>, StorageError>, isNew: bool)
      requires Valid() && ack !in state.past.used
      modifies this, repository
      ensures Valid() && state == Next(cfg, old(state), Deliver(d, ack))
      ensures r == Acknowledgement(
        InsertReceived(old(repository.View()), repository.limits, repository.hash, d).1, d.id, ack)
      ensures r.Ok? && r.value.Some? ==> d.id in repository.jobs
      ensures isNew <==> InsertReceived(old(repository.View()), repository.limits, repository.hash, d).1 == Ok(Inserted)
      ensures exists inserted ::
        && Answered(old(repository.View()), repository.limits, repository.hash, d, repository.View(), inserted)
        && (isNew <==> inserted == Ok(Inserted))
        && match inserted
           case Ok(DuplicateIdempotency(_, _)) => r == Ok(None)
           case Ok(_) => r == Ok(Some(Message(ack, JobReceived, d.id)))
           case Err(error) => r == Err(error)
    {
      hide Inv, StoreFits, Answered;
      NextKeepsInv(cfg, state, Deliver(d, ack));
      var inserted := repository.InsertReceived(d);
      state := Next(cfg, state, Deliver(d, ack));
      r := Acknowledgement(inserted, d.id, ack);
      isNew := inserted == Ok(Inserted);
    }

    /** The first lock region of `submit`: claim the row and register the cancellation token. */
    method Claim(id: JobId, now: Time) returns (r: Result<Option<JobState>, StorageError>)
      requires Valid() && state.drain.Draining? && state.drain.queue != [] && state.drain.queue[0].id == id
      modifies this, repository
      ensures Valid() && state == Next(cfg, old(state), ClaimNext(now, false))
      ensures r == Ok(None) <==> state.drain.Claimed?
      ensures r == Ok(None) ==> state.drain.job == old(state.drain.queue[0])
      ensures r.Err? <==> state.drain.Idle?
      ensures r.Ok? && r.value.Some? ==>
        state.drain.Draining? && id in repository.jobs && repository.jobs[id].state == r.value.value
      ensures r == Ok(None) <==> id in old(repository.jobs) && old(repository.jobs)[id].state == Received
      ensures r == Ok(None) ==>
        && ChangedRows(old(repository.View()), repository.View(), id, Change.Claim, now)
        && active == old(active)[id := false]
      ensures r.Err? <==> id !in old(repository.jobs)
      ensures r != Ok(None) ==> repository.View() == old(repository.View()) && active == old(active)
    {
      hide Inv, StoreFits, ChangedRows;
      NextKeepsInv(cfg, state, ClaimNext(now, false));
      var moved := repository.Transition(id, Change.Claim, now);
      if moved.Ok? {
        active := active[id := false];
        r := Ok(None);
      } else if moved.error.InvalidTransition? {
        r := Ok(Some(moved.error.current));
      } else {
        r := Err(moved.error);
      }
      state := Next(cfg, state, ClaimNext(now, false));
    }

    /** The second lock region: commit what the spooler answered, then drop the token. */
    method Finish(id: JobId, stored: Job, result: SpoolerResult, reportId: MessageId, at: Time, now: Time)
      returns (r: Result<ProcessOutcome, StorageError>)
      requires Valid() && state.drain.Calling? && state.drain.job.id == id && state.drain.job.row == stored
      requires reportId !in state.past.used
      modifies this, repository
      ensures Valid() && state == Next(cfg, old(state), FinishCall(result, reportId, at, now, false))
      ensures active == old(active) - {id}
      ensures r.Ok? <==> state.drain.Draining?
      ensures r.Ok? ==> r.value == OutcomeOf(id, ChangeAfterCall(stored, result, id in old(active) && old(active)[id], id, reportId, at))
      ensures r.Ok? && id in old(active)
      ensures EndsAs(old(state), state, result, old(active)[id], reportId, at, now)
      ensures r.value == match result
        case Taken(_) => DidSubmit(id, Message(reportId, JobSubmitted, id))
        case Interrupted => DidCancel(id)
        case Refused(error) =>
          if old(active)[id] then DidCancel(id)
          else DidFail(id, Some(Message(reportId,
                 JobFailed(if stored.recoveries == 0 then error else JobError(RecoveryUncertain, false)), id)))
    {
      ghost var e := FinishCall(result, reportId, at, now, false);
      hide Inv, StoreFits, HistoryFits, VolatileFits, Next, Transition, WellFormed;
      InvImplies(cfg, state);
      hide ChangeAfterCall, OutcomeOf, ReportMessages;
      NextKeepsInv(cfg, state, e);
      var cancelled := id in active && active[id];
      var c := ChangeAfterCall(stored, result, cancelled, id, reportId, at);
      FinishCallIs(cfg, state, e, c);
      FailedTransitionKeeps(state.db, cfg.limits, id, c, now);
      var moved := repository.Transition(id, c, now);
      ghost var before := state;
      active := active - {id};
      state := Next(cfg, state, e);
      if moved.Err? {
        r := Err(moved.error);
      } else {
        r := Ok(OutcomeOf(id, c));
      }
      hide EndsAs;
      CallEnds(cfg, before, result, reportId, at, now);
      OutcomeIs(stored, result, cancelled, id, reportId, at);
    }

    /** `persist_failure` before any claim; `report` is None when the payload cannot be read back. */
    method PersistFailure(id: JobId, stored: Job, error: JobError, report: Option<MessageId>, at: Time, now: Time)
      returns (r: Result<ProcessOutcome, StorageError>)
      requires Valid() && state.drain.Draining? && state.drain.queue != []
      requires state.drain.queue[0].id == id && state.drain.queue[0].row == stored
      requires report.Some? ==> report.value !in state.past.used
      modifies this, repository
      ensures Valid() && state == Next(cfg, old(state), FailEarly(error, report, at, now, false))
      ensures active == old(active)
      ensures r.Ok? <==> state.drain.Draining?
      ensures r.Ok? ==> r.value == OutcomeOf(id, FailureChange(stored, error, id, report, at))
      ensures r.Ok? <==> id in old(repository.jobs) && old(repository.jobs)[id].state in {Received, Submitting}
      ensures var e := if stored.recoveries == 0 then error else JobError(RecoveryUncertain, false);
        var status := match report case None => None case Some(m) => Some(Status(m, id, Message(m, JobFailed(e), id), at));
        r.Ok? ==>
          && ChangedRows(old(repository.View()), repository.View(), id, Fail(e, status), now)
          && r.value == DidFail(id, if report.None? then None else Some(Message(report.value, JobFailed(e), id)))
      ensures r.Err? ==> repository.View() == old(repository.View())
    {
      ghost var e := FailEarly(error, report, at, now, false);
      hide Inv, StoreFits, HistoryFits, VolatileFits, Next, Transition, WellFormed;
      InvImplies(cfg, state);
      hide FailureChange, OutcomeOf, ReportMessages;
      NextKeepsInv(cfg, state, e);
      var c := FailureChange(stored, error, id, report, at);
      FailEarlyIs(cfg, state, e, c);
      FailureIs(stored, error, id, report, at);
      FreshReport(cfg, state, id, c);
      FailedTransitionKeeps(state.db, cfg.limits, id, c, now);
      hide ChangedRows;
      var moved := repository.Transition(id, c, now);
      state := Next(cfg, state, e);
      if moved.Err? {
        return Err(moved.error);
      }
      return Ok(OutcomeOf(id, c));
    }

    /** Cancels queued work durably, or signals the spooler call in flight. */
    method CancelJob(id: JobId, now: Time) returns (r: Result<CancelOutcome, StorageError>)
      requires Valid()
      modifies this, repository
      ensures Valid() && (state, r) == CancelRequested(cfg, old(state), id, now, false)
      ensures r.Ok?
      ensures r.value == CancellationRequested <==> id in old(active)
      ensures r.value == CancellationRequested ==> active == old(active)[id := true]
      ensures r.value == NotFound <==> id !in old(repository.jobs)
      ensures r.value == CancelledNow <==>
        id !in old(active) && id in old(repository.jobs) && old(repository.jobs)[id].state in {Received, Submitting}
      ensures r.value.AlreadyTerminal? <==>
        id in old(repository.jobs) && old(repository.jobs)[id].state in {Submitted, Failed, JobState.Cancelled}
      ensures r.value.AlreadyTerminal? ==> r.value.state == old(repository.jobs)[id].state
      ensures r.value == CancelledNow ==>
        id in repository.jobs && repository.jobs[id].state == JobState.Cancelled && repository.jobs[id].updatedAt == now
      ensures r.value != CancelledNow ==> repository.View() == old(repository.View())
      ensures r.value != CancellationRequested ==> active == old(active)
    {
      hide Inv, StoreFits;
      NextKeepsInv(cfg, state, Event.CancelJob(id, now, false));
      ghost var before := state;
      if id in active {
        active := active[id := true];
        r := Ok(CancellationRequested);
      } else {
        var moved := repository.Transition(id, Cancel, now);
        match moved {
          case Ok(_) => r := Ok(CancelledNow);
          case Err(JobNotFound(_)) => r := Ok(NotFound);
          case Err(InvalidTransition(_, current, _)) =>
            r := if IsTerminal(current) then Ok(AlreadyTerminal(current)) else Err(moved.error);
          case Err(error) => r := Err(error);
        }
      }
      state := CancelRequested(cfg, state, id, now, false).0;
      CancelAnswers(cfg, before, id, now, false);
      ActiveIsInFlight(cfg, before, id);
      hide Transition, WellFormed, Moved;
    }

    /** Restart recovery, only with no drain under way. */
    method RecoverInterrupted(now: Time) returns (r: RecoveryResult)
      requires Valid() && state.drain.Idle?
      modifies this, repository
      ensures Valid() && state == Next(cfg, old(state), RecoverJobs(now))
      ensures r.recovered == |Claiming(old(repository.jobs))|
      ensures r.pending == |Pending(old(repository.jobs))| == |ReceivedJobs(repository.jobs)|
      ensures RestartedRows(old(repository.jobs), repository.jobs, now) && repository.outbox == old(repository.outbox)
    {
      hide RestartedRows;
      hide Inv, StoreFits;
      NextKeepsInv(cfg, state, RecoverJobs(now));
      assert Claiming(repository.jobs) == set id | id in repository.jobs && repository.jobs[id].state == Submitting;
      r := repository.RecoverInterrupted(now);
      state := Next(cfg, state, RecoverJobs(now));
    }

    /** `submit`: claim, call the spooler, commit what it answered. */
    method Submit(env: Environment, id: JobId, stored: Job, k: nat) returns (r: Result<ProcessOutcome, StorageError>)
      requires Valid() && state.drain.Draining? && state.drain.queue != []
      requires state.drain.queue[0].id == id && state.drain.queue[0].row == stored
      requires env.freshId(k) !in state.past.used && env.prepare(stored).Ready?
      modifies this, repository
      ensures Valid() && state.past.used <= old(state.past.used) + {env.freshId(k)}
      ensures r.Ok? <==> state.drain.Draining?
      ensures old(Waiting(state)) ==>
        && r == Ok(Expected(env, id, stored, k)) && Waiting(state) && state.drain.queue == old(state.drain.queue)[1..]
        && |state.past.calls| == |old(state.past.calls)| + 1
        && Claiming(state.db.jobs) <= old(Claiming(state.db.jobs))
        && state.drain.outcomes == old(state.drain.outcomes) + MessageOf(r.value)
    {
      hide Inv, StoreFits, HistoryFits, VolatileFits, Next, Waiting, WellFormed, NoRepeats, QueuedIds, ReceivedJobs, ChangeAfterCall;
      hide Claiming, MessageOf, ReportMessages;
      ghost var before := state;
      var at, now := env.clock(2 * k), env.clock(2 * k + 1);
      InvImplies(cfg, state);
      ClaimUses(cfg, state, now, false);
      if Waiting(state) {
        ClaimSucceeds(cfg, state, now);
      }
      var claim := Claim(id, now);
      if claim.Err? {
        return Err(claim.error);
      }
      if claim.value.Some? {
        return Ok(Skipped(id, claim.value.value));
      }
      ghost var claimed := state;
      StartCallKeepsInv(cfg, state);
      state := CallStarted(state);
      var result := env.submit(stored);
      ghost var e := FinishCall(result, env.freshId(k), at, now, false);
      InvImplies(cfg, state);
      FinishUses(cfg, state, e);
      ExpectedOutcome(env, id, stored, k, at);
      if Waiting(before) {
        FinishWaits(cfg, state, before, claimed, e);
        ReportIdOf(stored, e, false, id, ChangeAfterCall(stored, result, false, id, env.freshId(k), at));
        OutcomeMessage(id, ChangeAfterCall(stored, result, false, id, env.freshId(k), at));
      }
      r := Finish(id, stored, result, env.freshId(k), at, now);
    }

    /** Carries one stored job from its snapshot to a committed outcome. */
    method ProcessStoredJob(env: Environment, id: JobId, stored: Job, k: nat) returns (r: Result<ProcessOutcome, StorageError>)
      requires Valid() && state.drain.Draining? && state.drain.queue != []
      requires state.drain.queue[0].id == id && state.drain.queue[0].row == stored
      requires env.freshId(k) !in state.past.used
      modifies this, repository
      ensures r.Ok? && env.prepare(stored).Unreadable? ==>
        id in repository.jobs && repository.jobs[id].state == Failed
        && repository.jobs[id].error == Some(if stored.recoveries == 0 then JobError(Reported(0), false) else JobError(RecoveryUncertain, false))
      ensures Valid() && state.past.used <= old(state.past.used) + {env.freshId(k)}
      ensures r.Ok? <==> state.drain.Draining?
      ensures old(Waiting(state)) ==>
        && r == Ok(Expected(env, id, stored, k)) && Waiting(state) && state.drain.queue == old(state.drain.queue)[1..]
        && |state.past.calls| == |old(state.past.calls)| + (if env.prepare(stored).Ready? then 1 else 0)
        && Claiming(state.db.jobs) <= old(Claiming(state.db.jobs))
        && state.drain.outcomes == old(state.drain.outcomes) + MessageOf(r.value)
    {
      hide Inv, StoreFits, Next, Waiting, WellFormed, Claiming, MessageOf;
      var at, now := env.clock(2 * k), env.clock(2 * k + 1);
      ExpectedOutcome(env, id, stored, k, at);
      hide Expected, OutcomeOf, FailureChange;
      match env.prepare(stored) {
        case Unreadable =>
          FailStoredJob(cfg, state, FailEarly(INVALID_PERSISTED, None, at, now, false));
          r := PersistFailure(id, stored, INVALID_PERSISTED, None, at, now);
        case Refusal(error) =>
          FailStoredJob(cfg, state, FailEarly(error, Some(env.freshId(k)), at, now, false));
          r := PersistFailure(id, stored, error, Some(env.freshId(k)), at, now);
        case Ready =>
          r := Submit(env, id, stored, k);
      }
    }

    /**
     One drain that nothing disturbs. It never aborts: every waiting job, oldest first, gets
     exactly the outcome its preparation and its one spooler call determine, and none is left waiting.
     */
    method ProcessPending(env: Environment) returns (r: Result<seq<ProcessOutcome>, StorageError>)
      requires Valid() && state.drain.Idle? && FreshIds(env, state.past.used, 0)
      modifies this, repository
      ensures Valid() && state.drain.Idle?
      ensures var ids := PendingIds(old(repository.View()));
        && r.Ok? && |r.value| == |ids|
        && forall k :: 0 <= k < |ids| ==>
             ids[k] in old(repository.jobs) && r.value[k] == Expected(env, ids[k], old(repository.jobs)[ids[k]], k)
      ensures ReceivedJobs(repository.jobs) == {} && Claiming(repository.jobs) <= Claiming(old(repository.jobs))
      ensures forall m :: m in MessagesOf(r.value) ==> m in state.reports
      ensures |state.past.calls| == |old(state.past.calls)|
            + ReadyCount(env, PendingIds(old(repository.View())), old(repository.jobs))
    {
      hide Inv, StoreFits, HistoryFits, VolatileFits, Next, Waiting, WellFormed, PendingIds, Expected, FreshIds, Snapshot;
      hide Claiming, MessageOf, MessagesOf, ListsReceived;
      InvImplies(cfg, state);
      NextKeepsInv(cfg, state, BeginDrain);
      BeginWaits(cfg, state);
      SnapshotLists(state);
      ghost var queue, ids, jobs := Snapshot(state), PendingIds(state.db), state.db.jobs;
      var rows := repository.PendingJobs();
      state := Next(cfg, state, BeginDrain);
      var outcomes: seq<ProcessOutcome> := [];
      NoOutcomes();
      for k := 0 to |rows|
        invariant Valid() && Waiting(state) && state.drain.Draining? && state.drain.queue == queue[k..]
        invariant |outcomes| == k && forall j :: 0 <= j < k ==> outcomes[j] == Expected(env, rows[j].0, rows[j].1, j)
        invariant FreshIds(env, state.past.used, k)
        invariant Claiming(state.db.jobs) <= Claiming(jobs) && state.drain.outcomes == MessagesOf(outcomes)
        invariant |state.past.calls| == |old(state.past.calls)| + ReadyCount(env, ids[..k], jobs)
      {
        FreshNow(env, state.past.used, k);
        ghost var used := state.past.used;
        var outcome := ProcessStoredJob(env, rows[k].0, rows[k].1, k);
        NextFreshIds(env, used, state.past.used, k);
        assert ids[..k + 1][..k] == ids[..k];
        assert queue[k..][1..] == queue[k + 1..];
        OneMoreOutcome(outcomes, outcome.value);
        outcomes := outcomes + [outcome.value];
      }
      assert ids[..|ids|] == ids;
      NextKeepsInv(cfg, state, EndDrain);
      EndWaits(cfg, state);
      state := Next(cfg, state, EndDrain);
      return Ok(outcomes);
    }
  }
}
