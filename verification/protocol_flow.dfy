/** What the agent's flow lock adds: no delivery lands while a drain holds rows it has read. */
module ProtocolFlow {
  import opened Results
  import opened Store
  import opened StoreProperties
  import opened Processor
  import opened Protocol
  import opened ProtocolSafety
  import opened ProtocolSteps
  import opened ProtocolTheorems

  /**
   The agent receives and drains under one lock, so every delivery finds the drain idle. Cancellations,
   retention, replays, faults and crashes may still fall anywhere.
   */
  ghost predicate FlowLocked(cfg: Config, st: State, events: seq<Event>)
    decreases |events|
  {
    events == [] || !WellFormed(st)
    || ((events[0].Deliver? ==> st.drain.Idle?) && FlowLocked(cfg, Next(cfg, st, events[0]), events[1..]))
  }

  // ---------- The rows a drain holds ----------

  function Held(drain: Drain): seq<Queued> {
    match drain
    case Idle => []
    case Draining(queue, _) => queue
    case Claimed(job, _, queue, _) => [job] + queue
    case Calling(job, _, queue, _) => [job] + queue
  }

  /** What was read is the incarnation still in the table, and no recovery came in between. */
  ghost predicate Current(jobs: map<JobId, Job>, serials: map<JobId, nat>, q: Queued) {
    q.id in jobs && q.id in serials ==> serials[q.id] == q.serial && jobs[q.id].recoveries == q.row.recoveries
  }

  ghost predicate FlowFits(st: State) {
    forall q :: q in Held(st.drain) ==> Current(st.db.jobs, st.past.serials, q)
  }

  /** No row appears, and none is reborn or recovered. */
  ghost predicate RowsStay(a: State, b: State) {
    forall id :: id in b.db.jobs && id in b.past.serials ==>
      && id in a.db.jobs && id in a.past.serials
      && b.past.serials[id] == a.past.serials[id] && b.db.jobs[id].recoveries == a.db.jobs[id].recoveries
  }

  ghost predicate HoldsNoMore(a: State, b: State) {
    forall q :: q in Held(b.drain) ==> q in Held(a.drain)
  }

  lemma StayingFits(a: State, b: State)
    requires FlowFits(a) && RowsStay(a, b) && HoldsNoMore(a, b)
    ensures FlowFits(b)
  {
    hide Held;
  }

  lemma TrimmedStays(before: Db, after: Db, id: JobId)
    requires Trimmed(before, after) && id in after.jobs
    ensures id in before.jobs && after.jobs[id].recoveries == before.jobs[id].recoveries
  {
  }

  lemma MovedStays(cfg: Config, st: State, id: JobId, c: Change, now: Time)
    requires WellFormed(st)
    ensures RowsStay(st, Moved(cfg, st, id, c, now).0) && Moved(cfg, st, id, c, now).0.drain == st.drain
  {
    hide Transition, Trimmed, WellFormed;
    var (after, r) := Transition(st.db, cfg.limits, id, c, now, true);
    if r.Ok? {
      TransitionTrims(st.db, cfg.limits, id, c, now);
      forall x | x in after.jobs
        ensures x in st.db.jobs && after.jobs[x].recoveries == st.db.jobs[x].recoveries
      {
        TrimmedStays(UpdatedDb(st.db, id, c, now), after, x);
      }
    }
  }

  lemma SnapshotIsCurrent(st: State)
    requires WellFormed(st)
    ensures forall q :: q in Snapshot(st) ==> Current(st.db.jobs, st.past.serials, q)
  {
    PendingAreReceived(st.db);
    hide PendingIds;
  }

  // ---------- Every event ----------

  lemma DrainEventStays(cfg: Config, st: State, e: Event)
    requires WellFormed(st) && (e.FailEarly? || e.ClaimNext? || e.FinishCall?)
    ensures RowsStay(st, Next(cfg, st, e)) && HoldsNoMore(st, Next(cfg, st, e))
  {
    hide Transition, WellFormed, FailureChange, ChangeAfterCall, Moved;
    match e {
      case FailEarly(error, report, at, now, fault) =>
        if st.drain.Draining? && st.drain.queue != [] {
          var job := st.drain.queue[0];
          MovedStays(cfg, st, job.id, FailureChange(job.row, error, job.id, report, at), now);
        }
      case ClaimNext(now, fault) =>
        if st.drain.Draining? && st.drain.queue != [] {
          MovedStays(cfg, st, st.drain.queue[0].id, Claim, now);
        }
      case FinishCall(result, report, at, now, fault) =>
        if st.drain.Calling? {
          var job := st.drain.job;
          MovedStays(cfg, st, job.id,
            ChangeAfterCall(job.row, result, job.id in st.active && st.active[job.id], job.id, report, at), now);
        }
    }
  }

  lemma RetentionStays(cfg: Config, st: State)
    requires WellFormed(st)
    ensures RowsStay(st, Next(cfg, st, EnforceRetention))
  {
    hide Retain, Trimmed, WellFormed;
    RetainTrims(st.db, cfg.limits.maxTerminal, None);
    var after := Retain(st.db, cfg.limits.maxTerminal, None, true);
    forall x | x in after.jobs
      ensures x in st.db.jobs && after.jobs[x].recoveries == st.db.jobs[x].recoveries
    {
      TrimmedStays(st.db, after, x);
    }
  }

  lemma OtherEventStays(cfg: Config, st: State, e: Event)
    requires WellFormed(st)
    requires !(e.Deliver? || e.BeginDrain? || e.FailEarly? || e.ClaimNext? || e.FinishCall? || e.RecoverJobs?)
    ensures RowsStay(st, Next(cfg, st, e)) && HoldsNoMore(st, Next(cfg, st, e))
  {
    hide FailedEarly, ClaimedNext, CallFinished, Transition, InsertReceived, Moved, Retain, Snapshot, OutboxMessages;
    hide WellFormed, Messages, AfterDelivery;
    if e.CancelJob? {
      MovedStays(cfg, st, e.id, Cancel, e.now);
    } else if e.EnforceRetention? {
      RetentionStays(cfg, st);
    }
  }

  lemma NextFits(cfg: Config, st: State, e: Event)
    requires WellFormed(st) && FlowFits(st) && (e.Deliver? ==> st.drain.Idle?)
    ensures FlowFits(Next(cfg, st, e))
  {
    hide WellFormed, Next, RowsStay, HoldsNoMore, FlowFits;
    if e.FailEarly? || e.ClaimNext? || e.FinishCall? {
      DrainEventStays(cfg, st, e);
      StayingFits(st, Next(cfg, st, e));
    } else if e.Deliver? || e.BeginDrain? || e.RecoverJobs? {
      ReadingFits(cfg, st, e);
    } else {
      OtherEventStays(cfg, st, e);
      StayingFits(st, Next(cfg, st, e));
    }
  }

  /** Deliveries and recoveries find nothing held, and a drain starts from what it reads. */
  lemma ReadingFits(cfg: Config, st: State, e: Event)
    requires WellFormed(st) && FlowFits(st) && (e.Deliver? || e.BeginDrain? || e.RecoverJobs?)
    requires e.Deliver? ==> st.drain.Idle?
    ensures FlowFits(Next(cfg, st, e))
  {
    hide WellFormed, InsertReceived, Snapshot, Current, SerialsOf, Claiming;
    SnapshotIsCurrent(st);
  }

  lemma {:induction false} RunFits(cfg: Config, st: State, events: seq<Event>)
    requires Inv(cfg, st) && FlowFits(st) && FlowLocked(cfg, st, events)
    ensures FlowFits(Run(cfg, st, events))
    decreases |events|
  {
    hide Inv, Next, FlowFits;
    InvImplies(cfg, st);
    if events != [] {
      NextKeepsInv(cfg, st, events[0]);
      NextFits(cfg, st, events[0]);
      RunFits(cfg, Next(cfg, st, events[0]), events[1..]);
    }
  }

  lemma ReachedFlow(cfg: Config, events: seq<Event>)
    requires Positive(cfg.limits) && FlowLocked(cfg, INITIAL, events)
    ensures FlowFits(Reached(cfg, events))
  {
    hide Inv, FlowLocked, Run;
    InitialFits(cfg);
    RunFits(cfg, INITIAL, events);
  }

  // ---------- What the lock guarantees ----------

  lemma InFlightIsHeld(st: State)
    requires FlowFits(st) && VolatileFits(st) && (st.drain.Claimed? || st.drain.Calling?)
    ensures var job := st.drain.job;
      && job.id in st.db.jobs && job.serial == st.drain.serial && st.db.jobs[job.id].recoveries == job.row.recoveries
  {
    hide ClaimFits, DrainFits, MemoryFits, ReceiptsFit;
    assert st.drain.job in Held(st.drain);
    hide Held;
  }

  /**
   Whatever is cancelled, evicted, recovered, faulty or lost in a crash: under the flow lock the document
   given to the spooler is the claimed row's own.
   */
  lemma {:induction false} SubmittedDocumentIsTheRows(cfg: Config, events: seq<Event>)
    requires Positive(cfg.limits) && FlowLocked(cfg, INITIAL, events)
    ensures var st := Reached(cfg, events);
      st.drain.Claimed? || st.drain.Calling? ==>
        st.drain.job.id in st.db.jobs && SameDocument(st.drain.job.row, st.db.jobs[st.drain.job.id])
  {
    var st := Reached(cfg, events);
    ReachedFits(cfg, events);
    ReachedFlow(cfg, events);
    hide FlowLocked, Reached, FlowFits;
    if st.drain.Claimed? || st.drain.Calling? {
      InvImplies(cfg, st);
      hide Inv, StoreFits, HistoryFits, VolatileFits;
      InFlightIsHeld(st);
      DocumentOfIncarnation(cfg, events);
    }
  }

  // ---------- What a failure says ----------

  /** No failure that the environment reports is itself worded as an uncertain recovery. */
  predicate Plain(e: Event) {
    && (e.FailEarly? ==> !e.error.code.RecoveryUncertain?)
    && (e.FinishCall? && e.result.Refused? ==> !e.result.error.code.RecoveryUncertain?)
  }

  ghost predicate MarksFit(jobs: map<JobId, Job>) {
    forall id :: id in jobs && jobs[id].state == Failed ==>
      jobs[id].error.Some? && (jobs[id].error.value.code.RecoveryUncertain? <==> jobs[id].recoveries > 0)
  }

  /** The failure is marked by the row's own recoveries. */
  ghost predicate ProperlyMarked(jobs: map<JobId, Job>, id: JobId, c: Change) {
    c.Fail? && id in jobs ==> (c.error.code.RecoveryUncertain? <==> jobs[id].recoveries > 0)
  }

  lemma TrimKeepsMarks(before: Db, after: Db)
    requires Trimmed(before, after) && MarksFit(before.jobs)
    ensures MarksFit(after.jobs)
  {
  }

  lemma UpdateKeepsMarks(db: Db, id: JobId, c: Change, now: Time)
    requires id in db.jobs && MarksFit(db.jobs) && ProperlyMarked(db.jobs, id, c)
    ensures MarksFit(UpdatedDb(db, id, c, now).jobs)
  {
  }

  lemma MoveKeepsMarks(cfg: Config, st: State, id: JobId, c: Change, now: Time)
    requires WellFormed(st) && MarksFit(st.db.jobs) && ProperlyMarked(st.db.jobs, id, c)
    ensures MarksFit(Moved(cfg, st, id, c, now).0.db.jobs)
  {
    hide Transition, Trimmed, MarksFit, ProperlyMarked, UpdatedDb, WellFormed;
    var (after, r) := Transition(st.db, cfg.limits, id, c, now, true);
    if r.Ok? {
      TransitionTrims(st.db, cfg.limits, id, c, now);
      UpdateKeepsMarks(st.db, id, c, now);
      TrimKeepsMarks(UpdatedDb(st.db, id, c, now), after);
    }
  }

  /** The processor marks a failure by the row the drain read, which agrees with the row in the table. */
  lemma FailureIsMarked(st: State, job: Queued, error: JobError, report: Option<MessageId>, at: Time)
    requires WellFormed(st) && Current(st.db.jobs, st.past.serials, job) && !error.code.RecoveryUncertain?
    ensures ProperlyMarked(st.db.jobs, job.id, FailureChange(job.row, error, job.id, report, at))
  {
  }

  lemma OutcomeIsMarked(st: State, job: Queued, e: Event, cancelled: bool)
    requires WellFormed(st) && Current(st.db.jobs, st.past.serials, job) && e.FinishCall? && Plain(e)
    ensures ProperlyMarked(st.db.jobs, job.id, ChangeAfterCall(job.row, e.result, cancelled, job.id, e.reportId, e.at))
  {
    if e.result.Refused? {
      FailureIsMarked(st, job, e.result.error, Some(e.reportId), e.at);
    }
  }

  lemma DrainEventKeepsMarks(cfg: Config, st: State, e: Event)
    requires WellFormed(st) && FlowFits(st) && MarksFit(st.db.jobs) && Plain(e)
    requires e.FailEarly? || e.ClaimNext? || e.FinishCall?
    ensures MarksFit(Next(cfg, st, e).db.jobs)
  {
    hide Transition, WellFormed, FailureChange, ChangeAfterCall, Moved, MarksFit, Current;
    match e {
      case FailEarly(error, report, at, now, fault) =>
        if st.drain.Draining? && st.drain.queue != [] {
          var job := st.drain.queue[0];
          assert job in Held(st.drain);
          FailureIsMarked(st, job, error, report, at);
          MoveKeepsMarks(cfg, st, job.id, FailureChange(job.row, error, job.id, report, at), now);
        }
      case ClaimNext(now, fault) =>
        if st.drain.Draining? && st.drain.queue != [] {
          MoveKeepsMarks(cfg, st, st.drain.queue[0].id, Claim, now);
        }
      case FinishCall(result, report, at, now, fault) =>
        if st.drain.Calling? {
          var job := st.drain.job;
          assert job in Held(st.drain);
          OutcomeIsMarked(st, job, e, job.id in st.active && st.active[job.id]);
          MoveKeepsMarks(cfg, st, job.id,
            ChangeAfterCall(job.row, result, job.id in st.active && st.active[job.id], job.id, report, at), now);
        }
    }
  }

  lemma OtherEventKeepsMarks(cfg: Config, st: State, e: Event)
    requires WellFormed(st) && MarksFit(st.db.jobs)
    requires !(e.FailEarly? || e.ClaimNext? || e.FinishCall? || e.Deliver? || e.RecoverJobs?)
    ensures MarksFit(Next(cfg, st, e).db.jobs)
  {
    hide FailedEarly, ClaimedNext, CallFinished, Transition, InsertReceived, Moved, Retain, Snapshot, OutboxMessages;
    hide WellFormed, Messages, AfterDelivery, MarksFit, Trimmed;
    if e.CancelJob? {
      MoveKeepsMarks(cfg, st, e.id, Cancel, e.now);
    } else if e.EnforceRetention? {
      RetainTrims(st.db, cfg.limits.maxTerminal, None);
      TrimKeepsMarks(st.db, Retain(st.db, cfg.limits.maxTerminal, None, true));
    }
  }

  lemma NextKeepsMarks(cfg: Config, st: State, e: Event)
    requires WellFormed(st) && FlowFits(st) && MarksFit(st.db.jobs) && Plain(e)
    ensures MarksFit(Next(cfg, st, e).db.jobs)
  {
    if e.FailEarly? || e.ClaimNext? || e.FinishCall? {
      DrainEventKeepsMarks(cfg, st, e);
    } else if !e.Deliver? && !e.RecoverJobs? {
      OtherEventKeepsMarks(cfg, st, e);
    } else if e.Deliver? {
      InsertedRow(st.db, cfg.limits, cfg.hash, e.delivery);
      hide InsertReceived, WellFormed, FlowFits;
    } else {
      hide WellFormed, FlowFits, SerialsOf, Claiming;
    }
  }

  lemma {:induction false} RunKeepsMarks(cfg: Config, st: State, events: seq<Event>)
    requires Inv(cfg, st) && FlowFits(st) && FlowLocked(cfg, st, events) && MarksFit(st.db.jobs)
    requires forall i :: 0 <= i < |events| ==> Plain(events[i])
    ensures MarksFit(Run(cfg, st, events).db.jobs)
    decreases |events|
  {
    hide Inv, Next, FlowFits, MarksFit, Plain;
    InvImplies(cfg, st);
    if events != [] {
      NextKeepsInv(cfg, st, events[0]);
      NextFits(cfg, st, events[0]);
      NextKeepsMarks(cfg, st, events[0]);
      RunKeepsMarks(cfg, Next(cfg, st, events[0]), events[1..]);
    }
  }

  /**
   Under the flow lock a failed row says that an interrupted submission may have printed if and only if the
   row was recovered after one.
   */
  lemma {:induction false} RecoveryIsMarkedExactly(cfg: Config, events: seq<Event>, id: JobId)
    requires Positive(cfg.limits) && FlowLocked(cfg, INITIAL, events)
    requires forall i :: 0 <= i < |events| ==> Plain(events[i])
    ensures var st := Reached(cfg, events);
      id in st.db.jobs && st.db.jobs[id].state == Failed ==>
        st.db.jobs[id].error.Some? && (st.db.jobs[id].error.value.code.RecoveryUncertain? <==> st.db.jobs[id].recoveries > 0)
  {
    hide Inv, FlowLocked, Run, Plain;
    InitialFits(cfg);
    RunKeepsMarks(cfg, INITIAL, events);
  }
}
