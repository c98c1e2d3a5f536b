/** When rows finish: every terminal row keeps the time it became terminal, and retention takes the earliest. */
module ProtocolTimes {
  import opened Results
  import opened Ordering
  import opened Store
  import opened StoreProperties
  import opened StoreEffects
  import opened Processor
  import opened Protocol
  import opened ProtocolSafety
  import opened ProtocolSteps
  import opened ProtocolTheorems
  import opened ProtocolCancel

  ghost predicate Done(st: State, id: JobId) {
    id in st.db.jobs && id in st.past.serials && st.db.jobs[id].state in {Submitted, Failed, JobState.Cancelled}
  }

  /** The time an event gives to the rows it changes. */
  function TimeOf(e: Event): Time {
    match e
    case FailEarly(_, _, _, now, _) => now
    case ClaimNext(now, _) => now
    case FinishCall(_, _, _, now, _) => now
    case CancelJob(_, now, _) => now
    case RecoverJobs(now) => now
    case _ => 0
  }

  /** The same incarnation of the row was terminal before. */
  ghost predicate WasDone(st: State, next: State, id: JobId)
    requires Done(next, id)
  {
    Done(st, id) && st.past.serials[id] == next.past.serials[id]
  }

  /** The incarnations whose row a step makes terminal. */
  ghost function Finishing(st: State, next: State): set<nat> {
    set id | id in next.db.jobs && Done(next, id) && !WasDone(st, next, id) :: next.past.serials[id]
  }

  /** When each incarnation became terminal, collected along a run. */
  ghost function FinishTimes(cfg: Config, st: State, events: seq<Event>, times: map<nat, Time>): map<nat, Time>
    decreases |events|
  {
    if events == [] || !WellFormed(st) then times
    else
      var next := Next(cfg, st, events[0]);
      FinishTimes(cfg, next, events[1..], times + map s | s in Finishing(st, next) :: TimeOf(events[0]))
  }

  /**
   Each row after a step is a new incarnation and Received, or the incarnation that was there before: then a
   terminal row is as it was, and a row that has become terminal is dated.
   */
  ghost predicate RowDated(st: State, next: State, id: JobId, now: Time)
    requires id in next.db.jobs && id in next.past.serials
  {
    if id in st.db.jobs && id in st.past.serials && next.past.serials[id] == st.past.serials[id] then
      && (Done(st, id) ==> next.db.jobs[id] == st.db.jobs[id])
      && (Done(next, id) && !Done(st, id) ==> next.db.jobs[id].updatedAt == now)
    else next.past.serials[id] == st.past.born < next.past.born && next.db.jobs[id].state == Received
  }

  ghost predicate Dated(st: State, next: State, now: Time) {
    && st.past.born <= next.past.born
    && forall id :: id in next.db.jobs && id in next.past.serials ==> RowDated(st, next, id, now)
  }

  // ---------- Single steps ----------

  lemma SameRowsAreDated(st: State, next: State, now: Time)
    requires next.db.jobs == st.db.jobs && next.past.serials == st.past.serials && next.past.born == st.past.born
    ensures Dated(st, next, now)
  {
  }

  lemma MovesAreDated(cfg: Config, st: State, next: State, id: JobId, c: Change, now: Time)
    requires Inv(cfg, st) && Transition(st.db, cfg.limits, id, c, now, true).1.Ok?
    requires next.db == Transition(st.db, cfg.limits, id, c, now, true).0
    requires next.past.serials == Remaining(st.past.serials, next.db.jobs) && next.past.born == st.past.born
    ensures Dated(st, next, now)
  {
    hide Inv, Transition;
    MovedRows(cfg, st, id, c, now);
  }

  lemma MovedIs(cfg: Config, st: State, id: JobId, c: Change, now: Time)
    requires WellFormed(st) && Transition(st.db, cfg.limits, id, c, now, true).1.Ok?
    ensures var (moved, r) := Moved(cfg, st, id, c, now);
      && r.Ok? && moved.db == Transition(st.db, cfg.limits, id, c, now, true).0
      && moved.past.serials == Remaining(st.past.serials, moved.db.jobs) && moved.past.born == st.past.born
  {
    TransitionTrims(st.db, cfg.limits, id, c, now);
    hide Transition;
  }

  /** An event of the drain or a cancellation changes rows by one transition of the event's time, or not at all. */
  ghost predicate MovesOnce(cfg: Config, st: State, next: State, id: JobId, c: Change, now: Time) {
    next.past.born == st.past.born &&
    (|| (next.db == st.db && next.past.serials == st.past.serials)
     || (&& Transition(st.db, cfg.limits, id, c, now, true).1.Ok?
         && next.db == Transition(st.db, cfg.limits, id, c, now, true).0
         && next.past.serials == Remaining(st.past.serials, next.db.jobs)))
  }

  ghost function ChangeOf(st: State, e: Event): (JobId, Change) {
    match e
    case FailEarly(error, report, at, _, _) =>
      if st.drain.Draining? && st.drain.queue != [] then
        var job := st.drain.queue[0]; (job.id, FailureChange(job.row, error, job.id, report, at))
      else (0, Cancel)
    case ClaimNext(_, _) => if st.drain.Draining? && st.drain.queue != [] then (st.drain.queue[0].id, Claim) else (0, Cancel)
    case FinishCall(result, report, at, _, _) =>
      if st.drain.Calling? then
        var job := st.drain.job;
        (job.id, ChangeAfterCall(job.row, result, job.id in st.active && st.active[job.id], job.id, report, at))
      else (0, Cancel)
    case CancelJob(id, _, _) => (id, Cancel)
    case _ => (0, Cancel)
  }

  lemma MovingEvents(cfg: Config, st: State, e: Event)
    requires WellFormed(st) && (e.FailEarly? || e.ClaimNext? || e.FinishCall? || e.CancelJob?)
    ensures MovesOnce(cfg, st, Next(cfg, st, e), ChangeOf(st, e).0, ChangeOf(st, e).1, TimeOf(e))
  {
    hide WellFormed, Transition, FailureChange, ChangeAfterCall, Remaining, Recorded;
    var (id, c) := ChangeOf(st, e);
    if Transition(st.db, cfg.limits, id, c, TimeOf(e), true).1.Ok? {
      MovedIs(cfg, st, id, c, TimeOf(e));
    }
    MovedFails(cfg, st, id, c, TimeOf(e));
    hide Moved;
  }

  lemma MovedFails(cfg: Config, st: State, id: JobId, c: Change, now: Time)
    requires WellFormed(st)
    ensures Moved(cfg, st, id, c, now).1 == Transition(st.db, cfg.limits, id, c, now, true).1
  {
    hide Transition, WellFormed, Recorded;
    if Transition(st.db, cfg.limits, id, c, now, true).1.Ok? {
      TransitionTrims(st.db, cfg.limits, id, c, now);
    }
  }

  lemma DeliveriesAreDated(cfg: Config, st: State, d: Delivery, ack: MessageId)
    requires WellFormed(st)
    ensures Dated(st, AfterDelivery(cfg, st, d, ack), 0)
  {
    InsertedRow(st.db, cfg.limits, cfg.hash, d);
    AcceptedFits(d, cfg.hash);
    hide InsertReceived, Accepted, JobFits;
  }

  lemma RecoveriesAreDated(st: State, now: Time)
    requires WellFormed(st)
    ensures Dated(st, RecoveredJobs(st, now), now)
  {
  }

  lemma RetentionIsDated(cfg: Config, st: State)
    requires Inv(cfg, st)
    ensures Dated(st, Retained(st, Retain(st.db, cfg.limits.maxTerminal, None, true)), 0)
  {
    hide Inv, Retain;
    PrunedAlready(cfg, st);
    RetainTrims(st.db, cfg.limits.maxTerminal, None);
  }

  lemma OtherEventsKeepRows(cfg: Config, st: State, e: Event)
    requires WellFormed(st)
    requires !(e.Deliver? || e.FailEarly? || e.ClaimNext? || e.FinishCall? || e.CancelJob? || e.RecoverJobs? || e.EnforceRetention?)
    ensures var next := Next(cfg, st, e);
      next.db.jobs == st.db.jobs && next.past.serials == st.past.serials && next.past.born == st.past.born
  {
    hide WellFormed, OutboxMessages, ReceivedJobs, Snapshot, Messages;
    hide AfterDelivery, FailedEarly, ClaimedNext, CallFinished, CancelRequested, RecoveredJobs, Retained;
  }

  lemma NextIsDated(cfg: Config, st: State, e: Event)
    requires Inv(cfg, st)
    ensures WellFormed(st) && Dated(st, Next(cfg, st, e), TimeOf(e))
  {
    InvImplies(cfg, st);
    NextIs(cfg, st, e);
    hide Inv, WellFormed, Next, Dated, Transition;
    if e.FailEarly? || e.ClaimNext? || e.FinishCall? || e.CancelJob? {
      MovingEvents(cfg, st, e);
      var (id, c) := ChangeOf(st, e);
      hide ChangeOf;
      if Next(cfg, st, e).db == st.db && Next(cfg, st, e).past.serials == st.past.serials {
        SameRowsAreDated(st, Next(cfg, st, e), TimeOf(e));
      } else {
        MovesAreDated(cfg, st, Next(cfg, st, e), id, c, TimeOf(e));
      }
    } else if e.Deliver? {
      DeliveriesAreDated(cfg, st, e.delivery, e.ack);
    } else if e.RecoverJobs? {
      RecoveriesAreDated(st, e.now);
    } else if e.EnforceRetention? {
      RetentionIsDated(cfg, st);
    } else {
      OtherEventsKeepRows(cfg, st, e);
      SameRowsAreDated(st, Next(cfg, st, e), TimeOf(e));
    }
  }

  // ---------- Over runs ----------

  ghost predicate Timed(st: State, times: map<nat, Time>) {
    forall id :: Done(st, id) ==> st.past.serials[id] in times && st.db.jobs[id].updatedAt == times[st.past.serials[id]]
  }

  lemma SerialsAreApart(cfg: Config, st: State)
    requires Inv(cfg, st)
    ensures forall a, b :: a in st.past.serials && b in st.past.serials && st.past.serials[a] == st.past.serials[b] ==> a == b
  {
    hide StoreFits, VolatileFits, CallsFit, CancelFits, FailuresFit, RowsReported, OutboxReported, IdentitiesFit;
  }

  lemma StepIsTimed(cfg: Config, st: State, next: State, now: Time, times: map<nat, Time>)
    requires Inv(cfg, next) && Timed(st, times) && Dated(st, next, now)
    ensures Timed(next, times + map s | s in Finishing(st, next) :: now)
  {
    SerialsAreApart(cfg, next);
    hide Inv;
    forall id | Done(next, id)
      ensures next.past.serials[id] in Finishing(st, next) <==> !WasDone(st, next, id)
    {
    }
  }

  lemma {:induction false} RunIsTimed(cfg: Config, st: State, events: seq<Event>, times: map<nat, Time>)
    requires Inv(cfg, st) && Timed(st, times)
    ensures Timed(Run(cfg, st, events), FinishTimes(cfg, st, events, times))
    decreases |events|
  {
    hide Inv, Next, Timed, Finishing, Dated;
    InvImplies(cfg, st);
    if events != [] {
      var next := Next(cfg, st, events[0]);
      NextKeepsInv(cfg, st, events[0]);
      NextIsDated(cfg, st, events[0]);
      StepIsTimed(cfg, st, next, TimeOf(events[0]), times);
      RunIsTimed(cfg, next, events[1..], times + map s | s in Finishing(st, next) :: TimeOf(events[0]));
    }
  }

  /** Whatever happens, a terminal row in the table carries the time at which its incarnation became terminal. */
  lemma {:induction false} TerminalRowsKeepTheirTime(cfg: Config, events: seq<Event>, id: JobId)
    requires Positive(cfg.limits)
    ensures var st, times := Reached(cfg, events), FinishTimes(cfg, INITIAL, events, map[]);
      Done(st, id) ==> st.past.serials[id] in times && st.db.jobs[id].updatedAt == times[st.past.serials[id]]
  {
    InitialFits(cfg);
    RunIsTimed(cfg, INITIAL, events, map[]);
    hide Inv, Next, Run, FinishTimes;
  }

  /** The incarnation `serial` of a job is gone for good, or its row is still this one. */
  ghost predicate Settled(st: State, id: JobId, serial: nat, row: Job) {
    serial < st.past.born
    && (id in st.db.jobs && id in st.past.serials && st.past.serials[id] == serial ==> Done(st, id) && st.db.jobs[id] == row)
  }

  lemma StepSettles(st: State, next: State, now: Time, id: JobId, serial: nat, row: Job)
    requires Dated(st, next, now) && Settled(st, id, serial, row)
    ensures Settled(next, id, serial, row)
  {
    if id in next.db.jobs && id in next.past.serials && next.past.serials[id] == serial {
      assert RowDated(st, next, id, now);
    }
  }

  lemma {:induction false} RunSettles(cfg: Config, st: State, events: seq<Event>, id: JobId, serial: nat, row: Job)
    requires Inv(cfg, st) && Settled(st, id, serial, row)
    ensures Settled(Run(cfg, st, events), id, serial, row)
    decreases |events|
  {
    hide Inv, Next, Settled, Dated;
    InvImplies(cfg, st);
    if events != [] {
      NextKeepsInv(cfg, st, events[0]);
      NextIsDated(cfg, st, events[0]);
      StepSettles(st, Next(cfg, st, events[0]), TimeOf(events[0]), id, serial, row);
      RunSettles(cfg, Next(cfg, st, events[0]), events[1..], id, serial, row);
    }
  }

  lemma SerialsAreBorn(cfg: Config, st: State, id: JobId)
    requires Inv(cfg, st) && id in st.past.serials
    ensures st.past.serials[id] < st.past.born
  {
    hide StoreFits, VolatileFits, CallsFit, CancelFits, FailuresFit, RowsReported, OutboxReported, IdentitiesFit;
  }

  /** The whole row of a finished incarnation never changes again: it stays as it is, or it goes. */
  lemma {:induction false} FinishedRowsNeverChange(cfg: Config, events: seq<Event>, later: seq<Event>, id: JobId)
    requires Positive(cfg.limits) && Done(Reached(cfg, events), id)
    ensures var st := Reached(cfg, events);
      var end := Run(cfg, st, later);
      id in end.db.jobs && id in end.past.serials && end.past.serials[id] == st.past.serials[id] ==>
        end.db.jobs[id] == st.db.jobs[id]
  {
    var st := Reached(cfg, events);
    ReachedFits(cfg, events);
    hide Inv, Next, Run, Reached;
    SerialsAreBorn(cfg, st, id);
    RunSettles(cfg, st, later, id, st.past.serials[id], st.db.jobs[id]);
  }

  // ---------- Who is removed ----------

  /** Of two rows that were terminal before a step, the one that finished later is never the only one removed. */
  ghost predicate EarlierGo(st: State, next: State) {
    forall gone, kept :: gone in st.db.jobs && gone !in next.db.jobs && kept in next.db.jobs && Done(st, kept) ==>
      && Done(st, gone)
      && (|| st.db.jobs[gone].updatedAt < st.db.jobs[kept].updatedAt
          || (st.db.jobs[gone].updatedAt == st.db.jobs[kept].updatedAt && gone < kept))
  }

  lemma RetainedEarlierGo(st: State, next: State, maximum: nat)
    requires WellFormed(st) && next.db == Retain(st.db, maximum, None, true)
    ensures EarlierGo(st, next)
  {
    hide Retain, KeysUnique;
    forall gone, kept | gone in st.db.jobs && gone !in next.db.jobs && kept in next.db.jobs && Done(st, kept)
      ensures Done(st, gone)
      ensures st.db.jobs[gone].updatedAt < st.db.jobs[kept].updatedAt
           || (st.db.jobs[gone].updatedAt == st.db.jobs[kept].updatedAt && gone < kept)
    {
      DoomedFinishedFirst(st.db, maximum, None, gone, kept);
    }
  }

  lemma TransitionRetains(db: Db, limits: Limits, id: JobId, c: Change, now: Time)
    requires Transition(db, limits, id, c, now, true).1.Ok?
    ensures id in db.jobs && db.jobs[id].state in {Received, Submitting}
    ensures Transition(db, limits, id, c, now, true).0
         == if IsTerminal(Requested(c)) then Retain(UpdatedDb(db, id, c, now), limits.maxTerminal, Some(id), true)
            else UpdatedDb(db, id, c, now)
  {
    hide Retain;
  }

  lemma MovedEarlierGo(cfg: Config, st: State, next: State, id: JobId, c: Change, now: Time)
    requires WellFormed(st) && Transition(st.db, cfg.limits, id, c, now, true).1.Ok?
    requires next.db == Transition(st.db, cfg.limits, id, c, now, true).0
    ensures EarlierGo(st, next)
  {
    hide Retain, KeysUnique, Transition, Changed, Requested;
    TransitionRetains(st.db, cfg.limits, id, c, now);
    if IsTerminal(Requested(c)) {
      forall gone, kept | gone in st.db.jobs && gone !in next.db.jobs && kept in next.db.jobs && Done(st, kept)
        ensures Done(st, gone)
        ensures st.db.jobs[gone].updatedAt < st.db.jobs[kept].updatedAt
             || (st.db.jobs[gone].updatedAt == st.db.jobs[kept].updatedAt && gone < kept)
      {
        DoomedFinishedFirst(UpdatedDb(st.db, id, c, now), cfg.limits.maxTerminal, Some(id), gone, kept);
      }
    }
  }

  lemma NextEarlierGo(cfg: Config, st: State, e: Event)
    requires Inv(cfg, st)
    ensures WellFormed(st) && EarlierGo(st, Next(cfg, st, e))
  {
    InvImplies(cfg, st);
    NextIs(cfg, st, e);
    hide Inv, Next, Transition;
    if e.FailEarly? || e.ClaimNext? || e.FinishCall? || e.CancelJob? {
      MovingEvents(cfg, st, e);
      hide WellFormed;
      var (id, c) := ChangeOf(st, e);
      hide ChangeOf, EarlierGo;
      if Next(cfg, st, e).db == st.db && Next(cfg, st, e).past.serials == st.past.serials {
        SameRowsGo(st, Next(cfg, st, e));
      } else {
        MovedEarlierGo(cfg, st, Next(cfg, st, e), id, c, TimeOf(e));
      }
    } else if e.Deliver? {
      InsertedRow(st.db, cfg.limits, cfg.hash, e.delivery);
      hide InsertReceived, Accepted, WellFormed;
    } else if e.RecoverJobs? {
      hide Restarted, WellFormed;
    } else if e.EnforceRetention? {
      RetainedEarlierGo(st, Next(cfg, st, e), cfg.limits.maxTerminal);
    } else {
      OtherEventsKeepRows(cfg, st, e);
      hide WellFormed;
    }
  }

  lemma SameRowsGo(st: State, next: State)
    requires next.db == st.db
    ensures EarlierGo(st, next)
  {
  }

  /**
   When a step of any run removes a row, that row was terminal, and it became terminal before every row that was
   terminal already and stays; rows of the same time go in the order of their identities.
   */
  lemma {:induction false} RetentionRemovesTheEarliestFinished(cfg: Config, events: seq<Event>, e: Event, gone: JobId, kept: JobId)
    requires Positive(cfg.limits) && WellFormed(Reached(cfg, events))
    requires var st, next := Reached(cfg, events), Next(cfg, Reached(cfg, events), e);
      gone in st.db.jobs && gone !in next.db.jobs && kept in next.db.jobs && Done(st, kept)
    ensures var st, times := Reached(cfg, events), FinishTimes(cfg, INITIAL, events, map[]);
      && Done(st, gone) && st.past.serials[gone] in times && st.past.serials[kept] in times
      && var (first, last) := (times[st.past.serials[gone]], times[st.past.serials[kept]]);
      && (first < last || (first == last && gone < kept))
  {
    ReachedFits(cfg, events);
    hide Inv, Next, Reached, FinishTimes, WellFormed;
    NextEarlierGo(cfg, Reached(cfg, events), e);
    TerminalRowsKeepTheirTime(cfg, events, gone);
    TerminalRowsKeepTheirTime(cfg, events, kept);
  }
}
