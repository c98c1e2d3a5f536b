/** A drain that nothing disturbs: what its steps do to the rows still waiting. */
module ProtocolDrain {
  import opened Results
  import opened Ordering
  import opened Store
  import opened StoreProperties
  import opened Processor
  import opened Protocol
  import opened ProtocolSafety
  import opened ProtocolSteps

  function QueuedIds(queue: seq<Queued>): set<JobId> { set i | 0 <= i < |queue| :: queue[i].id }

  ghost predicate NoRepeats(queue: seq<Queued>) {
    forall i, j :: 0 <= i < j < |queue| ==> queue[i].id != queue[j].id
  }

  /** The queue lists exactly the rows that wait to be claimed. */
  ghost predicate Waiting(st: State) {
    && st.drain.Draining? && NoRepeats(st.drain.queue) && st.active == map[]
    && ReceivedJobs(st.db.jobs) == QueuedIds(st.drain.queue)
  }

  lemma TailWaits(queue: seq<Queued>)
    requires queue != [] && NoRepeats(queue)
    ensures NoRepeats(queue[1..]) && QueuedIds(queue[1..]) == QueuedIds(queue) - {queue[0].id}
  {
    assert forall id :: id in QueuedIds(queue[1..]) ==> id in QueuedIds(queue) && id != queue[0].id by {
      forall id | id in QueuedIds(queue[1..]) ensures id in QueuedIds(queue) && id != queue[0].id {
        var i :| 0 <= i < |queue[1..]| && queue[1..][i].id == id;
        assert queue[i + 1].id == id;
      }
    }
    forall id | id in QueuedIds(queue) && id != queue[0].id ensures id in QueuedIds(queue[1..]) {
      var i :| 0 <= i < |queue| && queue[i].id == id;
      assert queue[1..][i - 1].id == id;
    }
  }

  lemma PendingOnce(db: Db)
    ensures forall i, j :: 0 <= i < j < |PendingIds(db)| ==> PendingIds(db)[i] != PendingIds(db)[j]
    ensures forall id :: id in PendingIds(db) <==> id in ReceivedJobs(db.jobs)
  {
  }

  lemma ListedQueue(ids: seq<JobId>, jobs: map<JobId, Job>, serials: map<JobId, nat>)
    requires forall i :: 0 <= i < |ids| ==> ids[i] in jobs && ids[i] in serials
    requires forall i, j :: 0 <= i < j < |ids| ==> ids[i] != ids[j]
    ensures NoRepeats(Listed(ids, jobs, serials))
    ensures forall id :: id in QueuedIds(Listed(ids, jobs, serials)) <==> id in ids
  {
    var queue := Listed(ids, jobs, serials);
    forall id | id in ids ensures id in QueuedIds(queue) {
      var i :| 0 <= i < |ids| && ids[i] == id;
      assert queue[i].id == id;
    }
  }

  lemma SnapshotLists(st: State)
    requires WellFormed(st)
    ensures NoRepeats(Snapshot(st)) && QueuedIds(Snapshot(st)) == ReceivedJobs(st.db.jobs)
    ensures |Snapshot(st)| == |PendingIds(st.db)|
    ensures forall i :: 0 <= i < |Snapshot(st)| ==>
      Snapshot(st)[i].id == PendingIds(st.db)[i] && Snapshot(st)[i].id in st.db.jobs
      && Snapshot(st)[i].row == st.db.jobs[Snapshot(st)[i].id]
  {
    PendingAreReceived(st.db);
    PendingOnce(st.db);
    hide PendingIds, KeysUnique, NoRepeats, QueuedIds;
    ListedQueue(PendingIds(st.db), st.db.jobs, st.past.serials);
  }

  lemma BeginIs(cfg: Config, st: State)
    requires WellFormed(st) && st.drain.Idle?
    ensures Next(cfg, st, BeginDrain) == st.(drain := Draining(Snapshot(st), []))
  {
    hide WellFormed, Snapshot;
  }

  lemma SnapshotWaits(st: State)
    requires WellFormed(st) && st.active == map[]
    ensures Waiting(st.(drain := Draining(Snapshot(st), [])))
  {
    SnapshotLists(st);
    hide WellFormed, Snapshot, NoRepeats, QueuedIds, ReceivedJobs;
  }

  lemma BeginWaits(cfg: Config, st: State)
    requires Inv(cfg, st) && st.drain.Idle?
    ensures WellFormed(st)
    ensures Next(cfg, st, BeginDrain) == st.(drain := Draining(Snapshot(st), []))
    ensures Waiting(Next(cfg, st, BeginDrain))
  {
    hide *;
    InvImplies(cfg, st);
    IdleIsQuiet(cfg, st);
    SnapshotWaits(st);
    BeginIs(cfg, st);
  }

  lemma IdleIsQuiet(cfg: Config, st: State)
    requires Inv(cfg, st) && st.drain.Idle?
    ensures st.active == map[]
  {
  }

  /** Retention touches no row that still waits or is claimed. */
  lemma TrimKeepsOpen(before: Db, after: Db)
    requires Trimmed(before, after)
    ensures ReceivedJobs(after.jobs) == ReceivedJobs(before.jobs) && Claiming(after.jobs) == Claiming(before.jobs)
  {
  }

  lemma UpdateTakesOne(db: Db, id: JobId, c: Change, now: Time)
    requires id in db.jobs && Allowed(db.jobs[id].state, Requested(c))
    ensures var jobs := UpdatedDb(db, id, c, now).jobs;
      && ReceivedJobs(jobs) == ReceivedJobs(db.jobs) - {id}
      && Claiming(jobs) == if c.Claim? then Claiming(db.jobs) + {id} else Claiming(db.jobs) - {id}
  {
  }

  /** A row update takes at most its own row out of the waiting ones, and claims or releases no other. */
  lemma MoveTakesOne(cfg: Config, st: State, id: JobId, c: Change, now: Time)
    requires WellFormed(st) && Transition(st.db, cfg.limits, id, c, now, true).1.Ok?
    ensures var jobs := Moved(cfg, st, id, c, now).0.db.jobs;
      && ReceivedJobs(jobs) == ReceivedJobs(st.db.jobs) - {id}
      && Claiming(jobs) == if c.Claim? then Claiming(st.db.jobs) + {id} else Claiming(st.db.jobs) - {id}
  {
    hide Transition, WellFormed, ReceivedJobs, Claiming, Trimmed, UpdatedDb;
    TransitionTrims(st.db, cfg.limits, id, c, now);
    UpdateTakesOne(st.db, id, c, now);
    TrimKeepsOpen(UpdatedDb(st.db, id, c, now), Transition(st.db, cfg.limits, id, c, now, true).0);
  }

  lemma OutboxIsUsed(cfg: Config, st: State, m: MessageId)
    requires Inv(cfg, st) && m in st.db.outbox
    ensures m in st.past.used
  {
    assert StatusFits(st.db.outbox[m], m, st.past.serials, st.past.committed);
  }

  /** With a fresh report identity the only obstacle is the row's state. */
  lemma AllowedMovesSucceed(cfg: Config, st: State, id: JobId, c: Change, now: Time)
    requires Inv(cfg, st) && id in st.db.jobs && Allowed(st.db.jobs[id].state, Requested(c))
    requires ReportOf(c).Some? ==> ReportOf(c).value.job == id && ReportOf(c).value.id !in st.past.used
    ensures Transition(st.db, cfg.limits, id, c, now, true).1.Ok?
  {
    hide Inv, Retain;
    if ReportOf(c).Some? && ReportOf(c).value.id in st.db.outbox {
      OutboxIsUsed(cfg, st, ReportOf(c).value.id);
    }
  }

  lemma HeadIsReceived(st: State)
    requires Waiting(st) && st.drain.queue != []
    ensures st.drain.queue[0].id in st.db.jobs && st.db.jobs[st.drain.queue[0].id].state == Received
    ensures NoRepeats(st.drain.queue[1..])
    ensures ReceivedJobs(st.db.jobs) - {st.drain.queue[0].id} == QueuedIds(st.drain.queue[1..])
  {
    assert st.drain.queue[0].id in QueuedIds(st.drain.queue);
    TailWaits(st.drain.queue);
    hide NoRepeats, QueuedIds;
  }

  lemma ReceivedMayFail(job: Job, c: Change)
    requires job.state == Received && (c.Fail? || c.Claim?)
    ensures Allowed(job.state, Requested(c))
  {
  }

  /** An undisturbed early failure commits and moves on. */
  lemma FailWaits(cfg: Config, st: State, e: Event)
    requires Inv(cfg, st) && Waiting(st) && st.drain.queue != [] && e.FailEarly? && !e.fault
    requires e.report.Some? ==> e.report.value !in st.past.used
    ensures WellFormed(st)
    ensures var after := Next(cfg, st, e);
      && Waiting(after) && after.drain.Draining? && after.drain.queue == st.drain.queue[1..]
      && after.past.calls == st.past.calls
      && after.past.used <= st.past.used + (if e.report.Some? then {e.report.value} else {})
      && Claiming(after.db.jobs) <= Claiming(st.db.jobs)
      && after.drain.outcomes == st.drain.outcomes + ReportMessages(
           FailureChange(st.drain.queue[0].row, e.error, st.drain.queue[0].id, e.report, e.at))
  {
    hide Inv, StoreFits, HistoryFits, VolatileFits, WellFormed, KeysUnique, Transition, Next, Moved, FailureChange;
    hide QueuedIds, NoRepeats, ReceivedJobs, Claiming, ReportMessages;
    InvImplies(cfg, st);
    var job := st.drain.queue[0];
    var c := FailureChange(job.row, e.error, job.id, e.report, e.at);
    HeadIsReceived(st);
    FailEarlyIs(cfg, st, e, c);
    ReceivedMayFail(st.db.jobs[job.id], c);
    AllowedMovesSucceed(cfg, st, job.id, c, e.now);
    MoveTakesOne(cfg, st, job.id, c, e.now);
    MovedDb(cfg, st, job.id, c, e.now);
  }

  /** The undisturbed submission of the first waiting job: claim, call, commit. */
  ghost predicate JustClaimed(st: State, after: State) {
    && st.drain.Draining? && st.drain.queue != []
    && after.drain.Claimed? && after.drain.job == st.drain.queue[0] && after.drain.queue == st.drain.queue[1..]
    && after.active == map[st.drain.queue[0].id := false]
    && after.drain.outcomes == st.drain.outcomes && after.past.calls == st.past.calls && after.past.used == st.past.used
    && ReceivedJobs(after.db.jobs) == QueuedIds(st.drain.queue[1..]) && NoRepeats(st.drain.queue[1..])
    && Claiming(after.db.jobs) == Claiming(st.db.jobs) + {st.drain.queue[0].id}
    && st.drain.queue[0].id in st.past.serials && after.drain.serial == st.past.serials[st.drain.queue[0].id]
  }

  lemma ClaimMoves(cfg: Config, st: State, now: Time)
    requires Inv(cfg, st) && Waiting(st) && st.drain.queue != []
    ensures WellFormed(st)
    ensures var id := st.drain.queue[0].id;
      && Transition(st.db, cfg.limits, id, Claim, now, true).1.Ok? && id in st.past.serials
      && var moved := Moved(cfg, st, id, Claim, now).0;
      && moved.past.calls == st.past.calls && moved.past.used == st.past.used
      && Claiming(moved.db.jobs) == Claiming(st.db.jobs) + {id}
      && ReceivedJobs(moved.db.jobs) == QueuedIds(st.drain.queue[1..]) && NoRepeats(st.drain.queue[1..])
  {
    InvImplies(cfg, st);
    hide Inv, StoreFits, HistoryFits, VolatileFits, KeysUnique, Transition;
    var job := st.drain.queue[0];
    assert job.id in QueuedIds(st.drain.queue);
    AllowedMovesSucceed(cfg, st, job.id, Claim, now);
    MoveTakesOne(cfg, st, job.id, Claim, now);
    MovedRow(cfg, st, job.id, Claim, now);
    TailWaits(st.drain.queue);
  }

  lemma ClaimSucceeds(cfg: Config, st: State, now: Time)
    requires Inv(cfg, st) && Waiting(st) && st.drain.queue != []
    ensures WellFormed(st)
    ensures JustClaimed(st, Next(cfg, st, ClaimNext(now, false)))
  {
    hide Inv, StoreFits, HistoryFits, VolatileFits, KeysUnique, Transition, QueuedIds, NoRepeats, Claiming;
    ClaimMoves(cfg, st, now);
    hide Moved;
  }

  /** After the call the commit succeeds and the drain goes on waiting. */
  lemma FinishWaits(cfg: Config, st: State, before: State, claimed: State, e: Event)
    requires JustClaimed(before, claimed) && WellFormed(before) && st == CallStarted(claimed)
    requires Inv(cfg, st) && e.FinishCall? && !e.fault && e.reportId !in st.past.used
    ensures WellFormed(st)
    ensures var after := Next(cfg, st, e);
      && Waiting(after) && after.drain.Draining? && after.drain.queue == before.drain.queue[1..]
      && after.past.calls == before.past.calls + multiset{claimed.drain.serial}
      && after.past.used <= before.past.used + {e.reportId}
      && Claiming(after.db.jobs) <= Claiming(before.db.jobs)
      && after.drain.outcomes == before.drain.outcomes + ReportMessages(
           ChangeAfterCall(claimed.drain.job.row, e.result, false, claimed.drain.job.id, e.reportId, e.at))
  {
    hide Inv, StoreFits, HistoryFits, VolatileFits, KeysUnique, Transition, QueuedIds, NoRepeats, ReceivedJobs;
    hide Next, ChangeAfterCall, WellFormed, Moved, Claiming, ReportMessages;
    InvImplies(cfg, st);
    InFlightRow(st);
    var job := st.drain.job;
    var c := ChangeAfterCall(job.row, e.result, job.id in st.active && st.active[job.id], job.id, e.reportId, e.at);
    ReportIdOf(job.row, e, job.id in st.active && st.active[job.id], job.id, c);
    AllowedMovesSucceed(cfg, st, job.id, c, e.now);
    MoveTakesOne(cfg, st, job.id, c, e.now);
    FinishCallIs(cfg, st, e, c);
    MovedDb(cfg, st, job.id, c, e.now);
    NotReceived(st.db.jobs, job.id);
    assert map[job.id := false] - {job.id} == map[];
  }

  lemma MovedDb(cfg: Config, st: State, id: JobId, c: Change, now: Time)
    requires WellFormed(st) && Transition(st.db, cfg.limits, id, c, now, true).1.Ok?
    ensures Moved(cfg, st, id, c, now).0.db == Transition(st.db, cfg.limits, id, c, now, true).0
  {
    hide Transition;
  }

  lemma NotReceived(jobs: map<JobId, Job>, id: JobId)
    requires id in jobs && jobs[id].state != Received
    ensures ReceivedJobs(jobs) - {id} == ReceivedJobs(jobs)
  {
  }

  lemma ClaimUses(cfg: Config, st: State, now: Time, fault: bool)
    requires WellFormed(st)
    ensures Next(cfg, st, ClaimNext(now, fault)).past.used == st.past.used
  {
    hide Transition, WellFormed;
    if st.drain.Draining? && st.drain.queue != [] && Transition(st.db, cfg.limits, st.drain.queue[0].id, Claim, now, true).1.Ok? {
      MovedRow(cfg, st, st.drain.queue[0].id, Claim, now);
    }
  }

  lemma FinishUses(cfg: Config, st: State, e: Event)
    requires WellFormed(st) && e.FinishCall? && !e.fault && st.drain.Calling? && e.reportId !in st.past.used
    ensures Next(cfg, st, e).past.used <= st.past.used + {e.reportId}
    ensures Next(cfg, st, e).drain.Draining? ==> Next(cfg, st, e).drain.queue == st.drain.queue
  {
    var id := st.drain.job.id;
    FinishCallIs(cfg, st, e,
      ChangeAfterCall(st.drain.job.row, e.result, id in st.active && st.active[id], id, e.reportId, e.at));
    hide Next;
  }
}
