/** What the protocol guarantees over every run from an empty database. */
module ProtocolTheorems {
  import opened Results
  import opened Store
  import opened StoreProperties
  import opened Processor
  import opened Protocol
  import opened ProtocolSafety
  import opened ProtocolSteps

  /** Any sequence of events. That no run gets stuck on an ill-formed state is part of `RunKeepsInv`. */
  ghost function Run(cfg: Config, st: State, events: seq<Event>): State
    decreases |events|
  {
    if events == [] || !WellFormed(st) then st else Run(cfg, Next(cfg, st, events[0]), events[1..])
  }

  /** The invariant holds throughout every run, whatever the order of events. */
  lemma {:induction false} RunKeepsInv(cfg: Config, st: State, events: seq<Event>)
    requires Inv(cfg, st)
    ensures Inv(cfg, Run(cfg, st, events))
    decreases |events|
  {
    hide Inv, Next;
    InvImplies(cfg, st);
    if events != [] {
      NextKeepsInv(cfg, st, events[0]);
      RunKeepsInv(cfg, Next(cfg, st, events[0]), events[1..]);
    }
  }

  predicate Positive(limits: Limits) { limits.maxPending >= 1 && limits.maxTerminal >= 1 }

  lemma InitialFits(cfg: Config)
    requires Positive(cfg.limits)
    ensures Inv(cfg, INITIAL)
  {
    EmptyFits(cfg.limits, cfg.hash);
    hide StoreFits;
  }

  /** The state after a run from an empty database. */
  ghost function Reached(cfg: Config, events: seq<Event>): State { Run(cfg, INITIAL, events) }

  lemma ReachedFits(cfg: Config, events: seq<Event>)
    requires Positive(cfg.limits)
    ensures Inv(cfg, Reached(cfg, events))
  {
    hide Inv;
    InitialFits(cfg);
    RunKeepsInv(cfg, INITIAL, events);
  }

  /**
   Whatever is delivered, drained, cancelled, recovered or lost in a crash: an incarnation of a job
   has at most one spooler call more than it was recovered, and a retained row at most its retry_attempts.
   */
  lemma {:induction false} SpoolerCallsAreBounded(cfg: Config, events: seq<Event>, serial: nat, id: JobId)
    requires Positive(cfg.limits)
    ensures var st := Reached(cfg, events);
      && st.past.calls[serial] <= st.past.recovered[serial] + 1
      && (id in st.db.jobs ==>
            && id in st.past.serials
            && st.past.calls[st.past.serials[id]] <= st.db.jobs[id].retries <= st.db.jobs[id].recoveries + 1
            && st.past.recovered[st.past.serials[id]] == st.db.jobs[id].recoveries)
  {
    ReachedFits(cfg, events);
    var st := Reached(cfg, events);
    InvImplies(cfg, st);
    hide StoreFits, VolatileFits;
    if id in st.db.jobs {
      CallsOfRow(st, id);
      CountersOf(st.db, cfg.limits, cfg.hash, id);
    }
  }

  /** With the active lock free, the active jobs are exactly the in-flight one, and its row is Submitting. */
  lemma {:induction false} ActiveMeansSubmitting(cfg: Config, events: seq<Event>, id: JobId)
    requires Positive(cfg.limits)
    ensures var st := Reached(cfg, events);
      && (id in st.active <==> id in InFlight(st.drain))
      && (id in st.active ==> id in st.db.jobs && st.db.jobs[id].state == Submitting)
  {
    ReachedFits(cfg, events);
    hide Reached, StoreFits, HistoryFits, DrainFits, MemoryFits, ReceiptsFit;
  }

  // ---------- Cancellation ----------

  /** A cancelled incarnation is not in flight. */
  lemma CancelledIsGrounded(cfg: Config, st: State, serial: nat)
    requires Inv(cfg, st) && serial in st.past.cancelled
    ensures (st.drain.Claimed? || st.drain.Calling?) ==> st.drain.serial != serial
  {
    hide StoreFits, DrainFits, MemoryFits, ReceiptsFit;
    hide SerialsFit, CallsFit, FailuresFit, RowsReported, OutboxReported, IdentitiesFit;
  }

  lemma MovedCancelled(cfg: Config, st: State, id: JobId, c: Change, now: Time)
    requires WellFormed(st)
    ensures var after := Moved(cfg, st, id, c, now).0.past;
      after.cancelled == st.past.cancelled && after.calls == st.past.calls
  {
    hide Transition;
    if Transition(st.db, cfg.limits, id, c, now, true).1.Ok? {
      MovedRow(cfg, st, id, c, now);
    }
  }

  ghost predicate SameCalls(a: State, b: State, serial: nat) {
    (serial in a.past.cancelled ==> serial in b.past.cancelled) && a.past.calls[serial] == b.past.calls[serial]
  }

  lemma DrainEventsStartNoCall(cfg: Config, st: State, e: Event, serial: nat)
    requires WellFormed(st) && (e.FailEarly? || e.ClaimNext? || e.FinishCall?)
    ensures SameCalls(st, Next(cfg, st, e), serial)
  {
    hide Transition, WellFormed, FailureChange, ChangeAfterCall, Moved;
    match e {
      case FailEarly(error, report, at, now, fault) =>
        if st.drain.Draining? && st.drain.queue != [] {
          var job := st.drain.queue[0];
          MovedCancelled(cfg, st, job.id, FailureChange(job.row, error, job.id, report, at), now);
        }
      case ClaimNext(now, fault) =>
        if st.drain.Draining? && st.drain.queue != [] {
          MovedCancelled(cfg, st, st.drain.queue[0].id, Claim, now);
        }
      case FinishCall(result, report, at, now, fault) =>
        if st.drain.Calling? {
          var job := st.drain.job;
          MovedCancelled(cfg, st, job.id,
            ChangeAfterCall(job.row, result, job.id in st.active && st.active[job.id], job.id, report, at), now);
        }
    }
  }

  lemma OtherEventsStartNoCall(cfg: Config, st: State, e: Event, serial: nat)
    requires WellFormed(st) && !(e.FailEarly? || e.ClaimNext? || e.FinishCall? || e.StartCall?)
    ensures SameCalls(st, Next(cfg, st, e), serial)
  {
    hide FailedEarly, ClaimedNext, CallFinished, Transition, InsertReceived, Moved, Retain, Snapshot, OutboxMessages;
    hide WellFormed, Acknowledge, SerialsOf, Remaining, Messages;
    if e.CancelJob? {
      MovedCancelled(cfg, st, e.id, Cancel, e.now);
    }
  }

  /** Only starting a call starts a call, and no event forgets a cancellation. */
  lemma NextCancelled(cfg: Config, st: State, e: Event, serial: nat)
    requires Inv(cfg, st) && serial in st.past.cancelled
    ensures WellFormed(st) && SameCalls(st, Next(cfg, st, e), serial)
  {
    InvImplies(cfg, st);
    CancelledIsGrounded(cfg, st, serial);
    hide Inv, WellFormed;
    if e.StartCall? {
      assert Next(cfg, st, e) == CallStarted(st);
    } else {
      hide Next, SameCalls;
      if e.FailEarly? || e.ClaimNext? || e.FinishCall? {
        DrainEventsStartNoCall(cfg, st, e, serial);
      } else {
        OtherEventsStartNoCall(cfg, st, e, serial);
      }
    }
  }

  lemma {:induction false} RunCancelled(cfg: Config, st: State, events: seq<Event>, serial: nat)
    requires Inv(cfg, st) && serial in st.past.cancelled
    ensures serial in Run(cfg, st, events).past.cancelled
    ensures Run(cfg, st, events).past.calls[serial] == st.past.calls[serial]
    decreases |events|
  {
    hide Inv, Next;
    InvImplies(cfg, st);
    if events != [] {
      NextKeepsInv(cfg, st, events[0]);
      NextCancelled(cfg, st, events[0], serial);
      RunCancelled(cfg, Next(cfg, st, events[0]), events[1..], serial);
    }
  }

  /**
   Cancellation linearizes with submission: when `cancel_job` answers Cancelled, the row is
   Cancelled, no spooler call for it is in flight, and none ever starts in any continuation.
   */
  lemma {:induction false} CancelledMeansNeverAgain(cfg: Config, events: seq<Event>, id: JobId, now: Time, fault: bool, later: seq<Event>)
    requires Positive(cfg.limits)
    requires var st := Reached(cfg, events);
      WellFormed(st) && CancelRequested(cfg, st, id, now, fault).1 == Ok(CancelledNow)
    ensures var st := Reached(cfg, events);
      var after := CancelRequested(cfg, st, id, now, fault).0;
      && id in st.past.serials && id in after.db.jobs && after.db.jobs[id].state == JobState.Cancelled
      && id !in InFlight(after.drain)
      && var end := Run(cfg, after, later);
      && end.past.calls[st.past.serials[id]] == st.past.calls[st.past.serials[id]]
      && ((end.drain.Claimed? || end.drain.Calling?) ==> end.drain.serial != st.past.serials[id])
  {
    ReachedFits(cfg, events);
    var st := Reached(cfg, events);
    var after := CancelRequested(cfg, st, id, now, fault).0;
    InvImplies(cfg, st);
    NotActive(st, id);
    hide Inv, Reached, Run, VolatileFits, HistoryFits, StoreFits;
    CancelKeepsInv(cfg, st, id, now, fault);
    MovedRow(cfg, st, id, Cancel, now);
    hide Transition, Moved;
    RunCancelled(cfg, after, later, st.past.serials[id]);
    RunKeepsInv(cfg, after, later);
    CancelledIsGrounded(cfg, Run(cfg, after, later), st.past.serials[id]);
  }

  // ---------- Reports and receipts ----------

  /**
   No terminal report is lost: a retained Submitted row, and a retained row failed with a status,
   has exactly that report in the outbox or already accepted by the reporter.
   */
  lemma {:induction false} NoReportIsLost(cfg: Config, events: seq<Event>, id: JobId)
    requires Positive(cfg.limits)
    ensures var st := Reached(cfg, events);
      id in st.db.jobs ==>
        && id in st.past.serials
        && (st.db.jobs[id].state == Submitted ==> st.past.serials[id] in st.past.committed)
        && (st.past.serials[id] in st.past.committed ==>
              var report := st.past.committed[st.past.serials[id]];
              && report.job == id
              && (report.kind == JobSubmitted <==> st.db.jobs[id].state == Submitted)
              && (report.kind.JobFailed? <==> st.db.jobs[id].state == Failed)
              && (report.kind.JobFailed? ==> st.db.jobs[id].error == Some(report.kind.error))
              && (report in st.past.delivered
                  || (report.id in st.db.outbox && st.db.outbox[report.id].message == report)))
  {
    ReachedFits(cfg, events);
    hide Reached, StoreFits, VolatileFits, SerialsFit, CallsFit, CancelFits, FailuresFit, OutboxReported, IdentitiesFit;
    var st := Reached(cfg, events);
    if id in st.db.jobs && st.past.serials[id] in st.past.committed {
      assert ReportFits(id, st.db.jobs[id], st.db.outbox, st.past.delivered, st.past.committed[st.past.serials[id]]);
    }
  }

  /** Nothing reaches the reporter, or is about to, that was not committed with a terminal row before. */
  lemma {:induction false} ReportsFollowCommits(cfg: Config, events: seq<Event>, m: Message)
    requires Positive(cfg.limits)
    ensures var st := Reached(cfg, events);
      m in st.past.delivered || m in st.reports || m in st.unacknowledged ==> m in st.past.committed.Values
  {
    ReachedFits(cfg, events);
    hide Reached, StoreFits, HistoryFits, ClaimFits, FlightFits, DrainFits, ReceiptsFit;
  }

  /** No receipt is sent, or about to be, for a job that was never durable. */
  lemma {:induction false} ReceiptsFollowInserts(cfg: Config, events: seq<Event>, m: Message)
    requires Positive(cfg.limits)
    ensures var st := Reached(cfg, events);
      m in st.past.acknowledged || m in st.receipts ==> m.kind == JobReceived && m.job in st.past.durable
  {
    ReachedFits(cfg, events);
    hide Reached, StoreFits, HistoryFits, ClaimFits, FlightFits, DrainFits, MemoryFits;
  }

  /** After one recovery the earlier attempt may have printed: the processor only fails the row for good. */
  lemma {:induction false} RecoveredJobsFailForGood(cfg: Config, events: seq<Event>, id: JobId)
    requires Positive(cfg.limits)
    ensures var st := Reached(cfg, events);
      id in st.db.jobs && st.db.jobs[id].state == Failed && st.db.jobs[id].recoveries > 0 ==>
        st.db.jobs[id].error.Some? && !st.db.jobs[id].error.value.retryable
  {
    ReachedFits(cfg, events);
    hide Reached, StoreFits, VolatileFits, SerialsFit, CallsFit, CancelFits, RowsReported, OutboxReported, IdentitiesFit;
  }

  // ---------- What is submitted ----------

  /** The spooler gets the document of the row it was claimed for, if the drain read that incarnation of it. */
  lemma {:induction false} DocumentOfIncarnation(cfg: Config, events: seq<Event>)
    requires Positive(cfg.limits)
    ensures var st := Reached(cfg, events);
      (st.drain.Claimed? || st.drain.Calling?) && st.drain.job.serial == st.drain.serial ==>
        st.drain.job.id in st.db.jobs && SameDocument(st.drain.job.row, st.db.jobs[st.drain.job.id])
  {
    ReachedFits(cfg, events);
    hide Reached, StoreFits, HistoryFits, ClaimFits, DrainFits, MemoryFits, ReceiptsFit;
  }
}
