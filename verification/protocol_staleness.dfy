/**
 Without the flow lock a drain can outlive the row it read: a host that drives the processor directly can have
 a job cancelled, evicted by retention and delivered again between the reading and the claim.
 */
module ProtocolStaleness {
  import opened Results
  import opened Ordering
  import opened Store
  import opened StoreProperties
  import opened Processor
  import opened Protocol
  import opened ProtocolSafety
  import opened ProtocolSteps
  import opened ProtocolTheorems
  import opened ProtocolFlow

  // ---------- The run ----------

  /** The k-th job to fill the terminal table, and the first one again with another document. */
  function Numbered(k: nat, content: nat): Delivery { Delivery(k, k, 0, Document(content), 0, 0) }

  /** Jobs from the first to the last of these numbers, each delivered and cancelled. */
  function Fill(first: nat, last: nat): seq<Event>
    decreases last + 1 - first
  {
    if first > last then []
    else [Deliver(Numbered(first, 0), first)] + ([CancelJob(first, first, false)] + Fill(first + 1, last))
  }

  /** One job is read and cancelled, the next ones push it out of the table, and it is delivered again. */
  function StaleRun(maxTerminal: nat): seq<Event> {
    [Deliver(Numbered(1, 1), 1)] + ([BeginDrain] + ([CancelJob(1, 1, false)]
      + (Fill(2, maxTerminal + 1) + ([Deliver(Numbered(1, 2), maxTerminal + 2)] + ([ClaimNext(0, false)] + [])))))
  }

  // ---------- Its states ----------

  /** The rows are the cancelled jobs of these numbers, in the order of their numbers. */
  ghost predicate Cancelleds(jobs: map<JobId, Job>, first: nat, last: nat) {
    && (forall id :: id in jobs <==> first <= id <= last)
    && (forall id :: id in jobs ==> jobs[id].state == Cancelled && jobs[id].key == id && jobs[id].updatedAt == id)
  }

  /** The drain still holds the first job as it was delivered first; no identity above the last was used. */
  ghost predicate Holding(st: State, last: nat) {
    && st.drain.Draining? && st.drain.queue != []
    && st.drain.queue[0].id == 1 && st.drain.queue[0].row.payload == Document(1)
    && st.active == map[] && st.db.outbox == map[] && (forall m :: m in st.past.used ==> m <= last)
  }

  ghost predicate Filled(st: State, first: nat, last: nat) {
    Cancelleds(st.db.jobs, first, last) && Holding(st, last)
  }

  // ---------- Retention at the limit ----------

  lemma RangeSize(s: set<nat>, first: int, last: int)
    requires 0 <= first <= last + 1 && forall id :: id in s <==> first <= id <= last
    ensures |s| == last + 1 - first
    decreases last + 1 - first
  {
    if first > last {
      assert s == {};
    } else {
      RangeSize(s - {last}, first, last - 1);
    }
  }

  /** Cancelling the newest row drops nothing while there is room, and the very oldest row when there is not. */
  lemma DoomedNow(jobs: map<JobId, Job>, first: nat, last: nat, maximum: nat)
    requires Cancelleds(jobs, first, last) && 0 <= last - first <= maximum && maximum >= 1
    ensures Doomed(jobs, maximum, Some(last)) == if last - first == maximum then {first} else {}
  {
    RangeSize(Terminal(jobs), first, last);
    var deletable := Deletable(jobs, Some(last));
    assert deletable == Terminal(jobs) - {last};
    hide Doomed;
    if last - first == maximum {
      assert Excess(jobs, maximum) == 1;
      assert first in deletable && |{first}| == 1;
      assert Oldest(UpdatedAt(jobs), deletable, {first}, 1);
      OldestIsUnique(UpdatedAt(jobs), deletable, Doomed(jobs, maximum, Some(last)), {first}, 1);
    } else {
      assert Doomed(jobs, maximum, Some(last)) == {};
    }
  }

  lemma WithoutDoomed(jobs: map<JobId, Job>, first: nat, last: nat, doomed: set<JobId>, next: nat)
    requires Cancelleds(jobs, first, last) && first <= next
    requires forall id :: id in doomed <==> first <= id < next
    ensures Cancelleds(Delete(Db(Pruned(jobs), map[]), doomed).jobs, next, last)
    ensures Delete(Db(Pruned(jobs), map[]), doomed).outbox == map[]
  {
  }

  lemma RetainNow(jobs: map<JobId, Job>, first: nat, last: nat, maximum: nat)
    requires Cancelleds(jobs, first, last) && 0 <= last - first <= maximum && maximum >= 1
    ensures var after := Retain(Db(jobs, map[]), maximum, Some(last), true);
      after.outbox == map[] && Cancelleds(after.jobs, if last - first == maximum then first + 1 else first, last)
  {
    hide Doomed, Delete, Pruned, Cancelleds;
    DoomedNow(jobs, first, last, maximum);
    WithoutDoomed(jobs, first, last, Doomed(jobs, maximum, Some(last)), if last - first == maximum then first + 1 else first);
  }

  /** Cancelling the newest row, with every older one cancelled already. */
  lemma CancelNow(before: map<JobId, Job>, row: Job, limits: Limits, first: nat, id: JobId)
    requires row.state == Received && row.key == id && Positive(limits) && 1 <= id && 0 <= id - first <= limits.maxTerminal
    requires Cancelleds(before, first, id - 1)
    ensures var (after, r) := Transition(Db(before[id := row], map[]), limits, id, Cancel, id, true);
      r.Ok? && after.outbox == map[]
      && Cancelleds(after.jobs, if id - first == limits.maxTerminal then first + 1 else first, id)
  {
    hide Retain;
    var jobs := before[id := row][id := Changed(row, Cancel, id)];
    RetainNow(jobs, first, id, limits.maxTerminal);
  }

  lemma InsertAmongCancelled(db: Db, limits: Limits, hash: Payload -> nat, d: Delivery)
    requires KeysUnique(db.jobs) && Positive(limits) && d.id !in db.jobs
    requires forall id :: id in db.jobs ==> db.jobs[id].state == Cancelled && db.jobs[id].key != d.key
    ensures InsertReceived(db, limits, hash, d) == (db.(jobs := db.jobs[d.id := Accepted(d, hash)]), Ok(Inserted))
  {
    assert Owners(db.jobs, d.key) == {};
    assert Pending(db.jobs) == {};
  }

  // ---------- The steps ----------

  lemma DeliverNow(cfg: Config, st: State, d: Delivery, ack: MessageId)
    requires WellFormed(st) && Positive(cfg.limits) && d.id !in st.db.jobs && ack !in st.past.used
    requires forall id :: id in st.db.jobs ==> st.db.jobs[id].state == Cancelled && st.db.jobs[id].key != d.key
    ensures var after := Next(cfg, st, Deliver(d, ack));
      && after.db == st.db.(jobs := st.db.jobs[d.id := Accepted(d, cfg.hash)])
      && after.active == st.active && after.drain == st.drain && after.past.used == st.past.used + {ack}
  {
    hide KeysUnique;
    InsertAmongCancelled(st.db, cfg.limits, cfg.hash, d);
    hide InsertReceived, Accepted;
  }

  lemma CancelStep(cfg: Config, st: State, before: map<JobId, Job>, first: nat, id: JobId)
    requires WellFormed(st) && Positive(cfg.limits) && id !in st.active && st.db.outbox == map[]
    requires 1 <= id && 0 <= id - first <= cfg.limits.maxTerminal && Cancelleds(before, first, id - 1)
    requires id in st.db.jobs && st.db.jobs == before[id := st.db.jobs[id]]
    requires st.db.jobs[id].state == Received && st.db.jobs[id].key == id
    ensures var after := Next(cfg, st, CancelJob(id, id, false));
      && Cancelleds(after.db.jobs, if id - first == cfg.limits.maxTerminal then first + 1 else first, id)
      && after.db.outbox == map[] && after.active == st.active && after.drain == st.drain && after.past.used == st.past.used
  {
    hide KeysUnique, Transition, Cancelleds;
    CancelNow(before, st.db.jobs[id], cfg.limits, first, id);
    assert st.db == Db(before[id := st.db.jobs[id]], map[]);
  }

  lemma DrainReads(cfg: Config, st: State, id: JobId)
    requires WellFormed(st) && st.drain.Idle? && st.db.outbox == map[]
    requires st.db.jobs.Keys == {id} && st.db.jobs[id].state == Received
    ensures Next(cfg, st, BeginDrain)
         == st.(drain := Draining([Queued(id, st.db.jobs[id], st.past.serials[id])], []))
  {
    hide KeysUnique, PendingIds;
    OnlyRow(st.db.jobs, id);
    assert st.db == Db(st.db.jobs, map[]);
    assert Snapshot(st) == [Queued(id, st.db.jobs[id], st.past.serials[id])];
  }

  lemma OnlyRow(jobs: map<JobId, Job>, id: JobId)
    requires jobs.Keys == {id} && jobs[id].state == Received
    ensures PendingIds(Db(jobs, map[])) == [id]
  {
    var ids := PendingIds(Db(jobs, map[]));
    assert ReceivedJobs(jobs) == {id};
    assert id in ids && |ids| == 1;
    hide *;
    assert ids == [ids[0]];
  }

  lemma ClaimNow(cfg: Config, st: State, now: Time)
    requires WellFormed(st) && st.drain.Draining? && st.drain.queue != []
    requires var id := st.drain.queue[0].id; id in st.db.jobs && st.db.jobs[id].state == Received
    ensures var after, id := Next(cfg, st, ClaimNext(now, false)), st.drain.queue[0].id;
      && after.drain.Claimed? && after.drain.job == st.drain.queue[0]
      && id in after.db.jobs && after.db.jobs[id].payload == st.db.jobs[id].payload
  {
    hide KeysUnique;
  }

  lemma RunStep(cfg: Config, st: State, e: Event, rest: seq<Event>)
    requires Inv(cfg, st)
    ensures WellFormed(st) && Inv(cfg, Next(cfg, st, e)) && Run(cfg, st, [e] + rest) == Run(cfg, Next(cfg, st, e), rest)
  {
    hide Inv, Next, WellFormed;
    NextKeepsInv(cfg, st, e);
    assert ([e] + rest)[1..] == rest;
  }

  // ---------- The run, step by step ----------

  /** One more job delivered and cancelled. */
  lemma Round(cfg: Config, st: State, id: JobId, rest: seq<Event>) returns (end: State)
    requires Positive(cfg.limits) && Inv(cfg, st) && 2 <= id <= cfg.limits.maxTerminal + 1 && Filled(st, 1, id - 1)
    ensures Inv(cfg, end) && Filled(end, if id == cfg.limits.maxTerminal + 1 then 2 else 1, id)
    ensures Run(cfg, st, [Deliver(Numbered(id, 0), id)] + ([CancelJob(id, id, false)] + rest)) == Run(cfg, end, rest)
  {
    hide Inv, Run, Next;
    RunStep(cfg, st, Deliver(Numbered(id, 0), id), [CancelJob(id, id, false)] + rest);
    DeliverNow(cfg, st, Numbered(id, 0), id);
    var middle := Next(cfg, st, Deliver(Numbered(id, 0), id));
    RunStep(cfg, middle, CancelJob(id, id, false), rest);
    CancelStep(cfg, middle, st.db.jobs, 1, id);
    end := Next(cfg, middle, CancelJob(id, id, false));
  }

  lemma {:induction false} FillRuns(cfg: Config, st: State, id: JobId, rest: seq<Event>) returns (end: State)
    requires Positive(cfg.limits) && Inv(cfg, st) && 2 <= id <= cfg.limits.maxTerminal + 1 && Filled(st, 1, id - 1)
    ensures Inv(cfg, end) && Filled(end, 2, cfg.limits.maxTerminal + 1)
    ensures Run(cfg, st, Fill(id, cfg.limits.maxTerminal + 1) + rest) == Run(cfg, end, rest)
    decreases cfg.limits.maxTerminal + 1 - id
  {
    hide Inv, Run, Filled;
    var last := cfg.limits.maxTerminal + 1;
    var after := Fill(id + 1, last) + rest;
    assert Fill(id, last) + rest == [Deliver(Numbered(id, 0), id)] + ([CancelJob(id, id, false)] + after);
    end := Round(cfg, st, id, after);
    if id < last {
      end := FillRuns(cfg, end, id + 1, rest);
    } else {
      assert after == rest;
    }
  }

  lemma Begin(cfg: Config, rest: seq<Event>) returns (st: State)
    requires Positive(cfg.limits)
    ensures Inv(cfg, st) && Filled(st, 1, 1)
    ensures Reached(cfg, [Deliver(Numbered(1, 1), 1)] + ([BeginDrain] + ([CancelJob(1, 1, false)] + rest))) == Run(cfg, st, rest)
  {
    hide Inv, Run, Next;
    InitialFits(cfg);
    RunStep(cfg, INITIAL, Deliver(Numbered(1, 1), 1), [BeginDrain] + ([CancelJob(1, 1, false)] + rest));
    DeliverNow(cfg, INITIAL, Numbered(1, 1), 1);
    var s1 := Next(cfg, INITIAL, Deliver(Numbered(1, 1), 1));
    RunStep(cfg, s1, BeginDrain, [CancelJob(1, 1, false)] + rest);
    DrainReads(cfg, s1, 1);
    var s2 := Next(cfg, s1, BeginDrain);
    RunStep(cfg, s2, CancelJob(1, 1, false), rest);
    CancelStep(cfg, s2, map[], 1, 1);
    st := Next(cfg, s2, CancelJob(1, 1, false));
  }

  lemma End(cfg: Config, st: State) returns (end: State)
    requires Positive(cfg.limits) && Inv(cfg, st) && Filled(st, 2, cfg.limits.maxTerminal + 1)
    ensures end == Run(cfg, st, [Deliver(Numbered(1, 2), cfg.limits.maxTerminal + 2)] + ([ClaimNext(0, false)] + []))
    ensures end.drain.Claimed? && end.drain.job.id in end.db.jobs
    ensures end.drain.job.row.payload == Document(1) && end.db.jobs[end.drain.job.id].payload == Document(2)
  {
    hide Inv, Run, Next;
    var ack := cfg.limits.maxTerminal + 2;
    RunStep(cfg, st, Deliver(Numbered(1, 2), ack), [ClaimNext(0, false)] + []);
    DeliverNow(cfg, st, Numbered(1, 2), ack);
    var s1 := Next(cfg, st, Deliver(Numbered(1, 2), ack));
    RunStep(cfg, s1, ClaimNext(0, false), []);
    ClaimNow(cfg, s1, 0);
    end := Next(cfg, s1, ClaimNext(0, false));
    RunNothing(cfg, end);
  }

  lemma RunNothing(cfg: Config, st: State)
    requires Inv(cfg, st)
    ensures Run(cfg, st, []) == st
  {
    hide Inv;
  }

  /**
   `SubmittedDocumentIsTheRows` needs the flow lock under every limit: for each positive number of retained
   rows this run, which delivers while a drain holds the first job, claims that job with a document that is
   no longer in the table.
   */
  lemma {:induction false} StaleDocumentCanBeSubmitted(cfg: Config)
    requires Positive(cfg.limits)
    ensures !FlowLocked(cfg, INITIAL, StaleRun(cfg.limits.maxTerminal))
    ensures var st := Reached(cfg, StaleRun(cfg.limits.maxTerminal));
      && st.drain.Claimed? && st.drain.job.id in st.db.jobs
      && st.drain.job.row.payload == Document(1) && st.db.jobs[st.drain.job.id].payload == Document(2)
  {
    hide Inv, Run, Reached, Fill, Filled, FlowLocked;
    var ending := [Deliver(Numbered(1, 2), cfg.limits.maxTerminal + 2)] + ([ClaimNext(0, false)] + []);
    var st := Begin(cfg, Fill(2, cfg.limits.maxTerminal + 1) + ending);
    st := FillRuns(cfg, st, 2, ending);
    st := End(cfg, st);
    if FlowLocked(cfg, INITIAL, StaleRun(cfg.limits.maxTerminal)) {
      SubmittedDocumentIsTheRows(cfg, StaleRun(cfg.limits.maxTerminal));
    }
  }
}
