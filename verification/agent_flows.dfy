/** The agent's flows: receipts, one drain and its reports, composed under the flow lock. */
module AgentFlows {
  import opened Results
  import opened Store
  import opened StoreProperties
  import opened Storage
  import opened Processor
  import opened Protocol
  import opened ProtocolSafety
  import opened ProtocolSteps
  import opened JobProcessing
  import Runtime

  /** The identities of receipts and reports are random, hence new and distinct. */
  ghost predicate AllFresh(acks: nat -> MessageId, env: Environment, used: set<MessageId>) {
    && (forall k: nat :: acks(k) !in used)
    && (forall j: nat, k: nat :: j < k ==> acks(j) != acks(k))
    && (forall j: nat, k: nat :: acks(j) != env.freshId(k))
    && FreshIds(env, used, 0)
  }

  function ReceiptsFor(ids: seq<JobId>, acks: nat -> MessageId): seq<Message> {
    seq(|ids|, i requires 0 <= i < |ids| => Message(acks(i), JobReceived, ids[i]))
  }

  // ---------- What each report does to the state ----------

  /** Only receipts in memory and the bookkeeping about them differ. */
  ghost predicate OnlyReceipts(a: State, b: State) {
    b == a.(receipts := b.receipts, past := a.past.(used := b.past.used, acknowledged := b.past.acknowledged))
  }

  lemma ReceiptMade(cfg: Config, st: State, id: JobId, ack: MessageId)
    requires Inv(cfg, st) && id in ReceivedJobs(st.db.jobs) && ack !in st.past.used
    ensures WellFormed(st)
    ensures var after := Next(cfg, st, Reacknowledge(id, ack));
      && Inv(cfg, after) && OnlyReceipts(st, after)
      && after.receipts == st.receipts + {Message(ack, JobReceived, id)} && after.past.used == st.past.used + {ack}
  {
    hide Inv, WellFormed;
    InvImplies(cfg, st);
    NextKeepsInv(cfg, st, Reacknowledge(id, ack));
  }

  lemma ReceiptSent(cfg: Config, st: State, m: Message, accepted: bool)
    requires Inv(cfg, st)
    ensures WellFormed(st)
    ensures var after := Next(cfg, st, SendReceipt(m, accepted));
      Inv(cfg, after) && OnlyReceipts(st, after) && after.past.used == st.past.used
  {
    hide Inv, WellFormed;
    InvImplies(cfg, st);
    NextKeepsInv(cfg, st, SendReceipt(m, accepted));
  }

  /** Only the outbox, the reports in memory and the bookkeeping about them differ. */
  ghost predicate OnlyReports(a: State, b: State) {
    && b == a.(db := a.db.(outbox := b.db.outbox), reports := b.reports, unacknowledged := b.unacknowledged,
               past := a.past.(delivered := b.past.delivered))
    && a.past.delivered <= b.past.delivered
  }

  lemma ReportRefused(cfg: Config, st: State, m: Message)
    requires Inv(cfg, st)
    ensures WellFormed(st)
    ensures var after := Next(cfg, st, SendReport(m, false)); Inv(cfg, after) && after.db == st.db && OnlyReports(st, after)
  {
    hide Inv, WellFormed;
    InvImplies(cfg, st);
    NextKeepsInv(cfg, st, SendReport(m, false));
  }

  lemma ReportSent(cfg: Config, st: State, m: Message)
    requires WellFormed(st) && m in st.reports
    ensures var after := Next(cfg, st, SendReport(m, true));
      && OnlyReports(st, after) && after.db == st.db && after.reports == st.reports - {m}
      && m in after.unacknowledged && m in after.past.delivered
  {
    hide WellFormed;
  }

  lemma ReportAcknowledged(cfg: Config, st: State, m: Message)
    requires WellFormed(st) && m in st.unacknowledged
    ensures var after := Next(cfg, st, AckReport(m, false));
      && OnlyReports(st, after) && after.reports == st.reports && after.past.delivered == st.past.delivered
      && after.db == st.db.(outbox := st.db.outbox - {m.id})
  {
    hide WellFormed;
  }

  /** An accepted report and its acknowledgement, as two steps. */
  lemma ReportAccepted(cfg: Config, st: State, m: Message) returns (after: State)
    requires Inv(cfg, st) && m in st.reports
    ensures WellFormed(st) && WellFormed(Next(cfg, st, SendReport(m, true)))
    ensures after == Next(cfg, Next(cfg, st, SendReport(m, true)), AckReport(m, false))
    ensures Inv(cfg, after) && OnlyReports(st, after)
    ensures after.db == st.db.(outbox := st.db.outbox - {m.id}) && after.reports == st.reports - {m}
    ensures m in after.past.delivered
  {
    hide Inv, WellFormed, Next;
    InvImplies(cfg, st);
    NextKeepsInv(cfg, st, SendReport(m, true));
    var sent := Next(cfg, st, SendReport(m, true));
    InvImplies(cfg, sent);
    ReportSent(cfg, st, m);
    NextKeepsInv(cfg, sent, AckReport(m, false));
    ReportAcknowledged(cfg, sent, m);
    after := Next(cfg, sent, AckReport(m, false));
  }

  lemma RecoveredClaimsNothing(st: State, now: Time)
    requires st.drain.Idle?
    ensures Claiming(RecoveredJobs(st, now).db.jobs) == {}
  {
  }

  lemma PendingAreOpen(jobs: map<JobId, Job>)
    ensures Pending(jobs) == ReceivedJobs(jobs) + Claiming(jobs)
  {
  }

  lemma StillFresh(acks: nat -> MessageId, env: Environment, used: set<MessageId>, later: set<MessageId>, n: nat)
    requires AllFresh(acks, env, used) && (forall m :: m in later ==> m in used || exists k :: 0 <= k < n && m == acks(k))
    ensures FreshIds(env, later, 0)
  {
  }

  /** The receipt that answers a delivery, if any. */
  function ReceiptOf(inserted: Result<InsertResult, StorageError>, id: JobId, ack: MessageId): seq<Message> {
    match Acknowledgement(inserted, id, ack)
    case Ok(Some(message)) => [message]
    case _ => []
  }

  datatype FlowError = NotStored(error: StorageError) | NotReported

  /** The outcomes of the rows that waited in a database, oldest first, each as its preparation and its one call say. */
  ghost predicate AsExpected(env: Environment, db: Db, outcomes: seq<ProcessOutcome>) {
    var ids := PendingIds(db);
    && |outcomes| == |ids|
    && forall k :: 0 <= k < |ids| ==> ids[k] in db.jobs && outcomes[k] == Expected(env, ids[k], db.jobs[ids[k]], k)
  }

  class Agent {
    const processor: JobProcessor
    const reports: Runtime.Agent   // the reporter with what it has accepted, and the outbox

    ghost predicate Valid()
      reads processor, processor.repository
    {
      processor.Valid() && reports.repository == processor.repository
    }

    constructor (processor: JobProcessor, reports: Runtime.Agent)
      requires processor.Valid() && reports.repository == processor.repository
      ensures Valid() && this.processor == processor && this.reports == reports
    {
      this.processor, this.reports := processor, reports;
    }

    /** `pending_receipts`: one receipt for every received row, oldest first. */
    method PendingReceipts(acks: nat -> MessageId) returns (messages: seq<Message>)
      requires Valid() && (forall k: nat :: acks(k) !in processor.state.past.used)
      requires forall j: nat, k: nat :: j < k ==> acks(j) != acks(k)
      modifies processor`state
      ensures Valid() && OnlyReceipts(old(processor.state), processor.state)
      ensures messages == ReceiptsFor(PendingIds(processor.repository.View()), acks)
      ensures |messages| == |PendingIds(processor.repository.View())|
      ensures forall i :: 0 <= i < |messages| ==> messages[i] == Message(acks(i), JobReceived, PendingIds(processor.repository.View())[i])
      ensures forall m :: m in processor.state.past.used ==>
        m in old(processor.state.past.used) || exists k :: 0 <= k < |messages| && m == acks(k)
    {
      hide Inv, StoreFits, Next, PendingIds, ReceivedJobs;
      ghost var cfg, start := processor.cfg, processor.state;
      ghost var ids := PendingIds(start.db);
      PendingAreReceived(start.db);
      var rows := processor.repository.PendingJobs();
      messages := [];
      for k := 0 to |rows|
        invariant Valid() && OnlyReceipts(start, processor.state) && messages == ReceiptsFor(ids[..k], acks)
        invariant forall m :: m in processor.state.past.used ==>
          m in start.past.used || exists j :: 0 <= j < k && m == acks(j)
      {
        ReceiptMade(cfg, processor.state, rows[k].0, acks(k));
        messages := messages + [Message(acks(k), JobReceived, rows[k].0)];
        processor.state := Next(cfg, processor.state, Reacknowledge(rows[k].0, acks(k)));
        assert acks(k) == acks(k);
      }
      assert ids[..|rows|] == ids;
    }

    method ReportReceipt(m: Message) returns (ok: bool)
      requires Valid()
      modifies processor`state, reports`log
      ensures Valid() && OnlyReceipts(old(processor.state), processor.state)
      ensures processor.state.past.used == old(processor.state.past.used)
      ensures ok == reports.accepts(m) && reports.log == if ok then old(reports.log) + [m] else old(reports.log)
    {
      hide Inv, StoreFits, Next;
      ok := reports.accepts(m);
      ReceiptSent(processor.cfg, processor.state, m, ok);
      processor.state := Next(processor.cfg, processor.state, SendReceipt(m, ok));
      if ok {
        reports.log := reports.log + [m];
      }
    }

    /** Reports receipts in order, up to the first refusal. */
    method ReportReceipts(receipts: seq<Message>) returns (ok: bool)
      requires Valid()
      modifies processor`state, reports`log
      ensures Valid() && OnlyReceipts(old(processor.state), processor.state)
      ensures processor.state.past.used == old(processor.state.past.used)
      ensures ok <==> forall i :: 0 <= i < |receipts| ==> reports.accepts(receipts[i])
      ensures ok ==> reports.log == old(reports.log) + receipts
    {
      hide Inv, StoreFits;
      for k := 0 to |receipts|
        invariant Valid() && OnlyReceipts(old(processor.state), processor.state)
        invariant processor.state.past.used == old(processor.state.past.used)
        invariant forall i :: 0 <= i < k ==> reports.accepts(receipts[i])
        invariant reports.log == old(reports.log) + receipts[..k]
      {
        var accepted := ReportReceipt(receipts[k]);
        if !accepted {
          return false;
        }
      }
      assert receipts[..|receipts|] == receipts;
      return true;
    }

    /** `report_outcomes`: the reports of a finished drain, in order, up to the first refusal. */
    method ReportOutcomes(messages: seq<Message>) returns (ok: bool)
      requires Valid() && forall m :: m in messages ==> m in processor.state.reports
      modifies processor`state, processor.repository`outbox, reports`log
      ensures Valid() && OnlyReports(old(processor.state), processor.state)
      ensures ok <==> forall i :: 0 <= i < |messages| ==> reports.accepts(messages[i])
      ensures ok ==> reports.log == old(reports.log) + messages
      ensures ok ==> forall m :: m in messages ==> m in processor.state.past.delivered && m.id !in processor.repository.outbox
    {
      hide Inv, StoreFits, Next;
      ghost var start := processor.state;
      for k := 0 to |messages|
        invariant Valid() && OnlyReports(start, processor.state)
        invariant forall i :: 0 <= i < k ==> reports.accepts(messages[i])
        invariant reports.log == old(reports.log) + messages[..k]
        invariant forall m :: m in messages[..k] ==> m in processor.state.past.delivered && m.id !in processor.repository.outbox
        invariant forall m :: m in messages ==> m in processor.state.reports || m in messages[..k]
      {
        var m := messages[k];
        ghost var before := processor.state;
        assert messages[..k + 1] == messages[..k] + [m];
        var accepted := reports.ReportAndAcknowledge(m);
        if !accepted {
          ReportRefused(processor.cfg, before, m);
          processor.state := Next(processor.cfg, before, SendReport(m, false));
          return false;
        }
        if m in before.reports {
          ghost var after := ReportAccepted(processor.cfg, before, m);
          processor.state := after;
        }
      }
      assert messages[..|messages|] == messages;
      return true;
    }

    /** Every report of these outcomes has been accepted, and its row is gone. */
    ghost predicate Delivered(outcomes: seq<ProcessOutcome>)
      reads processor, processor.repository
    {
      forall m :: m in MessagesOf(outcomes) ==> m in processor.state.past.delivered && m.id !in processor.repository.outbox
    }

    /** One drain and its reports, under the flow lock. */
    method DrainAndReport(env: Environment) returns (r: Result<seq<ProcessOutcome>, FlowError>)
      requires Valid() && processor.state.drain.Idle? && FreshIds(env, processor.state.past.used, 0)
      modifies processor, processor.repository, reports`log
      ensures Valid() && processor.state.drain.Idle?
      ensures ReceivedJobs(processor.repository.jobs) == {}
      ensures Claiming(processor.repository.jobs) <= Claiming(old(processor.repository.jobs))
      ensures r.Ok? ==> AsExpected(env, old(processor.repository.View()), r.value) && Delivered(r.value)
      ensures r.Ok? ==> reports.log == old(reports.log) + MessagesOf(r.value)
      ensures r.Err? ==> r.error.NotReported?
      ensures (forall m :: reports.accepts(m)) ==> r.Ok?
    {
      hide Inv, StoreFits, PendingIds, Expected, MessagesOf, ReceivedJobs, Claiming, FreshIds;
      var outcomes := processor.ProcessPending(env);
      var ok := ReportOutcomes(MessagesOf(outcomes.value));
      r := if ok then Ok(outcomes.value) else Err(NotReported);
    }

    /** `process_pending`: receipts first, then the drain and its reports. */
    method ProcessPending(acks: nat -> MessageId, env: Environment) returns (r: Result<seq<ProcessOutcome>, FlowError>)
      requires Valid() && processor.state.drain.Idle? && AllFresh(acks, env, processor.state.past.used)
      modifies processor, processor.repository, reports`log
      ensures Valid() && processor.state.drain.Idle?
      ensures Claiming(processor.repository.jobs) <= Claiming(old(processor.repository.jobs))
      ensures r.Ok? ==>
        && ReceivedJobs(processor.repository.jobs) == {}
        && AsExpected(env, old(processor.repository.View()), r.value) && Delivered(r.value)
        && reports.log == old(reports.log) + ReceiptsFor(PendingIds(old(processor.repository.View())), acks) + MessagesOf(r.value)
      ensures (forall m :: reports.accepts(m)) ==> r.Ok?
    {
      hide Inv, StoreFits, PendingIds, Expected, MessagesOf, ReceivedJobs, Claiming, FreshIds;
      ghost var used := processor.state.past.used;
      var receipts := PendingReceipts(acks);
      StillFresh(acks, env, used, processor.state.past.used, |receipts|);
      var ok := ReportReceipts(receipts);
      if !ok {
        return Err(NotReported);
      }
      r := DrainAndReport(env);
    }

    /**
     `recover`: with a reporter that accepts, a restart leaves no row pending at all, whatever was interrupted.
     Every row that waited or was interrupted has exactly the outcome its preparation and its one call determine,
     and its receipt and its report have gone out.
     */
    method Recover(now: Time, acks: nat -> MessageId, env: Environment)
      returns (recovery: RecoveryResult, r: Result<seq<ProcessOutcome>, FlowError>)
      requires Valid() && processor.state.drain.Idle? && AllFresh(acks, env, processor.state.past.used)
      modifies processor, processor.repository, reports`log
      ensures Valid() && processor.state.drain.Idle?
      ensures recovery.recovered == |Claiming(old(processor.repository.jobs))|
      ensures recovery.pending == |Pending(old(processor.repository.jobs))|
      ensures var recovered := Store.RecoverInterrupted(old(processor.repository.View()), now);
        r.Ok? ==>
          && Pending(processor.repository.jobs) == {}
          && AsExpected(env, recovered, r.value) && Delivered(r.value)
          && reports.log == old(reports.log) + ReceiptsFor(PendingIds(recovered), acks) + MessagesOf(r.value)
      ensures (forall m :: reports.accepts(m)) ==> r.Ok?
    {
      hide Inv, StoreFits, PendingIds, Expected, MessagesOf, ReceivedJobs, Claiming, FreshIds, Pending, AllFresh;
      ghost var start := processor.state;
      InvImplies(processor.cfg, start);
      recovery := processor.RecoverInterrupted(now);
      Recovering(processor.cfg, start, now);
      RecoveredClaimsNothing(start, now);
      r := ProcessPending(acks, env);
      PendingAreOpen(processor.repository.jobs);
    }

    ghost function Insertion(d: Delivery): (Db, Result<InsertResult, StorageError>)
      requires Valid()
      reads processor, processor.repository
    {
      InvImplies(processor.cfg, processor.state);
      InsertReceived(processor.repository.View(), processor.repository.limits, processor.repository.hash, d)
    }

    /** Stores a delivery and sends its receipt. */
    method AnswerDelivery(d: Delivery, ack: MessageId) returns (r: Result<bool, FlowError>)
      requires Valid() && ack !in processor.state.past.used
      modifies processor, processor.repository, reports`log
      ensures Valid() && processor.state.drain == old(processor.state.drain)
      ensures processor.state.past.used <= old(processor.state.past.used) + {ack}
      ensures var (after, inserted) := old(Insertion(d));
        && processor.repository.View() == after
        && (inserted != Ok(Inserted) ==> after == old(processor.repository.View()))
        && (r.Err? && r.error.NotStored? <==> inserted.Err?)
        && (r.Ok? ==> r.value == (inserted == Ok(Inserted)) && reports.log == old(reports.log) + ReceiptOf(inserted, d.id, ack))
        && (r.Err? && r.error.NotReported? <==>
              inserted.Ok? && !inserted.value.DuplicateIdempotency? && !reports.accepts(Message(ack, JobReceived, d.id)))
    {
      hide Inv, StoreFits, InsertReceived, KeysUnique;
      InvImplies(processor.cfg, processor.state);
      Delivering(processor.cfg, processor.state, d, ack);
      var receipt, isNew := processor.ReceivePrintJob(d, ack);
      if receipt.Err? {
        return Err(NotStored(receipt.error));
      }
      if receipt.value.Some? {
        var ok := ReportReceipt(receipt.value.value);
        if !ok {
          return Err(NotReported);
        }
      }
      return Ok(isNew);
    }

    /**
     `handle_print_job`: the receipt goes out before the new row is processed; a redelivery or a reused key is
     answered and starts no drain, and a refused receipt leaves the new row waiting.
     */
    method HandlePrintJob(d: Delivery, ack: MessageId, env: Environment)
      returns (r: Result<(bool, seq<ProcessOutcome>), FlowError>)
      requires Valid() && processor.state.drain.Idle?
      requires ack !in processor.state.past.used && FreshIds(env, processor.state.past.used + {ack}, 0)
      modifies processor, processor.repository, reports`log
      ensures Valid() && processor.state.drain.Idle?
      ensures r.Err? && r.error.NotStored? <==> old(Insertion(d)).1.Err?
      ensures r.Ok? ==> r.value.0 == (old(Insertion(d)).1 == Ok(Inserted))
      ensures old(Insertion(d)).1 != Ok(Inserted) ==> processor.repository.View() == old(processor.repository.View())
      ensures r.Ok? && !r.value.0 ==>
        r.value.1 == [] && reports.log == old(reports.log) + ReceiptOf(old(Insertion(d)).1, d.id, ack)
      ensures old(Insertion(d)).1 == Ok(Inserted) && !reports.accepts(Message(ack, JobReceived, d.id)) ==>
        r == Err(NotReported) && processor.repository.View() == old(Insertion(d)).0
      ensures r.Ok? && r.value.0 ==>
        && ReceivedJobs(processor.repository.jobs) == {}
        && AsExpected(env, old(Insertion(d)).0, r.value.1) && Delivered(r.value.1)
        && reports.log == old(reports.log) + [Message(ack, JobReceived, d.id)] + MessagesOf(r.value.1)
      ensures (forall m :: reports.accepts(m)) && r.Err? ==> r.error.NotStored?
    {
      hide Inv, StoreFits, PendingIds, Expected, MessagesOf, ReceivedJobs, Claiming, FreshIds, AsExpected, InsertReceived, KeysUnique;
      hide Insertion;
      ghost var used := processor.state.past.used;
      var isNew := AnswerDelivery(d, ack);
      if isNew.Err? {
        return Err(isNew.error);
      }
      if !isNew.value {
        return Ok((false, []));
      }
      FewerUsed(env, used + {ack}, processor.state.past.used);
      var outcomes := DrainAndReport(env);
      r := if outcomes.Ok? then Ok((true, outcomes.value)) else Err(outcomes.error);
    }
  }

  lemma Delivering(cfg: Config, st: State, d: Delivery, ack: MessageId)
    requires WellFormed(st) && ack !in st.past.used
    ensures var (after, r) := InsertReceived(st.db, cfg.limits, cfg.hash, d);
      var next := Next(cfg, st, Deliver(d, ack));
      && next.db == after && next.drain == st.drain && next.past.used <= st.past.used + {ack}
      && (r != Ok(Inserted) ==> after == st.db)
  {
    InsertedRow(st.db, cfg.limits, cfg.hash, d);
    hide InsertReceived;
  }

  lemma FewerUsed(env: Environment, used: set<MessageId>, fewer: set<MessageId>)
    requires FreshIds(env, used, 0) && fewer <= used
    ensures FreshIds(env, fewer, 0)
  {
  }

  /** Recovery in terms of the tables. */
  lemma Recovering(cfg: Config, st: State, now: Time)
    requires WellFormed(st) && st.drain.Idle?
    ensures var after := Next(cfg, st, RecoverJobs(now));
      && after == RecoveredJobs(st, now) && after.db == Store.RecoverInterrupted(st.db, now)
      && after.drain == st.drain && after.past.used == st.past.used
  {
    hide WellFormed;
  }
}
