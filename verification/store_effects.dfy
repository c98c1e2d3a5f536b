/** What each repository call does to the rows, field by field. */
module StoreEffects {
  import opened Results
  import opened Ordering
  import opened Store
  import opened StoreProperties

  /** A row before and after a successful lifecycle change; a terminal row keeps no payload. */
  ghost function RowAfter(before: Job, c: Change, now: Time): Job {
    match c
    case Claim => before.(state := Submitting, updatedAt := now, retries := before.retries + 1, error := None)
    case Accept(receipt, _) =>
      before.(state := Submitted, updatedAt := now, receipt := Some(receipt), error := None, payload := Null)
    case Fail(error, _) => before.(state := Failed, updatedAt := now, error := Some(error), payload := Null)
    case Cancel => before.(state := JobState.Cancelled, updatedAt := now, error := None, payload := Null)
  }

  ghost predicate MayChange(state: JobState, c: Change) {
    match c
    case Claim => state == Received
    case Accept(_, _) => state == Submitting
    case Fail(_, _) => state in {Received, Submitting}
    case Cancel => state in {Received, Submitting}
  }

  ghost predicate Terminated(jobs: map<JobId, Job>, id: JobId) {
    id in jobs && jobs[id].state in {Submitted, Failed, JobState.Cancelled}
  }

  /** The report a change asks to store is for its job and has a new identity. */
  ghost predicate ReportIsNew(db: Db, id: JobId, c: Change) {
    match c
    case Accept(_, Some(report)) => report.job == id && report.id !in db.outbox
    case Fail(_, Some(report)) => report.job == id && report.id !in db.outbox
    case _ => true
  }

  ghost predicate HasReport(c: Change, m: MessageId, report: Status) {
    match c
    case Accept(_, Some(status)) => status == report && status.id == m
    case Fail(_, Some(status)) => status == report && status.id == m
    case _ => false
  }

  /** A row goes only in a terminal change, when it was terminal, and before every other terminal row that stays. */
  ghost predicate EarliestGo(before: map<JobId, Job>, after: map<JobId, Job>, c: Change, id: JobId) {
    forall gone :: gone in before && gone !in after ==>
      && !c.Claim? && Terminated(before, gone)
      && forall kept :: kept in after && kept != id && Terminated(before, kept) ==>
           || before[gone].updatedAt < before[kept].updatedAt
           || (before[gone].updatedAt == before[kept].updatedAt && gone < kept)
  }

  /** All that a successful change does. */
  ghost predicate ChangedRows(before: Db, after: Db, id: JobId, c: Change, now: Time) {
    && id in before.jobs && id in after.jobs && after.jobs[id] == RowAfter(before.jobs[id], c, now)
    && (forall x :: x in after.jobs && x != id ==> x in before.jobs && after.jobs[x] == before.jobs[x])
    && EarliestGo(before.jobs, after.jobs, c, id)
    && (forall m :: m in after.outbox ==>
          (m in before.outbox && after.outbox[m] == before.outbox[m]) || HasReport(c, m, after.outbox[m]))
    && (forall m :: m in before.outbox && before.outbox[m].job in after.jobs ==> m in after.outbox)
    && (forall m, report :: HasReport(c, m, report) ==> m in after.outbox && after.outbox[m] == report)
  }

  /** Which of the refusals it is: in this order, a report for another job, no row, the wrong state, a used identity. */
  ghost function RefusalOf(db: Db, id: JobId, c: Change): StorageError {
    if (c.Accept? || c.Fail?) && c.report.Some? && c.report.value.job != id then InvalidInput
    else if id !in db.jobs then JobNotFound(id)
    else if !MayChange(db.jobs[id].state, c) then
      InvalidTransition(id, db.jobs[id].state,
        match c case Claim => Submitting case Accept(_, _) => Submitted case Fail(_, _) => Failed case Cancel => JobState.Cancelled)
    else ConstraintViolation
  }

  lemma TransitionAnswers(db: Db, limits: Limits, id: JobId, c: Change, now: Time)
    ensures var r := Transition(db, limits, id, c, now, true).1;
      && (r.Ok? <==> id in db.jobs && MayChange(db.jobs[id].state, c) && ReportIsNew(db, id, c))
      && (r.Err? ==> r.error == RefusalOf(db, id, c) && Transition(db, limits, id, c, now, true).0 == db)
  {
    hide Retain;
  }

  lemma UpdatedRows(db: Db, id: JobId, c: Change, now: Time)
    requires id in db.jobs && MayChange(db.jobs[id].state, c) && ReportIsNew(db, id, c)
    ensures var jobs := db.jobs[id := Changed(db.jobs[id], c, now)];
      var outbox := if ReportOf(c).Some? then db.outbox[ReportOf(c).value.id := ReportOf(c).value] else db.outbox;
      && jobs[id].(payload := RowAfter(db.jobs[id], c, now).payload) == RowAfter(db.jobs[id], c, now)
      && (c.Claim? ==> jobs[id] == RowAfter(db.jobs[id], c, now))
      && (IsTerminal(jobs[id].state) <==> !c.Claim?) && (IsTerminal(Requested(c)) <==> !c.Claim?)
      && (forall m :: m in outbox ==> (m in db.outbox && outbox[m] == db.outbox[m]) || HasReport(c, m, outbox[m]))
      && (forall m :: m in db.outbox ==> m in outbox && outbox[m] == db.outbox[m])
      && (forall m, report :: HasReport(c, m, report) ==> m in outbox && outbox[m] == report && report.job == id)
  {
  }

  /** Retention removes a terminal row only if every other terminal row that stays finished later, or then and has a larger identity. */
  lemma DoomedFinishedFirst(db: Db, maximum: nat, protected: Option<JobId>, gone: JobId, kept: JobId)
    requires gone in db.jobs && gone !in Retain(db, maximum, protected, true).jobs
    ensures Terminated(db.jobs, gone) && protected != Some(gone)
    ensures kept in Retain(db, maximum, protected, true).jobs && protected != Some(kept) && Terminated(db.jobs, kept) ==>
      || db.jobs[gone].updatedAt < db.jobs[kept].updatedAt
      || (db.jobs[gone].updatedAt == db.jobs[kept].updatedAt && gone < kept)
  {
    RetainKeeps(db, maximum, protected, true);
    var doomed := Doomed(db.jobs, maximum, protected);
    DoomedAreDeletable(db.jobs, maximum, protected);
    hide Retain, Doomed;
    if kept in db.jobs && kept !in doomed && protected != Some(kept) && Terminated(db.jobs, kept) {
      OldestComeFirst(UpdatedAt(db.jobs), Deletable(db.jobs, protected), doomed, Excess(db.jobs, maximum), gone, kept);
    }
  }

  lemma RetainKeepsOutbox(db: Db, maximum: nat, protected: Option<JobId>)
    ensures var after := Retain(db, maximum, protected, true);
      && (forall m :: m in after.outbox ==> m in db.outbox && after.outbox[m] == db.outbox[m])
      && (forall m :: m in db.outbox && db.outbox[m].job in after.jobs ==> m in after.outbox)
  {
    RetainKeeps(db, maximum, protected, true);
    hide Retain, Doomed;
  }

  lemma TransitionIs(db: Db, limits: Limits, id: JobId, c: Change, now: Time)
    requires Transition(db, limits, id, c, now, true).1.Ok?
    ensures var jobs := db.jobs[id := Changed(db.jobs[id], c, now)];
      var outbox := if ReportOf(c).Some? then db.outbox[ReportOf(c).value.id := ReportOf(c).value] else db.outbox;
      Transition(db, limits, id, c, now, true).0
        == if IsTerminal(Requested(c)) then Retain(Db(jobs, outbox), limits.maxTerminal, Some(id), true) else Db(jobs, outbox)
  {
    hide Retain;
  }

  lemma PrunedRow(job: Job, c: Change, target: Job)
    requires job.(payload := target.payload) == target && (!c.Claim? ==> target.payload == Null) && !c.Claim?
    requires IsTerminal(job.state)
    ensures PrunedJob(job, true) == target
  {
  }

  /** A successful transition changes the rows as it should and no others. */
  lemma TransitionEffect(db: Db, limits: Limits, id: JobId, c: Change, now: Time)
    requires TerminalPruned(db.jobs) && Transition(db, limits, id, c, now, true).1.Ok?
    ensures ChangedRows(db, Transition(db, limits, id, c, now, true).0, id, c, now)
  {
    TransitionAnswers(db, limits, id, c, now);
    TransitionIs(db, limits, id, c, now);
    UpdatedRows(db, id, c, now);
    var jobs := db.jobs[id := Changed(db.jobs[id], c, now)];
    var outbox := if ReportOf(c).Some? then db.outbox[ReportOf(c).value.id := ReportOf(c).value] else db.outbox;
    hide Transition, Retain, Changed, ReportOf, HasReport, MayChange, ReportIsNew, Requested;
    if !c.Claim? {
      RetainedChange(db, Db(jobs, outbox), limits.maxTerminal, id, c, now);
    }
  }

  lemma RetainedChange(db: Db, middle: Db, maximum: nat, id: JobId, c: Change, now: Time)
    requires !c.Claim? && TerminalPruned(db.jobs) && id in db.jobs
    requires id in middle.jobs && middle.jobs == db.jobs[id := middle.jobs[id]] && IsTerminal(middle.jobs[id].state)
    requires middle.jobs[id].(payload := RowAfter(db.jobs[id], c, now).payload) == RowAfter(db.jobs[id], c, now)
    requires forall m :: m in middle.outbox ==> (m in db.outbox && middle.outbox[m] == db.outbox[m]) || HasReport(c, m, middle.outbox[m])
    requires forall m :: m in db.outbox ==> m in middle.outbox && middle.outbox[m] == db.outbox[m]
    requires forall m, report :: HasReport(c, m, report) ==> m in middle.outbox && middle.outbox[m] == report && report.job == id
    ensures ChangedRows(db, Retain(middle, maximum, Some(id), true), id, c, now)
  {
    var after := Retain(middle, maximum, Some(id), true);
    RetainKeeps(middle, maximum, Some(id), true);
    RetainKeepsOutbox(middle, maximum, Some(id));
    hide Retain, Doomed, HasReport;
    forall gone, kept | gone in db.jobs && gone !in after.jobs
      ensures Terminated(db.jobs, gone)
      ensures kept in after.jobs && kept != id && Terminated(db.jobs, kept) ==>
        || db.jobs[gone].updatedAt < db.jobs[kept].updatedAt
        || (db.jobs[gone].updatedAt == db.jobs[kept].updatedAt && gone < kept)
    {
      DoomedFinishedFirst(middle, maximum, Some(id), gone, kept);
    }
  }

  // ---------- Deliveries ----------

  /** The row a delivery becomes. */
  ghost function NewRow(d: Delivery, hash: Payload -> nat): Job {
    Job(key := d.key, printer := d.printer, payload := d.payload, fingerprint := hash(d.payload), source := d.source,
      state := Received, receivedAt := d.receivedAt, updatedAt := d.receivedAt, retries := 0, recoveries := 0,
      receipt := None, error := None)
  }

  ghost predicate KeyTaken(jobs: map<JobId, Job>, key: nat) { exists id :: id in jobs && jobs[id].key == key }

  /** A pruned row knows only the fingerprint of its document. */
  ghost predicate SameDelivery(row: Job, d: Delivery, hash: Payload -> nat) {
    && row.printer == d.printer
    && (row.payload == Null ==> row.fingerprint == hash(d.payload))
    && (row.payload != Null ==> row.payload == d.payload)
  }

  function Unfinished(jobs: map<JobId, Job>): set<JobId> {
    set id | id in jobs && jobs[id].state in {Received, Submitting}
  }

  /** The answer to a delivery, by the first of these that applies; only the last one changes the table. */
  ghost predicate Answered(db: Db, limits: Limits, hash: Payload -> nat, d: Delivery, after: Db, r: Result<InsertResult, StorageError>) {
    if d.id in db.jobs then
      var row := db.jobs[d.id];
      after == db
      && r == if row.key != d.key then Err(JobIdentityConflict(d.id))
              else if !SameDelivery(row, d, hash) then Err(JobContentConflict(d.id))
              else Ok(DuplicateJob(row.state))
    else if KeyTaken(db.jobs, d.key) then
      && after == db && r.Ok? && r.value.DuplicateIdempotency?
      && r.value.existing in db.jobs && db.jobs[r.value.existing].key == d.key
      && r.value.state == db.jobs[r.value.existing].state
    else if |Unfinished(db.jobs)| >= limits.maxPending then after == db && r == Err(QueueFull(limits.maxPending))
    else r == Ok(Inserted) && after == Db(db.jobs[d.id := NewRow(d, hash)], db.outbox)
  }

  lemma InsertAnswered(db: Db, limits: Limits, hash: Payload -> nat, d: Delivery)
    requires KeysUnique(db.jobs)
    ensures var (after, r) := InsertReceived(db, limits, hash, d); Answered(db, limits, hash, d, after, r)
  {
    assert Unfinished(db.jobs) == Pending(db.jobs);
    assert KeyTaken(db.jobs, d.key) <==> Owners(db.jobs, d.key) != {} by {
      if KeyTaken(db.jobs, d.key) {
        var id :| id in db.jobs && db.jobs[id].key == d.key;
        assert id in Owners(db.jobs, d.key);
      }
    }
  }

  // ---------- Recovery and listings ----------

  /** Interrupted rows are received again, once more recovered and marked; all others are as they were. */
  ghost predicate RestartedRows(before: map<JobId, Job>, after: map<JobId, Job>, now: Time) {
    && after.Keys == before.Keys
    && forall id :: id in after ==>
         after[id] == if before[id].state != Submitting then before[id]
                      else before[id].(state := Received, recoveries := before[id].recoveries + 1, updatedAt := now,
                                       error := Some(JobError(AgentRestarted, true)))
  }

  lemma RecoveryEffect(db: Db, now: Time)
    ensures RestartedRows(db.jobs, RecoverInterrupted(db, now).jobs, now) && RecoverInterrupted(db, now).outbox == db.outbox
  {
  }

  /** Exactly the received rows, each once, by the time they were received and then by identity. */
  ghost predicate ListsReceived(jobs: map<JobId, Job>, rows: seq<(JobId, Job)>) {
    && (forall i :: 0 <= i < |rows| ==> rows[i].0 in jobs && rows[i].1 == jobs[rows[i].0] && rows[i].1.state == Received)
    && (forall id :: id in jobs && jobs[id].state == Received ==> exists i :: 0 <= i < |rows| && rows[i].0 == id)
    && (forall i, j :: 0 <= i < j < |rows| ==>
          || rows[i].1.receivedAt < rows[j].1.receivedAt
          || (rows[i].1.receivedAt == rows[j].1.receivedAt && rows[i].0 < rows[j].0))
  }

  lemma PendingInOrder(db: Db)
    ensures forall x :: x in PendingIds(db) <==> x in db.jobs && db.jobs[x].state == Received
    ensures forall i, j :: 0 <= i < j < |PendingIds(db)| ==> PendingIds(db)[i] in db.jobs && PendingIds(db)[j] in db.jobs
    ensures forall i, j :: 0 <= i < j < |PendingIds(db)| ==> ReceivedBefore(db.jobs, PendingIds(db)[i], PendingIds(db)[j])
  {
    var rank, ids := ReceivedAt(db.jobs), PendingIds(db);
    assert forall x :: x in ids <==> x in ReceivedJobs(db.jobs);
    assert forall i :: 0 <= i < |ids| ==> ids[i] in ids;
    assert Ascending(rank, ids);
    hide PendingIds, Before, InOrder;
    forall i, j | 0 <= i < j < |ids| ensures ids[i] in db.jobs && ids[j] in db.jobs && ReceivedBefore(db.jobs, ids[i], ids[j]) {
      assert ids[i] in ids && ids[j] in ids;
      assert Before(rank, ids[i], ids[j]);
      BeforeIsReceivedBefore(db.jobs, ids[i], ids[j]);
    }
  }

  ghost predicate ReceivedBefore(jobs: map<JobId, Job>, a: JobId, b: JobId) {
    a in jobs && b in jobs
    && (jobs[a].receivedAt < jobs[b].receivedAt || (jobs[a].receivedAt == jobs[b].receivedAt && a < b))
  }

  lemma BeforeIsReceivedBefore(jobs: map<JobId, Job>, a: JobId, b: JobId)
    requires a in jobs && b in jobs && Before(ReceivedAt(jobs), a, b)
    ensures ReceivedBefore(jobs, a, b)
  {
  }

  lemma PendingAreListed(db: Db, rows: seq<(JobId, Job)>)
    requires |rows| == |PendingIds(db)|
    requires forall i :: 0 <= i < |rows| ==> rows[i].0 == PendingIds(db)[i] && rows[i].0 in db.jobs && rows[i].1 == db.jobs[rows[i].0]
    ensures ListsReceived(db.jobs, rows)
  {
    hide PendingIds;
    PendingInOrder(db);
    var ids := PendingIds(db);
    forall i | 0 <= i < |rows| ensures rows[i].1.state == Received {
      assert ids[i] in ids;
    }
    forall id | id in db.jobs && db.jobs[id].state == Received ensures exists i :: 0 <= i < |rows| && rows[i].0 == id {
      var i :| 0 <= i < |ids| && ids[i] == id;
      assert rows[i].0 == id;
    }
    forall i, j | 0 <= i < j < |rows|
      ensures rows[i].1.receivedAt < rows[j].1.receivedAt || (rows[i].1.receivedAt == rows[j].1.receivedAt && rows[i].0 < rows[j].0)
    {
      assert ReceivedBefore(db.jobs, ids[i], ids[j]);
    }
  }

  ghost predicate CreatedBefore(outbox: map<MessageId, Status>, a: MessageId, b: MessageId) {
    a in outbox && b in outbox
    && (outbox[a].createdAt < outbox[b].createdAt || (outbox[a].createdAt == outbox[b].createdAt && a < b))
  }

  /** As many as there are up to the limit, by creation time and then identity, and everything left out comes later. */
  ghost predicate ListsOldest(outbox: map<MessageId, Status>, limit: nat, ids: seq<MessageId>) {
    && |ids| == (if limit < |outbox| then limit else |outbox|)
    && (forall i :: 0 <= i < |ids| ==> ids[i] in outbox)
    && (forall i, m :: 0 <= i < |ids| && m in outbox && m !in ids[..i + 1] ==> CreatedBefore(outbox, ids[i], m))
  }

  lemma InPrefix<T>(s: seq<T>, n: nat, j: nat)
    requires n <= |s| && j < |s|
    ensures j < n ==> s[j] in s[..n]
  {
    assert j < n ==> s[..n][j] == s[j];
  }

  lemma LaterIsAfter(rank: map<nat, int>, all: seq<nat>, i: nat, m: nat)
    requires (forall x :: x in all ==> x in rank) && Ascending(rank, all) && i < |all| && m in all && m !in all[..i + 1]
    ensures all[i] in rank && Before(rank, all[i], m)
  {
    hide Before;
    var j :| 0 <= j < |all| && all[j] == m;
    InPrefix(all, i + 1, j);
    assert all[i] in all;
  }

  lemma BeforeIsCreatedBefore(outbox: map<MessageId, Status>, a: MessageId, b: MessageId)
    requires a in outbox && b in outbox && Before(CreatedAt(outbox), a, b)
    ensures CreatedBefore(outbox, a, b)
  {
  }

  lemma AllCreated(outbox: map<MessageId, Status>, all: seq<MessageId>)
    requires all == InOrder(CreatedAt(outbox), outbox.Keys)
    ensures |all| == |outbox| && (forall x :: x in all <==> x in outbox)
    ensures (forall x :: x in all ==> x in CreatedAt(outbox)) && Ascending(CreatedAt(outbox), all)
  {
    assert |outbox.Keys| == |outbox|;
    hide InOrder, Ascending;
  }

  lemma FirstCreated(outbox: map<MessageId, Status>, all: seq<MessageId>, i: nat, m: MessageId)
    requires all == InOrder(CreatedAt(outbox), outbox.Keys) && i < |all| && m in outbox && m !in all[..i + 1]
    ensures all[i] in outbox && CreatedBefore(outbox, all[i], m)
  {
    AllCreated(outbox, all);
    hide InOrder, Ascending, CreatedAt, Before, CreatedBefore;
    LaterIsAfter(CreatedAt(outbox), all, i, m);
    assert all[i] in all;
    BeforeIsCreatedBefore(outbox, all[i], m);
  }

  lemma PrefixListsOldest(outbox: map<MessageId, Status>, limit: nat, all: seq<MessageId>)
    requires |all| == |outbox| && forall i :: 0 <= i < |all| ==> all[i] in outbox
    requires forall i, m :: 0 <= i < |all| && m in outbox && m !in all[..i + 1] ==> CreatedBefore(outbox, all[i], m)
    ensures ListsOldest(outbox, limit, Prefix(all, limit))
  {
    hide CreatedBefore;
    var ids := Prefix(all, limit);
    assert forall i :: 0 <= i < |ids| ==> ids[i] == all[i] && ids[..i + 1] == all[..i + 1];
  }

  lemma OutboxIsListed(db: Db, limit: nat)
    ensures ListsOldest(db.outbox, limit, OutboxIds(db, limit))
  {
    var all := InOrder(CreatedAt(db.outbox), db.outbox.Keys);
    AllCreated(db.outbox, all);
    hide InOrder, Ascending, CreatedAt, CreatedBefore, ListsOldest, Prefix;
    forall i | 0 <= i < |all| ensures all[i] in db.outbox {
      assert all[i] in all;
    }
    forall i, m | 0 <= i < |all| && m in db.outbox && m !in all[..i + 1] ensures CreatedBefore(db.outbox, all[i], m) {
      FirstCreated(db.outbox, all, i, m);
    }
    PrefixListsOldest(db.outbox, limit, all);
  }
}
