/** What holds of the database in every reachable state, and what pruning and retention may not change. */
module StoreProperties {
  import opened Results
  import opened Ordering
  import opened Store

  // ---------- Retention removes exactly the oldest excess ----------

  /**
   Retention dooms exactly the excess, and always the oldest deletable rows by
   (updated_at, job_id): the doomed set is the only one with that property.
   */
  lemma RetentionDoomsExactlyTheOldest(jobs: map<JobId, Job>, maximum: nat, protected: Option<JobId>, chosen: set<JobId>)
    ensures chosen == Doomed(jobs, maximum, protected)
       <==> Oldest(UpdatedAt(jobs), Deletable(jobs, protected), chosen, Excess(jobs, maximum))
  {
    hide Doomed, Oldest;
    if Oldest(UpdatedAt(jobs), Deletable(jobs, protected), chosen, Excess(jobs, maximum)) {
      OldestIsUnique(UpdatedAt(jobs), Deletable(jobs, protected), chosen, Doomed(jobs, maximum, protected),
        Excess(jobs, maximum));
    }
  }

  lemma DoomedAreDeletable(jobs: map<JobId, Job>, maximum: nat, protected: Option<JobId>)
    ensures Doomed(jobs, maximum, protected) <= Deletable(jobs, protected)
    ensures |Doomed(jobs, maximum, protected)|
         == (if Excess(jobs, maximum) < |Deletable(jobs, protected)| then Excess(jobs, maximum)
             else |Deletable(jobs, protected)|)
  {
    hide Doomed;
  }

  function PrunedJob(job: Job, prune: bool): Job {
    if prune && IsTerminal(job.state) then job.(payload := Null) else job
  }

  /** What one retention pass leaves: every row but the doomed, terminal payloads pruned, outbox by cascade. */
  lemma RetainKeeps(db: Db, maximum: nat, protected: Option<JobId>, prune: bool)
    ensures var doomed, after := Doomed(db.jobs, maximum, protected), Retain(db, maximum, protected, prune);
      && after.jobs.Keys == db.jobs.Keys - doomed
      && (forall id :: id in after.jobs ==> after.jobs[id] == PrunedJob(db.jobs[id], prune))
      && (forall id :: id in db.jobs && !IsTerminal(db.jobs[id].state) ==> id in after.jobs)
      && (protected.Some? && protected.value in db.jobs ==> protected.value in after.jobs)
      && (forall m :: m in after.outbox <==> m in db.outbox && db.outbox[m].job !in doomed)
      && (forall m :: m in after.outbox ==> after.outbox[m] == db.outbox[m])
  {
    hide Doomed, Excess;
    DoomedAreDeletable(db.jobs, maximum, protected);
  }

  /** Taking the excess out of all rows but one leaves exactly the limit. */
  lemma TrimmedSize(terminal: set<JobId>, protected: Option<JobId>, doomed: set<JobId>, maximum: nat)
    requires maximum >= 1
    requires var deletable := terminal - (if protected.Some? then {protected.value} else {});
      var excess := if |terminal| > maximum then |terminal| - maximum else 0;
      doomed <= deletable && |doomed| == (if excess < |deletable| then excess else |deletable|)
    ensures |terminal - doomed| == (if |terminal| < maximum then |terminal| else maximum)
  {
    if protected.Some? && protected.value in terminal {
      SubsetSize({protected.value}, terminal);
    } else {
      assert terminal - (if protected.Some? then {protected.value} else {}) == terminal;
    }
    SubsetSize(doomed, terminal);
  }

  /** After retention with a positive limit the terminal rows number the smaller of before and limit. */
  lemma {:induction false} RetentionMeetsTheLimit(db: Db, maximum: nat, protected: Option<JobId>, prune: bool)
    requires maximum >= 1
    ensures |Terminal(Retain(db, maximum, protected, prune).jobs)|
         == (if |Terminal(db.jobs)| < maximum then |Terminal(db.jobs)| else maximum)
    ensures Pending(Retain(db, maximum, protected, prune).jobs) == Pending(db.jobs)
  {
    hide Doomed;
    DoomedAreDeletable(db.jobs, maximum, protected);
    TrimmedSize(Terminal(db.jobs), protected, Doomed(db.jobs, maximum, protected), maximum);
    RetainedStates(db, maximum, protected, prune);
  }

  lemma RetainedStates(db: Db, maximum: nat, protected: Option<JobId>, prune: bool)
    ensures var after, doomed := Retain(db, maximum, protected, prune), Doomed(db.jobs, maximum, protected);
      && Terminal(after.jobs) == Terminal(db.jobs) - doomed
      && Pending(after.jobs) == Pending(db.jobs)
  {
    DoomedAreDeletable(db.jobs, maximum, protected);
    RetainKeeps(db, maximum, protected, prune);
    hide Doomed, Excess, Retain;
  }

  lemma RetainKeepsKeys(db: Db, maximum: nat, protected: Option<JobId>, prune: bool)
    requires KeysUnique(db.jobs)
    ensures KeysUnique(Retain(db, maximum, protected, prune).jobs)
  {
    hide Doomed;
  }

  // ---------- The invariant ----------

  predicate CountersFit(job: Job) {
    match job.state
    case Received => job.retries == job.recoveries
    case Submitting => job.retries == job.recoveries + 1
    case Submitted => job.retries == job.recoveries + 1
    case _ => job.retries == job.recoveries || job.retries == job.recoveries + 1
  }

  predicate JobFits(job: Job, hash: Payload -> nat) {
    && CountersFit(job)
    && (job.receipt.Some? <==> job.state.Submitted?)
    && (!IsTerminal(job.state) ==> job.fingerprint == hash(job.payload))
  }

  ghost predicate JobsFit(jobs: map<JobId, Job>, hash: Payload -> nat) {
    forall id :: id in jobs ==> JobFits(jobs[id], hash)
  }

  ghost predicate OutboxFits(db: Db) {
    forall m :: m in db.outbox ==>
      db.outbox[m].id == m && db.outbox[m].job in db.jobs && IsTerminal(db.jobs[db.outbox[m].job].state)
  }

  ghost predicate TerminalPruned(jobs: map<JobId, Job>) {
    forall id :: id in jobs && IsTerminal(jobs[id].state) ==> jobs[id].payload == Null
  }

  ghost predicate StoreFits(db: Db, limits: Limits, hash: Payload -> nat) {
    && KeysUnique(db.jobs)
    && |Pending(db.jobs)| <= limits.maxPending
    && |Terminal(db.jobs)| <= limits.maxTerminal
    && JobsFit(db.jobs, hash) && TerminalPruned(db.jobs) && OutboxFits(db)
  }

  lemma EmptyFits(limits: Limits, hash: Payload -> nat)
    ensures StoreFits(EMPTY, limits, hash)
  {
    assert Pending(EMPTY.jobs) == {} && Terminal(EMPTY.jobs) == {};
  }

  lemma InsertKeepsKeys(db: Db, limits: Limits, hash: Payload -> nat, d: Delivery)
    requires KeysUnique(db.jobs)
    ensures KeysUnique(InsertReceived(db, limits, hash, d).0.jobs)
  {
    if d.id !in db.jobs && Owners(db.jobs, d.key) == {} {
      forall a | a in db.jobs ensures db.jobs[a].key != d.key {
        assert a !in Owners(db.jobs, d.key);
      }
    }
  }

  lemma AcceptedFits(d: Delivery, hash: Payload -> nat)
    ensures JobFits(Accepted(d, hash), hash) && Accepted(d, hash).state == Received
  {
  }

  lemma AddedFits(db: Db, limits: Limits, hash: Payload -> nat, id: JobId, job: Job)
    requires StoreFits(db, limits, hash) && id !in db.jobs && |Pending(db.jobs)| < limits.maxPending
    requires JobFits(job, hash) && job.state == Received && KeysUnique(db.jobs[id := job])
    ensures StoreFits(db.(jobs := db.jobs[id := job]), limits, hash)
  {
    hide JobFits, KeysUnique;
    var jobs := db.jobs[id := job];
    assert Pending(jobs) == Pending(db.jobs) + {id};
    assert Terminal(jobs) == Terminal(db.jobs);
  }

  lemma InsertFits(db: Db, limits: Limits, hash: Payload -> nat, d: Delivery)
    requires StoreFits(db, limits, hash)
    ensures StoreFits(InsertReceived(db, limits, hash, d).0, limits, hash)
  {
    InsertKeepsKeys(db, limits, hash, d);
    AcceptedFits(d, hash);
    StoreFitsKeys(db, limits, hash);
    hide KeysUnique, JobFits, Accepted, SameContent, Owners, Pending, StoreFits;
    if InsertReceived(db, limits, hash, d).1 == Ok(Inserted) {
      AddedFits(db, limits, hash, d.id, Accepted(d, hash));
    }
  }

  /** Retention restores the whole invariant from its part that needs no pruning. */
  lemma RetainFits(db: Db, limits: Limits, hash: Payload -> nat, protected: Option<JobId>)
    requires KeysUnique(db.jobs) && JobsFit(db.jobs, hash) && OutboxFits(db)
    requires |Pending(db.jobs)| <= limits.maxPending && limits.maxTerminal >= 1
    ensures StoreFits(Retain(db, limits.maxTerminal, protected, true), limits, hash)
  {
    RetentionMeetsTheLimit(db, limits.maxTerminal, protected, true);
    RetainKeepsKeys(db, limits.maxTerminal, protected, true);
    RetainedRowsFit(db, limits.maxTerminal, hash, protected);
    hide Retain, KeysUnique, JobsFit, OutboxFits, TerminalPruned;
  }

  lemma RetainedRowsFit(db: Db, maximum: nat, hash: Payload -> nat, protected: Option<JobId>)
    requires JobsFit(db.jobs, hash) && OutboxFits(db)
    ensures var after := Retain(db, maximum, protected, true);
      JobsFit(after.jobs, hash) && TerminalPruned(after.jobs) && OutboxFits(after)
  {
    RetainKeeps(db, maximum, protected, true);
    hide Retain, Doomed;
  }

  lemma ChangedFits(job: Job, c: Change, now: Time, hash: Payload -> nat)
    requires JobFits(job, hash) && Allowed(job.state, Requested(c))
    ensures JobFits(Changed(job, c, now), hash)
  {
  }

  /** The row update and the outbox insert of a transition, before retention. */
  lemma RowUpdateFits(db: Db, limits: Limits, hash: Payload -> nat, id: JobId, c: Change, now: Time)
    requires StoreFits(db, limits, hash) && Transition(db, limits, id, c, now, true).1.Ok?
    ensures var jobs := db.jobs[id := Changed(db.jobs[id], c, now)];
      var outbox := if ReportOf(c).Some? then db.outbox[ReportOf(c).value.id := ReportOf(c).value] else db.outbox;
      && KeysUnique(jobs) && JobsFit(jobs, hash) && OutboxFits(Db(jobs, outbox))
      && Pending(jobs) == (if IsTerminal(Requested(c)) then Pending(db.jobs) - {id} else Pending(db.jobs))
      && (!IsTerminal(Requested(c)) ==> Terminal(jobs) == Terminal(db.jobs) && TerminalPruned(jobs))
  {
    hide Retain, JobFits;
    ChangedFits(db.jobs[id], c, now, hash);
  }

  lemma MovedFits(db: Db, limits: Limits, hash: Payload -> nat, id: JobId, c: Change, now: Time)
    requires StoreFits(db, limits, hash) && limits.maxTerminal >= 1
    requires Transition(db, limits, id, c, now, true).1.Ok?
    ensures StoreFits(Transition(db, limits, id, c, now, true).0, limits, hash)
  {
    hide Retain, KeysUnique, JobsFit, OutboxFits, Pending, Terminal, TerminalPruned, Changed;
    RowUpdateFits(db, limits, hash, id, c, now);
    var jobs := db.jobs[id := Changed(db.jobs[id], c, now)];
    if IsTerminal(Requested(c)) {
      var outbox := if ReportOf(c).Some? then db.outbox[ReportOf(c).value.id := ReportOf(c).value] else db.outbox;
      SubsetSize(Pending(jobs), Pending(db.jobs));
      RetainFits(Db(jobs, outbox), limits, hash, Some(id));
    }
  }

  lemma RestartedFits(job: Job, now: Time, hash: Payload -> nat)
    requires JobFits(job, hash)
    ensures var r := Restarted(job, now);
      JobFits(r, hash) && r.key == job.key && r.payload == job.payload
      && (IsTerminal(r.state) <==> IsTerminal(job.state)) && (r.state == Received <==> !IsTerminal(job.state))
  {
  }

  lemma RecoverFits(db: Db, limits: Limits, hash: Payload -> nat, now: Time)
    requires StoreFits(db, limits, hash)
    ensures StoreFits(RecoverInterrupted(db, now), limits, hash)
  {
    var after := RecoverInterrupted(db, now);
    forall id | id in db.jobs
      ensures JobFits(after.jobs[id], hash) && after.jobs[id].key == db.jobs[id].key
      ensures after.jobs[id].payload == db.jobs[id].payload
      ensures IsTerminal(after.jobs[id].state) <==> IsTerminal(db.jobs[id].state)
    {
      RestartedFits(db.jobs[id], now, hash);
    }
    hide Restarted, JobFits;
    assert Pending(after.jobs) == Pending(db.jobs) && Terminal(after.jobs) == Terminal(db.jobs);
  }

  lemma TransitionKeepsKeys(db: Db, limits: Limits, id: JobId, c: Change, now: Time, prune: bool)
    requires KeysUnique(db.jobs)
    ensures KeysUnique(Transition(db, limits, id, c, now, prune).0.jobs)
  {
    hide Retain;
    if Transition(db, limits, id, c, now, prune).1.Ok? && IsTerminal(Requested(c)) {
      var jobs := db.jobs[id := Changed(db.jobs[id], c, now)];
      var outbox := if ReportOf(c).Some? then db.outbox[ReportOf(c).value.id := ReportOf(c).value] else db.outbox;
      RetainKeepsKeys(Db(jobs, outbox), limits.maxTerminal, Some(id), prune);
    }
  }

  // ---------- Operation sequences ----------

  datatype Op =
    | Insert(delivery: Delivery)
    | Move(id: JobId, change: Change, now: Time)
    | Recover(now: Time)
    | Ack(message: MessageId)
    | Maintain

  datatype Answer =
    | InsertAnswer(inserted: Result<InsertResult, StorageError>)
    | MoveAnswer(moved: Result<(), StorageError>)
    | AckAnswer(removed: bool)
    | Done

  function Perform(db: Db, limits: Limits, hash: Payload -> nat, op: Op, prune: bool): (r: (Db, Answer))
    requires KeysUnique(db.jobs)
    ensures KeysUnique(r.0.jobs)
  {
    PerformKeepsKeys(db, limits, hash, op, prune);
    Performed(db, limits, hash, op, prune)
  }

  function Performed(db: Db, limits: Limits, hash: Payload -> nat, op: Op, prune: bool): (Db, Answer)
    requires KeysUnique(db.jobs)
  {
    match op
    case Insert(d) => var (after, r) := InsertReceived(db, limits, hash, d); (after, InsertAnswer(r))
    case Move(id, c, now) => var (after, r) := Transition(db, limits, id, c, now, prune); (after, MoveAnswer(r))
    case Recover(now) => (RecoverInterrupted(db, now), Done)
    case Ack(m) => var (after, r) := Acknowledge(db, m); (after, AckAnswer(r))
    case Maintain => (Retain(db, limits.maxTerminal, None, prune), Done)
  }

  lemma PerformKeepsKeys(db: Db, limits: Limits, hash: Payload -> nat, op: Op, prune: bool)
    requires KeysUnique(db.jobs)
    ensures KeysUnique(Performed(db, limits, hash, op, prune).0.jobs)
  {
    hide Retain, Transition, InsertReceived;
    match op {
      case Insert(d) => InsertKeepsKeys(db, limits, hash, d);
      case Move(id, c, now) => TransitionKeepsKeys(db, limits, id, c, now, prune);
      case Maintain => RetainKeepsKeys(db, limits.maxTerminal, None, prune);
      case _ =>
    }
  }

  function PerformAll(db: Db, limits: Limits, hash: Payload -> nat, ops: seq<Op>, prune: bool): (Db, seq<Answer>)
    requires KeysUnique(db.jobs)
    decreases |ops|
  {
    if ops == [] then (db, [])
    else
      var (next, answer) := Perform(db, limits, hash, ops[0], prune);
      var (end, answers) := PerformAll(next, limits, hash, ops[1..], prune);
      (end, [answer] + answers)
  }

  lemma PerformFits(db: Db, limits: Limits, hash: Payload -> nat, op: Op)
    requires StoreFits(db, limits, hash) && limits.maxTerminal >= 1
    ensures StoreFits(Perform(db, limits, hash, op, true).0, limits, hash)
  {
    StoreFitsKeys(db, limits, hash);
    hide Retain, Transition, InsertReceived;
    match op {
      case Insert(d) => InsertFits(db, limits, hash, d);
      case Move(id, c, now) =>
        if Transition(db, limits, id, c, now, true).1.Ok? {
          MovedFits(db, limits, hash, id, c, now);
        }
      case Recover(now) => RecoverFits(db, limits, hash, now);
      case Ack(m) => AckFits(db, limits, hash, m);
      case Maintain => RetainFits(db, limits, hash, None);
    }
  }

  lemma StoreFitsKeys(db: Db, limits: Limits, hash: Payload -> nat)
    requires StoreFits(db, limits, hash)
    ensures KeysUnique(db.jobs)
  {
  }

  lemma AckFits(db: Db, limits: Limits, hash: Payload -> nat, m: MessageId)
    requires StoreFits(db, limits, hash)
    ensures StoreFits(Acknowledge(db, m).0, limits, hash)
  {
  }

  lemma {:induction false} EveryRunFits(db: Db, limits: Limits, hash: Payload -> nat, ops: seq<Op>)
    requires StoreFits(db, limits, hash) && limits.maxTerminal >= 1
    ensures KeysUnique(db.jobs) && StoreFits(PerformAll(db, limits, hash, ops, true).0, limits, hash)
    decreases |ops|
  {
    hide StoreFits, Perform;
    StoreFitsKeys(db, limits, hash);
    if ops != [] {
      PerformFits(db, limits, hash, ops[0]);
      EveryRunFits(Perform(db, limits, hash, ops[0], true).0, limits, hash, ops[1..]);
    }
  }

  /** From an empty database with positive limits, every sequence of repository calls keeps the invariant. */
  lemma StorageInvariant(limits: Limits, hash: Payload -> nat, ops: seq<Op>)
    requires limits.maxPending >= 1 && limits.maxTerminal >= 1
    ensures StoreFits(PerformAll(EMPTY, limits, hash, ops, true).0, limits, hash)
  {
    EmptyFits(limits, hash);
    EveryRunFits(EMPTY, limits, hash, ops);
  }

  // ---------- Pruning is invisible ----------

  ghost predicate RowRelated(pruned: Job, full: Job, hash: Payload -> nat) {
    && pruned == full.(payload := pruned.payload)
    && (pruned.payload == full.payload || (IsTerminal(full.state) && pruned.payload == Null))
    && full.fingerprint == hash(full.payload)
  }

  /** The same tables, except that terminal payloads may be gone on the left. */
  ghost predicate Related(pruned: Db, full: Db, hash: Payload -> nat) {
    && pruned.outbox == full.outbox && pruned.jobs.Keys == full.jobs.Keys
    && forall id :: id in full.jobs ==> RowRelated(pruned.jobs[id], full.jobs[id], hash)
  }

  ghost predicate Injective(hash: Payload -> nat) {
    forall a, b :: hash(a) == hash(b) ==> a == b
  }

  /** A redelivery that only a fingerprint collision could confuse with the pruned original. */
  predicate Collides(pruned: Db, full: Db, hash: Payload -> nat, d: Delivery)
    requires pruned.jobs.Keys == full.jobs.Keys
  {
    d.id in full.jobs &&
    var p, f := pruned.jobs[d.id], full.jobs[d.id];
    p.key == d.key && p.printer == d.printer && p.payload == Null && f.payload != Null
    && f.payload != d.payload && hash(f.payload) == hash(d.payload)
  }

  /** Without assuming anything of the hash, the two stores answer alike exactly when there is no collision. */
  lemma InsertAnswersAlikeIffNoCollision(pruned: Db, full: Db, limits: Limits, hash: Payload -> nat, d: Delivery)
    requires Related(pruned, full, hash) && KeysUnique(pruned.jobs) && KeysUnique(full.jobs)
    ensures InsertReceived(pruned, limits, hash, d).1 == InsertReceived(full, limits, hash, d).1
       <==> !Collides(pruned, full, hash, d)
    ensures !Collides(pruned, full, hash, d) ==>
      Related(InsertReceived(pruned, limits, hash, d).0, InsertReceived(full, limits, hash, d).0, hash)
  {
    if d.id !in full.jobs {
      assert Owners(pruned.jobs, d.key) == Owners(full.jobs, d.key);
      assert Pending(pruned.jobs) == Pending(full.jobs);
      if Owners(full.jobs, d.key) != {} {
        OwnersAnswerAlike(pruned, full, limits, hash, d);
      }
    }
  }

  lemma OwnersAnswerAlike(pruned: Db, full: Db, limits: Limits, hash: Payload -> nat, d: Delivery)
    requires Related(pruned, full, hash) && KeysUnique(pruned.jobs) && KeysUnique(full.jobs)
    requires d.id !in full.jobs && Owners(pruned.jobs, d.key) == Owners(full.jobs, d.key) != {}
    ensures InsertReceived(pruned, limits, hash, d).1 == InsertReceived(full, limits, hash, d).1
  {
    var p, f := InsertReceived(pruned, limits, hash, d).1, InsertReceived(full, limits, hash, d).1;
    assert p.value.existing in Owners(full.jobs, d.key) && f.value.existing in Owners(full.jobs, d.key);
  }

  lemma DoomedAlike(a: map<JobId, Job>, b: map<JobId, Job>, maximum: nat, protected: Option<JobId>)
    requires a.Keys == b.Keys
    requires forall id :: id in a ==> a[id].state == b[id].state && a[id].updatedAt == b[id].updatedAt
    ensures Doomed(a, maximum, protected) == Doomed(b, maximum, protected)
  {
    hide FirstN, Oldest;
    assert UpdatedAt(a) == UpdatedAt(b);
    assert Terminal(a) == Terminal(b);
  }

  lemma RetainRelated(pruned: Db, full: Db, maximum: nat, protected: Option<JobId>, hash: Payload -> nat)
    requires Related(pruned, full, hash)
    ensures Related(Retain(pruned, maximum, protected, true), Retain(full, maximum, protected, false), hash)
  {
    DoomedAlike(pruned.jobs, full.jobs, maximum, protected);
    RetainKeeps(pruned, maximum, protected, true);
    RetainKeeps(full, maximum, protected, false);
    hide Retain, Doomed;
  }

  lemma TransitionRelated(pruned: Db, full: Db, limits: Limits, hash: Payload -> nat, id: JobId, c: Change, now: Time)
    requires Related(pruned, full, hash)
    ensures var p, f := Transition(pruned, limits, id, c, now, true), Transition(full, limits, id, c, now, false);
      p.1 == f.1 && Related(p.0, f.0, hash)
  {
    hide Retain;
    if Transition(full, limits, id, c, now, false).1.Ok? {
      var outbox := if ReportOf(c).Some? then full.outbox[ReportOf(c).value.id := ReportOf(c).value] else full.outbox;
      var p := Db(pruned.jobs[id := Changed(pruned.jobs[id], c, now)], outbox);
      var f := Db(full.jobs[id := Changed(full.jobs[id], c, now)], outbox);
      assert Related(p, f, hash);
      RetainRelated(p, f, limits.maxTerminal, Some(id), hash);
    }
  }

  lemma PerformRelated(pruned: Db, full: Db, limits: Limits, hash: Payload -> nat, op: Op)
    requires Related(pruned, full, hash) && KeysUnique(pruned.jobs) && KeysUnique(full.jobs) && Injective(hash)
    ensures var p, f := Perform(pruned, limits, hash, op, true), Perform(full, limits, hash, op, false);
      p.1 == f.1 && Related(p.0, f.0, hash)
  {
    hide Retain, Transition, InsertReceived;
    match op {
      case Insert(d) => InsertAnswersAlikeIffNoCollision(pruned, full, limits, hash, d);
      case Move(id, c, now) => TransitionRelated(pruned, full, limits, hash, id, c, now);
      case Recover(now) =>
      case Ack(m) =>
      case Maintain => RetainRelated(pruned, full, limits.maxTerminal, None, hash);
    }
  }

  lemma {:induction false} RunsRelated(pruned: Db, full: Db, limits: Limits, hash: Payload -> nat, ops: seq<Op>)
    requires Related(pruned, full, hash) && KeysUnique(pruned.jobs) && KeysUnique(full.jobs) && Injective(hash)
    ensures PerformAll(pruned, limits, hash, ops, true).1 == PerformAll(full, limits, hash, ops, false).1
    decreases |ops|
  {
    hide Related, Injective, Perform, KeysUnique;
    if ops != [] {
      PerformRelated(pruned, full, limits, hash, ops[0]);
      var p, f := Perform(pruned, limits, hash, ops[0], true).0, Perform(full, limits, hash, ops[0], false).0;
      RunsRelated(p, f, limits, hash, ops[1..]);
    }
  }

  /** Pruning is a refinement: every sequence of calls gets the answers a store that keeps all payloads gives. */
  lemma PruningIsInvisible(limits: Limits, hash: Payload -> nat, ops: seq<Op>)
    requires Injective(hash)
    ensures PerformAll(EMPTY, limits, hash, ops, true).1 == PerformAll(EMPTY, limits, hash, ops, false).1
  {
    RunsRelated(EMPTY, EMPTY, limits, hash, ops);
  }

  // ---------- Exact redelivery ----------

  /** The row was created by delivery `d`. */
  ghost predicate CameFrom(job: Job, d: Delivery, hash: Payload -> nat) {
    && job.key == d.key && job.printer == d.printer && job.fingerprint == hash(d.payload)
    && (job.payload == d.payload || job.payload == Null)
  }

  lemma RetainKeepsOrigin(db: Db, maximum: nat, protected: Option<JobId>, hash: Payload -> nat, d: Delivery)
    requires d.id in db.jobs && CameFrom(db.jobs[d.id], d, hash)
    ensures var after := Retain(db, maximum, protected, true);
      d.id in after.jobs ==> CameFrom(after.jobs[d.id], d, hash)
  {
    hide Retain;
    RetainKeeps(db, maximum, protected, true);
    hide Doomed;
  }

  lemma ChangedKeepsOrigin(job: Job, c: Change, now: Time, hash: Payload -> nat, d: Delivery)
    requires CameFrom(job, d, hash)
    ensures CameFrom(Changed(job, c, now), d, hash) && CameFrom(Restarted(job, now), d, hash)
  {
  }

  lemma MoveKeepsOrigin(db: Db, limits: Limits, id: JobId, c: Change, now: Time, hash: Payload -> nat, d: Delivery)
    requires d.id in db.jobs && CameFrom(db.jobs[d.id], d, hash)
    ensures var after := Transition(db, limits, id, c, now, true).0;
      d.id in after.jobs ==> CameFrom(after.jobs[d.id], d, hash)
  {
    hide Retain, CameFrom, Changed;
    ChangedKeepsOrigin(db.jobs[d.id], c, now, hash, d);
    if Transition(db, limits, id, c, now, true).1.Ok? {
      var jobs := db.jobs[id := Changed(db.jobs[id], c, now)];
      var outbox := if ReportOf(c).Some? then db.outbox[ReportOf(c).value.id := ReportOf(c).value] else db.outbox;
      RetainKeepsOrigin(Db(jobs, outbox), limits.maxTerminal, Some(id), hash, d);
    }
  }

  lemma InsertKeepsOrigin(db: Db, limits: Limits, hash: Payload -> nat, n: Delivery, d: Delivery)
    requires KeysUnique(db.jobs) && d.id in db.jobs
    ensures var after := InsertReceived(db, limits, hash, n).0;
      d.id in after.jobs && after.jobs[d.id] == db.jobs[d.id]
  {
    hide Accepted, SameContent, Owners, Pending, KeysUnique;
  }

  lemma PerformKeepsOrigin(db: Db, limits: Limits, hash: Payload -> nat, op: Op, d: Delivery)
    requires KeysUnique(db.jobs) && d.id in db.jobs && CameFrom(db.jobs[d.id], d, hash)
    ensures var after := Perform(db, limits, hash, op, true).0;
      d.id in after.jobs ==> CameFrom(after.jobs[d.id], d, hash)
  {
    hide Retain, Transition, InsertReceived, CameFrom, Restarted;
    match op {
      case Insert(n) => InsertKeepsOrigin(db, limits, hash, n, d);
      case Move(id, c, now) => MoveKeepsOrigin(db, limits, id, c, now, hash, d);
      case Recover(now) => ChangedKeepsOrigin(db.jobs[d.id], Claim, now, hash, d);
      case Maintain => RetainKeepsOrigin(db, limits.maxTerminal, None, hash, d);
      case Ack(_) =>
    }
  }

  /** The row stays in the table throughout the calls. */
  ghost predicate Stays(db: Db, limits: Limits, hash: Payload -> nat, ops: seq<Op>, id: JobId)
    requires KeysUnique(db.jobs)
    decreases |ops|
  {
    id in db.jobs && (ops == [] || Stays(Perform(db, limits, hash, ops[0], true).0, limits, hash, ops[1..], id))
  }

  lemma {:induction false} RunKeepsOrigin(db: Db, limits: Limits, hash: Payload -> nat, ops: seq<Op>, d: Delivery)
    requires KeysUnique(db.jobs) && Stays(db, limits, hash, ops, d.id) && CameFrom(db.jobs[d.id], d, hash)
    ensures var after := PerformAll(db, limits, hash, ops, true).0;
      KeysUnique(after.jobs) && d.id in after.jobs && CameFrom(after.jobs[d.id], d, hash)
    decreases |ops|
  {
    hide CameFrom, Perform, KeysUnique;
    if ops != [] {
      PerformKeepsOrigin(db, limits, hash, ops[0], d);
      RunKeepsOrigin(Perform(db, limits, hash, ops[0], true).0, limits, hash, ops[1..], d);
    }
  }

  /**
   Once inserted, and for as long as its row is retained, delivering the same job
   again answers DuplicateJob with the current state and changes nothing.
   */
  lemma {:induction false} RedeliveryIsIdempotent(db: Db, limits: Limits, hash: Payload -> nat, d: Delivery, ops: seq<Op>)
    requires KeysUnique(db.jobs) && InsertReceived(db, limits, hash, d).1 == Ok(Inserted)
    requires var inserted := Perform(db, limits, hash, Insert(d), true).0; Stays(inserted, limits, hash, ops, d.id)
    ensures var inserted := Perform(db, limits, hash, Insert(d), true).0;
      var later := PerformAll(inserted, limits, hash, ops, true).0;
      && KeysUnique(later.jobs) && d.id in later.jobs
      && InsertReceived(later, limits, hash, d) == (later, Ok(DuplicateJob(later.jobs[d.id].state)))
  {
    hide Stays, PerformAll;
    var inserted := Perform(db, limits, hash, Insert(d), true).0;
    RunKeepsOrigin(inserted, limits, hash, ops, d);
  }
}
