/** The repository object: both tables live in fields that each call updates in place. */
module Storage {
  import opened Results
  import opened Ordering
  import opened Store
  import opened StoreProperties
  import opened StoreEffects

  datatype RecoveryResult = RecoveryResult(recovered: nat, pending: nat)

  lemma OutboxIdsAreThere(db: Db, limit: nat)
    ensures forall i :: 0 <= i < |OutboxIds(db, limit)| ==> OutboxIds(db, limit)[i] in db.outbox
  {
    var ids := InOrder(CreatedAt(db.outbox), db.outbox.Keys);
    assert forall x :: x in ids <==> x in db.outbox;
    hide InOrder;
    assert forall i :: 0 <= i < |ids| ==> ids[i] in ids;
  }

  lemma RestartedAreReceived(jobs: map<JobId, Job>, now: Time)
    ensures ReceivedJobs(map id | id in jobs :: Restarted(jobs[id], now)) == Pending(jobs)
  {
  }

  /** The part of the invariant that maintenance cannot restore. */
  ghost predicate RowsFit(db: Db, limits: Limits, hash: Payload -> nat) {
    KeysUnique(db.jobs) && JobsFit(db.jobs, hash) && OutboxFits(db) && |Pending(db.jobs)| <= limits.maxPending
  }

  class Repository {
    const limits: Limits
    const hash: Payload -> nat
    var jobs: map<JobId, Job>
    var outbox: map<MessageId, Status>

    ghost function View(): Db
      reads this
    {
      Db(jobs, outbox)
    }

    /** What the calls rely on and keep. */
    ghost predicate Valid()
      reads this
    {
      limits.maxPending >= 1 && limits.maxTerminal >= 1 && StoreFits(View(), limits, hash)
    }

    /** Opens an existing database and runs maintenance once, which restores the rest of the invariant. */
    constructor Open(found: Db, limits: Limits, hash: Payload -> nat)
      requires limits.maxPending >= 1 && limits.maxTerminal >= 1
      ensures this.limits == limits && this.hash == hash
      ensures View() == Retain(found, limits.maxTerminal, None, true)
      ensures RowsFit(found, limits, hash) ==> Valid()
    {
      this.limits, this.hash, jobs, outbox := limits, hash, found.jobs, found.outbox;
      new;
      EnforceTerminalRetention(None);
      hide Retain, StoreFits, KeysUnique, JobsFit, OutboxFits, Pending;
      if RowsFit(found, limits, hash) {
        RetainFits(found, limits, hash, None);
      }
    }

    method InsertReceived(d: Delivery) returns (r: Result<InsertResult, StorageError>)
      requires Valid()
      modifies this
      ensures Valid() && (View(), r) == Store.InsertReceived(old(View()), limits, hash, d)
      ensures Answered(old(View()), limits, hash, d, View(), r)
    {
      InsertFits(View(), limits, hash, d);
      InsertAnswered(View(), limits, hash, d);
      hide StoreFits, Answered;
      if d.id in jobs {
        var job := jobs[d.id];
        if job.key != d.key {
          return Err(JobIdentityConflict(d.id));
        }
        var payloadMatches :=
          if job.payload == Null then job.fingerprint == hash(d.payload) else job.payload == d.payload;
        if job.printer != d.printer || !payloadMatches {
          return Err(JobContentConflict(d.id));
        }
        return Ok(DuplicateJob(job.state));
      }
      var owners := Owners(jobs, d.key);
      if owners != {} {
        var owner :| owner in owners;
        return Ok(DuplicateIdempotency(owner, jobs[owner].state));
      }
      if |Pending(jobs)| >= limits.maxPending {
        return Err(QueueFull(limits.maxPending));
      }
      jobs := jobs[d.id := Accepted(d, hash)];
      return Ok(Inserted);
    }

    /** Claimable rows, oldest first. */
    method PendingJobs() returns (rows: seq<(JobId, Job)>)
      ensures |rows| == |PendingIds(View())|
      ensures forall i :: 0 <= i < |rows| ==> rows[i].0 == PendingIds(View())[i] && rows[i].0 in jobs && rows[i].1 == jobs[rows[i].0]
      ensures ListsReceived(jobs, rows)
    {
      var ids := PendingIds(Db(jobs, outbox));
      rows := [];
      for i := 0 to |ids|
        invariant |rows| == i
        invariant forall k :: 0 <= k < i ==> rows[k].0 == ids[k] && ids[k] in jobs && rows[k].1 == jobs[ids[k]]
      {
        assert ids[i] in ids;
        rows := rows + [(ids[i], jobs[ids[i]])];
      }
      hide ListsReceived;
      PendingAreListed(Db(jobs, outbox), rows);
    }

    /** The conditional row update shared by every lifecycle call; one transaction. */
    method Transition(id: JobId, c: Change, now: Time) returns (r: Result<(), StorageError>)
      requires Valid()
      modifies this
      ensures Valid() && (View(), r) == Store.Transition(old(View()), limits, id, c, now, true)
      ensures r.Ok? <==> id in old(jobs) && MayChange(old(jobs)[id].state, c) && ReportIsNew(old(View()), id, c)
      ensures r.Ok? ==> ChangedRows(old(View()), View(), id, c, now)
      ensures r.Err? ==> View() == old(View()) && r.error == RefusalOf(old(View()), id, c)
    {
      PerformFits(View(), limits, hash, Move(id, c, now));
      TransitionAnswers(View(), limits, id, c, now);
      if Store.Transition(View(), limits, id, c, now, true).1.Ok? {
        TransitionEffect(View(), limits, id, c, now);
      }
      hide Retain, StoreFits, ChangedRows, RefusalOf, MayChange, ReportIsNew;
      if ReportOf(c).Some? && ReportOf(c).value.job != id {
        return Err(InvalidInput);
      }
      if id !in jobs {
        return Err(JobNotFound(id));
      }
      var current := jobs[id].state;
      if !Allowed(current, Requested(c)) {
        return Err(InvalidTransition(id, current, Requested(c)));
      }
      var before := jobs;
      jobs := jobs[id := Changed(jobs[id], c, now)];
      if ReportOf(c).Some? {
        var status := ReportOf(c).value;
        if status.id in outbox {
          jobs := before;
          return Err(ConstraintViolation);
        }
        outbox := outbox[status.id := status];
      }
      if IsTerminal(Requested(c)) {
        EnforceTerminalRetention(Some(id));
      }
      return Ok(());
    }

    method EnforceTerminalRetention(protected: Option<JobId>)
      modifies this
      ensures View() == Retain(old(View()), limits.maxTerminal, protected, true)
    {
      hide FirstN;
      var doomed := Doomed(jobs, limits.maxTerminal, protected);
      jobs := Pruned(jobs);
      jobs := map id | id in jobs && id !in doomed :: jobs[id];
      outbox := map m | m in outbox && outbox[m].job !in doomed :: outbox[m];
    }

    method RecoverInterrupted(now: Time) returns (r: RecoveryResult)
      requires Valid()
      modifies this
      ensures Valid() && View() == Store.RecoverInterrupted(old(View()), now)
      ensures RestartedRows(old(jobs), jobs, now) && outbox == old(outbox)
      ensures r.recovered == |set id | id in old(jobs) && old(jobs)[id].state == Submitting|
      ensures r.pending == |ReceivedJobs(jobs)| && r.pending == |Pending(old(jobs))|
    {
      RecoverFits(View(), limits, hash, now);
      RecoveryEffect(View(), now);
      hide RestartedRows;
      RestartedAreReceived(jobs, now);
      hide StoreFits, Restarted, ReceivedJobs, Pending;
      var interrupted := set id | id in jobs && jobs[id].state == Submitting;
      jobs := map id | id in jobs :: Restarted(jobs[id], now);
      return RecoveryResult(|interrupted|, |ReceivedJobs(jobs)|);
    }

    /** The oldest outbox rows, up to `limit`. */
    method PendingOutboundStatuses(limit: nat) returns (r: Result<seq<Status>, StorageError>)
      requires Valid()
      ensures limit == 0 <==> r.Err?
      ensures r.Ok? ==>
        && |r.value| == |OutboxIds(View(), limit)|
        && forall i :: 0 <= i < |r.value| ==>
             OutboxIds(View(), limit)[i] in outbox && r.value[i] == outbox[OutboxIds(View(), limit)[i]]
      ensures r.Ok? ==> ListsOldest(outbox, limit, OutboxIds(View(), limit))
    {
      OutboxIsListed(View(), limit);
      hide ListsOldest;
      hide StoreFits, OutboxIds;
      if limit == 0 {
        return Err(InvalidInput);
      }
      var ids := OutboxIds(Db(jobs, outbox), limit);
      OutboxIdsAreThere(Db(jobs, outbox), limit);
      var rows := [];
      for i := 0 to |ids|
        invariant |rows| == i
        invariant forall k :: 0 <= k < i ==> ids[k] in outbox && rows[k] == outbox[ids[k]]
      {
        rows := rows + [outbox[ids[i]]];
      }
      return Ok(rows);
    }

    method AcknowledgeOutboundStatus(m: MessageId) returns (removed: bool)
      requires Valid()
      modifies this`outbox
      ensures Valid() && (View(), removed) == Acknowledge(old(View()), m)
      ensures outbox == old(outbox) - {m} && (removed <==> m in old(outbox))
    {
      AckFits(View(), limits, hash, m);
      removed := m in outbox;
      outbox := outbox - {m};
    }
  }
}
