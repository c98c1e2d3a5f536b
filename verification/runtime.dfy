/** Reporting durable terminal statuses: the outbox replay and the reports of a finished drain. */
module Runtime {
  import opened Results
  import opened Ordering
  import opened Store
  import opened StoreProperties
  import opened Storage

  const BATCH: nat := 256

  datatype Mismatch = WrongMessage | NotTerminal | WrongJob

  datatype RuntimeError = InvalidOutboundStatus(id: MessageId, reason: Mismatch) | Reporting(message: Message)

  /** A stored payload may be sent only if it is the terminal status its row says it is. */
  function Validated(storedMessage: MessageId, storedJob: JobId, m: Message): Result<(), Mismatch> {
    if m.id != storedMessage then Err(WrongMessage)
    else if !m.kind.JobSubmitted? && !m.kind.JobFailed? then Err(NotTerminal)
    else if m.job != storedJob then Err(WrongJob)
    else Ok(())
  }

  /** What stops a replay at a row, if anything does. */
  function Obstacle(status: Status, accepts: Message -> bool): Option<RuntimeError> {
    var v := Validated(status.id, status.job, status.message);
    if v.Err? then Some(InvalidOutboundStatus(status.id, v.error))
    else if !accepts(status.message) then Some(Reporting(status.message))
    else None
  }

  function ReplayIds(outbox: map<MessageId, Status>): seq<MessageId> { InOrder(CreatedAt(outbox), outbox.Keys) }

  predicate AllIn(outbox: map<MessageId, Status>, ids: seq<MessageId>) {
    forall i :: 0 <= i < |ids| ==> ids[i] in outbox
  }

  lemma ReplayIdsListAll(outbox: map<MessageId, Status>)
    ensures var ids := ReplayIds(outbox);
      && AllIn(outbox, ids) && |ids| == |outbox| && (forall m :: m in ids <==> m in outbox)
      && (forall m :: m in outbox ==> m in CreatedAt(outbox)) && Ascending(CreatedAt(outbox), ids)
  {
    var ids := ReplayIds(outbox);
    assert forall i :: 0 <= i < |ids| ==> ids[i] in ids;
    assert |outbox.Keys| == |outbox|;
  }

  function Looked(outbox: map<MessageId, Status>, ids: seq<MessageId>): (rows: seq<Status>)
    requires AllIn(outbox, ids)
  {
    seq(|ids|, i requires 0 <= i < |ids| => outbox[ids[i]])
  }

  /** The outbox as the reader sees it: by creation time, then identity. */
  function InReplayOrder(outbox: map<MessageId, Status>): seq<Status> {
    ReplayIdsListAll(outbox);
    Looked(outbox, ReplayIds(outbox))
  }

  /** How many rows go out before the first obstacle. */
  function Sent(rows: seq<Status>, accepts: Message -> bool): (k: nat)
    ensures k <= |rows|
    ensures forall i :: 0 <= i < k ==> Obstacle(rows[i], accepts).None?
    ensures k < |rows| ==> Obstacle(rows[k], accepts).Some?
  {
    if rows == [] || Obstacle(rows[0], accepts).Some? then 0 else 1 + Sent(rows[1..], accepts)
  }

  /** No row is listed twice, so no report goes out twice. */
  lemma ListedOnce(outbox: map<MessageId, Status>, i: nat, j: nat)
    requires i < j < |InReplayOrder(outbox)| && forall m :: m in outbox ==> outbox[m].id == m
    ensures InReplayOrder(outbox)[i].id != InReplayOrder(outbox)[j].id
  {
    var ids := ReplayIds(outbox);
    ReplayIdsListAll(outbox);
    hide ReplayIds;
    assert Before(CreatedAt(outbox), ids[i], ids[j]);
  }

  function MessagesOf(rows: seq<Status>): seq<Message> {
    seq(|rows|, i requires 0 <= i < |rows| => rows[i].message)
  }

  function IdsOf(rows: seq<Status>): set<MessageId> { set i | 0 <= i < |rows| :: rows[i].id }

  lemma GoneIds(outbox: map<MessageId, Status>, ids: seq<MessageId>, k: nat)
    requires AllIn(outbox, ids) && k <= |ids| && forall m :: m in outbox ==> outbox[m].id == m
    ensures forall m :: m in IdsOf(Looked(outbox, ids)[..k]) <==> m in ids[..k]
  {
    var rows := Looked(outbox, ids);
    forall m | m in ids[..k] ensures m in IdsOf(rows[..k]) {
      var i :| 0 <= i < k && ids[i] == m;
      assert rows[..k][i].id == m;
    }
    forall m | m in IdsOf(rows[..k]) ensures m in ids[..k] {
      var i :| 0 <= i < k && rows[..k][i].id == m;
      assert ids[..k][i] == m;
    }
  }

  lemma RestAscends(rank: map<nat, int>, ids: seq<nat>, k: nat)
    requires k <= |ids| && (forall x :: x in ids ==> x in rank) && Ascending(rank, ids)
    ensures Ascending(rank, ids[k..])
    ensures forall x :: x in ids ==> (x in ids[k..] <==> x !in ids[..k])
  {
    assert forall i, j :: 0 <= i < j < |ids| ==> Before(rank, ids[i], ids[j]) && ids[i] != ids[j];
    hide Before;
    assert forall x :: x in ids[k..] ==> x !in ids[..k];
    assert ids == ids[..k] + ids[k..];
  }

  lemma SameRankAscends(a: map<nat, int>, b: map<nat, int>, ids: seq<nat>)
    requires forall x :: x in ids ==> x in a && x in b && a[x] == b[x]
    requires Ascending(a, ids)
    ensures Ascending(b, ids)
  {
    forall i, j | 0 <= i < j < |ids| ensures Before(b, ids[i], ids[j]) {
      assert ids[i] in ids && ids[j] in ids && Before(a, ids[i], ids[j]);
    }
  }

  lemma RestInOrder(outbox: map<MessageId, Status>, left: map<MessageId, Status>, ids: seq<MessageId>)
    requires (forall m :: m in left <==> m in ids) && (forall m :: m in left ==> m in outbox && left[m] == outbox[m])
    requires AllIn(outbox, ids) && Ascending(CreatedAt(outbox), ids)
    ensures ReplayIds(left) == ids
  {
    SameRankAscends(CreatedAt(outbox), CreatedAt(left), ids);
    InOrderIsUnique(CreatedAt(left), left.Keys, ids);
  }

  lemma LookedRest(outbox: map<MessageId, Status>, left: map<MessageId, Status>, ids: seq<MessageId>, k: nat)
    requires AllIn(outbox, ids) && k <= |ids| && AllIn(left, ids[k..])
    requires forall m :: m in left ==> m in outbox && left[m] == outbox[m]
    ensures Looked(left, ids[k..]) == Looked(outbox, ids)[k..]
  {
  }

  /** Taking the first rows out leaves the rest in the same order. */
  lemma {:induction false} OrderOfTheRest(outbox: map<MessageId, Status>, k: nat)
    requires k <= |InReplayOrder(outbox)| && forall m :: m in outbox ==> outbox[m].id == m
    ensures InReplayOrder(outbox - IdsOf(InReplayOrder(outbox)[..k])) == InReplayOrder(outbox)[k..]
  {
    var ids := ReplayIds(outbox);
    ReplayIdsListAll(outbox);
    hide ReplayIds, IdsOf, Ascending;
    var left := outbox - IdsOf(Looked(outbox, ids)[..k]);
    GoneIds(outbox, ids, k);
    RestAscends(CreatedAt(outbox), ids, k);
    hide Looked;
    assert forall m :: m in left <==> m in ids[k..];
    RestInOrder(outbox, left, ids[k..]);
    ReplayIdsListAll(left);
    LookedRest(outbox, left, ids, k);
  }

  /** The first `k` rows have been reported and taken out, and nothing else happened. */
  ghost predicate Replayed(
    rows: seq<Status>, k: nat, outbox: map<MessageId, Status>, log: seq<Message>,
    laterOutbox: map<MessageId, Status>, laterLog: seq<Message>)
  {
    k <= |rows| && laterOutbox == outbox - IdsOf(rows[..k]) && laterLog == log + MessagesOf(rows[..k])
  }

  lemma NothingReplayed(rows: seq<Status>, outbox: map<MessageId, Status>, log: seq<Message>)
    ensures Replayed(rows, 0, outbox, log, outbox, log)
  {
  }

  lemma OneMoreReplayed(
    rows: seq<Status>, k: nat, outbox: map<MessageId, Status>, log: seq<Message>,
    laterOutbox: map<MessageId, Status>, laterLog: seq<Message>)
    requires Replayed(rows, k, outbox, log, laterOutbox, laterLog) && k < |rows|
    ensures Replayed(rows, k + 1, outbox, log, laterOutbox - {rows[k].id}, laterLog + [rows[k].message])
  {
    assert rows[..k + 1] == rows[..k] + [rows[k]];
    forall m | m in IdsOf(rows[..k]) ensures m in IdsOf(rows[..k + 1]) {
      var i :| 0 <= i < k && rows[..k][i].id == m;
      assert rows[..k + 1][i].id == m;
    }
    assert rows[..k + 1][k].id == rows[k].id;
    assert IdsOf(rows[..k + 1]) == IdsOf(rows[..k]) + {rows[k].id};
    assert MessagesOf(rows[..k + 1]) == MessagesOf(rows[..k]) + [rows[k].message];
  }

  /** Once every row is replayed the outbox is empty. */
  lemma AllReplayed(
    rows: seq<Status>, outbox: map<MessageId, Status>, log: seq<Message>,
    laterOutbox: map<MessageId, Status>, laterLog: seq<Message>)
    requires rows == InReplayOrder(outbox) && forall m :: m in outbox ==> outbox[m].id == m
    requires Replayed(rows, |rows|, outbox, log, laterOutbox, laterLog)
    ensures laterOutbox == map[] && |rows| == |outbox|
  {
    OrderOfTheRest(outbox, |rows|);
    ReplayIdsListAll(outbox);
    ReplayIdsListAll(laterOutbox);
    hide ReplayIds;
    assert |InReplayOrder(laterOutbox)| == 0;
  }

  lemma RestOfReplay(
    rows: seq<Status>, k: nat, outbox: map<MessageId, Status>, log: seq<Message>,
    laterOutbox: map<MessageId, Status>, laterLog: seq<Message>)
    requires rows == InReplayOrder(outbox) && forall m :: m in outbox ==> outbox[m].id == m
    requires Replayed(rows, k, outbox, log, laterOutbox, laterLog)
    ensures k <= |rows| && InReplayOrder(laterOutbox) == rows[k..]
  {
    OrderOfTheRest(outbox, k);
  }

  /** One read of the outbox is a prefix of the replay order. */
  lemma BatchIsPrefix(db: Db, batch: seq<Status>)
    requires |batch| == |OutboxIds(db, BATCH)|
    requires forall i :: 0 <= i < |batch| ==> OutboxIds(db, BATCH)[i] in db.outbox && batch[i] == db.outbox[OutboxIds(db, BATCH)[i]]
    ensures batch == Prefix(InReplayOrder(db.outbox), BATCH)
  {
    ReplayIdsListAll(db.outbox);
    assert OutboxIds(db, BATCH) == Prefix(ReplayIds(db.outbox), BATCH);
    hide OutboxIds, ReplayIds;
  }

  lemma RowsKeepTheirIds(repository: Repository)
    requires repository.Valid()
    ensures forall m :: m in repository.outbox ==> repository.outbox[m].id == m
  {
  }

  function ReportedIds(messages: seq<Message>, n: nat): set<MessageId>
    requires n <= |messages|
  {
    set i | 0 <= i < n :: messages[i].id
  }

  lemma NoneReported(messages: seq<Message>, outbox: map<MessageId, Status>)
    ensures messages[..0] == [] && outbox - ReportedIds(messages, 0) == outbox
  {
  }

  lemma OneMoreReported(messages: seq<Message>, n: nat, outbox: map<MessageId, Status>)
    requires n < |messages|
    ensures messages[..n + 1] == messages[..n] + [messages[n]]
    ensures outbox - ReportedIds(messages, n + 1) == (outbox - ReportedIds(messages, n)) - {messages[n].id}
  {
    assert ReportedIds(messages, n + 1) == ReportedIds(messages, n) + {messages[n].id};
  }

  // ---------- The replay in terms of the rows themselves ----------

  /** All rows of the outbox, each once, by creation time and then identity. */
  ghost predicate ListsOutbox(outbox: map<MessageId, Status>, rows: seq<Status>) {
    && |rows| == |outbox|
    && (forall i :: 0 <= i < |rows| ==> rows[i].id in outbox && outbox[rows[i].id] == rows[i])
    && (forall i, j :: 0 <= i < j < |rows| ==>
          || rows[i].createdAt < rows[j].createdAt
          || (rows[i].createdAt == rows[j].createdAt && rows[i].id < rows[j].id))
  }

  /** A row goes out if it holds a terminal status of its own job under its own identity, and the reporter accepts it. */
  ghost predicate GoesOut(row: Status, accepts: Message -> bool) {
    && row.message.id == row.id && row.message.job == row.job
    && !row.message.kind.JobReceived? && accepts(row.message)
  }

  ghost function Hindrance(row: Status): RuntimeError {
    if row.message.id != row.id then InvalidOutboundStatus(row.id, WrongMessage)
    else if row.message.kind.JobReceived? then InvalidOutboundStatus(row.id, NotTerminal)
    else if row.message.job != row.job then InvalidOutboundStatus(row.id, WrongJob)
    else Reporting(row.message)
  }

  /** The first k rows have gone out, the next one hinders, and the table and the reporter show exactly that. */
  ghost predicate ReplayedUpTo(
    rows: seq<Status>, k: nat, accepts: Message -> bool, outbox: map<MessageId, Status>, log: seq<Message>,
    laterOutbox: map<MessageId, Status>, laterLog: seq<Message>, r: Result<nat, RuntimeError>)
  {
    && k <= |rows| && (forall i :: 0 <= i < k ==> GoesOut(rows[i], accepts))
    && (if k == |rows| then r == Ok(k) else !GoesOut(rows[k], accepts) && r == Err(Hindrance(rows[k])))
    && |laterLog| == |log| + k && laterLog[..|log|] == log
    && (forall i :: 0 <= i < k ==> laterLog[|log| + i] == rows[i].message)
    && (forall m :: m in laterOutbox <==> m in outbox && forall i :: 0 <= i < k ==> rows[i].id != m)
    && (forall m :: m in laterOutbox ==> laterOutbox[m] == outbox[m])
  }

  lemma ReplayOrderListsOutbox(outbox: map<MessageId, Status>)
    requires forall m :: m in outbox ==> outbox[m].id == m
    ensures ListsOutbox(outbox, InReplayOrder(outbox))
  {
    var ids := ReplayIds(outbox);
    ReplayIdsListAll(outbox);
    hide ReplayIds;
    forall i, j | 0 <= i < j < |ids|
      ensures outbox[ids[i]].createdAt < outbox[ids[j]].createdAt
           || (outbox[ids[i]].createdAt == outbox[ids[j]].createdAt && ids[i] < ids[j])
    {
      assert Before(CreatedAt(outbox), ids[i], ids[j]);
    }
  }

  lemma ObstaclesAreHindrances(row: Status, accepts: Message -> bool)
    ensures Obstacle(row, accepts) == if GoesOut(row, accepts) then None else Some(Hindrance(row))
  {
  }

  lemma ReplayedMeans(
    rows: seq<Status>, accepts: Message -> bool, outbox: map<MessageId, Status>, log: seq<Message>,
    laterOutbox: map<MessageId, Status>, laterLog: seq<Message>, r: Result<nat, RuntimeError>)
    requires Replayed(rows, Sent(rows, accepts), outbox, log, laterOutbox, laterLog)
    requires var k := Sent(rows, accepts); r == if k == |rows| then Ok(k) else Err(Obstacle(rows[k], accepts).value)
    ensures ReplayedUpTo(rows, Sent(rows, accepts), accepts, outbox, log, laterOutbox, laterLog, r)
  {
    var k := Sent(rows, accepts);
    forall i | 0 <= i <= k && i < |rows|
      ensures Obstacle(rows[i], accepts) == if GoesOut(rows[i], accepts) then None else Some(Hindrance(rows[i]))
    {
      ObstaclesAreHindrances(rows[i], accepts);
    }
    hide Sent, Obstacle, GoesOut, Hindrance;
    hide IdsOf;
    IdsOfPrefix(rows, k);
  }

  lemma IdsOfPrefix(rows: seq<Status>, k: nat)
    requires k <= |rows|
    ensures forall m :: m in IdsOf(rows[..k]) <==> exists i :: 0 <= i < k && rows[i].id == m
  {
    assert forall i :: 0 <= i < k ==> rows[..k][i] == rows[i];
  }

  class Agent {
    const repository: Repository
    const accepts: Message -> bool  // what the reporter does with each message
    var log: seq<Message>           // the messages it has accepted, in order

    constructor (repository: Repository, accepts: Message -> bool)
      ensures this.repository == repository && this.accepts == accepts && log == []
    {
      this.repository, this.accepts, log := repository, accepts, [];
    }

    /** Reports one message and, only once it is accepted, takes its row out. */
    method ReportAndAcknowledge(m: Message) returns (ok: bool)
      requires repository.Valid()
      modifies this`log, repository`outbox
      ensures repository.Valid() && ok == accepts(m)
      ensures log == if ok then old(log) + [m] else old(log)
      ensures repository.outbox == if ok then old(repository.outbox) - {m.id} else old(repository.outbox)
    {
      ok := accepts(m);
      if ok {
        log := log + [m];
        var _ := repository.AcknowledgeOutboundStatus(m.id);
      }
    }

    /** `report_outcomes`: reports in order and stops at the first refusal. */
    method ReportOutcomes(messages: seq<Message>) returns (reported: nat)
      requires repository.Valid()
      modifies this`log, repository`outbox
      ensures repository.Valid() && reported <= |messages|
      ensures forall i :: 0 <= i < reported ==> accepts(messages[i])
      ensures reported < |messages| ==> !accepts(messages[reported])
      ensures log == old(log) + messages[..reported]
      ensures repository.outbox == old(repository.outbox) - ReportedIds(messages, reported)
    {
      hide Repository.Valid;
      reported := 0;
      NoneReported(messages, repository.outbox);
      while reported < |messages|
        invariant repository.Valid() && reported <= |messages|
        invariant forall i :: 0 <= i < reported ==> accepts(messages[i])
        invariant log == old(log) + messages[..reported]
        invariant repository.outbox == old(repository.outbox) - ReportedIds(messages, reported)
      {
        OneMoreReported(messages, reported, old(repository.outbox));
        var ok := ReportAndAcknowledge(messages[reported]);
        if !ok {
          return;
        }
        reported := reported + 1;
      }
    }

    /** Reads the next rows of the replay order. */
    method ReadBatch(delivered: nat, ghost rows: seq<Status>, ghost outbox: map<MessageId, Status>, ghost before: seq<Message>)
      returns (statuses: seq<Status>)
      requires repository.Valid() && rows == InReplayOrder(outbox) && forall m :: m in outbox ==> outbox[m].id == m
      requires Replayed(rows, delivered, outbox, before, repository.outbox, log)
      ensures delivered <= |rows|
      ensures |statuses| == if BATCH < |rows| - delivered then BATCH else |rows| - delivered
      ensures forall i :: 0 <= i < |statuses| ==> statuses[i] == rows[delivered + i]
    {
      hide StoreFits, InReplayOrder, Replayed, OutboxIds;
      var batch := repository.PendingOutboundStatuses(BATCH);
      statuses := batch.value;
      BatchIsPrefix(repository.View(), statuses);
      RestOfReplay(rows, delivered, outbox, before, repository.outbox, log);
    }

    /** Sends one batch, which is the next rows of the replay order; stops at the first obstacle. */
    method ReplayBatch(statuses: seq<Status>, delivered: nat,
        ghost rows: seq<Status>, ghost outbox: map<MessageId, Status>, ghost before: seq<Message>)
      returns (r: Result<nat, RuntimeError>)
      requires repository.Valid() && Replayed(rows, delivered, outbox, before, repository.outbox, log)
      requires delivered <= Sent(rows, accepts) && delivered + |statuses| <= |rows|
      requires forall i :: 0 <= i < |statuses| ==> statuses[i] == rows[delivered + i]
      modifies this`log, repository`outbox
      ensures repository.Valid()
      ensures Replayed(rows, if r.Ok? then r.value else Sent(rows, accepts), outbox, before, repository.outbox, log)
      ensures r.Ok? ==> r.value == delivered + |statuses| <= Sent(rows, accepts)
      ensures r.Err? ==> Sent(rows, accepts) < |rows| && Obstacle(rows[Sent(rows, accepts)], accepts) == Some(r.error)
    {
      hide Obstacle, Replayed;
      for i := 0 to |statuses|
        invariant repository.Valid() && delivered + i <= Sent(rows, accepts)
        invariant Replayed(rows, delivered + i, outbox, before, repository.outbox, log)
      {
        var status := statuses[i];
        var valid := Validated(status.id, status.job, status.message);
        StopsThere(rows, accepts, delivered + i);
        OneMoreReplayed(rows, delivered + i, outbox, before, repository.outbox, log);
        if valid.Err? {
          return Err(InvalidOutboundStatus(status.id, valid.error));
        }
        var ok := ReportAndAcknowledge(status.message);
        if !ok {
          return Err(Reporting(status.message));
        }
      }
      return Ok(delivered + |statuses|);
    }

    /**
     Replays the outbox in batches. Every row up to the first obstacle is reported exactly once, in
     order, and taken out; the rest is untouched. Without an obstacle the outbox ends up empty and the
     answer is its former size.
     */
    method ReplayOutboundReports() returns (r: Result<nat, RuntimeError>)
      requires repository.Valid()
      modifies this`log, repository`outbox
      ensures repository.Valid()
      ensures var rows := InReplayOrder(old(repository.outbox));
        var k := Sent(rows, accepts);
        && Replayed(rows, k, old(repository.outbox), old(log), repository.outbox, log)
        && r == if k == |rows| then Ok(k) else Err(Obstacle(rows[k], accepts).value)
      ensures r.Ok? ==> repository.outbox == map[] && r.value == |old(repository.outbox)|
      ensures exists rows, k: nat ::
        && ListsOutbox(old(repository.outbox), rows)
        && ReplayedUpTo(rows, k, accepts, old(repository.outbox), old(log), repository.outbox, log, r)
    {
      hide Repository.Valid, Obstacle, InReplayOrder, Replayed, OutboxIds;
      ghost var rows := InReplayOrder(repository.outbox);
      RowsKeepTheirIds(repository);
      ReplayOrderListsOutbox(repository.outbox);
      r := ReplayInBatches(rows);
      hide ListsOutbox, ReplayedUpTo, Sent;
      ReplayedMeans(rows, accepts, old(repository.outbox), old(log), repository.outbox, log, r);
    }

    method ReplayInBatches(ghost rows: seq<Status>) returns (r: Result<nat, RuntimeError>)
      requires repository.Valid() && rows == InReplayOrder(repository.outbox)
      modifies this`log, repository`outbox
      ensures repository.Valid()
      ensures var k := Sent(rows, accepts);
        && Replayed(rows, k, old(repository.outbox), old(log), repository.outbox, log)
        && r == if k == |rows| then Ok(k) else Err(Obstacle(rows[k], accepts).value)
      ensures r.Ok? ==> repository.outbox == map[] && r.value == |old(repository.outbox)|
    {
      hide Repository.Valid, Obstacle, InReplayOrder, Replayed, OutboxIds;
      RowsKeepTheirIds(repository);
      NothingReplayed(rows, repository.outbox, log);
      var delivered: nat := 0;
      while true
        invariant repository.Valid() && delivered <= Sent(rows, accepts)
        invariant Replayed(rows, delivered, old(repository.outbox), old(log), repository.outbox, log)
        decreases |rows| - delivered
      {
        var statuses := ReadBatch(delivered, rows, old(repository.outbox), old(log));
        if statuses == [] {
          AllReplayed(rows, old(repository.outbox), old(log), repository.outbox, log);
          return Ok(delivered);
        }
        var sent := ReplayBatch(statuses, delivered, rows, old(repository.outbox), old(log));
        if sent.Err? {
          return sent;
        }
        delivered := sent.value;
        if |statuses| < BATCH {
          AllReplayed(rows, old(repository.outbox), old(log), repository.outbox, log);
          return Ok(delivered);
        }
      }
    }
  }

  /** What the next row's validation and the reporter say decides whether the replay stops there. */
  lemma StopsThere(rows: seq<Status>, accepts: Message -> bool, k: nat)
    requires k < |rows| && k <= Sent(rows, accepts)
    ensures var v := Validated(rows[k].id, rows[k].job, rows[k].message);
      && (v.Err? || !accepts(rows[k].message) ==>
            k == Sent(rows, accepts)
            && Obstacle(rows[k], accepts)
            == Some(if v.Err? then InvalidOutboundStatus(rows[k].id, v.error) else Reporting(rows[k].message)))
      && (v.Ok? && accepts(rows[k].message) ==> k < Sent(rows, accepts))
      && (v.Ok? ==> rows[k].message.id == rows[k].id)
  {
  }
}

/** Why a replay never finds an invalid row: every row of a reachable outbox is a committed terminal status. */
module RuntimeTheorems {
  import opened Results
  import opened Store
  import opened StoreProperties
  import opened Protocol
  import opened ProtocolSafety
  import opened ProtocolTheorems
  import opened Runtime

  lemma OutboxAlwaysValidates(cfg: Config, events: seq<Event>, m: MessageId)
    requires Positive(cfg.limits)
    ensures var st := Reached(cfg, events);
      m in st.db.outbox ==> Validated(m, st.db.outbox[m].job, st.db.outbox[m].message) == Ok(())
  {
    ReachedFits(cfg, events);
    hide Reached, StoreFits, VolatileFits, SerialsFit, CallsFit, CancelFits, FailuresFit, RowsReported, IdentitiesFit;
    var st := Reached(cfg, events);
    if m in st.db.outbox {
      assert StatusFits(st.db.outbox[m], m, st.past.serials, st.past.committed);
      NoReportIsLost(cfg, events, st.db.outbox[m].job);
      TerminalKind(cfg, st, st.db.outbox[m].job);
    }
  }

  lemma TerminalKind(cfg: Config, st: State, id: JobId)
    requires Inv(cfg, st) && id in st.past.serials && st.past.serials[id] in st.past.committed
    ensures !st.past.committed[st.past.serials[id]].kind.JobReceived?
  {
    hide StoreFits, VolatileFits, SerialsFit, CallsFit, CancelFits, FailuresFit, OutboxReported, IdentitiesFit;
    assert ReportFits(id, st.db.jobs[id], st.db.outbox, st.past.delivered, st.past.committed[st.past.serials[id]]);
  }
}
