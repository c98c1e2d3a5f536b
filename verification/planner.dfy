/** Which protocol versions a hello offers, and when a server that rejected the extended one is asked again. */
module Planner {
  import opened Arithmetic
  import opened Results

  const U64_MAX: nat := 0xFFFF_FFFF_FFFF_FFFF
  const LEGACY_RETRY_INTERVAL_MS: nat := 24 * 60 * 60 * 1_000

  datatype Version = V1 | V2

  function Number(v: Version): nat { if v.V1? then 1 else 2 }

  /** A stored fact: until that time the server is taken to be base-only. */
  datatype LegacyServerRecord = LegacyServerRecord(until: nat)

  datatype CacheUpdate = Unchanged | Store(record: LegacyServerRecord) | Clear

  // ---------- Negotiation ----------

  /** The highest version in both lists. */
  function SelectProtocolVersion(server: seq<Version>, offered: seq<Version>): (r: Option<Version>)
    ensures r.Some? ==>
      r.value in server && r.value in offered && forall v :: v in server && v in offered ==> Number(v) <= Number(r.value)
    ensures r.None? <==> !(V1 in server && V1 in offered) && !(V2 in server && V2 in offered)
  {
    if V2 in server && V2 in offered then Some(V2)
    else if V1 in server && V1 in offered then Some(V1)
    else None
  }

  /** The capabilities of a printer; the last four belong to the extended protocol. */
  datatype Capabilities = Capabilities(
    base: nat, formats: Option<nat>, papers: Option<nat>, customPaper: Option<bool>, printOptions: Option<nat>)

  datatype Printer = Printer(id: nat, capabilities: Option<Capabilities>)

  predicate UsesExtended(p: Printer) {
    p.capabilities.Some? &&
    var c := p.capabilities.value;
    c.formats.Some? || c.papers.Some? || c.customPaper.Some? || c.printOptions.Some?
  }

  function WithoutExtended(p: Printer): (r: Printer)
    ensures !UsesExtended(r) && r.id == p.id && (r.capabilities.Some? <==> p.capabilities.Some?)
    ensures p.capabilities.Some? ==> r.capabilities == Some(Capabilities(p.capabilities.value.base, None, None, None, None))
    ensures !UsesExtended(p) ==> r == p
  {
    if p.capabilities.None? then p
    else p.(capabilities := Some(p.capabilities.value.(formats := None, papers := None, customPaper := None, printOptions := None)))
  }

  datatype Content =
    | Inventory(printers: seq<Printer>)
    | InventoryChanged(added: seq<Printer>, updated: seq<Printer>, removed: seq<nat>)
    | Handshake
    | Other

  predicate AnyExtended(printers: seq<Printer>) { exists i :: 0 <= i < |printers| && UsesExtended(printers[i]) }

  /** The lowest version whose contract covers the content. */
  function RequiredVersion(c: Content): Version {
    match c
    case Inventory(printers) => if AnyExtended(printers) then V2 else V1
    case InventoryChanged(added, updated, _) => if AnyExtended(added + updated) then V2 else V1
    case _ => V1
  }

  /** Some printer reports document formats, paper sizes, custom paper or print options. */
  ghost predicate Extended(printers: seq<Printer>) {
    exists i :: 0 <= i < |printers| && printers[i].capabilities.Some? &&
      var c := printers[i].capabilities.value;
      !(c.formats == None && c.papers == None && c.customPaper == None && c.printOptions == None)
  }

  /** Extended capabilities, and nothing else, need the extended protocol: also among the printers of a change. */
  lemma RequiredVersionIs(printers: seq<Printer>, more: seq<Printer>, removed: seq<nat>)
    ensures RequiredVersion(Inventory(printers)) == V2 <==> Extended(printers)
    ensures RequiredVersion(InventoryChanged(printers, more, removed)) == V2 <==> Extended(printers) || Extended(more)
    ensures RequiredVersion(Handshake) == V1 && RequiredVersion(Other) == V1
  {
    assert forall ps: seq<Printer> :: AnyExtended(ps) <==> Extended(ps);
    var both := printers + more;
    if Extended(printers) {
      var i :| 0 <= i < |printers| && UsesExtended(printers[i]);
      assert both[i] == printers[i];
    }
    if Extended(more) {
      var i :| 0 <= i < |more| && UsesExtended(more[i]);
      assert both[|printers| + i] == more[i];
    }
  }

  /** Handshakes travel in base envelopes, and a base envelope carries nothing extended. */
  lemma EnvelopesCarry(handshake: bool, required: Version)
    ensures EnvelopeValid(V1, handshake, required) <==> required == V1
    ensures EnvelopeValid(V2, handshake, required) <==> !handshake
  {
  }

  predicate EnvelopeValid(v: Version, handshake: bool, required: Version) {
    !(handshake && v != V1) && !(v == V1 && required == V2)
  }

  function ProjectInventory(printers: seq<Printer>, v: Version): (r: seq<Printer>)
    ensures |r| == |printers|
  {
    seq(|printers|, i requires 0 <= i < |printers| => if v.V1? then WithoutExtended(printers[i]) else printers[i])
  }

  /**
   A projected inventory, whole or as a change, is valid in an envelope of the negotiated version; it is the
   inventory itself exactly when nothing had to be taken out.
   */
  lemma ProjectionFitsTheSession(printers: seq<Printer>, more: seq<Printer>, removed: seq<nat>, v: Version)
    ensures EnvelopeValid(v, false, RequiredVersion(Inventory(ProjectInventory(printers, v))))
    ensures EnvelopeValid(v, false,
      RequiredVersion(InventoryChanged(ProjectInventory(printers, v), ProjectInventory(more, v), removed)))
    ensures ProjectInventory(printers, v) == printers <==> EnvelopeValid(v, false, RequiredVersion(Inventory(printers)))
  {
    if v.V1? && AnyExtended(printers) {
      var i :| 0 <= i < |printers| && UsesExtended(printers[i]);
      assert ProjectInventory(printers, v)[i] != printers[i];
    }
  }

  // ---------- The planner ----------

  class HandshakePlanner {
    var offered: seq<Version>
    const hadRecord: bool
    const mayFallBack: bool
    var fellBack: bool

    constructor (record: Option<LegacyServerRecord>, now: nat)
      ensures offered == (if record.Some? && record.value.until > now then [V1] else [V2, V1])
      ensures mayFallBack == OffersExtended(record, now) && hadRecord == record.Some? && !fellBack
    {
      if record.Some? && record.value.until > now {
        offered, hadRecord, mayFallBack, fellBack := [V1], true, false, false;
      } else {
        offered, hadRecord, mayFallBack, fellBack := [V2, V1], record.Some?, true, false;
      }
    }

    /** The one retry with the base offer after a rejected extended one. */
    method OnClosedBeforeHello() returns (retry: bool)
      modifies this
      ensures retry == (mayFallBack && !old(fellBack))
      ensures fellBack == (old(fellBack) || retry) && offered == if retry then [V1] else old(offered)
    {
      if !mayFallBack || fellBack {
        return false;
      }
      offered := [V1];
      fellBack := true;
      return true;
    }

    function OnAccepted(selected: Version, now: nat): CacheUpdate
      reads this
    {
      if selected.V1? && fellBack then Store(LegacyServerRecord(SatAdd(now, LEGACY_RETRY_INTERVAL_MS, U64_MAX)))
      else if selected.V2? && hadRecord then Clear
      else Unchanged
    }
  }

  predicate OffersExtended(record: Option<LegacyServerRecord>, now: nat) { !(record.Some? && record.value.until > now) }

  function Updated(record: Option<LegacyServerRecord>, update: CacheUpdate): Option<LegacyServerRecord> {
    match update case Unchanged => record case Store(r) => Some(r) case Clear => None
  }

  // ---------- Runs against a base-only server ----------

  /**
   One connection attempt: when it starts, and when the server answered the base offer, if the
   connection lasted that long.
   */
  datatype Attempt = Attempt(start: nat, answered: Option<nat>)

  /** An extended offer is closed on, the base one is answered; what the host then has stored. */
  method ConnectToBaseOnly(record: Option<LegacyServerRecord>, a: Attempt) returns (rejected: bool, stored: Option<LegacyServerRecord>)
    ensures rejected == OffersExtended(record, a.start)
    ensures rejected <==> record.None? || record.value.until <= a.start
    ensures stored == StoredAfter(record, a)
    ensures stored == if rejected && a.answered.Some?
      then Some(LegacyServerRecord(if a.answered.value + 86_400_000 <= 0xFFFF_FFFF_FFFF_FFFF then a.answered.value + 86_400_000 else 0xFFFF_FFFF_FFFF_FFFF))
      else record
  {
    var planner := new HandshakePlanner(record, a.start);
    rejected := V2 in planner.offered;
    if rejected {
      var retry := planner.OnClosedBeforeHello();
      assert retry && planner.offered == [V1];
    }
    stored := if a.answered.None? then record else Updated(record, planner.OnAccepted(V1, a.answered.value));
  }

  /** A server that takes the extended offer is no longer remembered as base-only; while it is remembered it is not asked. */
  method ConnectToExtended(record: Option<LegacyServerRecord>, a: Attempt) returns (extended: bool, stored: Option<LegacyServerRecord>)
    ensures extended <==> record.None? || record.value.until <= a.start
    ensures stored == if extended && a.answered.Some? then None else record
  {
    var planner := new HandshakePlanner(record, a.start);
    extended := V2 in planner.offered;
    var selected := SelectProtocolVersion([V1, V2], planner.offered);
    stored := if a.answered.None? then record else Updated(record, planner.OnAccepted(selected.value, a.answered.value));
  }

  /** A new record is stored only by an answered attempt that began with a rejected extended offer. */
  function StoredAfter(record: Option<LegacyServerRecord>, a: Attempt): Option<LegacyServerRecord> {
    if OffersExtended(record, a.start) && a.answered.Some?
    then Some(LegacyServerRecord(SatAdd(a.answered.value, LEGACY_RETRY_INTERVAL_MS, U64_MAX)))
    else record
  }

  function StoredAfterAll(record: Option<LegacyServerRecord>, attempts: seq<Attempt>): Option<LegacyServerRecord>
    decreases |attempts|
  {
    if attempts == [] then record else StoredAfterAll(StoredAfter(record, attempts[0]), attempts[1..])
  }

  /** Attempts follow each other in time, on a 64-bit clock. */
  ghost predicate InTime(attempts: seq<Attempt>) {
    && (forall i :: 0 <= i < |attempts| ==> attempts[i].start <= Ended(attempts[i]) <= U64_MAX)
    && (forall i, j :: 0 <= i < j < |attempts| ==> Ended(attempts[i]) <= attempts[j].start)
  }

  function Ended(a: Attempt): nat { if a.answered.Some? then a.answered.value else a.start }

  /** Whether attempt `k` makes the extended offer, which the server rejects. */
  predicate RejectedAt(record: Option<LegacyServerRecord>, attempts: seq<Attempt>, k: nat)
    requires k < |attempts|
  {
    OffersExtended(StoredAfterAll(record, attempts[..k]), attempts[k].start)
  }

  lemma {:induction false} RecordLasts(record: LegacyServerRecord, attempts: seq<Attempt>)
    requires forall i :: 0 <= i < |attempts| ==> attempts[i].start < record.until
    ensures StoredAfterAll(Some(record), attempts) == Some(record)
  {
    if attempts != [] {
      RecordLasts(record, attempts[1..]);
    }
  }

  lemma {:induction false} StoredInTwoParts(record: Option<LegacyServerRecord>, a: seq<Attempt>, b: seq<Attempt>)
    ensures StoredAfterAll(record, a + b) == StoredAfterAll(StoredAfterAll(record, a), b)
    decreases |a|
  {
    if a == [] {
      assert a + b == b;
    } else {
      assert (a + b)[1..] == a[1..] + b;
      StoredInTwoParts(StoredAfter(record, a[0]), a[1..], b);
    }
  }

  lemma NotOfferedAgain(record: Option<LegacyServerRecord>, attempts: seq<Attempt>, i: nat, j: nat)
    requires InTime(attempts) && i < j < |attempts| && attempts[i].answered.Some? && RejectedAt(record, attempts, i)
    requires attempts[j].start < SatAdd(attempts[i].answered.value, LEGACY_RETRY_INTERVAL_MS, U64_MAX)
    ensures !RejectedAt(record, attempts, j)
  {
    var stored := LegacyServerRecord(SatAdd(attempts[i].answered.value, LEGACY_RETRY_INTERVAL_MS, U64_MAX));
    var between := attempts[i + 1..j];
    assert forall k :: 0 <= k < |between| ==> between[k].start <= Ended(between[k]) && between[k] == attempts[i + 1 + k];
    RecordLasts(stored, between);
    assert attempts[..j] == attempts[..i] + ([attempts[i]] + between);
    StoredInTwoParts(record, attempts[..i], [attempts[i]] + between);
    assert ([attempts[i]] + between)[1..] == between;
  }

  /** The next attempt after that rejection makes the extended offer again exactly when the day is over. */
  lemma OfferedAgainIffDayOver(record: Option<LegacyServerRecord>, attempts: seq<Attempt>, i: nat)
    requires i + 1 < |attempts| && attempts[i].answered.Some? && RejectedAt(record, attempts, i)
    requires attempts[i].answered.value + 86_400_000 <= 0xFFFF_FFFF_FFFF_FFFF
    ensures RejectedAt(record, attempts, i + 1) <==> attempts[i + 1].start >= attempts[i].answered.value + 86_400_000
  {
    assert attempts[..i + 1] == attempts[..i] + [attempts[i]];
    StoredInTwoParts(record, attempts[..i], [attempts[i]]);
    assert [attempts[i]][1..] == [];
  }

  /**
   After a rejected extended offer whose base retry was answered, no attempt of any run makes the
   extended offer again within 24 hours, except at the very last millisecond of the clock.
   */
  lemma RejectionsAreADayApart(record: Option<LegacyServerRecord>, attempts: seq<Attempt>, i: nat, j: nat)
    requires InTime(attempts) && i < j < |attempts| && attempts[i].answered.Some?
    requires RejectedAt(record, attempts, i) && RejectedAt(record, attempts, j)
    ensures attempts[j].start >= attempts[i].answered.value + 86_400_000 || attempts[j].start == 0xFFFF_FFFF_FFFF_FFFF
  {
    hide RejectedAt;
    if attempts[j].start < SatAdd(attempts[i].answered.value, LEGACY_RETRY_INTERVAL_MS, U64_MAX) {
      NotOfferedAgain(record, attempts, i, j);
    }
    assert Ended(attempts[j]) <= U64_MAX && attempts[j].start <= Ended(attempts[j]);
  }
}
