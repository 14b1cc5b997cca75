/**
 * The supplier workflow tables (backend/src/application/usecases/supplierService.ts):
 * suppliers, the garment-supplier links, the links' offers and their sample sets.
 *
 * `CURRENT_TIMESTAMP` is the `now` parameter. A new sample set's `status` and
 * `received_at` are the columns' defaults, taken to be REQUESTED and NULL.
 */
module SupplierService {
  import opened Wrappers
  import opened DomainTypes
  import opened Store

  const DefaultCurrency := "USD"

  /** The body `addOffer` receives. */
  datatype NewOffer = NewOffer(garmentSupplierId: int, price: real, currency: Option<string>, leadTimeDays: int)

  /** `x || 'USD'`: an absent or empty currency is stored as USD. */
  function CurrencyOrDefault(x: Option<string>): (r: string)
    ensures x.None? || x == Some("") ==> r == DefaultCurrency
    ensures x.Some? && x.value != "" ==> r == x.value
  {
    if x.Some? && x.value != "" then x.value else DefaultCurrency
  }

  /** The `status = SupplierStatus.OFFERED` default parameter. */
  function StatusOrDefault(status: Option<SupplierStatus>): (r: SupplierStatus)
    ensures status.None? ==> r == Offered
    ensures status.Some? ==> r == status.value
  {
    if status.Some? then status.value else Offered
  }

  /** A sample status that stamps `received_at`: RECEIVED, PASSED or FAILED. */
  predicate StampsReceivedAt(status: SampleStatus) {
    status == Received || status == Passed || status == Failed
  }

  /** One entry of the sample set UPDATE's SET list. */
  datatype SampleAssignment =
    | SetStatus(status: SampleStatus)
    | StampReceivedAt
    | SetNotes(notes: string)

  function AssignSample(s: SampleSet, a: SampleAssignment, now: int): SampleSet {
    match a
    case SetStatus(st) => s.(status := st)
    case StampReceivedAt => s.(receivedAt := Some(now))
    case SetNotes(n) => s.(notes := Some(n))
  }

  /** `UPDATE sample_sets SET a1, a2, ...`, the assignments applied left to right at time `now`. */
  function AssignSampleAll(s: SampleSet, assignments: seq<SampleAssignment>, now: int): SampleSet
    decreases |assignments|
  {
    if assignments == [] then s else AssignSampleAll(AssignSample(s, assignments[0], now), assignments[1..], now)
  }

  /**
   * What a sample status update means: the status is always set, `received_at`
   * is stamped exactly for RECEIVED, PASSED and FAILED, notes change only when
   * supplied, and the link is untouched.
   */
  function SampleUpdated(s: SampleSet, status: SampleStatus, notes: Option<string>, now: int): SampleSet {
    SampleSet(
      s.garmentSupplierId,
      status,
      if StampsReceivedAt(status) then Some(now) else s.receivedAt,
      if notes.Some? then notes else s.notes)
  }

  // ---------------------------------------------------------------------------
  // Operations

  /** `create`: a new supplier row; an absent or empty e-mail is stored as NULL. */
  method Create(db: Database, name: string, contactEmail: Option<string>) returns (id: int)
    requires db.Valid()
    modifies db`suppliers, db`nextSupplierId
    ensures db.Valid()
    ensures id !in old(db.suppliers)
    ensures db.suppliers == old(db.suppliers)[id := Supplier(name, TextOrNull(contactEmail))]
  {
    id := db.nextSupplierId;
    db.suppliers := db.suppliers[id := Supplier(name, TextOrNull(contactEmail))];
    db.nextSupplierId := id + 1;
  }

  /** `delete`: true iff the supplier existed; only that row is removed. */
  method Delete(db: Database, id: int) returns (deleted: bool)
    requires db.Valid()
    modifies db`suppliers
    ensures db.Valid()
    ensures deleted <==> id in old(db.suppliers)
    ensures db.suppliers == old(db.suppliers) - {id}
  {
    deleted := id in db.suppliers;
    db.suppliers := db.suppliers - {id};
  }

  /** `addToGarment`: a new link, with status OFFERED unless one is given. */
  method AddToGarment(db: Database, garmentId: int, supplierId: int, status: Option<SupplierStatus>) returns (id: int)
    requires db.Valid()
    modifies db`garmentSuppliers, db`nextGarmentSupplierId
    ensures db.Valid()
    ensures id !in old(db.garmentSuppliers)
    ensures db.garmentSuppliers == old(db.garmentSuppliers)[id := GarmentSupplier(garmentId, supplierId, StatusOrDefault(status))]
  {
    id := db.nextGarmentSupplierId;
    db.garmentSuppliers := db.garmentSuppliers[id := GarmentSupplier(garmentId, supplierId, StatusOrDefault(status))];
    db.nextGarmentSupplierId := id + 1;
  }

  /** `updateSupplierStatus`: true iff the link exists; only that link's status changes. */
  method UpdateSupplierStatus(db: Database, garmentSupplierId: int, status: SupplierStatus) returns (updated: bool)
    requires db.Valid()
    modifies db`garmentSuppliers
    ensures db.Valid()
    ensures updated <==> garmentSupplierId in old(db.garmentSuppliers)
    ensures updated ==>
      db.garmentSuppliers == old(db.garmentSuppliers)[garmentSupplierId := old(db.garmentSuppliers)[garmentSupplierId].(status := status)]
    ensures !updated ==> db.garmentSuppliers == old(db.garmentSuppliers)
  {
    if garmentSupplierId in db.garmentSuppliers {
      db.garmentSuppliers := db.garmentSuppliers[garmentSupplierId := db.garmentSuppliers[garmentSupplierId].(status := status)];
      updated := true;
    } else {
      updated := false;
    }
  }

  /** `addOffer`: a new offer; an absent or empty currency is stored as USD. */
  method AddOffer(db: Database, data: NewOffer) returns (id: int)
    requires db.Valid()
    modifies db`offers, db`nextOfferId
    ensures db.Valid()
    ensures id !in old(db.offers)
    ensures db.offers == old(db.offers)[id := SupplierOffer(data.garmentSupplierId, data.price, CurrencyOrDefault(data.currency), data.leadTimeDays)]
  {
    id := db.nextOfferId;
    db.offers := db.offers[id := SupplierOffer(data.garmentSupplierId, data.price, CurrencyOrDefault(data.currency), data.leadTimeDays)];
    db.nextOfferId := id + 1;
  }

  /** `getOffers`: the offers of one link, newest first. */
  function GetOffers(db: Database, garmentSupplierId: int): (r: seq<Row<SupplierOffer>>)
    requires db.Valid()
    reads db
    ensures forall k :: 0 <= k < |r| ==>
      r[k].id in db.offers && db.offers[r[k].id] == r[k].data && r[k].data.garmentSupplierId == garmentSupplierId
    ensures forall id :: id in db.offers && db.offers[id].garmentSupplierId == garmentSupplierId ==>
      Row(id, db.offers[id]) in r
    ensures forall i, j :: 0 <= i < j < |r| ==> r[i].id > r[j].id
  {
    RowsDescending(db.offers, (o: SupplierOffer) => o.garmentSupplierId == garmentSupplierId, db.nextOfferId - 1)
  }

  /** `addSampleSet`: a new sample set in status REQUESTED, not received, with absent or empty notes stored as NULL. */
  method AddSampleSet(db: Database, garmentSupplierId: int, notes: Option<string>) returns (id: int)
    requires db.Valid()
    modifies db`samples, db`nextSampleId
    ensures db.Valid()
    ensures id !in old(db.samples)
    ensures db.samples == old(db.samples)[id := SampleSet(garmentSupplierId, Requested, None, TextOrNull(notes))]
  {
    id := db.nextSampleId;
    db.samples := db.samples[id := SampleSet(garmentSupplierId, Requested, None, TextOrNull(notes))];
    db.nextSampleId := id + 1;
  }

  /**
   * The SET list `updateSampleStatus` builds: the status first, then the
   * `received_at` stamp for RECEIVED, PASSED and FAILED, then the notes when
   * supplied. Running it on any sample set gives `SampleUpdated`.
   */
  method SampleSetList(status: SampleStatus, notes: Option<string>, ghost s: SampleSet, ghost now: int) returns (updates: seq<SampleAssignment>)
    ensures |updates| > 0 && updates[0] == SetStatus(status)
    ensures AssignSampleAll(s, updates, now) == SampleUpdated(s, status, notes, now)
  {
    updates := [SetStatus(status)];
    ghost var expected := s.(status := status);
    assert AssignSampleAll(s, updates, now) == expected;
    if status == Received || status == Passed || status == Failed {
      AssignSampleAllSnoc(s, updates, StampReceivedAt, now);
      updates := updates + [StampReceivedAt];
      expected := expected.(receivedAt := Some(now));
    }
    assert AssignSampleAll(s, updates, now) == expected;
    if notes.Some? {
      AssignSampleAllSnoc(s, updates, SetNotes(notes.value), now);
      updates := updates + [SetNotes(notes.value)];
      expected := expected.(notes := notes);
    }
    assert AssignSampleAll(s, updates, now) == expected;
  }

  /** `updateSampleStatus`: true iff the sample set exists; the update is `SampleUpdated` at time `now`. */
  method UpdateSampleStatus(db: Database, sampleId: int, status: SampleStatus, notes: Option<string>, now: int) returns (updated: bool)
    requires db.Valid()
    modifies db`samples
    ensures db.Valid()
    ensures updated <==> sampleId in old(db.samples)
    ensures updated ==> db.samples == old(db.samples)[sampleId := SampleUpdated(old(db.samples)[sampleId], status, notes, now)]
    ensures !updated ==> db.samples == old(db.samples)
  {
    ghost var s := if sampleId in db.samples then db.samples[sampleId] else SampleSet(0, Requested, None, None);
    var updates := SampleSetList(status, notes, s, now);
    if sampleId in db.samples {
      db.samples := db.samples[sampleId := AssignSampleAll(db.samples[sampleId], updates, now)];
      updated := true;
    } else {
      updated := false;
    }
  }

  /** `getSamples`: the sample sets of one link, highest id first. */
  function GetSamples(db: Database, garmentSupplierId: int): (r: seq<Row<SampleSet>>)
    requires db.Valid()
    reads db
    ensures forall k :: 0 <= k < |r| ==>
      r[k].id in db.samples && db.samples[r[k].id] == r[k].data && r[k].data.garmentSupplierId == garmentSupplierId
    ensures forall id :: id in db.samples && db.samples[id].garmentSupplierId == garmentSupplierId ==>
      Row(id, db.samples[id]) in r
    ensures forall i, j :: 0 <= i < j < |r| ==> r[i].id > r[j].id
  {
    RowsDescending(db.samples, (s: SampleSet) => s.garmentSupplierId == garmentSupplierId, db.nextSampleId - 1)
  }

  // ---------------------------------------------------------------------------
  // Lemmas

  /** Appending one assignment to the SET list applies it last. */
  lemma {:induction false} AssignSampleAllSnoc(s: SampleSet, assignments: seq<SampleAssignment>, a: SampleAssignment, now: int)
    ensures AssignSampleAll(s, assignments + [a], now) == AssignSample(AssignSampleAll(s, assignments, now), a, now)
    decreases |assignments|
  {
    if assignments == [] {
      assert [] + [a] == [a];
    } else {
      assert (assignments + [a])[1..] == assignments[1..] + [a];
      AssignSampleAllSnoc(AssignSample(s, assignments[0], now), assignments[1..], a, now);
    }
  }

  /**
   * `received_at` is stamped iff the new status is RECEIVED, PASSED or FAILED;
   * moving back to REQUESTED keeps the earlier stamp.
   */
  lemma ReceivedAtStampedExactly(s: SampleSet, status: SampleStatus, notes: Option<string>, now: int)
    ensures SampleUpdated(s, status, notes, now).status == status
    ensures StampsReceivedAt(status) ==> SampleUpdated(s, status, notes, now).receivedAt == Some(now)
    ensures status == Requested ==> SampleUpdated(s, status, notes, now).receivedAt == s.receivedAt
    ensures SampleUpdated(s, status, notes, now).garmentSupplierId == s.garmentSupplierId
  {
  }

  /** Notes change only when supplied; supplied as "" they are stored as "", unlike at creation. */
  lemma NotesChangeOnlyWhenSupplied(s: SampleSet, status: SampleStatus, now: int)
    ensures SampleUpdated(s, status, None, now).notes == s.notes
    ensures SampleUpdated(s, status, Some(""), now).notes == Some("")
    ensures TextOrNull(Some("")) == None
  {
  }

  /** Repeating a status update at the same time changes nothing more. */
  lemma SampleUpdateIdempotent(s: SampleSet, status: SampleStatus, notes: Option<string>, now: int)
    ensures SampleUpdated(SampleUpdated(s, status, notes, now), status, notes, now) == SampleUpdated(s, status, notes, now)
  {
  }

  /** A sample set just added is listed among its link's samples, before every older one. */
  lemma AddedSampleListedFirst(db: Database, id: int, garmentSupplierId: int)
    requires db.Valid()
    requires id in db.samples && db.samples[id].garmentSupplierId == garmentSupplierId
    requires id == db.nextSampleId - 1
    ensures |GetSamples(db, garmentSupplierId)| > 0 && GetSamples(db, garmentSupplierId)[0].id == id
  {
    var r := GetSamples(db, garmentSupplierId);
    assert Row(id, db.samples[id]) in r;
    var k :| 0 <= k < |r| && r[k] == Row(id, db.samples[id]);
    if k > 0 {
      assert r[0].id > r[k].id;
      assert r[0].id in db.samples;
    }
  }
}
