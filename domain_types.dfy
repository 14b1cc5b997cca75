/**
 * Enumerations and row shapes of the PLM backend (backend/src/domain/types/index.ts).
 *
 * Timestamps (`created_at`, `updated_at`) are not part of the rows; the one
 * timestamp the core writes explicitly, a sample set's `received_at`, is an
 * abstract clock reading (`int`).
 */
module DomainTypes {
  import opened Wrappers

  datatype LifecycleState = Concept | Design | Sample | Approved | MassProduction

  datatype SupplierStatus = Offered | Sampling | Approved | Rejected | InStore

  datatype SampleStatus = Requested | Received | Passed | Failed

  /** A `garments` row without its id. */
  datatype Garment = Garment(
    name: string,
    category: string,
    lifecycleState: LifecycleState,
    baseDesignId: Option<int>,
    changeNote: Option<string>)

  /** A row together with its primary key, as `SELECT *` returns it. */
  datatype Row<T> = Row(id: int, data: T)

  /** A `materials` or `attributes` row: `{ id, name }`. */
  datatype NamedRow = NamedRow(id: int, name: string)

  /** A row of `getMaterials`: the material joined with its percentage in the garment. */
  datatype MaterialLine = MaterialLine(id: int, name: string, percentage: real)

  datatype Supplier = Supplier(name: string, contactEmail: Option<string>)

  /** A `garment_suppliers` row (the garment-supplier link) without its id. */
  datatype GarmentSupplier = GarmentSupplier(garmentId: int, supplierId: int, status: SupplierStatus)

  datatype SupplierOffer = SupplierOffer(garmentSupplierId: int, price: real, currency: string, leadTimeDays: int)

  datatype SampleSet = SampleSet(
    garmentSupplierId: int,
    status: SampleStatus,
    receivedAt: Option<int>,
    notes: Option<string>)

  /** The MySQL error codes the core reacts to: ER_DUP_ENTRY, ER_ROW_IS_REFERENCED_2, ER_NO_REFERENCED_ROW_2. */
  datatype DbError = DuplicateEntry | RowIsReferenced | NoReferencedRow

  /** What a failed operation raises: a domain message, or a database error passed through. */
  datatype Failure = Message(text: string) | Database(code: DbError)

  // ---------------------------------------------------------------------------
  // The `x || null` defaults of optional request fields

  /** `x || null` on an optional id: absent and 0 (falsy) are both stored as NULL. */
  function IdOrNull(x: Option<int>): (r: Option<int>)
    ensures r.None? <==> x.None? || x == Some(0)
    ensures r.Some? ==> r == x
  {
    if x.Some? && x.value != 0 then x else None
  }

  /** `x || null` on optional text: absent and "" (falsy) are both stored as NULL. */
  function TextOrNull(x: Option<string>): (r: Option<string>)
    ensures r.None? <==> x.None? || x == Some("")
    ensures r.Some? ==> r == x
  {
    if x.Some? && x.value != "" then x else None
  }
}
