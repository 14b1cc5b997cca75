/**
 * The relational store the core talks to, held in memory.
 *
 * Each auto-increment table is a `map` from id to row with a next-id counter;
 * the composite-key join tables are a `set` of pairs (`garment_attributes`,
 * `attribute_incompatibilities`) or a `map` from pair to percentage
 * (`garment_materials`). The SQL idioms the code relies on become data-structure
 * operations: `INSERT IGNORE` is set insertion, `ON DUPLICATE KEY UPDATE` is a
 * map update, `affectedRows > 0` is "a row with that key existed".
 *
 * Also here: the two row orders queries ask for, `ORDER BY name` and
 * descending id.
 */
module Store {
  import opened Wrappers
  import opened DomainTypes

  /** Every key of an auto-increment table lies in [1, next). */
  ghost predicate KeysBelow<T>(m: map<int, T>, next: int) {
    1 <= next && forall k :: k in m ==> 1 <= k < next
  }

  /** The unique index on `name`. */
  ghost predicate UniqueNames(m: map<int, string>) {
    forall i, j :: i in m && j in m && m[i] == m[j] ==> i == j
  }

  class Database {
    var garments: map<int, Garment>
    var nextGarmentId: int
    var materials: map<int, string>
    var nextMaterialId: int
    var attributes: map<int, string>
    var nextAttributeId: int
    /** `attribute_incompatibilities`: (attribute_id_a, attribute_id_b). */
    var incompatibilities: set<(int, int)>
    /** `garment_materials`: (garment_id, material_id) to percentage. */
    var garmentMaterials: map<(int, int), real>
    /** `garment_attributes`: (garment_id, attribute_id). */
    var garmentAttributes: set<(int, int)>
    var suppliers: map<int, Supplier>
    var nextSupplierId: int
    var garmentSuppliers: map<int, GarmentSupplier>
    var nextGarmentSupplierId: int
    var offers: map<int, SupplierOffer>
    var nextOfferId: int
    var samples: map<int, SampleSet>
    var nextSampleId: int

    /**
     * Garment ids are auto-increment, and every `garment_attributes` and
     * `garment_materials` row names an existing garment (foreign keys on
     * `garment_id`, deleted with the garment).
     */
    ghost predicate ValidGarments()
      reads this
    {
      && KeysBelow(garments, nextGarmentId)
      && (forall k :: k in garmentAttributes ==> k.0 in garments)
      && (forall k :: k in garmentMaterials ==> k.0 in garments)
    }

    /** Material ids are auto-increment, names unique, and every `garment_materials` row refers to a material (foreign key). */
    ghost predicate ValidMaterials()
      reads this
    {
      && KeysBelow(materials, nextMaterialId)
      && UniqueNames(materials)
      && (forall k :: k in garmentMaterials ==> k.1 in materials)
      && (forall k :: k in garmentMaterials ==> 0.0 < garmentMaterials[k] <= 100.0)
    }

    /** Attribute ids are auto-increment, names unique, and incompatibility pairs are stored smaller id first. */
    ghost predicate ValidAttributes()
      reads this
    {
      && KeysBelow(attributes, nextAttributeId)
      && UniqueNames(attributes)
      && (forall p :: p in incompatibilities ==> p.0 <= p.1)
    }

    ghost predicate ValidSuppliers()
      reads this
    {
      && KeysBelow(suppliers, nextSupplierId)
      && KeysBelow(garmentSuppliers, nextGarmentSupplierId)
      && KeysBelow(offers, nextOfferId)
      && KeysBelow(samples, nextSampleId)
    }

    ghost predicate Valid()
      reads this
    {
      ValidGarments() && ValidMaterials() && ValidAttributes() && ValidSuppliers()
    }

    /** An empty database. */
    constructor ()
      ensures Valid()
      ensures garments == map[] && materials == map[] && attributes == map[]
      ensures incompatibilities == {} && garmentMaterials == map[] && garmentAttributes == {}
      ensures suppliers == map[] && garmentSuppliers == map[] && offers == map[] && samples == map[]
    {
      garments, nextGarmentId := map[], 1;
      materials, nextMaterialId := map[], 1;
      attributes, nextAttributeId := map[], 1;
      incompatibilities, garmentMaterials, garmentAttributes := {}, map[], {};
      suppliers, nextSupplierId := map[], 1;
      garmentSuppliers, nextGarmentSupplierId := map[], 1;
      offers, nextOfferId := map[], 1;
      samples, nextSampleId := map[], 1;
    }
  }

  // ---------------------------------------------------------------------------
  // ORDER BY name

  /** The order `ORDER BY name` uses: lexicographic on character codes. */
  predicate NameLe(a: string, b: string) {
    a == [] || (b != [] && (a[0] < b[0] || (a[0] == b[0] && NameLe(a[1..], b[1..]))))
  }

  lemma {:induction false} NameLeTotal(a: string, b: string)
    ensures NameLe(a, b) || NameLe(b, a)
  {
    if a != [] && b != [] && a[0] == b[0] {
      NameLeTotal(a[1..], b[1..]);
    }
  }

  lemma {:induction false} NameLeTransitive(a: string, b: string, c: string)
    requires NameLe(a, b) && NameLe(b, c)
    ensures NameLe(a, c)
  {
    if a != [] && b != [] && c != [] && a[0] == b[0] && b[0] == c[0] {
      NameLeTransitive(a[1..], b[1..], c[1..]);
    }
  }

  /** Every finite non-empty set of rows has a row whose name sorts first. */
  lemma {:induction false} LeastNameExists(rows: set<NamedRow>)
    requires rows != {}
    ensures exists m :: m in rows && forall x :: x in rows ==> NameLe(m.name, x.name)
    decreases |rows|
  {
    var x :| x in rows;
    var rest := rows - {x};
    NameLeTotal(x.name, x.name);
    if rest == {} {
      forall y | y in rows
        ensures y == x
      {
        assert y !in rest;
      }
    } else {
      LeastNameExists(rest);
      var m :| m in rest && forall y :: y in rest ==> NameLe(m.name, y.name);
      NameLeTotal(x.name, m.name);
      if NameLe(x.name, m.name) {
        forall y | y in rows
          ensures NameLe(x.name, y.name)
        {
          if y != x {
            NameLeTransitive(x.name, m.name, y.name);
          }
        }
      } else {
        assert forall y :: y in rows ==> y == x || y in rest;
      }
    }
  }

  /** The rows of a `{ id, name }` table. */
  function RowsOf(table: map<int, string>): set<NamedRow> {
    set id | id in table :: NamedRow(id, table[id])
  }

  /**
   * `SELECT * FROM <table> ORDER BY name`: every row exactly once, names in
   * ascending order. Rows with equal names come in no promised order.
   */
  method ListByName(table: map<int, string>) returns (rows: seq<NamedRow>)
    ensures forall r :: r in rows <==> r.id in table && table[r.id] == r.name
    ensures forall i, j :: 0 <= i < j < |rows| ==> rows[i].id != rows[j].id
    ensures forall i, j :: 0 <= i < j < |rows| ==> NameLe(rows[i].name, rows[j].name)
  {
    var remaining := RowsOf(table);
    rows := [];
    while remaining != {}
      invariant forall r :: r in rows || r in remaining <==> r.id in table && table[r.id] == r.name
      invariant forall i, j :: 0 <= i < j < |rows| ==> rows[i].id != rows[j].id
      invariant forall i, j :: 0 <= i < j < |rows| ==> NameLe(rows[i].name, rows[j].name)
      invariant forall i, x :: 0 <= i < |rows| && x in remaining ==> rows[i].id != x.id && NameLe(rows[i].name, x.name)
      decreases |remaining|
    {
      LeastNameExists(remaining);
      var m :| m in remaining && forall x :: x in remaining ==> NameLe(m.name, x.name);
      AppendLeast(rows, remaining, m);
      rows := rows + [m];
      remaining := remaining - {m};
    }
  }

  /** Moving the least remaining row to the end of the output keeps the output sorted and ahead of the rest. */
  lemma AppendLeast(rows: seq<NamedRow>, remaining: set<NamedRow>, m: NamedRow)
    requires m in remaining
    requires forall x :: x in remaining ==> NameLe(m.name, x.name)
    requires forall i, j :: 0 <= i < j < |rows| ==> rows[i].id != rows[j].id
    requires forall i, j :: 0 <= i < j < |rows| ==> NameLe(rows[i].name, rows[j].name)
    requires forall i, x :: 0 <= i < |rows| && x in remaining ==> rows[i].id != x.id && NameLe(rows[i].name, x.name)
    requires forall x, y :: x in remaining && y in remaining && x.id == y.id ==> x == y
    ensures var out := rows + [m];
      && (forall i, j :: 0 <= i < j < |out| ==> out[i].id != out[j].id)
      && (forall i, j :: 0 <= i < j < |out| ==> NameLe(out[i].name, out[j].name))
      && (forall i, x :: 0 <= i < |out| && x in remaining - {m} ==> out[i].id != x.id && NameLe(out[i].name, x.name))
  {
    var out := rows + [m];
    forall i, j | 0 <= i < j < |out|
      ensures out[i].id != out[j].id && NameLe(out[i].name, out[j].name)
    {
      if j == |rows| {
        assert out[j] == m;
      }
    }
    forall i, x | 0 <= i < |out| && x in remaining - {m}
      ensures out[i].id != x.id && NameLe(out[i].name, x.name)
    {
      if i == |rows| {
        assert out[i] == m;
      }
    }
  }

  // ---------------------------------------------------------------------------
  // ORDER BY id DESC

  /** The rows of `table` with id at most `hi` whose data satisfies `keep`, highest id first. */
  function RowsDescending<T>(table: map<int, T>, keep: T -> bool, hi: int): (r: seq<Row<T>>)
    ensures forall k :: 0 <= k < |r| ==>
      1 <= r[k].id <= hi && r[k].id in table && table[r[k].id] == r[k].data && keep(r[k].data)
    ensures forall id :: 1 <= id <= hi && id in table && keep(table[id]) ==> Row(id, table[id]) in r
    ensures forall i, j :: 0 <= i < j < |r| ==> r[i].id > r[j].id
    decreases hi
  {
    if hi < 1 then []
    else if hi in table && keep(table[hi]) then [Row(hi, table[hi])] + RowsDescending(table, keep, hi - 1)
    else RowsDescending(table, keep, hi - 1)
  }
}
