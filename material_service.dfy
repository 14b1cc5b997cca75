/**
 * The materials table (backend/src/services/materialService.ts): plain
 * statements whose database errors reach the caller unchanged.
 */
module MaterialService {
  import opened Wrappers
  import opened DomainTypes
  import opened Store

  /** Some `garment_materials` row refers to the material (the foreign key on `material_id`). */
  predicate InUse(db: Database, id: int)
    reads db
  {
    exists k :: k in db.garmentMaterials && k.1 == id
  }

  /** `getAll`: every material once, sorted by name. */
  method GetAll(db: Database) returns (rows: seq<NamedRow>)
    ensures forall r :: r in rows <==> r.id in db.materials && db.materials[r.id] == r.name
    ensures forall i, j :: 0 <= i < j < |rows| ==> rows[i].id != rows[j].id
    ensures forall i, j :: 0 <= i < j < |rows| ==> NameLe(rows[i].name, rows[j].name)
  {
    rows := ListByName(db.materials);
  }

  /** `getById`: the row with that id, or null when there is none. */
  function GetById(db: Database, id: int): (r: Option<NamedRow>)
    reads db
    ensures r.None? <==> id !in db.materials
    ensures r.Some? ==> r.value.id == id && r.value.name == db.materials[id]
  {
    if id in db.materials then Some(NamedRow(id, db.materials[id])) else None
  }

  /**
   * `create(name)`: inserts one row under a fresh id and returns it; a name
   * already present violates the unique index and nothing is written.
   */
  method Create(db: Database, name: string) returns (r: Result<int, DbError>)
    requires db.Valid()
    modifies db`materials, db`nextMaterialId
    ensures db.Valid()
    ensures name in old(db.materials).Values ==>
      r == Err(DuplicateEntry) && db.materials == old(db.materials)
    ensures name !in old(db.materials).Values ==>
      && r.Ok? && r.value !in old(db.materials)
      && db.materials == old(db.materials)[r.value := name]
    ensures r.Ok? ==> GetById(db, r.value) == Some(NamedRow(r.value, name))
  {
    if name in db.materials.Values {
      return Err(DuplicateEntry);
    }
    var id := db.nextMaterialId;
    db.materials := db.materials[id := name];
    db.nextMaterialId := id + 1;
    r := Ok(id);
  }

  /**
   * `delete(id)`: a material some garment uses is protected by the foreign key
   * and nothing changes; otherwise the result is whether the row existed, and
   * only that row is removed.
   */
  method Delete(db: Database, id: int) returns (r: Result<bool, DbError>)
    requires db.Valid()
    modifies db`materials
    ensures db.Valid()
    ensures InUse(db, id) ==> r == Err(RowIsReferenced) && db.materials == old(db.materials)
    ensures !InUse(db, id) ==>
      && r == Ok(id in old(db.materials))
      && db.materials == old(db.materials) - {id}
      && GetById(db, id) == None
  {
    if exists k :: k in db.garmentMaterials && k.1 == id {
      return Err(RowIsReferenced);
    }
    r := Ok(id in db.materials);
    db.materials := db.materials - {id};
  }
}
