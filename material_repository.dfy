/**
 * The materials repository (backend/src/infra/repositories/MaterialRepository.ts):
 * the same statements as `MaterialService`, with the two constraint violations
 * turned into domain messages. `findAll` and `findById` are the service's
 * `getAll` and `getById`.
 */
module MaterialRepository {
  import opened Wrappers
  import opened DomainTypes
  import opened Store
  import Service = MaterialService

  const InUseMessage := "Cannot delete material that is used by garments"

  /** The message for a duplicate name. */
  function DuplicateMessage(name: string): string {
    "Material with name '" + name + "' already exists"
  }

  /**
   * `create(name)`: a new name gets one new row and its id; a name already
   * present fails with "already exists" and writes nothing.
   */
  method Create(db: Database, name: string) returns (r: Result<int, Failure>)
    requires db.Valid()
    modifies db`materials, db`nextMaterialId
    ensures db.Valid()
    ensures name in old(db.materials).Values ==>
      r == Err(Message(DuplicateMessage(name))) && db.materials == old(db.materials)
    ensures name !in old(db.materials).Values ==>
      && r.Ok? && r.value !in old(db.materials)
      && db.materials == old(db.materials)[r.value := name]
  {
    var id := Service.Create(db, name);
    match id
    case Ok(newId) => r := Ok(newId);
    case Err(DuplicateEntry) => r := Err(Message(DuplicateMessage(name)));
    case Err(code) => r := Err(Database(code));
  }

  /**
   * `delete(id)`: a material in use fails with "Cannot delete material that is
   * used by garments" and nothing changes; otherwise true iff it existed.
   */
  method Delete(db: Database, id: int) returns (r: Result<bool, Failure>)
    requires db.Valid()
    modifies db`materials
    ensures db.Valid()
    ensures Service.InUse(db, id) ==> r == Err(Message(InUseMessage)) && db.materials == old(db.materials)
    ensures !Service.InUse(db, id) ==>
      r == Ok(id in old(db.materials)) && db.materials == old(db.materials) - {id}
  {
    var deleted := Service.Delete(db, id);
    match deleted
    case Ok(existed) => r := Ok(existed);
    case Err(RowIsReferenced) => r := Err(Message(InUseMessage));
    case Err(code) => r := Err(Database(code));
  }
}
