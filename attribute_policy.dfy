/**
 * The attribute use cases (backend/src/application/usecases/attributePolicy.ts):
 * domain validation in front of the repository, and the incompatibility
 * verdict built from the repository's answer.
 */
module AttributePolicy {
  import opened Wrappers
  import opened DomainTypes
  import opened Store
  import Rules = AttributeValidationRules
  import Entities
  import Repository = AttributeRepository
  import Service = AttributeService

  /**
   * `createAttribute(name)`: an invalid name raises the validation message and
   * writes nothing; a valid one is stored in sanitised form (or refused by the
   * unique index) and the stored row is returned.
   */
  method CreateAttribute(db: Database, name: string) returns (r: Result<NamedRow, Failure>)
    requires db.Valid()
    modifies db`attributes, db`nextAttributeId
    ensures db.Valid()
    ensures !Rules.IsValidName(name) ==>
      && r.Err? && r.error.Message?
      && Rules.GetValidationError(name).Some?
      && r.error.text == Rules.Message(Rules.GetValidationError(name).value)
      && db.attributes == old(db.attributes)
    ensures Rules.IsValidName(name) && Rules.SanitizeName(name) in old(db.attributes).Values ==>
      r == Err(Database(DuplicateEntry)) && db.attributes == old(db.attributes)
    ensures Rules.IsValidName(name) && Rules.SanitizeName(name) !in old(db.attributes).Values ==>
      && r.Ok?
      && r.value.name == Rules.SanitizeName(name)
      && r.value.id !in old(db.attributes)
      && db.attributes == old(db.attributes)[r.value.id := r.value.name]
  {
    var attributeName := Entities.Create(name);
    if attributeName.Err? {
      Rules.IsValidIffNoError(name);
      return Err(Message(attributeName.error));
    }
    var id := Repository.Create(db, attributeName.value.value);
    if id.Err? {
      return Err(Database(id.error));
    }
    var attribute := Repository.FindById(db, id.value);
    r := if attribute.Some? then Ok(attribute.value) else Err(Message("Failed to create attribute"));
  }

  /** `deleteAttribute(id)`: removes the row, or raises "Attribute not found" when there is none. */
  method DeleteAttribute(db: Database, id: int) returns (r: Outcome<Failure>)
    requires db.Valid()
    modifies db`attributes
    ensures db.Valid()
    ensures r == Fail(Message("Attribute not found")) <==> id !in old(db.attributes)
    ensures r.Pass? <==> id in old(db.attributes)
    ensures db.attributes == old(db.attributes) - {id}
  {
    var deleted := Repository.Delete(db, id);
    if !deleted {
      return Fail(Message("Attribute not found"));
    }
    r := Pass;
  }

  /** `addAttributeIncompatibility(a, b)`: the repository's canonical insert-ignore. */
  method AddAttributeIncompatibility(db: Database, a: int, b: int) returns (added: bool)
    requires db.Valid()
    modifies db`incompatibilities
    ensures db.Valid()
    ensures added <==> !Repository.Incompatible(old(db.incompatibilities), a, b)
    ensures db.incompatibilities == Repository.InsertPair(old(db.incompatibilities), a, b)
    ensures Repository.Incompatible(db.incompatibilities, b, a)
  {
    added := Repository.AddAttributeIncompatibility(db, a, b);
    Repository.InsertPairRecords(old(db.incompatibilities), a, b);
  }

  /**
   * `checkAttributeIncompatibilities(ids)`: the same verdict as the service's
   * check, built from the repository's `findIncompatibilities`.
   */
  function CheckAttributeIncompatibilities(pairs: set<(int, int)>, names: map<int, string>, ids: seq<int>): (r: Service.CheckResult)
    ensures r == Service.CheckIncompatibilities(pairs, names, ids)
    ensures r.Invalid? <==> |ids| >= 2 && Repository.FindIncompatibilities(pairs, names, ids) != {}
  {
    if |ids| < 2 then Service.Valid
    else
      var conflicts := Repository.FindIncompatibilities(pairs, names, ids);
      if |conflicts| > 0 then Service.Invalid(conflicts) else Service.Valid
  }
}
