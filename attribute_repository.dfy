/**
 * The attribute tables (backend/src/infra/repositories/AttributeRepository.ts).
 *
 * backend/src/services/attributeService.ts issues exactly the same statements for
 * `getAll`, `getById`, `create`, `delete` and `addIncompatibility`; the members
 * here model both files.
 */
module AttributeRepository {
  import opened Wrappers
  import opened DomainTypes
  import opened Store

  /** One row of the incompatibility query: the names of the two attributes of a stored pair. */
  datatype Conflict = Conflict(attr1: string, attr2: string)

  /** `[a, b].sort((x, y) => x - y)`: the same two ids, the smaller first. */
  function Canonical(a: int, b: int): (p: (int, int))
    ensures p.0 <= p.1
    ensures (p.0 == a && p.1 == b) || (p.0 == b && p.1 == a)
  {
    if a <= b then (a, b) else (b, a)
  }

  /** The pair table after `INSERT IGNORE` of the canonical pair. */
  function InsertPair(pairs: set<(int, int)>, a: int, b: int): set<(int, int)> {
    pairs + {Canonical(a, b)}
  }

  /** Two attributes are recorded as incompatible, in whichever order they are named. */
  predicate Incompatible(pairs: set<(int, int)>, a: int, b: int) {
    Canonical(a, b) in pairs
  }

  /** A stored pair survives the two JOINs and the two `IN` filters. */
  predicate Selected(p: (int, int), names: map<int, string>, ids: seq<int>) {
    p.0 in ids && p.1 in ids && p.0 in names && p.1 in names
  }

  /** The stored pairs the incompatibility query selects. */
  function SelectedPairs(pairs: set<(int, int)>, names: map<int, string>, ids: seq<int>): (r: set<(int, int)>)
    ensures forall p :: p in r <==> p in pairs && Selected(p, names, ids)
  {
    set p | p in pairs && Selected(p, names, ids)
  }

  /** The conflict named by a selected pair. */
  function ConflictOf(p: (int, int), names: map<int, string>): Conflict
    requires p.0 in names && p.1 in names
  {
    Conflict(names[p.0], names[p.1])
  }

  /**
   * `findIncompatibilities(ids)`: the names of every stored pair whose two
   * endpoints are among `ids` and still exist as attributes.
   */
  function FindIncompatibilities(pairs: set<(int, int)>, names: map<int, string>, ids: seq<int>): (r: set<Conflict>)
    ensures forall p :: p in pairs && Selected(p, names, ids) ==> ConflictOf(p, names) in r
    ensures forall c :: c in r ==> exists p :: p in pairs && Selected(p, names, ids) && c == ConflictOf(p, names)
  {
    set p | p in pairs && Selected(p, names, ids) :: ConflictOf(p, names)
  }

  // ---------------------------------------------------------------------------
  // Table operations

  /** `findAll`: every attribute once, sorted by name. */
  method FindAll(db: Database) returns (rows: seq<NamedRow>)
    ensures forall r :: r in rows <==> r.id in db.attributes && db.attributes[r.id] == r.name
    ensures forall i, j :: 0 <= i < j < |rows| ==> rows[i].id != rows[j].id
    ensures forall i, j :: 0 <= i < j < |rows| ==> NameLe(rows[i].name, rows[j].name)
  {
    rows := ListByName(db.attributes);
  }

  /** `findById`: the row with that id, or null when there is none. */
  function FindById(db: Database, id: int): (r: Option<NamedRow>)
    reads db
    ensures r.None? <==> id !in db.attributes
    ensures r.Some? ==> r.value.id == id && r.value.name == db.attributes[id]
  {
    if id in db.attributes then Some(NamedRow(id, db.attributes[id])) else None
  }

  /**
   * `create(name)`: inserts one row under a fresh id and returns that id; a name
   * already in the table violates the unique index and nothing is written.
   */
  method Create(db: Database, name: string) returns (r: Result<int, DbError>)
    requires db.Valid()
    modifies db`attributes, db`nextAttributeId
    ensures db.Valid()
    ensures name in old(db.attributes).Values ==>
      r == Err(DuplicateEntry) && db.attributes == old(db.attributes)
    ensures name !in old(db.attributes).Values ==>
      && r.Ok? && r.value !in old(db.attributes)
      && db.attributes == old(db.attributes)[r.value := name]
    ensures r.Ok? ==> FindById(db, r.value) == Some(NamedRow(r.value, name))
  {
    if name in db.attributes.Values {
      return Err(DuplicateEntry);
    }
    var id := db.nextAttributeId;
    db.attributes := db.attributes[id := name];
    db.nextAttributeId := id + 1;
    r := Ok(id);
  }

  /** `delete(id)`: true iff the row existed; no other row is touched. */
  method Delete(db: Database, id: int) returns (deleted: bool)
    requires db.Valid()
    modifies db`attributes
    ensures db.Valid()
    ensures deleted <==> id in old(db.attributes)
    ensures db.attributes == old(db.attributes) - {id}
    ensures FindById(db, id) == None
  {
    deleted := id in db.attributes;
    db.attributes := db.attributes - {id};
  }

  /**
   * `addAttributeIncompatibility(a, b)`: `INSERT IGNORE` of the pair stored
   * smaller id first; true iff the pair was not stored before.
   */
  method AddAttributeIncompatibility(db: Database, a: int, b: int) returns (added: bool)
    requires db.Valid()
    modifies db`incompatibilities
    ensures db.Valid()
    ensures added <==> !Incompatible(old(db.incompatibilities), a, b)
    ensures db.incompatibilities == InsertPair(old(db.incompatibilities), a, b)
  {
    var pair := Canonical(a, b);
    added := pair !in db.incompatibilities;
    db.incompatibilities := db.incompatibilities + {pair};
  }

  // ---------------------------------------------------------------------------
  // Lemmas

  /** The order in which the two ids are given does not matter. */
  lemma InsertPairSymmetric(pairs: set<(int, int)>, a: int, b: int)
    ensures InsertPair(pairs, a, b) == InsertPair(pairs, b, a)
    ensures Incompatible(pairs, a, b) <==> Incompatible(pairs, b, a)
  {
  }

  /** After the insertion the two attributes are incompatible, in either order. */
  lemma InsertPairRecords(pairs: set<(int, int)>, a: int, b: int)
    ensures Incompatible(InsertPair(pairs, a, b), a, b)
    ensures Incompatible(InsertPair(pairs, a, b), b, a)
    ensures pairs <= InsertPair(pairs, a, b)
  {
  }

  /** Adding a stored pair again, in either order, changes nothing. */
  lemma InsertPairIdempotent(pairs: set<(int, int)>, a: int, b: int)
    ensures InsertPair(InsertPair(pairs, a, b), a, b) == InsertPair(pairs, a, b)
    ensures InsertPair(InsertPair(pairs, a, b), b, a) == InsertPair(pairs, a, b)
    ensures Incompatible(pairs, a, b) ==> InsertPair(pairs, a, b) == pairs
  {
  }

  /** Every stored pair keeps its smaller id first. */
  lemma InsertPairKeepsCanonical(pairs: set<(int, int)>, a: int, b: int)
    requires forall p :: p in pairs ==> p.0 <= p.1
    ensures forall p :: p in InsertPair(pairs, a, b) ==> p.0 <= p.1
  {
  }

  /** The query's result depends on which ids are listed, not on their order or repetition. */
  lemma {:induction false} FindIncompatibilitiesSameIds(pairs: set<(int, int)>, names: map<int, string>, ids1: seq<int>, ids2: seq<int>)
    requires forall i :: i in ids1 <==> i in ids2
    ensures FindIncompatibilities(pairs, names, ids1) == FindIncompatibilities(pairs, names, ids2)
  {
    forall p | p in pairs
      ensures Selected(p, names, ids1) <==> Selected(p, names, ids2)
    {
      var a, b := p.0, p.1;
      assert a in ids1 <==> a in ids2;
      assert b in ids1 <==> b in ids2;
    }
  }

  /** The query reports something exactly when some stored pair is selected. */
  lemma FindIncompatibilitiesEmptyIff(pairs: set<(int, int)>, names: map<int, string>, ids: seq<int>)
    ensures FindIncompatibilities(pairs, names, ids) == {} <==> SelectedPairs(pairs, names, ids) == {}
  {
    if SelectedPairs(pairs, names, ids) != {} {
      var p :| p in SelectedPairs(pairs, names, ids);
      assert ConflictOf(p, names) in FindIncompatibilities(pairs, names, ids);
    }
  }

  /** Names being unique, there is exactly one conflict per selected pair. */
  lemma FindIncompatibilitiesOnePerPair(pairs: set<(int, int)>, names: map<int, string>, ids: seq<int>)
    requires UniqueNames(names)
    ensures |FindIncompatibilities(pairs, names, ids)| == |SelectedPairs(pairs, names, ids)|
  {
    var s := SelectedPairs(pairs, names, ids);
    ImageCardinality(s, names);
    assert FindIncompatibilities(pairs, names, ids) == set p | p in s :: ConflictOf(p, names);
  }

  /** The conflicts of distinct pairs are distinct when names are unique. */
  lemma {:induction false} ImageCardinality(s: set<(int, int)>, names: map<int, string>)
    requires forall p :: p in s ==> p.0 in names && p.1 in names
    requires UniqueNames(names)
    ensures |set p | p in s :: ConflictOf(p, names)| == |s|
    decreases |s|
  {
    if s != {} {
      var x :| x in s;
      var rest := s - {x};
      ImageCardinality(rest, names);
      var image := set p | p in s :: ConflictOf(p, names);
      var restImage := set p | p in rest :: ConflictOf(p, names);
      assert image == restImage + {ConflictOf(x, names)};
      forall y | y in rest
        ensures ConflictOf(y, names) != ConflictOf(x, names)
      {
        assert y.0 != x.0 || y.1 != x.1;
        assert names[y.0] != names[x.0] || names[y.1] != names[x.1];
      }
    }
  }

  /** A pair recorded between two listed attributes is always reported, whichever id it names first. */
  lemma RecordedPairReported(pairs: set<(int, int)>, names: map<int, string>, ids: seq<int>, a: int, b: int)
    requires Incompatible(pairs, a, b)
    requires a in ids && b in ids && a in names && b in names
    ensures ConflictOf(Canonical(a, b), names) in FindIncompatibilities(pairs, names, ids)
  {
    assert Selected(Canonical(a, b), names, ids);
  }
}
