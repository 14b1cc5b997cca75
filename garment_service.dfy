/**
 * The garment use cases (backend/src/application/usecases/garmentService.ts):
 * the garments table and its two join tables, `garment_materials` and
 * `garment_attributes`.
 */
module GarmentService {
  import opened Wrappers
  import opened DomainTypes
  import opened Store

  /** A `garments` row together with its id. */
  type GarmentRecord = Row<Garment>

  /** The body `create` receives; a field the caller leaves out is `None`. */
  datatype NewGarment = NewGarment(
    name: string,
    category: string,
    lifecycleState: Option<LifecycleState>,
    baseDesignId: Option<int>,
    changeNote: Option<string>)

  /** The fields `update` may change; a field the caller leaves out is `None`. */
  datatype GarmentChanges = GarmentChanges(
    name: Option<string>,
    category: Option<string>,
    lifecycleState: Option<LifecycleState>,
    changeNote: Option<string>)

  /** The outcome `delete` returns: `{ success, message? }`. */
  datatype DeleteResult = DeleteResult(success: bool, message: Option<string>)

  const GarmentNotFound := "Garment not found"
  const MassProductionLocked := "Cannot delete garments in mass production"
  const PercentageOutOfRange := "Percentage must be between 0 and 100"

  // ---------------------------------------------------------------------------
  // Specification functions

  /** The row `create` inserts for `data`. */
  function InitialRow(data: NewGarment): (g: Garment)
    ensures g.name == data.name && g.category == data.category
    ensures data.lifecycleState.None? ==> g.lifecycleState == Concept
    ensures data.lifecycleState.Some? ==> g.lifecycleState == data.lifecycleState.value
    ensures g.baseDesignId.None? <==> data.baseDesignId.None? || data.baseDesignId == Some(0)
    ensures g.changeNote.None? <==> data.changeNote.None? || data.changeNote == Some("")
    ensures g.baseDesignId.Some? ==> g.baseDesignId == data.baseDesignId
    ensures g.changeNote.Some? ==> g.changeNote == data.changeNote
  {
    Garment(
      data.name,
      data.category,
      if data.lifecycleState.Some? then data.lifecycleState.value else Concept,
      IdOrNull(data.baseDesignId),
      TextOrNull(data.changeNote))
  }

  /** No field is supplied. */
  predicate NoChanges(c: GarmentChanges) {
    c.name.None? && c.category.None? && c.lifecycleState.None? && c.changeNote.None?
  }

  /** What a partial update means: every supplied field replaced, every other field kept. */
  function ApplyChanges(g: Garment, c: GarmentChanges): Garment {
    Garment(
      if c.name.Some? then c.name.value else g.name,
      if c.category.Some? then c.category.value else g.category,
      if c.lifecycleState.Some? then c.lifecycleState.value else g.lifecycleState,
      g.baseDesignId,
      if c.changeNote.Some? then c.changeNote else g.changeNote)
  }

  /** One `column = ?` entry of the UPDATE's SET list. */
  datatype Assignment =
    | SetName(name: string)
    | SetCategory(category: string)
    | SetLifecycleState(state: LifecycleState)
    | SetChangeNote(note: string)

  function Assign(g: Garment, a: Assignment): Garment {
    match a
    case SetName(n) => g.(name := n)
    case SetCategory(c) => g.(category := c)
    case SetLifecycleState(s) => g.(lifecycleState := s)
    case SetChangeNote(n) => g.(changeNote := Some(n))
  }

  /** `UPDATE garments SET a1, a2, ...`: the assignments of the SET list, left to right. */
  function AssignAll(g: Garment, assignments: seq<Assignment>): Garment
    decreases |assignments|
  {
    if assignments == [] then g else AssignAll(Assign(g, assignments[0]), assignments[1..])
  }

  /** The attribute ids linked to a garment. */
  function AttributeIds(links: set<(int, int)>, garmentId: int): (r: set<int>)
    ensures forall a :: a in r <==> (garmentId, a) in links
  {
    set k | k in links && k.0 == garmentId :: k.1
  }

  // ---------------------------------------------------------------------------
  // Operations

  /** `getById`: the garment row, or null when there is none. */
  function GetById(db: Database, id: int): (r: Option<GarmentRecord>)
    reads db
    ensures r.None? <==> id !in db.garments
    ensures r.Some? ==> r.value.id == id && r.value.data == db.garments[id]
  {
    if id in db.garments then Some(Row(id, db.garments[id])) else None
  }

  /** `create`: inserts the row with its defaults under a fresh id and returns that id. */
  method Create(db: Database, data: NewGarment) returns (id: int)
    requires db.Valid()
    modifies db`garments, db`nextGarmentId
    ensures db.Valid()
    ensures id !in old(db.garments)
    ensures db.garments == old(db.garments)[id := InitialRow(data)]
    ensures id == old(db.nextGarmentId) && db.nextGarmentId == id + 1
  {
    id := db.nextGarmentId;
    db.garments := db.garments[id := InitialRow(data)];
    db.nextGarmentId := id + 1;
  }

  /**
   * The SET list `update` builds, one `push` per supplied field in the order
   * name, category, lifecycle_state, change_note. Running it on any row gives
   * the row with exactly the supplied fields replaced.
   */
  method SetList(data: GarmentChanges, ghost g: Garment) returns (updates: seq<Assignment>)
    ensures AssignAll(g, updates) == ApplyChanges(g, data)
    ensures |updates| == 0 <==> NoChanges(data)
  {
    ghost var expected := g;
    updates := [];
    if data.name.Some? {
      AssignAllSnoc(g, updates, SetName(data.name.value));
      updates := updates + [SetName(data.name.value)];
      expected := expected.(name := data.name.value);
    }
    assert AssignAll(g, updates) == expected;
    assert |updates| == 0 <==> data.name.None?;
    if data.category.Some? {
      AssignAllSnoc(g, updates, SetCategory(data.category.value));
      updates := updates + [SetCategory(data.category.value)];
      expected := expected.(category := data.category.value);
    }
    assert AssignAll(g, updates) == expected;
    assert |updates| == 0 <==> data.name.None? && data.category.None?;
    if data.lifecycleState.Some? {
      AssignAllSnoc(g, updates, SetLifecycleState(data.lifecycleState.value));
      updates := updates + [SetLifecycleState(data.lifecycleState.value)];
      expected := expected.(lifecycleState := data.lifecycleState.value);
    }
    assert AssignAll(g, updates) == expected;
    assert |updates| == 0 <==> data.name.None? && data.category.None? && data.lifecycleState.None?;
    if data.changeNote.Some? {
      AssignAllSnoc(g, updates, SetChangeNote(data.changeNote.value));
      updates := updates + [SetChangeNote(data.changeNote.value)];
      expected := expected.(changeNote := data.changeNote);
    }
    assert AssignAll(g, updates) == expected;
  }

  /**
   * `update`: with no field supplied it returns false without a statement;
   * otherwise it runs the UPDATE and returns whether the row exists.
   */
  method Update(db: Database, id: int, data: GarmentChanges) returns (updated: bool)
    requires db.Valid()
    modifies db`garments
    ensures db.Valid()
    ensures updated <==> !NoChanges(data) && id in old(db.garments)
    ensures updated ==> db.garments == old(db.garments)[id := ApplyChanges(old(db.garments)[id], data)]
    ensures !updated ==> db.garments == old(db.garments)
  {
    ghost var g := if id in db.garments then db.garments[id] else Garment("", "", Concept, None, None);
    var updates := SetList(data, g);
    if |updates| == 0 {
      return false;
    }
    if id in db.garments {
      db.garments := db.garments[id := AssignAll(db.garments[id], updates)];
      updated := true;
    } else {
      updated := false;
    }
  }

  /** The `garment_attributes` rows that survive deleting garment `id`. */
  function LinksWithout(links: set<(int, int)>, id: int): (r: set<(int, int)>)
    ensures forall k :: k in r <==> k in links && k.0 != id
  {
    set k | k in links && k.0 != id
  }

  /** The `garment_materials` rows that survive deleting garment `id`. */
  function LinesWithout(lines: map<(int, int), real>, id: int): (r: map<(int, int), real>)
    ensures forall k :: k in r <==> k in lines && k.0 != id
    ensures forall k :: k in r ==> r[k] == lines[k]
  {
    map k | k in lines && k.0 != id :: lines[k]
  }

  /**
   * `delete`: refused for a missing garment and for one in mass production;
   * otherwise the row is removed, and the foreign keys on `garment_id`
   * cascade to its attribute and material rows.
   */
  method Delete(db: Database, id: int) returns (r: DeleteResult)
    requires db.Valid()
    modifies db`garments, db`garmentAttributes, db`garmentMaterials
    ensures db.Valid()
    ensures id !in old(db.garments) || old(db.garments)[id].lifecycleState == MassProduction ==>
      && db.garments == old(db.garments)
      && db.garmentAttributes == old(db.garmentAttributes)
      && db.garmentMaterials == old(db.garmentMaterials)
    ensures id !in old(db.garments) ==> r == DeleteResult(false, Some(GarmentNotFound))
    ensures id in old(db.garments) && old(db.garments)[id].lifecycleState == MassProduction ==>
      r == DeleteResult(false, Some(MassProductionLocked))
    ensures id in old(db.garments) && old(db.garments)[id].lifecycleState != MassProduction ==>
      && r == DeleteResult(true, None)
      && db.garments == old(db.garments) - {id}
      && db.garmentAttributes == LinksWithout(old(db.garmentAttributes), id)
      && db.garmentMaterials == LinesWithout(old(db.garmentMaterials), id)
      && AttributeIds(db.garmentAttributes, id) == {}
      && GetMaterials(db, id) == {}
  {
    var garment := GetById(db, id);
    if garment.None? {
      return DeleteResult(false, Some(GarmentNotFound));
    }
    if garment.value.data.lifecycleState == MassProduction {
      return DeleteResult(false, Some(MassProductionLocked));
    }
    var existed := id in db.garments;
    db.garments := db.garments - {id};
    db.garmentAttributes := LinksWithout(db.garmentAttributes, id);
    db.garmentMaterials := LinesWithout(db.garmentMaterials, id);
    r := DeleteResult(existed, None);
  }

  /**
   * `addMaterial`: a percentage outside (0, 100] is refused before any
   * statement; otherwise the (garment, material) row is inserted or its
   * percentage overwritten. A garment or material id with no row violates a
   * foreign key.
   */
  method AddMaterial(db: Database, garmentId: int, materialId: int, percentage: real) returns (r: Result<bool, Failure>)
    requires db.Valid()
    modifies db`garmentMaterials
    ensures db.Valid()
    ensures percentage <= 0.0 || percentage > 100.0 ==>
      r == Err(Message(PercentageOutOfRange)) && db.garmentMaterials == old(db.garmentMaterials)
    ensures 0.0 < percentage <= 100.0 && (garmentId !in db.garments || materialId !in db.materials) ==>
      r == Err(Database(NoReferencedRow)) && db.garmentMaterials == old(db.garmentMaterials)
    ensures 0.0 < percentage <= 100.0 && garmentId in db.garments && materialId in db.materials ==>
      r == Ok(true) && db.garmentMaterials == old(db.garmentMaterials)[(garmentId, materialId) := percentage]
  {
    if percentage <= 0.0 || percentage > 100.0 {
      return Err(Message(PercentageOutOfRange));
    }
    if garmentId !in db.garments || materialId !in db.materials {
      return Err(Database(NoReferencedRow));
    }
    db.garmentMaterials := db.garmentMaterials[(garmentId, materialId) := percentage];
    r := Ok(true);
  }

  /**
   * `getMaterials`: each material of the garment, joined with its name, with the
   * percentage stored for it. The composite key makes each material appear once.
   */
  function GetMaterials(db: Database, garmentId: int): (r: set<MaterialLine>)
    reads db
    ensures forall l :: l in r <==>
      && (garmentId, l.id) in db.garmentMaterials
      && l.id in db.materials
      && l.name == db.materials[l.id]
      && l.percentage == db.garmentMaterials[(garmentId, l.id)]
    ensures forall l1, l2 :: l1 in r && l2 in r && l1.id == l2.id ==> l1 == l2
  {
    set k | k in db.garmentMaterials && k.0 == garmentId && k.1 in db.materials ::
      MaterialLine(k.1, db.materials[k.1], db.garmentMaterials[k])
  }

  /**
   * `addAttribute`: `INSERT IGNORE` of the link; true iff it was new. A link
   * to a missing garment breaks the foreign key, which `IGNORE` turns into a
   * skipped row.
   */
  method AddAttribute(db: Database, garmentId: int, attributeId: int) returns (added: bool)
    requires db.Valid()
    modifies db`garmentAttributes
    ensures db.Valid()
    ensures added <==> garmentId in db.garments && (garmentId, attributeId) !in old(db.garmentAttributes)
    ensures garmentId in db.garments ==> db.garmentAttributes == old(db.garmentAttributes) + {(garmentId, attributeId)}
    ensures garmentId !in db.garments ==> db.garmentAttributes == old(db.garmentAttributes)
    ensures garmentId in db.garments ==>
      AttributeIds(db.garmentAttributes, garmentId) == AttributeIds(old(db.garmentAttributes), garmentId) + {attributeId}
  {
    if garmentId !in db.garments {
      // The foreign key on garment_id fails; INSERT IGNORE skips the row.
      return false;
    }
    added := (garmentId, attributeId) !in db.garmentAttributes;
    db.garmentAttributes := db.garmentAttributes + {(garmentId, attributeId)};
  }

  /** `getAttributes`: the `{ id, name }` of every existing attribute linked to the garment. */
  function GetAttributes(db: Database, garmentId: int): (r: set<NamedRow>)
    reads db
    ensures forall a :: a in r <==>
      a.id in AttributeIds(db.garmentAttributes, garmentId) && a.id in db.attributes && a.name == db.attributes[a.id]
  {
    set k | k in db.garmentAttributes && k.0 == garmentId && k.1 in db.attributes :: NamedRow(k.1, db.attributes[k.1])
  }

  /** `getVariations(b)`: exactly the garments whose base design is `b`. */
  function GetVariations(db: Database, baseDesignId: int): (r: set<GarmentRecord>)
    reads db
    ensures forall g :: g in r <==>
      g.id in db.garments && g.data == db.garments[g.id] && g.data.baseDesignId == Some(baseDesignId)
  {
    set id | id in db.garments && db.garments[id].baseDesignId == Some(baseDesignId) :: Row(id, db.garments[id])
  }

  // ---------------------------------------------------------------------------
  // Lemmas

  /** Appending one assignment to the SET list applies it last. */
  lemma {:induction false} AssignAllSnoc(g: Garment, assignments: seq<Assignment>, a: Assignment)
    ensures AssignAll(g, assignments + [a]) == Assign(AssignAll(g, assignments), a)
    decreases |assignments|
  {
    if assignments == [] {
      assert [] + [a] == [a];
    } else {
      assert (assignments + [a])[1..] == assignments[1..] + [a];
      AssignAllSnoc(Assign(g, assignments[0]), assignments[1..], a);
    }
  }

  /** An update keeps the base design, and changes exactly the supplied fields. */
  lemma ApplyChangesFields(g: Garment, c: GarmentChanges)
    ensures ApplyChanges(g, c).baseDesignId == g.baseDesignId
    ensures c.name.None? ==> ApplyChanges(g, c).name == g.name
    ensures c.category.None? ==> ApplyChanges(g, c).category == g.category
    ensures c.lifecycleState.None? ==> ApplyChanges(g, c).lifecycleState == g.lifecycleState
    ensures c.changeNote.None? ==> ApplyChanges(g, c).changeNote == g.changeNote
    ensures c.name.Some? ==> ApplyChanges(g, c).name == c.name.value
    ensures c.category.Some? ==> ApplyChanges(g, c).category == c.category.value
    ensures c.lifecycleState.Some? ==> ApplyChanges(g, c).lifecycleState == c.lifecycleState.value
    ensures c.changeNote.Some? ==> ApplyChanges(g, c).changeNote == c.changeNote
  {
  }

  /** An empty change set changes nothing. */
  lemma NoChangesIsIdentity(g: Garment, c: GarmentChanges)
    requires NoChanges(c)
    ensures ApplyChanges(g, c) == g
  {
  }

  /** Applying the same changes twice is the same as applying them once. */
  lemma ApplyChangesIdempotent(g: Garment, c: GarmentChanges)
    ensures ApplyChanges(ApplyChanges(g, c), c) == ApplyChanges(g, c)
  {
  }

  /**
   * `update` does not guard lifecycle transitions: any state can be set from
   * any state, whatever the garment's materials.
   */
  lemma AnyLifecycleStateSettable(g: Garment, s: LifecycleState)
    ensures ApplyChanges(g, GarmentChanges(None, None, Some(s), None)).lifecycleState == s
    ensures !NoChanges(GarmentChanges(None, None, Some(s), None))
  {
  }

  /** A change note supplied as "" is stored as "", unlike at creation where "" becomes NULL. */
  lemma EmptyChangeNoteStoredOnUpdate(g: Garment, data: NewGarment)
    requires data.changeNote == Some("")
    ensures ApplyChanges(g, GarmentChanges(None, None, None, Some(""))).changeNote == Some("")
    ensures InitialRow(data).changeNote == None
  {
  }

  /** A garment created with base design `b` (not 0) is a variation of `b`. */
  lemma CreatedVariationListed(db: Database, id: int, data: NewGarment, b: int)
    requires id in db.garments && db.garments[id] == InitialRow(data)
    requires data.baseDesignId == Some(b) && b != 0
    ensures Row(id, db.garments[id]) in GetVariations(db, b)
  {
  }
}
