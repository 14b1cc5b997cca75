/**
 * The decision logic of the garment request handlers (backend/src/routes/garments.ts).
 *
 * A handler becomes a method from the store and the request's fields to a
 * `Response`: a status and a body. Express, JSON and the `catch`-all 500
 * answers are not modelled. The handlers call a garment service that behaves
 * like `GarmentService`, and the incompatibility check of `AttributeService`.
 */
module GarmentRoutes {
  import opened Wrappers
  import opened DomainTypes
  import opened Store
  import opened GarmentService
  import opened AttributeRepository
  import opened AttributeService

  datatype Status = Ok200 | Created201 | NoContent204 | BadRequest400 | NotFound404

  datatype Body =
    | Error(error: string)
    /** `{ error: 'Incompatible attributes', conflicts }` */
    | Incompatible(conflicts: set<Conflict>)
    /** `{ error: error.message }` for a failure raised while adding a material. */
    | Raised(failure: Failure)
    | GarmentBody(found: Option<GarmentRecord>)
    /** The garment together with its materials, attributes and variations. */
    | Aggregate(garment: GarmentRecord, materials: set<MaterialLine>, attributes: set<NamedRow>, variations: set<GarmentRecord>)
    | Materials(lines: set<MaterialLine>)
    | Attributes(rows: set<NamedRow>)
    | Empty

  datatype Response = Response(status: Status, body: Body)

  /** The body of `POST /`; a field the client leaves out is `None`. */
  datatype CreateRequest = CreateRequest(
    name: Option<string>,
    category: Option<string>,
    lifecycleState: Option<LifecycleState>,
    baseDesignId: Option<int>,
    changeNote: Option<string>,
    attributes: Option<seq<int>>)

  const NameAndCategoryRequired := "Name and category are required"
  const MaterialFieldsRequired := "material_id and percentage are required"
  const AttributeIdRequired := "attribute_id is required"
  const NotFoundOrUnchanged := "Garment not found or no changes made"

  /** `!x` on optional text: absent or "". */
  predicate MissingText(x: Option<string>) {
    x.None? || x.value == ""
  }

  /** `!x` on an optional number: absent or zero. */
  predicate MissingId(x: Option<int>) {
    x.None? || x.value == 0
  }

  predicate MissingNumber(x: Option<real>) {
    x.None? || x.value == 0.0
  }

  /** The attribute list of a create request; an absent list is empty. */
  function RequestedAttributes(req: CreateRequest): seq<int> {
    if req.attributes.Some? then req.attributes.value else []
  }

  /** The row the garment service inserts for a request that passed the checks. */
  function RequestedGarment(req: CreateRequest): Garment
    requires !MissingText(req.name) && !MissingText(req.category)
  {
    InitialRow(NewGarment(req.name.value, req.category.value, req.lifecycleState, req.baseDesignId, req.changeNote))
  }

  /** The ids of the attributes `getAttributes` lists for a garment: linked and still existing. */
  function ListedAttributeIds(db: Database, garmentId: int): (r: set<int>)
    reads db
    ensures forall a :: a in r <==> (garmentId, a) in db.garmentAttributes && a in db.attributes
  {
    set k | k in db.garmentAttributes && k.0 == garmentId && k.1 in db.attributes :: k.1
  }

  // ---------------------------------------------------------------------------
  // Handlers

  /** `GET /:id`: 404 for a missing garment, otherwise the garment with its materials, attributes and variations. */
  function GetGarment(db: Database, id: int): (res: Response)
    reads db
    ensures res.status == NotFound404 <==> id !in db.garments
    ensures id !in db.garments ==> res.body == Error(GarmentNotFound)
    ensures id in db.garments ==> res.status == Ok200 && res.body.Aggregate?
    ensures res.body.Aggregate? ==>
      && res.body.garment == Row(id, db.garments[id])
      && res.body.materials == GetMaterials(db, id)
      && res.body.attributes == GetAttributes(db, id)
      && (forall v :: v in res.body.variations <==>
            v.id in db.garments && v.data == db.garments[v.id] && v.data.baseDesignId == Some(id))
  {
    match GetById(db, id)
    case None => Response(NotFound404, Error(GarmentNotFound))
    case Some(garment) =>
      Response(Ok200, Aggregate(garment, GetMaterials(db, id), GetAttributes(db, id), GetVariations(db, id)))
  }

  /**
   * `POST /`: name and category are required; a non-empty attribute list is
   * checked for incompatibilities before anything is written; then the garment
   * is created and each listed attribute linked to it, one by one.
   */
  method PostGarment(db: Database, req: CreateRequest) returns (res: Response)
    requires db.Valid()
    modifies db`garments, db`nextGarmentId, db`garmentAttributes
    ensures db.Valid()
    ensures MissingText(req.name) || MissingText(req.category) ==>
      && res == Response(BadRequest400, Error(NameAndCategoryRequired))
      && db.garments == old(db.garments) && db.garmentAttributes == old(db.garmentAttributes)
    ensures (&& !MissingText(req.name) && !MissingText(req.category)
             && CheckIncompatibilities(db.incompatibilities, db.attributes, RequestedAttributes(req)).Invalid?) ==>
      && res == Response(BadRequest400, Incompatible(
           ConflictsAmong(db.incompatibilities, db.attributes, IdSet(RequestedAttributes(req)))))
      && db.garments == old(db.garments) && db.garmentAttributes == old(db.garmentAttributes)
    ensures (&& !MissingText(req.name) && !MissingText(req.category)
             && CheckIncompatibilities(db.incompatibilities, db.attributes, RequestedAttributes(req)) == Valid) ==>
      var id := old(db.nextGarmentId);
      && id !in old(db.garments)
      && db.garments == old(db.garments)[id := RequestedGarment(req)]
      && res == Response(Created201, GarmentBody(Some(Row(id, RequestedGarment(req)))))
      && db.garmentAttributes == old(db.garmentAttributes) + (set a | a in RequestedAttributes(req) :: (id, a))
      && AttributeIds(db.garmentAttributes, id) == IdSet(RequestedAttributes(req))
  {
    if MissingText(req.name) || MissingText(req.category) {
      return Response(BadRequest400, Error(NameAndCategoryRequired));
    }
    var attributes := RequestedAttributes(req);
    if |attributes| > 0 {
      var validation := CheckIncompatibilities(db.incompatibilities, db.attributes, attributes);
      if validation.Invalid? {
        FindIncompatibilitiesAmongIdSet(db.incompatibilities, db.attributes, attributes);
        return Response(BadRequest400, Incompatible(validation.conflicts));
      }
    }
    res := CreateLinked(db, req);
  }

  /** The writes of `POST /` once the checks pass: insert the garment, link each listed attribute, read the row back. */
  method CreateLinked(db: Database, req: CreateRequest) returns (res: Response)
    requires db.Valid()
    requires !MissingText(req.name) && !MissingText(req.category)
    modifies db`garments, db`nextGarmentId, db`garmentAttributes
    ensures db.Valid()
    ensures var id := old(db.nextGarmentId);
      && id !in old(db.garments)
      && db.garments == old(db.garments)[id := RequestedGarment(req)]
      && res == Response(Created201, GarmentBody(Some(Row(id, RequestedGarment(req)))))
      && db.garmentAttributes == old(db.garmentAttributes) + (set a | a in RequestedAttributes(req) :: (id, a))
      && AttributeIds(db.garmentAttributes, id) == IdSet(RequestedAttributes(req))
  {
    var garmentId := GarmentService.Create(db, NewGarment(req.name.value, req.category.value, req.lifecycleState, req.baseDesignId, req.changeNote));
    LinkAttributes(db, garmentId, RequestedAttributes(req));
    CreatedAttributesExact(old(db.garmentAttributes), db.garmentAttributes, garmentId, RequestedAttributes(req));
    var garment := GetById(db, garmentId);
    res := Response(Created201, GarmentBody(garment));
  }

  /** `PUT /:id`: the partial update; "not updated" (missing garment or no field) is a 404. */
  method PutGarment(db: Database, id: int, changes: GarmentChanges) returns (res: Response)
    requires db.Valid()
    modifies db`garments
    ensures db.Valid()
    ensures NoChanges(changes) || id !in old(db.garments) ==>
      res == Response(NotFound404, Error(NotFoundOrUnchanged)) && db.garments == old(db.garments)
    ensures !NoChanges(changes) && id in old(db.garments) ==>
      && db.garments == old(db.garments)[id := ApplyChanges(old(db.garments)[id], changes)]
      && res == Response(Ok200, GarmentBody(Some(Row(id, ApplyChanges(old(db.garments)[id], changes)))))
  {
    var updated := Update(db, id, changes);
    if !updated {
      return Response(NotFound404, Error(NotFoundOrUnchanged));
    }
    var garment := GetById(db, id);
    res := Response(Ok200, GarmentBody(garment));
  }

  /** `DELETE /:id`: 204 on success, otherwise 400 carrying the service's message. */
  method DeleteGarment(db: Database, id: int) returns (res: Response)
    requires db.Valid()
    modifies db`garments, db`garmentAttributes, db`garmentMaterials
    ensures db.Valid()
    ensures id !in old(db.garments) || old(db.garments)[id].lifecycleState == MassProduction ==>
      && db.garments == old(db.garments)
      && db.garmentAttributes == old(db.garmentAttributes)
      && db.garmentMaterials == old(db.garmentMaterials)
    ensures id !in old(db.garments) ==> res == Response(BadRequest400, Error(GarmentNotFound))
    ensures id in old(db.garments) && old(db.garments)[id].lifecycleState == MassProduction ==>
      res == Response(BadRequest400, Error(MassProductionLocked))
    ensures id in old(db.garments) && old(db.garments)[id].lifecycleState != MassProduction ==>
      && res == Response(NoContent204, Empty)
      && db.garments == old(db.garments) - {id}
      && db.garmentAttributes == LinksWithout(old(db.garmentAttributes), id)
      && db.garmentMaterials == LinesWithout(old(db.garmentMaterials), id)
      && ListedAttributeIds(db, id) == {}
  {
    var result := GarmentService.Delete(db, id);
    if !result.success {
      return Response(BadRequest400, Error(if result.message.Some? then result.message.value else ""));
    }
    res := Response(NoContent204, Empty);
  }

  /**
   * `POST /:id/materials`: a missing or zero material id or percentage is
   * refused before the service is called; a failure the service raises becomes
   * a 400 carrying it; otherwise the garment's material lines are returned.
   */
  method PostMaterial(db: Database, garmentId: int, materialId: Option<int>, percentage: Option<real>) returns (res: Response)
    requires db.Valid()
    modifies db`garmentMaterials
    ensures db.Valid()
    ensures MissingId(materialId) || MissingNumber(percentage) ==>
      res == Response(BadRequest400, Error(MaterialFieldsRequired)) && db.garmentMaterials == old(db.garmentMaterials)
    ensures !MissingId(materialId) && !MissingNumber(percentage) && (percentage.value < 0.0 || percentage.value > 100.0) ==>
      res == Response(BadRequest400, Raised(Message(PercentageOutOfRange))) && db.garmentMaterials == old(db.garmentMaterials)
    ensures (&& !MissingId(materialId) && !MissingNumber(percentage) && 0.0 < percentage.value <= 100.0
             && (garmentId !in db.garments || materialId.value !in db.materials)) ==>
      res == Response(BadRequest400, Raised(Database(NoReferencedRow))) && db.garmentMaterials == old(db.garmentMaterials)
    ensures (&& !MissingId(materialId) && !MissingNumber(percentage) && 0.0 < percentage.value <= 100.0
             && garmentId in db.garments && materialId.value in db.materials) ==>
      && db.garmentMaterials == old(db.garmentMaterials)[(garmentId, materialId.value) := percentage.value]
      && res == Response(Ok200, Materials(GetMaterials(db, garmentId)))
      && MaterialLine(materialId.value, db.materials[materialId.value], percentage.value) in res.body.lines
      && (forall l :: l in res.body.lines && l.id == materialId.value ==> l.percentage == percentage.value)
  {
    if MissingId(materialId) || MissingNumber(percentage) {
      return Response(BadRequest400, Error(MaterialFieldsRequired));
    }
    var added := AddMaterial(db, garmentId, materialId.value, percentage.value);
    if added.Err? {
      return Response(BadRequest400, Raised(added.error));
    }
    var materials := GetMaterials(db, garmentId);
    res := Response(Ok200, Materials(materials));
  }

  /**
   * `POST /:id/attributes`: a missing or zero attribute id is refused; the
   * garment's listed attributes plus the new one are checked together, and
   * only a compatible set is written.
   */
  method PostAttribute(db: Database, garmentId: int, attributeId: Option<int>) returns (res: Response)
    requires db.Valid()
    modifies db`garmentAttributes
    ensures db.Valid()
    ensures MissingId(attributeId) ==>
      res == Response(BadRequest400, Error(AttributeIdRequired)) && db.garmentAttributes == old(db.garmentAttributes)
    ensures !MissingId(attributeId) ==>
      var existing := old(ListedAttributeIds(db, garmentId));
      var candidate := existing + {attributeId.value};
      var conflicts := ConflictsAmong(db.incompatibilities, db.attributes, candidate);
      && (existing != {} && conflicts != {} ==>
            res == Response(BadRequest400, Incompatible(conflicts)) && db.garmentAttributes == old(db.garmentAttributes))
      && (existing == {} || conflicts == {} ==>
            && (garmentId in db.garments ==>
                  && db.garmentAttributes == old(db.garmentAttributes) + {(garmentId, attributeId.value)}
                  && AttributeIds(db.garmentAttributes, garmentId) == AttributeIds(old(db.garmentAttributes), garmentId) + {attributeId.value})
            && (garmentId !in db.garments ==> db.garmentAttributes == old(db.garmentAttributes))
            && res == Response(Ok200, Attributes(GetAttributes(db, garmentId))))
  {
    if MissingId(attributeId) {
      return Response(BadRequest400, Error(AttributeIdRequired));
    }
    var existingIds := ListAttributeIds(db, garmentId);
    var allAttributeIds := existingIds + [attributeId.value];
    forall a
      ensures a in IdSet(allAttributeIds) <==> a in ListedAttributeIds(db, garmentId) + {attributeId.value}
    {
      assert a in allAttributeIds <==> a in existingIds || a == attributeId.value;
    }
    assert IdSet(allAttributeIds) == ListedAttributeIds(db, garmentId) + {attributeId.value};
    FindIncompatibilitiesAmongIdSet(db.incompatibilities, db.attributes, allAttributeIds);
    var validation := CheckIncompatibilities(db.incompatibilities, db.attributes, allAttributeIds);
    if validation.Invalid? {
      return Response(BadRequest400, Incompatible(validation.conflicts));
    }
    var _ := AddAttribute(db, garmentId, attributeId.value);
    var attributes := GetAttributes(db, garmentId);
    res := Response(Ok200, Attributes(attributes));
  }

  /** `for (const attrId of attributes) addAttribute(garmentId, attrId)`: links every listed attribute, one by one. */
  method LinkAttributes(db: Database, garmentId: int, attributes: seq<int>)
    requires db.Valid()
    modifies db`garmentAttributes
    ensures db.Valid()
    ensures garmentId !in db.garments ==> db.garmentAttributes == old(db.garmentAttributes)
    ensures garmentId in db.garments ==>
      && db.garmentAttributes == old(db.garmentAttributes) + (set a | a in attributes :: (garmentId, a))
      && AttributeIds(db.garmentAttributes, garmentId) == AttributeIds(old(db.garmentAttributes), garmentId) + IdSet(attributes)
  {
    var i := 0;
    while i < |attributes|
      invariant 0 <= i <= |attributes|
      invariant db.Valid()
      invariant garmentId !in db.garments ==> db.garmentAttributes == old(db.garmentAttributes)
      invariant garmentId in db.garments ==>
        db.garmentAttributes == old(db.garmentAttributes) + (set a | a in attributes[..i] :: (garmentId, a))
    {
      var _ := AddAttribute(db, garmentId, attributes[i]);
      assert attributes[..i + 1] == attributes[..i] + [attributes[i]];
      i := i + 1;
    }
    assert attributes[..i] == attributes;
    LinkedIds(old(db.garmentAttributes), garmentId, attributes);
  }

  /** `existingAttributes.map(a => a.id)`: the ids of the rows `getAttributes` lists, in some row order. */
  method ListAttributeIds(db: Database, garmentId: int) returns (ids: seq<int>)
    ensures forall a :: a in ids <==> a in ListedAttributeIds(db, garmentId)
    ensures |ids| == 0 <==> ListedAttributeIds(db, garmentId) == {}
  {
    var rows := GetAttributes(db, garmentId);
    var rest := rows;
    ids := [];
    while rest != {}
      invariant rest <= rows
      invariant forall a :: a in ids ==> a in ListedAttributeIds(db, garmentId)
      invariant forall r :: r in rows && r !in rest ==> r.id in ids
      invariant |ids| == 0 <==> rest == rows
      decreases |rest|
    {
      var r :| r in rest;
      ids := ids + [r.id];
      rest := rest - {r};
    }
    forall a | a in ListedAttributeIds(db, garmentId)
      ensures a in ids
    {
      assert NamedRow(a, db.attributes[a]) in rows;
    }
  }

  // ---------------------------------------------------------------------------
  // Lemmas

  /** Linking the listed attributes adds exactly their ids to the garment's attribute ids. */
  lemma LinkedIds(links: set<(int, int)>, garmentId: int, attributes: seq<int>)
    ensures AttributeIds(links + (set a | a in attributes :: (garmentId, a)), garmentId) == AttributeIds(links, garmentId) + IdSet(attributes)
  {
    var added := set a | a in attributes :: (garmentId, a);
    forall a
      ensures a in AttributeIds(links + added, garmentId) <==> a in AttributeIds(links, garmentId) + IdSet(attributes)
    {
      assert (garmentId, a) in added <==> a in attributes;
    }
  }

  /**
   * A freshly created garment has exactly the requested attributes when no link
   * names its id yet. `Valid()` guarantees this: every link names an existing
   * garment, whose id is below the next one handed out.
   */
  lemma CreatedAttributesExact(links: set<(int, int)>, newLinks: set<(int, int)>, id: int, requested: seq<int>)
    requires forall k :: k in links ==> k.0 < id
    requires AttributeIds(newLinks, id) == AttributeIds(links, id) + IdSet(requested)
    ensures AttributeIds(newLinks, id) == IdSet(requested)
  {
    assert AttributeIds(links, id) == {};
  }
}
