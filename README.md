# PLM backend core, modelled in Dafny

This project models the backend core of a product-lifecycle-management
application for apparel. Garments move through lifecycle states (concept,
design, sample, approved, mass production). They are made of materials with
percentages and carry design attributes, some pairs of which are recorded as
incompatible. Through suppliers they are linked to offers and sample sets.

The original is TypeScript over MySQL. In the model:

- All tables the core touches are fields of one `Store.Database` class: maps
  from auto-increment ids to rows, and sets for the join tables keyed by a
  pair. `Valid()` states that every id is below the next auto-increment value,
  that every `garment_attributes` and `garment_materials` row names an
  existing garment, and that attribute and material names are unique.
- Each service or repository file becomes a module of methods over `db`.
  Each method's `modifies` names only the tables its SQL writes, and its
  `ensures` gives the new table as a function of the old one.
- SQL idioms become data-structure operations:
  - `INSERT IGNORE` is set insertion.
  - `ON DUPLICATE KEY UPDATE` is a map update.
  - `affectedRows > 0` after `UPDATE`/`DELETE` means "the row existed". The
    driver reports matched rows.
  - The MySQL errors `ER_DUP_ENTRY`, `ER_ROW_IS_REFERENCED_2` and
    `ER_NO_REFERENCED_ROW_2` become `DbError` values.
  - A thrown `Error(message)` becomes `Failure.Message(message)`.
- Results of queries without `ORDER BY` are sets. `ORDER BY name` is a
  sequence sorted by a fixed total order on names. `ORDER BY id DESC` is a
  sequence of descending ids.
- JavaScript truthiness is written out:
  - `x || null` stores NULL for a missing value, `0` and `""`
    (`DomainTypes.IdOrNull`, `DomainTypes.TextOrNull`).
  - `!== undefined` stores a supplied `""`.
  - `!x` in the route handlers treats 0 and `""` as missing.
- The HTTP handlers of `routes/garments.ts` return a `Response` made of a
  status enum and a body datatype.

Module layout, one file each: `Wrappers`, `DomainTypes` (the enums and row
types), `Store`, `AttributeValidationRules`, `Entities` (the `AttributeName`
value object), `AttributeRepository`, `AttributeService`, `AttributePolicy`,
`GarmentService`, `GarmentRoutes`, `MaterialService`, `MaterialRepository`
and `SupplierService`.

`attributeService.ts` runs the same SQL as `AttributeRepository.ts` for its
table operations, so one member models both and its row cites both files.
Likewise `MaterialRepository.findAll`/`findById` run the service's
statements, and `MaterialService.GetAll`/`GetById` model them.

## Model

| member | source | states |
|---|---|---|
| AttributeValidationRules.GetValidationError | backend/src/domain/rules/AttributeValidationRules.ts:26-40 | The checks run in order. `EmptyName` iff the name is blank (empty or only whitespace). `NameTooLong` iff it is not blank and longer than 100. `ForbiddenCharactersFound` iff it passes both and contains one of `<`, `>`, `&`, `"`, `'`. No error otherwise. |
| AttributeValidationRules.IsValidIffNoError | backend/src/domain/rules/AttributeValidationRules.ts:6-16 | `isValidName(n)` holds exactly when `getValidationError(n)` is null. |
| AttributeValidationRules.TrimEmptyIffBlank | backend/src/domain/rules/AttributeValidationRules.ts:7-9 | `name.trim()` is empty exactly when every character of the name is whitespace. |
| AttributeValidationRules.ForbiddenIffSomeCharForbidden | backend/src/domain/rules/AttributeValidationRules.ts:18-20 | `containsForbiddenCharacters` holds iff some character of the name is in the forbidden list. |
| AttributeValidationRules.BlankNameRejected | backend/src/domain/rules/AttributeValidationRules.ts:7-9 | A blank name is invalid and reported as empty. |
| AttributeValidationRules.LongNameRejected | backend/src/domain/rules/AttributeValidationRules.ts:11-13 | Any name over 100 characters is invalid. |
| AttributeValidationRules.ForbiddenCharacterRejected | backend/src/domain/rules/AttributeValidationRules.ts:15 | A name with a forbidden character at some index is invalid, and some error is reported for it. |
| AttributeValidationRules.LeadingWhitespace | backend/src/domain/rules/AttributeValidationRules.ts:23 | The start of `trim()`: the count of leading whitespace characters. Everything before it is whitespace, and the character at it is not. |
| AttributeValidationRules.TrimmedLength | backend/src/domain/rules/AttributeValidationRules.ts:23 | The end of `trim()`: everything from it on is whitespace, and the character before it is not. |
| AttributeValidationRules.CollapseEnds | backend/src/domain/rules/AttributeValidationRules.ts:23 | `replace(/\s+/g, ' ')` never lengthens and is empty only on empty input. Each end of the result is whitespace iff that end of the input is. |
| AttributeValidationRules.CollapseSingleSpaced | backend/src/domain/rules/AttributeValidationRules.ts:23 | After `replace(/\s+/g, ' ')` every whitespace character is a plain space, and no two are adjacent. |
| AttributeValidationRules.CollapseOrigin | backend/src/domain/rules/AttributeValidationRules.ts:23 | Every non-whitespace character `replace(/\s+/g, ' ')` outputs occurs in its input. |
| AttributeValidationRules.TrimShape | backend/src/domain/rules/AttributeValidationRules.ts:23 | `trim()` is never longer, has no whitespace at either end, and has only characters of the input. |
| AttributeValidationRules.SanitizeNormalForm | backend/src/domain/rules/AttributeValidationRules.ts:22-24 | A sanitised name has no leading or trailing whitespace, and every whitespace character in it is a single space between two non-spaces. |
| AttributeValidationRules.SanitizeNeverLonger | backend/src/domain/rules/AttributeValidationRules.ts:22-24 | Sanitising never lengthens a name, and gives the empty string only when the trimmed name is empty. |
| AttributeValidationRules.CollapseFixpoint | backend/src/domain/rules/AttributeValidationRules.ts:23 | Collapsing a single-spaced string that does not end in whitespace changes nothing. |
| AttributeValidationRules.TrimFixpoint | backend/src/domain/rules/AttributeValidationRules.ts:23 | Trimming a string with no edge whitespace changes nothing. |
| AttributeValidationRules.SanitizeIdempotent | backend/src/domain/rules/AttributeValidationRules.ts:22-24 | Sanitising twice is the same as sanitising once. |
| AttributeValidationRules.CollapseKeepsNonBlank | backend/src/domain/rules/AttributeValidationRules.ts:23 | `replace(/\s+/g, ' ')` keeps every non-whitespace character of its input, in order, and adds none. |
| AttributeValidationRules.TrimKeepsNonBlank | backend/src/domain/rules/AttributeValidationRules.ts:23 | `trim()` removes only whitespace: the non-whitespace characters of the input, in order, are exactly those of the result. |
| AttributeValidationRules.SanitizeKeepsCharacters | backend/src/domain/rules/AttributeValidationRules.ts:22-24 | The non-whitespace characters of the sanitised name are exactly those of the original name, in the same order. So sanitising changes only whitespace. |
| AttributeValidationRules.SanitizeAddsNoForbidden | backend/src/domain/rules/AttributeValidationRules.ts:22-24 | Sanitising a name without forbidden characters introduces none. |
| AttributeValidationRules.SanitizedValidNameIsValid | backend/src/domain/entities/AttributeName.ts:14-22 | The sanitised form of a valid name is again valid: 1 to 100 characters, none forbidden. This is what `create` stores. |
| Entities.Create | backend/src/domain/entities/AttributeName.ts:14-23 | Ok iff the name is valid. An invalid name gives exactly `getValidationError`'s message: the empty message for a blank name, the length message for a long non-blank one. Ok holds the sanitised name: 1 to 100 characters, no edge whitespace, single-spaced. |
| Entities.CreateKeepsPlainName | backend/src/domain/entities/AttributeName.ts:14-23 | A name of 1 to 100 characters with no whitespace and no forbidden character is stored unchanged. |
| Entities.EqualsIsEquivalence | backend/src/domain/entities/AttributeName.ts:29-31 | `equals` is reflexive, symmetric and transitive. |
| Entities.EqualsIgnoresCase | backend/src/domain/entities/AttributeName.ts:29-31 | Two names of the same length that agree character by character after ASCII lower-casing compare equal. |
| Entities.ColorEqualsLowerCaseColor | backend/src/domain/examples/attribute-domain-example.ts:29 | `create("Color")` and `create("color")` both succeed and compare equal, the comparison the demo makes. |
| Store.ListByName | backend/src/services/materialService.ts:7-13 | `ORDER BY name`: the output lists exactly the table's rows, each once, in non-decreasing name order. |
| Store.RowsDescending | backend/src/application/usecases/supplierService.ts:163-172 | `WHERE … ORDER BY id DESC`: only matching rows, every matching row, and strictly descending ids. |
| AttributeRepository.Canonical | backend/src/infra/repositories/AttributeRepository.ts:47-48 | The stored pair is ordered (smaller id first) and is the same unordered pair. |
| AttributeRepository.SelectedPairs | backend/src/infra/repositories/AttributeRepository.ts:62-71 | The rows the `WHERE` clause selects are the stored pairs with both ids listed and both attributes present (the join). |
| AttributeRepository.FindIncompatibilities | backend/src/infra/repositories/AttributeRepository.ts:59-76 | Every selected pair's name conflict is reported, and every reported conflict comes from a selected pair. |
| AttributeRepository.FindAll | backend/src/infra/repositories/AttributeRepository.ts:8-14 | Every attribute row, once each, sorted by name. The same statement is `getAll` in backend/src/services/attributeService.ts:7-13. |
| AttributeRepository.FindById | backend/src/infra/repositories/AttributeRepository.ts:16-23 | None iff no attribute has the id; otherwise the row with that id and its name. The same is `getById` in backend/src/services/attributeService.ts:15-22. |
| AttributeRepository.Create | backend/src/infra/repositories/AttributeRepository.ts:25-32 | A name already present gives `DuplicateEntry` and no change. Otherwise one row is added under a fresh id, and `findById` of that id returns it. The same is `create` in backend/src/services/attributeService.ts:24-31. |
| AttributeRepository.Delete | backend/src/infra/repositories/AttributeRepository.ts:34-41 | Returns true iff the id existed; afterwards the id is gone and nothing else changes. The same is `delete` in backend/src/services/attributeService.ts:33-40. |
| AttributeRepository.AddAttributeIncompatibility | backend/src/infra/repositories/AttributeRepository.ts:43-57 | Stores the canonical pair with insert-ignore. Returns true iff the pair was not already recorded in either order. The same is `addIncompatibility` in backend/src/services/attributeService.ts:42-56. |
| AttributeRepository.InsertPairSymmetric | backend/src/infra/repositories/AttributeRepository.ts:47-53 | Recording (a, b) and recording (b, a) give the same table. |
| AttributeRepository.InsertPairRecords | backend/src/infra/repositories/AttributeRepository.ts:47-56 | After recording (a, b), a and b are incompatible in both orders, and earlier pairs stay. |
| AttributeRepository.InsertPairIdempotent | backend/src/infra/repositories/AttributeRepository.ts:50-56 | Recording an already-recorded pair (in either order) changes nothing. |
| AttributeRepository.InsertPairKeepsCanonical | backend/src/services/attributeService.ts:46-52 | If every stored pair is ordered, it stays so after an insert. |
| AttributeRepository.FindIncompatibilitiesSameIds | backend/src/infra/repositories/AttributeRepository.ts:59-76 | The query's answer depends only on which ids are listed, not on their order or repetition. |
| AttributeRepository.FindIncompatibilitiesEmptyIff | backend/src/infra/repositories/AttributeRepository.ts:59-76 | The answer is empty iff no stored pair lies within the listed, existing attributes. |
| AttributeRepository.FindIncompatibilitiesOnePerPair | backend/src/infra/repositories/AttributeRepository.ts:59-76 | With unique attribute names, there is exactly one reported conflict per selected pair. |
| AttributeRepository.RecordedPairReported | backend/src/infra/repositories/AttributeRepository.ts:59-76 | A recorded pair whose two attributes are both listed is reported, whichever order it was recorded in. |
| AttributeService.CheckIncompatibilities | backend/src/services/attributeService.ts:58-89 | Fewer than two ids is valid. Otherwise the list is invalid iff some stored pair has both attributes listed. An invalid verdict carries exactly the query's conflicts, and they are non-empty. |
| AttributeService.FindIncompatibilitiesAmongIdSet | backend/src/services/attributeService.ts:66-76 | The conflicts equal those among the set of listed ids. There is a conflict iff that set is non-empty. |
| AttributeService.CheckOrderIndependent | backend/src/services/attributeService.ts:58-89 | Any permutation of the ids gives the same verdict. |
| AttributeService.CheckDependsOnlyOnIdSet | backend/src/services/attributeService.ts:58-89 | If no attribute is recorded incompatible with itself (backend/src/http/validators/attributeValidators.ts:45), lists with the same id set get the same verdict. |
| AttributeService.SelfPairDistinguishesRepetition | backend/src/services/attributeService.ts:62-64 | With a self-pair stored, `[1]` is valid by the size shortcut while `[1, 1]` is invalid. So the premise above is needed. |
| AttributeService.RecordedPairInvalidates | backend/src/services/attributeService.ts:58-89 | A recorded pair among the listed ids makes the list invalid and is reported. This still holds when the last id is moved to the front. |
| AttributePolicy.CreateAttribute | backend/src/application/usecases/attributePolicy.ts:16-27 | An invalid name raises the validation message and writes nothing. A valid name whose sanitised form exists raises the duplicate error. Otherwise the sanitised name is stored under a fresh id and returned. |
| AttributePolicy.DeleteAttribute | backend/src/application/usecases/attributePolicy.ts:28-39 | Raises "Attribute not found" iff the id is missing. Otherwise the row is removed. |
| AttributePolicy.AddAttributeIncompatibility | backend/src/application/usecases/attributePolicy.ts:41-46 | Stores the canonical pair. Afterwards the pair is incompatible in both orders. |
| AttributePolicy.CheckAttributeIncompatibilities | backend/src/application/usecases/attributePolicy.ts:48-67 | The same verdict as the service check. Invalid iff at least two ids and the query finds a conflict. |
| DomainTypes.IdOrNull | backend/src/application/usecases/garmentService.ts:39 | `x \|\| null` on an id: NULL iff missing or 0. Otherwise the id. |
| DomainTypes.TextOrNull | backend/src/application/usecases/supplierService.ts:130 | `x \|\| null` on text: NULL iff missing or empty. Otherwise the text. |
| GarmentService.InitialRow | backend/src/application/usecases/garmentService.ts:36-41 | The inserted row: name and category as given, lifecycle CONCEPT unless supplied, and base design and change note NULL iff missing, 0 or empty. |
| GarmentService.GetById | backend/src/application/usecases/garmentService.ts:15-22 | None iff no garment has the id. Otherwise that row. |
| GarmentService.Create | backend/src/application/usecases/garmentService.ts:24-44 | Adds exactly the initial row under the next auto-increment id and returns that id. |
| GarmentService.SetList | backend/src/application/usecases/garmentService.ts:55-75 | The built `SET` list, applied in order, gives the specification `ApplyChanges`. It is empty iff no field was supplied. |
| GarmentService.Update | backend/src/application/usecases/garmentService.ts:46-86 | Returns true iff some field was supplied and the garment exists. Then the row becomes `ApplyChanges` of the old row. Otherwise nothing changes. |
| GarmentService.Delete | backend/src/application/usecases/garmentService.ts:88-109 | Missing gives "Garment not found". Mass production gives "Cannot delete garments in mass production" and keeps the garment. Otherwise success: the row is removed, and its `garment_attributes` and `garment_materials` rows go with it (cascading foreign keys). No other link row changes. |
| GarmentService.AddMaterial | backend/src/application/usecases/garmentService.ts:111-129 | A percentage outside (0, 100] raises and writes nothing. An unknown garment or material gives the foreign-key error and writes nothing. Otherwise the (garment, material) percentage is inserted or replaced. |
| GarmentService.GetMaterials | backend/src/application/usecases/garmentService.ts:131-141 | One line per existing material of the garment, with its name and stored percentage. Nothing else. |
| GarmentService.AddAttribute | backend/src/application/usecases/garmentService.ts:143-152 | Insert-ignore of the link. For an existing garment, returns true iff the link was new, and the garment's attribute ids gain exactly this id. For a missing garment the foreign key on `garment_id` fails, the row is skipped and the result is false. |
| GarmentService.GetAttributes | backend/src/application/usecases/garmentService.ts:154-164 | Exactly the existing attributes linked to the garment. |
| GarmentService.GetVariations | backend/src/application/usecases/garmentService.ts:166-173 | Exactly the garments whose base design is the given id. |
| GarmentService.AssignAllSnoc | backend/src/application/usecases/garmentService.ts:81 | Applying a `SET` list extended by one assignment equals applying the list, then the assignment. |
| GarmentService.ApplyChangesFields | backend/src/application/usecases/garmentService.ts:58-73 | Supplied fields take the supplied value, a supplied `""` included. Missing fields and the base design keep their old value. |
| GarmentService.NoChangesIsIdentity | backend/src/application/usecases/garmentService.ts:75 | With no field supplied the row is unchanged. |
| GarmentService.ApplyChangesIdempotent | backend/src/application/usecases/garmentService.ts:58-73 | Applying the same update twice equals applying it once. |
| GarmentService.AnyLifecycleStateSettable | backend/src/application/usecases/garmentService.ts:66-69 | Any lifecycle state, APPROVED and MASS_PRODUCTION included, can be set by an update with no composition check. |
| GarmentService.EmptyChangeNoteStoredOnUpdate | backend/src/application/usecases/garmentService.ts:70-73 | An update stores a supplied empty change note, while `create` stores NULL for it (line 40). |
| GarmentService.CreatedVariationListed | backend/src/application/usecases/garmentService.ts:166-173 | A garment created with a non-zero base design id is listed among that base's variations. |
| GarmentRoutes.ListedAttributeIds | backend/src/routes/garments.ts:156 | The ids of the existing attributes linked to the garment. |
| GarmentRoutes.GetGarment | backend/src/routes/garments.ts:18-40 | 404 "Garment not found" iff the id is missing. Otherwise 200 with the row plus its materials, attributes and variations. |
| GarmentRoutes.PostGarment | backend/src/routes/garments.ts:42-79 | 400 if name or category is missing. 400 with the conflicts among the requested ids, and nothing written, if they are incompatible. Otherwise 201 with the new row, which is linked to exactly the requested attributes. |
| GarmentRoutes.CreateLinked | backend/src/routes/garments.ts:60-75 | Once the checks pass: the garment is inserted under the next id, every listed attribute is linked to it, and 201 returns the inserted row. |
| GarmentRoutes.LinkAttributes | backend/src/routes/garments.ts:68-72 | For an existing garment the loop adds one link per listed attribute, and the garment's attribute ids gain exactly the listed set. For a missing garment nothing is written. |
| GarmentRoutes.LinkedIds | backend/src/routes/garments.ts:68-72 | Adding the links of a list adds exactly the list's ids to the garment's attributes. |
| GarmentRoutes.CreatedAttributesExact | backend/src/routes/garments.ts:60-72 | Every link names an existing garment, which `Valid()` keeps, and so an id below the next one. So a freshly created garment has no prior links, and its attributes are exactly the requested ones. |
| GarmentRoutes.PutGarment | backend/src/routes/garments.ts:81-102 | 404 "Garment not found or no changes made" iff nothing was supplied or the id is missing. Otherwise 200 with the updated row. |
| GarmentRoutes.DeleteGarment | backend/src/routes/garments.ts:104-117 | 400 with the service's message when the delete fails, and nothing changes. Otherwise 204: the row is removed together with its attribute and material rows, so the id lists no attributes afterwards. |
| GarmentRoutes.PostMaterial | backend/src/routes/garments.ts:119-135 | 400 if the material id or percentage is missing or 0. 400 with the service's message if the percentage is out of range or the garment or material is unknown. Otherwise 200 with the garment's materials, the new one included. |
| GarmentRoutes.PostAttribute | backend/src/routes/garments.ts:147-174 | 400 if the attribute id is missing or 0. 400 with the conflicts, and nothing written, if the garment already has attributes and a recorded pair lies within those plus the new one. Otherwise the link is added if the garment exists, and 200 lists the attributes. With no existing attributes the one-element list always passes. |
| GarmentRoutes.ListAttributeIds | backend/src/routes/garments.ts:156-157 | The mapped id list contains exactly the linked attribute ids. It is empty iff there are none. |
| MaterialService.GetAll | backend/src/services/materialService.ts:7-13 | Every material row, once each, sorted by name. Also `findAll` in backend/src/infra/repositories/MaterialRepository.ts:7-13. |
| MaterialService.GetById | backend/src/services/materialService.ts:15-22 | None iff no material has the id. Otherwise that row. Also `findById` in backend/src/infra/repositories/MaterialRepository.ts:15-22. |
| MaterialService.Create | backend/src/services/materialService.ts:24-31 | An existing name gives `DuplicateEntry` and no change. Otherwise one row under a fresh id, which `getById` then returns. |
| MaterialService.Delete | backend/src/services/materialService.ts:33-40 | A material used by a garment gives `RowIsReferenced` and no change. Otherwise returns whether it existed, and removes it. |
| MaterialRepository.Create | backend/src/infra/repositories/MaterialRepository.ts:24-38 | A duplicate name raises "Material with name '<name>' already exists" and writes nothing. Otherwise the material is added under a fresh id. |
| MaterialRepository.Delete | backend/src/infra/repositories/MaterialRepository.ts:40-54 | A material in use raises "Cannot delete material that is used by garments" and writes nothing. Otherwise returns whether it existed, and removes it. |
| SupplierService.CurrencyOrDefault | backend/src/application/usecases/supplierService.ts:104 | A missing or empty currency becomes "USD". Otherwise it is kept. |
| SupplierService.StatusOrDefault | backend/src/application/usecases/supplierService.ts:48 | A missing status becomes OFFERED. Otherwise it is kept. |
| SupplierService.Create | backend/src/application/usecases/supplierService.ts:24-34 | One supplier under a fresh id. The email is NULL iff missing or empty. |
| SupplierService.Delete | backend/src/application/usecases/supplierService.ts:36-43 | Returns true iff the supplier existed. Afterwards it is gone and nothing else changes. |
| SupplierService.AddToGarment | backend/src/application/usecases/supplierService.ts:45-57 | One link under a fresh id, with status OFFERED unless one is supplied. |
| SupplierService.UpdateSupplierStatus | backend/src/application/usecases/supplierService.ts:79-89 | Returns true iff the link exists. Then only that link's status changes. |
| SupplierService.AddOffer | backend/src/application/usecases/supplierService.ts:91-109 | One offer under a fresh id, with currency "USD" unless a non-empty one is supplied. |
| SupplierService.GetOffers | backend/src/application/usecases/supplierService.ts:111-120 | Exactly the link's offers, newest first. |
| SupplierService.AddSampleSet | backend/src/application/usecases/supplierService.ts:122-133 | One sample set under a fresh id: status REQUESTED, not received, and notes NULL iff missing or empty. |
| SupplierService.SampleSetList | backend/src/application/usecases/supplierService.ts:140-150 | The built `SET` list starts with the status, and applied in order it gives the specification `SampleUpdated`. |
| SupplierService.UpdateSampleStatus | backend/src/application/usecases/supplierService.ts:135-161 | Returns true iff the sample exists. Then the row becomes `SampleUpdated` of the old row at the current time. Otherwise nothing changes. |
| SupplierService.GetSamples | backend/src/application/usecases/supplierService.ts:163-172 | Exactly the link's sample sets, in strictly descending id order. |
| SupplierService.AssignSampleAllSnoc | backend/src/application/usecases/supplierService.ts:156 | Applying a `SET` list extended by one assignment equals applying the list, then the assignment. |
| SupplierService.ReceivedAtStampedExactly | backend/src/application/usecases/supplierService.ts:140-145 | The status is always set. `received_at` is stamped when the status is RECEIVED, PASSED or FAILED, and kept for REQUESTED. |
| SupplierService.NotesChangeOnlyWhenSupplied | backend/src/application/usecases/supplierService.ts:147-150 | Notes are kept when not supplied. A supplied empty note is stored, unlike at insert. |
| SupplierService.SampleUpdateIdempotent | backend/src/application/usecases/supplierService.ts:135-161 | Repeating the same update at the same time changes nothing more. |
| SupplierService.AddedSampleListedFirst | backend/src/application/usecases/supplierService.ts:163-172 | The most recently added sample set of a link comes first in `getSamples`. |

## Left out

- Running-total and 100% guards: a garment's material percentages should never sum above 100, and should sum to exactly 100 before APPROVED or MASS_PRODUCTION. The code has neither check. `addMaterial` validates only the single percentage (garmentService.ts:116-118). `update` sets any lifecycle state (garmentService.ts:66-69, see `GarmentService.AnyLifecycleStateSettable`). The model follows the code and claims neither rule.
- Concurrency and transactions: the check-then-insert race in `POST /:id/attributes`, transaction isolation and connection pooling are outside a sequential model.
- `GarmentService.getAll`, `SupplierService.getAll`/`getById`/`getGarmentSuppliers`, and the `GET /`, `GET /:id/materials`, `GET /:id/attributes` routes are plain reads. They are not modelled separately; their data is the same as `GetById`, `GetMaterials` and `GetAttributes`.
- `attributePolicy.getAllAttributes`/`getAttributeById` forward to the repository and are covered by `AttributeRepository.FindAll`/`FindById`.
- `AttributeName.toUpperCase` and `toString` are not modelled. `toLowerCase` and the case-insensitive `equals` are modelled with ASCII case folding only. JavaScript's full Unicode case mapping is not modelled.
- `AttributeValidationRules.GetValidationError`, `Entities.Create`: `name.length` is counted in characters, not UTF-16 code units, so a name with characters outside the Basic Multilingual Plane is measured differently.
- Foreign keys: three are modelled, and the schema itself is not part of this model.
  - `garment_materials.material_id → materials` restricts deletes; the code handles its errors.
  - `garment_attributes.garment_id → garments` is assumed, with `ON DELETE CASCADE`. `INSERT IGNORE` skips a link to a missing garment.
  - `garment_materials.garment_id → garments` is assumed, with `ON DELETE CASCADE`. A line for a missing garment fails with the foreign-key error.
  - Other foreign keys are not modelled. Deleting an attribute or supplier leaves its link rows; `getAttributes` joins them away. `addAttribute` accepts any attribute id, and `addToGarment` accepts any ids.
- `AttributeRepository.Create`, `AttributePolicy.CreateAttribute`, `MaterialService.Create`, `MaterialRepository.Create`: the unique index on `name` is modelled with exact string equality. Under a case- and accent-insensitive collation such as MySQL's default `utf8mb4_0900_ai_ci`, a name differing from an existing one only in case or accents would be a duplicate too. The model accepts it.
- `GarmentService.Create`, `GarmentService.Update`, `GarmentRoutes.PostGarment`, `GarmentRoutes.PutGarment`: the lifecycle state is an enum value. The routes pass any `lifecycle_state` string from the request body (routes/garments.ts:44, 84) and leave it to the database.
- `SupplierService.AddSampleSet`: the column defaults of `sample_sets` (status REQUESTED, `received_at` NULL) are assumed; the schema is not part of this model.
- `SupplierService.GetOffers`: `ORDER BY created_at DESC` is modelled as descending insertion id. Ties between offers created in the same second are not modelled.
- `SupplierService.UpdateSampleStatus`: the status is an enum value. The code accepts any string and leaves it to the database. `CURRENT_TIMESTAMP` is a `now` parameter.
- `created_at`/`updated_at` timestamps are not modelled.
- `Store.ListByName`: `ORDER BY name` uses a fixed code-point order on names. The database's collation is not modelled, and neither is the order among equal names.
- Percentages and prices are exact `real` numbers. JavaScript floating point, `NaN` and non-numeric JSON values are not modelled.
- `parseInt` of route parameters (a `NaN` id) is not modelled. Route ids are integers.
- HTTP wiring, the 500 catch-all handlers, request schemas, controllers, audit logging, configuration and the frontend are not modelled.
- Query result shapes (which columns a `SELECT *` returns, and the order of rows in unordered queries) are not modelled. Such results are sets.
