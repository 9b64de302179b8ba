# Entity metadata manager of PnP Core, in Dafny

PnP Core maps its domain model classes (webs, lists, teams, …) onto two back ends:
SharePoint REST and Microsoft Graph. It does this through declarative attributes. The
`EntityManager` singleton reads those attributes and turns each model type into an
`EntityInfo`. An `EntityInfo` holds:

- the SharePoint and Graph targets;
- one field row per mapped property, with its SharePoint and Graph names, its
  expandability, its key flags and its `Load` flag;
- the key property name;
- the overflow field of expando models.

The result is cached per concrete type. For each load, a copy of the static metadata
is specialised to the fields the caller selected and to the context the target object
lives in.

This project models that manager and proves what it promises.

- `wrappers.dfy` (`Wrappers`): `Option` and `Result`.
- `metadata.dfy` (`Metadata`): what reflection would reveal about a type.
  - Type attributes, property attributes, properties and type declarations.
  - A registry from type names to declarations.
  - The runtime model objects, each with its parent.
  - A null string is `Option<string>`.
- `entity_info.dfy` (`EntityInfos`): `EntityInfo`, its target records, its field rows
  and the errors the manager raises.
- `naming.dfy` (`Naming`): `ToCamelCase` and the invariant-culture case-insensitive
  comparison.
- `type_resolution.dfy` (`TypeResolution`): `GetEntityConcreteType` and the two
  `GetEntityConcreteInstance` factories.
- `scanner.dfy` (`Scanner`): the scanning branch of `GetStaticClassInfo`.
  - Reference functions, one per step of the source's loops: target construction,
    the attribute switch, the default row, the key step and the overflow step.
  - `Scan` composes them.
  - The methods `EnsureClassField` and `ScanType` run the source's loops and are
    proved equal to those functions.
- `scanner_properties.dfy` (`ScannerProperties`): what the scan guarantees. This
  covers the get-or-create of rows, the attribute switch, the default rows, the key
  and overflow rows, the targets and the error cases.
- `field_selection.dfy` (`FieldSelection`): the per-call part of `GetClassInfo`.
  - `Specialized` is the reference definition.
  - `Specialize` and its three loops are proved equal to it.
  - Lemmas state the selection rules.
- `manager.dfy` (`Manager`): the `EntityManager` class.
  - The cache is a `map` field that the methods update.
  - The invariant `Valid()` says that every cached entry is what a scan of its type
    produces.
  - The class holds `GetStaticClassInfo`, `GetClassInfo` and `GetEntityKeyExpressions`.
- `scenarios.dfy` (`Scenarios`): worked examples.
  - A Graph-only type whose `DisplayName` becomes `displayName`.
  - A keyed type, with and without a SharePoint mapping.
  - A selection of `Title` on a type keyed by `Id`.

Reflection becomes data. A type is a `TypeDecl` whose fields are:

- its interface flag;
- its `ConcreteType` attribute;
- its `SharePointType` and `GraphType` attributes, in the order reflection returns them;
- which of `IExpandoDataModel`, `IDataModelParent` and `IManageableCollection` it
  implements;
- its properties, each with its attributes in the order reflection returns them.

A field selector is the member name that its expression resolved to. It is `None`
when the expression was not a member access.

The model follows the code as written, including these behaviours:

- **Lookups disagree on case.** `EnsureClassField` matches row names ignoring case.
  The key lookup (line 177) and the overflow lookup (line 198) use exact equality.
- **SharePoint name reset.** In a type with SharePoint targets, `EnsureClassField`
  resets `SharePointName` to the property name. So when a `GraphProperty` attribute is
  processed after a `SharePointProperty` attribute, the custom SharePoint name is discarded. This
  is proved in `ScannerProperties.GraphAttributeResetsSharePointName`.
- **Load filtering.** Rows are unloaded only when the Graph selector list is
  non-empty. Which rows stay loaded is decided by the full selector list.
  - A selector that is not a member access still enters both lists, as the null the
    source adds. It does not disappear.
  - So such a selector alone unloads every non-key row.
- **Overflow step.**
  - A missing overflow row is a `NullReference` error.
  - A type with no Graph target that uses the overflow field is an
    `InvalidOperation` error, from `GraphTargets.First()`.
  - The two checks run in the source's order: with SharePoint targets the row is
    dereferenced before `First()` is called.
- **Cache insert.** The result of `TryAdd` is not used. In the single-threaded
  model the entry is always absent at that point, so the fresh scan is what gets
  cached and returned.

## Model

| member | source | states |
|---|---|---|
| Naming.ToCamelCase | src/sdk/PnP.Core/Model/Base/EntityManager.cs:435-442 | null stays null; the length is kept; every character after the first is unchanged; the first is lowered when the string is longer than one character; null, empty and one-character strings are returned as they are |
| Naming.ToCamelCaseExamples | src/sdk/PnP.Core/Model/Base/EntityManager.cs:435-442 | "Title" becomes "title", "ID" becomes "iD", "X" stays "X", "" stays "", null stays null |
| Naming.ToCamelCaseIdempotent | src/sdk/PnP.Core/Model/Base/EntityManager.cs:435-442 | camel-casing a camel-cased name changes nothing |
| Naming.ToCamelCaseSameIgnoreCase | src/sdk/PnP.Core/Model/Base/EntityManager.cs:435-442 | the camel-cased name equals the original ignoring case |
| TypeResolution.GetEntityConcreteType | src/sdk/PnP.Core/Model/Base/EntityManager.cs:390-403 | an interface with a ConcreteType attribute resolves to that type; any other type resolves to itself |
| TypeResolution.GetEntityConcreteTypeIdempotent | src/sdk/PnP.Core/Model/Base/EntityManager.cs:390-403 | when ConcreteType attributes name classes, resolving a resolved type gives the same type |
| TypeResolution.GetEntityConcreteInstance | src/sdk/PnP.Core/Model/Base/EntityManager.cs:231-247 | a null type is exactly the ArgumentNull error; otherwise the instance has the resolved concrete type, and its parent is the given one exactly when that type implements IDataModelParent |
| TypeResolution.GetEntityConcreteTransientInstance | src/sdk/PnP.Core/Model/Base/EntityManager.cs:254-264 | a null type is exactly the ArgumentNull error; otherwise an instance of the resolved concrete type |
| Scanner.IndexOfIgnoreCase | src/sdk/PnP.Core/Model/Base/EntityManager.cs:407 | the index of the first row whose name equals the given one ignoring case; none exactly when no row matches |
| Scanner.IndexOfName | src/sdk/PnP.Core/Model/Base/EntityManager.cs:177 | the index of the first row whose name equals the given one exactly; none exactly when no row matches |
| Scanner.EnsureClassField | src/sdk/PnP.Core/Model/Base/EntityManager.cs:405-433 | the search loop and the append/update produce the rows and index of the get-or-create definition `EnsureField` |
| Scanner.CollectSharePointTargets | src/sdk/PnP.Core/Model/Base/EntityManager.cs:64-83 | the SharePointType loop builds exactly one target per attribute, in the order reflection returns them, as `SharePointTargetsOf` defines them |
| Scanner.CollectGraphTargets | src/sdk/PnP.Core/Model/Base/EntityManager.cs:85-103 | the GraphType loop builds exactly one target per attribute, in the order reflection returns them, as `GraphTargetsOf` defines them |
| Scanner.ScanPropertyStep | src/sdk/PnP.Core/Model/Base/EntityManager.cs:108-167 | the attribute switch of one property followed by its default row gives the rows and key name of `ScanProperty` |
| Scanner.ScanType | src/sdk/PnP.Core/Model/Base/EntityManager.cs:53-221 | the loops over type attributes, properties and property attributes, and the key and overflow steps, produce exactly `Scan`: the EntityInfo or the error of the type |
| ScannerProperties.EnsureFieldFindsOrAppends | src/sdk/PnP.Core/Model/Base/EntityManager.cs:405-433 | an existing row matching ignoring case is returned in place, otherwise exactly one row is appended; the returned index is the lookup of the name; no other row changes; SharePointName is set to the property name exactly when SharePoint targets exist |
| ScannerProperties.EnsureFieldIdempotent | src/sdk/PnP.Core/Model/Base/EntityManager.cs:405-433 | ensuring the same property twice gives the same rows and index as once |
| ScannerProperties.EnsureFieldWellFormed | src/sdk/PnP.Core/Model/Base/EntityManager.cs:405-433 | the rows stay pairwise distinct ignoring case, keyless and named after properties |
| ScannerProperties.MappingAttributeWritesRow | src/sdk/PnP.Core/Model/Base/EntityManager.cs:117-137 | the row of the property after a SharePointProperty or GraphProperty attribute carries exactly the names and settings lines 120-124 and 130-136 write, with the FieldName fallbacks, and no other row changes |
| ScannerProperties.ApplyAttributeFacts | src/sdk/PnP.Core/Model/Base/EntityManager.cs:114-150 | a mapping attribute gives the property a row and changes no other row; a SharePointProperty writes SharePointName (FieldName, or the property name when FieldName is null or empty), SharePointExpandable, ExpandableByDefault, SharePointUseCustomMapping and SharePointJsonPath; a GraphProperty writes GraphName (FieldName, or the camel-cased property name), GraphExpandable, ExpandableByDefault, GraphUseCustomMapping, GraphJsonPath, GraphGet and GraphBeta, and leaves SharePointName as EnsureClassField set it; a Key or System attribute sets skipField and leaves the rows alone; a Key attribute records its KeyPropertyName and any other attribute leaves the recorded name alone |
| ScannerProperties.ApplyAttributesFacts | src/sdk/PnP.Core/Model/Base/EntityManager.cs:112-151 | after all attributes of a property: the property is mapped iff some attribute maps it, skipped iff some attribute is Key or System, the key name is unchanged without a Key attribute and otherwise is the name of the last Key attribute, and rows are kept |
| ScannerProperties.ApplyAttributesKeyName | src/sdk/PnP.Core/Model/Base/EntityManager.cs:139-144 | after a property's attributes the key name is unchanged when none is a Key attribute, and is the KeyPropertyName of the last Key attribute otherwise |
| ScannerProperties.ScanPropertiesKeyName | src/sdk/PnP.Core/Model/Base/EntityManager.cs:105-168 | after the property loop the key name is none when no property has a Key attribute, and otherwise the KeyPropertyName of the type's last Key attribute |
| ScannerProperties.ScanPropertyFacts | src/sdk/PnP.Core/Model/Base/EntityManager.cs:106-168 | one property iteration keeps every row, keeps the rows well formed and gives a row to every property that needs one |
| ScannerProperties.UndecoratedPropertyGetsDefaultRow | src/sdk/PnP.Core/Model/Base/EntityManager.cs:153-167 | an undecorated property gets a row; in a Graph-only type its GraphName is the camel-cased name; otherwise its SharePointName is the raw name and GraphName is untouched; no other row changes |
| ScannerProperties.NoDecorationChangesNothing | src/sdk/PnP.Core/Model/Base/EntityManager.cs:112-151 | attributes that neither map nor skip leave the attribute-loop state unchanged |
| ScannerProperties.SkipAttributeSuppressesRow | src/sdk/PnP.Core/Model/Base/EntityManager.cs:139-153 | a property with a Key or System attribute and no mapping attribute gets no row |
| ScannerProperties.SkipOnlyKeepsRows | src/sdk/PnP.Core/Model/Base/EntityManager.cs:139-149 | Key and System attributes never touch the rows |
| ScannerProperties.GraphAttributeResetsSharePointName | src/sdk/PnP.Core/Model/Base/EntityManager.cs:117-138 | with SharePoint targets, SharePointProperty then GraphProperty leaves SharePointName as the raw property name; the opposite order keeps the attribute's field name |
| ScannerProperties.ScanPropertiesFacts | src/sdk/PnP.Core/Model/Base/EntityManager.cs:105-168 | after the property loop the rows are distinct ignoring case, keyless, named after properties and present for every property that needs one |
| ScannerProperties.ScanPropertiesRowNames | src/sdk/PnP.Core/Model/Base/EntityManager.cs:105-168 | after the property loop every row is named after a property that has a mapping attribute or has neither a KeyProperty nor a SystemProperty attribute, and the names stay distinct and keyless |
| ScannerProperties.SameNamesSameLookup | src/sdk/PnP.Core/Model/Base/EntityManager.cs:177 | the exact-name lookup depends only on the row names |
| ScannerProperties.MarkKeyFieldMarksExactMatch | src/sdk/PnP.Core/Model/Base/EntityManager.cs:170-192 | an empty key changes nothing; otherwise the key name is recorded, the first row with exactly that name becomes the Graph key, and also the SharePoint key when SharePoint targets exist, and gets the camel-cased GraphName if it had none; every other row is unchanged |
| ScannerProperties.MarkKeyFieldKeepsNames | src/sdk/PnP.Core/Model/Base/EntityManager.cs:170-192 | the key step changes only rows' flags and GraphName and the recorded key name |
| ScannerProperties.FillOverflowFieldNames | src/sdk/PnP.Core/Model/Base/EntityManager.cs:194-211 | without the overflow field nothing changes; with it the step succeeds iff an exactly named overflow row and a Graph target exist; the row's names come from the first targets' OverflowProperty and no other row changes |
| ScannerProperties.ScanFailures | src/sdk/PnP.Core/Model/Base/EntityManager.cs:58-221 | the scan fails with ModelMetadataIncorrect exactly when the type has no SharePointType and no GraphType attribute; a decorated type fails exactly when it is an expando model without a Graph target or without an overflow row |
| ScannerProperties.ScanTargets | src/sdk/PnP.Core/Model/Base/EntityManager.cs:60-103 | one target per type attribute, in the order reflection returns them; target defaults to the type, Get, LinqGet, Update and Delete fall back to the Uri, the Graph Id defaults to "id"; the overflow flag is the expando flag |
| ScannerProperties.ScanRowsMatchProperties | src/sdk/PnP.Core/Model/Base/EntityManager.cs:105-168 | the scanned rows have distinct names ignoring case; a row exists exactly for the properties that need one: each row is named after a mapped or undecorated property (never after one decided only by KeyProperty or SystemProperty), and every such property has one |
| ScannerProperties.ScanKeyFields | src/sdk/PnP.Core/Model/Base/EntityManager.cs:170-192 | a scanned row is the Graph key iff a key name is recorded and the row is the first exactly named match; it is the SharePoint key iff it is the Graph key and SharePoint targets exist |
| ScannerProperties.ScanKeyName | src/sdk/PnP.Core/Model/Base/EntityManager.cs:139-174 | a scanned type without Key attributes has no ActualKeyFieldName; otherwise ActualKeyFieldName is the KeyPropertyName of its last Key attribute, or none when that name is null or empty |
| ScannerProperties.ScanOverflowField | src/sdk/PnP.Core/Model/Base/EntityManager.cs:194-211 | an expando type that scans has a Graph target and an overflow row carrying the first targets' OverflowProperty names |
| FieldSelection.CollectFieldsToLoad | src/sdk/PnP.Core/Model/Base/EntityManager.cs:285-318 | the SharePoint list is every selector; the Graph list is non-empty exactly when some selector is not a non-expandable collection |
| FieldSelection.UnloadUnselected | src/sdk/PnP.Core/Model/Base/EntityManager.cs:325-331 | the loop clears Load on exactly the rows whose name is not selected |
| FieldSelection.ForceKeyLoads | src/sdk/PnP.Core/Model/Base/EntityManager.cs:342-345 | the loop sets Load on exactly the key rows |
| FieldSelection.Specialize | src/sdk/PnP.Core/Model/Base/EntityManager.cs:278-364 | the copy, selection, key forcing and context steps produce exactly `Specialized` of the static metadata |
| FieldSelection.SpecializedFieldSelection | src/sdk/PnP.Core/Model/Base/EntityManager.cs:281-345 | key rows always load; without a Graph selection other Load flags are the static ones; any selector sets the SharePoint expression flag, and with no selectors that flag is the static one; a Graph selection sets the Graph flag and keeps a non-key row loaded iff it was loaded and its name is selected; nothing else in a row changes |
| FieldSelection.NonExpandableSelectorsDoNotRestrict | src/sdk/PnP.Core/Model/Base/EntityManager.cs:304-332 | selectors that all name non-expandable collections unload nothing |
| FieldSelection.SpecializedContext | src/sdk/PnP.Core/Model/Base/EntityManager.cs:347-362 | the recorded context is the parent's type, or the grandparent's when the parent is a collection; with no target, a target without a parent, or a collection parent without a parent, the static target stays |
| Manager.EntityManager.constructor | src/sdk/PnP.Core/Model/Base/EntityManager.cs:33-36 | the manager starts with an empty, valid cache |
| Manager.EntityManager.CacheAfterLookupFacts | src/sdk/PnP.Core/Model/Base/EntityManager.cs:48-51 | a lookup keeps every cached entry, adds at most the looked-up type, adds it exactly when its scan succeeds, and a second lookup is a hit |
| Manager.EntityManager.GetStaticClassInfo | src/sdk/PnP.Core/Model/Base/EntityManager.cs:43-223 | the result is the scan of the resolved concrete type; a hit returns the cached entry and changes nothing; a successful miss caches the result under that type only; a failure leaves the cache alone; the cache stays valid |
| Manager.EntityManager.GetClassInfo | src/sdk/PnP.Core/Model/Base/EntityManager.cs:272-365 | a scan failure is passed on; otherwise the result is the specialised copy of the static metadata, and the cache changes only as a static lookup changes it |
| Manager.EntityManager.GetEntityKeyExpressions | src/sdk/PnP.Core/Model/Base/EntityManager.cs:367-379 | a scan failure is passed on; a type without a key name is InvalidDomainModelConfiguration; otherwise the accessor of the key property on the entity's runtime type |
| Scenarios.GraphOnlyDefaultRow | src/sdk/PnP.Core/Model/Base/EntityManager.cs:153-161 | a Graph-only type with an undecorated DisplayName gets one row with GraphName "displayName" and no SharePoint name |
| Scenarios.KeyedTypeScenario | src/sdk/PnP.Core/Model/Base/EntityManager.cs:139-192 | a Key property naming Id makes the Id row the Graph key always and the SharePoint key only with a SharePoint mapping, with GraphName "id", and the Key property gets no row |
| Scenarios.SelectTitleScenario | src/sdk/PnP.Core/Model/Base/EntityManager.cs:320-345 | selecting Title on rows Title, Id (key) and Description loads Title and Id and not Description |

## Left out

- Reflection (`GetCustomAttributes`, `GetProperties`, `GetProperty`, `ImplementsInterface`) is replaced by the `TypeDecl` registry. Property order is the order the registry gives.
- The order of type and property attributes is the order the registry gives. C# does not make attribute order significant, and reflection does not promise one. So which mapping attribute is processed last, which Key attribute is last, and which target is first are inputs to the model.
- `Activator.CreateInstance` and the casts in `GetEntityConcreteInstance` are left out. The instance is a `ModelObject` value with the resolved type and, for an `IDataModelParent`, the parent.
- Building expression trees in `GetEntityKeyExpressions` (lines 377-385) is left out, and its result is a `KeyAccessor` record. Inspecting expression bodies in `GetClassInfo` (lines 289-302) is left out too: selectors arrive already resolved to member names.
- A null type passed to `GetStaticClassInfo` or `GetClassInfo` is not modelled. In the source it raises a NullReferenceException at `type.IsInterface` (line 393), reached from lines 45 and 275. A `TypeId` is never null here.
- A null entity passed to `GetEntityKeyExpressions` is not modelled: a `ModelObject` always exists.
- A null `expressions` array in `GetClassInfo` is not modelled separately. It behaves like an empty selector list.
- Thread safety is not modelled: the `Lazy` singleton and the `ConcurrentDictionary`. The cache is a `map` in a single-threaded class, so the concurrent race on `TryAdd` is outside the model.
- The exception swallowed inside `EnsureClassField` (lines 420-423) depends on reflection failures and is not modelled. Row creation always succeeds.
- The `EntityInfo` copy constructor is not part of this model. The copy is a value, so changes to it can never reach the cached original.
- `GraphNonExpandableCollections` is not part of this model. Its names are an input to `GetClassInfo`.
- Case-insensitive comparison and `ToLowerInvariant` are modelled for ASCII letters only, with no other Unicode case mapping.
- The name of the expando overflow field is taken to be `"Values"`, because `ExpandoBaseDataModel` is not part of this model.
- A new field row starts with `Load` set. The remaining `EntityFieldInfo` defaults are taken to be unset or false, because `EntityFieldInfo` is not part of this model.
- The Graph target record has no `Uri`, because the Graph target loop (lines 89-99) does not copy it.
- The error messages of the exceptions are not modelled. Each exception is an `Error` value.
- `src/sdk/PnP.Core/Model/SharePoint/Core/Public/IListCollection.cs` is left out. It declares only the interface of the network-backed list operations and has no logic.
