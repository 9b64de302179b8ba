/** The metadata the entity manager produces: targets, field rows and the entity record. */
module EntityInfos {
  import opened Wrappers
  import opened Metadata

  /** The exceptions the core can raise. */
  datatype Error =
    | ModelMetadataIncorrect            // ClientException: type carries no SharePointType or GraphType attribute
    | NullReference                     // the overflow field row is missing
    | InvalidOperation                  // First() on an empty target list
    | ArgumentNull                      // a null type passed to instance creation
    | InvalidDomainModelConfiguration   // ApplicationException: no key field configured

  datatype EntitySharePointTypeInfo = EntitySharePointTypeInfo(
    entityType: NString,
    target: TypeId,
    uri: NString,
    get: NString,
    linqGet: NString,
    overflowProperty: NString,
    update: NString,
    delete: NString)

  datatype EntityGraphTypeInfo = EntityGraphTypeInfo(
    target: TypeId,
    id: NString,
    get: NString,
    linqGet: NString,
    overflowProperty: NString,
    update: NString,
    delete: NString,
    beta: bool)

  datatype EntityFieldInfo = EntityFieldInfo(
    name: string,
    dataType: TypeId,
    sharePointName: NString,
    sharePointExpandable: bool,
    sharePointUseCustomMapping: bool,
    sharePointJsonPath: NString,
    graphName: NString,
    graphExpandable: bool,
    graphUseCustomMapping: bool,
    graphJsonPath: NString,
    graphGet: NString,
    graphBeta: bool,
    expandableByDefault: bool,
    isSharePointKey: bool,
    isGraphKey: bool,
    load: bool)

  predicate IsKeyField(f: EntityFieldInfo) {
    f.isGraphKey || f.isSharePointKey
  }

  datatype EntityInfo = EntityInfo(
    useOverflowField: bool,
    sharePointTargets: seq<EntitySharePointTypeInfo>,
    graphTargets: seq<EntityGraphTypeInfo>,
    fields: seq<EntityFieldInfo>,
    actualKeyFieldName: NString,
    sharePointFieldsLoadedViaExpression: bool,
    graphFieldsLoadedViaExpression: bool,
    target: Option<TypeId>)

  /** The accessor `i => (object)i.<propertyName>` built for an entity type. */
  datatype KeyAccessor = KeyAccessor(entityType: TypeId, propertyName: string)
}
