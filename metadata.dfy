/**
 * The declarative metadata the entity manager reads by reflection, written out
 * as plain data: the type-level and property-level mapping attributes of every
 * model type, and the few interface facts the manager tests at run time.
 */
module Metadata {
  import opened Wrappers

  /** A .NET type, identified by its full name. */
  type TypeId = string

  /** A .NET string reference, which may be null (None). */
  type NString = Option<string>

  predicate IsNullOrEmpty(s: NString) {
    s.None? || s.value == ""
  }

  /** `IsNullOrEmpty(value) ? fallback : value`, the defaulting idiom of the scanner. */
  function IfNullOrEmpty(value: NString, fallback: NString): NString {
    if !IsNullOrEmpty(value) then value else fallback
  }

  /** A SharePointType attribute on a model class. */
  datatype SharePointTypeAttribute = SharePointTypeAttribute(
    entityType: NString,
    target: Option<TypeId>,
    uri: NString,
    get: NString,
    linqGet: NString,
    overflowProperty: NString,
    update: NString,
    delete: NString)

  /** A GraphType attribute on a model class. */
  datatype GraphTypeAttribute = GraphTypeAttribute(
    target: Option<TypeId>,
    id: NString,
    uri: NString,
    get: NString,
    linqGet: NString,
    overflowProperty: NString,
    update: NString,
    delete: NString,
    beta: bool)

  /** The attributes a property may carry, in the order reflection returns them; any other attribute is `OtherAttribute`. */
  datatype PropertyAttribute =
    | SharePointProperty(fieldName: NString, expandable: bool, expandByDefault: bool,
                         useCustomMapping: bool, jsonPath: NString)
    | GraphProperty(fieldName: NString, expandable: bool, expandByDefault: bool,
                    useCustomMapping: bool, jsonPath: NString, get: NString, beta: bool)
    | KeyProperty(keyPropertyName: NString)
    | SystemProperty
    | OtherAttribute

  predicate IsMappingAttribute(a: PropertyAttribute) {
    a.SharePointProperty? || a.GraphProperty?
  }

  predicate IsSkipAttribute(a: PropertyAttribute) {
    a.KeyProperty? || a.SystemProperty?
  }

  /** A public property of a model class. */
  datatype PropertyDecl = PropertyDecl(name: string, propertyType: TypeId, attributes: seq<PropertyAttribute>)

  /** Everything the manager learns about a type by reflection. */
  datatype TypeDecl = TypeDecl(
    isInterface: bool,
    concreteType: Option<TypeId>,        // the ConcreteType attribute, if any
    sharePointTypes: seq<SharePointTypeAttribute>,
    graphTypes: seq<GraphTypeAttribute>,
    implementsExpando: bool,             // implements IExpandoDataModel
    implementsDataModelParent: bool,     // implements IDataModelParent
    isManageableCollection: bool,        // implements IManageableCollection
    properties: seq<PropertyDecl>)

  /** The types loaded in the process, by name. */
  type TypeRegistry = map<TypeId, TypeDecl>

  /** A type the registry does not describe carries no attribute and implements nothing. */
  const UndeclaredType := TypeDecl(false, None, [], [], false, false, false, [])

  function DeclOf(types: TypeRegistry, t: TypeId): TypeDecl {
    if t in types then types[t] else UndeclaredType
  }

  /** A model object at run time: its runtime type and, for an IDataModelParent, its parent. */
  datatype ModelObject = ModelObject(runtimeType: TypeId, parent: Option<ModelObject>)
}
