/**
 * The metadata scanner of GetStaticClassInfo: builds the static EntityInfo of a
 * concrete type from its declared attributes. The functions are the reference
 * definition, step by step in the order the code runs; EnsureClassField and
 * ScanType are the imperative code, proved equal to them.
 */
module Scanner {
  import opened Wrappers
  import opened Metadata
  import opened EntityInfos
  import opened Naming

  /** ExpandoBaseDataModel.OverflowFieldName, the property that holds the overflow values. */
  const OverflowFieldName: string := "Values"

  // ---------------------------------------------------------------- targets

  /** The EntitySharePointTypeInfo built from one SharePointType attribute of type `t`. */
  function SharePointTargetOf(t: TypeId, a: SharePointTypeAttribute): EntitySharePointTypeInfo {
    EntitySharePointTypeInfo(
      entityType := a.entityType,
      target := a.target.GetOr(t),
      uri := a.uri,
      get := IfNullOrEmpty(a.get, a.uri),
      linqGet := IfNullOrEmpty(a.linqGet, a.uri),
      overflowProperty := a.overflowProperty,
      update := IfNullOrEmpty(a.update, a.uri),
      delete := IfNullOrEmpty(a.delete, a.uri))
  }

  /** The EntityGraphTypeInfo built from one GraphType attribute of type `t`. */
  function GraphTargetOf(t: TypeId, a: GraphTypeAttribute): EntityGraphTypeInfo {
    EntityGraphTypeInfo(
      target := a.target.GetOr(t),
      id := IfNullOrEmpty(a.id, Some("id")),
      get := IfNullOrEmpty(a.get, a.uri),
      linqGet := IfNullOrEmpty(a.linqGet, a.uri),
      overflowProperty := a.overflowProperty,
      update := IfNullOrEmpty(a.update, a.uri),
      delete := IfNullOrEmpty(a.delete, a.uri),
      beta := a.beta)
  }

  function SharePointTargetsOf(t: TypeId, attrs: seq<SharePointTypeAttribute>): seq<EntitySharePointTypeInfo> {
    seq(|attrs|, i requires 0 <= i < |attrs| => SharePointTargetOf(t, attrs[i]))
  }

  function GraphTargetsOf(t: TypeId, attrs: seq<GraphTypeAttribute>): seq<EntityGraphTypeInfo> {
    seq(|attrs|, i requires 0 <= i < |attrs| => GraphTargetOf(t, attrs[i]))
  }

  // ---------------------------------------------------------------- field lookup

  /** `Fields.FirstOrDefault(p => p.Name.Equals(name, InvariantCultureIgnoreCase))`, as an index. */
  function IndexOfIgnoreCase(fields: seq<EntityFieldInfo>, name: string): (r: Option<nat>)
    ensures r.Some? ==> r.value < |fields| && SameIgnoreCase(fields[r.value].name, name)
    ensures r.Some? ==> forall j :: 0 <= j < r.value ==> !SameIgnoreCase(fields[j].name, name)
    ensures r.None? ==> forall j :: 0 <= j < |fields| ==> !SameIgnoreCase(fields[j].name, name)
  {
    if |fields| == 0 then None
    else if SameIgnoreCase(fields[0].name, name) then Some(0)
    else match IndexOfIgnoreCase(fields[1..], name)
      case None => None
      case Some(k) => Some(k + 1)
  }

  /** `Fields.FirstOrDefault(p => p.Name == name)`, as an index. */
  function IndexOfName(fields: seq<EntityFieldInfo>, name: string): (r: Option<nat>)
    ensures r.Some? ==> r.value < |fields| && fields[r.value].name == name
    ensures r.Some? ==> forall j :: 0 <= j < r.value ==> fields[j].name != name
    ensures r.None? ==> forall j :: 0 <= j < |fields| ==> fields[j].name != name
  {
    if |fields| == 0 then None
    else if fields[0].name == name then Some(0)
    else match IndexOfName(fields[1..], name)
      case None => None
      case Some(k) => Some(k + 1)
  }

  // ---------------------------------------------------------------- EnsureClassField

  /** The row EnsureClassField creates for a property: name and type set, nothing else. */
  function NewField(p: PropertyDecl): EntityFieldInfo {
    EntityFieldInfo(
      name := p.name, dataType := p.propertyType,
      sharePointName := None, sharePointExpandable := false, sharePointUseCustomMapping := false,
      sharePointJsonPath := None,
      graphName := None, graphExpandable := false, graphUseCustomMapping := false, graphJsonPath := None,
      graphGet := None, graphBeta := false,
      expandableByDefault := false, isSharePointKey := false, isGraphKey := false,
      load := true)
  }

  /**
   * EnsureClassField: the row whose name matches the property's ignoring case, or a
   * new row appended for it; when the type has SharePoint targets the row's
   * SharePointName is reset to the property name. Returns the rows and the row's index.
   */
  function EnsureField(fields: seq<EntityFieldInfo>, hasSharePointTargets: bool, p: PropertyDecl)
    : (r: (seq<EntityFieldInfo>, nat))
    ensures r.1 < |r.0|
  {
    var (fs, i) := match IndexOfIgnoreCase(fields, p.name)
                   case Some(k) => (fields, k)
                   case None => (fields + [NewField(p)], |fields|);
    if hasSharePointTargets then (fs[i := fs[i].(sharePointName := Some(p.name))], i) else (fs, i)
  }

  method EnsureClassField(fields: seq<EntityFieldInfo>, hasSharePointTargets: bool, p: PropertyDecl)
    returns (fs: seq<EntityFieldInfo>, i: nat)
    ensures (fs, i) == EnsureField(fields, hasSharePointTargets, p)
  {
    var k := 0;
    while k < |fields| && !SameIgnoreCase(fields[k].name, p.name)
      invariant 0 <= k <= |fields|
      invariant forall j :: 0 <= j < k ==> !SameIgnoreCase(fields[j].name, p.name)
    {
      k := k + 1;
    }
    if k == |fields| {
      fs := fields + [NewField(p)];
    } else {
      fs := fields;
    }
    i := k;
    if hasSharePointTargets {
      fs := fs[i := fs[i].(sharePointName := Some(p.name))];
    }
  }

  // ---------------------------------------------------------------- property attributes

  /** What a SharePointProperty attribute writes on the row. */
  function WithSharePointProperty(f: EntityFieldInfo, p: PropertyDecl, a: PropertyAttribute): EntityFieldInfo
    requires a.SharePointProperty?
  {
    f.(sharePointName := IfNullOrEmpty(a.fieldName, Some(p.name)),
       sharePointExpandable := a.expandable,
       expandableByDefault := a.expandByDefault,
       sharePointUseCustomMapping := a.useCustomMapping,
       sharePointJsonPath := a.jsonPath)
  }

  /** What a GraphProperty attribute writes on the row. */
  function WithGraphProperty(f: EntityFieldInfo, p: PropertyDecl, a: PropertyAttribute): EntityFieldInfo
    requires a.GraphProperty?
  {
    f.(graphName := IfNullOrEmpty(a.fieldName, ToCamelCase(Some(p.name))),
       graphExpandable := a.expandable,
       expandableByDefault := a.expandByDefault,
       graphUseCustomMapping := a.useCustomMapping,
       graphJsonPath := a.jsonPath,
       graphGet := a.get,
       graphBeta := a.beta)
  }

  /** What an undecorated property writes on its row. */
  function WithDefaultMapping(f: EntityFieldInfo, hasSharePointTargets: bool, p: PropertyDecl): EntityFieldInfo {
    if !hasSharePointTargets then f.(graphName := ToCamelCase(Some(p.name)))
    else f.(sharePointName := Some(p.name))
  }

  /**
   * The state of the attribute loop of one property: the rows, the key property
   * name recorded so far, whether a mapping attribute gave the property a row
   * (`classField != null`) and `skipField`.
   */
  datatype AttributeScan = AttributeScan(
    fields: seq<EntityFieldInfo>, keyPropertyName: NString, mapped: bool, skipField: bool)

  function ApplyAttribute(hasSharePointTargets: bool, p: PropertyDecl, s: AttributeScan, a: PropertyAttribute)
    : AttributeScan
  {
    match a
    case SharePointProperty(_, _, _, _, _) =>
      var (fs, i) := EnsureField(s.fields, hasSharePointTargets, p);
      s.(fields := fs[i := WithSharePointProperty(fs[i], p, a)], mapped := true)
    case GraphProperty(_, _, _, _, _, _, _) =>
      var (fs, i) := EnsureField(s.fields, hasSharePointTargets, p);
      s.(fields := fs[i := WithGraphProperty(fs[i], p, a)], mapped := true)
    case KeyProperty(k) => s.(keyPropertyName := k, skipField := true)
    case SystemProperty => s.(skipField := true)
    case OtherAttribute => s
  }

  function ApplyAttributes(hasSharePointTargets: bool, p: PropertyDecl, s: AttributeScan, attrs: seq<PropertyAttribute>)
    : AttributeScan
    decreases |attrs|
  {
    if |attrs| == 0 then s
    else ApplyAttribute(hasSharePointTargets, p, ApplyAttributes(hasSharePointTargets, p, s, attrs[..|attrs| - 1]),
                        attrs[|attrs| - 1])
  }

  /** The state of the property loop: the rows and `keyPropertyName`. */
  datatype ScanState = ScanState(fields: seq<EntityFieldInfo>, keyPropertyName: NString)

  /** One iteration of the property loop: the attributes, then the default row of an undecorated property. */
  function ScanProperty(hasSharePointTargets: bool, s: ScanState, p: PropertyDecl): ScanState {
    var a := ApplyAttributes(hasSharePointTargets, p, AttributeScan(s.fields, s.keyPropertyName, false, false),
                             p.attributes);
    if !a.mapped && !a.skipField then
      var (fs, i) := EnsureField(a.fields, hasSharePointTargets, p);
      ScanState(fs[i := WithDefaultMapping(fs[i], hasSharePointTargets, p)], a.keyPropertyName)
    else
      ScanState(a.fields, a.keyPropertyName)
  }

  function ScanProperties(hasSharePointTargets: bool, props: seq<PropertyDecl>): ScanState
    decreases |props|
  {
    if |props| == 0 then ScanState([], None)
    else ScanProperty(hasSharePointTargets, ScanProperties(hasSharePointTargets, props[..|props| - 1]),
                      props[|props| - 1])
  }

  // ---------------------------------------------------------------- key and overflow fields

  /** The key step: record the key name and mark the row with exactly that name. */
  function MarkKeyField(info: EntityInfo, key: NString): EntityInfo {
    if IsNullOrEmpty(key) then info
    else
      var info' := info.(actualKeyFieldName := key);
      match IndexOfName(info'.fields, key.value)
      case None => info'
      case Some(i) =>
        var f := info'.fields[i];
        var f' := f.(isSharePointKey := if |info.sharePointTargets| > 0 then true else f.isSharePointKey,
                     isGraphKey := true,
                     graphName := if IsNullOrEmpty(f.graphName) then ToCamelCase(Some(f.name)) else f.graphName);
        info'.(fields := info'.fields[i := f'])
  }

  /**
   * The overflow step: the overflow row takes its names from the first target's
   * OverflowProperty. A missing row is a null dereference; a missing Graph target
   * makes `GraphTargets.First()` throw.
   */
  function FillOverflowField(info: EntityInfo): Result<EntityInfo, Error> {
    if !info.useOverflowField then Success(info)
    else
      var overflowField := IndexOfName(info.fields, OverflowFieldName);
      if |info.sharePointTargets| == 0 then
        if |info.graphTargets| == 0 then Failure(InvalidOperation)
        else if overflowField.None? then Failure(NullReference)
        else
          var i := overflowField.value;
          Success(info.(fields := info.fields[i := info.fields[i].(
            graphName := info.graphTargets[0].overflowProperty)]))
      else
        if overflowField.None? then Failure(NullReference)
        else if |info.graphTargets| == 0 then Failure(InvalidOperation)
        else
          var i := overflowField.value;
          Success(info.(fields := info.fields[i := info.fields[i].(
            sharePointName := info.sharePointTargets[0].overflowProperty,
            graphName := info.graphTargets[0].overflowProperty)]))
  }

  // ---------------------------------------------------------------- the scan

  /** The EntityInfo of type `t` after the target loops and the property loop, before the key and overflow steps. */
  function ScannedInfo(types: TypeRegistry, t: TypeId): EntityInfo {
    var decl := DeclOf(types, t);
    EntityInfo(decl.implementsExpando, SharePointTargetsOf(t, decl.sharePointTypes), GraphTargetsOf(t, decl.graphTypes),
               ScanProperties(|decl.sharePointTypes| > 0, decl.properties).fields, None, false, false, None)
  }

  /** The key property name the property loop of type `t` records. */
  function ScannedKey(types: TypeRegistry, t: TypeId): NString {
    var decl := DeclOf(types, t);
    ScanProperties(|decl.sharePointTypes| > 0, decl.properties).keyPropertyName
  }

  /** The static EntityInfo of concrete type `t`, or the error the scan raises. */
  function Scan(types: TypeRegistry, t: TypeId): Result<EntityInfo, Error> {
    var decl := DeclOf(types, t);
    if |decl.sharePointTypes| == 0 && |decl.graphTypes| == 0 then Failure(ModelMetadataIncorrect)
    else FillOverflowField(MarkKeyField(ScannedInfo(types, t), ScannedKey(types, t)))
  }

  /** The SharePointType attribute loop: one target per attribute, in order. */
  method CollectSharePointTargets(t: TypeId, attrs: seq<SharePointTypeAttribute>)
    returns (sharePointTargets: seq<EntitySharePointTypeInfo>)
    ensures sharePointTargets == SharePointTargetsOf(t, attrs)
  {
    sharePointTargets := [];
    for k := 0 to |attrs|
      invariant |sharePointTargets| == k
      invariant forall j :: 0 <= j < k ==> sharePointTargets[j] == SharePointTargetOf(t, attrs[j])
    {
      sharePointTargets := sharePointTargets + [SharePointTargetOf(t, attrs[k])];
    }
  }

  /** The GraphType attribute loop: one target per attribute, in order. */
  method CollectGraphTargets(t: TypeId, attrs: seq<GraphTypeAttribute>)
    returns (graphTargets: seq<EntityGraphTypeInfo>)
    ensures graphTargets == GraphTargetsOf(t, attrs)
  {
    graphTargets := [];
    for k := 0 to |attrs|
      invariant |graphTargets| == k
      invariant forall j :: 0 <= j < k ==> graphTargets[j] == GraphTargetOf(t, attrs[j])
    {
      graphTargets := graphTargets + [GraphTargetOf(t, attrs[k])];
    }
  }

  /** One iteration of the property loop: the attribute switch, then the default row. */
  method ScanPropertyStep(hasSharePointTargets: bool, fields0: seq<EntityFieldInfo>, key0: NString, p: PropertyDecl)
    returns (fields: seq<EntityFieldInfo>, keyPropertyName: NString)
    ensures ScanState(fields, keyPropertyName) == ScanProperty(hasSharePointTargets, ScanState(fields0, key0), p)
  {
    fields, keyPropertyName := fields0, key0;
    ghost var before := AttributeScan(fields0, key0, false, false);
    var mapped := false;
    var skipField := false;
    for j := 0 to |p.attributes|
      invariant AttributeScan(fields, keyPropertyName, mapped, skipField)
                == ApplyAttributes(hasSharePointTargets, p, before, p.attributes[..j])
    {
      assert p.attributes[..j + 1][..j] == p.attributes[..j];
      var a := p.attributes[j];
      match a {
        case SharePointProperty(_, _, _, _, _) =>
          var fs, i := EnsureClassField(fields, hasSharePointTargets, p);
          fields := fs[i := WithSharePointProperty(fs[i], p, a)];
          mapped := true;
        case GraphProperty(_, _, _, _, _, _, _) =>
          var fs, i := EnsureClassField(fields, hasSharePointTargets, p);
          fields := fs[i := WithGraphProperty(fs[i], p, a)];
          mapped := true;
        case KeyProperty(name) =>
          keyPropertyName := name;
          skipField := true;
        case SystemProperty =>
          skipField := true;
        case OtherAttribute =>
      }
    }
    assert p.attributes[..|p.attributes|] == p.attributes;
    if !mapped && !skipField {
      var fs, i := EnsureClassField(fields, hasSharePointTargets, p);
      fields := fs[i := WithDefaultMapping(fs[i], hasSharePointTargets, p)];
    }
  }

  /** The scanning branch of GetStaticClassInfo, for the already resolved type `t`. */
  method ScanType(types: TypeRegistry, t: TypeId) returns (r: Result<EntityInfo, Error>)
    ensures r == Scan(types, t)
  {
    var decl := DeclOf(types, t);
    if |decl.sharePointTypes| == 0 && |decl.graphTypes| == 0 {
      return Failure(ModelMetadataIncorrect);
    }
    var sharePointTargets := CollectSharePointTargets(t, decl.sharePointTypes);
    var graphTargets := CollectGraphTargets(t, decl.graphTypes);

    var hasSharePointTargets := |sharePointTargets| > 0;
    var fields: seq<EntityFieldInfo> := [];
    var keyPropertyName: NString := None;
    for k := 0 to |decl.properties|
      invariant ScanState(fields, keyPropertyName) == ScanProperties(hasSharePointTargets, decl.properties[..k])
    {
      assert decl.properties[..k + 1][..k] == decl.properties[..k];
      fields, keyPropertyName := ScanPropertyStep(hasSharePointTargets, fields, keyPropertyName, decl.properties[k]);
    }
    assert decl.properties[..|decl.properties|] == decl.properties;

    var info := EntityInfo(decl.implementsExpando, sharePointTargets, graphTargets, fields, None, false, false, None);
    r := FillOverflowField(MarkKeyField(info, keyPropertyName));
  }
}
