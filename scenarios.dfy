/**
 * Concrete scenarios of the entity manager, worked through the model: a Graph-only
 * type with an undecorated property, a keyed type with and without a SharePoint
 * mapping, and a field selection on a keyed type.
 */
module Scenarios {
  import opened Wrappers
  import opened Metadata
  import opened EntityInfos
  import opened Naming
  import opened Scanner
  import opened FieldSelection

  const TeamGraphType := GraphTypeAttribute(None, None, Some("teams"), None, None, None, None, None, false)
  const ListSharePointType :=
    SharePointTypeAttribute(Some("SP.List"), None, Some("_api/web/lists/getbyid(guid'{Id}')"),
                            None, None, None, None, None)

  lemma CamelCasesDisplayName()
    ensures ToCamelCase(Some("DisplayName")) == Some("displayName")
    ensures ToCamelCase(Some("Id")) == Some("id")
  {
    assert LowerChar('D') == 'd';
    assert ['d'] + "DisplayName"[1..] == "displayName";
    assert LowerChar('I') == 'i';
    assert ['i'] + "Id"[1..] == "id";
  }

  /** A Graph-only type with an undecorated property DisplayName gets one row, Graph name "displayName", no SharePoint name. */
  lemma GraphOnlyDefaultRow()
    ensures var p := PropertyDecl("DisplayName", "String", []);
      var types := map["Team" := TypeDecl(false, None, [], [TeamGraphType], false, true, false, [p])];
      var r := Scan(types, "Team");
      && r.Success?
      && |r.value.fields| == 1
      && r.value.fields[0].name == "DisplayName"
      && r.value.fields[0].graphName == Some("displayName")
      && r.value.fields[0].sharePointName == None
      && r.value.actualKeyFieldName == None
  {
    var p := PropertyDecl("DisplayName", "String", []);
    var types := map["Team" := TypeDecl(false, None, [], [TeamGraphType], false, true, false, [p])];
    assert [p][..0] == [];
    assert ApplyAttributes(false, p, AttributeScan([], None, false, false), []) == AttributeScan([], None, false, false);
    assert IndexOfIgnoreCase([], p.name) == None;
    assert [] + [NewField(p)] == [NewField(p)];
    assert EnsureField([], false, p) == ([NewField(p)], 0);
    CamelCasesDisplayName();
    assert ScanProperties(false, [p]) == ScanState([NewField(p).(graphName := Some("displayName"))], None);
  }

  /**
   * A type whose Key property designates Id: the Id row is the Graph key always and
   * the SharePoint key only when the type also has a SharePoint mapping; its Graph
   * name is "id" either way, and the Key property itself gets no row.
   */
  lemma KeyedTypeScenario(withSharePoint: bool)
    ensures var id := PropertyDecl("Id", "Guid", []);
      var key := PropertyDecl("Key", "Object", [KeyProperty(Some("Id"))]);
      var types := map["List" := TypeDecl(false, None, if withSharePoint then [ListSharePointType] else [],
                                          [TeamGraphType], false, true, false, [id, key])];
      var r := Scan(types, "List");
      && r.Success?
      && r.value.actualKeyFieldName == Some("Id")
      && |r.value.fields| == 1
      && r.value.fields[0].name == "Id"
      && r.value.fields[0].isGraphKey
      && r.value.fields[0].isSharePointKey == withSharePoint
      && r.value.fields[0].graphName == Some("id")
  {
    var id := PropertyDecl("Id", "Guid", []);
    var key := PropertyDecl("Key", "Object", [KeyProperty(Some("Id"))]);
    var types := map["List" := TypeDecl(false, None, if withSharePoint then [ListSharePointType] else [],
                                        [TeamGraphType], false, true, false, [id, key])];
    CamelCasesDisplayName();
    assert [id, key][..1] == [id];
    assert [id][..0] == [];
    assert [KeyProperty(Some("Id"))][..0] == [];
    assert ApplyAttributes(withSharePoint, id, AttributeScan([], None, false, false), [])
        == AttributeScan([], None, false, false);
    assert EnsureField([], withSharePoint, id).0[0].name == "Id";
    var row := if withSharePoint then NewField(id).(sharePointName := Some("Id")) else NewField(id).(graphName := Some("id"));
    assert ScanProperties(withSharePoint, [id]) == ScanState([row], None);
    assert ApplyAttributes(withSharePoint, key, AttributeScan([row], None, false, false), [KeyProperty(Some("Id"))])
        == AttributeScan([row], Some("Id"), false, true);
    assert ScanProperties(withSharePoint, [id, key]) == ScanState([row], Some("Id"));
    assert IndexOfName([row], "Id") == Some(0);
  }

  /**
   * Selecting Title on a type with rows Title, Id (the Graph key) and Description:
   * Title loads, Id loads because it is the key, Description does not.
   */
  lemma SelectTitleScenario(types: TypeRegistry, title: EntityFieldInfo, id: EntityFieldInfo, description: EntityFieldInfo,
                            s: EntityInfo)
    requires title.name == "Title" && !IsKeyField(title) && title.load
    requires id.name == "Id" && id.isGraphKey
    requires description.name == "Description" && !IsKeyField(description)
    requires s.fields == [title, id, description]
    ensures var r := Specialized(types, s, None, [Some("Title")], []);
      && r.fields[0].load && r.fields[1].load && !r.fields[2].load
      && r.sharePointFieldsLoadedViaExpression && r.graphFieldsLoadedViaExpression
  {
    assert !IsNonExpandableCollection([], Some("Title"));
    assert !IsNonExpandableCollection([], [Some("Title")][0]);
    assert SelectsGraphFields([Some("Title")], []);
    assert Some("Description") != Some("Title");
  }
}
