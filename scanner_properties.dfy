/** What the scanner of GetStaticClassInfo guarantees about the metadata it builds. */
module ScannerProperties {
  import opened Wrappers
  import opened Metadata
  import opened EntityInfos
  import opened Naming
  import opened Scanner

  // ---------------------------------------------------------------- vocabulary

  /** No two rows have names that are equal when case is ignored. */
  ghost predicate DistinctNames(fields: seq<EntityFieldInfo>) {
    forall i, j :: 0 <= i < j < |fields| ==> !SameIgnoreCase(fields[i].name, fields[j].name)
  }

  ghost predicate NoKeyFields(fields: seq<EntityFieldInfo>) {
    forall i :: 0 <= i < |fields| ==> !IsKeyField(fields[i])
  }

  /** The invariant of the property loop: distinct names, no key marked yet, every row named from `names`. */
  ghost predicate RowsWellFormed(fields: seq<EntityFieldInfo>, names: set<string>) {
    && DistinctNames(fields)
    && NoKeyFields(fields)
    && forall i :: 0 <= i < |fields| ==> fields[i].name in names
  }

  /** `b` keeps every row of `a`, at the same place and under the same name, and may add rows after them. */
  ghost predicate KeepsRows(a: seq<EntityFieldInfo>, b: seq<EntityFieldInfo>) {
    |a| <= |b| && forall i :: 0 <= i < |a| ==> b[i].name == a[i].name
  }

  ghost predicate HasRowFor(fields: seq<EntityFieldInfo>, name: string) {
    exists j :: 0 <= j < |fields| && SameIgnoreCase(fields[j].name, name)
  }

  ghost function PropertyNames(props: seq<PropertyDecl>): set<string> {
    set k | 0 <= k < |props| :: props[k].name
  }

  /** Dropping the last property keeps the other names, and the last one is a property name. */
  lemma PropertyNamesOfPrefix(props: seq<PropertyDecl>)
    requires |props| > 0
    ensures PropertyNames(props[..|props| - 1]) <= PropertyNames(props)
    ensures props[|props| - 1].name in PropertyNames(props)
  {
    var init := props[..|props| - 1];
    assert forall k :: 0 <= k < |init| ==> init[k] == props[k];
  }

  /** The names of the properties that end up with a row. */
  ghost function RowPropertyNames(props: seq<PropertyDecl>): set<string> {
    set k | 0 <= k < |props| && NeedsRow(props[k]) :: props[k].name
  }

  /** A property ends up with a row unless only Key or System attributes decide it. */
  ghost predicate NeedsRow(p: PropertyDecl) {
    (exists a :: a in p.attributes && IsMappingAttribute(a)) ||
    (forall a :: a in p.attributes ==> !IsSkipAttribute(a))
  }

  /** Attribute `j` is a KeyProperty attribute and no KeyProperty attribute follows it. */
  ghost predicate IsLastKey(attrs: seq<PropertyAttribute>, j: int) {
    && 0 <= j < |attrs|
    && attrs[j].KeyProperty?
    && forall j' :: j < j' < |attrs| ==> !attrs[j'].KeyProperty?
  }

  ghost predicate HasKeyAttribute(p: PropertyDecl) {
    exists a :: a in p.attributes && a.KeyProperty?
  }

  /** Attribute `j` of property `k` is the last KeyProperty attribute of the whole type. */
  ghost predicate IsLastKeyOfType(props: seq<PropertyDecl>, k: int, j: int) {
    && 0 <= k < |props|
    && IsLastKey(props[k].attributes, j)
    && forall k' :: k < k' < |props| ==> !HasKeyAttribute(props[k'])
  }

  // ---------------------------------------------------------------- EnsureClassField

  /**
   * EnsureClassField returns the first row matching the property name ignoring
   * case and leaves the rows as they are, or appends exactly one new row for the
   * property; only that row changes, and only its SharePointName, which becomes
   * the property name exactly when the type has SharePoint targets.
   */
  lemma EnsureFieldFindsOrAppends(fields: seq<EntityFieldInfo>, hasSharePointTargets: bool, p: PropertyDecl)
    ensures var r := EnsureField(fields, hasSharePointTargets, p);
      var fs, i := r.0, r.1;
      && KeepsRows(fields, fs)
      && IndexOfIgnoreCase(fs, p.name) == Some(i)
      && (HasRowFor(fields, p.name) ==> |fs| == |fields| && Some(i) == IndexOfIgnoreCase(fields, p.name))
      && (!HasRowFor(fields, p.name) ==>
            |fs| == |fields| + 1 && i == |fields| && fs[i].(sharePointName := None) == NewField(p))
      && (forall j :: 0 <= j < |fs| && j != i ==> fs[j] == fields[j])
      && (i < |fields| ==> fs[i].(sharePointName := fields[i].sharePointName) == fields[i])
      && fs[i].sharePointName == (if hasSharePointTargets then Some(p.name)
                                  else if i < |fields| then fields[i].sharePointName else None)
  {
    var r := EnsureField(fields, hasSharePointTargets, p);
    var fs, i := r.0, r.1;
    var found := IndexOfIgnoreCase(fields, p.name);
    if found.Some? {
      assert HasRowFor(fields, p.name);
    } else {
      assert SameIgnoreCase(p.name, p.name);
    }
    assert forall j :: 0 <= j < i ==> fs[j] == fields[j];
    assert SameIgnoreCase(fs[i].name, p.name);
  }

  /** Ensuring the same property twice adds nothing the first call did not. */
  lemma EnsureFieldIdempotent(fields: seq<EntityFieldInfo>, hasSharePointTargets: bool, p: PropertyDecl)
    ensures var r := EnsureField(fields, hasSharePointTargets, p);
      EnsureField(r.0, hasSharePointTargets, p) == r
  {
    var r := EnsureField(fields, hasSharePointTargets, p);
    var fs, i := r.0, r.1;
    EnsureFieldFindsOrAppends(fields, hasSharePointTargets, p);
    if hasSharePointTargets {
      assert fs[i := fs[i].(sharePointName := Some(p.name))] == fs;
    }
  }

  /** EnsureClassField keeps the property loop's invariant and leaves a row for the property. */
  lemma EnsureFieldWellFormed(fields: seq<EntityFieldInfo>, hasSharePointTargets: bool, p: PropertyDecl,
                              names: set<string>)
    requires p.name in names
    requires RowsWellFormed(fields, names)
    ensures var r := EnsureField(fields, hasSharePointTargets, p);
      RowsWellFormed(r.0, names) && KeepsRows(fields, r.0) && HasRowFor(r.0, p.name)
  {
    var r := EnsureField(fields, hasSharePointTargets, p);
    var fs, i := r.0, r.1;
    EnsureFieldFindsOrAppends(fields, hasSharePointTargets, p);
    forall a, b | 0 <= a < b < |fs| ensures !SameIgnoreCase(fs[a].name, fs[b].name) {
      if b == |fields| {
        assert !HasRowFor(fields, p.name);
        assert fs[a].name == fields[a].name && fs[b].name == p.name;
      }
    }
    assert SameIgnoreCase(fs[i].name, p.name);
  }

  /** Rewriting a row's mapping (not its name, not its key flags) keeps the invariant and every row. */
  lemma UpdateRowWellFormed(fields: seq<EntityFieldInfo>, i: nat, row: EntityFieldInfo, names: set<string>)
    requires i < |fields|
    requires row.name == fields[i].name && !IsKeyField(row)
    requires RowsWellFormed(fields, names)
    ensures RowsWellFormed(fields[i := row], names) && KeepsRows(fields, fields[i := row])
  {
  }

  lemma KeepsRowsKeepsLookup(a: seq<EntityFieldInfo>, b: seq<EntityFieldInfo>, name: string)
    requires KeepsRows(a, b) && HasRowFor(a, name)
    ensures HasRowFor(b, name)
  {
    var j :| 0 <= j < |a| && SameIgnoreCase(a[j].name, name);
    assert b[j].name == a[j].name;
  }

  // ---------------------------------------------------------------- one property

  /**
   * What a SharePointProperty or GraphProperty attribute writes on the property's
   * row: the SharePoint or Graph name from FieldName, falling back to the property
   * name (camel-cased for Graph), and the attribute's expandability, custom
   * mapping, JSON path, Get and Beta settings. A GraphProperty leaves the
   * SharePointName that EnsureClassField set. No other row changes.
   */
  lemma MappingAttributeWritesRow(hasSharePointTargets: bool, p: PropertyDecl, s: AttributeScan, a: PropertyAttribute)
    requires IsMappingAttribute(a)
    ensures var r := ApplyAttribute(hasSharePointTargets, p, s, a);
      && IndexOfIgnoreCase(r.fields, p.name).Some?
      && var i := IndexOfIgnoreCase(r.fields, p.name).value;
      && (forall j :: 0 <= j < |s.fields| && j != i ==> r.fields[j] == s.fields[j])
      && (a.SharePointProperty? ==>
            && r.fields[i].sharePointName == IfNullOrEmpty(a.fieldName, Some(p.name))
            && r.fields[i].sharePointExpandable == a.expandable
            && r.fields[i].expandableByDefault == a.expandByDefault
            && r.fields[i].sharePointUseCustomMapping == a.useCustomMapping
            && r.fields[i].sharePointJsonPath == a.jsonPath)
      && (a.GraphProperty? ==>
            && r.fields[i].graphName == IfNullOrEmpty(a.fieldName, ToCamelCase(Some(p.name)))
            && r.fields[i].graphExpandable == a.expandable
            && r.fields[i].expandableByDefault == a.expandByDefault
            && r.fields[i].graphUseCustomMapping == a.useCustomMapping
            && r.fields[i].graphJsonPath == a.jsonPath
            && r.fields[i].graphGet == a.get
            && r.fields[i].graphBeta == a.beta
            && (hasSharePointTargets ==> r.fields[i].sharePointName == Some(p.name))
            && (!hasSharePointTargets && i < |s.fields| ==>
                  r.fields[i].sharePointName == s.fields[i].sharePointName))
  {
    var e := EnsureField(s.fields, hasSharePointTargets, p);
    var fs, i := e.0, e.1;
    EnsureFieldFindsOrAppends(s.fields, hasSharePointTargets, p);
    var row := if a.SharePointProperty? then WithSharePointProperty(fs[i], p, a) else WithGraphProperty(fs[i], p, a);
    var r := ApplyAttribute(hasSharePointTargets, p, s, a);
    assert r.fields == fs[i := row];
    SameNamesSameLookup(fs, r.fields, p.name);
  }

  lemma ApplyAttributeFacts(hasSharePointTargets: bool, p: PropertyDecl, s: AttributeScan, a: PropertyAttribute,
                            names: set<string>)
    requires p.name in names
    requires RowsWellFormed(s.fields, names)
    ensures var r := ApplyAttribute(hasSharePointTargets, p, s, a);
      && RowsWellFormed(r.fields, names)
      && KeepsRows(s.fields, r.fields)
      && r.mapped == (s.mapped || IsMappingAttribute(a))
      && r.skipField == (s.skipField || IsSkipAttribute(a))
      && (IsMappingAttribute(a) ==> HasRowFor(r.fields, p.name))
      && (!IsMappingAttribute(a) ==> r.fields == s.fields)
      && (a.KeyProperty? ==> r.keyPropertyName == a.keyPropertyName)
      && (!a.KeyProperty? ==> r.keyPropertyName == s.keyPropertyName)
      && (IsMappingAttribute(a) ==>
            && IndexOfIgnoreCase(r.fields, p.name).Some?
            && var i := IndexOfIgnoreCase(r.fields, p.name).value;
            && (forall j :: 0 <= j < |s.fields| && j != i ==> r.fields[j] == s.fields[j])
            && (a.SharePointProperty? ==>
                  && r.fields[i].sharePointName == IfNullOrEmpty(a.fieldName, Some(p.name))
                  && r.fields[i].sharePointExpandable == a.expandable
                  && r.fields[i].expandableByDefault == a.expandByDefault
                  && r.fields[i].sharePointUseCustomMapping == a.useCustomMapping
                  && r.fields[i].sharePointJsonPath == a.jsonPath)
            && (a.GraphProperty? ==>
                  && r.fields[i].graphName == IfNullOrEmpty(a.fieldName, ToCamelCase(Some(p.name)))
                  && r.fields[i].graphExpandable == a.expandable
                  && r.fields[i].expandableByDefault == a.expandByDefault
                  && r.fields[i].graphUseCustomMapping == a.useCustomMapping
                  && r.fields[i].graphJsonPath == a.jsonPath
                  && r.fields[i].graphGet == a.get
                  && r.fields[i].graphBeta == a.beta
                  && (hasSharePointTargets ==> r.fields[i].sharePointName == Some(p.name))
                  && (!hasSharePointTargets && i < |s.fields| ==>
                        r.fields[i].sharePointName == s.fields[i].sharePointName)))
  {
    if IsMappingAttribute(a) {
      MappingAttributeWritesRow(hasSharePointTargets, p, s, a);
      var e := EnsureField(s.fields, hasSharePointTargets, p);
      var fs, i := e.0, e.1;
      EnsureFieldWellFormed(s.fields, hasSharePointTargets, p, names);
      EnsureFieldFindsOrAppends(s.fields, hasSharePointTargets, p);
      var row := if a.SharePointProperty? then WithSharePointProperty(fs[i], p, a) else WithGraphProperty(fs[i], p, a);
      UpdateRowWellFormed(fs, i, row, names);
      KeepsRowsKeepsLookup(fs, fs[i := row], p.name);
    }
  }

  lemma {:induction false} ApplyAttributesFacts(hasSharePointTargets: bool, p: PropertyDecl, s: AttributeScan,
                                                attrs: seq<PropertyAttribute>, names: set<string>)
    requires p.name in names
    requires RowsWellFormed(s.fields, names)
    ensures var r := ApplyAttributes(hasSharePointTargets, p, s, attrs);
      && RowsWellFormed(r.fields, names)
      && KeepsRows(s.fields, r.fields)
      && ((forall a :: a in attrs ==> !a.KeyProperty?) ==> r.keyPropertyName == s.keyPropertyName)
      && ((exists a :: a in attrs && a.KeyProperty?) ==>
            exists j :: IsLastKey(attrs, j) && r.keyPropertyName == attrs[j].keyPropertyName)
      && r.mapped == (s.mapped || exists a :: a in attrs && IsMappingAttribute(a))
      && r.skipField == (s.skipField || exists a :: a in attrs && IsSkipAttribute(a))
      && ((exists a :: a in attrs && IsMappingAttribute(a)) ==> HasRowFor(r.fields, p.name))
      && ((forall a :: a in attrs ==> !IsMappingAttribute(a)) ==> r.fields == s.fields)
    decreases |attrs|
  {
    ApplyAttributesKeyName(hasSharePointTargets, p, s, attrs);
    if |attrs| > 0 {
      var init, last := attrs[..|attrs| - 1], attrs[|attrs| - 1];
      assert attrs == init + [last];
      ApplyAttributesFacts(hasSharePointTargets, p, s, init, names);
      var m := ApplyAttributes(hasSharePointTargets, p, s, init);
      ApplyAttributeFacts(hasSharePointTargets, p, m, last, names);
      var r := ApplyAttribute(hasSharePointTargets, p, m, last);
      if exists a :: a in init && IsMappingAttribute(a) {
        KeepsRowsKeepsLookup(m.fields, r.fields, p.name);
      }
      if !last.KeyProperty? {
        assert r.keyPropertyName == m.keyPropertyName;
      }
    }
  }

  /**
   * The key name after a property's attributes: unchanged without a KeyProperty
   * attribute, otherwise the name the last KeyProperty attribute carries.
   */
  lemma {:induction false} ApplyAttributesKeyName(hasSharePointTargets: bool, p: PropertyDecl, s: AttributeScan,
                                                  attrs: seq<PropertyAttribute>)
    ensures var r := ApplyAttributes(hasSharePointTargets, p, s, attrs);
      && ((forall a :: a in attrs ==> !a.KeyProperty?) ==> r.keyPropertyName == s.keyPropertyName)
      && ((exists a :: a in attrs && a.KeyProperty?) ==>
            exists j :: IsLastKey(attrs, j) && r.keyPropertyName == attrs[j].keyPropertyName)
    decreases |attrs|
  {
    if |attrs| > 0 {
      var init, last := attrs[..|attrs| - 1], attrs[|attrs| - 1];
      assert attrs == init + [last];
      ApplyAttributesKeyName(hasSharePointTargets, p, s, init);
      var m := ApplyAttributes(hasSharePointTargets, p, s, init);
      var r := ApplyAttribute(hasSharePointTargets, p, m, last);
      if last.KeyProperty? {
        assert IsLastKey(attrs, |attrs| - 1);
      } else {
        assert r.keyPropertyName == m.keyPropertyName;
        if exists a :: a in attrs && a.KeyProperty? {
          var a :| a in attrs && a.KeyProperty?;
          assert a in init;
          var j :| IsLastKey(init, j) && m.keyPropertyName == init[j].keyPropertyName;
          assert attrs[j] == init[j];
          assert IsLastKey(attrs, j);
        }
      }
    }
  }

  lemma ScanPropertyFacts(hasSharePointTargets: bool, s: ScanState, p: PropertyDecl, names: set<string>)
    requires p.name in names
    requires RowsWellFormed(s.fields, names)
    ensures var r := ScanProperty(hasSharePointTargets, s, p);
      && RowsWellFormed(r.fields, names)
      && KeepsRows(s.fields, r.fields)
      && (NeedsRow(p) ==> HasRowFor(r.fields, p.name))
  {
    var start := AttributeScan(s.fields, s.keyPropertyName, false, false);
    ApplyAttributesFacts(hasSharePointTargets, p, start, p.attributes, names);
    var a := ApplyAttributes(hasSharePointTargets, p, start, p.attributes);
    if !a.mapped && !a.skipField {
      var e := EnsureField(a.fields, hasSharePointTargets, p);
      var fs, i := e.0, e.1;
      EnsureFieldWellFormed(a.fields, hasSharePointTargets, p, names);
      EnsureFieldFindsOrAppends(a.fields, hasSharePointTargets, p);
      var row := WithDefaultMapping(fs[i], hasSharePointTargets, p);
      UpdateRowWellFormed(fs, i, row, names);
      KeepsRowsKeepsLookup(fs, fs[i := row], p.name);
    }
  }

  /**
   * A property with no SharePointProperty, GraphProperty, KeyProperty or
   * SystemProperty attribute gets a row: in a Graph-only type its GraphName is the
   * camel-cased property name; otherwise its SharePointName is the property name and
   * its GraphName is what it was (unset on a new row). No other row changes.
   */
  lemma UndecoratedPropertyGetsDefaultRow(hasSharePointTargets: bool, s: ScanState, p: PropertyDecl)
    requires forall a :: a in p.attributes ==> !IsMappingAttribute(a) && !IsSkipAttribute(a)
    ensures var r := ScanProperty(hasSharePointTargets, s, p);
      var found := IndexOfIgnoreCase(s.fields, p.name);
      var i := if found.Some? then found.value else |s.fields|;
      && r.keyPropertyName == s.keyPropertyName
      && |r.fields| == (if found.Some? then |s.fields| else |s.fields| + 1)
      && SameIgnoreCase(r.fields[i].name, p.name)
      && (forall j :: 0 <= j < |s.fields| && j != i ==> r.fields[j] == s.fields[j])
      && (!hasSharePointTargets ==> r.fields[i].graphName == ToCamelCase(Some(p.name)))
      && (hasSharePointTargets ==> r.fields[i].sharePointName == Some(p.name))
      && (hasSharePointTargets ==> r.fields[i].graphName == (if found.Some? then s.fields[i].graphName else None))
  {
    var start := AttributeScan(s.fields, s.keyPropertyName, false, false);
    NoDecorationChangesNothing(hasSharePointTargets, p, start, p.attributes);
    EnsureFieldFindsOrAppends(s.fields, hasSharePointTargets, p);
    if IndexOfIgnoreCase(s.fields, p.name).Some? {
      assert HasRowFor(s.fields, p.name);
    }
  }

  lemma {:induction false} NoDecorationChangesNothing(hasSharePointTargets: bool, p: PropertyDecl, s: AttributeScan,
                                                      attrs: seq<PropertyAttribute>)
    requires forall a :: a in attrs ==> !IsMappingAttribute(a) && !IsSkipAttribute(a)
    ensures ApplyAttributes(hasSharePointTargets, p, s, attrs) == s
    decreases |attrs|
  {
    if |attrs| > 0 {
      var init := attrs[..|attrs| - 1];
      assert forall a :: a in init ==> a in attrs;
      NoDecorationChangesNothing(hasSharePointTargets, p, s, init);
      assert attrs[|attrs| - 1] in attrs;
    }
  }

  /**
   * A property whose only deciding attributes are KeyProperty or SystemProperty
   * gets no row: the rows are left exactly as they were.
   */
  lemma SkipAttributeSuppressesRow(hasSharePointTargets: bool, s: ScanState, p: PropertyDecl)
    requires forall a :: a in p.attributes ==> !IsMappingAttribute(a)
    requires exists a :: a in p.attributes && IsSkipAttribute(a)
    ensures ScanProperty(hasSharePointTargets, s, p).fields == s.fields
  {
    var start := AttributeScan(s.fields, s.keyPropertyName, false, false);
    SkipOnlyKeepsRows(hasSharePointTargets, p, start, p.attributes);
  }

  lemma {:induction false} SkipOnlyKeepsRows(hasSharePointTargets: bool, p: PropertyDecl, s: AttributeScan,
                                             attrs: seq<PropertyAttribute>)
    requires forall a :: a in attrs ==> !IsMappingAttribute(a)
    ensures var r := ApplyAttributes(hasSharePointTargets, p, s, attrs);
      r.fields == s.fields && r.mapped == s.mapped
      && r.skipField == (s.skipField || exists a :: a in attrs && IsSkipAttribute(a))
    decreases |attrs|
  {
    if |attrs| > 0 {
      var init, last := attrs[..|attrs| - 1], attrs[|attrs| - 1];
      assert attrs == init + [last];
      assert forall a :: a in init ==> a in attrs;
      assert last in attrs;
      SkipOnlyKeepsRows(hasSharePointTargets, p, s, init);
      assert (exists a :: a in attrs && IsSkipAttribute(a)) <==>
             (exists a :: a in init && IsSkipAttribute(a)) || IsSkipAttribute(last);
    }
  }

  /**
   * Processing order matters in a type with SharePoint targets: a GraphProperty
   * processed after a SharePointProperty resets the row's SharePointName to the property name,
   * discarding the custom field name, while the opposite order keeps it.
   */
  lemma GraphAttributeResetsSharePointName(s: ScanState, p: PropertyDecl, sp: PropertyAttribute,
                                           graph: PropertyAttribute)
    requires sp.SharePointProperty? && graph.GraphProperty?
    ensures var r := ScanProperty(true, s, p.(attributes := [sp, graph]));
      var i := IndexOfIgnoreCase(r.fields, p.name);
      i.Some? && r.fields[i.value].sharePointName == Some(p.name)
    ensures var r := ScanProperty(true, s, p.(attributes := [graph, sp]));
      var i := IndexOfIgnoreCase(r.fields, p.name);
      i.Some? && r.fields[i.value].sharePointName == IfNullOrEmpty(sp.fieldName, Some(p.name))
  {
    ScanTwoMappingAttributes(s, p.(attributes := [sp, graph]));
    ScanTwoMappingAttributes(s, p.(attributes := [graph, sp]));
  }

  /** The row of a property carrying two mapping attributes is the one the second attribute writes. */
  lemma ScanTwoMappingAttributes(s: ScanState, q: PropertyDecl)
    requires |q.attributes| == 2
    requires IsMappingAttribute(q.attributes[0]) && IsMappingAttribute(q.attributes[1])
    ensures var m := ApplyAttribute(true, q, AttributeScan(s.fields, s.keyPropertyName, false, false),
                                    q.attributes[0]);
      var e := EnsureField(m.fields, true, q);
      var second := q.attributes[1];
      var r := ScanProperty(true, s, q);
      && IndexOfIgnoreCase(r.fields, q.name) == Some(e.1)
      && e.0[e.1].sharePointName == Some(q.name)
      && r.fields[e.1] == (if second.SharePointProperty? then WithSharePointProperty(e.0[e.1], q, second)
                           else WithGraphProperty(e.0[e.1], q, second))
  {
    var start := AttributeScan(s.fields, s.keyPropertyName, false, false);
    var first, second := q.attributes[0], q.attributes[1];
    assert q.attributes[..1] == [first] && q.attributes[..1][..0] == [];
    var m := ApplyAttribute(true, q, start, first);
    assert ApplyAttributes(true, q, start, q.attributes[..1]) == m;
    var a := ApplyAttribute(true, q, m, second);
    assert ApplyAttributes(true, q, start, q.attributes) == a;
    var e := EnsureField(m.fields, true, q);
    EnsureFieldFindsOrAppends(m.fields, true, q);
    var row := if second.SharePointProperty? then WithSharePointProperty(e.0[e.1], q, second)
               else WithGraphProperty(e.0[e.1], q, second);
    assert a.fields == e.0[e.1 := row];
    SameNamesSameLookup(e.0, a.fields, q.name);
  }

  // ---------------------------------------------------------------- lookups and row names

  ghost predicate SameRowNames(a: seq<EntityFieldInfo>, b: seq<EntityFieldInfo>) {
    |a| == |b| && forall i :: 0 <= i < |a| ==> a[i].name == b[i].name
  }

  /** Lookups by name see only the row names. */
  lemma {:induction false} SameNamesSameLookup(a: seq<EntityFieldInfo>, b: seq<EntityFieldInfo>, name: string)
    requires SameRowNames(a, b)
    ensures IndexOfIgnoreCase(a, name) == IndexOfIgnoreCase(b, name)
    ensures IndexOfName(a, name) == IndexOfName(b, name)
    decreases |a|
  {
    if |a| > 0 {
      SameNamesSameLookup(a[1..], b[1..], name);
    }
  }

  // ---------------------------------------------------------------- all properties

  lemma {:induction false} ScanPropertiesFacts(hasSharePointTargets: bool, props: seq<PropertyDecl>)
    ensures var r := ScanProperties(hasSharePointTargets, props);
      && RowsWellFormed(r.fields, PropertyNames(props))
      && forall k :: 0 <= k < |props| && NeedsRow(props[k]) ==> HasRowFor(r.fields, props[k].name)
    decreases |props|
  {
    if |props| > 0 {
      var init, last := props[..|props| - 1], props[|props| - 1];
      ScanPropertiesFacts(hasSharePointTargets, init);
      var m := ScanProperties(hasSharePointTargets, init);
      var names := PropertyNames(props);
      PropertyNamesOfPrefix(props);
      ScanPropertyFacts(hasSharePointTargets, m, last, names);
      var r := ScanProperty(hasSharePointTargets, m, last);
      forall k | 0 <= k < |props| && NeedsRow(props[k]) ensures HasRowFor(r.fields, props[k].name) {
        if k < |init| {
          assert init[k] == props[k];
          KeepsRowsKeepsLookup(m.fields, r.fields, props[k].name);
        }
      }
    }
  }

  /**
   * Rows exist only for properties that need one: every row after the property
   * loop is named after a property with a mapping attribute or without Key and
   * System attributes.
   */
  lemma {:induction false} ScanPropertiesRowNames(hasSharePointTargets: bool, props: seq<PropertyDecl>)
    ensures RowsWellFormed(ScanProperties(hasSharePointTargets, props).fields, RowPropertyNames(props))
    decreases |props|
  {
    if |props| > 0 {
      var init, last := props[..|props| - 1], props[|props| - 1];
      ScanPropertiesRowNames(hasSharePointTargets, init);
      var m := ScanProperties(hasSharePointTargets, init);
      var names := RowPropertyNames(props);
      assert forall k :: 0 <= k < |init| ==> init[k] == props[k];
      assert RowPropertyNames(init) <= names;
      if NeedsRow(last) {
        assert last.name in names;
        ScanPropertyFacts(hasSharePointTargets, m, last, names);
      } else {
        assert forall a :: a in last.attributes ==> !IsMappingAttribute(a);
        SkipAttributeSuppressesRow(hasSharePointTargets, m, last);
      }
    }
  }

  /** The key name after one property: unchanged without a KeyProperty attribute, else its last one's name. */
  lemma ScanPropertyKeyName(hasSharePointTargets: bool, s: ScanState, p: PropertyDecl)
    ensures var key := ScanProperty(hasSharePointTargets, s, p).keyPropertyName;
      && (!HasKeyAttribute(p) ==> key == s.keyPropertyName)
      && (HasKeyAttribute(p) ==> exists j :: IsLastKey(p.attributes, j) && key == p.attributes[j].keyPropertyName)
  {
    var start := AttributeScan(s.fields, s.keyPropertyName, false, false);
    ApplyAttributesKeyName(hasSharePointTargets, p, start, p.attributes);
  }

  /** A property without KeyProperty attributes appended to the type keeps its last KeyProperty attribute. */
  lemma LastKeyOfTypeExtends(init: seq<PropertyDecl>, last: PropertyDecl, k: int, j: int)
    requires IsLastKeyOfType(init, k, j) && !HasKeyAttribute(last)
    ensures IsLastKeyOfType(init + [last], k, j)
  {
    var props := init + [last];
    assert props[k] == init[k];
    forall k' | k < k' < |props| ensures !HasKeyAttribute(props[k']) {
      if k' < |init| {
        assert props[k'] == init[k'];
      }
    }
  }

  /** The last KeyProperty attribute of an appended property is the type's last. */
  lemma LastKeyOfTypeAtEnd(init: seq<PropertyDecl>, last: PropertyDecl, j: int)
    requires IsLastKey(last.attributes, j)
    ensures IsLastKeyOfType(init + [last], |init|, j)
  {
    assert (init + [last])[|init|] == last;
  }

  /**
   * The key name the property loop records: none when no property has a
   * KeyProperty attribute, otherwise the name carried by the type's last one.
   */
  lemma {:induction false} ScanPropertiesKeyName(hasSharePointTargets: bool, props: seq<PropertyDecl>)
    ensures var key := ScanProperties(hasSharePointTargets, props).keyPropertyName;
      && ((forall k :: 0 <= k < |props| ==> !HasKeyAttribute(props[k])) ==> key == None)
      && ((exists k :: 0 <= k < |props| && HasKeyAttribute(props[k])) ==>
            exists k, j :: IsLastKeyOfType(props, k, j) && key == props[k].attributes[j].keyPropertyName)
    decreases |props|
  {
    if |props| > 0 {
      var init, last := props[..|props| - 1], props[|props| - 1];
      assert props == init + [last];
      ScanPropertiesKeyName(hasSharePointTargets, init);
      var m := ScanProperties(hasSharePointTargets, init);
      ScanPropertyKeyName(hasSharePointTargets, m, last);
      var key := ScanProperty(hasSharePointTargets, m, last).keyPropertyName;
      if HasKeyAttribute(last) {
        var j :| IsLastKey(last.attributes, j) && key == last.attributes[j].keyPropertyName;
        LastKeyOfTypeAtEnd(init, last, j);
      } else if exists k :: 0 <= k < |props| && HasKeyAttribute(props[k]) {
        var k0 :| 0 <= k0 < |props| && HasKeyAttribute(props[k0]);
        assert init[k0] == props[k0];
        var k, j :| IsLastKeyOfType(init, k, j) && m.keyPropertyName == init[k].attributes[j].keyPropertyName;
        LastKeyOfTypeExtends(init, last, k, j);
        assert props[k] == init[k];
      } else {
        assert forall k :: 0 <= k < |init| ==> init[k] == props[k];
      }
    }
  }

  /** A type has at most one last KeyProperty attribute. */
  lemma LastKeyOfTypeUnique(props: seq<PropertyDecl>, k1: int, j1: int, k2: int, j2: int)
    requires IsLastKeyOfType(props, k1, j1) && IsLastKeyOfType(props, k2, j2)
    ensures k1 == k2 && j1 == j2
  {
    assert props[k1].attributes[j1] in props[k1].attributes;
    assert props[k2].attributes[j2] in props[k2].attributes;
  }

  // ---------------------------------------------------------------- key and overflow steps

  /** Two row lists that differ at most in the rows' backend names. */
  ghost predicate SameRowsButNames(a: seq<EntityFieldInfo>, b: seq<EntityFieldInfo>) {
    && |a| == |b|
    && forall i :: 0 <= i < |a| ==>
         b[i] == a[i].(sharePointName := b[i].sharePointName, graphName := b[i].graphName)
  }

  lemma SameRowsButNamesSameLookup(a: seq<EntityFieldInfo>, b: seq<EntityFieldInfo>, name: string)
    requires SameRowsButNames(a, b)
    ensures IndexOfIgnoreCase(a, name) == IndexOfIgnoreCase(b, name)
    ensures IndexOfName(a, name) == IndexOfName(b, name)
  {
    assert SameRowNames(a, b) by {
      forall i | 0 <= i < |a| ensures a[i].name == b[i].name {
        assert b[i] == a[i].(sharePointName := b[i].sharePointName, graphName := b[i].graphName);
      }
    }
    SameNamesSameLookup(a, b, name);
  }

  /**
   * The key step: an unset or empty key name changes nothing; otherwise
   * ActualKeyFieldName becomes the key name and only the first row with exactly
   * that name changes: it becomes a Graph key, a SharePoint key when the type has
   * SharePoint targets, and an unset GraphName becomes its camel-cased name.
   */
  lemma MarkKeyFieldMarksExactMatch(info: EntityInfo, key: NString)
    ensures IsNullOrEmpty(key) ==> MarkKeyField(info, key) == info
    ensures !IsNullOrEmpty(key) ==>
      var r := MarkKeyField(info, key);
      && r.(fields := info.fields, actualKeyFieldName := info.actualKeyFieldName) == info
      && r.actualKeyFieldName == key
      && |r.fields| == |info.fields|
      && forall i :: 0 <= i < |info.fields| ==>
           var f, g := info.fields[i], r.fields[i];
           if IndexOfName(info.fields, key.value) == Some(i) then
             && g.isGraphKey
             && g.isSharePointKey == (|info.sharePointTargets| > 0 || f.isSharePointKey)
             && !IsNullOrEmpty(g.graphName)
             && (!IsNullOrEmpty(f.graphName) ==> g.graphName == f.graphName)
             && (IsNullOrEmpty(f.graphName) ==> g.graphName == ToCamelCase(Some(f.name)))
             && g.(isGraphKey := f.isGraphKey, isSharePointKey := f.isSharePointKey, graphName := f.graphName) == f
           else g == f
  {
    if !IsNullOrEmpty(key) {
      match IndexOfName(info.fields, key.value)
      case None =>
      case Some(i) =>
        var f := info.fields[i];
        assert f.name == key.value && |f.name| > 0;
    }
  }

  /**
   * The overflow step of a type that uses the overflow field succeeds exactly when
   * the type has a Graph target and a row named OverflowFieldName; that row then
   * takes the first Graph target's OverflowProperty as GraphName and, when there are
   * SharePoint targets, the first SharePoint target's as SharePointName.
   */
  lemma FillOverflowFieldNames(info: EntityInfo)
    ensures var r := FillOverflowField(info);
      && (!info.useOverflowField ==> r == Success(info))
      && (r.Failure? ==> r.error == NullReference || r.error == InvalidOperation)
      && (r.Success? ==> r.value.(fields := info.fields) == info && SameRowsButNames(info.fields, r.value.fields))
      && (info.useOverflowField ==>
            (r.Success? <==> IndexOfName(info.fields, OverflowFieldName).Some? && |info.graphTargets| > 0))
      && (info.useOverflowField && r.Success? ==>
            var i := IndexOfName(info.fields, OverflowFieldName).value;
            && r.value.fields[i].graphName == info.graphTargets[0].overflowProperty
            && (|info.sharePointTargets| > 0 ==>
                  r.value.fields[i].sharePointName == info.sharePointTargets[0].overflowProperty)
            && (forall j :: 0 <= j < |info.fields| && j != i ==> r.value.fields[j] == info.fields[j]))
  {
  }

  // ---------------------------------------------------------------- the whole scan

  /** `built` is `declared` unless that is null or empty, in which case it is the Uri. */
  ghost predicate FallsBackToUri(declared: NString, uri: NString, built: NString) {
    (!IsNullOrEmpty(declared) ==> built == declared) && (IsNullOrEmpty(declared) ==> built == uri)
  }

  ghost predicate SharePointTargetBuilt(t: TypeId, a: SharePointTypeAttribute, e: EntitySharePointTypeInfo) {
    && e.target == (if a.target.Some? then a.target.value else t)
    && e.entityType == a.entityType && e.uri == a.uri && e.overflowProperty == a.overflowProperty
    && FallsBackToUri(a.get, a.uri, e.get) && FallsBackToUri(a.linqGet, a.uri, e.linqGet)
    && FallsBackToUri(a.update, a.uri, e.update) && FallsBackToUri(a.delete, a.uri, e.delete)
  }

  ghost predicate GraphTargetBuilt(t: TypeId, a: GraphTypeAttribute, e: EntityGraphTypeInfo) {
    && e.target == (if a.target.Some? then a.target.value else t)
    && !IsNullOrEmpty(e.id)
    && (!IsNullOrEmpty(a.id) ==> e.id == a.id) && (IsNullOrEmpty(a.id) ==> e.id == Some("id"))
    && e.overflowProperty == a.overflowProperty && e.beta == a.beta
    && FallsBackToUri(a.get, a.uri, e.get) && FallsBackToUri(a.linqGet, a.uri, e.linqGet)
    && FallsBackToUri(a.update, a.uri, e.update) && FallsBackToUri(a.delete, a.uri, e.delete)
  }

  lemma MarkKeyFieldKeepsNames(info: EntityInfo, key: NString)
    ensures var r := MarkKeyField(info, key);
      SameRowNames(info.fields, r.fields) && r.(fields := info.fields, actualKeyFieldName := info.actualKeyFieldName) == info
  {
    MarkKeyFieldMarksExactMatch(info, key);
    var r := MarkKeyField(info, key);
    if !IsNullOrEmpty(key) {
      forall i | 0 <= i < |info.fields| ensures r.fields[i].name == info.fields[i].name {
        var f, g := info.fields[i], r.fields[i];
        if IndexOfName(info.fields, key.value) == Some(i) {
          assert g.(isGraphKey := f.isGraphKey, isSharePointKey := f.isSharePointKey, graphName := f.graphName) == f;
        }
      }
    }
  }

  /**
   * Scanning fails with ModelMetadataIncorrect exactly when the type has neither a
   * SharePointType nor a GraphType attribute. A decorated type fails only when it
   * uses the overflow field and either has no Graph target or has no row named
   * OverflowFieldName.
   */
  lemma ScanFailures(types: TypeRegistry, t: TypeId)
    ensures var d := DeclOf(types, t);
      var r := Scan(types, t);
      && (r == Failure(ModelMetadataIncorrect) <==> |d.sharePointTypes| == 0 && |d.graphTypes| == 0)
      && (|d.sharePointTypes| > 0 || |d.graphTypes| > 0 ==>
            (r.Failure? <==>
               d.implementsExpando &&
               (|d.graphTypes| == 0 || IndexOfName(ScannedInfo(types, t).fields, OverflowFieldName).None?)))
  {
    var info, key := ScannedInfo(types, t), ScannedKey(types, t);
    MarkKeyFieldKeepsNames(info, key);
    SameNamesSameLookup(info.fields, MarkKeyField(info, key).fields, OverflowFieldName);
    FillOverflowFieldNames(MarkKeyField(info, key));
  }

  /**
   * Each type attribute yields one target, in the order reflection returns them: the target type
   * defaults to the scanned type, Get, LinqGet, Update and Delete fall back to the
   * Uri when null or empty, and the Graph Id defaults to "id". The static metadata
   * is not marked as loaded via an expression and has no context target.
   */
  lemma ScanTargets(types: TypeRegistry, t: TypeId)
    requires Scan(types, t).Success?
    ensures var d := DeclOf(types, t);
      var r := Scan(types, t).value;
      && |r.sharePointTargets| == |d.sharePointTypes|
      && |r.graphTargets| == |d.graphTypes|
      && (forall i :: 0 <= i < |d.sharePointTypes| ==>
            SharePointTargetBuilt(t, d.sharePointTypes[i], r.sharePointTargets[i]))
      && (forall i :: 0 <= i < |d.graphTypes| ==> GraphTargetBuilt(t, d.graphTypes[i], r.graphTargets[i]))
      && r.useOverflowField == d.implementsExpando
      && !r.sharePointFieldsLoadedViaExpression && !r.graphFieldsLoadedViaExpression && r.target.None?
  {
    var info, key := ScannedInfo(types, t), ScannedKey(types, t);
    MarkKeyFieldKeepsNames(info, key);
    FillOverflowFieldNames(MarkKeyField(info, key));
  }

  /**
   * The rows of a scanned type: no two names are equal ignoring case, every row is
   * named after a property that needs one (so never after a property decided only
   * by KeyProperty or SystemProperty attributes), and every property with a mapping attribute, or with
   * neither a KeyProperty nor a SystemProperty attribute, has a row.
   */
  lemma ScanRowsMatchProperties(types: TypeRegistry, t: TypeId)
    requires Scan(types, t).Success?
    ensures var d := DeclOf(types, t);
      var r := Scan(types, t).value;
      && DistinctNames(r.fields)
      && (forall i :: 0 <= i < |r.fields| ==> r.fields[i].name in RowPropertyNames(d.properties))
      && (forall k :: 0 <= k < |d.properties| && NeedsRow(d.properties[k]) ==>
            HasRowFor(r.fields, d.properties[k].name))
  {
    var d := DeclOf(types, t);
    var info := ScannedInfo(types, t);
    var r := Scan(types, t).value;
    ScanKeepsRowNames(types, t);
    ScanPropertiesRowNames(|d.sharePointTypes| > 0, d.properties);
    assert DistinctNames(info.fields);
    ScanPropertiesFacts(|d.sharePointTypes| > 0, d.properties);
    forall k | 0 <= k < |d.properties| && NeedsRow(d.properties[k])
      ensures HasRowFor(r.fields, d.properties[k].name)
    {
      KeepsRowsKeepsLookup(info.fields, r.fields, d.properties[k].name);
    }
  }

  /** The key and overflow steps keep the rows of the property loop and their names. */
  lemma ScanKeepsRowNames(types: TypeRegistry, t: TypeId)
    requires Scan(types, t).Success?
    ensures var info, r := ScannedInfo(types, t), Scan(types, t).value;
      && |r.fields| == |info.fields|
      && (forall i :: 0 <= i < |r.fields| ==> r.fields[i].name == info.fields[i].name)
      && (DistinctNames(info.fields) ==> DistinctNames(r.fields))
  {
    var info, key := ScannedInfo(types, t), ScannedKey(types, t);
    var marked := MarkKeyField(info, key);
    MarkKeyFieldKeepsNames(info, key);
    FillOverflowFieldNames(marked);
    var r := Scan(types, t).value;
    assert SameRowsButNames(marked.fields, r.fields);
    assert forall i :: 0 <= i < |r.fields| ==> r.fields[i].name == marked.fields[i].name;
  }

  /**
   * The key rows of a scanned type: a row is a Graph key exactly when a key name
   * was recorded and the row is the first whose name equals it (case-sensitively),
   * and a SharePoint key exactly when it is a Graph key of a type with SharePoint targets.
   */
  lemma ScanKeyFields(types: TypeRegistry, t: TypeId)
    requires Scan(types, t).Success?
    ensures var r := Scan(types, t).value;
      forall i :: 0 <= i < |r.fields| ==>
        && (r.fields[i].isGraphKey <==>
              !IsNullOrEmpty(r.actualKeyFieldName) && IndexOfName(r.fields, r.actualKeyFieldName.value) == Some(i))
        && (r.fields[i].isSharePointKey <==> r.fields[i].isGraphKey && |r.sharePointTargets| > 0)
  {
    var d := DeclOf(types, t);
    ScanPropertiesFacts(|d.sharePointTypes| > 0, d.properties);
    var info, key := ScannedInfo(types, t), ScannedKey(types, t);
    var marked := MarkKeyField(info, key);
    MarkKeyFieldMarksExactMatch(info, key);
    MarkKeyFieldKeepsNames(info, key);
    FillOverflowFieldNames(marked);
    var r := Scan(types, t).value;
    assert NoKeyFields(info.fields);
    SameRowsButNamesSameLookup(marked.fields, r.fields, if key.Some? then key.value else "");
    if !IsNullOrEmpty(key) {
      SameNamesSameLookup(info.fields, marked.fields, key.value);
    }
  }

  /**
   * The overflow row of a scanned type that uses the overflow field exists, and its
   * names come from the first targets' OverflowProperty.
   */
  lemma ScanOverflowField(types: TypeRegistry, t: TypeId)
    requires Scan(types, t).Success? && Scan(types, t).value.useOverflowField
    ensures var r := Scan(types, t).value;
      var i := IndexOfName(r.fields, OverflowFieldName);
      && i.Some? && |r.graphTargets| > 0
      && r.fields[i.value].graphName == r.graphTargets[0].overflowProperty
      && (|r.sharePointTargets| > 0 ==> r.fields[i.value].sharePointName == r.sharePointTargets[0].overflowProperty)
  {
    var info, key := ScannedInfo(types, t), ScannedKey(types, t);
    var marked := MarkKeyField(info, key);
    MarkKeyFieldKeepsNames(info, key);
    FillOverflowFieldNames(marked);
    SameRowsButNamesSameLookup(marked.fields, Scan(types, t).value.fields, OverflowFieldName);
  }

  /**
   * Where ActualKeyFieldName comes from: a scanned type without KeyProperty
   * attributes has none; otherwise it is the name the type's last KeyProperty
   * attribute carries, unless that name is null or empty, in which case there is none.
   */
  lemma ScanKeyName(types: TypeRegistry, t: TypeId)
    requires Scan(types, t).Success?
    ensures var d := DeclOf(types, t);
      var r := Scan(types, t).value;
      && ((forall k :: 0 <= k < |d.properties| ==> !HasKeyAttribute(d.properties[k])) ==> r.actualKeyFieldName == None)
      && (forall k, j :: IsLastKeyOfType(d.properties, k, j) ==>
            var n := d.properties[k].attributes[j].keyPropertyName;
            r.actualKeyFieldName == if IsNullOrEmpty(n) then None else n)
  {
    var d := DeclOf(types, t);
    var info, key := ScannedInfo(types, t), ScannedKey(types, t);
    ScanPropertiesKeyName(|d.sharePointTypes| > 0, d.properties);
    MarkKeyFieldMarksExactMatch(info, key);
    FillOverflowFieldNames(MarkKeyField(info, key));
    var r := Scan(types, t).value;
    assert r.actualKeyFieldName == MarkKeyField(info, key).actualKeyFieldName;
    assert r.actualKeyFieldName == if IsNullOrEmpty(key) then None else key;
    forall k, j | IsLastKeyOfType(d.properties, k, j)
      ensures r.actualKeyFieldName == if IsNullOrEmpty(d.properties[k].attributes[j].keyPropertyName)
                                      then None else d.properties[k].attributes[j].keyPropertyName
    {
      assert d.properties[k].attributes[j] in d.properties[k].attributes;
      var k2, j2 :| IsLastKeyOfType(d.properties, k2, j2) && key == d.properties[k2].attributes[j2].keyPropertyName;
      LastKeyOfTypeUnique(d.properties, k, j, k2, j2);
    }
  }
}
