/**
 * The per-call part of GetClassInfo: a copy of the static metadata specialised to
 * the caller's field selectors and to the context the target model object lives in.
 * `Specialized` is the reference definition; `Specialize` is the code, proved equal to it.
 */
module FieldSelection {
  import opened Wrappers
  import opened Metadata
  import opened EntityInfos
  import opened Naming

  /**
   * Whether a selector names one of the Graph non-expandable collections, ignoring
   * case. A selector that did not resolve to a member name (None) names none.
   */
  predicate IsNonExpandableCollection(nonExpandable: seq<string>, selector: Option<string>) {
    selector.Some? && exists n :: n in nonExpandable && SameIgnoreCase(n, selector.value)
  }

  /** Some selector goes into the Graph field list: it does not name a non-expandable collection. */
  predicate SelectsGraphFields(selectors: seq<Option<string>>, nonExpandable: seq<string>) {
    exists k :: 0 <= k < |selectors| && !IsNonExpandableCollection(nonExpandable, selectors[k])
  }

  /**
   * The context type of a target model object: the type of its parent, or of its
   * grandparent when the parent is a collection; none when that object is absent.
   */
  function ContextType(types: TypeRegistry, target: ModelObject): Option<TypeId> {
    var parent := if target.parent.Some? && DeclOf(types, target.parent.value.runtimeType).isManageableCollection
                  then target.parent.value.parent
                  else target.parent;
    if parent.Some? then Some(parent.value.runtimeType) else None
  }

  /** The rows after a Graph selection: a row whose name is not selected no longer loads. */
  function Unselected(fields: seq<EntityFieldInfo>, selectors: seq<Option<string>>): (r: seq<EntityFieldInfo>)
    ensures |r| == |fields|
  {
    seq(|fields|, i requires 0 <= i < |fields| =>
      fields[i].(load := fields[i].load && Some(fields[i].name) in selectors))
  }

  /** The rows with every key row loaded. */
  function KeysForced(fields: seq<EntityFieldInfo>): (r: seq<EntityFieldInfo>)
    ensures |r| == |fields|
  {
    seq(|fields|, i requires 0 <= i < |fields| => fields[i].(load := fields[i].load || IsKeyField(fields[i])))
  }

  function Specialized(types: TypeRegistry, s: EntityInfo, target: Option<ModelObject>,
                       selectors: seq<Option<string>>, nonExpandable: seq<string>): EntityInfo
  {
    var graphSelection := SelectsGraphFields(selectors, nonExpandable);
    var context := if target.Some? then ContextType(types, target.value) else None;
    s.(fields := KeysForced(if graphSelection then Unselected(s.fields, selectors) else s.fields),
       sharePointFieldsLoadedViaExpression := s.sharePointFieldsLoadedViaExpression || |selectors| > 0,
       graphFieldsLoadedViaExpression := s.graphFieldsLoadedViaExpression || graphSelection,
       target := if context.Some? then context else s.target)
  }

  /**
   * Splits the selectors into the Graph list (those that are not non-expandable
   * collections; all of them when there are no such collections) and the
   * SharePoint list (all of them).
   */
  method CollectFieldsToLoad(selectors: seq<Option<string>>, nonExpandable: seq<string>)
    returns (graphFieldsToLoad: seq<Option<string>>, sharePointFieldsToLoad: seq<Option<string>>)
    ensures sharePointFieldsToLoad == selectors
    ensures |graphFieldsToLoad| > 0 <==> SelectsGraphFields(selectors, nonExpandable)
  {
    graphFieldsToLoad := [];
    sharePointFieldsToLoad := [];
    for k := 0 to |selectors|
      invariant sharePointFieldsToLoad == selectors[..k]
      invariant |graphFieldsToLoad| > 0 <==>
                exists j :: 0 <= j < k && !IsNonExpandableCollection(nonExpandable, selectors[j])
    {
      var fieldToLoad := selectors[k];
      if |nonExpandable| > 0 {
        if !IsNonExpandableCollection(nonExpandable, fieldToLoad) {
          graphFieldsToLoad := graphFieldsToLoad + [fieldToLoad];
        }
      } else {
        graphFieldsToLoad := graphFieldsToLoad + [fieldToLoad];
      }
      sharePointFieldsToLoad := sharePointFieldsToLoad + [fieldToLoad];
    }
  }

  /** Clears Load on every row whose name is not among the selected fields. */
  method UnloadUnselected(fields: seq<EntityFieldInfo>, selected: seq<Option<string>>)
    returns (r: seq<EntityFieldInfo>)
    ensures r == Unselected(fields, selected)
  {
    r := fields;
    for i := 0 to |r|
      invariant |r| == |fields|
      invariant forall j :: 0 <= j < i ==> r[j] == fields[j].(load := fields[j].load && Some(fields[j].name) in selected)
      invariant forall j :: i <= j < |r| ==> r[j] == fields[j]
    {
      if Some(r[i].name) !in selected {
        r := r[i := r[i].(load := false)];
      }
    }
  }

  /** Sets Load on every SharePoint or Graph key row. */
  method ForceKeyLoads(fields: seq<EntityFieldInfo>) returns (r: seq<EntityFieldInfo>)
    ensures r == KeysForced(fields)
  {
    r := fields;
    for i := 0 to |r|
      invariant |r| == |fields|
      invariant forall j :: 0 <= j < i ==> r[j] == fields[j].(load := fields[j].load || IsKeyField(fields[j]))
      invariant forall j :: i <= j < |r| ==> r[j] == fields[j]
    {
      if r[i].isGraphKey || r[i].isSharePointKey {
        r := r[i := r[i].(load := true)];
      }
    }
  }

  /** GetClassInfo after the static lookup: copy, apply the selectors, force the keys, record the context. */
  method Specialize(types: TypeRegistry, staticInfo: EntityInfo, target: Option<ModelObject>,
                    selectors: seq<Option<string>>, nonExpandable: seq<string>)
    returns (r: EntityInfo)
    ensures r == Specialized(types, staticInfo, target, selectors, nonExpandable)
  {
    // the copy of the static metadata: a value, so nothing done to it reaches the cached original
    r := staticInfo;
    if |selectors| > 0 {
      var graphFieldsToLoad, sharePointFieldsToLoad := CollectFieldsToLoad(selectors, nonExpandable);
      if |graphFieldsToLoad| > 0 {
        r := r.(graphFieldsLoadedViaExpression := true);
        var fields := UnloadUnselected(r.fields, sharePointFieldsToLoad);
        r := r.(fields := fields);
      }
      if |sharePointFieldsToLoad| > 0 {
        r := r.(sharePointFieldsLoadedViaExpression := true);
      }
    }
    var fields := ForceKeyLoads(r.fields);
    r := r.(fields := fields);

    if target.Some? {
      var parent := target.value.parent;
      if parent.Some? && DeclOf(types, parent.value.runtimeType).isManageableCollection {
        parent := target.value.parent.value.parent;
      }
      if parent.Some? {
        r := r.(target := Some(parent.value.runtimeType));
      }
    }
  }

  /**
   * Field selection: key rows always load; without selectors every other Load
   * flag is the static copy's; any selector marks the SharePoint fields as loaded
   * via an expression, and without selectors that flag is the static copy's; when some selector is not a non-expandable collection the
   * Graph fields are marked too and exactly the non-key rows that the static copy
   * loads and whose name is selected still load. Nothing but Load changes in a row.
   */
  lemma SpecializedFieldSelection(types: TypeRegistry, s: EntityInfo, target: Option<ModelObject>,
                                  selectors: seq<Option<string>>, nonExpandable: seq<string>)
    ensures var r := Specialized(types, s, target, selectors, nonExpandable);
      && |r.fields| == |s.fields|
      && (forall i :: 0 <= i < |s.fields| ==> r.fields[i].(load := s.fields[i].load) == s.fields[i])
      && (forall i :: 0 <= i < |s.fields| && IsKeyField(s.fields[i]) ==> r.fields[i].load)
      && (|selectors| == 0 ==> !SelectsGraphFields(selectors, nonExpandable))
      && (!SelectsGraphFields(selectors, nonExpandable) ==>
            && r.graphFieldsLoadedViaExpression == s.graphFieldsLoadedViaExpression
            && forall i :: 0 <= i < |s.fields| && !IsKeyField(s.fields[i]) ==> r.fields[i].load == s.fields[i].load)
      && (|selectors| > 0 ==> r.sharePointFieldsLoadedViaExpression)
      && (|selectors| == 0 ==> r.sharePointFieldsLoadedViaExpression == s.sharePointFieldsLoadedViaExpression)
      && (SelectsGraphFields(selectors, nonExpandable) ==>
            && r.graphFieldsLoadedViaExpression
            && forall i :: 0 <= i < |s.fields| && !IsKeyField(s.fields[i]) ==>
                 (r.fields[i].load <==> s.fields[i].load && Some(s.fields[i].name) in selectors))
      && r.(fields := s.fields, sharePointFieldsLoadedViaExpression := s.sharePointFieldsLoadedViaExpression,
            graphFieldsLoadedViaExpression := s.graphFieldsLoadedViaExpression, target := s.target) == s
  {
  }

  /** Every selector that names a non-expandable collection leaves the Graph field list, and the Load flags, alone. */
  lemma NonExpandableSelectorsDoNotRestrict(types: TypeRegistry, s: EntityInfo, target: Option<ModelObject>,
                                            selectors: seq<Option<string>>, nonExpandable: seq<string>)
    requires forall k :: 0 <= k < |selectors| ==> IsNonExpandableCollection(nonExpandable, selectors[k])
    ensures var r := Specialized(types, s, target, selectors, nonExpandable);
      forall i :: 0 <= i < |s.fields| ==> r.fields[i].load == (s.fields[i].load || IsKeyField(s.fields[i]))
  {
  }

  /**
   * The context recorded on the copy: the parent's type, skipping one collection
   * level; with no target, a target without a parent, or a collection parent
   * without a parent of its own, the static copy's target stays.
   */
  lemma SpecializedContext(types: TypeRegistry, s: EntityInfo, target: Option<ModelObject>,
                           selectors: seq<Option<string>>, nonExpandable: seq<string>)
    ensures var r := Specialized(types, s, target, selectors, nonExpandable);
      && (target.None? ==> r.target == s.target)
      && (target.Some? && target.value.parent.None? ==> r.target == s.target)
      && (target.Some? && target.value.parent.Some? &&
          !DeclOf(types, target.value.parent.value.runtimeType).isManageableCollection ==>
            r.target == Some(target.value.parent.value.runtimeType))
      && (target.Some? && target.value.parent.Some? &&
          DeclOf(types, target.value.parent.value.runtimeType).isManageableCollection ==>
            r.target == (if target.value.parent.value.parent.Some?
                         then Some(target.value.parent.value.parent.value.runtimeType) else s.target))
  {
  }
}
