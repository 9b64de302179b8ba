/** Interface-to-concrete type resolution and the instance factory of the entity manager. */
module TypeResolution {
  import opened Wrappers
  import opened Metadata
  import opened EntityInfos

  /**
   * GetEntityConcreteType: an interface carrying a ConcreteType attribute resolves
   * to that attribute's type; every other type resolves to itself.
   */
  function GetEntityConcreteType(types: TypeRegistry, t: TypeId): (r: TypeId)
    ensures DeclOf(types, t).isInterface && DeclOf(types, t).concreteType.Some? ==>
              r == DeclOf(types, t).concreteType.value
    ensures !DeclOf(types, t).isInterface || DeclOf(types, t).concreteType.None? ==> r == t
  {
    var decl := DeclOf(types, t);
    if decl.isInterface && decl.concreteType.Some? then decl.concreteType.value else t
  }

  /** The registry's ConcreteType attributes all name classes, not interfaces. */
  ghost predicate ConcreteTypesAreClasses(types: TypeRegistry) {
    forall t :: t in types && types[t].concreteType.Some? ==>
      !DeclOf(types, types[t].concreteType.value).isInterface
  }

  /** When concrete types are classes, resolving a resolved type changes nothing more. */
  lemma GetEntityConcreteTypeIdempotent(types: TypeRegistry, t: TypeId)
    requires ConcreteTypesAreClasses(types)
    ensures GetEntityConcreteType(types, GetEntityConcreteType(types, t)) == GetEntityConcreteType(types, t)
  {
    var decl := DeclOf(types, t);
    if decl.isInterface && decl.concreteType.Some? {
      assert t in types;
    }
  }

  /**
   * The typed GetEntityConcreteInstance: a null type is an ArgumentNull error;
   * otherwise an instance of the resolved concrete type, whose Parent is the given
   * parent when the type implements IDataModelParent.
   */
  function GetEntityConcreteInstance(types: TypeRegistry, t: Option<TypeId>, parent: Option<ModelObject>)
    : (r: Result<ModelObject, Error>)
    ensures t.None? <==> r == Failure(ArgumentNull)
    ensures r.Failure? ==> r.error == ArgumentNull
    ensures t.Some? ==> r.Success? && r.value.runtimeType == GetEntityConcreteType(types, t.value)
    ensures t.Some? && DeclOf(types, r.value.runtimeType).implementsDataModelParent ==> r.value.parent == parent
    ensures t.Some? && !DeclOf(types, r.value.runtimeType).implementsDataModelParent ==> r.value.parent.None?
  {
    if t.None? then Failure(ArgumentNull)
    else
      var concrete := GetEntityConcreteType(types, t.value);
      var instance := ModelObject(concrete, None);
      if DeclOf(types, concrete).implementsDataModelParent then Success(instance.(parent := parent))
      else Success(instance)
  }

  /**
   * The untyped GetEntityConcreteInstance (a TransientObject): a null type is an
   * ArgumentNull error; otherwise an instance of the resolved concrete type with no parent.
   */
  function GetEntityConcreteTransientInstance(types: TypeRegistry, t: Option<TypeId>)
    : (r: Result<ModelObject, Error>)
    ensures t.None? <==> r == Failure(ArgumentNull)
    ensures r.Failure? ==> r.error == ArgumentNull
    ensures t.Some? ==> r == Success(ModelObject(GetEntityConcreteType(types, t.value), None))
  {
    if t.None? then Failure(ArgumentNull)
    else Success(ModelObject(GetEntityConcreteType(types, t.value), None))
  }
}
