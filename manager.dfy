/**
 * The EntityManager singleton: a cache of static entity metadata keyed by concrete
 * type, filled on first use by a scan, and the per-call operations built on it.
 */
module Manager {
  import opened Wrappers
  import opened Metadata
  import opened EntityInfos
  import opened TypeResolution
  import opened Scanner
  import opened FieldSelection

  class EntityManager {
    /** The types the model knows, standing in for runtime reflection. */
    const types: TypeRegistry
    /** Static metadata per concrete type, filled on first use. */
    var entityCache: map<TypeId, EntityInfo>

    /** Every cached entry is what a scan of its type produces; failed scans are never cached. */
    ghost predicate Valid()
      reads this
    {
      forall t :: t in entityCache ==> Scan(types, t) == Success(entityCache[t])
    }

    /** The cache after one lookup of concrete type `t`: unchanged on a hit or a failed scan, extended on a successful one. */
    ghost function CacheAfterLookup(cache: map<TypeId, EntityInfo>, t: TypeId): map<TypeId, EntityInfo> {
      if t in cache then cache
      else match Scan(types, t)
        case Success(info) => cache[t := info]
        case Failure(_) => cache
    }

    /**
     * A lookup keeps every cached entry, may add only the looked-up type, adds it
     * exactly when its scan succeeds, and a second lookup of the same type is a hit.
     */
    lemma CacheAfterLookupFacts(cache: map<TypeId, EntityInfo>, t: TypeId)
      ensures var after := CacheAfterLookup(cache, t);
        && (forall k :: k in cache ==> k in after && after[k] == cache[k])
        && (forall k :: k in after && k != t ==> k in cache)
        && (t in after <==> t in cache || Scan(types, t).Success?)
        && CacheAfterLookup(after, t) == after
    {
    }

    constructor (types: TypeRegistry)
      ensures Valid()
      ensures this.types == types && entityCache == map[]
    {
      this.types := types;
      entityCache := map[];
    }

    /**
     * The static metadata of a type: resolved to its concrete type, served from the
     * cache when present, else scanned and, when the scan succeeds, cached.
     */
    method GetStaticClassInfo(modelType: TypeId) returns (r: Result<EntityInfo, Error>)
      requires Valid()
      modifies this
      ensures Valid()
      ensures r == Scan(types, GetEntityConcreteType(types, modelType))
      ensures var t := GetEntityConcreteType(types, modelType);
        && entityCache == CacheAfterLookup(old(entityCache), t)
        && (t in old(entityCache) ==> r == Success(old(entityCache)[t]))
        && (r.Success? ==> t in entityCache && entityCache[t] == r.value)
    {
      var t := GetEntityConcreteType(types, modelType);
      if t in entityCache {
        return Success(entityCache[t]);
      }
      r := ScanType(types, t);
      if r.Success? {
        // TryAdd: insert only when absent; the value it would report is not used
        if t !in entityCache {
          entityCache := entityCache[t := r.value];
        }
      }
    }

    /**
     * The metadata for one load: the static metadata of `modelType`, copied and
     * specialised to the selected fields and the target's context.
     */
    method GetClassInfo(modelType: TypeId, target: Option<ModelObject>,
                        selectors: seq<Option<string>>, nonExpandable: seq<string>)
      returns (r: Result<EntityInfo, Error>)
      requires Valid()
      modifies this
      ensures Valid()
      ensures entityCache == CacheAfterLookup(old(entityCache), GetEntityConcreteType(types, modelType))
      ensures match Scan(types, GetEntityConcreteType(types, modelType))
        case Failure(e) => r == Failure(e)
        case Success(info) => r == Success(Specialized(types, info, target, selectors, nonExpandable))
    {
      var staticClassInfo := GetStaticClassInfo(modelType);
      if staticClassInfo.Failure? {
        return Failure(staticClassInfo.error);
      }
      var entityInfo := Specialize(types, staticClassInfo.value, target, selectors, nonExpandable);
      r := Success(entityInfo);
    }

    /**
     * The accessor of an entity's key: the recorded key property of its runtime
     * type; a type without one is an invalid domain model configuration.
     */
    method GetEntityKeyExpressions(entity: ModelObject) returns (r: Result<KeyAccessor, Error>)
      requires Valid()
      modifies this
      ensures Valid()
      ensures entityCache == CacheAfterLookup(old(entityCache), GetEntityConcreteType(types, entity.runtimeType))
      ensures match Scan(types, GetEntityConcreteType(types, entity.runtimeType))
        case Failure(e) => r == Failure(e)
        case Success(info) =>
          if IsNullOrEmpty(info.actualKeyFieldName) then r == Failure(InvalidDomainModelConfiguration)
          else r == Success(KeyAccessor(entity.runtimeType, info.actualKeyFieldName.value))
    {
      var entityType := entity.runtimeType;
      var entityInfo := GetStaticClassInfo(entityType);
      if entityInfo.Failure? {
        return Failure(entityInfo.error);
      }
      if IsNullOrEmpty(entityInfo.value.actualKeyFieldName) {
        return Failure(InvalidDomainModelConfiguration);
      }
      r := Success(KeyAccessor(entityType, entityInfo.value.actualKeyFieldName.value));
    }
  }
}
