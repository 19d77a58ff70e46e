// SharedFieldIndexer of clientutils/fieldindexer.go: a registry of field
// index functions, one per (object flavour, group/version/kind, field), whose
// entries remember whether the underlying indexer has already been called.

module FieldIndexer {
  import opened Kube

  /** The identity of a client.IndexerFunc. */
  datatype IndexerFunc = IndexerFunc(id: nat)

  /** A registered index function and whether the underlying indexer has been called with it. */
  datatype MapEntry = MapEntry(initialized: bool, extractValue: IndexerFunc)

  /** The registry for one object flavour: group/version/kind to field name to entry. */
  class SpecificMap {
    var gvkToNameToEntry: map<GroupVersionKind, map<string, MapEntry>>

    constructor New()
      ensures gvkToNameToEntry == map[]
    {
      gvkToNameToEntry := map[];
    }

    /** get: the entry for the kind and field, nil (None) when either is unknown. */
    function Lookup(gvk: GroupVersionKind, name: string): Option<MapEntry>
      reads this
    {
      if gvk in gvkToNameToEntry && name in gvkToNameToEntry[gvk] then Some(gvkToNameToEntry[gvk][name])
      else None
    }

    /** setIfNotPresent: registers a fresh entry only when none exists; reports whether it did. */
    method SetIfNotPresent(gvk: GroupVersionKind, name: string, extractValue: IndexerFunc) returns (updated: bool)
      modifies this
      ensures updated <==> old(Lookup(gvk, name)).None?
      ensures forall g, n :: (Lookup(g, n) ==
        if updated && g == gvk && n == name then Some(MapEntry(false, extractValue)) else old(Lookup(g, n)))
    {
      var nameToEntry := if gvk in gvkToNameToEntry then gvkToNameToEntry[gvk] else map[];
      if name in nameToEntry {
        return false;
      }
      gvkToNameToEntry := gvkToNameToEntry[gvk := nameToEntry[name := MapEntry(false, extractValue)]];
      updated := true;
    }

    /** `entry.initialized = true`: the entry keeps its function and is marked initialized. */
    method MarkInitialized(gvk: GroupVersionKind, name: string)
      requires Lookup(gvk, name).Some?
      modifies this
      ensures forall g, n :: (Lookup(g, n) ==
        if g == gvk && n == name then Some(old(Lookup(gvk, name)).value.(initialized := true)) else old(Lookup(g, n)))
    {
      var nameToEntry := gvkToNameToEntry[gvk];
      gvkToNameToEntry := gvkToNameToEntry[gvk := nameToEntry[name := nameToEntry[name].(initialized := true)]];
    }
  }

  class SharedFieldIndexer {
    const scheme: Scheme
    const unstructured: SpecificMap
    const metadata: SpecificMap
    const structured: SpecificMap

    /** The three registries are separate objects. */
    predicate Valid()
    {
      unstructured != metadata && metadata != structured && unstructured != structured
    }

    /** NewSharedFieldIndexer: three empty registries. */
    constructor New(scheme: Scheme)
      ensures Valid()
      ensures this.scheme == scheme
      ensures fresh(unstructured) && fresh(metadata) && fresh(structured)
      ensures unstructured.gvkToNameToEntry == map[] && metadata.gvkToNameToEntry == map[]
              && structured.gvkToNameToEntry == map[]
    {
      this.scheme := scheme;
      unstructured := new SpecificMap.New();
      metadata := new SpecificMap.New();
      structured := new SpecificMap.New();
    }

    /**
     * mapFor: the registry for the object's flavour (unstructured, partial
     * metadata, or any other typed object) and its kind, or the kind's error.
     */
    function MapFor(obj: Object): (r: Result<(SpecificMap, GroupVersionKind)>)
      ensures r.Err? <==> GVKForObject(scheme, obj).Err?
      ensures r.Err? ==> r.error == GVKForObject(scheme, obj).error
      ensures r.Ok? ==> r.value.1 == GVKForObject(scheme, obj).value
      ensures r.Ok? ==> r.value.0 == (if obj.flavour.Unstructured? then unstructured
                                      else if IsPartialObjectMetadata(obj) then metadata
                                      else structured)
    {
      match GVKForObject(scheme, obj)
      case Err(e) => Err(e)
      case Ok(gvk) =>
        if obj.flavour.Unstructured? then Ok((unstructured, gvk))
        else if IsPartialObjectMetadata(obj) then Ok((metadata, gvk))
        else Ok((structured, gvk))
    }

    /** get: the entry for the object's kind and the field, or the kind's error. */
    function Get(obj: Object, name: string): (r: Result<Option<MapEntry>>)
      reads unstructured, metadata, structured
      ensures r.Err? <==> MapFor(obj).Err?
      ensures r.Ok? ==> r.value == MapFor(obj).value.0.Lookup(MapFor(obj).value.1, name)
    {
      match MapFor(obj)
      case Err(e) => Err(e)
      case Ok((m, gvk)) => Ok(m.Lookup(gvk, name))
    }

    /**
     * Register: the first registration of a field for an object's flavour and
     * kind succeeds; a later one fails with "already registered" and keeps the
     * original entry. A kind that does not resolve registers nothing.
     */
    method Register(obj: Object, field: string, extractValue: IndexerFunc) returns (err: Option<Error>)
      requires Valid()
      modifies unstructured, metadata, structured
      ensures MapFor(obj).Err? ==> (err == Some(MapFor(obj).error)
                                    && unchanged(unstructured) && unchanged(metadata) && unchanged(structured))
      ensures MapFor(obj).Ok? ==>
        var (m, gvk) := MapFor(obj).value;
        (err.None? <==> old(m.Lookup(gvk, field)).None?)
        && (err.Some? ==> err == Some(AlreadyRegistered(field)))
        && (forall g, n :: m.Lookup(g, n) ==
              if err.None? && g == gvk && n == field then Some(MapEntry(false, extractValue)) else old(m.Lookup(g, n)))
        && (m != unstructured ==> unchanged(unstructured))
        && (m != metadata ==> unchanged(metadata))
        && (m != structured ==> unchanged(structured))
    {
      var target := MapFor(obj);
      if target.Err? {
        return Some(target.error);
      }
      var (m, gvk) := target.value;
      var updated := m.SetIfNotPresent(gvk, field, extractValue);
      if !updated {
        return Some(AlreadyRegistered(field));
      }
      err := None;
    }

    /**
     * IndexField: calls the underlying indexer with the registered function
     * unless the entry is already initialized, and marks it initialized once
     * that call succeeds. `called` tells whether the underlying indexer ran.
     */
    method IndexField(obj: Object, field: string, underlying: (Object, string, IndexerFunc) -> Option<Error>)
      returns (err: Option<Error>, called: bool)
      requires Valid()
      modifies unstructured, metadata, structured
      ensures old(Get(obj, field)).Err? ==> err == Some(old(Get(obj, field)).error) && !called
      ensures old(Get(obj, field)) == Ok(None) ==> err == Some(UnknownField(field)) && !called
      ensures old(Get(obj, field)).Ok? && old(Get(obj, field)).value.Some? ==>
        var entry := old(Get(obj, field)).value.value;
        (called <==> !entry.initialized)
        && (called ==> err == underlying(obj, field, entry.extractValue))
        && (!called ==> err.None?)
      ensures called && err.None? ==>
        var (m, gvk) := MapFor(obj).value;
        (forall g, n :: m.Lookup(g, n) ==
           if g == gvk && n == field then Some(old(m.Lookup(gvk, field)).value.(initialized := true)) else old(m.Lookup(g, n)))
        && (m != unstructured ==> unchanged(unstructured))
        && (m != metadata ==> unchanged(metadata))
        && (m != structured ==> unchanged(structured))
      ensures !(called && err.None?) ==> unchanged(unstructured) && unchanged(metadata) && unchanged(structured)
    {
      var target := MapFor(obj);
      if target.Err? {
        return Some(target.error), false;
      }
      var (m, gvk) := target.value;
      var entry := m.Lookup(gvk, field);
      if entry.None? {
        return Some(UnknownField(field)), false;
      }
      if entry.value.initialized {
        return None, false;
      }
      var e := underlying(obj, field, entry.value.extractValue);
      if e.Some? {
        return e, true;
      }
      m.MarkInitialized(gvk, field);
      err, called := None, true;
    }

    /** Indexing the same field twice runs the underlying indexer at most once when the first call succeeds. */
    method IndexFieldTwice(obj: Object, field: string, underlying: (Object, string, IndexerFunc) -> Option<Error>)
      returns (first: Option<Error>, second: Option<Error>, calls: nat)
      requires Valid()
      modifies unstructured, metadata, structured
      ensures first.None? ==> calls <= 1 && second.None?
    {
      var called1, called2;
      first, called1 := IndexField(obj, field, underlying);
      second, called2 := IndexField(obj, field, underlying);
      calls := (if called1 then 1 else 0) + (if called2 then 1 else 0);
    }
  }
}
