// Store of memorystore/memorystore.go: an in-memory client that keeps objects
// in a map keyed by their version-independent reference. Every verb rejects
// the options it does not support before it looks at the map.

module MemoryStore {
  import opened Kube
  import Sets
  import MetaUtils
  import opened ObjectRefs

  datatype CreateOptions = CreateOptions(raw: bool, dryRun: bool)

  datatype GetOptions = GetOptions(raw: bool)

  /**
   * List options. `labelSelector` is an equality selector (label name to
   * required value), None when no selector is given; `raw` and
   * `fieldSelector` tell whether those options are set.
   */
  datatype ListOptions = ListOptions(
    namespace: string,
    labelSelector: Option<map<string, string>>,
    raw: bool,
    continueToken: string,
    limit: int,
    fieldSelector: bool)

  datatype DeleteOptions = DeleteOptions(dryRun: bool, gracePeriodSeconds: bool, preconditions: bool, propagationPolicy: bool)

  datatype DeleteAllOfOptions = DeleteAllOfOptions(listOptions: ListOptions, deleteOptions: DeleteOptions)

  datatype UpdateOptions = UpdateOptions(dryRun: bool, raw: bool, fieldManager: string)

  /** validateClientCreateOptions: Raw and DryRun are rejected, in that order. */
  function ValidateCreateOptions(o: CreateOptions): (r: Option<Error>)
    ensures r.None? <==> !o.raw && !o.dryRun
    ensures o.raw ==> r == Some(Unsupported("raw"))
    ensures !o.raw && o.dryRun ==> r == Some(Unsupported("dry run"))
  {
    if o.raw then Some(Unsupported("raw"))
    else if o.dryRun then Some(Unsupported("dry run"))
    else None
  }

  /** validateClientGetOptions: Raw is rejected. */
  function ValidateGetOptions(o: GetOptions): (r: Option<Error>)
    ensures r.None? <==> !o.raw
    ensures r.Some? ==> r == Some(Unsupported("raw"))
  {
    if o.raw then Some(Unsupported("raw")) else None
  }

  /** validateClientListOptions: Raw, Continue, Limit and FieldSelector are rejected, in that order. */
  function ValidateListOptions(o: ListOptions): (r: Option<Error>)
    ensures r.None? <==> !o.raw && o.continueToken == "" && o.limit == 0 && !o.fieldSelector
    ensures r.Some? ==> r.value in {Unsupported("raw"), Unsupported("continue"), Unsupported("limit"), Unsupported("field selector")}
    ensures o.raw ==> r == Some(Unsupported("raw"))
    ensures !o.raw && o.continueToken != "" ==> r == Some(Unsupported("continue"))
    ensures !o.raw && o.continueToken == "" && o.limit != 0 ==> r == Some(Unsupported("limit"))
    ensures !o.raw && o.continueToken == "" && o.limit == 0 && o.fieldSelector ==> r == Some(Unsupported("field selector"))
  {
    if o.raw then Some(Unsupported("raw"))
    else if o.continueToken != "" then Some(Unsupported("continue"))
    else if o.limit != 0 then Some(Unsupported("limit"))
    else if o.fieldSelector then Some(Unsupported("field selector"))
    else None
  }

  /** validateClientDeleteOptions: DryRun, GracePeriodSeconds, Preconditions and PropagationPolicy are rejected, in that order. */
  function ValidateDeleteOptions(o: DeleteOptions): (r: Option<Error>)
    ensures r.None? <==> !o.dryRun && !o.gracePeriodSeconds && !o.preconditions && !o.propagationPolicy
    ensures o.dryRun ==> r == Some(Unsupported("dry run"))
    ensures !o.dryRun && o.gracePeriodSeconds ==> r == Some(Unsupported("grace period seconds"))
    ensures !o.dryRun && !o.gracePeriodSeconds && o.preconditions ==> r == Some(Unsupported("preconditions"))
    ensures !o.dryRun && !o.gracePeriodSeconds && !o.preconditions && o.propagationPolicy ==>
      r == Some(Unsupported("propagation policy"))
  {
    if o.dryRun then Some(Unsupported("dry run"))
    else if o.gracePeriodSeconds then Some(Unsupported("grace period seconds"))
    else if o.preconditions then Some(Unsupported("preconditions"))
    else if o.propagationPolicy then Some(Unsupported("propagation policy"))
    else None
  }

  /** validateClientDeleteAllOfOptions: the list options first, then the delete options. */
  function ValidateDeleteAllOfOptions(o: DeleteAllOfOptions): (r: Option<Error>)
    ensures r.None? <==> ValidateListOptions(o.listOptions).None? && ValidateDeleteOptions(o.deleteOptions).None?
    ensures ValidateListOptions(o.listOptions).Some? ==> r == ValidateListOptions(o.listOptions)
    ensures ValidateListOptions(o.listOptions).None? ==> r == ValidateDeleteOptions(o.deleteOptions)
  {
    if ValidateListOptions(o.listOptions).Some? then ValidateListOptions(o.listOptions)
    else ValidateDeleteOptions(o.deleteOptions)
  }

  /** validateClientUpdateOptions: DryRun, Raw and FieldManager are rejected, in that order. */
  function ValidateUpdateOptions(o: UpdateOptions): (r: Option<Error>)
    ensures r.None? <==> !o.dryRun && !o.raw && o.fieldManager == ""
    ensures o.dryRun ==> r == Some(Unsupported("dry run"))
    ensures !o.dryRun && o.raw ==> r == Some(Unsupported("raw"))
    ensures !o.dryRun && !o.raw && o.fieldManager != "" ==> r == Some(Unsupported("field manager"))
  {
    if o.dryRun then Some(Unsupported("dry run"))
    else if o.raw then Some(Unsupported("raw"))
    else if o.fieldManager != "" then Some(Unsupported("field manager"))
    else None
  }

  /** An equality selector matches when every selected label is present with the selected value. */
  predicate SelectorMatches(selector: map<string, string>, labels: map<string, string>)
  {
    forall l :: l in selector ==> l in labels && labels[l] == selector[l]
  }

  /** objectMatchesClientListOptions: namespace empty or equal, and the selector (if any) matching. */
  predicate ObjectMatches(obj: Object, o: ListOptions)
    ensures o.namespace == "" && o.labelSelector.None? ==> ObjectMatches(obj, o)
    ensures ObjectMatches(obj, o) && o.namespace != "" ==> obj.namespace == o.namespace
  {
    (o.namespace == "" || o.namespace == obj.namespace)
    && (o.labelSelector.None? || SelectorMatches(o.labelSelector.value, obj.labels))
  }

  /** The objects of a kind that a list with the given options returns. */
  ghost function Listed(entries: map<ObjectRef, Object>, gk: GroupKind, o: ListOptions): set<Object>
  {
    set k | k in entries && k.groupKind == gk && ObjectMatches(entries[k], o) :: entries[k]
  }

  /** The entries DeleteAllOf leaves: everything not of the kind or not matching the options. */
  function Remaining(entries: map<ObjectRef, Object>, gk: GroupKind, o: ListOptions): (r: map<ObjectRef, Object>)
    ensures forall k :: k in r ==> k in entries && r[k] == entries[k]
    ensures forall k :: k in entries ==> (k in r <==> !(k.groupKind == gk && ObjectMatches(entries[k], o)))
  {
    map k | k in entries && !(k.groupKind == gk && ObjectMatches(entries[k], o)) :: entries[k]
  }

  /** After deleting all matching objects of a kind, listing that kind with the same options finds nothing. */
  lemma NothingListedAfterDeleteAllOf(entries: map<ObjectRef, Object>, gk: GroupKind, o: ListOptions)
    ensures Listed(Remaining(entries, gk, o), gk, o) == {}
  {
    var rem := Remaining(entries, gk, o);
    assert forall k :: k in rem ==> !(k.groupKind == gk && ObjectMatches(rem[k], o));
  }

  /** Deleting all of one kind leaves the objects of every other kind alone. */
  lemma DeleteAllOfSparesOtherKinds(entries: map<ObjectRef, Object>, gk: GroupKind, o: ListOptions, k: ObjectRef)
    requires k in entries && k.groupKind != gk
    ensures k in Remaining(entries, gk, o) && Remaining(entries, gk, o)[k] == entries[k]
  {
  }

  class Store {
    const scheme: Scheme
    var entries: map<ObjectRef, Object>

    /** Each object is stored under its own reference. */
    ghost predicate Valid()
      reads this
    {
      forall k :: k in entries ==> ObjectRefFromObject(scheme, entries[k]) == Ok(k)
    }

    /** New: an empty store over the scheme. */
    constructor New(scheme: Scheme)
      ensures Valid()
      ensures this.scheme == scheme && entries == map[]
    {
      this.scheme := scheme;
      entries := map[];
    }

    /**
     * Create: rejects unsupported options and unresolvable kinds, fails with
     * AlreadyExists when the reference is taken, and otherwise stores the
     * object under its reference and changes nothing else.
     */
    method Create(obj: Object, opts: CreateOptions) returns (err: Option<Error>)
      requires Valid()
      modifies this
      ensures Valid()
      ensures ValidateCreateOptions(opts).Some? ==> err == ValidateCreateOptions(opts) && entries == old(entries)
      ensures ValidateCreateOptions(opts).None? && ObjectRefFromObject(scheme, obj).Err? ==>
        err == Some(ObjectRefFromObject(scheme, obj).error) && entries == old(entries)
      ensures ValidateCreateOptions(opts).None? && ObjectRefFromObject(scheme, obj).Ok? ==>
        var key := ObjectRefFromObject(scheme, obj).value;
        (key in old(entries) ==> err == Some(AlreadyExists(key.groupKind, key.key)) && entries == old(entries))
        && (key !in old(entries) ==> err.None? && entries == old(entries)[key := obj])
    {
      err := ValidateCreateOptions(opts);
      if err.Some? {
        return;
      }
      var key := ObjectRefFromObject(scheme, obj);
      if key.Err? {
        return Some(key.error);
      }
      if key.value in entries {
        return Some(AlreadyExists(key.value.groupKind, key.value.key));
      }
      entries := entries[key.value := obj];
    }

    /**
     * Get: the object stored under the group kind of `obj` and the given key,
     * or NotFound. Conversion into `obj` is the identity here.
     */
    method Get(objectKey: ObjectKey, obj: Object, opts: GetOptions) returns (r: Result<Object>)
      ensures ValidateGetOptions(opts).Some? ==> r == Err(ValidateGetOptions(opts).value)
      ensures ValidateGetOptions(opts).None? && ObjectRefFromObject(scheme, obj).Err? ==>
        r == Err(ObjectRefFromObject(scheme, obj).error)
      ensures ValidateGetOptions(opts).None? && ObjectRefFromObject(scheme, obj).Ok? ==>
        var key := ObjectRef(ObjectRefFromObject(scheme, obj).value.groupKind, objectKey);
        (key !in entries ==> r == Err(NotFound(key.groupKind, objectKey)))
        && (key in entries ==> r == Ok(entries[key]))
    {
      var e := ValidateGetOptions(opts);
      if e.Some? {
        return Err(e.value);
      }
      var ref := ObjectRefFromObject(scheme, obj);
      if ref.Err? {
        return Err(ref.error);
      }
      var key := ref.value.(key := objectKey);
      if key !in entries {
        return Err(NotFound(key.groupKind, objectKey));
      }
      r := Ok(entries[key]);
    }

    /** The stored objects whose reference and value satisfy `keep`, each once, in no particular order. */
    method CollectWhere(keep: (ObjectRef, Object) -> bool) returns (res: seq<Object>)
      requires Valid()
      ensures Sets.Members(res) == set k | k in entries && keep(k, entries[k]) :: entries[k]
      ensures forall i, j :: 0 <= i < j < |res| ==> res[i] != res[j]
    {
      res := [];
      var rest := entries.Keys;
      while rest != {}
        invariant rest <= entries.Keys
        invariant forall i :: 0 <= i < |res| ==>
          (ObjectRefFromObject(scheme, res[i]).Ok? && ObjectRefFromObject(scheme, res[i]).value !in rest)
        invariant Sets.Members(res) == set k | k in entries && k !in rest && keep(k, entries[k]) :: entries[k]
        invariant forall i, j :: 0 <= i < j < |res| ==> res[i] != res[j]
        decreases |rest|
      {
        var k :| k in rest;
        if keep(k, entries[k]) {
          assert Sets.Members(res + [entries[k]]) == Sets.Members(res) + {entries[k]};
          res := res + [entries[k]];
        }
        rest := rest - {k};
      }
    }

    /** Objects: every stored object once. */
    method Objects() returns (res: seq<Object>)
      requires Valid()
      ensures Sets.Members(res) == entries.Values
      ensures |res| == |entries|
    {
      res := CollectWhere((k: ObjectRef, o: Object) => true);
      assert entries.Values == set k | k in entries && true :: entries[k];
      ValuesCount();
      Sets.MembersCount(res);
    }

    /** Under Valid, distinct keys hold distinct objects, so there are as many values as keys. */
    lemma ValuesCount()
      requires Valid()
      ensures |entries.Values| == |entries|
    {
      forall a, b | a in entries && b in entries && entries[a] == entries[b] ensures a == b {
        assert ObjectRefFromObject(scheme, entries[a]) == Ok(a);
      }
      Sets.InjectiveValues(entries);
    }

    /**
     * List: the stored objects of the list's item kind (its kind without a
     * trailing "List") that match the options, each once.
     */
    method List(list: Object, opts: ListOptions) returns (r: Result<seq<Object>>)
      requires Valid()
      ensures ValidateListOptions(opts).Some? ==> r == Err(ValidateListOptions(opts).value)
      ensures ValidateListOptions(opts).None? && MetaUtils.GVKForList(scheme, list).Err? ==>
        r == Err(MetaUtils.GVKForList(scheme, list).error)
      ensures ValidateListOptions(opts).None? && MetaUtils.GVKForList(scheme, list).Ok? ==>
        r.Ok? && Sets.Members(r.value) == Listed(entries, MetaUtils.GVKForList(scheme, list).value.ToGroupKind(), opts)
        && forall i, j :: 0 <= i < j < |r.value| ==> r.value[i] != r.value[j]
    {
      var e := ValidateListOptions(opts);
      if e.Some? {
        return Err(e.value);
      }
      var gvk := MetaUtils.GVKForList(scheme, list);
      if gvk.Err? {
        return Err(gvk.error);
      }
      var gk := gvk.value.ToGroupKind();
      var res := CollectWhere((k: ObjectRef, o: Object) => k.groupKind == gk && ObjectMatches(o, opts));
      r := Ok(res);
    }

    /** GroupKindObjects: the stored objects of the group kind, nil when there are none. */
    method GroupKindObjects(gk: GroupKind) returns (res: Slice<Object>)
      requires Valid()
      ensures Sets.Members(res.Elems()) == set k | k in entries && k.groupKind == gk :: entries[k]
      ensures forall i, j :: 0 <= i < j < |res.Elems()| ==> res.Elems()[i] != res.Elems()[j]
      ensures res.Nil? <==> forall k :: k in entries ==> k.groupKind != gk
    {
      var objs := CollectWhere((k: ObjectRef, o: Object) => k.groupKind == gk);
      if |objs| == 0 {
        res := Nil;
        assert forall k :: k in entries && k.groupKind == gk ==> entries[k] in Sets.Members(objs);
      } else {
        res := Of(objs);
        assert objs[0] in Sets.Members(objs);
      }
    }

    /** GroupKinds: the group kinds of the stored objects, each once, nil for an empty store. */
    method GroupKinds() returns (res: Slice<GroupKind>)
      ensures Sets.Members(res.Elems()) == set k | k in entries :: k.groupKind
      ensures forall i, j :: 0 <= i < j < |res.Elems()| ==> res.Elems()[i] != res.Elems()[j]
      ensures res.Nil? <==> entries == map[]
    {
      var seen: set<GroupKind> := {};
      res := Nil;
      var rest := entries.Keys;
      while rest != {}
        invariant rest <= entries.Keys
        invariant seen == Sets.Members(res.Elems())
        invariant seen == set k | k in entries && k !in rest :: k.groupKind
        invariant forall i, j :: 0 <= i < j < |res.Elems()| ==> res.Elems()[i] != res.Elems()[j]
        invariant res.Nil? <==> rest == entries.Keys
        decreases |rest|
      {
        var k :| k in rest;
        if k.groupKind !in seen {
          assert Sets.Members(res.Elems() + [k.groupKind]) == Sets.Members(res.Elems()) + {k.groupKind};
          seen := seen + {k.groupKind};
          res := Of(res.Elems() + [k.groupKind]);
        }
        rest := rest - {k};
      }
    }

    /** Delete: NotFound when the object's reference is absent; otherwise removes exactly that entry. */
    method Delete(obj: Object, opts: DeleteOptions) returns (err: Option<Error>)
      requires Valid()
      modifies this
      ensures Valid()
      ensures ValidateDeleteOptions(opts).Some? ==> err == ValidateDeleteOptions(opts) && entries == old(entries)
      ensures ValidateDeleteOptions(opts).None? && ObjectRefFromObject(scheme, obj).Err? ==>
        err == Some(ObjectRefFromObject(scheme, obj).error) && entries == old(entries)
      ensures ValidateDeleteOptions(opts).None? && ObjectRefFromObject(scheme, obj).Ok? ==>
        var key := ObjectRefFromObject(scheme, obj).value;
        (key !in old(entries) ==> err == Some(NotFound(key.groupKind, key.key)) && entries == old(entries))
        && (key in old(entries) ==> err.None? && entries == old(entries) - {key})
    {
      err := ValidateDeleteOptions(opts);
      if err.Some? {
        return;
      }
      var key := ObjectRefFromObject(scheme, obj);
      if key.Err? {
        return Some(key.error);
      }
      if key.value !in entries {
        return Some(NotFound(key.value.groupKind, key.value.key));
      }
      entries := entries - {key.value};
    }

    /**
     * DeleteAllOf: after the list and delete options are accepted and the kind
     * resolves, removes exactly the entries of that group kind matching the list
     * options; all other entries remain.
     */
    method DeleteAllOf(obj: Object, opts: DeleteAllOfOptions) returns (err: Option<Error>)
      requires Valid()
      modifies this
      ensures Valid()
      ensures ValidateDeleteAllOfOptions(opts).Some? ==> err == ValidateDeleteAllOfOptions(opts) && entries == old(entries)
      ensures ValidateDeleteAllOfOptions(opts).None? && GVKForObject(scheme, obj).Err? ==>
        err == Some(GVKForObject(scheme, obj).error) && entries == old(entries)
      ensures ValidateDeleteAllOfOptions(opts).None? && GVKForObject(scheme, obj).Ok? ==>
        err.None? && entries == Remaining(old(entries), GVKForObject(scheme, obj).value.ToGroupKind(), opts.listOptions)
    {
      err := ValidateDeleteAllOfOptions(opts);
      if err.Some? {
        return;
      }
      var gvk := GVKForObject(scheme, obj);
      if gvk.Err? {
        return Some(gvk.error);
      }
      var gk := gvk.value.ToGroupKind();
      var rest := entries.Keys;
      while rest != {}
        invariant rest <= entries.Keys
        invariant Valid()
        invariant forall k :: k in entries ==> k in old(entries) && entries[k] == old(entries)[k]
        invariant forall k :: k in old(entries) ==>
          (k in entries <==> k in rest || !(k.groupKind == gk && ObjectMatches(old(entries)[k], opts.listOptions)))
        decreases |rest|
      {
        var k :| k in rest;
        if k.groupKind == gk && ObjectMatches(entries[k], opts.listOptions) {
          entries := entries - {k};
        }
        rest := rest - {k};
      }
      assert entries == Remaining(old(entries), gk, opts.listOptions);
    }

    /** Update: NotFound when the object's reference is absent; otherwise replaces that entry, keys unchanged. */
    method Update(obj: Object, opts: UpdateOptions) returns (err: Option<Error>)
      requires Valid()
      modifies this
      ensures Valid()
      ensures ValidateUpdateOptions(opts).Some? ==> err == ValidateUpdateOptions(opts) && entries == old(entries)
      ensures ValidateUpdateOptions(opts).None? && ObjectRefFromObject(scheme, obj).Err? ==>
        err == Some(ObjectRefFromObject(scheme, obj).error) && entries == old(entries)
      ensures ValidateUpdateOptions(opts).None? && ObjectRefFromObject(scheme, obj).Ok? ==>
        var key := ObjectRefFromObject(scheme, obj).value;
        (key !in old(entries) ==> err == Some(NotFound(key.groupKind, key.key)) && entries == old(entries))
        && (key in old(entries) ==> err.None? && entries == old(entries)[key := obj] && entries.Keys == old(entries).Keys)
    {
      err := ValidateUpdateOptions(opts);
      if err.Some? {
        return;
      }
      var key := ObjectRefFromObject(scheme, obj);
      if key.Err? {
        return Some(key.error);
      }
      if key.value !in entries {
        return Some(NotFound(key.value.groupKind, key.value.key));
      }
      entries := entries[key.value := obj];
    }

    /** Patch: not supported; always fails and changes nothing. */
    method Patch(obj: Object, patch: string) returns (err: Option<Error>)
      ensures err == Some(PatchUnsupported)
    {
      err := Some(PatchUnsupported);
    }

    /** An object created in an empty slot is what a Get with its key returns. */
    method CreateThenGet(obj: Object) returns (created: Option<Error>, got: Result<Object>)
      requires Valid()
      requires ObjectRefFromObject(scheme, obj).Ok? && ObjectRefFromObject(scheme, obj).value !in entries
      modifies this
      ensures created.None? && got == Ok(obj)
    {
      created := Create(obj, CreateOptions(false, false));
      got := Get(ObjectKeyFromObject(obj), obj, GetOptions(false));
    }

    /** Creating an object in an empty slot and deleting it again restores the store. */
    method CreateThenDelete(obj: Object) returns (created: Option<Error>, deleted: Option<Error>)
      requires Valid()
      requires ObjectRefFromObject(scheme, obj).Ok? && ObjectRefFromObject(scheme, obj).value !in entries
      modifies this
      ensures created.None? && deleted.None? && entries == old(entries)
    {
      created := Create(obj, CreateOptions(false, false));
      deleted := Delete(obj, DeleteOptions(false, false, false, false));
      assert entries == old(entries);
    }
  }
}
