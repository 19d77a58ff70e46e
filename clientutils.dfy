// The client helpers of clientutils.go: ignoring already-exists errors, batch
// create/get/patch/delete loops that stop at the first error, order-preserving
// converters between objects and requests, and the set of get requests keyed
// by type (typed objects) or group/version/kind (unstructured objects).

module ClientUtils {
  import opened Kube
  import Sets

  /** apierrors.IsAlreadyExists: the error, or an error it wraps, is an already-exists error. */
  predicate IsAlreadyExists(e: Error)
  {
    match e
    case AlreadyExists(_, _) => true
    case Wrapped(_, cause) => IsAlreadyExists(cause)
    case _ => false
  }

  /** IgnoreAlreadyExists: already-exists errors become nil, every other error (and nil) is returned unchanged. */
  function IgnoreAlreadyExists(err: Option<Error>): (r: Option<Error>)
    ensures r.None? <==> err.None? || IsAlreadyExists(err.value)
    ensures r.Some? ==> r == err
  {
    if err.Some? && IsAlreadyExists(err.value) then None else err
  }

  /**
   * The loop shared by the *Multiple helpers: call the client on each item in
   * order and stop at the first error, which is returned wrapped with the
   * item's description. `attempted` counts the client calls made.
   */
  method CallEach<T>(items: seq<T>, call: T -> Option<Error>, describe: T -> string)
    returns (err: Option<Error>, attempted: nat)
    ensures match FirstFailure(items, call)
      case Some(i) => attempted == i + 1 && call(items[i]).Some? && err == Some(Wrapped(describe(items[i]), call(items[i]).value))
      case None => attempted == |items| && err.None?
  {
    attempted := 0;
    while attempted < |items|
      invariant attempted <= |items|
      invariant forall j :: 0 <= j < attempted ==> call(items[j]).None?
    {
      var e := call(items[attempted]);
      if e.Some? {
        FirstFailureAt(items, call, attempted);
        return Some(Wrapped(describe(items[attempted]), e.value)), attempted + 1;
      }
      attempted := attempted + 1;
    }
    FirstFailureNone(items, call);
    err := None;
  }

  function CreateContext(obj: Object): string
  {
    "error creating object " + KeyString(ObjectKeyFromObject(obj))
  }

  /** CreateMultiple: creates the objects in order, stopping at the first failure. */
  method CreateMultiple(objs: seq<Object>, create: Object -> Option<Error>) returns (err: Option<Error>, attempted: nat)
    ensures match FirstFailure(objs, create)
      case Some(i) => attempted == i + 1 && create(objs[i]).Some? && err == Some(Wrapped(CreateContext(objs[i]), create(objs[i]).value))
      case None => attempted == |objs| && err.None?
  {
    err, attempted := CallEach(objs, create, CreateContext);
  }

  /** A request to get the object stored under `key` into `object`. */
  datatype GetRequest = GetRequest(key: ObjectKey, obj: Object)

  /** GetRequestFromObject: the object's own key. */
  function GetRequestFromObject(obj: Object): (r: GetRequest)
    ensures r.key == ObjectKeyFromObject(obj) && r.obj == obj
  {
    GetRequest(ObjectKeyFromObject(obj), obj)
  }

  function GetContext(req: GetRequest): string
  {
    "error getting object " + KeyString(req.key)
  }

  /** GetMultiple: gets the requested objects in order, stopping at the first failure. */
  method GetMultiple(reqs: seq<GetRequest>, get: GetRequest -> Option<Error>) returns (err: Option<Error>, attempted: nat)
    ensures match FirstFailure(reqs, get)
      case Some(i) => attempted == i + 1 && get(reqs[i]).Some? && err == Some(Wrapped(GetContext(reqs[i]), get(reqs[i]).value))
      case None => attempted == |reqs| && err.None?
  {
    err, attempted := CallEach(reqs, get, GetContext);
  }

  /** A patch as the client sees it: server-side apply, or another patch type. */
  datatype Patch = ApplyPatch | OtherPatch(patchType: string)

  /** ApplyAll: the provider that patches every object with server-side apply. */
  const ApplyAll: Object -> Patch := (obj: Object) => ApplyPatch

  datatype PatchRequest = PatchRequest(obj: Object, patch: Patch)

  function PatchRequestFromObjectAndProvider(obj: Object, provider: Object -> Patch): (r: PatchRequest)
    ensures r.obj == obj && r.patch == provider(obj)
  {
    PatchRequest(obj, provider(obj))
  }

  function PatchContext(req: PatchRequest): string
  {
    "error patching object " + KeyString(ObjectKeyFromObject(req.obj))
  }

  /** PatchMultiple: applies the patch requests in order, stopping at the first failure. */
  method PatchMultiple(reqs: seq<PatchRequest>, patch: PatchRequest -> Option<Error>) returns (err: Option<Error>, attempted: nat)
    ensures match FirstFailure(reqs, patch)
      case Some(i) => attempted == i + 1 && patch(reqs[i]).Some? && err == Some(Wrapped(PatchContext(reqs[i]), patch(reqs[i]).value))
      case None => attempted == |reqs| && err.None?
  {
    err, attempted := CallEach(reqs, patch, PatchContext);
  }

  function DeleteContext(obj: Object): string
  {
    "error deleting object " + KeyString(ObjectKeyFromObject(obj))
  }

  /** DeleteMultiple: deletes the objects in order, stopping at the first failure. */
  method DeleteMultiple(objs: seq<Object>, delete: Object -> Option<Error>) returns (err: Option<Error>, attempted: nat)
    ensures match FirstFailure(objs, delete)
      case Some(i) => attempted == i + 1 && delete(objs[i]).Some? && err == Some(Wrapped(DeleteContext(objs[i]), delete(objs[i]).value))
      case None => attempted == |objs| && err.None?
  {
    err, attempted := CallEach(objs, delete, DeleteContext);
  }

  /** The append loop shared by the converters: nil stays nil, otherwise each item is converted in order. */
  method ConvertEach<A, B>(xs: Slice<A>, f: A -> B) returns (ys: Slice<B>)
    ensures ys.Nil? <==> xs.Nil?
    ensures |ys.Elems()| == |xs.Elems()|
    ensures forall i :: 0 <= i < |xs.Elems()| ==> ys.Elems()[i] == f(xs.Elems()[i])
  {
    if xs.Nil? {
      return Nil;
    }
    var res: seq<B> := [];
    var i := 0;
    while i < |xs.items|
      invariant 0 <= i <= |xs.items|
      invariant |res| == i
      invariant forall j :: 0 <= j < i ==> res[j] == f(xs.items[j])
    {
      res := res + [f(xs.items[i])];
      i := i + 1;
    }
    ys := Of(res);
  }

  method GetRequestsFromObjects(objs: Slice<Object>) returns (reqs: Slice<GetRequest>)
    ensures reqs.Nil? <==> objs.Nil?
    ensures |reqs.Elems()| == |objs.Elems()|
    ensures forall i :: 0 <= i < |objs.Elems()| ==> reqs.Elems()[i] == GetRequestFromObject(objs.Elems()[i])
  {
    reqs := ConvertEach(objs, GetRequestFromObject);
  }

  method ObjectsFromGetRequests(reqs: Slice<GetRequest>) returns (objs: Slice<Object>)
    ensures objs.Nil? <==> reqs.Nil?
    ensures |objs.Elems()| == |reqs.Elems()|
    ensures forall i :: 0 <= i < |reqs.Elems()| ==> objs.Elems()[i] == reqs.Elems()[i].obj
  {
    objs := ConvertEach(reqs, (req: GetRequest) => req.obj);
  }

  method PatchRequestsFromObjectsAndProvider(objs: Slice<Object>, provider: Object -> Patch) returns (reqs: Slice<PatchRequest>)
    ensures reqs.Nil? <==> objs.Nil?
    ensures |reqs.Elems()| == |objs.Elems()|
    ensures forall i :: 0 <= i < |objs.Elems()| ==>
      reqs.Elems()[i] == PatchRequestFromObjectAndProvider(objs.Elems()[i], provider)
  {
    reqs := ConvertEach(objs, (obj: Object) => PatchRequestFromObjectAndProvider(obj, provider));
  }

  method ObjectsFromPatchRequests(reqs: Slice<PatchRequest>) returns (objs: Slice<Object>)
    ensures objs.Nil? <==> reqs.Nil?
    ensures |objs.Elems()| == |reqs.Elems()|
    ensures forall i :: 0 <= i < |reqs.Elems()| ==> objs.Elems()[i] == reqs.Elems()[i].obj
  {
    objs := ConvertEach(reqs, (req: PatchRequest) => req.obj);
  }

  /** Turning objects into get requests and back gives the same slice, nil included. */
  method GetRequestsRoundTrip(objs: Slice<Object>) returns (back: Slice<Object>)
    ensures back == objs
  {
    var reqs := GetRequestsFromObjects(objs);
    back := ObjectsFromGetRequests(reqs);
    if objs.Of? {
      assert back.items == objs.items;
    }
  }

  /** Turning objects into patch requests and back gives the same slice, nil included. */
  method PatchRequestsRoundTrip(objs: Slice<Object>, provider: Object -> Patch) returns (back: Slice<Object>)
    ensures back == objs
  {
    var reqs := PatchRequestsFromObjectsAndProvider(objs, provider);
    back := ObjectsFromPatchRequests(reqs);
    if objs.Of? {
      assert back.items == objs.items;
    }
  }

  /** Identity of a typed request: the struct type behind the object pointer, and the key. */
  datatype TypedKey = TypedKey(typ: string, objectKey: ObjectKey)

  /** Identity of an unstructured request: the object's group/version/kind, and the key. */
  datatype UnstructuredKey = UnstructuredKey(gvk: GroupVersionKind, objectKey: ObjectKey)

  /** Typed objects in a GetRequestSet must be pointers to structs (anything else panics). */
  predicate Admissible(req: GetRequest)
  {
    req.obj.flavour.Typed? ==> req.obj.flavour.goType.PtrToStruct?
  }

  function TypedKeyOf(req: GetRequest): TypedKey
    requires req.obj.flavour.Typed? && req.obj.flavour.goType.PtrToStruct?
  {
    TypedKey(req.obj.flavour.goType.elem, req.key)
  }

  function UnstructuredKeyOf(req: GetRequest): UnstructuredKey
  {
    UnstructuredKey(req.obj.typeMeta, req.key)
  }

  predicate IsTypedRequest(req: GetRequest)
  {
    req.obj.flavour.Typed? && req.obj.flavour.goType.PtrToStruct?
  }

  /** Distinct typed identities, each holding an object of its own struct type, give distinct requests. */
  lemma {:induction false} TypedRequestsCount(m: map<TypedKey, Object>)
    requires forall k :: k in m ==> m[k].flavour == Typed(PtrToStruct(k.typ))
    ensures |set k | k in m :: GetRequest(k.objectKey, m[k])| == |m|
    decreases |m|
  {
    if m != map[] {
      var k :| k in m;
      var rest := m - {k};
      TypedRequestsCount(rest);
      var req := GetRequest(k.objectKey, m[k]);
      var before := set j | j in rest :: GetRequest(j.objectKey, rest[j]);
      assert (set j | j in m :: GetRequest(j.objectKey, m[j])) == before + {req};
    }
  }

  /** Distinct unstructured identities, each holding an object of its own kind, give distinct requests. */
  lemma {:induction false} UnstructuredRequestsCount(m: map<UnstructuredKey, Object>)
    requires forall k :: k in m ==> m[k].typeMeta == k.gvk
    ensures |set k | k in m :: GetRequest(k.objectKey, m[k])| == |m|
    decreases |m|
  {
    if m != map[] {
      var k :| k in m;
      var rest := m - {k};
      UnstructuredRequestsCount(rest);
      var req := GetRequest(k.objectKey, m[k]);
      var before := set j | j in rest :: GetRequest(j.objectKey, rest[j]);
      assert (set j | j in m :: GetRequest(j.objectKey, m[j])) == before + {req};
    }
  }

  /** The typed map after inserting the requests in order: later requests with the same identity win. */
  ghost function TypedAfterInsert(typed: map<TypedKey, Object>, items: seq<GetRequest>): map<TypedKey, Object>
    decreases |items|
  {
    if |items| == 0 then typed
    else
      var last := items[|items| - 1];
      var before := TypedAfterInsert(typed, items[..|items| - 1]);
      if IsTypedRequest(last) then before[TypedKeyOf(last) := last.obj] else before
  }

  /** The unstructured map after inserting the requests in order: later requests with the same identity win. */
  ghost function UnstructuredAfterInsert(unstructured: map<UnstructuredKey, Object>, items: seq<GetRequest>): map<UnstructuredKey, Object>
    decreases |items|
  {
    if |items| == 0 then unstructured
    else
      var last := items[|items| - 1];
      var before := UnstructuredAfterInsert(unstructured, items[..|items| - 1]);
      if last.obj.flavour.Unstructured? then before[UnstructuredKeyOf(last) := last.obj] else before
  }

  /** The typed identities of the first n requests. */
  ghost function TypedKeysIn(items: seq<GetRequest>, n: nat): set<TypedKey>
    requires n <= |items|
  {
    set j | 0 <= j < n && IsTypedRequest(items[j]) :: TypedKeyOf(items[j])
  }

  /** The unstructured identities of the first n requests. */
  ghost function UnstructuredKeysIn(items: seq<GetRequest>, n: nat): set<UnstructuredKey>
    requires n <= |items|
  {
    set j | 0 <= j < n && items[j].obj.flavour.Unstructured? :: UnstructuredKeyOf(items[j])
  }

  /** One more request adds its own identity, if any, to the identities of a prefix. */
  lemma KeysInStep(items: seq<GetRequest>, i: nat)
    requires i < |items|
    ensures TypedKeysIn(items, i + 1)
            == TypedKeysIn(items, i) + (if IsTypedRequest(items[i]) then {TypedKeyOf(items[i])} else {})
    ensures UnstructuredKeysIn(items, i + 1)
            == UnstructuredKeysIn(items, i) + (if items[i].obj.flavour.Unstructured? then {UnstructuredKeyOf(items[i])} else {})
  {
  }

  /** Every inserted typed request is present afterwards. */
  lemma {:induction false} TypedInsertHas(typed: map<TypedKey, Object>, items: seq<GetRequest>, i: nat)
    requires i < |items| && IsTypedRequest(items[i])
    ensures TypedKeyOf(items[i]) in TypedAfterInsert(typed, items)
    decreases |items|
  {
    if i < |items| - 1 {
      TypedInsertHas(typed, items[..|items| - 1], i);
    }
  }

  /** Every inserted unstructured request is present afterwards. */
  lemma {:induction false} UnstructuredInsertHas(unstructured: map<UnstructuredKey, Object>, items: seq<GetRequest>, i: nat)
    requires i < |items| && items[i].obj.flavour.Unstructured?
    ensures UnstructuredKeyOf(items[i]) in UnstructuredAfterInsert(unstructured, items)
    decreases |items|
  {
    if i < |items| - 1 {
      UnstructuredInsertHas(unstructured, items[..|items| - 1], i);
    }
  }

  /** Re-inserting typed requests that are already present keeps the identities, and so the length. */
  lemma {:induction false} TypedReinsertKeepsKeys(typed: map<TypedKey, Object>, items: seq<GetRequest>)
    requires forall j :: 0 <= j < |items| && IsTypedRequest(items[j]) ==> TypedKeyOf(items[j]) in typed
    ensures TypedAfterInsert(typed, items).Keys == typed.Keys
    decreases |items|
  {
    if |items| > 0 {
      TypedReinsertKeepsKeys(typed, items[..|items| - 1]);
    }
  }

  /** Re-inserting unstructured requests that are already present keeps the identities, and so the length. */
  lemma {:induction false} UnstructuredReinsertKeepsKeys(unstructured: map<UnstructuredKey, Object>, items: seq<GetRequest>)
    requires forall j :: 0 <= j < |items| && items[j].obj.flavour.Unstructured? ==> UnstructuredKeyOf(items[j]) in unstructured
    ensures UnstructuredAfterInsert(unstructured, items).Keys == unstructured.Keys
    decreases |items|
  {
    if |items| > 0 {
      UnstructuredReinsertKeepsKeys(unstructured, items[..|items| - 1]);
    }
  }

  /**
   * A set of get requests. Typed objects are identified by their struct type and
   * key, unstructured objects by their group/version/kind and key; the object
   * stored for an identity is the one inserted last.
   */
  class GetRequestSet {
    var typed: map<TypedKey, Object>
    var unstructured: map<UnstructuredKey, Object>

    /** Each stored object has the identity it is stored under. */
    ghost predicate Valid()
      reads this
    {
      (forall k :: k in typed ==> typed[k].flavour == Typed(PtrToStruct(k.typ)))
      && (forall k :: k in unstructured ==> unstructured[k].flavour.Unstructured? && unstructured[k].typeMeta == k.gvk)
    }

    /** The requests the set holds. */
    ghost function Requests(): set<GetRequest>
      reads this
    {
      (set k | k in typed :: GetRequest(k.objectKey, typed[k]))
      + (set k | k in unstructured :: GetRequest(k.objectKey, unstructured[k]))
    }

    /** NewGetRequestSet(items...): the items, inserted in order into an empty set. */
    constructor New(items: seq<GetRequest>)
      requires forall i :: 0 <= i < |items| ==> Admissible(items[i])
      ensures Valid()
      ensures typed == TypedAfterInsert(map[], items)
      ensures unstructured == UnstructuredAfterInsert(map[], items)
    {
      typed := map[];
      unstructured := map[];
      new;
      Insert(items);
    }

    /** Insert(items...): each item stored under its identity, replacing an equal identity. */
    method Insert(items: seq<GetRequest>)
      requires Valid()
      requires forall i :: 0 <= i < |items| ==> Admissible(items[i])
      modifies this
      ensures Valid()
      ensures typed == TypedAfterInsert(old(typed), items)
      ensures unstructured == UnstructuredAfterInsert(old(unstructured), items)
      ensures forall i :: 0 <= i < |items| ==> Has(items[i])
    {
      var t, u := typed, unstructured;
      var i := 0;
      while i < |items|
        invariant 0 <= i <= |items|
        invariant forall k :: k in t ==> t[k].flavour == Typed(PtrToStruct(k.typ))
        invariant forall k :: k in u ==> u[k].flavour.Unstructured? && u[k].typeMeta == k.gvk
        invariant t == TypedAfterInsert(typed, items[..i])
        invariant u == UnstructuredAfterInsert(unstructured, items[..i])
      {
        assert items[..i + 1][..i] == items[..i];
        var item := items[i];
        if item.obj.flavour.Unstructured? {
          u := u[UnstructuredKeyOf(item) := item.obj];
        } else {
          t := t[TypedKeyOf(item) := item.obj];
        }
        i := i + 1;
      }
      assert items[..i] == items;
      typed, unstructured := t, u;
      forall j | 0 <= j < |items| ensures Has(items[j]) {
        if items[j].obj.flavour.Unstructured? {
          UnstructuredInsertHas(old(unstructured), items, j);
        } else {
          TypedInsertHas(old(typed), items, j);
        }
      }
    }

    /** Len(): the number of distinct requests the set holds. */
    function Len(): (n: nat)
      reads this
      ensures Valid() ==> n == |Requests()|
    {
      assert Valid() ==> |Requests()| == |typed| + |unstructured| by {
        if Valid() {
          TypedRequestsCount(typed);
          UnstructuredRequestsCount(unstructured);
          assert TypedRequests() !! UnstructuredRequests();
          assert Requests() == TypedRequests() + UnstructuredRequests();
        }
      }
      |typed| + |unstructured|
    }

    /** Has(item): an item with the same identity is stored. */
    predicate Has(item: GetRequest)
      requires Admissible(item)
      reads this
    {
      if item.obj.flavour.Unstructured? then UnstructuredKeyOf(item) in unstructured
      else TypedKeyOf(item) in typed
    }

    /** Every request the set holds is found by Has. */
    lemma StoredRequestsFound(item: GetRequest)
      requires Valid()
      requires item in Requests()
      ensures Admissible(item) && Has(item)
    {
      if item in TypedRequests() {
        var k :| k in typed && GetRequest(k.objectKey, typed[k]) == item;
        assert TypedKeyOf(item) == k;
      } else {
        var k :| k in unstructured && GetRequest(k.objectKey, unstructured[k]) == item;
        assert UnstructuredKeyOf(item) == k;
      }
    }

    /** Delete(items...): the identities of the items are removed, absent ones ignored. */
    method Delete(items: seq<GetRequest>)
      requires Valid()
      requires forall i :: 0 <= i < |items| ==> Admissible(items[i])
      modifies this
      ensures Valid()
      ensures typed == old(typed) - TypedKeysIn(items, |items|)
      ensures unstructured == old(unstructured) - UnstructuredKeysIn(items, |items|)
      ensures forall i :: 0 <= i < |items| ==> !Has(items[i])
    {
      var t, u := typed, unstructured;
      var i := 0;
      while i < |items|
        invariant 0 <= i <= |items|
        invariant t == old(typed) - TypedKeysIn(items, i)
        invariant u == old(unstructured) - UnstructuredKeysIn(items, i)
      {
        KeysInStep(items, i);
        var item := items[i];
        if item.obj.flavour.Unstructured? {
          u := u - {UnstructuredKeyOf(item)};
        } else {
          t := t - {TypedKeyOf(item)};
        }
        i := i + 1;
      }
      typed, unstructured := t, u;
      forall j | 0 <= j < |items| ensures !Has(items[j]) {
        if items[j].obj.flavour.Unstructured? {
          assert UnstructuredKeyOf(items[j]) in UnstructuredKeysIn(items, |items|);
        } else {
          assert TypedKeyOf(items[j]) in TypedKeysIn(items, |items|);
        }
      }
    }

    /** The requests stored under typed identities. */
    ghost function TypedRequests(): set<GetRequest>
      reads this
    {
      set k | k in typed :: GetRequest(k.objectKey, typed[k])
    }

    /** The requests stored under unstructured identities. */
    ghost function UnstructuredRequests(): set<GetRequest>
      reads this
    {
      set k | k in unstructured :: GetRequest(k.objectKey, unstructured[k])
    }

    /**
     * The first loop of Iterate: visits each typed request once and reports
     * whether `cont` asked to stop.
     */
    method IterateTyped(cont: GetRequest -> bool) returns (visited: seq<GetRequest>, stopped: bool)
      requires Valid()
      ensures forall i :: 0 <= i < |visited| ==> IsTypedRequest(visited[i]) && visited[i] in TypedRequests()
      ensures forall i, j :: 0 <= i < j < |visited| ==> visited[i] != visited[j]
      ensures forall i :: 0 <= i < |visited| - 1 ==> cont(visited[i])
      ensures stopped ==> |visited| > 0 && !cont(visited[|visited| - 1])
      ensures !stopped ==> (Sets.Members(visited) == TypedRequests() && |visited| == |typed|
                            && forall i :: 0 <= i < |visited| ==> cont(visited[i]))
    {
      var m := typed;
      visited := [];
      var rest := m.Keys;
      while rest != {}
        invariant rest <= m.Keys
        invariant |visited| + |rest| == |m|
        invariant forall i :: 0 <= i < |visited| ==>
          (IsTypedRequest(visited[i]) && TypedKeyOf(visited[i]) in m && TypedKeyOf(visited[i]) !in rest
           && visited[i] == GetRequest(TypedKeyOf(visited[i]).objectKey, m[TypedKeyOf(visited[i])])
           && cont(visited[i]))
        invariant forall k :: k in m && k !in rest ==> GetRequest(k.objectKey, m[k]) in visited
        invariant forall i, j :: 0 <= i < j < |visited| ==> visited[i] != visited[j]
        decreases |rest|
      {
        var k :| k in rest;
        var req := GetRequest(k.objectKey, m[k]);
        assert TypedKeyOf(req) == k;
        visited := visited + [req];
        if !cont(req) {
          return visited, true;
        }
        rest := rest - {k};
      }
      stopped := false;
    }

    /**
     * The second loop of Iterate: visits each unstructured request once and
     * reports whether `cont` asked to stop.
     */
    method IterateUnstructured(cont: GetRequest -> bool) returns (visited: seq<GetRequest>, stopped: bool)
      requires Valid()
      ensures forall i :: 0 <= i < |visited| ==> visited[i].obj.flavour.Unstructured? && visited[i] in UnstructuredRequests()
      ensures forall i, j :: 0 <= i < j < |visited| ==> visited[i] != visited[j]
      ensures forall i :: 0 <= i < |visited| - 1 ==> cont(visited[i])
      ensures stopped ==> |visited| > 0 && !cont(visited[|visited| - 1])
      ensures !stopped ==> (Sets.Members(visited) == UnstructuredRequests() && |visited| == |unstructured|
                            && forall i :: 0 <= i < |visited| ==> cont(visited[i]))
    {
      var m := unstructured;
      visited := [];
      var rest := m.Keys;
      while rest != {}
        invariant rest <= m.Keys
        invariant |visited| + |rest| == |m|
        invariant forall i :: 0 <= i < |visited| ==>
          (visited[i].obj.flavour.Unstructured? && UnstructuredKeyOf(visited[i]) in m
           && UnstructuredKeyOf(visited[i]) !in rest
           && visited[i] == GetRequest(UnstructuredKeyOf(visited[i]).objectKey, m[UnstructuredKeyOf(visited[i])])
           && cont(visited[i]))
        invariant forall k :: k in m && k !in rest ==> GetRequest(k.objectKey, m[k]) in visited
        invariant forall i, j :: 0 <= i < j < |visited| ==> visited[i] != visited[j]
        decreases |rest|
      {
        var k :| k in rest;
        var req := GetRequest(k.objectKey, m[k]);
        assert UnstructuredKeyOf(req) == k;
        visited := visited + [req];
        if !cont(req) {
          return visited, true;
        }
        rest := rest - {k};
      }
      stopped := false;
    }

    /**
     * Iterate(f): visits the typed requests, then the unstructured ones, each
     * once, and stops right after the first request for which `cont` is false.
     * `visited` is the order of the calls.
     */
    method Iterate(cont: GetRequest -> bool) returns (visited: seq<GetRequest>)
      requires Valid()
      ensures forall i :: 0 <= i < |visited| ==> visited[i] in Requests()
      ensures forall i, j :: 0 <= i < j < |visited| ==> visited[i] != visited[j]
      ensures forall i :: 0 <= i < |visited| - 1 ==> cont(visited[i])
      ensures forall i, j :: 0 <= i < j < |visited| && visited[j].obj.flavour.Typed? ==> visited[i].obj.flavour.Typed?
      ensures (|visited| > 0 && !cont(visited[|visited| - 1]))
              || (Sets.Members(visited) == Requests() && |visited| == Len() && forall i :: 0 <= i < |visited| ==> cont(visited[i]))
    {
      var stopped;
      visited, stopped := IterateTyped(cont);
      if stopped {
        return;
      }
      var rest;
      rest, stopped := IterateUnstructured(cont);
      assert Sets.Members(visited + rest) == Sets.Members(visited) + Sets.Members(rest);
      visited := visited + rest;
    }

    /** List(): every request of the set exactly once. */
    method List() returns (res: seq<GetRequest>)
      requires Valid()
      ensures Sets.Members(res) == Requests()
      ensures |res| == Len()
      ensures forall i, j :: 0 <= i < j < |res| ==> res[i] != res[j]
    {
      res := Iterate((req: GetRequest) => true);
    }
  }
}
