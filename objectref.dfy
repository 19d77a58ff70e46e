// ObjectRef of clientutils/objectref.go: a version-independent reference to
// an object (group kind and key), converters from objects and get requests,
// and the set of references built from objects or from a GetRequestSet.

module ObjectRefs {
  import opened Kube
  import Sets
  import ClientUtils

  /** A reference to an object regardless of its version. */
  datatype ObjectRef = ObjectRef(groupKind: GroupKind, key: ObjectKey)

  /** ObjectRefFromObject: the resolved group kind (version dropped) and the object's own key. */
  function ObjectRefFromObject(scheme: Scheme, obj: Object): (r: Result<ObjectRef>)
    ensures r.Ok? <==> GVKForObject(scheme, obj).Ok?
    ensures r.Ok? ==> r.value.groupKind == GVKForObject(scheme, obj).value.ToGroupKind()
                      && r.value.key == ObjectKeyFromObject(obj)
    ensures r.Err? ==> r.error == GVKForObject(scheme, obj).error
  {
    match GVKForObject(scheme, obj)
    case Err(e) => Err(e)
    case Ok(gvk) => Ok(ObjectRef(gvk.ToGroupKind(), ObjectKeyFromObject(obj)))
  }

  /** ObjectRefFromGetRequest: the group kind of the request's object, but the request's key. */
  function ObjectRefFromGetRequest(scheme: Scheme, req: ClientUtils.GetRequest): (r: Result<ObjectRef>)
    ensures r.Ok? <==> GVKForObject(scheme, req.obj).Ok?
    ensures r.Ok? ==> r.value.groupKind == GVKForObject(scheme, req.obj).value.ToGroupKind()
                      && r.value.key == req.key
    ensures r.Err? ==> r.error == GVKForObject(scheme, req.obj).error
  {
    match GVKForObject(scheme, req.obj)
    case Err(e) => Err(e)
    case Ok(gvk) => Ok(ObjectRef(gvk.ToGroupKind(), req.key))
  }

  /** Two versions of the same unstructured object reference the same thing. */
  lemma RefIgnoresVersion(scheme: Scheme, obj: Object, version: string)
    requires obj.flavour.Unstructured? && version != ""
    requires ObjectRefFromObject(scheme, obj).Ok?
    ensures ObjectRefFromObject(scheme, obj.(typeMeta := obj.typeMeta.(version := version)))
            == ObjectRefFromObject(scheme, obj)
  {
  }

  /** A get request made from an object references what the object references. */
  lemma RequestFromObjectSameRef(scheme: Scheme, obj: Object)
    ensures ObjectRefFromGetRequest(scheme, ClientUtils.GetRequestFromObject(obj)) == ObjectRefFromObject(scheme, obj)
  {
  }

  /**
   * The append loop shared by ObjectRefsFromObjects and ObjectRefsFromGetRequests:
   * nil stays nil, otherwise the references in order, or the first error.
   */
  method RefsEach<A>(xs: Slice<A>, ref: A -> Result<ObjectRef>) returns (r: Result<Slice<ObjectRef>>)
    ensures xs.Nil? ==> r == Ok(Nil)
    ensures xs.Of? ==> match FirstFailure(xs.items, (x: A) => ErrorOf(ref(x)))
      case Some(i) => ref(xs.items[i]).Err? && r == Err(ref(xs.items[i]).error)
      case None => r.Ok? && r.value.Of? && |r.value.items| == |xs.items|
                   && forall j :: 0 <= j < |xs.items| ==> ref(xs.items[j]) == Ok(r.value.items[j])
  {
    if xs.Nil? {
      return Ok(Nil);
    }
    ghost var call := (x: A) => ErrorOf(ref(x));
    var refs: seq<ObjectRef> := [];
    var i := 0;
    while i < |xs.items|
      invariant 0 <= i <= |xs.items|
      invariant |refs| == i
      invariant forall j :: 0 <= j < i ==> ref(xs.items[j]) == Ok(refs[j])
    {
      var res := ref(xs.items[i]);
      if res.Err? {
        FirstFailureAt(xs.items, call, i);
        return Err(res.error);
      }
      refs := refs + [res.value];
      i := i + 1;
    }
    FirstFailureNone(xs.items, call);
    r := Ok(Of(refs));
  }

  /** ObjectRefsFromObjects: nil to nil, otherwise the references in order, or the first error. */
  method ObjectRefsFromObjects(scheme: Scheme, objs: Slice<Object>) returns (r: Result<Slice<ObjectRef>>)
    ensures objs.Nil? ==> r == Ok(Nil)
    ensures objs.Of? ==> match FirstFailure(objs.items, (o: Object) => ErrorOf(ObjectRefFromObject(scheme, o)))
      case Some(i) => ObjectRefFromObject(scheme, objs.items[i]).Err?
                      && r == Err(ObjectRefFromObject(scheme, objs.items[i]).error)
      case None => r.Ok? && r.value.Of? && |r.value.items| == |objs.items|
                   && forall j :: 0 <= j < |objs.items| ==> ObjectRefFromObject(scheme, objs.items[j]) == Ok(r.value.items[j])
  {
    r := RefsEach(objs, (o: Object) => ObjectRefFromObject(scheme, o));
  }

  /** ObjectRefsFromGetRequests: nil to nil, otherwise the references in order, or the first error. */
  method ObjectRefsFromGetRequests(scheme: Scheme, reqs: Slice<ClientUtils.GetRequest>) returns (r: Result<Slice<ObjectRef>>)
    ensures reqs.Nil? ==> r == Ok(Nil)
    ensures reqs.Of? ==> match FirstFailure(reqs.items, (q: ClientUtils.GetRequest) => ErrorOf(ObjectRefFromGetRequest(scheme, q)))
      case Some(i) => ObjectRefFromGetRequest(scheme, reqs.items[i]).Err?
                      && r == Err(ObjectRefFromGetRequest(scheme, reqs.items[i]).error)
      case None => r.Ok? && r.value.Of? && |r.value.items| == |reqs.items|
                   && forall j :: 0 <= j < |reqs.items| ==> ObjectRefFromGetRequest(scheme, reqs.items[j]) == Ok(r.value.items[j])
  {
    r := RefsEach(reqs, (q: ClientUtils.GetRequest) => ObjectRefFromGetRequest(scheme, q));
  }

  class ObjectRefSet {
    var refs: set<ObjectRef>

    /** NewObjectRefSet(items...): exactly the given references. */
    constructor New(items: seq<ObjectRef>)
      ensures refs == Sets.Members(items)
    {
      refs := {};
      new;
      Insert(items);
    }

    /** Insert(items...): the old references plus the items; re-inserting changes nothing. */
    method Insert(items: seq<ObjectRef>)
      modifies this
      ensures refs == old(refs) + Sets.Members(items)
    {
      var i := 0;
      while i < |items|
        invariant 0 <= i <= |items|
        invariant refs == old(refs) + Sets.Members(items[..i])
      {
        assert items[..i + 1] == items[..i] + [items[i]];
        refs := refs + {items[i]};
        i := i + 1;
      }
      assert items[..i] == items;
    }

    predicate Has(item: ObjectRef)
      reads this
    {
      item in refs
    }

    /** Delete(items...): the old references without the items; absent ones are ignored. */
    method Delete(items: seq<ObjectRef>)
      modifies this
      ensures refs == old(refs) - Sets.Members(items)
    {
      var i := 0;
      while i < |items|
        invariant 0 <= i <= |items|
        invariant refs == old(refs) - Sets.Members(items[..i])
      {
        assert items[..i + 1] == items[..i] + [items[i]];
        refs := refs - {items[i]};
        i := i + 1;
      }
      assert items[..i] == items;
    }

    /** Len: the number of distinct references. */
    function Len(): (n: nat)
      reads this
      ensures n == 0 <==> forall r :: !Has(r)
    {
      assert refs != {} ==> exists r :: Has(r) by {
        if refs != {} {
          var r :| r in refs;
          assert Has(r);
        }
      }
      |refs|
    }
  }

  /** ObjectRefSetReferencesObject: whether the object's reference is in the set, or the reference's error. */
  function ReferencesObject(scheme: Scheme, s: ObjectRefSet, obj: Object): (r: Result<bool>)
    reads s
    ensures r.Ok? <==> ObjectRefFromObject(scheme, obj).Ok?
    ensures r.Ok? ==> (r.value <==> s.Has(ObjectRefFromObject(scheme, obj).value))
    ensures r.Err? ==> r.error == ObjectRefFromObject(scheme, obj).error
  {
    match ObjectRefFromObject(scheme, obj)
    case Err(e) => Err(e)
    case Ok(ref) => Ok(s.Has(ref))
  }

  /** ObjectRefSetReferencesGetRequest: whether the request's reference is in the set, or the reference's error. */
  function ReferencesGetRequest(scheme: Scheme, s: ObjectRefSet, req: ClientUtils.GetRequest): (r: Result<bool>)
    reads s
    ensures r.Ok? <==> ObjectRefFromGetRequest(scheme, req).Ok?
    ensures r.Ok? ==> (r.value <==> s.Has(ObjectRefFromGetRequest(scheme, req).value))
    ensures r.Err? ==> r.error == ObjectRefFromGetRequest(scheme, req).error
  {
    match ObjectRefFromGetRequest(scheme, req)
    case Err(e) => Err(e)
    case Ok(ref) => Ok(s.Has(ref))
  }

  /**
   * ObjectRefSetFromObjects: a new set of the references of all objects, or nil
   * and the error of the first object whose reference fails.
   */
  method SetFromObjects(scheme: Scheme, objs: seq<Object>) returns (s: ObjectRefSet?, err: Option<Error>)
    ensures match FirstFailure(objs, (o: Object) => ErrorOf(ObjectRefFromObject(scheme, o)))
      case Some(i) => s == null && ObjectRefFromObject(scheme, objs[i]).Err?
                      && err == Some(ObjectRefFromObject(scheme, objs[i]).error)
      case None => (s != null && fresh(s) && err.None?
                    && s.refs == (set j | 0 <= j < |objs| :: ObjectRefFromObject(scheme, objs[j]).value)
                    && forall j :: 0 <= j < |objs| ==> ReferencesObject(scheme, s, objs[j]) == Ok(true))
  {
    ghost var call := (o: Object) => ErrorOf(ObjectRefFromObject(scheme, o));
    var result := new ObjectRefSet.New([]);
    var i := 0;
    while i < |objs|
      invariant 0 <= i <= |objs|
      invariant fresh(result)
      invariant forall j :: 0 <= j < i ==> ObjectRefFromObject(scheme, objs[j]).Ok?
      invariant result.refs == (set j | 0 <= j < i :: ObjectRefFromObject(scheme, objs[j]).value)
    {
      var ref := ObjectRefFromObject(scheme, objs[i]);
      if ref.Err? {
        FirstFailureAt(objs, call, i);
        return null, Some(ref.error);
      }
      result.Insert([ref.value]);
      i := i + 1;
    }
    FirstFailureNone(objs, call);
    forall j | 0 <= j < |objs| ensures ReferencesObject(scheme, result, objs[j]) == Ok(true) {
      assert ObjectRefFromObject(scheme, objs[j]).value in result.refs;
    }
    s, err := result, None;
  }

  /** The references of requests whose references all resolve, in order. */
  method RefsOfRequests(scheme: Scheme, reqs: seq<ClientUtils.GetRequest>) returns (found: seq<ObjectRef>)
    requires forall j :: 0 <= j < |reqs| ==> ObjectRefFromGetRequest(scheme, reqs[j]).Ok?
    ensures |found| == |reqs|
    ensures forall j :: 0 <= j < |reqs| ==> found[j] == ObjectRefFromGetRequest(scheme, reqs[j]).value
  {
    found := [];
    var i := 0;
    while i < |reqs|
      invariant 0 <= i <= |reqs|
      invariant |found| == i
      invariant forall j :: 0 <= j < i ==> found[j] == ObjectRefFromGetRequest(scheme, reqs[j]).value
    {
      found := found + [ObjectRefFromGetRequest(scheme, reqs[i]).value];
      i := i + 1;
    }
  }

  /** The references of a list of all the requests of a set are the references of the set. */
  lemma RefsOfRequestsMembers(scheme: Scheme, visited: seq<ClientUtils.GetRequest>, found: seq<ObjectRef>, all: set<ClientUtils.GetRequest>)
    requires Sets.Members(visited) == all
    requires |found| == |visited|
    requires forall j :: 0 <= j < |visited| ==> ObjectRefFromGetRequest(scheme, visited[j]).Ok?
    requires forall j :: 0 <= j < |visited| ==> found[j] == ObjectRefFromGetRequest(scheme, visited[j]).value
    ensures Sets.Members(found) == set q | q in all :: ObjectRefFromGetRequest(scheme, q).value
  {
    forall r | r in Sets.Members(found) ensures exists q :: q in all && r == ObjectRefFromGetRequest(scheme, q).value {
      var j :| 0 <= j < |found| && found[j] == r;
      assert visited[j] in all;
    }
    forall q | q in all ensures ObjectRefFromGetRequest(scheme, q).value in Sets.Members(found) {
      var j :| 0 <= j < |visited| && visited[j] == q;
      assert found[j] in Sets.Members(found);
    }
  }

  /**
   * ObjectRefSetFromGetRequestSet: a new set of the references of all requests
   * in the set, or nil and the error of the request on which iteration stopped.
   */
  method SetFromGetRequestSet(scheme: Scheme, reqs: ClientUtils.GetRequestSet) returns (s: ObjectRefSet?, err: Option<Error>)
    requires reqs.Valid()
    ensures err.Some? <==> exists q :: q in reqs.Requests() && ObjectRefFromGetRequest(scheme, q).Err?
    ensures err.Some? ==> (s == null
                           && exists q :: q in reqs.Requests() && ObjectRefFromGetRequest(scheme, q) == Err(err.value))
    ensures err.None? ==> (s != null && fresh(s)
                           && s.refs == set q | q in reqs.Requests() :: ObjectRefFromGetRequest(scheme, q).value)
  {
    var visited := reqs.Iterate((q: ClientUtils.GetRequest) => ObjectRefFromGetRequest(scheme, q).Ok?);
    if |visited| > 0 && ObjectRefFromGetRequest(scheme, visited[|visited| - 1]).Err? {
      var last := visited[|visited| - 1];
      return null, Some(ObjectRefFromGetRequest(scheme, last).error);
    }
    var found := RefsOfRequests(scheme, visited);
    var result := new ObjectRefSet.New(found);
    RefsOfRequestsMembers(scheme, visited, found, reqs.Requests());
    s, err := result, None;
  }
}
