// The ownership helpers of metautils: the kind of a list's items, whether an
// object is controlled by an owner, and filtering a list by its controller.

module MetaUtils {
  import opened Kube
  import opened Strings

  /** GVKForList: the list's kind with a trailing "List" removed, if there is one. */
  function GVKForList(scheme: Scheme, list: Object): (r: Result<GroupVersionKind>)
    ensures GVKForObject(scheme, list).Err? ==> r == Err(GVKForObject(scheme, list).error)
    ensures GVKForObject(scheme, list).Ok? ==> r.Ok?
    ensures r.Ok? ==> var g := GVKForObject(scheme, list).value;
      r.value.group == g.group && r.value.version == g.version
      && (HasSuffix(g.kind, "List") ==> r.value.kind + "List" == g.kind)
      && (!HasSuffix(g.kind, "List") ==> r.value.kind == g.kind)
  {
    match GVKForObject(scheme, list)
    case Err(e) => Err(e)
    case Ok(gvk) => Ok(gvk.(kind := TrimSuffix(gvk.kind, "List")))
  }

  /** metav1.GetControllerOf: the first owner reference marked as controller. */
  function FirstController(refs: seq<OwnerReference>): (r: Option<OwnerReference>)
    ensures r.None? <==> forall i :: 0 <= i < |refs| ==> !refs[i].controller
    ensures r.Some? ==> exists i :: (0 <= i < |refs| && refs[i] == r.value && refs[i].controller
      && forall j :: 0 <= j < i ==> !refs[j].controller)
    decreases |refs|
  {
    if |refs| == 0 then None
    else if refs[0].controller then Some(refs[0])
    else
      var r := FirstController(refs[1..]);
      assert r.Some? ==> exists i :: (0 <= i < |refs| && refs[i] == r.value && refs[i].controller
        && forall j :: 0 <= j < i ==> !refs[j].controller) by {
        if r.Some? {
          var i :| 0 <= i < |refs[1..]| && refs[1..][i] == r.value && refs[1..][i].controller
            && forall j :: 0 <= j < i ==> !refs[1..][j].controller;
          assert refs[i + 1] == r.value;
        }
      }
      r
  }

  /**
   * schema.ParseGroupVersion: "" and "/" are the empty group version, a string
   * without "/" is a version of the core group, "group/version" splits at the
   * slash, and more than one slash is an error.
   */
  function ParseGroupVersion(s: string): (r: Result<GroupVersion>)
  {
    if |s| == 0 || s == "/" then Ok(GroupVersion("", ""))
    else
      var parts := Split(s, '/');
      if |parts| == 1 then Ok(GroupVersion("", s))
      else if |parts| == 2 then Ok(GroupVersion(parts[0], parts[1]))
      else Err(BadGroupVersion(s))
  }

  /** GroupVersion.String(): the apiVersion an owner reference records. */
  function FormatGroupVersion(gv: GroupVersion): string
  {
    if gv.group != "" then gv.group + "/" + gv.version else gv.version
  }

  /** Parsing a formatted group version gives it back, for slash-free parts. */
  lemma ParseFormat(gv: GroupVersion)
    requires '/' !in gv.group && '/' !in gv.version
    ensures ParseGroupVersion(FormatGroupVersion(gv)) == Ok(gv)
  {
    if gv.group != "" {
      SplitJoin([gv.group, gv.version], '/');
      assert Join([gv.group, gv.version], '/') == gv.group + "/" + gv.version;
      assert FormatGroupVersion(gv) != "/" by {
        assert |FormatGroupVersion(gv)| >= 2;
      }
    } else if gv.version != "" {
      SplitJoin([gv.version], '/');
    }
  }

  /**
   * IsControlledBy: no controller reference means not controlled; otherwise the
   * owner's kind must resolve and the reference's apiVersion must parse, and the
   * object is controlled exactly when group/version, kind, name and UID agree.
   */
  function IsControlledBy(scheme: Scheme, owner: Object, controlled: Object): (r: Result<bool>)
    ensures FirstController(controlled.ownerReferences).None? ==> r == Ok(false)
    ensures FirstController(controlled.ownerReferences).Some? ==>
      (r.Err? <==> GVKForObject(scheme, owner).Err?
                   || ParseGroupVersion(FirstController(controlled.ownerReferences).value.apiVersion).Err?)
    ensures r == Ok(true) <==>
      FirstController(controlled.ownerReferences).Some?
      && GVKForObject(scheme, owner).Ok?
      && var c := FirstController(controlled.ownerReferences).value;
         var gvk := GVKForObject(scheme, owner).value;
         ParseGroupVersion(c.apiVersion) == Ok(gvk.ToGroupVersion())
         && c.kind == gvk.kind && c.name == owner.name && c.uid == owner.uid
  {
    match FirstController(controlled.ownerReferences)
    case None => Ok(false)
    case Some(c) =>
      match GVKForObject(scheme, owner)
      case Err(e) => Err(Wrapped("error getting object kinds of owner", e))
      case Ok(gvk) =>
        match ParseGroupVersion(c.apiVersion)
        case Err(e) => Err(Wrapped("could not parse controller api version", e))
        case Ok(gv) =>
          Ok(gvk.ToGroupVersion() == gv && c.kind == gvk.kind && c.name == owner.name && c.uid == owner.uid)
  }

  /** The controller reference controllerutil.SetControllerReference records for an owner of the given kind. */
  function ControllerReferenceTo(gvk: GroupVersionKind, owner: Object): OwnerReference
  {
    OwnerReference(FormatGroupVersion(gvk.ToGroupVersion()), gvk.kind, owner.name, owner.uid, true)
  }

  /** An object whose controller reference was made for the owner is controlled by it. */
  lemma ControllerReferenceRecognised(scheme: Scheme, owner: Object, controlled: Object)
    requires GVKForObject(scheme, owner).Ok?
    requires '/' !in GVKForObject(scheme, owner).value.group && '/' !in GVKForObject(scheme, owner).value.version
    requires FirstController(controlled.ownerReferences) == Some(ControllerReferenceTo(GVKForObject(scheme, owner).value, owner))
    ensures IsControlledBy(scheme, owner, controlled) == Ok(true)
  {
    ParseFormat(GVKForObject(scheme, owner).value.ToGroupVersion());
  }

  /** An object whose controller has another UID is not controlled by the owner. */
  lemma OtherControllerNotRecognised(scheme: Scheme, owner: Object, controlled: Object)
    requires FirstController(controlled.ownerReferences).Some?
    requires FirstController(controlled.ownerReferences).value.uid != owner.uid
    ensures IsControlledBy(scheme, owner, controlled) != Ok(true)
  {
  }

  /** The items a predicate keeps, in their original order. */
  function Kept<T>(xs: seq<T>, keep: T -> bool): seq<T>
    decreases |xs|
  {
    if |xs| == 0 then []
    else Kept(xs[..|xs| - 1], keep) + (if keep(xs[|xs| - 1]) then [xs[|xs| - 1]] else [])
  }

  /** The positions of the kept items, ascending. */
  ghost function KeptPositions<T>(xs: seq<T>, keep: T -> bool): seq<nat>
    decreases |xs|
  {
    if |xs| == 0 then []
    else KeptPositions(xs[..|xs| - 1], keep) + (if keep(xs[|xs| - 1]) then [|xs| - 1] else [])
  }

  /**
   * Kept lists exactly the kept items in their original order: the k-th
   * result is the item at the k-th kept position, the positions strictly
   * increase, and a position is listed iff its item is kept.
   */
  lemma {:induction false} KeptInOrder<T>(xs: seq<T>, keep: T -> bool)
    ensures var res := Kept(xs, keep);
      var pos := KeptPositions(xs, keep);
      |res| == |pos|
      && (forall k :: 0 <= k < |pos| ==> pos[k] < |xs| && res[k] == xs[pos[k]])
      && (forall k, l :: 0 <= k < l < |pos| ==> pos[k] < pos[l])
      && (forall i :: 0 <= i < |xs| ==> (i in pos <==> keep(xs[i])))
    decreases |xs|
  {
    if |xs| > 0 {
      var n := |xs| - 1;
      var init := xs[..n];
      KeptInOrder(init, keep);
      var res0, pos0 := Kept(init, keep), KeptPositions(init, keep);
      var res, pos := Kept(xs, keep), KeptPositions(xs, keep);
      var extra := keep(xs[n]);
      assert res == res0 + (if extra then [xs[n]] else []);
      assert pos == pos0 + (if extra then [n] else []);
      forall k | 0 <= k < |pos| ensures pos[k] < |xs| && res[k] == xs[pos[k]] {
        if k < |pos0| {
          assert pos[k] == pos0[k] && res[k] == res0[k] && init[pos0[k]] == xs[pos0[k]];
        }
      }
      forall i | 0 <= i < |xs| ensures i in pos <==> keep(xs[i]) {
        if i < n {
          assert init[i] == xs[i];
          assert i in pos <==> i in pos0;
        }
      }
    }
  }

  /** Extending a prefix by one item extends its kept items by that item when it is kept. */
  lemma KeptStep<T>(xs: seq<T>, keep: T -> bool, i: nat)
    requires i < |xs|
    ensures Kept(xs[..i + 1], keep) == Kept(xs[..i], keep) + (if keep(xs[i]) then [xs[i]] else [])
  {
    assert xs[..i + 1][..i] == xs[..i];
  }

  /** The objects of a list that are controlled by the owner, in list order. */
  function Controlled(scheme: Scheme, owner: Object, objs: seq<Object>): seq<Object>
  {
    Kept(objs, (o: Object) => IsControlledBy(scheme, owner, o) == Ok(true))
  }

  /**
   * Controlled is exactly the controlled objects in their original order: the
   * k-th result is the object at the k-th controlled position, the positions
   * strictly increase, and a position is listed iff its object is controlled.
   */
  lemma ControlledInOrder(scheme: Scheme, owner: Object, objs: seq<Object>)
    ensures var res := Controlled(scheme, owner, objs);
      var pos := KeptPositions(objs, (o: Object) => IsControlledBy(scheme, owner, o) == Ok(true));
      |res| == |pos|
      && (forall k :: 0 <= k < |pos| ==> pos[k] < |objs| && res[k] == objs[pos[k]])
      && (forall k, l :: 0 <= k < l < |pos| ==> pos[k] < pos[l])
      && (forall i :: 0 <= i < |objs| ==> (i in pos <==> IsControlledBy(scheme, owner, objs[i]) == Ok(true)))
  {
    KeptInOrder(objs, (o: Object) => IsControlledBy(scheme, owner, o) == Ok(true));
  }

  /**
   * The loop of FilterControlledBy over any check: the items whose check says
   * true, in order (nil when there are none), or the error of the first item
   * whose check fails.
   */
  method FilterEach<T>(xs: seq<T>, test: T -> Result<bool>, check: T -> Option<Error>, keep: T -> bool)
    returns (r: Result<Slice<T>>)
    requires forall x :: check(x) == ErrorOf(test(x))
    requires forall x :: keep(x) <==> test(x) == Ok(true)
    ensures match FirstFailure(xs, check)
      case Some(i) => test(xs[i]).Err? && r == Err(test(xs[i]).error)
      case None => r.Ok? && r.value.Elems() == Kept(xs, keep) && (r.value.Nil? <==> Kept(xs, keep) == [])
  {
    var filtered: Slice<T> := Nil;
    var i := 0;
    while i < |xs|
      invariant 0 <= i <= |xs|
      invariant forall j :: 0 <= j < i ==> check(xs[j]).None?
      invariant filtered.Elems() == Kept(xs[..i], keep)
      invariant filtered.Nil? <==> Kept(xs[..i], keep) == []
    {
      var x := xs[i];
      KeptStep(xs, keep, i);
      var res := test(x);
      if res.Err? {
        FirstFailureAt(xs, check, i);
        return Err(res.error);
      }
      if res.value {
        filtered := Of(filtered.Elems() + [x]);
      }
      i := i + 1;
    }
    assert xs[..i] == xs;
    FirstFailureNone(xs, check);
    r := Ok(filtered);
  }

  /**
   * FilterControlledBy: the controlled objects in their original order (nil when
   * there are none), or the error of the first object whose check fails.
   */
  method FilterControlledBy(scheme: Scheme, owner: Object, objects: seq<Object>) returns (r: Result<Slice<Object>>)
    ensures var check := (o: Object) => ErrorOf(IsControlledBy(scheme, owner, o));
      match FirstFailure(objects, check)
      case Some(i) => IsControlledBy(scheme, owner, objects[i]).Err?
                      && r == Err(IsControlledBy(scheme, owner, objects[i]).error)
      case None => r.Ok? && r.value.Elems() == Controlled(scheme, owner, objects)
                   && (r.value.Nil? <==> Controlled(scheme, owner, objects) == [])
  {
    r := FilterEach(objects, (o: Object) => IsControlledBy(scheme, owner, o),
                    (o: Object) => ErrorOf(IsControlledBy(scheme, owner, o)),
                    (o: Object) => IsControlledBy(scheme, owner, o) == Ok(true));
  }
}
