// Value types shared by the controller helpers: object keys, group/version/kind
// triples, an abstract Kubernetes object, the scheme that resolves an object's
// GroupVersionKind, and the error values the helpers return.

module Kube {

  datatype Option<T> = None | Some(value: T)

  datatype Result<T> = Ok(value: T) | Err(error: Error)

  /** A Go slice, which is either nil or a (possibly empty) sequence of items. */
  datatype Slice<T> = Nil | Of(items: seq<T>)
  {
    function Elems(): seq<T>
    {
      if Nil? then [] else items
    }
  }

  /** The namespace/name pair that identifies an object within its kind. */
  datatype ObjectKey = ObjectKey(namespace: string, name: string)

  /** ObjectKey.String() (types.NamespacedName): "namespace/name", so "/name" in the empty namespace. */
  function KeyString(k: ObjectKey): string
  {
    k.namespace + "/" + k.name
  }

  datatype GroupKind = GroupKind(group: string, kind: string)

  datatype GroupVersion = GroupVersion(group: string, version: string)

  datatype GroupVersionKind = GroupVersionKind(group: string, version: string, kind: string)
  {
    function ToGroupKind(): GroupKind
    {
      GroupKind(group, kind)
    }

    function ToGroupVersion(): GroupVersion
    {
      GroupVersion(group, version)
    }
  }

  /** The Go type behind an object value. Only pointers to structs are valid typed objects. */
  datatype GoType = PtrToStruct(elem: string) | OtherType(name: string)

  /** Unstructured objects carry their own kind; typed objects are Go structs. */
  datatype Flavour = Unstructured | Typed(goType: GoType)

  /** The Go element type of metav1.PartialObjectMetadata. */
  const PartialObjectMetadataType: string := "v1.PartialObjectMetadata"

  predicate IsPartialObjectMetadata(o: Object)
  {
    o.flavour == Typed(PtrToStruct(PartialObjectMetadataType))
  }

  datatype OwnerReference = OwnerReference(apiVersion: string, kind: string, name: string, uid: string, controller: bool)

  /**
   * An abstract Kubernetes object. `typeMeta` is the apiVersion/kind the object
   * carries itself (meaningful for unstructured and partial-metadata objects);
   * `content` stands for everything that is not metadata.
   */
  datatype Object = Object(
    flavour: Flavour,
    typeMeta: GroupVersionKind,
    namespace: string,
    name: string,
    uid: string,
    labels: map<string, string>,
    ownerReferences: seq<OwnerReference>,
    content: string)

  function ObjectKeyFromObject(o: Object): ObjectKey
  {
    ObjectKey(o.namespace, o.name)
  }

  /** A runtime scheme: the GroupVersionKind registered for each Go struct type. */
  datatype Scheme = Scheme(kinds: map<string, GroupVersionKind>)

  datatype Error =
    | AlreadyExists(resource: GroupKind, key: ObjectKey)
    | NotFound(resource: GroupKind, key: ObjectKey)
    | Unsupported(option: string)
    | MissingKind
    | MissingVersion
    | NotRegistered(goType: string)
    | BadGroupVersion(text: string)
    | AlreadyRegistered(field: string)
    | UnknownField(field: string)
    | PatchUnsupported
    | NoField(field: string)
    | IncompatibleType
    | Failure(message: string)
    | Wrapped(context: string, cause: Error)

  /** A self-describing object resolves to its own kind, which must name a kind and a version. */
  function SelfDescribed(gvk: GroupVersionKind): (r: Result<GroupVersionKind>)
    ensures r.Ok? <==> gvk.kind != "" && gvk.version != ""
    ensures r.Ok? ==> r.value == gvk
  {
    if gvk.kind == "" then Err(MissingKind)
    else if gvk.version == "" then Err(MissingVersion)
    else Ok(gvk)
  }

  /**
   * GroupVersionKind resolution of an object against a scheme: unstructured and
   * partial-metadata objects describe themselves, typed objects must be pointers
   * to struct types registered in the scheme.
   */
  function GVKForObject(scheme: Scheme, o: Object): (r: Result<GroupVersionKind>)
    ensures o.flavour.Typed? && !IsPartialObjectMetadata(o) ==>
      (r.Ok? <==> o.flavour.goType.PtrToStruct? && o.flavour.goType.elem in scheme.kinds)
    ensures r.Ok? && o.flavour.Typed? && !IsPartialObjectMetadata(o) ==> r.value == scheme.kinds[o.flavour.goType.elem]
    ensures o.flavour.Unstructured? || IsPartialObjectMetadata(o) ==> r == SelfDescribed(o.typeMeta)
  {
    match o.flavour
    case Unstructured => SelfDescribed(o.typeMeta)
    case Typed(OtherType(n)) => Err(NotRegistered(n))
    case Typed(PtrToStruct(t)) =>
      if t == PartialObjectMetadataType then SelfDescribed(o.typeMeta)
      else if t in scheme.kinds then Ok(scheme.kinds[t])
      else Err(NotRegistered(t))
  }

  /** The error of a result, if it has one. */
  function ErrorOf<U>(r: Result<U>): Option<Error>
  {
    if r.Err? then Some(r.error) else None
  }

  /**
   * The position of the first item on which `call` fails, if any: the point at
   * which a loop that returns on its first error stops.
   */
  function FirstFailure<T>(items: seq<T>, call: T -> Option<Error>): (r: Option<nat>)
    ensures r.Some? ==> r.value < |items| && call(items[r.value]).Some?
    ensures r.Some? ==> forall j :: 0 <= j < r.value ==> call(items[j]).None?
    ensures r.None? ==> forall j :: 0 <= j < |items| ==> call(items[j]).None?
    decreases |items|
  {
    if |items| == 0 then None
    else if call(items[0]).Some? then Some(0)
    else match FirstFailure(items[1..], call)
      case None => None
      case Some(i) => Some(i + 1)
  }

  /** FirstFailure is pinned down by its contract: a failing item with no failure before it. */
  lemma {:induction false} FirstFailureAt<T>(items: seq<T>, call: T -> Option<Error>, i: nat)
    requires i < |items| && call(items[i]).Some?
    requires forall j :: 0 <= j < i ==> call(items[j]).None?
    ensures FirstFailure(items, call) == Some(i)
    decreases i
  {
    if i > 0 {
      assert items[1..][i - 1] == items[i];
      FirstFailureAt(items[1..], call, i - 1);
    }
  }

  /** Without a failing item there is no first failure. */
  lemma {:induction false} FirstFailureNone<T>(items: seq<T>, call: T -> Option<Error>)
    requires forall j :: 0 <= j < |items| ==> call(items[j]).None?
    ensures FirstFailure(items, call).None?
    decreases |items|
  {
    if |items| > 0 {
      FirstFailureNone(items[1..], call);
    }
  }
}
