# controller-utils, modelled in Dafny

This project models the in-memory core of `controller-utils`, a set of helper
packages for Kubernetes controllers, and proves the rules each helper keeps.
Each Go package becomes one Dafny module:

- `ConditionUtils` (`conditions.dfy`) models the condition accessor. Conditions
  are status records with a type, status, reason and message. Their last-update
  time, last-transition time and observed generation are optional, because a
  condition type may not declare them. The module covers the getters and setters,
  the update options, the checkpoint rule that decides whether the transition
  time moves, and first-match lookup and find-or-append over a slice of
  conditions.
- `MemoryStore` (`memorystore.dfy`) models the in-memory client. It is a map
  from object reference (group kind plus namespace/name) to object, with
  create, get, list, update, delete, delete-all-of and patch. Each verb checks
  its options before it touches the map.
- `Switches` (`switches.dfy`) models the comma-separated enable/disable flag.
  `*` restores the defaults, a leading `-` disables, and later tokens win.
  `String()` renders the flag canonically, and the rendering reads back to the
  same settings.
- `Sets` (`sets.dfy`) models the generic map-backed set. `ObjectKeys`
  (`objectkey.dfy`) and `ObjectRefs` (`objectref.dfy`) model the key and
  reference sets and the reference converters.
- `ClientUtils` (`clientutils.dfy`) models three groups of helpers:
  - the batch Create/Get/Patch/Delete loops, which stop at the first error;
  - the order-preserving request converters, which map nil to nil;
  - `GetRequestSet`, which keeps two maps for two kinds of identity.
- `FieldIndexer` (`fieldindexer.dfy`) models the shared field indexer. A field
  is registered once per object flavour and kind, and the underlying indexer
  is called at most once per registered entry.
- `MetaUtils` (`metautils.dfy`) models `GVKForList`, `IsControlledBy` and the
  order-preserving, error-aborting `FilterControlledBy`.

Shared value types live in `Kube` (`kube.dfy`): keys, group/version/kind,
objects, the scheme and errors. Go's nil-or-empty slices are `Slice<T>`
(`Nil` or `Of(items)`). A loop that returns on its first error is specified
by `FirstFailure`, the position of the first failing item. `Strings`
(`strings.dfy`) holds the standard-library string helpers the packages use:
trimming, splitting, joining and Go's string order with a sort.

Objects whose Go methods update them in place are Dafny classes:

- `Sets.Set`, `ObjectKeys.ObjectKeySet`, `ObjectRefs.ObjectRefSet` and
  `ClientUtils.GetRequestSet`;
- `MemoryStore.Store` and `Switches.Switches`;
- the field-indexer registries;
- `ConditionUtils.ConditionRef` and `ConditionUtils.ConditionSlice`, for a
  pointer to a condition and to a slice of conditions.

Each method states its whole new state. Pure helpers are functions.

The scheme's resolution of an object to its group/version/kind (`apiutil.GVKForObject`)
is `Kube.GVKForObject`:

- unstructured objects and `PartialObjectMetadata` describe themselves, and
  fail when their kind or version is empty;
- typed objects must be pointers to structs registered in the scheme.

The Kubernetes client, the underlying field indexer, the patch provider and
the clock are parameters: functions from the request to the error the call
returns, and a `now` time.

## Model

| member | source | states |
|---|---|---|
| ConditionUtils.SetDefaults | conditionutils/conditionutils.go:1133-1161 | every field name ends up non-empty; names given are kept, empty ones get their default; a missing transition becomes the default transition; the timestamp flag is kept |
| ConditionUtils.SetDefaultsIdempotent | conditionutils/conditionutils.go:1133-1161 | defaulting options a second time changes nothing |
| ConditionUtils.NewAccessor | conditionutils/conditionutils.go:1164-1178 | the accessor has non-empty field names, the given timestamp flag, and the given transition or else the default one |
| ConditionUtils.DefaultAccessorUsesDefaults | conditionutils/alias.go:19-23 | the default accessor uses the default field names and the status-only transition, and updates timestamps |
| ConditionUtils.ReadField | conditionutils/conditionutils.go:101-122 | reading an optional field succeeds exactly when the type declares it, returns its value, and otherwise fails with a "no field" error naming the field |
| ConditionUtils.ObservedGeneration | conditionutils/conditionutils.go:686-698 | the generation is returned exactly when the type declares the field; otherwise the error names the configured field |
| ConditionUtils.LastUpdateTime | conditionutils/conditionutils.go:400-410 | the update time is returned exactly when the type declares the field; otherwise the error names the configured field |
| ConditionUtils.LastTransitionTime | conditionutils/conditionutils.go:495-505 | the transition time is returned exactly when the type declares the field; otherwise the error names the configured field |
| ConditionUtils.ReadFieldAgrees | conditionutils/conditionutils.go:101-122 | the getter as written returns exactly for declared fields, and there it returns what the corrected getter returns |
| ConditionUtils.MissingFieldPanics | conditionutils/conditionutils.go:102-104 | on a condition type without ObservedGeneration the getter as written panics, while the corrected one returns the "no field" error |
| ConditionUtils.WriteField | conditionutils/conditionutils.go:139-164 | writing an optional field succeeds exactly when the type declares it and then holds the new value; otherwise a "no field" error |
| ConditionUtils.SetObservedGeneration | conditionutils/conditionutils.go:714-721 | succeeds exactly when the field is declared; afterwards the getter reads the new generation and no other field changed |
| ConditionUtils.SetLastUpdateTime | conditionutils/conditionutils.go:427-434 | succeeds exactly when the field is declared; afterwards the getter reads the new time and no other field changed; otherwise the error names the field |
| ConditionUtils.SetLastTransitionTime | conditionutils/conditionutils.go:520-528 | succeeds exactly when the field is declared; afterwards the getter reads the new time and no other field changed; otherwise the error names the field |
| ConditionUtils.SetLastUpdateTimeIfExists | conditionutils/conditionutils.go:448-460 | the getter reads the new time when the type declares the field, the old result otherwise; nothing else changes |
| ConditionUtils.SetLastTransitionTimeIfExists | conditionutils/conditionutils.go:543-555 | the getter reads the new time when the type declares the field, the old result otherwise; nothing else changes |
| ConditionUtils.TransitionedIff | conditionutils/conditionutils.go:198-277 | a condition transitioned exactly when one of the fields the transition includes (status, reason, message) differs from the checkpoint |
| ConditionUtils.ComputeValues | conditionutils/conditionutils.go:210-237 | the checkpoint values: status, reason and message where the transition includes them, the empty string elsewhere (what they mean is stated by ConditionUtils.TransitionedIff) |
| ConditionUtils.Transitioned | conditionutils/conditionutils.go:266-275 | the values computed now differ from the checkpoint's (characterised field by field in ConditionUtils.TransitionedIff) |
| ConditionUtils.DefaultTransitionIsStatus | conditionutils/alias.go:19 | under the default transition only a status change counts as a transition |
| ConditionUtils.ApplyAllAppend | conditionutils/conditionutils.go:989-993 | applying `xs + ys` applies `xs`, then `ys` from where `xs` left off unless `xs` failed |
| ConditionUtils.ApplyUpdateKeeps | conditionutils/conditionutils.go:978-1113 | no update option changes the type or the declared fields, and a timestamp it changes becomes `now` |
| ConditionUtils.ApplyUpdate | conditionutils/conditionutils.go:978-1113 | each option's ApplyUpdate: Status/Reason/Message set their field; ObservedGeneration fails on an undeclared field; UpdateFromCondition copies the three fields and a declared generation; UpdateTimestamps applies its options, then moves the transition time on a transition and the update time always (properties in ConditionUtils.ApplyUpdateKeeps and ConditionUtils.TimestampRule) |
| ConditionUtils.ApplyAll | conditionutils/conditionutils.go:989-993 | the options applied in order, stopping at the first error and returning the condition as the failing option left it (properties in ConditionUtils.ApplyAllKeeps and ConditionUtils.ApplyAllAppend) |
| ConditionUtils.ApplyAllKeeps | conditionutils/conditionutils.go:989-993 | the same for a sequence of options, failed or not |
| ConditionUtils.UpdateKeeps | conditionutils/conditionutils.go:861-879 | Accessor.Update never changes the condition's type or declared fields, and sets any timestamp it changes to `now` |
| ConditionUtils.PlainUpdatesKeepTimestamps | conditionutils/conditionutils.go:1019-1113 | status, message, reason, observed-generation and copy options never touch the type or the timestamps |
| ConditionUtils.TimestampRule | conditionutils/conditionutils.go:978-1016 | with timestamps enabled and for options without a nested UpdateTimestamps (a nested one reads the clock again, see the clock line under Left out), Update fails exactly when its options fail; on success LastUpdateTime becomes `now` when declared, and LastTransitionTime becomes `now` exactly when the transition sees a change, otherwise it is kept |
| ConditionUtils.DefaultStatusUpdate | conditionutils/conditionutils.go:1019-1025 | with the default accessor, setting the status sets it, moves LastUpdateTime to `now`, and moves LastTransitionTime to `now` exactly when the status changed |
| ConditionUtils.UpdateFromConditionCopies | conditionutils/conditionutils.go:1061-1113 | copies status, reason and message; copies the observed generation only when the source declares it, failing when the target does not; never changes type or timestamps |
| ConditionUtils.Apply | conditionutils/conditionutils.go:978-1016 | applying one option through the pointer leaves the condition and error that ApplyUpdate describes, including the checkpoint and clock of UpdateTimestamps |
| ConditionUtils.ApplyEach | conditionutils/conditionutils.go:872-876 | the loop over options leaves the condition and error that ApplyAll describes, stopping at the first error |
| ConditionUtils.Update | conditionutils/conditionutils.go:861-879 | the condition behind the pointer becomes the result of the effective options (wrapped in UpdateTimestamps unless timestamps are disabled), changes before an error included |
| ConditionUtils.FindSliceIndex | conditionutils/conditionutils.go:735-761 | the smallest index holding the type, or -1 exactly when no condition has it |
| ConditionUtils.FindSlice | conditionutils/conditionutils.go:778-804 | a target of another condition type is an error; otherwise reports whether the type occurs, copies the first match into the target, and leaves the target alone when absent |
| ConditionUtils.FindSliceStatus | conditionutils/conditionutils.go:822-839 | Unknown when no condition has the type, else the status of the first one that does |
| ConditionUtils.NewCondition | conditionutils/conditionutils.go:911-928 | a new condition of the slice's element type with the type set and LastTransitionTime at `now` when declared |
| ConditionUtils.ConditionSlice.New | conditionutils/conditionutils.go:897-901 | a slice pointer over conditions of one element type |
| ConditionUtils.UpdateSlice | conditionutils/conditionutils.go:897-940 | an existing type's first condition is updated in place (failed changes kept) and nothing else changes; an absent type gets a new condition, whose first transition time is the earlier clock reading `created`, appended only when its update succeeds |
| ConditionUtils.UpdateSliceLength | conditionutils/conditionutils.go:897-940 | updating an existing type keeps the length; a new type adds exactly one condition, of that type, or none on error |
| MemoryStore.ValidateCreateOptions | memorystore/memorystore.go:78-86 | rejects Raw, then DryRun; accepts exactly the options with neither |
| MemoryStore.ValidateGetOptions | memorystore/memorystore.go:138-143 | rejects exactly the options with Raw |
| MemoryStore.ValidateListOptions | memorystore/memorystore.go:145-159 | rejects Raw, Continue, Limit and FieldSelector in that order; accepts exactly the options with none of them |
| MemoryStore.ValidateDeleteOptions | memorystore/memorystore.go:194-208 | rejects DryRun, GracePeriodSeconds, Preconditions and PropagationPolicy in that order |
| MemoryStore.ValidateDeleteAllOfOptions | memorystore/memorystore.go:234-242 | the list options' error when there is one, otherwise the delete options' result |
| MemoryStore.ValidateUpdateOptions | memorystore/memorystore.go:266-277 | rejects DryRun, Raw and FieldManager in that order |
| MemoryStore.Remaining | memorystore/memorystore.go:246-264 | the entries DeleteAllOf keeps are exactly those not of the kind or not matching the list filter, with their values |
| MemoryStore.ObjectMatches | memorystore/memorystore.go:161-169 | options with no namespace and no selector match every object; a namespace filter admits only objects of that namespace |
| MemoryStore.NothingListedAfterDeleteAllOf | memorystore/memorystore.go:246-264 | after DeleteAllOf of a kind, List of that kind with the same options finds nothing |
| MemoryStore.DeleteAllOfSparesOtherKinds | memorystore/memorystore.go:246-264 | entries of other kinds survive DeleteAllOf unchanged |
| MemoryStore.Store.New | memorystore/memorystore.go:324-329 | an empty store over the scheme |
| MemoryStore.Store.Create | memorystore/memorystore.go:90-111 | rejected options or an unresolvable kind fail without change; an occupied reference fails with AlreadyExists without change; otherwise exactly that reference is added |
| MemoryStore.Store.Get | memorystore/memorystore.go:114-136 | rejected options or kinds fail; otherwise the object stored under the object's group kind and the given key, or NotFound |
| MemoryStore.Store.CollectWhere | memorystore/memorystore.go:46-52 | the stored objects whose entry satisfies the filter, each once |
| MemoryStore.Store.Objects | memorystore/memorystore.go:46-52 | every stored object exactly once |
| MemoryStore.Store.List | memorystore/memorystore.go:161-192 | rejected options or kinds fail; otherwise exactly the objects of the list's item kind (the kind without "List") in a matching namespace whose labels match the selector |
| MemoryStore.Store.GroupKindObjects | memorystore/memorystore.go:68-76 | the objects of the group kind, each once; nil exactly when there are none |
| MemoryStore.Store.GroupKinds | memorystore/memorystore.go:55-65 | the group kinds of the stored objects, each once; nil exactly for an empty store |
| MemoryStore.Store.Delete | memorystore/memorystore.go:212-232 | rejected options or kinds fail without change; an absent reference fails with NotFound; otherwise exactly that entry is removed |
| MemoryStore.Store.DeleteAllOf | memorystore/memorystore.go:246-264 | rejected options or kinds fail without change; otherwise the store becomes Remaining of the kind and options |
| MemoryStore.Store.Update | memorystore/memorystore.go:281-301 | rejected options or kinds fail without change; an absent reference fails with NotFound; otherwise that entry's value is replaced and the keys stay the same |
| MemoryStore.Store.Patch | memorystore/memorystore.go:305-307 | always fails and changes nothing |
| MemoryStore.Store.CreateThenGet | memorystore/memorystore.go:90-136 | an object created in a free slot is what Get returns |
| MemoryStore.Store.CreateThenDelete | memorystore/memorystore.go:212-232 | creating in a free slot and deleting again restores the store |
| Switches.Disable | cmdutils/switches/switches.go:57-60 | the token is the name behind the disable prefix |
| Switches.LastMention | cmdutils/switches/switches.go:187-192 | the last token that names an item, or none when no token does |
| Switches.ApplyTokensLastWins | cmdutils/switches/switches.go:187-192 | after the tokens, an item is set by the last token that names it, and is untouched when none does |
| Switches.PreparedMeaning | cmdutils/switches/switches.go:171-195 | with "*" an item not named later keeps its default, without it it stays unset; a named item takes its last token's setting |
| Switches.CopyDefaults | cmdutils/switches/switches.go:178-185 | the copy equals the defaults |
| Switches.PrepareSettings | cmdutils/switches/switches.go:171-195 | the result is Prepared: empty for the single empty token, otherwise the defaults when "*" occurs, then the other tokens left to right |
| Switches.FirstUnknown | cmdutils/switches/switches.go:101-107 | there is no unknown name exactly when every token without its "-" is "*" or a default name; otherwise the name of an unacceptable token |
| Switches.RenderIsJoin | cmdutils/switches/switches.go:62-84 | for non-empty names the rendering is the comma-join of the item tokens |
| Switches.RenderingReadsBack | cmdutils/switches/switches.go:62-114 | reading the rendering back gives exactly the item tokens of the sorted default names |
| Switches.OnlyOwnTokenMentions | cmdutils/switches/switches.go:62-84 | in the rendering, each name's last (and only) mention is its own token |
| Switches.RenderedTokensKnown | cmdutils/switches/switches.go:62-107 | every rendered token passes Set's validation and none is "*" |
| Switches.TokensRestoreItem | cmdutils/switches/switches.go:171-195 | applying the rendered tokens sets each name as it was |
| Switches.RoundTripItem | cmdutils/switches/switches.go:62-114 | Set(String()) restores one default item |
| Switches.RoundTrip | cmdutils/switches/switches.go:62-114 | the rendering validates, and Set(String()) restores every default item |
| Switches.ByDefaultPartition | cmdutils/switches/switches.go:122-165 | the names enabled and disabled by default are disjoint and together are all names |
| Switches.RenderNames | cmdutils/switches/switches.go:71-81 | the loop produces the rendering of the sorted names |
| Switches.Switches.Make | cmdutils/switches/switches.go:40-55 | defaults come from the given tokens applied to empty defaults; settings are empty, so nothing is enabled |
| Switches.Switches.String | cmdutils/switches/switches.go:62-84 | the default names in ascending order, `name` when enabled and `-name` otherwise, comma-separated |
| Switches.Switches.Set | cmdutils/switches/switches.go:86-114 | an unknown name fails and changes nothing; otherwise the settings become the prepared tokens ("" resets to empty); defaults never change |
| Switches.Switches.SetToString | cmdutils/switches/switches.go:62-114 | setting the flag from its own rendering succeeds and changes no item |
| Switches.Switches.AllNames | cmdutils/switches/switches.go:122-129 | exactly the default names |
| Switches.Switches.Active | cmdutils/switches/switches.go:132-141 | exactly the enabled names |
| Switches.Switches.EnabledByDefault | cmdutils/switches/switches.go:144-153 | exactly the names enabled by default |
| Switches.Switches.Enabled | cmdutils/switches/switches.go:117-119 | true exactly when the settings map the name to true; false for a name never set (Go's zero value) |
| Switches.Switches.DisabledByDefault | cmdutils/switches/switches.go:156-165 | exactly the names disabled by default |
| Sets.Set.New | set/set.go:30-34 | exactly the given items, duplicates collapsed |
| Sets.Set.Len | set/set.go:171-173 | zero exactly for the empty set |
| Sets.Set.Has | set/set.go:53-56 | membership in the set: true exactly for the members that Insert, Delete and HasAll speak about |
| Sets.Set.Insert | set/set.go:37-42 | the old members plus the items |
| Sets.Set.Delete | set/set.go:45-50 | the old members without the items |
| Sets.Set.HasAll | set/set.go:59-66 | true exactly when every item is a member (so for no items) |
| Sets.Set.HasAny | set/set.go:69-76 | true exactly when some item is a member |
| Sets.Set.Difference | set/set.go:84-92 | a new set of exactly the members not in the other set; the inputs do not change |
| Sets.Set.Union | set/set.go:100-109 | a new set of exactly the members of either set; the inputs do not change |
| Sets.Set.InsertEach | set/set.go:104-106 | inserting every key of a set adds exactly those keys |
| Sets.Set.Intersection | set/set.go:116-132 | a new set of exactly the common members, whichever set is walked |
| Sets.Set.IsSuperset | set/set.go:135-142 | true exactly when every member of the other set is a member |
| Sets.Set.Equal | set/set.go:147-149 | true exactly when both sets have the same members |
| Sets.Set.Slice | set/set.go:152-158 | every member exactly once |
| Sets.Set.PopAny | set/set.go:161-168 | on a non-empty set removes and returns one member and the length drops by one; on an empty set returns nothing and changes nothing |
| Sets.SortedSlice | set/set.go:176-185 | every member exactly once, in strictly ascending order |
| Sets.SortedIntSlice | set/set.go:176-185 | SortedSlice over integers: every member exactly once, in strictly ascending order |
| Strings.SortStrings | set/set.go:181-184 | the collected members sorted, the unique ascending listing of the set |
| ClientUtils.IgnoreAlreadyExists | clientutils/clientutils.go:31-36 | nil exactly for nil or an already-exists error; every other error is returned unchanged |
| ClientUtils.CallEach | clientutils/clientutils.go:54-62 | the items are called in order up to the first failure, whose error is returned wrapped; later items are never attempted |
| ClientUtils.CreateMultiple | clientutils/clientutils.go:54-62 | creates in order and stops at the first failure, returning it wrapped with the object's description |
| ClientUtils.GetRequestFromObject | clientutils/clientutils.go:72-77 | the request's key is the object's own key and it targets the object |
| ClientUtils.GetMultiple | clientutils/clientutils.go:258-265 | gets in order and stops at the first failure, returning it wrapped |
| ClientUtils.PatchRequestFromObjectAndProvider | clientutils/clientutils.go:290-295 | the request pairs the object with the provider's patch for it |
| ClientUtils.PatchMultiple | clientutils/clientutils.go:323-333 | patches in order and stops at the first failure, returning it wrapped |
| ClientUtils.DeleteMultiple | clientutils/clientutils.go:375-385 | deletes in order and stops at the first failure, returning it wrapped |
| ClientUtils.ConvertEach | clientutils/clientutils.go:80-89 | nil stays nil; otherwise the converted items in order, length kept |
| ClientUtils.GetRequestsFromObjects | clientutils/clientutils.go:80-89 | nil exactly for nil; otherwise one request per object, in order |
| ClientUtils.ObjectsFromGetRequests | clientutils/clientutils.go:92-101 | nil exactly for nil; otherwise the requests' objects in order |
| ClientUtils.PatchRequestsFromObjectsAndProvider | clientutils/clientutils.go:299-308 | nil exactly for nil; otherwise one patch request per object, in order |
| ClientUtils.ObjectsFromPatchRequests | clientutils/clientutils.go:311-320 | nil exactly for nil; otherwise the requests' objects in order |
| ClientUtils.GetRequestsRoundTrip | clientutils/clientutils.go:80-101 | objects to get requests and back is the identity, nil included |
| ClientUtils.PatchRequestsRoundTrip | clientutils/clientutils.go:299-320 | objects to patch requests and back is the identity, nil included |
| ClientUtils.TypedInsertHas | clientutils/clientutils.go:152-161 | every inserted typed request's identity is present afterwards |
| ClientUtils.UnstructuredInsertHas | clientutils/clientutils.go:152-161 | every inserted unstructured request's identity is present afterwards |
| ClientUtils.TypedReinsertKeepsKeys | clientutils/clientutils.go:152-166 | re-inserting present typed requests keeps the identities, so Len is unchanged |
| ClientUtils.UnstructuredReinsertKeepsKeys | clientutils/clientutils.go:152-166 | re-inserting present unstructured requests keeps the identities, so Len is unchanged |
| ClientUtils.GetRequestSet.New | clientutils/clientutils.go:224-231 | the items inserted in order into empty maps |
| ClientUtils.GetRequestSet.Insert | clientutils/clientutils.go:125-161 | each item stored under its identity ((type, key) when typed, (GVK, key) when unstructured), later ones winning; every item is present afterwards |
| ClientUtils.GetRequestSet.Delete | clientutils/clientutils.go:181-190 | exactly the items' identities are removed, absent ones ignored; no item is present afterwards |
| ClientUtils.GetRequestSet.IterateTyped | clientutils/clientutils.go:195-199 | visits distinct typed requests of the set, stops right after the first refused one, and otherwise visits all of them |
| ClientUtils.GetRequestSet.IterateUnstructured | clientutils/clientutils.go:200-204 | the same for the unstructured requests |
| ClientUtils.GetRequestSet.Iterate | clientutils/clientutils.go:194-205 | visits distinct requests of the set, typed before unstructured, stops right after the first request the callback refuses, and otherwise visits every request |
| ClientUtils.GetRequestSet.List | clientutils/clientutils.go:208-215 | every request of the set exactly once, Len of them |
| ClientUtils.GetRequestSet.Len | clientutils/clientutils.go:163-166 | the sum of the two map sizes is, on a valid set, the number of distinct requests the set holds |
| ClientUtils.GetRequestSet.Has | clientutils/clientutils.go:168-178 | an item is present when its identity is stored: (GVK, key) for unstructured objects, (struct type, key) otherwise |
| ClientUtils.GetRequestSet.StoredRequestsFound | clientutils/clientutils.go:168-178 | every request the set holds is found by Has |
| ObjectRefs.ObjectRefFromObject | clientutils/objectref.go:31-38 | fails exactly when the kind does not resolve; otherwise the resolved group kind (version dropped) and the object's own key |
| ObjectRefs.ObjectRefFromGetRequest | clientutils/objectref.go:58-65 | the group kind of the request's object but the request's key |
| ObjectRefs.RefIgnoresVersion | clientutils/objectref.go:31-38 | two versions of an unstructured object have the same reference |
| ObjectRefs.RequestFromObjectSameRef | clientutils/objectref.go:58-65 | a request made from an object references what the object references |
| ObjectRefs.RefsEach | clientutils/objectref.go:41-55 | nil stays nil; otherwise the references in order, or the error of the first item that fails |
| ObjectRefs.ObjectRefsFromObjects | clientutils/objectref.go:41-55 | nil stays nil; otherwise the objects' references in order, or the first error |
| ObjectRefs.ObjectRefsFromGetRequests | clientutils/objectref.go:68-82 | nil stays nil; otherwise the requests' references in order, or the first error |
| ObjectRefs.ObjectRefSet.New | clientutils/objectref.go:113-117 | exactly the given references |
| ObjectRefs.ObjectRefSet.Insert | clientutils/objectref.go:88-92 | the old references plus the items, so inserting twice is inserting once |
| ObjectRefs.ObjectRefSet.Delete | clientutils/objectref.go:101-105 | the old references without the items; absent items are ignored |
| ObjectRefs.ObjectRefSet.Len | clientutils/objectref.go:108-110 | zero exactly when no reference is in the set |
| ObjectRefs.ObjectRefSet.Has | clientutils/objectref.go:95-98 | membership of the reference; related to Len, Insert and Delete by their contracts |
| ObjectRefs.ReferencesObject | clientutils/objectref.go:120-127 | Has of the object's reference, or the reference's error |
| ObjectRefs.ReferencesGetRequest | clientutils/objectref.go:130-137 | Has of the request's reference, or the reference's error |
| ObjectRefs.SetFromObjects | clientutils/objectref.go:140-151 | nil and the first object's error when a reference fails; otherwise a new set of exactly the objects' references |
| ObjectRefs.RefsOfRequests | clientutils/objectref.go:157-164 | the references of the visited requests, one per request, in order |
| ObjectRefs.RefsOfRequestsMembers | clientutils/objectref.go:154-172 | the references of a listing of all requests are the references of the set |
| ObjectRefs.SetFromGetRequestSet | clientutils/objectref.go:154-172 | nil and a failing request's error when some reference fails; otherwise a new set of exactly the requests' references |
| ObjectKeys.ObjectKeySet.New | clientutils/objectkey.go:50-54 | exactly the given keys |
| ObjectKeys.ObjectKeySet.Insert | clientutils/objectkey.go:24-28 | the old keys plus the items |
| ObjectKeys.ObjectKeySet.Delete | clientutils/objectkey.go:38-42 | the old keys without the items |
| ObjectKeys.Len | clientutils/objectkey.go:45-47 | zero exactly when no key is present, so for the nil set |
| ObjectKeys.Has | clientutils/objectkey.go:31-34 | membership of the key; the nil set holds no key |
| ObjectKeys.NewLen | clientutils/objectkey.go:45-54 | a new set's length is the number of distinct items, equal to the item count exactly when the items are distinct |
| ObjectKeys.InsertThenDelete | clientutils/objectkey.go:24-42 | a key is present exactly when it was present or inserted, and not deleted |
| FieldIndexer.SpecificMap.New | clientutils/fieldindexer.go:107-109 | an empty registry |
| FieldIndexer.SpecificMap.SetIfNotPresent | clientutils/fieldindexer.go:115-127 | registers an uninitialized entry exactly when none exists for the kind and field; nothing else changes |
| FieldIndexer.SpecificMap.Lookup | clientutils/fieldindexer.go:111-113 | the entry registered for the kind and field name, None (Go's nil) when the kind or the name is unknown |
| FieldIndexer.SpecificMap.MarkInitialized | clientutils/fieldindexer.go:78 | the entry is marked initialized, keeping its function; nothing else changes |
| FieldIndexer.SharedFieldIndexer.New | clientutils/fieldindexer.go:37-42 | three separate empty registries |
| FieldIndexer.SharedFieldIndexer.MapFor | clientutils/fieldindexer.go:129-143 | the kind's error, or the registry of the object's flavour (unstructured, partial metadata, typed) with its kind |
| FieldIndexer.SharedFieldIndexer.Get | clientutils/fieldindexer.go:145-152 | the kind's error, or the entry registered for the kind and field |
| FieldIndexer.SharedFieldIndexer.Register | clientutils/fieldindexer.go:45-54 | a kind error changes nothing; the first registration succeeds and adds an uninitialized entry; a repeated one fails with "already registered" and keeps the original |
| FieldIndexer.SharedFieldIndexer.IndexField | clientutils/fieldindexer.go:63-80 | unknown kind or field fails; the underlying indexer runs exactly when the entry is not yet initialized, and the entry is marked initialized only when that call succeeds |
| FieldIndexer.SharedFieldIndexer.IndexFieldTwice | clientutils/fieldindexer.go:63-80 | after a successful index call a second one succeeds without calling the underlying indexer again |
| MetaUtils.GVKForList | metautils/metautils.go:55-63 | the object's kind error, or its group/version/kind with one trailing "List" removed from the kind |
| MetaUtils.FirstController | metautils/metautils.go:80-83 | the first owner reference marked as controller, none exactly when there is none |
| MetaUtils.ParseFormat | metautils/metautils.go:92-95 | parsing the apiVersion written for a group version gives it back |
| MetaUtils.IsControlledBy | metautils/metautils.go:80-100 | false without a controller; otherwise the owner's kind or apiVersion errors, or true exactly when group/version, kind, name and UID all match |
| MetaUtils.ControllerReferenceRecognised | metautils/metautils.go:80-100 | an object whose controller reference was made for the owner is controlled by it |
| MetaUtils.OtherControllerNotRecognised | metautils/metautils.go:80-100 | an object whose controller has another UID is not controlled by the owner |
| MetaUtils.KeptInOrder | metautils/metautils.go:103-116 | the filtered items are those the predicate keeps, in their original order |
| MetaUtils.KeptStep | metautils/metautils.go:105-114 | one more item extends the kept items by it exactly when it is kept |
| MetaUtils.ControlledInOrder | metautils/metautils.go:103-116 | the controlled objects are exactly those IsControlledBy accepts, in list order |
| MetaUtils.FilterEach | metautils/metautils.go:103-116 | the error of the first item whose test fails; otherwise the kept items in order, nil when there are none |
| MetaUtils.FilterControlledBy | metautils/metautils.go:103-116 | the error of the first object whose check fails; otherwise exactly the controlled objects in order, nil when there are none |

## Left out

- The CSV reader in `Switches.Set` is a plain split on commas. Quoting, and the
  read error it can report, are not modelled. The round trip assumes names
  that are non-empty, are not `*`, have no leading `-` and hold no comma,
  double quote, `\n` or `\r`. The Go CSV reader rejects a bare quote, reads
  a leading quote as a quoted field, and ends the record at a line break.
- Go reflection in the condition accessor is not modelled. A condition is a
  fixed record. Its optional fields are `Option`s, and `None` stands for a
  field the condition type does not declare. The Type/Status/Reason/Message
  getters and setters are plain record reads and updates. So are
  `SetLastUpdateTime` and `SetLastTransitionTime`, which go through `WriteField`.
- Condition field names only affect error messages. Field types that are
  pointers, `direct`, and the "cannot be converted" errors are not modelled.
- The clock is the `now` parameter: one time per `Update` call. The Go code
  reads the clock again for each nested `UpdateTimestamps`.
- ConditionUtils.TimestampRule is stated only for options without a nested
  `UpdateTimestamps`. Go accepts nested ones, since the option is exported.
  For those, only the weaker `ConditionUtils.UpdateKeeps` holds: each
  timestamp is kept or set to `now`.
- ConditionUtils.UpdateSlice and ConditionUtils.UpdateSliceLength take two
  clock readings. `created` is read first, for a new condition's initial
  LastTransitionTime (conditionutils/conditionutils.go:924). `now` is read
  afterwards by `Update` (conditionutils/conditionutils.go:999). The model
  does not require `created <= now`. A new condition that does not transition
  keeps `created` as its transition time and gets `now` as its update time,
  as in Go.
- Only `FieldsTransition` is modelled as a transition. Other `Transition`
  implementations are not part of this model.
- `UpdateFromCondition` ignores the source accessor's field names, which only
  matter under reflection.
- ConditionUtils.FindSlice: the element type is a shape parameter, and the
  incompatible-type error stands for all of Go's type checks. The
  "not a slice" and "not a pointer" errors are not modelled.
- Scheme conversion from the stored object into the caller's object in
  `MemoryStore.Store.Get` and `List` is the identity.
- Label selectors are equality selectors (label name to value). The full
  selector grammar is not modelled.
- The `Must*` variants, and the `*FromFile` helpers that read YAML files, are
  not modelled.
- GetMultiple does not model the client writing into the requests' objects.
  The client, the underlying field indexer and the patch provider are
  function parameters.
- Sets.Set.PopAny returns `None` where Go returns the zero value and false.
- Go's map iteration order is unspecified. Iteration over sets and maps
  (`Iterate`, `List`, `Slice`, `Objects`, `GroupKinds`) picks an arbitrary
  member each step, and the contracts speak about membership, not order.
- ClientUtils.GetRequestSet.Iterate: the doc comment says a true result stops
  iteration. The code, and this model, stop on false.
- ObjectRefs.SetFromGetRequestSet collects the references after iteration
  instead of inserting them during it. The resulting set and error are the
  same.
- Field-indexer entries are values in a map, where Go keeps pointers. Marking
  an entry initialized replaces it.
- The field indexer's context and the store's `Scheme()`/`RESTMapper()`
  accessors are not modelled.
- ConditionUtils.ObservedGeneration, ConditionUtils.LastUpdateTime,
  ConditionUtils.LastTransitionTime and ConditionUtils.ReadField model the
  corrected getter. All three Go getters call `getAndConvertField`
  (conditionutils/conditionutils.go:407, 502, 693). So on an undeclared field
  each one panics as written instead of returning the error. See Findings.
- MemoryStore.Store keeps object values. Go stores the caller's pointer
  (memorystore/memorystore.go:109, 299), and `Objects`/`GroupKindObjects`
  return those pointers. A caller that later changes or renames an object
  through its own pointer, or that stores one pointer under two keys, is
  outside the model. `Store.Valid()` (each object stored under its own
  reference) is an assumption about callers that Go does not enforce. The
  promises of `Objects`, `CollectWhere`, `List` and `GroupKindObjects` about
  distinct results and result counts rely on it.
- Sets.SortedSlice is modelled for two instances of Go's
  `constraints.Ordered` element type: strings (`Sets.SortedSlice`) and
  integers (`Sets.SortedIntSlice`). Floating-point elements are not
  modelled: NaN is unordered, so the result is not sorted in the usual
  sense.

## Findings

| source | as written | input that shows it | evidently intended | confidence | as-written member | corrected member |
|---|---|---|---|---|---|---|
| conditionutils/conditionutils.go:102-104 | `getAndConvertField` tests `v.IsValid()`, the struct, instead of `f.IsValid()`, the looked-up field. A missing field then reaches `f.Type()` on the zero `reflect.Value`, which panics | reading ObservedGeneration of a condition type that declares both timestamps but no ObservedGeneration field | return the "type has no field" error | not executed | ConditionUtils.ObservedGenerationAsWritten (ConditionUtils.MissingFieldPanics) | ConditionUtils.ObservedGeneration (ConditionUtils.ReadField) |
