// Condition handling of conditionutils/conditionutils.go. The Go code reaches
// the fields of any structurally compatible condition struct by reflection;
// here a condition is a fixed record. Type, Status, Reason and Message always
// exist; LastUpdateTime, LastTransitionTime and ObservedGeneration may be
// missing from a condition's type, which the record shows as None. The clock
// becomes the parameter `now`.

module ConditionUtils {
  import opened Kube

  /** A point in time (metav1.Time), as read from the clock. */
  type Time = int

  const DefaultTypeField := "Type"
  const DefaultStatusField := "Status"
  const DefaultLastUpdateTimeField := "LastUpdateTime"
  const DefaultLastTransitionTimeField := "LastTransitionTime"
  const DefaultReasonField := "Reason"
  const DefaultMessageField := "Message"
  const DefaultObservedGenerationField := "ObservedGeneration"

  /** corev1.ConditionUnknown. */
  const ConditionUnknown := "Unknown"

  datatype Condition = Condition(
    condType: string,
    status: string,
    reason: string,
    message: string,
    lastUpdateTime: Option<Time>,
    lastTransitionTime: Option<Time>,
    observedGeneration: Option<int>)

  /** Which of the optional fields a condition type declares. */
  datatype Shape = Shape(hasLastUpdateTime: bool, hasLastTransitionTime: bool, hasObservedGeneration: bool)

  function ShapeOf(c: Condition): Shape
  {
    Shape(c.lastUpdateTime.Some?, c.lastTransitionTime.Some?, c.observedGeneration.Some?)
  }

  /** The zero value of a condition type with the given optional fields (reflect.New). */
  function Zero(shape: Shape): Condition
  {
    Condition("", "", "", "",
              if shape.hasLastUpdateTime then Some(0) else None,
              if shape.hasLastTransitionTime then Some(0) else None,
              if shape.hasObservedGeneration then Some(0) else None)
  }

  /** The struct field names an Accessor reads and writes. */
  datatype FieldNames = FieldNames(
    typeField: string,
    statusField: string,
    lastUpdateTimeField: string,
    lastTransitionTimeField: string,
    reasonField: string,
    messageField: string,
    observedGenerationField: string)

  const DefaultFields := FieldNames(DefaultTypeField, DefaultStatusField, DefaultLastUpdateTimeField,
                                    DefaultLastTransitionTimeField, DefaultReasonField, DefaultMessageField,
                                    DefaultObservedGenerationField)

  /** FieldsTransition: which fields decide whether a condition transitioned. */
  datatype FieldsTransition = FieldsTransition(includeStatus: bool, includeReason: bool, includeMessage: bool)

  /** DefaultTransition (alias.go): the status alone decides. */
  const DefaultTransition := FieldsTransition(true, false, false)

  datatype Accessor = Accessor(fields: FieldNames, disableTimestampUpdates: bool, transition: FieldsTransition)

  // ---------------------------------------------------------------------------
  // Accessor options

  datatype AccessorOptions = AccessorOptions(fields: FieldNames, disableTimestampUpdates: bool,
                                             transition: Option<FieldsTransition>)

  /** The zero AccessorOptions{}. */
  const NoOptions := AccessorOptions(FieldNames("", "", "", "", "", "", ""), false, None)

  /** The i-th field name, in declaration order. */
  function FieldAt(names: FieldNames, i: nat): string
    requires i < 7
  {
    match i
    case 0 => names.typeField
    case 1 => names.statusField
    case 2 => names.lastUpdateTimeField
    case 3 => names.lastTransitionTimeField
    case 4 => names.reasonField
    case 5 => names.messageField
    case _ => names.observedGenerationField
  }

  function Defaulted(given: string, default: string): string
  {
    if given == "" then default else given
  }

  /** SetDefaults: every unset field name gets its default, an unset transition the default transition. */
  function SetDefaults(o: AccessorOptions): (r: AccessorOptions)
    ensures forall i :: 0 <= i < 7 ==> FieldAt(r.fields, i) != ""
    ensures forall i :: 0 <= i < 7 && FieldAt(o.fields, i) != "" ==> FieldAt(r.fields, i) == FieldAt(o.fields, i)
    ensures forall i :: 0 <= i < 7 && FieldAt(o.fields, i) == "" ==> FieldAt(r.fields, i) == FieldAt(DefaultFields, i)
    ensures r.transition.Some? && (o.transition.Some? ==> r.transition == o.transition)
    ensures o.transition.None? ==> r.transition == Some(DefaultTransition)
    ensures r.disableTimestampUpdates == o.disableTimestampUpdates
  {
    var f := o.fields;
    AccessorOptions(
      FieldNames(Defaulted(f.typeField, DefaultTypeField),
                 Defaulted(f.statusField, DefaultStatusField),
                 Defaulted(f.lastUpdateTimeField, DefaultLastUpdateTimeField),
                 Defaulted(f.lastTransitionTimeField, DefaultLastTransitionTimeField),
                 Defaulted(f.reasonField, DefaultReasonField),
                 Defaulted(f.messageField, DefaultMessageField),
                 Defaulted(f.observedGenerationField, DefaultObservedGenerationField)),
      o.disableTimestampUpdates,
      if o.transition.None? then Some(DefaultTransition) else o.transition)
  }

  /** Applying the defaults a second time changes nothing. */
  lemma SetDefaultsIdempotent(o: AccessorOptions)
    ensures SetDefaults(SetDefaults(o)) == SetDefaults(o)
  {
  }

  /** NewAccessor: the accessor over the defaulted options. */
  function NewAccessor(opts: AccessorOptions): (a: Accessor)
    ensures forall i :: 0 <= i < 7 ==> FieldAt(a.fields, i) != ""
    ensures a.disableTimestampUpdates == opts.disableTimestampUpdates
    ensures a.transition == (if opts.transition.Some? then opts.transition.value else DefaultTransition)
  {
    var d := SetDefaults(opts);
    Accessor(d.fields, d.disableTimestampUpdates, d.transition.value)
  }

  /** DefaultAccessor (alias.go). */
  const DefaultAccessor := NewAccessor(NoOptions)

  /** The default accessor uses the default field names, the default transition and updates timestamps. */
  lemma DefaultAccessorUsesDefaults()
    ensures DefaultAccessor.fields == DefaultFields
    ensures DefaultAccessor.transition == DefaultTransition
    ensures !DefaultAccessor.disableTimestampUpdates
  {
  }

  // ---------------------------------------------------------------------------
  // Optional fields: presence, getters and setters

  predicate HasLastUpdateTime(c: Condition) { c.lastUpdateTime.Some? }
  predicate HasLastTransitionTime(c: Condition) { c.lastTransitionTime.Some? }
  predicate HasObservedGeneration(c: Condition) { c.observedGeneration.Some? }

  /** getAndConvertField as intended: a declared field's value, an error naming an undeclared field. */
  function ReadField<T>(field: Option<T>, name: string): (r: Result<T>)
    ensures r.Ok? <==> field.Some?
    ensures r.Ok? ==> Some(r.value) == field
    ensures r.Err? ==> r.error == NoField(name)
  {
    match field
    case Some(v) => Ok(v)
    case None => Err(NoField(name))
  }

  /** LastUpdateTime: the time when the type declares it, otherwise a "no field" error. */
  function LastUpdateTime(a: Accessor, c: Condition): (r: Result<Time>)
    ensures r.Ok? <==> HasLastUpdateTime(c)
    ensures r.Ok? ==> Some(r.value) == c.lastUpdateTime
    ensures r.Err? ==> r.error == NoField(a.fields.lastUpdateTimeField)
  {
    ReadField(c.lastUpdateTime, a.fields.lastUpdateTimeField)
  }

  /** LastTransitionTime: the time when the type declares it, otherwise a "no field" error. */
  function LastTransitionTime(a: Accessor, c: Condition): (r: Result<Time>)
    ensures r.Ok? <==> HasLastTransitionTime(c)
    ensures r.Ok? ==> Some(r.value) == c.lastTransitionTime
    ensures r.Err? ==> r.error == NoField(a.fields.lastTransitionTimeField)
  {
    ReadField(c.lastTransitionTime, a.fields.lastTransitionTimeField)
  }

  /** ObservedGeneration: the generation when the type declares it, otherwise a "no field" error. */
  function ObservedGeneration(a: Accessor, c: Condition): (r: Result<int>)
    ensures r.Ok? <==> HasObservedGeneration(c)
    ensures r.Ok? ==> Some(r.value) == c.observedGeneration
    ensures r.Err? ==> r.error == NoField(a.fields.observedGenerationField)
  {
    ReadField(c.observedGeneration, a.fields.observedGenerationField)
  }

  /** The result of a Go call that may panic instead of returning. */
  datatype Outcome<T> = Returned(result: Result<T>) | Panicked

  /**
   * getAndConvertField as written: it tests the struct value instead of the
   * looked-up field, so an undeclared field reaches Type() on the zero
   * reflect.Value and panics.
   */
  function ReadFieldAsWritten<T>(field: Option<T>, name: string): Outcome<T>
  {
    match field
    case Some(v) => Returned(Ok(v))
    case None => Panicked
  }

  function ObservedGenerationAsWritten(a: Accessor, c: Condition): Outcome<int>
  {
    ReadFieldAsWritten(c.observedGeneration, a.fields.observedGenerationField)
  }

  /** A condition type without ObservedGeneration makes the getter panic instead of returning its error. */
  lemma MissingFieldPanics()
    ensures ObservedGenerationAsWritten(DefaultAccessor, Zero(Shape(true, true, false))) == Panicked
    ensures ObservedGeneration(DefaultAccessor, Zero(Shape(true, true, false))) == Err(NoField("ObservedGeneration"))
  {
  }

  /** Both readings agree on every declared field. */
  lemma ReadFieldAgrees<T>(field: Option<T>, name: string)
    ensures ReadFieldAsWritten(field, name).Returned? <==> field.Some?
    ensures field.Some? ==> ReadFieldAsWritten(field, name) == Returned(ReadField(field, name))
  {
  }

  /** setFieldConverted on an optional field: set when declared, otherwise a "no field" error. */
  function WriteField<T>(field: Option<T>, value: T, name: string): (r: Result<Option<T>>)
    ensures r.Ok? <==> field.Some?
    ensures r.Ok? ==> r.value == Some(value)
    ensures r.Err? ==> r.error == NoField(name)
  {
    if field.Some? then Ok(Some(value)) else Err(NoField(name))
  }

  /** SetLastUpdateTime: changes only the update time, and fails when the type does not declare it. */
  function SetLastUpdateTime(a: Accessor, c: Condition, t: Time): (r: Result<Condition>)
    ensures r.Ok? <==> HasLastUpdateTime(c)
    ensures r.Ok? ==> LastUpdateTime(a, r.value) == Ok(t) && r.value.(lastUpdateTime := c.lastUpdateTime) == c
    ensures r.Err? ==> r.error == NoField(a.fields.lastUpdateTimeField)
  {
    match WriteField(c.lastUpdateTime, t, a.fields.lastUpdateTimeField)
    case Ok(f) => Ok(c.(lastUpdateTime := f))
    case Err(e) => Err(e)
  }

  /** SetLastTransitionTime: changes only the transition time, and fails when the type does not declare it. */
  function SetLastTransitionTime(a: Accessor, c: Condition, t: Time): (r: Result<Condition>)
    ensures r.Ok? <==> HasLastTransitionTime(c)
    ensures r.Ok? ==> LastTransitionTime(a, r.value) == Ok(t) && r.value.(lastTransitionTime := c.lastTransitionTime) == c
    ensures r.Err? ==> r.error == NoField(a.fields.lastTransitionTimeField)
  {
    match WriteField(c.lastTransitionTime, t, a.fields.lastTransitionTimeField)
    case Ok(f) => Ok(c.(lastTransitionTime := f))
    case Err(e) => Err(e)
  }

  /** SetObservedGeneration: changes only the generation, and fails when the type does not declare it. */
  function SetObservedGeneration(a: Accessor, c: Condition, gen: int): (r: Result<Condition>)
    ensures r.Ok? <==> HasObservedGeneration(c)
    ensures r.Ok? ==> ObservedGeneration(a, r.value) == Ok(gen) && r.value.(observedGeneration := c.observedGeneration) == c
    ensures r.Err? ==> r.error == NoField(a.fields.observedGenerationField)
  {
    match WriteField(c.observedGeneration, gen, a.fields.observedGenerationField)
    case Ok(f) => Ok(c.(observedGeneration := f))
    case Err(e) => Err(e)
  }

  /** SetLastUpdateTimeIfExists: sets the time when the type declares the field and changes nothing else. */
  function SetLastUpdateTimeIfExists(a: Accessor, c: Condition, t: Time): (r: Condition)
    ensures LastUpdateTime(a, r) == (if HasLastUpdateTime(c) then Ok(t) else LastUpdateTime(a, c))
    ensures r.(lastUpdateTime := c.lastUpdateTime) == c
  {
    match SetLastUpdateTime(a, c, t)
    case Ok(d) => d
    case Err(_) => c
  }

  /** SetLastTransitionTimeIfExists: sets the time when the type declares the field and changes nothing else. */
  function SetLastTransitionTimeIfExists(a: Accessor, c: Condition, t: Time): (r: Condition)
    ensures LastTransitionTime(a, r) == (if HasLastTransitionTime(c) then Ok(t) else LastTransitionTime(a, c))
    ensures r.(lastTransitionTime := c.lastTransitionTime) == c
  {
    match SetLastTransitionTime(a, c, t)
    case Ok(d) => d
    case Err(_) => c
  }

  // ---------------------------------------------------------------------------
  // Transitions

  /** fieldsTransitionValues: the included fields, the empty string for the others. */
  datatype TransitionValues = TransitionValues(status: string, reason: string, message: string)

  /** computeValues (Checkpoint): the values of the included fields. */
  function ComputeValues(tr: FieldsTransition, c: Condition): TransitionValues
  {
    TransitionValues(if tr.includeStatus then c.status else "",
                     if tr.includeReason then c.reason else "",
                     if tr.includeMessage then c.message else "")
  }

  /** Transitioned: the included values now differ from the checkpoint. */
  predicate Transitioned(tr: FieldsTransition, checkpoint: TransitionValues, c: Condition)
  {
    ComputeValues(tr, c) != checkpoint
  }

  /** A condition transitioned exactly when one of the included fields changed. */
  lemma TransitionedIff(tr: FieldsTransition, before: Condition, after: Condition)
    ensures Transitioned(tr, ComputeValues(tr, before), after) <==>
              (tr.includeStatus && after.status != before.status)
              || (tr.includeReason && after.reason != before.reason)
              || (tr.includeMessage && after.message != before.message)
  {
  }

  /** Under the default transition only a status change counts. */
  lemma DefaultTransitionIsStatus(before: Condition, after: Condition)
    ensures Transitioned(DefaultTransition, ComputeValues(DefaultTransition, before), after) <==>
              after.status != before.status
  {
    TransitionedIff(DefaultTransition, before, after);
  }

  // ---------------------------------------------------------------------------
  // Update options

  datatype UpdateOption =
    | UpdateStatus(status: string)
    | UpdateMessage(message: string)
    | UpdateReason(reason: string)
    | UpdateObservedGeneration(generation: int)
    | UpdateFromCondition(source: Condition)
    | UpdateTimestamps(transition: FieldsTransition, updates: seq<UpdateOption>)

  /**
   * The condition after applying options and the error that stopped them.
   * Updates go through a pointer, so a failed option keeps the changes made
   * before it failed.
   */
  datatype Step = Step(cond: Condition, err: Option<Error>)

  function SetOrFail(c: Condition, r: Result<Condition>): Step
  {
    match r
    case Ok(d) => Step(d, None)
    case Err(e) => Step(c, Some(e))
  }

  /** ApplyUpdate of each option kind, on the condition `c`. */
  function ApplyUpdate(a: Accessor, c: Condition, opt: UpdateOption, now: Time): Step
    decreases opt, 1
  {
    match opt
    case UpdateStatus(s) => Step(c.(status := s), None)
    case UpdateMessage(m) => Step(c.(message := m), None)
    case UpdateReason(r) => Step(c.(reason := r), None)
    case UpdateObservedGeneration(g) => SetOrFail(c, SetObservedGeneration(a, c, g))
    case UpdateFromCondition(src) =>
      var copied := c.(status := src.status, reason := src.reason, message := src.message);
      if HasObservedGeneration(src) then SetOrFail(copied, SetObservedGeneration(a, copied, src.observedGeneration.value))
      else Step(copied, None)
    case UpdateTimestamps(tr, updates) =>
      var checkpoint := ComputeValues(tr, c);
      var inner := ApplyAll(a, c, updates, now);
      if inner.err.Some? then inner
      else
        var moved := if Transitioned(tr, checkpoint, inner.cond) then SetLastTransitionTimeIfExists(a, inner.cond, now)
                     else inner.cond;
        Step(SetLastUpdateTimeIfExists(a, moved, now), None)
  }

  /** The options applied in order, stopping at the first error. */
  function ApplyAll(a: Accessor, c: Condition, opts: seq<UpdateOption>, now: Time): Step
    decreases opts, 0
  {
    if |opts| == 0 then Step(c, None)
    else
      var prefix := ApplyAll(a, c, opts[..|opts| - 1], now);
      if prefix.err.Some? then prefix else ApplyUpdate(a, prefix.cond, opts[|opts| - 1], now)
  }

  /** Update wraps the options in UpdateTimestamps with the accessor's transition, unless timestamps are disabled. */
  function EffectiveOptions(a: Accessor, opts: seq<UpdateOption>): seq<UpdateOption>
  {
    if a.disableTimestampUpdates then opts else [UpdateTimestamps(a.transition, opts)]
  }

  /** The outcome of Accessor.Update. */
  function UpdateResult(a: Accessor, c: Condition, opts: seq<UpdateOption>, now: Time): Step
  {
    ApplyAll(a, c, EffectiveOptions(a, opts), now)
  }

  /** Applying `xs + ys` is applying `xs`, then `ys` when `xs` did not fail. */
  lemma {:induction false} ApplyAllAppend(a: Accessor, c: Condition, xs: seq<UpdateOption>, ys: seq<UpdateOption>, now: Time)
    ensures ApplyAll(a, c, xs + ys, now) ==
              (var s := ApplyAll(a, c, xs, now); if s.err.Some? then s else ApplyAll(a, s.cond, ys, now))
    decreases |ys|
  {
    if |ys| == 0 {
      assert xs + ys == xs;
    } else {
      var init := ys[..|ys| - 1];
      assert (xs + ys)[..|xs + ys| - 1] == xs + init;
      assert (xs + ys)[|xs + ys| - 1] == ys[|ys| - 1];
      ApplyAllAppend(a, c, xs, init, now);
    }
  }

  /** The relation every update keeps: same type, same declared fields, timestamps either kept or set to now. */
  predicate Keeps(c: Condition, d: Condition, now: Time)
  {
    d.condType == c.condType && ShapeOf(d) == ShapeOf(c)
    && (d.lastUpdateTime == c.lastUpdateTime || d.lastUpdateTime == Some(now))
    && (d.lastTransitionTime == c.lastTransitionTime || d.lastTransitionTime == Some(now))
  }

  lemma {:induction false} ApplyUpdateKeeps(a: Accessor, c: Condition, opt: UpdateOption, now: Time)
    ensures Keeps(c, ApplyUpdate(a, c, opt, now).cond, now)
    decreases opt, 1
  {
    match opt
    case UpdateTimestamps(tr, updates) =>
      ApplyAllKeeps(a, c, updates, now);
    case _ =>
  }

  lemma {:induction false} ApplyAllKeeps(a: Accessor, c: Condition, opts: seq<UpdateOption>, now: Time)
    ensures Keeps(c, ApplyAll(a, c, opts, now).cond, now)
    decreases opts, 0
  {
    if |opts| > 0 {
      var prefix := ApplyAll(a, c, opts[..|opts| - 1], now);
      ApplyAllKeeps(a, c, opts[..|opts| - 1], now);
      ApplyUpdateKeeps(a, prefix.cond, opts[|opts| - 1], now);
    }
  }

  /**
   * Update never changes the condition's type or the fields its type
   * declares, and a timestamp it changes is set to `now`.
   */
  lemma UpdateKeeps(a: Accessor, c: Condition, opts: seq<UpdateOption>, now: Time)
    ensures Keeps(c, UpdateResult(a, c, opts, now).cond, now)
  {
    ApplyAllKeeps(a, c, EffectiveOptions(a, opts), now);
  }

  /** An option that sets a field of its own (anything but UpdateTimestamps). */
  predicate Plain(opt: UpdateOption)
  {
    !opt.UpdateTimestamps?
  }

  /** Plain options never touch the type or the timestamps. */
  lemma {:induction false} PlainUpdatesKeepTimestamps(a: Accessor, c: Condition, opts: seq<UpdateOption>, now: Time)
    requires forall k :: 0 <= k < |opts| ==> Plain(opts[k])
    ensures var d := ApplyAll(a, c, opts, now).cond;
      d.condType == c.condType && d.lastUpdateTime == c.lastUpdateTime && d.lastTransitionTime == c.lastTransitionTime
  {
    if |opts| > 0 {
      PlainUpdatesKeepTimestamps(a, c, opts[..|opts| - 1], now);
    }
  }

  /**
   * Update with timestamps enabled and plain options: it fails exactly when
   * the options fail; on success LastUpdateTime becomes `now` whenever the
   * type declares it, and LastTransitionTime becomes `now` exactly when the
   * accessor's transition sees a change, otherwise it is kept.
   */
  lemma TimestampRule(a: Accessor, c: Condition, opts: seq<UpdateOption>, now: Time)
    requires !a.disableTimestampUpdates
    requires forall k :: 0 <= k < |opts| ==> Plain(opts[k])
    ensures var r := UpdateResult(a, c, opts, now);
      && r.err == ApplyAll(a, c, opts, now).err
      && (r.err.None? ==>
            && r.cond.lastUpdateTime == (if HasLastUpdateTime(c) then Some(now) else None)
            && r.cond.lastTransitionTime ==
                 (if HasLastTransitionTime(c) && Transitioned(a.transition, ComputeValues(a.transition, c), r.cond)
                  then Some(now) else c.lastTransitionTime))
  {
    PlainUpdatesKeepTimestamps(a, c, opts, now);
    var wrapped := UpdateTimestamps(a.transition, opts);
    assert EffectiveOptions(a, opts) == [wrapped];
    assert [wrapped][..0] == [];
    assert ApplyAll(a, c, [wrapped][..0], now) == Step(c, None);
    assert UpdateResult(a, c, opts, now) == ApplyUpdate(a, c, wrapped, now);
  }

  /**
   * With the default accessor, setting the status moves LastUpdateTime to
   * `now`, and LastTransitionTime to `now` exactly when the status changes.
   */
  lemma DefaultStatusUpdate(c: Condition, status: string, now: Time)
    requires HasLastUpdateTime(c) && HasLastTransitionTime(c)
    ensures var r := UpdateResult(DefaultAccessor, c, [UpdateStatus(status)], now);
      && r.err.None?
      && r.cond.status == status
      && r.cond.lastUpdateTime == Some(now)
      && r.cond.lastTransitionTime == (if status != c.status then Some(now) else c.lastTransitionTime)
  {
    var opts := [UpdateStatus(status)];
    assert opts[..0] == [];
    DefaultAccessorUsesDefaults();
    TimestampRule(DefaultAccessor, c, opts, now);
    var inner := ApplyAll(DefaultAccessor, c, opts, now);
    assert inner == Step(c.(status := status), None);
    var wrapped := UpdateTimestamps(DefaultAccessor.transition, opts);
    assert [wrapped][..0] == [];
    var r := UpdateResult(DefaultAccessor, c, opts, now);
    assert r == ApplyUpdate(DefaultAccessor, c, wrapped, now);
    assert r.cond.status == status;
    DefaultTransitionIsStatus(c, r.cond);
  }

  /**
   * UpdateFromCondition copies status, reason and message, copies the
   * observed generation only when the source declares one (failing when the
   * target does not), and leaves type and timestamps alone.
   */
  lemma UpdateFromConditionCopies(a: Accessor, c: Condition, src: Condition, now: Time)
    ensures var r := ApplyUpdate(a, c, UpdateFromCondition(src), now);
      && r.cond.status == src.status && r.cond.reason == src.reason && r.cond.message == src.message
      && r.cond.condType == c.condType
      && r.cond.lastUpdateTime == c.lastUpdateTime && r.cond.lastTransitionTime == c.lastTransitionTime
      && (r.err.Some? <==> HasObservedGeneration(src) && !HasObservedGeneration(c))
      && (r.err.Some? ==> r.err == Some(NoField(a.fields.observedGenerationField)))
      && (r.err.None? ==> r.cond.observedGeneration ==
                            (if HasObservedGeneration(src) then src.observedGeneration else c.observedGeneration))
  {
  }

  // ---------------------------------------------------------------------------
  // Conditions behind a pointer, and slices of conditions

  /** A pointer to a condition struct. */
  class ConditionRef {
    var cond: Condition

    constructor New(c: Condition)
      ensures cond == c
    {
      cond := c;
    }
  }

  /** ApplyUpdate through the pointer; UpdateTimestamps runs its updates in a loop between checkpoint and clock. */
  method Apply(a: Accessor, p: ConditionRef, opt: UpdateOption, now: Time) returns (err: Option<Error>)
    modifies p
    ensures Step(p.cond, err) == ApplyUpdate(a, old(p.cond), opt, now)
    decreases opt, 1
  {
    match opt {
      case UpdateTimestamps(tr, updates) =>
        var checkpoint := ComputeValues(tr, p.cond);
        err := ApplyEach(a, p, updates, now);
        if err.Some? {
          return;
        }
        if Transitioned(tr, checkpoint, p.cond) {
          p.cond := SetLastTransitionTimeIfExists(a, p.cond, now);
        }
        p.cond := SetLastUpdateTimeIfExists(a, p.cond, now);
      case _ =>
        var s := ApplyUpdate(a, p.cond, opt, now);
        p.cond, err := s.cond, s.err;
    }
  }

  /** The loop over options: each is applied in order and the first error stops the loop. */
  method ApplyEach(a: Accessor, p: ConditionRef, opts: seq<UpdateOption>, now: Time) returns (err: Option<Error>)
    modifies p
    ensures Step(p.cond, err) == ApplyAll(a, old(p.cond), opts, now)
    decreases opts, 0
  {
    var i := 0;
    while i < |opts|
      invariant 0 <= i <= |opts|
      invariant ApplyAll(a, old(p.cond), opts[..i], now) == Step(p.cond, None)
    {
      assert opts[..i + 1][..i] == opts[..i];
      err := Apply(a, p, opts[i], now);
      if err.Some? {
        assert opts[..i + 1] + opts[i + 1..] == opts;
        ApplyAllAppend(a, old(p.cond), opts[..i + 1], opts[i + 1..], now);
        return;
      }
      i := i + 1;
    }
    assert opts[..i] == opts;
    err := None;
  }

  /** Accessor.Update: the condition behind the pointer becomes UpdateResult's condition, failed or not. */
  method Update(a: Accessor, p: ConditionRef, opts: seq<UpdateOption>, now: Time) returns (err: Option<Error>)
    modifies p
    ensures Step(p.cond, err) == UpdateResult(a, old(p.cond), opts, now)
  {
    err := ApplyEach(a, p, EffectiveOptions(a, opts), now);
  }

  /** Position k holds the first condition of type typ. */
  predicate FirstOfType(items: seq<Condition>, typ: string, k: int)
  {
    0 <= k < |items| && items[k].condType == typ && forall j :: 0 <= j < k ==> items[j].condType != typ
  }

  /** FindSliceIndex (findTypeIndex): the first position of a condition of the type, -1 when there is none. */
  method FindSliceIndex(items: seq<Condition>, typ: string) returns (idx: int)
    ensures idx == -1 <==> forall k :: 0 <= k < |items| ==> items[k].condType != typ
    ensures idx != -1 ==> FirstOfType(items, typ, idx)
  {
    var i := 0;
    while i < |items|
      invariant 0 <= i <= |items|
      invariant forall j :: 0 <= j < i ==> items[j].condType != typ
    {
      if items[i].condType == typ {
        return i;
      }
      i := i + 1;
    }
    return -1;
  }

  /**
   * FindSlice: copies the first condition of the type into the target and
   * reports true; reports false and leaves the target alone when there is
   * none, and fails when the target's type differs from the elements'.
   */
  method FindSlice(items: seq<Condition>, elemShape: Shape, typ: string, into: ConditionRef)
    returns (ok: bool, err: Option<Error>)
    modifies into
    ensures ShapeOf(old(into.cond)) != elemShape ==> !ok && err == Some(IncompatibleType) && into.cond == old(into.cond)
    ensures ShapeOf(old(into.cond)) == elemShape ==>
      && err.None?
      && (ok <==> exists k :: 0 <= k < |items| && items[k].condType == typ)
      && (ok ==> exists k :: FirstOfType(items, typ, k) && into.cond == items[k])
      && (!ok ==> into.cond == old(into.cond))
  {
    if ShapeOf(into.cond) != elemShape {
      return false, Some(IncompatibleType);
    }
    var idx := FindSliceIndex(items, typ);
    if idx == -1 {
      return false, None;
    }
    into.cond := items[idx];
    ok, err := true, None;
  }

  /** FindSliceStatus: the status of the first condition of the type, Unknown when there is none. */
  method FindSliceStatus(items: seq<Condition>, typ: string) returns (status: string)
    ensures (forall k :: 0 <= k < |items| ==> items[k].condType != typ) ==> status == ConditionUnknown
    ensures forall k :: FirstOfType(items, typ, k) ==> status == items[k].status
  {
    var idx := FindSliceIndex(items, typ);
    if idx == -1 {
      return ConditionUnknown;
    }
    status := items[idx].status;
  }

  /** A fresh condition of the type, with LastTransitionTime set to now when the type declares it. */
  function NewCondition(a: Accessor, shape: Shape, typ: string, now: Time): (c: Condition)
    ensures ShapeOf(c) == shape && c.condType == typ
    ensures c.lastTransitionTime == (if shape.hasLastTransitionTime then Some(now) else None)
  {
    SetLastTransitionTimeIfExists(a, Zero(shape).(condType := typ), now)
  }

  /** A pointer to a slice of conditions of one type. */
  class ConditionSlice {
    const shape: Shape
    var items: seq<Condition>

    /** Every element is of the slice's element type. */
    predicate Valid()
      reads this
    {
      forall k :: 0 <= k < |items| ==> ShapeOf(items[k]) == shape
    }

    constructor New(shape: Shape, items: seq<Condition>)
      requires forall k :: 0 <= k < |items| ==> ShapeOf(items[k]) == shape
      ensures Valid() && this.shape == shape && this.items == items
    {
      this.shape := shape;
      this.items := items;
    }
  }

  /**
   * UpdateSlice: updates the first condition of the type in place, keeping
   * whatever a failing update changed; when there is none, updates a new
   * condition of the type and appends it only if the update succeeds.
   * A new condition takes its first LastTransitionTime from the clock
   * reading `created`, made before the update reads the clock as `now`.
   */
  method UpdateSlice(a: Accessor, s: ConditionSlice, typ: string, opts: seq<UpdateOption>, created: Time, now: Time)
    returns (err: Option<Error>)
    requires s.Valid()
    modifies s
    ensures s.Valid()
    ensures forall k :: FirstOfType(old(s.items), typ, k) ==>
      (var r := UpdateResult(a, old(s.items)[k], opts, now);
       s.items == old(s.items)[k := r.cond] && err == r.err)
    ensures (forall k :: 0 <= k < |old(s.items)| ==> old(s.items)[k].condType != typ) ==>
      (var r := UpdateResult(a, NewCondition(a, s.shape, typ, created), opts, now);
       err == r.err && s.items == (if r.err.None? then old(s.items) + [r.cond] else old(s.items)))
  {
    var idx := FindSliceIndex(s.items, typ);
    var start := if idx != -1 then s.items[idx] else NewCondition(a, s.shape, typ, created);
    var p := new ConditionRef.New(start);
    err := Update(a, p, opts, now);
    UpdateKeeps(a, start, opts, now);
    if idx != -1 {
      s.items := s.items[idx := p.cond];
    } else if err.None? {
      s.items := s.items + [p.cond];
    }
  }

  /** Updating an existing type keeps the slice's length; a new type adds exactly one condition, of that type. */
  method UpdateSliceLength(a: Accessor, s: ConditionSlice, typ: string, opts: seq<UpdateOption>, created: Time, now: Time)
    returns (err: Option<Error>)
    requires s.Valid()
    modifies s
    ensures (exists k :: 0 <= k < |old(s.items)| && old(s.items)[k].condType == typ) ==> |s.items| == |old(s.items)|
    ensures (forall k :: 0 <= k < |old(s.items)| ==> old(s.items)[k].condType != typ) ==>
      (|s.items| == |old(s.items)| + (if err.None? then 1 else 0)
       && (err.None? ==> s.items[|s.items| - 1].condType == typ))
  {
    ghost var before := s.items;
    err := UpdateSlice(a, s, typ, opts, created, now);
    if exists k :: 0 <= k < |before| && before[k].condType == typ {
      var k := FirstIndex(before, typ);
      assert FirstOfType(before, typ, k);
    } else {
      UpdateKeeps(a, NewCondition(a, s.shape, typ, created), opts, now);
    }
  }

  /** The first position of a type known to be present. */
  ghost function FirstIndex(items: seq<Condition>, typ: string): (k: int)
    requires exists k :: 0 <= k < |items| && items[k].condType == typ
    ensures FirstOfType(items, typ, k)
  {
    if items[0].condType == typ then 0
    else
      assert exists k :: 0 <= k < |items[1..]| && items[1..][k].condType == typ by {
        var k :| 0 <= k < |items| && items[k].condType == typ;
        assert items[1..][k - 1].condType == typ;
      }
      1 + FirstIndex(items[1..], typ)
  }
}
