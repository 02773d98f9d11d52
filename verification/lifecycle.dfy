/**
 The events around validation: initialisation of the fields (`_initField`),
 the value-change handler, the submit-button click, `resetForm` and
 `enableFieldValidators`.
 */
module Lifecycle {
  import opened Form
  import opened Aggregator

  /** A field as configured, before initialisation: `enabled` may be unset. */
  datatype FieldConfig = FieldConfig(name: string, kind: Kind, elements: seq<Element>, validators: seq<string>, enabled: Option<bool>)

  /** The configured validators that exist in the registry, in order. */
  function Known(vs: seq<string>, registry: set<string>): (r: seq<string>)
    ensures forall v :: v in r <==> v in vs && v in registry
    ensures |r| <= |vs|
  {
    if vs == [] then []
    else (if vs[0] in registry then [vs[0]] else []) + Known(vs[1..], registry)
  }

  lemma {:induction false} KnownNoDup(vs: seq<string>, registry: set<string>)
    requires NoDup(vs)
    ensures NoDup(Known(vs, registry))
  {
    if vs != [] {
      KnownNoDup(vs[1..], registry);
      assert vs[0] !in vs[1..];
      assert vs[0] !in Known(vs[1..], registry);
    }
  }

  /**
   `_initField`: a field without elements is dropped; unknown validators are
   dropped from its configuration; `enabled` defaults to true.
   */
  function InitField(c: FieldConfig, registry: set<string>): (r: Option<Field>)
    requires NoDup(c.validators)
    ensures r.None? <==> |c.elements| == 0
    ensures r.Some? ==> FieldOk(r.value)
    ensures r.Some? ==> r.value.elements == c.elements && r.value.kind == c.kind && r.value.name == c.name
    ensures r.Some? ==> forall v :: v in r.value.validators <==> v in c.validators && v in registry
    ensures r.Some? ==> (r.value.enabled <==> c.enabled != Some(false))
  {
    if |c.elements| == 0 then None
    else
      KnownNoDup(c.validators, registry);
      Some(Field(c.name, c.kind, c.elements, Known(c.validators, registry), if c.enabled.Some? then c.enabled.value else true))
  }

  /** The positions of the configured fields that have elements, in order. */
  function Kept(cs: seq<FieldConfig>): (ix: seq<nat>)
    ensures forall j :: 0 <= j < |ix| ==> ix[j] < |cs| && |cs[ix[j]].elements| > 0
    ensures forall j, l :: 0 <= j < l < |ix| ==> ix[j] < ix[l]
  {
    if cs == [] then []
    else
      var n := |cs| - 1;
      Kept(cs[..n]) + (if |cs[n].elements| > 0 then [n] else [])
  }

  /** The kept positions are exactly those of the fields with elements. */
  lemma {:induction false} KeptExactly(cs: seq<FieldConfig>)
    ensures forall i :: 0 <= i < |cs| ==> (i in Kept(cs) <==> |cs[i].elements| > 0)
  {
    if cs != [] {
      var n := |cs| - 1;
      KeptExactly(cs[..n]);
      assert forall i :: 0 <= i < n ==> cs[..n][i] == cs[i];
    }
  }

  /**
   The loop over the configured fields: each is initialised in turn, and the
   ones with elements are kept, in configuration order.
   */
  function InitFields(cs: seq<FieldConfig>, registry: set<string>): (r: seq<Field>)
    requires forall i :: 0 <= i < |cs| ==> NoDup(cs[i].validators)
    ensures FieldsOk(r)
    ensures |r| == |Kept(cs)| <= |cs|
    ensures forall j :: 0 <= j < |r| ==> r[j] == InitField(cs[Kept(cs)[j]], registry).value
  {
    if cs == [] then []
    else
      var n := |cs| - 1;
      var pre := cs[..n];
      assert forall i :: 0 <= i < n ==> pre[i] == cs[i];
      var rest := InitFields(pre, registry);
      var kp := Kept(pre);
      assert forall j :: 0 <= j < |rest| ==> rest[j] == InitField(cs[kp[j]], registry).value;
      if |cs[n].elements| > 0 then
        assert Kept(cs) == kp + [n];
        rest + [InitField(cs[n], registry).value]
      else
        assert Kept(cs) == kp;
        rest
  }

  /** Every configured field with elements is among the initialised ones. */
  lemma InitFieldsKeepsEvery(cs: seq<FieldConfig>, registry: set<string>, i: nat)
    requires forall i :: 0 <= i < |cs| ==> NoDup(cs[i].validators)
    requires i < |cs| && |cs[i].elements| > 0
    ensures InitField(cs[i], registry).value in InitFields(cs, registry)
  {
    var ix := Kept(cs);
    KeptExactly(cs);
    var j :| 0 <= j < |ix| && ix[j] == i;
    assert InitFields(cs, registry)[j] == InitField(cs[i], registry).value;
  }

  /** A status the plugin tracks: an element of a field, one of its validators. */
  predicate Tracked(st: State, k: Key) {
    k.field < |st.fields| && k.elem < |st.fields[k.field].elements| && k.validator in st.fields[k.field].validators
  }

  /** A status `updateStatus(field, s, null)` writes. */
  predicate Target(st: State, k: Key) {
    k.field < |st.fields| && k.elem < TargetCount(st.fields[k.field]) && k.validator in st.fields[k.field].validators
  }

  /**
   The plugin after initialisation: every element of every kept field is
   NOT_VALIDATED for each of its validators, and nothing is pending.
   */
  function Init(cs: seq<FieldConfig>, registry: set<string>, live: LiveMode): (r: State)
    requires forall i :: 0 <= i < |cs| ==> NoDup(cs[i].validators)
    ensures WellFormed(r)
    ensures r.fields == InitFields(cs, registry)
    ensures forall k: Key :: StatusOf(r, k) == (if Tracked(r, k) then Some(NotValidated) else None)
    ensures r.dfs == map[] && r.armed == map[]
    ensures r.invalidField == None && !r.submitButton && !r.submitIfValid && r.live == live
  {
    var fields := InitFields(cs, registry);
    var st := State(fields, k => None, map[], map[], 0, None, false, false, live, 0, []);
    st.(status := k => if Tracked(st, k) then Some(NotValidated) else None)
  }

  /**
   Right after initialisation the form is valid exactly when no status is
   looked at: every enabled field lacks validators or visited elements.
   */
  lemma InitValidity(cs: seq<FieldConfig>, registry: set<string>, live: LiveMode)
    requires forall i :: 0 <= i < |cs| ==> NoDup(cs[i].validators)
    ensures var r := Init(cs, registry, live);
      FormValid(r) <==> forall p :: !Checked(r, p)
  {
    var r := Init(cs, registry, live);
    forall p | Checked(r, p)
      ensures !Good(r, p)
    {
      assert Tracked(r, KeyAt(r, p));
    }
  }

  /**
   The value-change handler: `_submitIfValid` is cleared and the changed
   element's statuses (the whole field's, when it updates all) go back to
   NOT_VALIDATED.  Pending handles are left alone.
   */
  function ValueChange(st: State, fi: nat, ei: nat): (r: State)
    requires WellFormed(st) && fi < |st.fields| && ei < |st.fields[fi].elements|
    ensures WellFormed(r)
    ensures r == st.(status := r.status, submitIfValid := false)
    ensures UpdatesAll(st.fields[fi]) ==>
      forall k: Key :: StatusOf(r, k) == if Target(st, k) && k.field == fi then Some(NotValidated) else StatusOf(st, k)
    ensures !UpdatesAll(st.fields[fi]) ==>
      forall k: Key :: StatusOf(r, k) ==
        if k.field == fi && k.elem == ei && k.validator in st.fields[fi].validators then Some(NotValidated) else StatusOf(st, k)
  {
    var st1 := st.(submitIfValid := false);
    if UpdatesAll(st.fields[fi]) then UpdateStatus(st1, fi, NotValidated, None)
    else UpdateElementStatus(st1, fi, ei, NotValidated, None)
  }

  /** The element whose statuses a value change on `ei` resets first. */
  function ChangedTarget(f: Field, ei: nat): nat {
    if UpdatesAll(f) then 0 else ei
  }

  /**
   A value change on an element the form checks, of an enabled field with a
   validator, makes the form not valid until it is validated again.
   */
  lemma ValueChangeInvalidates(st: State, fi: nat, ei: nat)
    requires WellFormed(st) && fi < |st.fields| && ei < |st.fields[fi].elements|
    requires |st.fields[fi].validators| > 0
    requires Visited(st, fi, ChangedTarget(st.fields[fi], ei))
    ensures !FormValid(ValueChange(st, fi, ei))
  {
    var r := ValueChange(st, fi, ei);
    var p := Pos(fi, ChangedTarget(st.fields[fi], ei), 0);
    assert Checked(r, p);
    assert st.fields[fi].validators[0] in st.fields[fi].validators;
    assert !Good(r, p);
  }

  /** The submit-button click: remember the button, and that a submit waits. */
  function SubmitClick(st: State): (r: State)
    ensures r.submitButton && r.submitIfValid
    ensures r == st.(submitButton := true, submitIfValid := true)
  {
    st.(submitButton := true, submitIfValid := true)
  }

  /**
   The status part of the loop of `resetForm` from field `fi` on: each
   field's statuses are written NOT_VALIDATED through `updateStatus`.
   */
  function ResetFields(st: State, fi: nat): (r: State)
    requires WellFormed(st)
    decreases |st.fields| - fi
    ensures r == st.(status := r.status)
    ensures forall k: Key :: StatusOf(r, k) == if Target(st, k) && fi <= k.field then Some(NotValidated) else StatusOf(st, k)
  {
    if fi >= |st.fields| then st
    else ResetFields(UpdateStatus(st, fi, NotValidated, None), fi + 1)
  }

  /**
   `resetForm`: every tracked status NOT_VALIDATED (first element only for
   radio and checkbox groups), no handle stored, `$invalidField` and
   `$submitButton` cleared.  Handles are not rejected, so their callbacks may
   still run; `_submitIfValid` is left as it is.
   */
  function ResetForm(st: State): (r: State)
    requires WellFormed(st)
    ensures WellFormed(r)
    ensures r.fields == st.fields && r.armed == st.armed && r.nextHandle == st.nextHandle
    ensures r.submitIfValid == st.submitIfValid && r.live == st.live && r.submits == st.submits && r.calls == st.calls
    ensures forall k: Key :: StatusOf(r, k) == if Target(st, k) then Some(NotValidated) else StatusOf(st, k)
    ensures forall k: Key :: Tracked(st, k) ==> k !in r.dfs
    ensures forall k: Key :: k in r.dfs <==> k in st.dfs && !Tracked(st, k)
    ensures r.invalidField == None && !r.submitButton
  {
    var dfs := map k | k in st.dfs && !Tracked(st, k) :: st.dfs[k];
    ResetFields(st, 0).(dfs := dfs, invalidField := None, submitButton := false)
  }

  /**
   `enableFieldValidators`: the field's `enabled` flag is set and its
   statuses go back to NOT_VALIDATED.
   */
  function EnableFieldValidators(st: State, fi: nat, enabled: bool): (r: State)
    requires WellFormed(st) && fi < |st.fields|
    ensures WellFormed(r)
    ensures |r.fields| == |st.fields| && r.fields[fi] == st.fields[fi].(enabled := enabled)
    ensures forall i :: 0 <= i < |st.fields| && i != fi ==> r.fields[i] == st.fields[i]
    ensures r == st.(fields := r.fields, status := r.status)
    ensures forall k: Key :: StatusOf(r, k) == if Target(st, k) && k.field == fi then Some(NotValidated) else StatusOf(st, k)
  {
    var st1 := st.(fields := st.fields[fi := st.fields[fi].(enabled := enabled)]);
    UpdateStatus(st1, fi, NotValidated, None)
  }

  /** A disabled field does not count: the form is valid exactly when every
      other field's looked-at statuses are VALID. */
  lemma DisabledFieldIgnored(st: State, fi: nat)
    requires WellFormed(st) && fi < |st.fields|
    ensures var r := EnableFieldValidators(st, fi, false);
      FormValid(r) <==> forall p :: Checked(st, p) && p.field != fi ==> Good(st, p)
  {
    var r := EnableFieldValidators(st, fi, false);
    forall p
      ensures Checked(r, p) <==> Checked(st, p) && p.field != fi
      ensures Checked(r, p) ==> Good(r, p) == Good(st, p)
    {
    }
  }
}
