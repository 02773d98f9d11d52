/**
 The data the validator plugin keeps about a form: the registered fields in
 registration order, the per-(element, validator) status store, the stored
 pending handles, and the form-wide flags.  Statuses are written only through
 `UpdateElementStatus` and `UpdateStatus`, as in the source.
 */
module Form {

  datatype Option<+T> = None | Some(value: T)

  /** The four statuses a validator can have on an element. */
  datatype Status = NotValidated | Validating | Valid | Invalid

  /** The `type` attribute of a field's first element, as far as grouping cares. */
  datatype Kind = Radio | Checkbox | Other

  /** One concrete input element; `excluded` is the outcome of the form's
      `excluded` filters for it, which the DOM decides. */
  datatype Element = Element(excluded: bool)

  /** A registered field: its elements, the names of its validators in
      configuration order, and whether its validators are enabled. */
  datatype Field = Field(name: string, kind: Kind, elements: seq<Element>, validators: seq<string>, enabled: bool)

  /** The (element, validator) pair a status or a pending handle belongs to;
      `field` and `elem` index `State.fields` and the field's elements. */
  datatype Key = Key(field: nat, elem: nat, validator: string)

  /** An element, as recorded in `$invalidField`. */
  datatype ElemRef = ElemRef(field: nat, elem: nat)

  /** The closure a pending handle's `done` callback captured. */
  datatype Callback = Callback(field: nat, elem: nat, validator: string, updateAll: bool)

  datatype LiveMode = LiveEnabled | LiveDisabled | LiveSubmitted

  /**
   The plugin instance.
   - `status`: the `bv.result.<validator>` data of every element.
   - `dfs`: the `bv.dfs.<validator>` data, the stored pending handle.
   - `armed`: handles whose `done` callback is registered and will still run:
     neither rejected nor already fired.  A rejected handle never settles.
   - `nextHandle`: handles are numbered in creation order, so each is fresh.
   - `invalidField`, `submitButton`, `submitIfValid`: `$invalidField`,
     `$submitButton != null` and `_submitIfValid`.
   - `submits`: how many times the form was handed to its submit action.
   - `calls`: every validator invocation, in order (an observation of the model).
   */
  datatype State = State(
    fields: seq<Field>,
    status: Key -> Option<Status>,
    dfs: map<Key, nat>,
    armed: map<nat, Callback>,
    nextHandle: nat,
    invalidField: Option<ElemRef>,
    submitButton: bool,
    submitIfValid: bool,
    live: LiveMode,
    submits: nat,
    calls: seq<Key>)

  predicate NoDup<T(==)>(s: seq<T>) {
    forall i, j :: 0 <= i < j < |s| ==> s[i] != s[j]
  }

  /** Radio buttons and checkboxes are driven through their first element. */
  predicate Grouped(f: Field) {
    f.kind == Radio || f.kind == Checkbox
  }

  /** How many elements `validateField`, `updateStatus` and `isValid` visit. */
  function TargetCount(f: Field): nat {
    if Grouped(f) then 1 else |f.elements|
  }

  /** Whether a value change on one element resets the whole field. */
  predicate UpdatesAll(f: Field) {
    |f.elements| == 1 || Grouped(f)
  }

  /** Fields surviving initialisation have at least one element, and a
      field's validators are the keys of an object, hence distinct. */
  predicate FieldOk(f: Field) {
    |f.elements| >= 1 && NoDup(f.validators)
  }

  predicate FieldsOk(fields: seq<Field>) {
    forall fi :: 0 <= fi < |fields| ==> FieldOk(fields[fi])
  }

  /** A pending callback names an existing element of an existing field. */
  predicate CallbackOk(fields: seq<Field>, cb: Callback) {
    cb.field < |fields| && cb.elem < |fields[cb.field].elements|
  }

  predicate ArmedOk(fields: seq<Field>, armed: map<nat, Callback>) {
    forall h :: h in armed ==> CallbackOk(fields, armed[h])
  }

  predicate WellFormed(st: State) {
    FieldsOk(st.fields) && ArmedOk(st.fields, st.armed)
  }

  /** The status stored for `k`; `None` where nothing was ever stored. */
  function StatusOf(st: State, k: Key): Option<Status> {
    st.status(k)
  }

  /** The validator names a write addresses: one name, or all of the field's. */
  function Names(st: State, fi: nat, name: Option<string>): seq<string>
    requires fi < |st.fields|
  {
    if name.Some? then [name.value] else st.fields[fi].validators
  }

  /** The keys a write addresses: elements `lo..hi` of field `fi`, for the named validators. */
  predicate Targets(st: State, fi: nat, lo: nat, hi: nat, name: Option<string>, k: Key)
    requires fi < |st.fields|
  {
    k.field == fi && lo <= k.elem < hi && k.validator in Names(st, fi, name)
  }

  function WriteAll(st: State, fi: nat, lo: nat, hi: nat, name: Option<string>, s: Status): Key -> Option<Status>
    requires fi < |st.fields|
  {
    k => if Targets(st, fi, lo, hi, name, k) then Some(s) else st.status(k)
  }

  /**
   `updateElementStatus`, status part: with a validator name, that validator's
   status on the element; without one, every configured validator's status.
   */
  function UpdateElementStatus(st: State, fi: nat, ei: nat, s: Status, name: Option<string>): (r: State)
    requires fi < |st.fields| && ei < |st.fields[fi].elements|
    ensures r == st.(status := r.status)
    ensures forall v :: v in Names(st, fi, name) ==> StatusOf(r, Key(fi, ei, v)) == Some(s)
    ensures forall k: Key :: !(k.field == fi && k.elem == ei && k.validator in Names(st, fi, name)) ==>
      StatusOf(r, k) == StatusOf(st, k)
  {
    assert forall v :: v in Names(st, fi, name) ==> Targets(st, fi, ei, ei + 1, name, Key(fi, ei, v));
    st.(status := WriteAll(st, fi, ei, ei + 1, name, s))
  }

  /**
   `updateStatus`: the element write applied to the first element of a
   radio/checkbox group, or to every element of any other field.
   */
  function UpdateStatus(st: State, fi: nat, s: Status, name: Option<string>): (r: State)
    requires fi < |st.fields|
    ensures r == st.(status := r.status)
    ensures forall i, v :: 0 <= i < TargetCount(st.fields[fi]) && v in Names(st, fi, name) ==>
      StatusOf(r, Key(fi, i, v)) == Some(s)
    ensures forall k: Key :: !(k.field == fi && k.elem < TargetCount(st.fields[fi]) && k.validator in Names(st, fi, name)) ==>
      StatusOf(r, k) == StatusOf(st, k)
  {
    assert forall i, v :: 0 <= i < TargetCount(st.fields[fi]) && v in Names(st, fi, name) ==>
      Targets(st, fi, 0, TargetCount(st.fields[fi]), name, Key(fi, i, v));
    st.(status := WriteAll(st, fi, 0, TargetCount(st.fields[fi]), name, s))
  }
}
