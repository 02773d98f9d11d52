/**
 Running validators: `validateFieldElement`, `validateField`, and the `done`
 callback of a pending handle.  A validator is an oracle: for an
 (element, validator) pair it answers with a boolean or with a handle, and may
 force another field's same-named binding to VALID while it runs.
 */
module Orchestrator {
  import opened Form
  import opened Aggregator

  /** What `validate` returns: a boolean, a pending handle, or a handle that
      was already resolved when it was returned (the `callback` validator). */
  datatype Answer = Immediate(ok: bool) | Deferred | DeferredDone(ok: bool)

  /** One validator call: its answer, and the field (if any) whose binding
      of the same validator it forced to VALID, as `identical` and
      `different` do through `updateStatus`. */
  datatype Outcome = Outcome(answer: Answer, forces: Option<nat>)

  function KeyOf(cb: Callback): Key {
    Key(cb.field, cb.elem, cb.validator)
  }

  predicate Settled(st: State, k: Key) {
    StatusOf(st, k) == Some(Valid) || StatusOf(st, k) == Some(Invalid)
  }

  /** The status store with `k` set to `s` (a direct `data()` write). */
  function Assign(m: Key -> Option<Status>, k: Key, s: Status): Key -> Option<Status> {
    k' => if k' == k then Some(s) else m(k')
  }

  function Verdict(ok: bool): Status {
    if ok then Valid else Invalid
  }

  /** Only statuses of validator `v` differ between `st` and `r`. */
  ghost predicate OnlyValidator(st: State, r: State, v: string) {
    forall k: Key :: k.validator != v ==> StatusOf(r, k) == StatusOf(st, k)
  }

  /** `reject()` on the handle stored for `k`: its callback will never run. */
  function Reject(st: State, k: Key): (r: State)
    ensures r == st.(armed := r.armed)
    ensures k in st.dfs ==> r.armed == st.armed - {st.dfs[k]}
    ensures k !in st.dfs ==> r.armed == st.armed
    ensures WellFormed(st) ==> WellFormed(r)
  {
    if k in st.dfs then st.(armed := st.armed - {st.dfs[k]}) else st
  }

  /** Validator `v` shows status `s` where a write for element `ei` lands:
      on every counted element of the field under `updateAll`, on `ei` otherwise. */
  predicate Written(st: State, fi: nat, ei: nat, upd: bool, v: string, s: Status)
    requires fi < |st.fields|
  {
    if upd then forall i :: 0 <= i < TargetCount(st.fields[fi]) ==> StatusOf(st, Key(fi, i, v)) == Some(s)
    else StatusOf(st, Key(fi, ei, v)) == Some(s)
  }

  /** The status write of a validator on an element: the whole field when the
      call updates all elements, the element alone otherwise. */
  function Write(st: State, fi: nat, ei: nat, upd: bool, v: string, s: Status): (r: State)
    requires fi < |st.fields| && ei < |st.fields[fi].elements|
    ensures r == st.(status := r.status)
    ensures Written(r, fi, ei, upd, v, s)
    ensures OnlyValidator(st, r, v)
    ensures forall k: Key :: k.field != fi ==> StatusOf(r, k) == StatusOf(st, k)
  {
    if upd then UpdateStatus(st, fi, s, Some(v)) else UpdateElementStatus(st, fi, ei, s, Some(v))
  }

  /** The cross-field side effect: `updateStatus(other, VALID, v)`.  The source
      throws for an unregistered field; the model leaves the state alone. */
  function Force(st: State, target: Option<nat>, v: string): (r: State)
    ensures r == st.(status := r.status)
    ensures OnlyValidator(st, r, v)
    ensures target.Some? && target.value < |st.fields| ==>
      forall i :: 0 <= i < TargetCount(st.fields[target.value]) ==> StatusOf(r, Key(target.value, i, v)) == Some(Valid)
  {
    if target.Some? && target.value < |st.fields| then UpdateStatus(st, target.value, Valid, Some(v)) else st
  }

  /**
   The `done` callback of handle `h` with result `ok`.  A handle that was
   rejected, or has already fired, never runs its callback.  Otherwise the
   stored handle is forgotten, the status becomes VALID or INVALID, and a true
   result submits the form when a submit is waiting and the form is valid.
   */
  function Settle(st: State, h: nat, ok: bool): (r: State)
    requires WellFormed(st)
    ensures WellFormed(r) && r.fields == st.fields && r.calls == st.calls && r.nextHandle == st.nextHandle
    ensures h !in st.armed ==> r == st
    ensures r.submitIfValid == st.submitIfValid && r.submitButton == st.submitButton
  {
    if h !in st.armed then st
    else
      var cb := st.armed[h];
      var st1 := st.(armed := st.armed - {h}, dfs := st.dfs - {KeyOf(cb)});
      var st2 := Write(st1, cb.field, cb.elem, cb.updateAll, cb.validator, Verdict(ok));
      if ok && st2.submitIfValid then Submit(st2) else st2
  }

  /** What a handle that is still armed does when it settles. */
  lemma SettleEffect(st: State, h: nat, ok: bool)
    requires WellFormed(st) && h in st.armed
    ensures var r := Settle(st, h, ok); var cb := st.armed[h];
      && r.armed == st.armed - {h}
      && r.dfs == st.dfs - {KeyOf(cb)}
      && OnlyValidator(st, r, cb.validator)
      && (cb.updateAll ==>
            forall i :: 0 <= i < TargetCount(st.fields[cb.field]) ==>
              StatusOf(r, Key(cb.field, i, cb.validator)) == Some(Verdict(ok)))
      && (!cb.updateAll ==> StatusOf(r, KeyOf(cb)) == Some(Verdict(ok)))
      && r.submits == st.submits + (if ok && st.submitIfValid && FormValid(r) then 1 else 0)
  {
    var cb := st.armed[h];
    var st1 := st.(armed := st.armed - {h}, dfs := st.dfs - {KeyOf(cb)});
    var st2 := Write(st1, cb.field, cb.elem, cb.updateAll, cb.validator, Verdict(ok));
    if ok && st2.submitIfValid {
      var r := Submit(st2);
      FormValidFrame(r, st2);
      assert Settle(st, h, ok) == r;
    } else {
      assert Settle(st, h, ok) == st2;
    }
  }

  /** The pending-handle branch: VALIDATING everywhere the call writes, and a
      fresh handle stored for the pair with its callback armed. */
  function Start(st: State, fi: nat, ei: nat, upd: bool, v: string): (r: State)
    requires WellFormed(st) && fi < |st.fields| && ei < |st.fields[fi].elements|
    ensures WellFormed(r) && r.fields == st.fields && r.calls == st.calls
    ensures r.dfs == st.dfs[Key(fi, ei, v) := st.nextHandle]
    ensures r.armed == st.armed[st.nextHandle := Callback(fi, ei, v, upd)]
    ensures r.nextHandle == st.nextHandle + 1
    ensures OnlyValidator(st, r, v)
    ensures Written(r, fi, ei, upd, v, Validating)
  {
    var st1 := Write(st, fi, ei, upd, v, Validating);
    var h := st1.nextHandle;
    st1.(dfs := st1.dfs[Key(fi, ei, v) := h], armed := st1.armed[h := Callback(fi, ei, v, upd)], nextHandle := h + 1)
  }

  /** A handle returned already resolved: created, then its callback runs at
      once, so it is forgotten again and the verdict written. */
  function StartSettled(st: State, fi: nat, ei: nat, upd: bool, v: string, ok: bool): (r: State)
    requires WellFormed(st) && fi < |st.fields| && ei < |st.fields[fi].elements|
    ensures WellFormed(r) && r.fields == st.fields && r.calls == st.calls
    ensures OnlyValidator(st, r, v)
    ensures r.dfs == st.dfs - {Key(fi, ei, v)}
    ensures r.armed == st.armed - {st.nextHandle}
    ensures r.nextHandle == st.nextHandle + 1
    ensures Written(r, fi, ei, upd, v, Verdict(ok))
  {
    var st1 := Start(st, fi, ei, upd, v);
    assert st1.armed[st.nextHandle] == Callback(fi, ei, v, upd);
    SettleEffect(st1, st.nextHandle, ok);
    Settle(st1, st.nextHandle, ok)
  }

  /** Acting on the validator's answer (lines 535-554). */
  function Apply(st: State, fi: nat, ei: nat, upd: bool, v: string, a: Answer): (r: State)
    requires WellFormed(st) && fi < |st.fields| && ei < |st.fields[fi].elements|
    ensures WellFormed(r) && r.fields == st.fields && r.calls == st.calls
    ensures OnlyValidator(st, r, v)
    ensures forall k: Key :: k != Key(fi, ei, v) ==> (k in r.dfs <==> k in st.dfs) && (k in r.dfs ==> r.dfs[k] == st.dfs[k])
    ensures r.armed.Keys <= st.armed.Keys + {st.nextHandle}
    ensures !a.Deferred? ==> Written(r, fi, ei, upd, v, Verdict(a.ok))
    ensures a.Deferred? ==> Written(r, fi, ei, upd, v, Validating)
    ensures a.Deferred? ==>
      && r.dfs == st.dfs[Key(fi, ei, v) := st.nextHandle]
      && r.armed == st.armed[st.nextHandle := Callback(fi, ei, v, upd)]
  {
    match a
    case Immediate(ok) => Write(st, fi, ei, upd, v, Verdict(ok))
    case Deferred => Start(st, fi, ei, upd, v)
    case DeferredDone(ok) => StartSettled(st, fi, ei, upd, v, ok)
  }

  /**
   One iteration of the validator loop of `validateFieldElement`: reject the
   stored handle, skip a validator already VALID or INVALID, otherwise mark
   it VALIDATING, invoke it and act on its answer.
   */
  function Check(st: State, fi: nat, ei: nat, upd: bool, oracle: Key -> Outcome, v: string): (r: State)
    requires WellFormed(st) && fi < |st.fields| && ei < |st.fields[fi].elements|
    ensures WellFormed(r) && r.fields == st.fields
    ensures OnlyValidator(st, r, v)
    ensures forall k: Key :: k != Key(fi, ei, v) ==> (k in r.dfs <==> k in st.dfs) && (k in r.dfs ==> r.dfs[k] == st.dfs[k])
    ensures Key(fi, ei, v) in st.dfs ==> st.dfs[Key(fi, ei, v)] !in r.armed || st.dfs[Key(fi, ei, v)] == st.nextHandle
    ensures Settled(st, Key(fi, ei, v)) ==> r == Reject(st, Key(fi, ei, v))
    ensures !Settled(st, Key(fi, ei, v)) ==> r.calls == st.calls + [Key(fi, ei, v)]
    ensures var a := oracle(Key(fi, ei, v)).answer;
      !Settled(st, Key(fi, ei, v)) ==> Written(r, fi, ei, upd, v, if a.Deferred? then Validating else Verdict(a.ok))
  {
    var k := Key(fi, ei, v);
    var st1 := Reject(st, k);
    if Settled(st1, k) then st1 else Invoke(st1, fi, ei, upd, oracle, v)
  }

  /** A validator not yet VALID or INVALID: marked VALIDATING on the element,
      invoked once, and its answer acted on. */
  function Invoke(st: State, fi: nat, ei: nat, upd: bool, oracle: Key -> Outcome, v: string): (r: State)
    requires WellFormed(st) && fi < |st.fields| && ei < |st.fields[fi].elements|
    ensures WellFormed(r) && r.fields == st.fields
    ensures OnlyValidator(st, r, v)
    ensures forall k: Key :: k != Key(fi, ei, v) ==> (k in r.dfs <==> k in st.dfs) && (k in r.dfs ==> r.dfs[k] == st.dfs[k])
    ensures r.armed.Keys <= st.armed.Keys + {st.nextHandle}
    ensures r.calls == st.calls + [Key(fi, ei, v)]
    ensures var a := oracle(Key(fi, ei, v)).answer;
      Written(r, fi, ei, upd, v, if a.Deferred? then Validating else Verdict(a.ok))
  {
    var k := Key(fi, ei, v);
    var st2 := st.(status := Assign(st.status, k, Validating), calls := st.calls + [k]);
    var out := oracle(k);
    var st3 := Force(st2, out.forces, v);
    assert st3.fields == st.fields;
    Apply(st3, fi, ei, upd, v, out.answer)
  }

  /** The validators `vs[j..]` not yet VALID or INVALID on the element, in
      order: exactly the ones a pass over them invokes. */
  function Pending(st: State, fi: nat, ei: nat, vs: seq<string>, j: nat): seq<Key>
    decreases |vs| - j
  {
    if j >= |vs| then []
    else (if Settled(st, Key(fi, ei, vs[j])) then [] else [Key(fi, ei, vs[j])]) + Pending(st, fi, ei, vs, j + 1)
  }

  lemma {:induction false} PendingFrame(a: State, b: State, fi: nat, ei: nat, vs: seq<string>, j: nat)
    requires forall i :: j <= i < |vs| ==> StatusOf(a, Key(fi, ei, vs[i])) == StatusOf(b, Key(fi, ei, vs[i]))
    decreases |vs| - j
    ensures Pending(a, fi, ei, vs, j) == Pending(b, fi, ei, vs, j)
  {
    if j < |vs| {
      PendingFrame(a, b, fi, ei, vs, j + 1);
    }
  }

  /**
   The loop of `validateFieldElement` from the validator at position `j` on:
   the validators not yet VALID or INVALID are invoked, in order.
   */
  function ValidateFrom(st: State, fi: nat, ei: nat, upd: bool, oracle: Key -> Outcome, j: nat): (r: State)
    requires WellFormed(st) && fi < |st.fields| && ei < |st.fields[fi].elements|
    requires j <= |st.fields[fi].validators|
    decreases |st.fields[fi].validators| - j
    ensures WellFormed(r) && r.fields == st.fields
    ensures r.calls == st.calls + Pending(st, fi, ei, st.fields[fi].validators, j)
  {
    var vs := st.fields[fi].validators;
    if j == |vs| then st
    else
      var st1 := Check(st, fi, ei, upd, oracle, vs[j]);
      PendingFrame(st1, st, fi, ei, vs, j + 1);
      var r := ValidateFrom(st1, fi, ei, upd, oracle, j + 1);
      var head := if Settled(st, Key(fi, ei, vs[j])) then [] else [Key(fi, ei, vs[j])];
      assert st1.calls == st.calls + head;
      ConcatAssoc(st.calls, head, Pending(st, fi, ei, vs, j + 1));
      r
  }

  /** A status whose validator is not among those the pass still has to go over is left alone. */
  lemma {:induction false} ValidateFromKeepsKey(st: State, fi: nat, ei: nat, upd: bool, oracle: Key -> Outcome, j: nat, k: Key)
    requires WellFormed(st) && fi < |st.fields| && ei < |st.fields[fi].elements|
    requires j <= |st.fields[fi].validators|
    requires k.validator !in st.fields[fi].validators[j..]
    decreases |st.fields[fi].validators| - j
    ensures StatusOf(ValidateFrom(st, fi, ei, upd, oracle, j), k) == StatusOf(st, k)
  {
    var vs := st.fields[fi].validators;
    if j < |vs| {
      var st1 := Check(st, fi, ei, upd, oracle, vs[j]);
      assert k.validator != vs[j] by {
        assert vs[j] == vs[j..][0];
      }
      assert StatusOf(st1, k) == StatusOf(st, k);
      assert vs[j + 1..] == vs[j..][1..];
      ValidateFromKeepsKey(st1, fi, ei, upd, oracle, j + 1, k);
    }
  }

  /** Only statuses of the field's validators change. */
  lemma ValidateFromOthers(st: State, fi: nat, ei: nat, upd: bool, oracle: Key -> Outcome)
    requires WellFormed(st) && fi < |st.fields| && ei < |st.fields[fi].elements|
    ensures forall k: Key :: k.validator !in st.fields[fi].validators ==>
      StatusOf(ValidateFrom(st, fi, ei, upd, oracle, 0), k) == StatusOf(st, k)
  {
    forall k: Key | k.validator !in st.fields[fi].validators
      ensures StatusOf(ValidateFrom(st, fi, ei, upd, oracle, 0), k) == StatusOf(st, k)
    {
      assert st.fields[fi].validators[0..] == st.fields[fi].validators;
      ValidateFromKeepsKey(st, fi, ei, upd, oracle, 0, k);
    }
  }

  lemma ConcatAssoc<T>(a: seq<T>, b: seq<T>, c: seq<T>)
    ensures (a + b) + c == a + (b + c)
  {
  }

  /** The validator at the head of the pass, already VALID or INVALID, keeps its status. */
  lemma KeepsSettledHere(st: State, fi: nat, ei: nat, upd: bool, oracle: Key -> Outcome, j: nat)
    requires WellFormed(st) && fi < |st.fields| && ei < |st.fields[fi].elements|
    requires j < |st.fields[fi].validators|
    requires Settled(st, Key(fi, ei, st.fields[fi].validators[j]))
    ensures StatusOf(ValidateFrom(st, fi, ei, upd, oracle, j), Key(fi, ei, st.fields[fi].validators[j]))
      == StatusOf(st, Key(fi, ei, st.fields[fi].validators[j]))
  {
    var vs := st.fields[fi].validators;
    var k := Key(fi, ei, vs[j]);
    var st1 := Check(st, fi, ei, upd, oracle, vs[j]);
    assert StatusOf(st1, k) == StatusOf(st, k) by {
      assert st1 == Reject(st, k);
    }
    assert k.validator !in vs[j + 1..] by {
      assert FieldOk(st.fields[fi]);
    }
    ValidateFromKeepsKey(st1, fi, ei, upd, oracle, j + 1, k);
  }

  /** A validator already VALID or INVALID on the element keeps its status. */
  lemma {:induction false} ValidateFromKeepsSettled(st: State, fi: nat, ei: nat, upd: bool, oracle: Key -> Outcome, j: nat, i: nat)
    requires WellFormed(st) && fi < |st.fields| && ei < |st.fields[fi].elements|
    requires j <= i < |st.fields[fi].validators|
    requires Settled(st, Key(fi, ei, st.fields[fi].validators[i]))
    decreases |st.fields[fi].validators| - j
    ensures StatusOf(ValidateFrom(st, fi, ei, upd, oracle, j), Key(fi, ei, st.fields[fi].validators[i]))
      == StatusOf(st, Key(fi, ei, st.fields[fi].validators[i]))
  {
    var vs := st.fields[fi].validators;
    var st1 := Check(st, fi, ei, upd, oracle, vs[j]);
    assert FieldOk(st.fields[fi]);
    if j < i {
      var k := Key(fi, ei, vs[i]);
      assert vs[i] != vs[j];
      assert StatusOf(st1, k) == StatusOf(st, k);
      assert ValidateFrom(st, fi, ei, upd, oracle, j) == ValidateFrom(st1, fi, ei, upd, oracle, j + 1);
      ValidateFromKeepsSettled(st1, fi, ei, upd, oracle, j + 1, i);
    } else {
      KeepsSettledHere(st, fi, ei, upd, oracle, j);
    }
  }

  /**
   A validator that was not yet VALID or INVALID and answers with a boolean
   ends the element's pass VALID or INVALID accordingly.
   */
  lemma {:induction false} ValidateFromLands(st: State, fi: nat, ei: nat, upd: bool, oracle: Key -> Outcome, j: nat, i: nat)
    requires WellFormed(st) && fi < |st.fields| && ei < |st.fields[fi].elements|
    requires upd ==> ei < TargetCount(st.fields[fi])
    requires j <= i < |st.fields[fi].validators|
    requires !Settled(st, Key(fi, ei, st.fields[fi].validators[i]))
    requires oracle(Key(fi, ei, st.fields[fi].validators[i])).answer.Immediate?
    decreases |st.fields[fi].validators| - j
    ensures StatusOf(ValidateFrom(st, fi, ei, upd, oracle, j), Key(fi, ei, st.fields[fi].validators[i]))
      == Some(Verdict(oracle(Key(fi, ei, st.fields[fi].validators[i])).answer.ok))
  {
    var vs := st.fields[fi].validators;
    var st1 := Check(st, fi, ei, upd, oracle, vs[j]);
    assert FieldOk(st.fields[fi]);
    if j < i {
      var k := Key(fi, ei, vs[i]);
      assert vs[i] != vs[j];
      assert StatusOf(st1, k) == StatusOf(st, k);
      assert ValidateFrom(st, fi, ei, upd, oracle, j) == ValidateFrom(st1, fi, ei, upd, oracle, j + 1);
      ValidateFromLands(st1, fi, ei, upd, oracle, j + 1, i);
    } else {
      var k := Key(fi, ei, vs[i]);
      assert Written(st1, fi, ei, upd, vs[i], Verdict(oracle(k).answer.ok));
      assert StatusOf(st1, k) == Some(Verdict(oracle(k).answer.ok));
      assert vs[i] !in vs[j + 1..];
      ValidateFromKeepsKey(st1, fi, ei, upd, oracle, j + 1, k);
    }
  }

  /**
   `validateFieldElement`: nothing happens for a disabled field or an
   excluded element; otherwise every configured validator is passed over in
   order.
   */
  function ValidateFieldElement(st: State, fi: nat, ei: nat, upd: bool, oracle: Key -> Outcome): (r: State)
    requires WellFormed(st) && fi < |st.fields| && ei < |st.fields[fi].elements|
    ensures WellFormed(r) && r.fields == st.fields
    ensures !st.fields[fi].enabled || st.fields[fi].elements[ei].excluded ==> r == st
    ensures st.fields[fi].enabled && !st.fields[fi].elements[ei].excluded ==>
      r.calls == st.calls + Pending(st, fi, ei, st.fields[fi].validators, 0)
    ensures forall k: Key :: k.validator !in st.fields[fi].validators ==> StatusOf(r, k) == StatusOf(st, k)
  {
    if !st.fields[fi].enabled || st.fields[fi].elements[ei].excluded then st
    else
      ValidateFromOthers(st, fi, ei, upd, oracle);
      ValidateFrom(st, fi, ei, upd, oracle, 0)
  }

  /** The loop of `validateField` over elements `i..n`. */
  function ValidateElements(st: State, fi: nat, i: nat, oracle: Key -> Outcome): (r: State)
    requires WellFormed(st) && fi < |st.fields|
    decreases TargetCount(st.fields[fi]) - i
    ensures WellFormed(r) && r.fields == st.fields
    ensures forall k: Key :: k.validator !in st.fields[fi].validators ==> StatusOf(r, k) == StatusOf(st, k)
  {
    if i >= TargetCount(st.fields[fi]) then st
    else
      assert FieldOk(st.fields[fi]);
      var st1 := ValidateFieldElement(st, fi, i, TargetCount(st.fields[fi]) == 1, oracle);
      ValidateElements(st1, fi, i + 1, oracle)
  }

  /** `validateField`: the first element of a radio/checkbox group, every
      element of any other field; a one-element pass updates the whole field. */
  function ValidateField(st: State, fi: nat, oracle: Key -> Outcome): (r: State)
    requires WellFormed(st) && fi < |st.fields|
    ensures WellFormed(r) && r.fields == st.fields
    ensures forall k: Key :: k.validator !in st.fields[fi].validators ==> StatusOf(r, k) == StatusOf(st, k)
    ensures !st.fields[fi].enabled ==> r == st
  {
    if !st.fields[fi].enabled then
      ValidateFieldElementsDisabled(st, fi, 0, oracle);
      st
    else ValidateElements(st, fi, 0, oracle)
  }

  lemma {:induction false} ValidateFieldElementsDisabled(st: State, fi: nat, i: nat, oracle: Key -> Outcome)
    requires WellFormed(st) && fi < |st.fields| && !st.fields[fi].enabled
    decreases TargetCount(st.fields[fi]) - i
    ensures ValidateElements(st, fi, i, oracle) == st
  {
    if i < TargetCount(st.fields[fi]) {
      assert FieldOk(st.fields[fi]);
      ValidateFieldElementsDisabled(st, fi, i + 1, oracle);
    }
  }

  /** The loop of `validate` over the fields `fi..`. */
  function ValidateFields(st: State, fi: nat, oracle: Key -> Outcome): (r: State)
    requires WellFormed(st)
    decreases |st.fields| - fi
    ensures WellFormed(r) && r.fields == st.fields
  {
    if fi >= |st.fields| then st
    else ValidateFields(ValidateField(st, fi, oracle), fi + 1, oracle)
  }

  /**
   `validate` (the form's submit event): every field is validated in
   registration order; when a submit button was clicked the submit decision
   follows at once, on the statuses the synchronous answers left.
   */
  function Validate(st: State, oracle: Key -> Outcome): (r: State)
    requires WellFormed(st)
    ensures WellFormed(r) && r.fields == st.fields
    ensures r.submits == ValidateFields(st, 0, oracle).submits + (if st.submitButton && FormValid(r) then 1 else 0)
  {
    var st1 := ValidateFields(st, 0, oracle);
    if st.submitButton then
      var r := Submit(st1);
      FormValidFrame(r, st1);
      r
    else st1
  }

  /**
   A live trigger event on element `ei`: with live validation enabled, the
   whole field is validated when a value change updates all of it, the element
   alone otherwise.
   */
  function LiveTrigger(st: State, fi: nat, ei: nat, oracle: Key -> Outcome): (r: State)
    requires WellFormed(st) && fi < |st.fields| && ei < |st.fields[fi].elements|
    ensures WellFormed(r) && r.fields == st.fields
    ensures st.live != LiveEnabled ==> r == st
    ensures st.live == LiveEnabled && !UpdatesAll(st.fields[fi]) ==> r == ValidateFieldElement(st, fi, ei, false, oracle)
    ensures st.live == LiveEnabled && UpdatesAll(st.fields[fi]) ==> r == ValidateField(st, fi, oracle)
  {
    if st.live != LiveEnabled then st
    else if UpdatesAll(st.fields[fi]) then ValidateField(st, fi, oracle)
    else ValidateFieldElement(st, fi, ei, false, oracle)
  }
}
