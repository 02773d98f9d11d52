/**
 The pending-handle discipline.  Before a validator runs on an element, the
 handle stored for the pair is rejected, so its callback never runs; the new
 handle takes its place.  Every operation except `resetForm` keeps "each live
 callback belongs to the handle stored for its pair", hence at most one live
 callback per pair.  `resetForm` forgets stored handles without rejecting
 them, and the concrete runs below show what follows from that.
 */
module Handles {
  import opened Form
  import opened Aggregator
  import opened Orchestrator
  import opened Lifecycle

  /** The handle table of a state: the stored handles, the live callbacks, and
      the next fresh handle. */
  ghost predicate Table(dfs: map<Key, nat>, armed: map<nat, Callback>, next: nat) {
    && (forall h :: h in armed ==> KeyOf(armed[h]) in dfs && dfs[KeyOf(armed[h])] == h)
    && (forall k :: k in dfs ==> dfs[k] < next)
    && (forall k1, k2 :: k1 in dfs && k2 in dfs && k1 != k2 ==> dfs[k1] != dfs[k2])
  }

  ghost predicate HandlesOk(st: State) {
    Table(st.dfs, st.armed, st.nextHandle)
  }

  /** At most one live callback per (element, validator) pair. */
  lemma OneLiveHandlePerPair(st: State)
    requires HandlesOk(st)
    ensures forall h1, h2 :: h1 in st.armed && h2 in st.armed && KeyOf(st.armed[h1]) == KeyOf(st.armed[h2]) ==> h1 == h2
  {
  }

  lemma InitHandles(cs: seq<FieldConfig>, registry: set<string>, live: LiveMode)
    requires forall i :: 0 <= i < |cs| ==> NoDup(cs[i].validators)
    ensures HandlesOk(Init(cs, registry, live))
  {
  }

  lemma StartHandles(st: State, fi: nat, ei: nat, upd: bool, v: string)
    requires WellFormed(st) && fi < |st.fields| && ei < |st.fields[fi].elements|
    requires HandlesOk(st)
    requires Key(fi, ei, v) in st.dfs ==> st.dfs[Key(fi, ei, v)] !in st.armed
    ensures HandlesOk(Start(st, fi, ei, upd, v))
  {
    var k := Key(fi, ei, v);
    var r := Start(st, fi, ei, upd, v);
    forall h | h in r.armed
      ensures KeyOf(r.armed[h]) in r.dfs && r.dfs[KeyOf(r.armed[h])] == h
    {
      if h != st.nextHandle {
        assert h in st.armed;
        assert st.dfs[KeyOf(st.armed[h])] == h;
        assert KeyOf(st.armed[h]) != k;
      }
    }
  }

  lemma SettleHandles(st: State, h: nat, ok: bool)
    requires WellFormed(st) && HandlesOk(st)
    ensures HandlesOk(Settle(st, h, ok))
  {
    if h in st.armed {
      SettleEffect(st, h, ok);
      var r := Settle(st, h, ok);
      var key := KeyOf(st.armed[h]);
      forall h' | h' in r.armed
        ensures KeyOf(r.armed[h']) in r.dfs && r.dfs[KeyOf(r.armed[h'])] == h'
      {
        assert st.dfs[KeyOf(st.armed[h'])] == h' != h == st.dfs[key];
      }
    }
  }

  lemma RejectHandles(st: State, k: Key)
    requires WellFormed(st) && HandlesOk(st)
    ensures HandlesOk(Reject(st, k))
    ensures k in st.dfs ==> st.dfs[k] !in Reject(st, k).armed
  {
  }

  /** The part of a validator step after the stored handle was rejected. */
  lemma InvokeHandles(st1: State, fi: nat, ei: nat, upd: bool, out: Outcome, v: string)
    requires WellFormed(st1) && fi < |st1.fields| && ei < |st1.fields[fi].elements|
    requires HandlesOk(st1)
    requires Key(fi, ei, v) in st1.dfs ==> st1.dfs[Key(fi, ei, v)] !in st1.armed
    ensures var k := Key(fi, ei, v);
      var st2 := st1.(status := Assign(st1.status, k, Validating), calls := st1.calls + [k]);
      HandlesOk(Apply(Force(st2, out.forces, v), fi, ei, upd, v, out.answer))
  {
    var k := Key(fi, ei, v);
    var st2 := st1.(status := Assign(st1.status, k, Validating), calls := st1.calls + [k]);
    var st3 := Force(st2, out.forces, v);
    assert HandlesOk(st3);
    match out.answer
    case Immediate(_) =>
    case Deferred => StartHandles(st3, fi, ei, upd, v);
    case DeferredDone(ok) =>
      StartHandles(st3, fi, ei, upd, v);
      SettleHandles(Start(st3, fi, ei, upd, v), st3.nextHandle, ok);
  }

  /**
   One validator step keeps the discipline, and the handle stored for the pair
   before the step no longer has a live callback after it.
   */
  lemma CheckHandles(st: State, fi: nat, ei: nat, upd: bool, oracle: Key -> Outcome, v: string)
    requires WellFormed(st) && fi < |st.fields| && ei < |st.fields[fi].elements|
    requires HandlesOk(st)
    ensures HandlesOk(Check(st, fi, ei, upd, oracle, v))
    ensures Key(fi, ei, v) in st.dfs ==> st.dfs[Key(fi, ei, v)] !in Check(st, fi, ei, upd, oracle, v).armed
  {
    var k := Key(fi, ei, v);
    RejectHandles(st, k);
    var st1 := Reject(st, k);
    if !Settled(st1, k) {
      InvokeHandles(st1, fi, ei, upd, oracle(k), v);
    }
  }

  /**
   A validator that was not VALID or INVALID and answers with a pending
   handle leaves a fresh handle stored for the pair, with its callback live.
   */
  lemma CheckStoresFresh(st: State, fi: nat, ei: nat, upd: bool, oracle: Key -> Outcome, v: string)
    requires WellFormed(st) && fi < |st.fields| && ei < |st.fields[fi].elements|
    requires !Settled(st, Key(fi, ei, v)) && oracle(Key(fi, ei, v)).answer.Deferred?
    ensures var r := Check(st, fi, ei, upd, oracle, v);
      && Key(fi, ei, v) in r.dfs && r.dfs[Key(fi, ei, v)] == st.nextHandle
      && st.nextHandle in r.armed && r.armed[st.nextHandle] == Callback(fi, ei, v, upd)
  {
  }

  lemma {:induction false} ValidateFromHandles(st: State, fi: nat, ei: nat, upd: bool, oracle: Key -> Outcome, j: nat)
    requires WellFormed(st) && fi < |st.fields| && ei < |st.fields[fi].elements|
    requires j <= |st.fields[fi].validators|
    requires HandlesOk(st)
    decreases |st.fields[fi].validators| - j
    ensures HandlesOk(ValidateFrom(st, fi, ei, upd, oracle, j))
  {
    var vs := st.fields[fi].validators;
    if j < |vs| {
      CheckHandles(st, fi, ei, upd, oracle, vs[j]);
      ValidateFromHandles(Check(st, fi, ei, upd, oracle, vs[j]), fi, ei, upd, oracle, j + 1);
    }
  }

  lemma ValidateFieldElementHandles(st: State, fi: nat, ei: nat, upd: bool, oracle: Key -> Outcome)
    requires WellFormed(st) && fi < |st.fields| && ei < |st.fields[fi].elements|
    requires HandlesOk(st)
    ensures HandlesOk(ValidateFieldElement(st, fi, ei, upd, oracle))
  {
    if st.fields[fi].enabled && !st.fields[fi].elements[ei].excluded {
      ValidateFromHandles(st, fi, ei, upd, oracle, 0);
    }
  }

  lemma {:induction false} ValidateElementsHandles(st: State, fi: nat, i: nat, oracle: Key -> Outcome)
    requires WellFormed(st) && fi < |st.fields|
    requires HandlesOk(st)
    decreases TargetCount(st.fields[fi]) - i
    ensures HandlesOk(ValidateElements(st, fi, i, oracle))
  {
    if i < TargetCount(st.fields[fi]) {
      assert FieldOk(st.fields[fi]);
      var upd := TargetCount(st.fields[fi]) == 1;
      ValidateFieldElementHandles(st, fi, i, upd, oracle);
      ValidateElementsHandles(ValidateFieldElement(st, fi, i, upd, oracle), fi, i + 1, oracle);
    }
  }

  lemma ValidateFieldHandles(st: State, fi: nat, oracle: Key -> Outcome)
    requires WellFormed(st) && fi < |st.fields|
    requires HandlesOk(st)
    ensures HandlesOk(ValidateField(st, fi, oracle))
  {
    if st.fields[fi].enabled {
      ValidateElementsHandles(st, fi, 0, oracle);
    }
  }

  lemma {:induction false} ValidateFieldsHandles(st: State, fi: nat, oracle: Key -> Outcome)
    requires WellFormed(st) && HandlesOk(st)
    decreases |st.fields| - fi
    ensures HandlesOk(ValidateFields(st, fi, oracle))
  {
    if fi < |st.fields| {
      ValidateFieldHandles(st, fi, oracle);
      ValidateFieldsHandles(ValidateField(st, fi, oracle), fi + 1, oracle);
    }
  }

  lemma ValidateHandles(st: State, oracle: Key -> Outcome)
    requires WellFormed(st) && HandlesOk(st)
    ensures HandlesOk(Validate(st, oracle))
  {
    ValidateFieldsHandles(st, 0, oracle);
  }

  lemma LiveTriggerHandles(st: State, fi: nat, ei: nat, oracle: Key -> Outcome)
    requires WellFormed(st) && fi < |st.fields| && ei < |st.fields[fi].elements|
    requires HandlesOk(st)
    ensures HandlesOk(LiveTrigger(st, fi, ei, oracle))
  {
    if st.live == LiveEnabled {
      if UpdatesAll(st.fields[fi]) {
        ValidateFieldHandles(st, fi, oracle);
      } else {
        ValidateFieldElementHandles(st, fi, ei, false, oracle);
      }
    }
  }

  /** The remaining events leave the handle table alone. */
  lemma EventsKeepHandles(st: State, fi: nat, ei: nat, enabled: bool)
    requires WellFormed(st) && fi < |st.fields| && ei < |st.fields[fi].elements|
    requires HandlesOk(st)
    ensures HandlesOk(ValueChange(st, fi, ei))
    ensures HandlesOk(SubmitClick(st))
    ensures HandlesOk(EnableFieldValidators(st, fi, enabled))
    ensures HandlesOk(Submit(st))
  {
  }

  /** A form with one text input "f" and one validator, not yet validated. */
  function OneField(): State {
    var k := Key(0, 0, "remote");
    State([Field("f", Other, [Element(false)], ["remote"], true)],
          k' => if k' == k then Some(NotValidated) else None,
          map[], map[], 0, None, false, false, LiveEnabled, 0, [])
  }

  /** A validator that always answers with a pending handle. */
  function AlwaysPending(k: Key): Outcome {
    Outcome(Deferred, None)
  }

  /**
   A validation, a reset and a second validation leave two live callbacks for
   the same pair: the reset forgot the first handle without rejecting it, so
   the second validation had nothing to reject.
   */
  lemma ResetLeavesTwoLiveCallbacks()
    ensures var st := OneField();
      && WellFormed(st) && HandlesOk(st)
      && var s1 := ValidateFieldElement(st, 0, 0, true, AlwaysPending);
      && var s3 := ValidateFieldElement(ResetForm(s1), 0, 0, true, AlwaysPending);
      && 0 in s3.armed && 1 in s3.armed
      && s3.armed[0] == Callback(0, 0, "remote", true) && s3.armed[1] == Callback(0, 0, "remote", true)
      && !HandlesOk(s3)
  {
    var s1 := FirstPass();
    var s2 := ResetForgets(s1);
    SecondPass(s2);
  }

  /** The first validation arms handle 0 for the pair. */
  lemma FirstPass() returns (s1: State)
    ensures s1 == ValidateFieldElement(OneField(), 0, 0, true, AlwaysPending)
    ensures WellFormed(OneField()) && HandlesOk(OneField())
    ensures WellFormed(s1) && s1.fields == OneField().fields
    ensures s1.armed == map[0 := Callback(0, 0, "remote", true)] && s1.nextHandle == 1
    ensures s1.dfs.Keys <= {Key(0, 0, "remote")}
  {
    var st := OneField();
    s1 := ValidateFieldElement(st, 0, 0, true, AlwaysPending);
    assert s1 == ValidateFrom(Check(st, 0, 0, true, AlwaysPending, "remote"), 0, 0, true, AlwaysPending, 1);
    CheckStoresFresh(st, 0, 0, true, AlwaysPending, "remote");
  }

  /** The reset forgets handle 0 without rejecting it. */
  lemma ResetForgets(s1: State) returns (s2: State)
    requires WellFormed(s1) && s1.fields == OneField().fields
    requires s1.armed == map[0 := Callback(0, 0, "remote", true)] && s1.nextHandle == 1
    requires s1.dfs.Keys <= {Key(0, 0, "remote")}
    ensures s2 == ResetForm(s1)
    ensures WellFormed(s2) && s2.fields == OneField().fields
    ensures s2.dfs == map[] && s2.armed == s1.armed && s2.nextHandle == 1
    ensures StatusOf(s2, Key(0, 0, "remote")) == Some(NotValidated)
  {
    s2 := ResetForm(s1);
  }

  /** After the reset, the second validation arms handle 1 beside handle 0. */
  lemma SecondPass(s2: State)
    requires WellFormed(s2) && s2.fields == OneField().fields
    requires s2.dfs == map[] && s2.armed == map[0 := Callback(0, 0, "remote", true)] && s2.nextHandle == 1
    requires StatusOf(s2, Key(0, 0, "remote")) == Some(NotValidated)
    ensures var s3 := ValidateFieldElement(s2, 0, 0, true, AlwaysPending);
      && 0 in s3.armed && 1 in s3.armed
      && s3.armed[0] == Callback(0, 0, "remote", true) && s3.armed[1] == Callback(0, 0, "remote", true)
      && !HandlesOk(s3)
  {
    var s3 := ValidateFieldElement(s2, 0, 0, true, AlwaysPending);
    assert s3 == ValidateFrom(Check(s2, 0, 0, true, AlwaysPending, "remote"), 0, 0, true, AlwaysPending, 1);
    CheckStoresFresh(s2, 0, 0, true, AlwaysPending, "remote");
  }

  /**
   Continuing that run: the second request answers false, then the request
   from before the reset answers true.  The field ends VALID although the
   latest validation said INVALID: a reset does not discard late results.
   */
  lemma StaleResultAfterResetWins()
    ensures var st := OneField();
      var s3 := ValidateFieldElement(ResetForm(ValidateFieldElement(st, 0, 0, true, AlwaysPending)), 0, 0, true, AlwaysPending);
      var s4 := Settle(s3, 1, false);
      var s5 := Settle(s4, 0, true);
      && StatusOf(s4, Key(0, 0, "remote")) == Some(Invalid)
      && StatusOf(s5, Key(0, 0, "remote")) == Some(Valid)
  {
    ResetLeavesTwoLiveCallbacks();
    LateAnswers(ValidateFieldElement(ResetForm(ValidateFieldElement(OneField(), 0, 0, true, AlwaysPending)), 0, 0, true, AlwaysPending));
  }

  /** Handles 1 and then 0 answer, both for the one text input of `OneField`. */
  lemma LateAnswers(s3: State)
    requires WellFormed(s3) && s3.fields == OneField().fields
    requires 0 in s3.armed && 1 in s3.armed
    requires s3.armed[0] == Callback(0, 0, "remote", true) && s3.armed[1] == Callback(0, 0, "remote", true)
    ensures StatusOf(Settle(s3, 1, false), Key(0, 0, "remote")) == Some(Invalid)
    ensures StatusOf(Settle(Settle(s3, 1, false), 0, true), Key(0, 0, "remote")) == Some(Valid)
  {
    SettleEffect(s3, 1, false);
    var s4 := Settle(s3, 1, false);
    assert 0 in s4.armed && s4.armed[0] == Callback(0, 0, "remote", true);
    SettleEffect(s4, 0, true);
  }
}
