/**
 Whole-form validity (`isValid`) and the submit decision (`_submit`).
 `isValid` walks the enabled fields in registration order, the elements it
 visits in each, and the validators in configuration order; the first status
 that is not VALID stops the walk.
 */
module Aggregator {
  import opened Form

  /** A point of the walk: field, element, and the position of the validator
      in the field's configuration. */
  datatype Pos = Pos(field: nat, elem: nat, index: nat)

  /** What the walk found: nothing wrong, or the first position whose status
      is undecided (NOT_VALIDATED / VALIDATING) or INVALID. */
  datatype Scan = AllValid | Undecided(at: Pos) | Failed(at: Pos)

  /** The positions `isValid` looks at: enabled fields, their visited and
      non-excluded elements, and their configured validators. */
  predicate Visited(st: State, fi: nat, i: nat) {
    && fi < |st.fields|
    && st.fields[fi].enabled
    && i < TargetCount(st.fields[fi])
    && i < |st.fields[fi].elements|
    && !st.fields[fi].elements[i].excluded
  }

  predicate Checked(st: State, p: Pos) {
    Visited(st, p.field, p.elem) && p.index < |st.fields[p.field].validators|
  }

  function KeyAt(st: State, p: Pos): Key
    requires p.field < |st.fields| && p.index < |st.fields[p.field].validators|
  {
    Key(p.field, p.elem, st.fields[p.field].validators[p.index])
  }

  /** A status that does not stop the walk: VALID, or no status at all. */
  predicate Good(st: State, p: Pos)
    requires p.field < |st.fields| && p.index < |st.fields[p.field].validators|
  {
    StatusOf(st, KeyAt(st, p)) == None || StatusOf(st, KeyAt(st, p)) == Some(Valid)
  }

  predicate IsInvalid(st: State, p: Pos)
    requires p.field < |st.fields| && p.index < |st.fields[p.field].validators|
  {
    StatusOf(st, KeyAt(st, p)) == Some(Invalid)
  }

  /** The order of the walk. */
  predicate Before(p: Pos, q: Pos) {
    p.field < q.field
    || (p.field == q.field && p.elem < q.elem)
    || (p.field == q.field && p.elem == q.elem && p.index < q.index)
  }

  /** Reference definition: every status the walk looks at is VALID (or unset). */
  ghost predicate FormValid(st: State) {
    forall p :: Checked(st, p) ==> Good(st, p)
  }

  /** `p` is the first position, in walk order, whose status is not VALID. */
  ghost predicate FirstBad(st: State, p: Pos) {
    && Checked(st, p)
    && !Good(st, p)
    && forall q :: Checked(st, q) && Before(q, p) ==> Good(st, q)
  }

  function ScanValidators(st: State, fi: nat, i: nat, j: nat): (r: Scan)
    requires WellFormed(st)
    requires Visited(st, fi, i)
    decreases |st.fields[fi].validators| - j
    ensures r.AllValid? <==> forall j' :: j <= j' < |st.fields[fi].validators| ==> Good(st, Pos(fi, i, j'))
    ensures !r.AllValid? ==>
      && r.at.field == fi && r.at.elem == i && j <= r.at.index
      && Checked(st, r.at) && !Good(st, r.at)
      && (forall j' :: j <= j' < r.at.index ==> Good(st, Pos(fi, i, j')))
      && (r.Failed? <==> IsInvalid(st, r.at))
  {
    if j >= |st.fields[fi].validators| then AllValid
    else
      match StatusOf(st, KeyAt(st, Pos(fi, i, j)))
      case Some(NotValidated) => Undecided(Pos(fi, i, j))
      case Some(Validating) => Undecided(Pos(fi, i, j))
      case Some(Invalid) => Failed(Pos(fi, i, j))
      case _ => ScanValidators(st, fi, i, j + 1)
  }

  function ScanElements(st: State, fi: nat, i: nat): (r: Scan)
    requires WellFormed(st)
    requires fi < |st.fields| && st.fields[fi].enabled
    decreases TargetCount(st.fields[fi]) - i
    ensures r.AllValid? <==> forall p :: Checked(st, p) && p.field == fi && i <= p.elem ==> Good(st, p)
    ensures !r.AllValid? ==>
      && r.at.field == fi && i <= r.at.elem
      && Checked(st, r.at) && !Good(st, r.at)
      && (forall q :: Checked(st, q) && q.field == fi && i <= q.elem && Before(q, r.at) ==> Good(st, q))
      && (r.Failed? <==> IsInvalid(st, r.at))
  {
    if i >= TargetCount(st.fields[fi]) then AllValid
    else
      assert FieldOk(st.fields[fi]);
      if st.fields[fi].elements[i].excluded then ScanElements(st, fi, i + 1)
      else
        var r := ScanValidators(st, fi, i, 0);
        if r.AllValid? then ScanElements(st, fi, i + 1) else r
  }

  function ScanFields(st: State, fi: nat): (r: Scan)
    requires WellFormed(st)
    decreases |st.fields| - fi
    ensures r.AllValid? <==> forall p :: Checked(st, p) && fi <= p.field ==> Good(st, p)
    ensures !r.AllValid? ==>
      && fi <= r.at.field
      && Checked(st, r.at) && !Good(st, r.at)
      && (forall q :: Checked(st, q) && fi <= q.field && Before(q, r.at) ==> Good(st, q))
      && (r.Failed? <==> IsInvalid(st, r.at))
  {
    if fi >= |st.fields| then AllValid
    else if !st.fields[fi].enabled then ScanFields(st, fi + 1)
    else
      var r := ScanElements(st, fi, 0);
      if r.AllValid? then ScanFields(st, fi + 1) else r
  }

  /**
   `isValid`: true exactly when every looked-at status is VALID.  The first
   INVALID status stops the walk and is recorded in `$invalidField`; an
   undecided status stops it without touching `$invalidField`.
   */
  function IsValid(st: State): (r: (bool, State))
    requires WellFormed(st)
    ensures r.0 <==> FormValid(st)
    ensures r.1 == st.(invalidField := r.1.invalidField)
    ensures r.0 ==> r.1 == st
    ensures forall p :: FirstBad(st, p) && IsInvalid(st, p) ==> r.1.invalidField == Some(ElemRef(p.field, p.elem))
    ensures forall p :: FirstBad(st, p) && !IsInvalid(st, p) ==> r.1 == st
  {
    match ScanFields(st, 0)
    case AllValid => (true, st)
    case Undecided(p) =>
      assert FirstBad(st, p);
      FirstBadUnique(st);
      (false, st)
    case Failed(p) =>
      assert FirstBad(st, p);
      FirstBadUnique(st);
      (false, st.(invalidField := Some(ElemRef(p.field, p.elem))))
  }

  /** Validity depends on the fields and the statuses alone. */
  lemma FormValidFrame(a: State, b: State)
    requires a.fields == b.fields && a.status == b.status
    ensures FormValid(a) <==> FormValid(b)
  {
    forall p
      ensures Checked(a, p) == Checked(b, p)
      ensures Checked(a, p) ==> Good(a, p) == Good(b, p)
    {
    }
  }

  lemma FirstBadUnique(st: State)
    ensures forall p, q :: FirstBad(st, p) && FirstBad(st, q) ==> p == q
  {
  }

  /**
   `_submit`: a valid form is handed to its submit action; an invalid one is
   not, and switches live validation on when it was waiting for a submit.
   Focusing the invalid field and activating its tab are presentation.
   */
  function Submit(st: State): (r: State)
    requires WellFormed(st)
    ensures r.submits == st.submits + (if FormValid(st) then 1 else 0)
    ensures r == st.(invalidField := r.invalidField, live := r.live, submits := r.submits)
    ensures r.live == (if !FormValid(st) && st.live == LiveSubmitted then LiveEnabled else st.live)
    ensures FormValid(st) ==> r.invalidField == st.invalidField
  {
    var (ok, st1) := IsValid(st);
    if !ok then
      if st1.live == LiveSubmitted then st1.(live := LiveEnabled) else st1
    else
      st1.(submits := st1.submits + 1)
  }
}
