/** The non-attachment controls of a feedback form, the local validation pass
    (`_validateForm`) and the search for the element `_sendForm` and `_success`
    focus (`$(form).find(".is-invalid")[0]`). */
module FormFields {
  import opened Strings
  import opened Attachments

  /** An `<input>` with its `type` attribute, or a `<textarea>`. */
  datatype Element = Input(inputType: string) | Textarea

  /** One `input`/`textarea` of the form that is not an attachment slot.
      `satisfiesConstraints` and `validationMessage` are what the browser's
      `checkValidity()` and `validationMessage` report for it. */
  datatype Field = Field(name: string, element: Element, satisfiesConstraints: bool,
                         validationMessage: string, state: FieldState)

  /** An element of the form that can carry `is-invalid`. */
  datatype Target = FieldAt(index: nat) | SlotAt(index: nat)

  /** The elements `_validateForm` visits:
      `.find("input, textarea").not('[type="file"], [name="agree"]')`. */
  predicate Checked(f: Field) {
    f.element != Input("file") && f.name != "agree"
  }

  /** The decoration `_validateForm` gives a checked element. */
  function CheckedState(f: Field): FieldState {
    if f.satisfiesConstraints then Success else Error(f.validationMessage)
  }

  /** The fields after the validation pass: every checked field is marked success or
      error with its validation message; the others keep their decoration. */
  function Validated(fields: seq<Field>): (r: seq<Field>)
    ensures |r| == |fields|
    ensures forall j :: 0 <= j < |fields| ==>
              r[j] == if Checked(fields[j]) then fields[j].(state := CheckedState(fields[j])) else fields[j]
  {
    seq(|fields|, j requires 0 <= j < |fields| =>
      if Checked(fields[j]) then fields[j].(state := CheckedState(fields[j])) else fields[j])
  }

  /** The value `_validateForm` returns: every checked field satisfies its constraints. */
  predicate AllValid(fields: seq<Field>) {
    forall j :: 0 <= j < |fields| && Checked(fields[j]) ==> fields[j].satisfiesConstraints
  }

  /** After the pass, a checked field is marked invalid exactly when it fails its
      constraints, so the pass reports failure iff it left some checked field invalid. */
  lemma ValidatedMarksFailures(fields: seq<Field>)
    ensures forall j :: 0 <= j < |fields| && Checked(fields[j]) ==>
              (Validated(fields)[j].state.Error? <==> !fields[j].satisfiesConstraints)
    ensures !AllValid(fields) <==>
            exists j :: 0 <= j < |fields| && Checked(fields[j]) && Validated(fields)[j].state.Error?
  {
  }

  /** The first element marked invalid in document order; the form's fields come
      before its attachment block. */
  function FirstInvalid(fields: seq<Field>, slots: seq<Slot>): (t: Option<Target>)
    ensures t.Some? && t.value.FieldAt? ==>
              t.value.index < |fields| && fields[t.value.index].state.Error? &&
              forall k :: 0 <= k < t.value.index ==> !fields[k].state.Error?
    ensures t.Some? && t.value.SlotAt? ==>
              t.value.index < |slots| && slots[t.value.index].state.Error? &&
              (forall k :: 0 <= k < |fields| ==> !fields[k].state.Error?) &&
              forall k :: 0 <= k < t.value.index ==> !slots[k].state.Error?
    ensures t.None? <==>
              (forall k :: 0 <= k < |fields| ==> !fields[k].state.Error?) &&
              (forall k :: 0 <= k < |slots| ==> !slots[k].state.Error?)
  {
    var fieldStates := seq(|fields|, k requires 0 <= k < |fields| => fields[k].state);
    var slotStates := seq(|slots|, k requires 0 <= k < |slots| => slots[k].state);
    assert forall k :: 0 <= k < |fields| ==> fieldStates[k] == fields[k].state;
    assert forall k :: 0 <= k < |slots| ==> slotStates[k] == slots[k].state;
    match FirstError(fieldStates, 0)
    case Some(i) => Some(FieldAt(i))
    case None =>
      match FirstError(slotStates, 0)
      case Some(i) => Some(SlotAt(i))
      case None => None
  }

  /** The first position from `from` on whose decoration is `is-invalid`: the
      `.is-invalid` elements of one kind, taken in order. */
  function FirstError(states: seq<FieldState>, from: nat): (r: Option<nat>)
    requires from <= |states|
    ensures r.Some? ==> from <= r.value < |states| && states[r.value].Error? &&
                        forall k :: from <= k < r.value ==> !states[k].Error?
    ensures r.None? ==> forall k :: from <= k < |states| ==> !states[k].Error?
    decreases |states| - from
  {
    if from == |states| then None
    else if states[from].Error? then Some(from)
    else FirstError(states, from + 1)
  }

  /** When the validation pass fails, some element is marked invalid, so `_sendForm`
      has an element to focus. */
  lemma FailedValidationHasFocus(fields: seq<Field>, slots: seq<Slot>)
    requires !AllValid(fields)
    ensures FirstInvalid(Validated(fields), slots).Some?
    ensures FirstInvalid(Validated(fields), slots).value.FieldAt?
  {
    ValidatedMarksFailures(fields);
    var j :| 0 <= j < |fields| && Checked(fields[j]) && Validated(fields)[j].state.Error?;
    assert Validated(fields)[j].state.Error?;
  }
}
