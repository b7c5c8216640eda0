/** The `ProcessForm` controller as an object: its `_config`, and the parts of its
    form (fields, attachment slots, captcha image, submit button, result panels)
    that its handlers change. Each handler is a method whose postcondition ties the
    new state to the functions of Attachments, FormFields and ServerResponse, where
    the properties of those functions are proved. */
module FeedbackForms {
  import opened Strings
  import opened Attachments
  import opened FormFields
  import opened ServerResponse
  import Captcha

  class FeedbackForm {
    /** `_config`, changed by the three setters. */
    var config: Config
    /** The form's `input`/`textarea` controls other than the attachment slots. */
    var fields: seq<Field>
    /** The attachment slots, in document order. */
    var slots: seq<Slot>
    /** The attachment block's `data-counts`; 0 when the attribute is absent, since
        `n < undefined` is false. */
    const maxSlots: nat
    /** The element that last received focus from the controller. */
    var focus: Option<Target>
    /** The `.img-captcha` element, when the form has one. */
    var captcha: Option<CaptchaImage>
    /** The submit button's `disabled` property. */
    var submitDisabled: bool
    /** `.form-error` shown (no `d-none`). */
    var errorShown: bool
    /** `.form-result-success` shown (`d-flex`). */
    var successShown: bool

    /** `new ProcessForm(config)` on a form in its initial state. */
    constructor (config: Config, fields: seq<Field>, slots: seq<Slot>, maxSlots: nat,
                 captcha: Option<CaptchaImage>)
      ensures this.config == config && this.fields == fields && this.slots == slots
      ensures this.maxSlots == maxSlots && this.captcha == captcha
      ensures focus.None? && !submitDisabled && !errorShown && !successShown
    {
      this.config := config;
      this.fields := fields;
      this.slots := slots;
      this.maxSlots := maxSlots;
      this.captcha := captcha;
      focus := None;
      submitDisabled := false;
      errorShown := false;
      successShown := false;
    }

    method SetIsCaptcha(value: bool)
      modifies this`config
      ensures config == old(config).(isCaptcha := value)
    {
      config := config.(isCaptcha := value);
    }

    method SetIsAgreement(value: bool)
      modifies this`config
      ensures config == old(config).(isAgreement := value)
    {
      config := config.(isAgreement := value);
    }

    method SetIsAttachments(value: bool)
      modifies this`config
      ensures config == old(config).(isAttachments := value)
    {
      config := config.(isAttachments := value);
    }

    /** `_init`: the three flags come from whether the form holds a `.captcha`, an
        `.agreement` and an `.attachments` section; every other option is kept. */
    method Init(hasCaptcha: bool, hasAgreement: bool, hasAttachments: bool)
      modifies this`config
      ensures config == old(config).(isCaptcha := hasCaptcha, isAgreement := hasAgreement,
                                     isAttachments := hasAttachments)
      ensures config.selector == old(config).selector
      ensures config.validFileExtensions == old(config).validFileExtensions
    {
      SetIsCaptcha(hasCaptcha);
      SetIsAgreement(hasAgreement);
      SetIsAttachments(hasAttachments);
    }

    /** The `agree` checkbox's change handler: submit is disabled exactly while the
        box is unchecked. */
    method ChangeAgreement(checked: bool)
      modifies this`submitDisabled
      ensures submitDisabled <==> !checked
    {
      submitDisabled := !checked;
    }

    /** `_refreshCaptcha`: a new `src` from `data-src` and the clock; with no captcha
        image, `captchaSrc.indexOf` throws and nothing changes. */
    method RefreshCaptcha(now: nat)
      modifies this`captcha
      ensures old(captcha).None? ==> captcha.None?
      ensures old(captcha).Some? ==>
                captcha == Some(old(captcha).value.(src := Captcha.CaptchaUrl(old(captcha).value.dataSrc, now)))
    {
      if captcha.Some? {
        var img := captcha.value;
        captcha := Some(img.(src := Captcha.CaptchaUrl(img.dataSrc, now)));
      }
    }

    /** The change handler of slot `i`: `_changeInputFile`. The source binds it at
        `init` when the form has attachments; the model tests the flag as it stands
        when the event fires, which is the same while `isAttachments` keeps the value
        `Init` gave it. */
    method ChangeInputFile(i: nat, chosen: Option<File>)
      requires i < |slots|
      modifies this`slots
      ensures slots == if config.isAttachments then AfterChange(old(slots), i, chosen, config, maxSlots)
                       else old(slots)
    {
      if !config.isAttachments {
        return;
      }
      var grow := ShouldGrow(slots, chosen, maxSlots);
      if grow {
        slots := slots[..i + 1] + [EmptySlot] + slots[i + 1..];
      }
      slots := slots[i := ChangedSlot(slots[i], chosen, config)];
    }

    /** `_validateForm`: mark every checked field, and report whether all pass. */
    method ValidateForm() returns (valid: bool)
      modifies this`fields
      ensures fields == Validated(old(fields))
      ensures valid == AllValid(old(fields))
    {
      valid := true;
      var k := 0;
      while k < |fields|
        invariant 0 <= k <= |fields| == |old(fields)|
        invariant forall j :: 0 <= j < k ==> fields[j] == Validated(old(fields))[j]
        invariant forall j :: k <= j < |fields| ==> fields[j] == old(fields)[j]
        invariant valid <==> forall j :: 0 <= j < k && Checked(old(fields)[j]) ==> old(fields)[j].satisfiesConstraints
      {
        var f := fields[k];
        if Checked(f) {
          if f.satisfiesConstraints {
            fields := fields[k := f.(state := Success)];
          } else {
            fields := fields[k := f.(state := Error(f.validationMessage))];
            valid := false;
          }
        }
        k := k + 1;
      }
    }

    /** `_changeStateImages(config, state)`: one pass over the slots with a running
        counter. */
    method ChangeStateImages(state: bool)
      modifies this`slots
      ensures slots == Numbered(old(slots), config, state)
    {
      if !config.isAttachments {
        return;
      }
      var i := 0;
      var index := 0;
      while i < |slots|
        invariant 0 <= i <= |slots| == |old(slots)|
        invariant forall j :: 0 <= j < i ==> slots[j] == NumberedSlot(old(slots), j, config, state)
        invariant forall j :: i <= j < |slots| ==> slots[j] == old(slots)[j]
        invariant index == IncludedCount(old(slots)[..i], config)
      {
        var s := slots[i];
        var t: Slot;
        NumberedSlotCases(old(slots), i, config, state);
        if s.file.Some? {
          if !FileExtension.ValidateFileExtension(s.file.value.name, config.validFileExtensions) &&
             s.file.value.size < MaxBytes(config) {
            t := s.(disabled := state, dataIndex := Some(-1));
          } else {
            t := s.(dataIndex := Some(index));
            index := index + 1;
          }
        } else {
          t := s.(disabled := state, dataIndex := Some(-1));
        }
        NumberedPrefixStep(old(slots), slots, i, config, state);
        slots := slots[i := t];
        i := i + 1;
      }
    }

    /** `_collectData`: number with the left-out slots disabled, take the snapshot of
        the enabled slots, number again with them enabled. */
    method CollectData() returns (snapshot: seq<Slot>)
      modifies this`slots
      ensures snapshot == EnabledSlots(Numbered(old(slots), config, true))
      ensures slots == Numbered(Numbered(old(slots), config, true), config, false)
    {
      ChangeStateImages(true);
      snapshot := EnabledSlots(slots);
      ChangeStateImages(false);
    }

    /** `_sendForm`. On a failed validation the first invalid element is focused and
        nothing is sent. Otherwise the error panel is hidden, the upload payload is
        taken from the enabled inputs of the form the controller hardcodes (so it is
        this form's attachment slots when the selector names that form, as both
        default configurations do), the submit button is disabled, and
        `_collectData` renumbers the slots. */
    method SendForm() returns (sent: bool, payload: Option<seq<Slot>>)
      modifies this`fields, this`slots, this`focus, this`errorShown, this`submitDisabled
      ensures sent == AllValid(old(fields))
      ensures fields == Validated(old(fields))
      ensures !sent ==> focus == FirstInvalid(fields, old(slots)) && focus.Some? && focus.value.FieldAt?
      ensures !sent ==> slots == old(slots) && payload.None? && errorShown == old(errorShown) &&
                        submitDisabled == old(submitDisabled)
      ensures sent ==> !errorShown && submitDisabled && focus == old(focus)
      ensures sent ==> payload == if config.selector == config.uploadForm then Some(EnabledSlots(old(slots))) else None
      ensures sent ==> slots == Numbered(Numbered(old(slots), config, true), config, false)
    {
      var valid := ValidateForm();
      if !valid {
        FailedValidationHasFocus(old(fields), slots);
        focus := FirstInvalid(fields, slots);
        return false, None;
      }
      errorShown := false;
      payload := if config.selector == config.uploadForm then Some(EnabledSlots(slots)) else None;
      submitDisabled := true;
      var _ := CollectData();
      sent := true;
    }

    /** `_success(data)`: the success panel for `{ result: "success" }`; otherwise
        the error panel, submit enabled again, and the loop over the answer's
        members, which stops at the first member whose turn throws (`Throws`). */
    method OnSuccess(resp: Response, now: nat)
      modifies this`fields, this`slots, this`focus, this`captcha, this`errorShown,
               this`submitDisabled, this`successShown
      ensures IsSuccess(resp) ==>
                successShown && fields == old(fields) && slots == old(slots) && focus == old(focus) &&
                captcha == old(captcha) && errorShown == old(errorShown) &&
                submitDisabled == old(submitDisabled)
      ensures !IsSuccess(resp) ==>
                errorShown && !submitDisabled && successShown == old(successShown) &&
                var r := ApplyAll(View(old(fields), old(slots), old(focus), old(captcha), false), resp.entries, now);
                fields == r.fields && slots == r.slots && focus == r.focus && captcha == r.captcha
    {
      if IsSuccess(resp) {
        successShown := true;
        return;
      }
      errorShown := true;
      submitDisabled := false;
      ApplyAnswer(resp.entries, now);
    }

    /** The `for (var error in data)` loop of `_success`, run over the members in
        order until the end or until a turn throws. */
    method ApplyAnswer(entries: seq<(string, Json)>, now: nat)
      modifies this`fields, this`slots, this`focus, this`captcha
      ensures var r := ApplyAll(View(old(fields), old(slots), old(focus), old(captcha), false), entries, now);
              fields == r.fields && slots == r.slots && focus == r.focus && captcha == r.captcha
    {
      ghost var v0 := View(fields, slots, focus, captcha, false);
      var aborted := false;
      var k := 0;
      while k < |entries| && !aborted
        invariant 0 <= k <= |entries|
        invariant View(fields, slots, focus, captcha, aborted) == ApplyAll(v0, entries[..k], now)
      {
        ApplyAllSnoc(v0, entries, k, now);
        aborted := ApplyMember(entries[k], now);
        k := k + 1;
      }
      AbortedStays(v0, entries, k, now);
    }

    /** One turn of the loop in `_success`: the `switch` on the member's name, then
        the focus step. `threw` is set, and nothing changes, when a `captcha` member
        arrives and the form has no captcha image, or an `attachment` or `log` member
        holds a non-empty string. */
    method ApplyMember(entry: (string, Json), now: nat) returns (threw: bool)
      modifies this`fields, this`slots, this`focus, this`captcha
      ensures View(fields, slots, focus, captcha, threw) ==
              ApplyEntry(View(old(fields), old(slots), old(focus), old(captcha), false), entry, now)
    {
      var key := entry.0;
      var value := entry.1;
      threw := false;
      if key == "captcha" {
        if captcha.None? {
          threw := true;
          return;
        }
        var img := captcha.value;
        captcha := Some(img.(src := Captcha.CaptchaUrl(img.dataSrc, now)));
        fields := MarkFields(fields, key, MessageText(value));
        slots := MarkSlotsNamed(slots, key, MessageText(value));
      } else if (key == "attachment" || key == "log") && EachThrows(value) {
        threw := true;
        return;
      } else if key == "attachment" {
        slots := MarkAttachments(slots, value);
      } else if key == "log" {
      } else {
        fields := MarkFields(fields, key, MessageText(value));
        slots := MarkSlotsNamed(slots, key, MessageText(value));
      }
      var t := FirstInvalid(fields, slots);
      if t.Some? {
        focus := t;
      }
    }

    /** `_error`: a transport failure shows the error panel; the submit button is left
        as `beforeSend` set it. */
    method OnError()
      modifies this`errorShown
      ensures errorShown
    {
      errorShown := true;
    }
  }

  /** Slot `i`'s numbered value and the running count after it, along the three branches
      of the loop body in `_changeStateImages`. */
  lemma NumberedSlotCases(orig: seq<Slot>, i: nat, cfg: Config, state: bool)
    requires i < |orig|
    ensures orig[i].file.None? ==>
              && NumberedSlot(orig, i, cfg, state) == orig[i].(disabled := state, dataIndex := Some(-1))
              && IncludedCount(orig[..i + 1], cfg) == IncludedCount(orig[..i], cfg)
    ensures orig[i].file.Some? &&
            !FileExtension.ValidateFileExtension(orig[i].file.value.name, cfg.validFileExtensions) &&
            orig[i].file.value.size < MaxBytes(cfg) ==>
              && NumberedSlot(orig, i, cfg, state) == orig[i].(disabled := state, dataIndex := Some(-1))
              && IncludedCount(orig[..i + 1], cfg) == IncludedCount(orig[..i], cfg)
    ensures orig[i].file.Some? &&
            !(!FileExtension.ValidateFileExtension(orig[i].file.value.name, cfg.validFileExtensions) &&
              orig[i].file.value.size < MaxBytes(cfg)) ==>
              && NumberedSlot(orig, i, cfg, state) == orig[i].(dataIndex := Some(IncludedCount(orig[..i], cfg)))
              && IncludedCount(orig[..i + 1], cfg) == IncludedCount(orig[..i], cfg) + 1
  {
    IncludedCountStep(orig, cfg, i);
  }

  /** One turn of the numbering loop: writing slot `i`'s numbered value extends the
      numbered prefix by one slot and leaves the rest as it was. */
  lemma NumberedPrefixStep(orig: seq<Slot>, cur: seq<Slot>, i: nat, cfg: Config, state: bool)
    requires i < |orig| == |cur|
    requires forall j :: 0 <= j < i ==> cur[j] == NumberedSlot(orig, j, cfg, state)
    requires forall j :: i <= j < |cur| ==> cur[j] == orig[j]
    ensures var next := cur[i := NumberedSlot(orig, i, cfg, state)];
            && (forall j :: 0 <= j < i + 1 ==> next[j] == NumberedSlot(orig, j, cfg, state))
            && (forall j :: i + 1 <= j < |next| ==> next[j] == orig[j])
  {
  }

  /** The loop over one more member is one more turn. */
  lemma ApplyAllSnoc(v: View, entries: seq<(string, Json)>, k: nat, now: nat)
    requires k < |entries|
    ensures ApplyAll(v, entries[..k + 1], now) == ApplyEntry(ApplyAll(v, entries[..k], now), entries[k], now)
  {
    assert entries[..k + 1][..k] == entries[..k];
  }

  /** Once a turn of the loop has thrown, the remaining members change nothing. */
  lemma {:induction false} AbortedStays(v: View, entries: seq<(string, Json)>, k: nat, now: nat)
    requires k <= |entries|
    requires k < |entries| ==> ApplyAll(v, entries[..k], now).aborted
    ensures ApplyAll(v, entries, now) == ApplyAll(v, entries[..k], now)
    decreases |entries|
  {
    if k < |entries| {
      var init := entries[..|entries| - 1];
      assert init[..k] == entries[..k];
      if k < |init| {
        AbortedStays(v, init, k, now);
      } else {
        assert init == entries[..k];
      }
    } else {
      assert entries[..k] == entries;
    }
  }
}
