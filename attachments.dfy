/** The attachment block of the feedback-form controller (`ProcessForm`, and its
    copy `ProcessForm2`): how one slot is classified when its file changes, how the
    list of slots grows, and the `data-index` numbering pass run at submit time.
    Everything here is a function of the slot list; the controller class in
    feedback_form.dfy updates its list with these. */
module Attachments {
  import opened Strings
  import opened FileExtension

  /** A file chosen in an `input type=file`: its name and its size in bytes. */
  datatype File = File(name: string, size: nat)

  /** The validation decoration `_setStateValidaion` puts on an element:
      neither class, `is-valid`, or `is-invalid` with the feedback text. */
  datatype FieldState = Clear | Success | Error(message: string)

  /** One attachment slot (`input name="attachment[]"`).
      `hint` is the text of the `<p>` right after the input, `None` when the
      slot's markup has no such paragraph (the inserted template has none);
      `labelText` is the text of the `<label>` right after the input, `None` when there
      is none; `dataIndex` is the `data-index` attribute, `None` until numbered. */
  datatype Slot = Slot(file: Option<File>, state: FieldState, hint: Option<string>,
                       labelText: Option<string>, dataIndex: Option<int>, disabled: bool)

  /** The controller's `_config`. `maxSizeKb` is `maxSizeFile * 1024`, the limit in
      kilobytes; the attachment template is the `EmptySlot` it inserts.
      `uploadForm` is not a `_config` member: it is the form whose `FormData` the
      controller's `_sendForm` uploads, a selector written into each controller. */
  datatype Config = Config(selector: string, isCaptcha: bool, isAgreement: bool,
                           isAttachments: bool, maxSizeKb: nat,
                           validFileExtensions: seq<string>, uploadForm: string)

  /** The defaults of `ProcessForm` (maxSizeFile 5.5 MB = 5632 KB); its `_sendForm`
      uploads `#feedback-form`. */
  const FeedbackFormConfig: Config :=
    Config("#feedback-form", false, false, true, 5632, ["jpg", "jpeg", "doc", "pdf", "png"],
           "#feedback-form")

  /** The defaults of `ProcessForm2`: same controller, agreement on, two extensions;
      its `_sendForm` uploads `#feedback-form2`. */
  const FeedbackForm2Config: Config :=
    Config("#feedback-form2", false, true, true, 5632, ["doc", "pdf"], "#feedback-form2")

  /** With its default selector, each controller uploads its own form. */
  lemma EachControllerUploadsItsForm()
    ensures FeedbackFormConfig.uploadForm == FeedbackFormConfig.selector
    ensures FeedbackForm2Config.uploadForm == FeedbackForm2Config.selector
    ensures FeedbackFormConfig.uploadForm != FeedbackForm2Config.uploadForm
  {
  }

  /** The name every attachment input carries. */
  const SlotName: string := "attachment[]"

  const TypeMessage: string := "*Файл не будет отправлен, т.к. его тип не соответствует разрешённому"
  const NotSelectedHint: string := "* Файл не будет отправлен, т.к. он не выбран"
  /** The label text of the slot template, written back when a selection is cleared. */
  const ChooseFileLabel: string := "Выберите файл..."

  function OversizeMessage(maxSizeKb: nat): string {
    "*Файл не будет отправлен, т.к. его размер больше " + NatToString(maxSizeKb) + "Кбайт"
  }

  /** `maxSizeFile * 1024 * 1024`. */
  function MaxBytes(cfg: Config): nat {
    cfg.maxSizeKb * 1024
  }

  /** The slot the attachment template (`codeFragmentAttachment`) produces. */
  const EmptySlot: Slot := Slot(None, Clear, None, Some(ChooseFileLabel), None, false)

  /** The decoration `_changeInputFile` gives a chosen file: oversize first,
      whatever the extension, then the type check, else valid. */
  function Classify(f: File, cfg: Config): (st: FieldState)
    ensures f.size > MaxBytes(cfg) ==> st == Error(OversizeMessage(cfg.maxSizeKb))
    ensures f.size <= MaxBytes(cfg) && !ValidateFileExtension(f.name, cfg.validFileExtensions)
            ==> st == Error(TypeMessage)
    ensures st == Success <==>
            f.size <= MaxBytes(cfg) && ValidateFileExtension(f.name, cfg.validFileExtensions)
  {
    if f.size > MaxBytes(cfg) then Error(OversizeMessage(cfg.maxSizeKb))
    else if !ValidateFileExtension(f.name, cfg.validFileExtensions) then Error(TypeMessage)
    else Success
  }

  /** Slot `s` after the user's choice `chosen` (`None`: the selection was cleared).
      The decoration is first cleared; a chosen file is then classified (a valid one
      also clears the hint), and a cleared selection gets the "not selected" hint and
      the template's label text back. A chosen file leaves the label as it is. */
  function ChangedSlot(s: Slot, chosen: Option<File>, cfg: Config): (r: Slot)
    ensures r.file == chosen
    ensures r.dataIndex == s.dataIndex && r.disabled == s.disabled
    ensures chosen.None? ==> r.state == Clear
    ensures chosen.Some? ==> r.state == Classify(chosen.value, cfg)
    ensures r.hint.Some? <==> s.hint.Some?
    ensures s.hint.Some? && chosen.None? ==> r.hint == Some(NotSelectedHint)
    ensures s.hint.Some? && chosen.Some? && r.state == Success ==> r.hint == Some("")
    ensures chosen.Some? && r.state.Error? ==> r.hint == s.hint
    ensures r.labelText.Some? <==> s.labelText.Some?
    ensures s.labelText.Some? && chosen.None? ==> r.labelText == Some(ChooseFileLabel)
    ensures chosen.Some? ==> r.labelText == s.labelText
  {
    match chosen
    case None =>
      s.(file := None, state := Clear,
         hint := if s.hint.Some? then Some(NotSelectedHint) else None,
         labelText := if s.labelText.Some? then Some(ChooseFileLabel) else None)
    case Some(f) =>
      var st := Classify(f, cfg);
      s.(file := chosen, state := st,
         hint := if st == Success && s.hint.Some? then Some("") else s.hint)
  }

  /** The conditions of `_changeInputFile` for inserting a new slot: a file is
      selected, and fewer slots than `data-counts` exist. The third test,
      `closest(".custom-files").next(".custom-files")` being empty, holds for every
      slot: the slot template has no `.custom-files` element, so the changed input's
      `.custom-files` ancestor, if any, is followed by none. */
  predicate ShouldGrow(slots: seq<Slot>, chosen: Option<File>, maxSlots: nat) {
    chosen.Some? && |slots| < maxSlots
  }

  /** The slot list after a change event on slot `i`: the template goes in right
      after the changed slot's `.form-group`, then the changed slot is decorated. */
  function AfterChange(slots: seq<Slot>, i: nat, chosen: Option<File>, cfg: Config,
                       maxSlots: nat): (r: seq<Slot>)
    requires i < |slots|
    ensures |r| == if ShouldGrow(slots, chosen, maxSlots) then |slots| + 1 else |slots|
    ensures |slots| <= maxSlots ==> |r| <= maxSlots
    ensures |slots| > maxSlots ==> |r| == |slots|
    ensures r[i] == ChangedSlot(slots[i], chosen, cfg)
    ensures forall j :: 0 <= j < i ==> r[j] == slots[j]
    ensures !ShouldGrow(slots, chosen, maxSlots) ==>
              forall j :: i < j < |slots| ==> r[j] == slots[j]
    ensures ShouldGrow(slots, chosen, maxSlots) ==>
              r[i + 1] == EmptySlot && forall j :: i < j < |slots| ==> r[j + 1] == slots[j]
  {
    var grown := if ShouldGrow(slots, chosen, maxSlots)
                 then slots[..i + 1] + [EmptySlot] + slots[i + 1..] else slots;
    grown[i := ChangedSlot(slots[i], chosen, cfg)]
  }

  /** Decorating a slot twice with the same choice gives the same slot. */
  lemma ChangedSlotIdempotent(s: Slot, chosen: Option<File>, cfg: Config)
    ensures ChangedSlot(ChangedSlot(s, chosen, cfg), chosen, cfg) == ChangedSlot(s, chosen, cfg)
  {
  }

  /** Choosing the same file again on slot `i` redecorates it the same way, and
      inserts one more empty slot right after it while fewer than `data-counts`
      exist: nothing in the handler checks that a slot already follows. Clearing
      the selection again changes nothing. */
  lemma RepeatedChoice(slots: seq<Slot>, i: nat, chosen: Option<File>, cfg: Config, maxSlots: nat)
    requires i < |slots|
    ensures var once := AfterChange(slots, i, chosen, cfg, maxSlots);
            var twice := AfterChange(once, i, chosen, cfg, maxSlots);
            && twice[i] == once[i]
            && (chosen.Some? && |once| < maxSlots ==>
                  |twice| == |once| + 1 && twice[i + 1] == EmptySlot &&
                  forall j :: i < j < |once| ==> twice[j + 1] == once[j])
            && (chosen.None? ==> twice == once)
  {
    var once := AfterChange(slots, i, chosen, cfg, maxSlots);
    var twice := AfterChange(once, i, chosen, cfg, maxSlots);
    ChangedSlotIdempotent(slots[i], chosen, cfg);
    if chosen.None? {
      assert |twice| == |once|;
      forall j | 0 <= j < |once| ensures twice[j] == once[j] {
      }
    }
  }

  /** Starting from at most `data-counts` slots, no sequence of change events
      makes more. */
  lemma {:induction false} SlotCountBounded(slots: seq<Slot>, events: seq<(nat, Option<File>)>,
                                            cfg: Config, maxSlots: nat)
    requires |slots| <= maxSlots
    requires EventsInRange(slots, events, cfg, maxSlots)
    ensures |ReplayChanges(slots, events, cfg, maxSlots)| <= maxSlots
    decreases |events|
  {
    if events != [] {
      SlotCountBounded(AfterChange(slots, events[0].0, events[0].1, cfg, maxSlots),
                       events[1..], cfg, maxSlots);
    }
  }

  /** Each event of `events` names a slot that exists when it fires. */
  predicate EventsInRange(slots: seq<Slot>, events: seq<(nat, Option<File>)>, cfg: Config,
                          maxSlots: nat)
    decreases |events|
  {
    events != [] ==>
      events[0].0 < |slots| &&
      EventsInRange(AfterChange(slots, events[0].0, events[0].1, cfg, maxSlots),
                    events[1..], cfg, maxSlots)
  }

  /** The slot list after a series of change events, each on an existing slot. */
  function ReplayChanges(slots: seq<Slot>, events: seq<(nat, Option<File>)>, cfg: Config,
                         maxSlots: nat): seq<Slot>
    requires EventsInRange(slots, events, cfg, maxSlots)
    decreases |events|
  {
    if events == [] then slots
    else ReplayChanges(AfterChange(slots, events[0].0, events[0].1, cfg, maxSlots),
                       events[1..], cfg, maxSlots)
  }

  // ---------------------------------------------------------------------------
  // The numbering pass `_changeStateImages(config, state)`.

  /** A slot the pass leaves out: no file, or (as written) a file whose extension
      fails while its size is strictly under the limit. */
  predicate Excluded(s: Slot, cfg: Config) {
    s.file.None? ||
    (!ValidateFileExtension(s.file.value.name, cfg.validFileExtensions) &&
     s.file.value.size < MaxBytes(cfg))
  }

  /** How many of `slots` the pass numbers. */
  function IncludedCount(slots: seq<Slot>, cfg: Config): (n: nat)
    ensures n <= |slots|
  {
    if slots == [] then 0
    else IncludedCount(slots[..|slots| - 1], cfg) + (if Excluded(slots[|slots| - 1], cfg) then 0 else 1)
  }

  /** What the pass writes on slot `j`: `data-index = -1` and `disabled = state` on an
      excluded slot, the running counter on any other. */
  function NumberedSlot(slots: seq<Slot>, j: nat, cfg: Config, state: bool): Slot
    requires j < |slots|
  {
    if Excluded(slots[j], cfg) then slots[j].(dataIndex := Some(-1), disabled := state)
    else slots[j].(dataIndex := Some(IncludedCount(slots[..j], cfg)))
  }

  /** The slot list after `_changeStateImages(config, state)`; nothing happens when the
      form has no attachment block. */
  function Numbered(slots: seq<Slot>, cfg: Config, state: bool): (r: seq<Slot>)
    ensures |r| == |slots|
  {
    if !cfg.isAttachments then slots
    else seq(|slots|, j requires 0 <= j < |slots| => NumberedSlot(slots, j, cfg, state))
  }

  /** The `data-index` values the pass hands out, in slot order, skipping -1. */
  function AssignedIndices(slots: seq<Slot>): seq<int> {
    if slots == [] then []
    else
      var last := slots[|slots| - 1];
      AssignedIndices(slots[..|slots| - 1]) +
      (if last.dataIndex.Some? && last.dataIndex.value != -1 then [last.dataIndex.value] else [])
  }

  /** `[lo, lo + 1, ..., hi - 1]`. */
  function Range(lo: int, hi: int): (r: seq<int>)
    requires lo <= hi
    ensures |r| == hi - lo
    ensures forall k :: 0 <= k < |r| ==> r[k] == lo + k
    decreases hi - lo
  {
    if lo == hi then [] else Range(lo, hi - 1) + [hi - 1]
  }

  lemma NumberedSnoc(slots: seq<Slot>, x: Slot, cfg: Config, state: bool)
    requires cfg.isAttachments
    ensures Numbered(slots + [x], cfg, state) ==
            Numbered(slots, cfg, state) + [NumberedSlot(slots + [x], |slots|, cfg, state)]
  {
    var all := slots + [x];
    forall j | 0 <= j < |slots|
      ensures NumberedSlot(all, j, cfg, state) == NumberedSlot(slots, j, cfg, state)
    {
      assert all[..j] == slots[..j];
    }
  }

  /** The pass hands out exactly 0, 1, ..., n-1, in slot order, where n is the
      number of slots it does not exclude. */
  lemma {:induction false} NumberingIsConsecutive(slots: seq<Slot>, cfg: Config, state: bool)
    requires cfg.isAttachments
    ensures AssignedIndices(Numbered(slots, cfg, state)) == Range(0, IncludedCount(slots, cfg))
    decreases |slots|
  {
    if slots != [] {
      var init := slots[..|slots| - 1];
      var x := slots[|slots| - 1];
      assert slots == init + [x];
      NumberedSnoc(init, x, cfg, state);
      NumberingIsConsecutive(init, cfg, state);
      var r := Numbered(slots, cfg, state);
      assert r[..|r| - 1] == Numbered(init, cfg, state);
      assert slots[..|init|] == init;
    }
  }

  /** Slot by slot: -1 exactly on the excluded slots, which the pass also disables;
      every other slot keeps its disabled flag and gets the number of non-excluded
      slots before it. */
  lemma NumberingBySlot(slots: seq<Slot>, cfg: Config, state: bool, j: nat)
    requires cfg.isAttachments && j < |slots|
    ensures var r := Numbered(slots, cfg, state)[j];
            && r.file == slots[j].file && r.state == slots[j].state
            && (Excluded(slots[j], cfg) <==> r.dataIndex == Some(-1))
            && (Excluded(slots[j], cfg) ==> r.disabled == state)
            && (!Excluded(slots[j], cfg) ==>
                  r.disabled == slots[j].disabled &&
                  r.dataIndex == Some(IncludedCount(slots[..j], cfg)))
  {
  }

  /** Two distinct slots never share a non-negative `data-index`, so a server error
      keyed by an index names at most one slot. */
  lemma {:induction false} NumberingIsInjective(slots: seq<Slot>, cfg: Config, state: bool, j: nat, k: nat)
    requires cfg.isAttachments && j < k < |slots|
    requires !Excluded(slots[j], cfg) && !Excluded(slots[k], cfg)
    ensures Numbered(slots, cfg, state)[j].dataIndex != Numbered(slots, cfg, state)[k].dataIndex
  {
    IncludedCountGrows(slots, cfg, j, k);
  }

  lemma IncludedCountGrows(slots: seq<Slot>, cfg: Config, j: nat, k: nat)
    requires j < k <= |slots| && !Excluded(slots[j], cfg)
    ensures IncludedCount(slots[..j], cfg) < IncludedCount(slots[..k], cfg)
  {
    IncludedCountStep(slots, cfg, j);
    IncludedCountMonotone(slots, cfg, j + 1, k);
  }

  /** A longer prefix numbers at least as many slots. */
  lemma {:induction false} IncludedCountMonotone(slots: seq<Slot>, cfg: Config, i: nat, k: nat)
    requires i <= k <= |slots|
    ensures IncludedCount(slots[..i], cfg) <= IncludedCount(slots[..k], cfg)
    decreases k - i
  {
    if i < k {
      var m := k - 1;
      IncludedCountStepLe(slots, cfg, m);
      assert m + 1 == k;
      IncludedCountMonotone(slots, cfg, i, m);
    }
  }

  /** A prefix one slot longer numbers at least as many. */
  lemma IncludedCountStepLe(slots: seq<Slot>, cfg: Config, k: nat)
    requires k < |slots|
    ensures IncludedCount(slots[..k], cfg) <= IncludedCount(slots[..k + 1], cfg)
  {
    IncludedCountStep(slots, cfg, k);
  }

  /** Extending a prefix by one slot adds one exactly when that slot is not excluded. */
  lemma IncludedCountStep(slots: seq<Slot>, cfg: Config, k: nat)
    requires k < |slots|
    ensures IncludedCount(slots[..k + 1], cfg) ==
            IncludedCount(slots[..k], cfg) + (if Excluded(slots[k], cfg) then 0 else 1)
  {
    var pre := slots[..k + 1];
    assert pre[..k] == slots[..k];
    assert pre[k] == slots[k];
  }

  /** The pass and the change handler disagree at the edges: an oversize file is
      marked invalid yet numbered (and so sent), and so is a wrong-type file of
      exactly the limit; a wrong-type file under the limit is left out. */
  lemma NumberingVersusClassification(s: Slot, cfg: Config)
    requires s.file.Some?
    ensures s.file.value.size > MaxBytes(cfg) ==>
            Classify(s.file.value, cfg).Error? && !Excluded(s, cfg)
    ensures s.file.value.size == MaxBytes(cfg) &&
            !ValidateFileExtension(s.file.value.name, cfg.validFileExtensions) ==>
            Classify(s.file.value, cfg) == Error(TypeMessage) && !Excluded(s, cfg)
    ensures Excluded(s, cfg) ==> Classify(s.file.value, cfg) == Error(TypeMessage)
    ensures Classify(s.file.value, cfg) == Success ==> !Excluded(s, cfg)
  {
  }

  // ---------------------------------------------------------------------------
  // `_collectData`: number with `state = true`, snapshot, number with `state = false`.

  /** The attachment inputs a `FormData` snapshot includes: the enabled ones. */
  function EnabledSlots(slots: seq<Slot>): (r: seq<Slot>)
    ensures |r| <= |slots|
    ensures forall s :: s in r ==> s in slots && !s.disabled
  {
    if slots == [] then []
    else EnabledSlots(slots[..|slots| - 1]) +
         (if slots[|slots| - 1].disabled then [] else [slots[|slots| - 1]])
  }

  /** After the second pass every slot has the same `data-index` as in the snapshot,
      the excluded ones are enabled again and the others keep their flag; so when no
      slot was disabled before, the disabled state is unchanged. */
  lemma CollectRestores(slots: seq<Slot>, cfg: Config, j: nat)
    requires cfg.isAttachments && j < |slots|
    ensures var during := Numbered(slots, cfg, true);
            var after := Numbered(during, cfg, false);
            && after[j].dataIndex == during[j].dataIndex
            && after[j].file == slots[j].file && after[j].state == slots[j].state
            && after[j].disabled == (if Excluded(slots[j], cfg) then false else slots[j].disabled)
  {
    var during := Numbered(slots, cfg, true);
    IncludedPrefixSame(slots, during, cfg, j);
  }

  /** Numbering changes nothing the exclusion test looks at. */
  lemma {:induction false} IncludedPrefixSame(slots: seq<Slot>, during: seq<Slot>, cfg: Config, j: nat)
    requires |during| == |slots| && j <= |slots|
    requires forall k :: 0 <= k < |slots| ==> during[k].file == slots[k].file
    ensures IncludedCount(during[..j], cfg) == IncludedCount(slots[..j], cfg)
    decreases j
  {
    if j > 0 {
      var d, s := during[..j], slots[..j];
      assert d[..j - 1] == during[..j - 1] && s[..j - 1] == slots[..j - 1];
      assert d[j - 1].file == s[j - 1].file;
      assert Excluded(d[j - 1], cfg) == Excluded(s[j - 1], cfg);
      IncludedPrefixSame(slots, during, cfg, j - 1);
      assert IncludedCount(d, cfg) == IncludedCount(d[..j - 1], cfg) + (if Excluded(d[j - 1], cfg) then 0 else 1);
      assert IncludedCount(s, cfg) == IncludedCount(s[..j - 1], cfg) + (if Excluded(s[j - 1], cfg) then 0 else 1);
    }
  }

  /** A snapshot numbered 0, 1, ..., n-1 stays so when the slot numbered n is added. */
  lemma SnapshotStep(snap: seq<Slot>, last: Slot)
    requires forall k :: 0 <= k < |snap| ==> snap[k].file.Some? && snap[k].dataIndex == Some(k)
    requires last.file.Some? && last.dataIndex == Some(|snap|)
    ensures var more := snap + [last];
            forall k :: 0 <= k < |more| ==> more[k].file.Some? && more[k].dataIndex == Some(k)
  {
    var more := snap + [last];
    forall k | 0 <= k < |more| ensures more[k].file.Some? && more[k].dataIndex == Some(k) {
      if k < |snap| {
        assert more[k] == snap[k];
      }
    }
  }

  /** When every slot starts enabled, the snapshot holds exactly the slots the pass
      numbers, and their indices are 0, 1, ..., n-1. */
  lemma {:induction false} SnapshotHoldsNumberedSlots(slots: seq<Slot>, cfg: Config)
    requires cfg.isAttachments
    requires forall k :: 0 <= k < |slots| ==> !slots[k].disabled
    ensures var snap := EnabledSlots(Numbered(slots, cfg, true));
            && |snap| == IncludedCount(slots, cfg)
            && forall k :: 0 <= k < |snap| ==> snap[k].file.Some? && snap[k].dataIndex == Some(k)
    decreases |slots|
  {
    if slots != [] {
      var init := slots[..|slots| - 1];
      var x := slots[|slots| - 1];
      assert slots == init + [x];
      NumberedSnoc(init, x, cfg, true);
      SnapshotHoldsNumberedSlots(init, cfg);
      var r := Numbered(slots, cfg, true);
      var last := NumberedSlot(slots, |init|, cfg, true);
      assert r[..|r| - 1] == Numbered(init, cfg, true);
      assert r[|r| - 1] == last;
      assert slots[..|init|] == init;
      var snapInit := EnabledSlots(Numbered(init, cfg, true));
      assert EnabledSlots(r) == snapInit + (if last.disabled then [] else [last]);
      if !Excluded(x, cfg) {
        SnapshotStep(snapInit, last);
      }
    }
  }
}
