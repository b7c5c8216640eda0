/** `_success`: how the controller reads the upload endpoint's JSON answer.
    `{ "result": "success" }` shows the success panel; any other answer shows the
    error panel and routes each member of the object onto the form's elements. */
module ServerResponse {
  import opened Strings
  import opened Attachments
  import opened FormFields
  import Captcha

  /** A member value of the answer: a string message, or an object of strings
      (per-attachment messages under `attachment`, lines under `log`). */
  datatype Json = Str(text: string) | Obj(members: map<string, string>)

  /** The answer object, its members in the order `for…in` visits them. */
  datatype Response = Response(entries: seq<(string, Json)>)

  /** The captcha image: its fixed `data-src` and its current `src`. */
  datatype CaptchaImage = CaptchaImage(dataSrc: string, src: string)

  /** What a server answer can change. `aborted` records that a handler threw: with
      no captcha image, `captchaSrc.indexOf` is a call on `undefined`, which ends the
      loop over the answer's members. */
  datatype View = View(fields: seq<Field>, slots: seq<Slot>, focus: Option<Target>,
                       captcha: Option<CaptchaImage>, aborted: bool)

  /** `data[key]` for the first member named `key`. */
  function Lookup(entries: seq<(string, Json)>, key: string): (r: Option<Json>)
    ensures r.Some? <==> exists k :: 0 <= k < |entries| && entries[k].0 == key
  {
    if entries == [] then None
    else if entries[0].0 == key then Some(entries[0].1)
    else Lookup(entries[1..], key)
  }

  predicate HasKey(entries: seq<(string, Json)>, key: string) {
    exists k :: 0 <= k < |entries| && entries[k].0 == key
  }

  /** An object's member names are distinct. */
  predicate UniqueKeys(entries: seq<(string, Json)>) {
    forall j, k :: 0 <= j < k < |entries| ==> entries[j].0 != entries[k].0
  }

  /** `data.result === "success"`. */
  predicate IsSuccess(r: Response) {
    Lookup(r.entries, "result") == Some(Str("success"))
  }

  /** What `.text(value)` shows for a member value. */
  function MessageText(v: Json): string {
    match v
    case Str(t) => t
    case Obj(_) => "[object Object]"
  }

  /** `_setStateValidaion($(form).find('[name="' + name + '"]'), "error", msg)` on the
      form's fields. */
  function MarkFields(fields: seq<Field>, name: string, msg: string): (r: seq<Field>)
    ensures |r| == |fields|
    ensures forall j :: 0 <= j < |fields| ==>
              r[j] == if fields[j].name == name then fields[j].(state := Error(msg)) else fields[j]
  {
    seq(|fields|, j requires 0 <= j < |fields| =>
      if fields[j].name == name then fields[j].(state := Error(msg)) else fields[j])
  }

  /** The same selector on the attachment slots: all of them carry `SlotName`. */
  function MarkSlotsNamed(slots: seq<Slot>, name: string, msg: string): (r: seq<Slot>)
    ensures |r| == |slots|
    ensures name != SlotName ==> r == slots
    ensures name == SlotName ==> forall j :: 0 <= j < |slots| ==> r[j] == slots[j].(state := Error(msg))
  {
    if name == SlotName then seq(|slots|, j requires 0 <= j < |slots| => slots[j].(state := Error(msg)))
    else slots
  }

  /** Marking by name on the whole view. */
  function MarkByName(v: View, name: string, msg: string): (r: View)
    ensures r.focus == v.focus && r.captcha == v.captcha && r.aborted == v.aborted
  {
    v.(fields := MarkFields(v.fields, name, msg), slots := MarkSlotsNamed(v.slots, name, msg))
  }

  /** The message the `attachment` member gives slot `s`, if any: the member whose
      name is the slot's `data-index` as a string. */
  function AttachmentMessage(s: Slot, members: map<string, string>): Option<string> {
    if s.dataIndex.Some? && IntToString(s.dataIndex.value) in members
    then Some(members[IntToString(s.dataIndex.value)])
    else None
  }

  /** `$.each(data.attachment, (key, value) => mark '[data-index="' + key + '"]')`. */
  function MarkAttachments(slots: seq<Slot>, value: Json): (r: seq<Slot>)
    ensures |r| == |slots|
    ensures forall j :: 0 <= j < |slots| ==>
              r[j] == match value
                      case Obj(m) =>
                        (match AttachmentMessage(slots[j], m)
                         case Some(msg) => slots[j].(state := Error(msg))
                         case None => slots[j])
                      case Str(_) => slots[j]
  {
    match value
    case Str(_) => slots
    case Obj(m) =>
      seq(|slots|, j requires 0 <= j < |slots| =>
        match AttachmentMessage(slots[j], m)
        case Some(msg) => slots[j].(state := Error(msg))
        case None => slots[j])
  }

  /** The focus step at the end of each loop turn. */
  function Refocus(v: View): (r: View)
    ensures r.fields == v.fields && r.slots == v.slots
    ensures r.captcha == v.captcha && r.aborted == v.aborted
    ensures r.focus == if FirstInvalid(v.fields, v.slots).Some? then FirstInvalid(v.fields, v.slots) else v.focus
  {
    match FirstInvalid(v.fields, v.slots)
    case Some(t) => v.(focus := Some(t))
    case None => v
  }

  /** `r` has the fields and slots of `v`, under the same names and indices, and
      no element marked invalid in `v` is valid in `r`: marking only adds errors. */
  predicate KeepsShape(v: View, r: View) {
    && |r.fields| == |v.fields| && |r.slots| == |v.slots|
    && (forall j :: 0 <= j < |v.fields| ==> r.fields[j].name == v.fields[j].name)
    && (forall j :: 0 <= j < |v.slots| ==> r.slots[j].dataIndex == v.slots[j].dataIndex)
    && (forall j :: 0 <= j < |v.fields| && v.fields[j].state.Error? ==> r.fields[j].state.Error?)
    && (forall j :: 0 <= j < |v.slots| && v.slots[j].state.Error? ==> r.slots[j].state.Error?)
  }

  /** With errors only added, a view with no invalid element came from one with none. */
  lemma NoErrorBefore(v: View, r: View)
    requires KeepsShape(v, r)
    ensures FirstInvalid(r.fields, r.slots).None? ==> FirstInvalid(v.fields, v.slots).None?
  {
  }

  /** A turn for a member that names fields: mark them, then move the focus. */
  function NamedTurn(v: View, key: string, msg: string): (r: View)
    ensures KeepsShape(v, r)
    ensures r.captcha == v.captcha && r.aborted == v.aborted
    ensures r.focus == if FirstInvalid(r.fields, r.slots).Some? then FirstInvalid(r.fields, r.slots) else v.focus
  {
    Refocus(MarkByName(v, key, msg))
  }

  /** The turn for the `attachment` member: mark the slots it names, then move the
      focus. */
  function AttachmentTurn(v: View, value: Json): (r: View)
    ensures KeepsShape(v, r)
    ensures r.captcha == v.captcha && r.aborted == v.aborted
    ensures r.focus == if FirstInvalid(r.fields, r.slots).Some? then FirstInvalid(r.fields, r.slots) else v.focus
  {
    Refocus(v.(slots := MarkAttachments(v.slots, value)))
  }

  /** `$.each(value, ...)` throws on a non-empty string: jQuery's array-likeness
      test applies `in` to the string primitive. An empty string is walked with no
      iteration, and an object member by member. */
  predicate EachThrows(value: Json) {
    value.Str? && value.text != ""
  }

  /** A turn that throws, ending the loop: a `captcha` member on a form without a
      captcha image (`captchaSrc.indexOf` on `undefined`), or an `attachment` or
      `log` member holding a non-empty string, which `$.each` refuses. */
  predicate Throws(hasCaptcha: bool, entry: (string, Json)) {
    || (entry.0 == "captcha" && !hasCaptcha)
    || ((entry.0 == "attachment" || entry.0 == "log") && EachThrows(entry.1))
  }

  /** Some member of `entries` throws. */
  predicate AnyThrows(hasCaptcha: bool, entries: seq<(string, Json)>) {
    exists k :: 0 <= k < |entries| && Throws(hasCaptcha, entries[k])
  }

  /** A member list throws somewhere iff its prefix does or its last member does. */
  lemma AnyThrowsSnoc(hasCaptcha: bool, entries: seq<(string, Json)>)
    requires entries != []
    ensures AnyThrows(hasCaptcha, entries) <==>
            AnyThrows(hasCaptcha, entries[..|entries| - 1]) || Throws(hasCaptcha, entries[|entries| - 1])
  {
    var init := entries[..|entries| - 1];
    if AnyThrows(hasCaptcha, entries) {
      var k :| 0 <= k < |entries| && Throws(hasCaptcha, entries[k]);
      if k < |init| {
        assert init[k] == entries[k];
      }
    }
    if AnyThrows(hasCaptcha, init) {
      var k :| 0 <= k < |init| && Throws(hasCaptcha, init[k]);
      assert entries[k] == init[k];
    }
  }

  /** One turn of the `for (var error in data)` loop. */
  function ApplyEntry(v: View, entry: (string, Json), now: nat): (r: View)
    ensures KeepsShape(v, r)
    ensures v.aborted ==> r == v
    ensures r.aborted <==> v.aborted || Throws(v.captcha.Some?, entry)
    ensures !v.aborted && r.aborted ==> r == v.(aborted := true)
    ensures r.captcha.Some? <==> v.captcha.Some?
    ensures !r.aborted ==>
              r.focus == if FirstInvalid(r.fields, r.slots).Some? then FirstInvalid(r.fields, r.slots) else v.focus
  {
    var (key, value) := entry;
    if v.aborted then v
    else if key == "captcha" then
      match v.captcha
      case None => v.(aborted := true)
      case Some(img) =>
        var refreshed := v.(captcha := Some(img.(src := Captcha.CaptchaUrl(img.dataSrc, now))));
        NamedTurn(refreshed, key, MessageText(value))
    else if (key == "attachment" || key == "log") && EachThrows(value) then
      v.(aborted := true)
    else if key == "attachment" then
      AttachmentTurn(v, value)
    else if key == "log" then
      Refocus(v)
    else
      NamedTurn(v, key, MessageText(value))
  }

  /** The loop over the first `|entries|` members. */
  function ApplyAll(v: View, entries: seq<(string, Json)>, now: nat): (r: View)
    ensures KeepsShape(v, r)
    ensures r.captcha.Some? <==> v.captcha.Some?
    ensures r.aborted <==> v.aborted || AnyThrows(v.captcha.Some?, entries)
    decreases |entries|
  {
    if entries == [] then v
    else
      var init := entries[..|entries| - 1];
      AnyThrowsSnoc(v.captcha.Some?, entries);
      ApplyEntry(ApplyAll(v, init, now), entries[|entries| - 1], now)
  }

  /** The message a field named `name` ends with, when the answer names it. */
  function FieldMessage(entries: seq<(string, Json)>, name: string): Option<string> {
    if name == "attachment" || name == "log" then None
    else match Lookup(entries, name)
         case Some(v) => Some(MessageText(v))
         case None => None
  }

  lemma LookupLast(entries: seq<(string, Json)>, key: string)
    requires entries != [] && UniqueKeys(entries)
    ensures var init := entries[..|entries| - 1];
            var last := entries[|entries| - 1];
            Lookup(entries, key) == if last.0 == key then Some(last.1) else Lookup(init, key)
    decreases |entries|
  {
    if |entries| > 1 {
      if entries[0].0 != key {
        assert entries[1..][..|entries| - 2] == entries[..|entries| - 1][1..];
        LookupLast(entries[1..], key);
      }
    }
  }

  /** One loop turn on field `j`: marked when the member names it (and is not
      `attachment` or `log`), unchanged otherwise. */
  lemma ApplyEntryField(v: View, entry: (string, Json), now: nat, j: nat)
    requires !v.aborted && !Throws(v.captcha.Some?, entry)
    requires j < |v.fields|
    ensures ApplyEntry(v, entry, now).fields[j] ==
            if entry.0 == v.fields[j].name && entry.0 != "attachment" && entry.0 != "log"
            then v.fields[j].(state := Error(MessageText(entry.1))) else v.fields[j]
  {
    var (key, value) := entry;
    if key == "captcha" {
      var img := v.captcha.value;
      var refreshed := v.(captcha := Some(img.(src := Captcha.CaptchaUrl(img.dataSrc, now))));
      assert ApplyEntry(v, entry, now) == NamedTurn(refreshed, key, MessageText(value));
    } else if key == "attachment" {
      assert ApplyEntry(v, entry, now) == AttachmentTurn(v, value);
    } else if key == "log" {
      assert ApplyEntry(v, entry, now) == Refocus(v);
    } else {
      assert ApplyEntry(v, entry, now) == NamedTurn(v, key, MessageText(value));
    }
  }

  /** One loop turn on slot `j`, for a member not named like the slots. */
  lemma ApplyEntrySlot(v: View, entry: (string, Json), now: nat, j: nat)
    requires !v.aborted && !Throws(v.captcha.Some?, entry)
    requires entry.0 != SlotName && j < |v.slots|
    ensures ApplyEntry(v, entry, now).slots[j] ==
            if entry.0 == "attachment" then MarkAttachments(v.slots, entry.1)[j] else v.slots[j]
  {
    var (key, value) := entry;
    if key == "captcha" {
      var img := v.captcha.value;
      var refreshed := v.(captcha := Some(img.(src := Captcha.CaptchaUrl(img.dataSrc, now))));
      assert ApplyEntry(v, entry, now) == NamedTurn(refreshed, key, MessageText(value));
    } else if key == "attachment" {
      assert ApplyEntry(v, entry, now) == AttachmentTurn(v, value);
    } else if key == "log" {
      assert ApplyEntry(v, entry, now) == Refocus(v);
    } else {
      assert ApplyEntry(v, entry, now) == NamedTurn(v, key, MessageText(value));
    }
  }

  /** Field by field: when the loop runs to the end, a field whose name the answer
      uses (other than `attachment` and `log`) ends marked invalid with that member's
      message; every other field is left as it was. */
  lemma {:induction false} FieldsAfterAnswer(v: View, entries: seq<(string, Json)>, now: nat, j: nat)
    requires UniqueKeys(entries) && !v.aborted
    requires !AnyThrows(v.captcha.Some?, entries)
    requires j < |v.fields|
    ensures var r := ApplyAll(v, entries, now);
            r.fields[j] == match FieldMessage(entries, v.fields[j].name)
                           case Some(msg) => v.fields[j].(state := Error(msg))
                           case None => v.fields[j]
    decreases |entries|
  {
    if entries != [] {
      var init := entries[..|entries| - 1];
      var last := entries[|entries| - 1];
      assert UniqueKeys(init);
      forall k | 0 <= k < |init| ensures init[k] == entries[k] {
      }
      assert !AnyThrows(v.captcha.Some?, init);
      FieldsAfterAnswer(v, init, now, j);
      var mid := ApplyAll(v, init, now);
      assert ApplyAll(v, entries, now) == ApplyEntry(mid, last, now);
      assert !Throws(mid.captcha.Some?, last) by {
        assert entries[|entries| - 1] == last;
      }
      ApplyEntryField(mid, last, now, j);
      var name := v.fields[j].name;
      assert mid.fields[j].name == name;
      LookupLast(entries, name);
      if last.0 == name && name != "attachment" && name != "log" {
        assert !HasKey(init, last.0);
        assert FieldMessage(init, name).None?;
        assert FieldMessage(entries, name) == Some(MessageText(last.1));
      } else {
        assert FieldMessage(entries, name) == FieldMessage(init, name);
        assert ApplyAll(v, entries, now).fields[j] == mid.fields[j];
      }
    }
  }

  /** Slot by slot: when the loop runs to the end and no member is named like the
      slots themselves, a slot whose `data-index` is a member name of the
      `attachment` object ends marked invalid with that message; every other slot is
      left as it was. */
  lemma {:induction false} SlotsAfterAnswer(v: View, entries: seq<(string, Json)>, now: nat, j: nat)
    requires UniqueKeys(entries) && !v.aborted
    requires !AnyThrows(v.captcha.Some?, entries)
    requires !HasKey(entries, SlotName)
    requires j < |v.slots|
    ensures var r := ApplyAll(v, entries, now);
            r.slots[j] == match Lookup(entries, "attachment")
                          case Some(Obj(m)) =>
                            (match AttachmentMessage(v.slots[j], m)
                             case Some(msg) => v.slots[j].(state := Error(msg))
                             case None => v.slots[j])
                          case _ => v.slots[j]
    decreases |entries|
  {
    if entries != [] {
      var init := entries[..|entries| - 1];
      var last := entries[|entries| - 1];
      assert UniqueKeys(init);
      forall k | 0 <= k < |init| ensures init[k] == entries[k] {
      }
      assert !AnyThrows(v.captcha.Some?, init);
      assert last.0 != SlotName;
      SlotsAfterAnswer(v, init, now, j);
      var mid := ApplyAll(v, init, now);
      assert ApplyAll(v, entries, now) == ApplyEntry(mid, last, now);
      assert !Throws(mid.captcha.Some?, last) by {
        assert entries[|entries| - 1] == last;
      }
      ApplyEntrySlot(mid, last, now, j);
      LookupLast(entries, "attachment");
      if last.0 == "attachment" {
        assert !HasKey(init, "attachment");
      }
    }
  }

  /** Focus after the loop: once the loop has run at least one turn to the end,
      the focus is on the first invalid element if there is one, and where it was
      otherwise. */
  lemma {:induction false} FocusAfterAnswer(v: View, entries: seq<(string, Json)>, now: nat)
    requires !ApplyAll(v, entries, now).aborted
    ensures var r := ApplyAll(v, entries, now);
            r.focus == if entries != [] && FirstInvalid(r.fields, r.slots).Some?
                       then FirstInvalid(r.fields, r.slots) else v.focus
    decreases |entries|
  {
    if entries != [] {
      var init := entries[..|entries| - 1];
      var mid := ApplyAll(v, init, now);
      var r := ApplyAll(v, entries, now);
      assert !mid.aborted;
      assert r == ApplyEntry(mid, entries[|entries| - 1], now);
      FocusAfterAnswer(v, init, now);
      NoErrorBefore(mid, r);
    }
  }

  /** Example: the answer `{ "name": "Too short" }`: the fields named `name` are marked with
      that message and nothing else changes but the focus. */
  lemma NameTooShort(v: View, now: nat)
    requires !v.aborted
    ensures var r := ApplyAll(v, [("name", Str("Too short"))], now);
            && r.slots == v.slots && r.captcha == v.captcha
            && forall j :: 0 <= j < |v.fields| ==>
                 r.fields[j] == if v.fields[j].name == "name"
                                then v.fields[j].(state := Error("Too short")) else v.fields[j]
  {
    var entries := [("name", Str("Too short"))];
    assert entries[..0] == [];
  }
}
