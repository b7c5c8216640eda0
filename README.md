# Landing page logic, modelled in Dafny

This project models in Dafny the logic in the scripts of a jQuery landing page for a
software company's vacancies. It leaves out the page's wiring to the DOM and its
animations, and proves properties of what remains:

- **The feedback-form controller `ProcessForm`**, with its configuration-only copy
  `ProcessForm2`. It covers:
  - the file-type check `_validateFileExtension`;
  - the attachment slots and how they grow (`_changeInputFile`);
  - the `data-index` numbering pass (`_changeStateImages`, `_collectData`);
  - local validation (`_validateForm`, `_sendForm`);
  - how a server answer is routed back onto the form (`_success`, `_error`).

  The controller is the class `FeedbackForms.FeedbackForm`. Its fields are the
  configuration and the parts of the form its handlers change. Its methods are proved
  against functions over slot and field sequences (`Attachments`, `FormFields`,
  `ServerResponse`), and the properties of those functions are proved as lemmas. The
  two controllers are one class with two configurations, `FeedbackFormConfig` and
  `FeedbackForm2Config`.
- **The vacancy catalog** (`Vacancies`). It covers:
  - `renderVacancies`: the featured strip, numbered from 1, and the full list with
    closed rows flagged;
  - `openVacancy`: the detail panel, emptied and then filled section by section in
    order;
  - the `vacancy=<id>` query parameter, which a click writes and
    `openVacancyByQueryParameter` reads back;
  - the close handler.

  HTML output is modelled as card, row and section records. The URL is a path and an
  ordered list of query pairs.
- **The data table** (`VacancyData`): the two live entries of `data`, the empty
  `dataHide`, and the `frontendDev`/`pythonDev` key sets of the English and Ukrainian
  translation tables. Lemmas prove the facts the catalog code relies on:
  - distinct ids (4 and 5);
  - `buttonData` equal to the key;
  - both entries featured;
  - the `<prefix>.paragraphN.M` key layout;
  - every key present in both languages.
- **CountUp's `formatNumber`** and its option defaults (`CountUp`). The grouping
  loop rewrites the leftmost match of `/(\d+)(\d{3})/` until none is left. It is
  proved to produce the digits grouped in threes from the right.
- **The phone-field sanitiser** (`PhoneInput`) and **the captcha cache-busting URL**
  (`Captcha`).

Some JavaScript semantics are written out explicitly:

- the `>>> 0` in the extension slice;
- the `i <= length` loop that reads `undefined`;
- `for…in` order, as the order of a sequence;
- `.text(obj)` showing `[object Object]`;
- the exception thrown by `_refreshCaptcha` when a form has no captcha image, which
  ends `_success`'s loop;
- `URLSearchParams.set`/`get`.

Where the code and the intended behaviour differ, the model follows the code:

- **The controller does not reset the form on success.** `_success` only shows the
  success panel. It clears no field and re-enables nothing, so `OnSuccess` leaves
  everything else as it was. The form is reset by the `.btn-cont`/`.btn-v` handlers
  that create the controller: they reset it 500 ms after the click, whatever the
  answer (index.js:419-425 and 450-456). Those handlers are listed under "Left out".
- **A transport failure leaves submit disabled.** `_error` shows the error panel only,
  so the submit button stays disabled from `beforeSend`. Only an answer the server
  rejects re-enables it.
- **The upload reads a hardcoded form.** Each controller's `_sendForm` builds the
  upload from a form it names itself (`#feedback-form` in `ProcessForm`,
  `#feedback-form2` in `ProcessForm2`), not from its `selector` option. With the
  default selectors that is the controller's own form (`Config.uploadForm`,
  `Attachments.EachControllerUploadsItsForm`). `_collectData` runs only as an
  argument expression of `.done(...)`, after that payload exists. So the numbering
  pass renumbers the slots but does not filter what is sent.
- **A new slot follows every choice while there is room.** The test meant to stop
  insertion when a slot already follows looks for a `.custom-files` sibling, and the
  slot template has none. So each chosen file inserts an empty slot right after the
  changed one, for a slot in the middle too, and again when the same file is chosen
  twice (`Attachments.RepeatedChoice`).
- **`$.each` on a string throws.** A non-empty string under `attachment` or `log`
  makes jQuery's `$.each` apply `in` to a string. That throws and ends the loop over
  the answer, just like a `captcha` member on a form without a captcha image.
- **The numbering pass and the change handler disagree.** A slot is left out
  (`data-index = -1`) only when its extension fails *and* its size is strictly under
  the limit. An oversize file is shown as invalid yet numbered, and so is a
  wrong-type file of exactly the limit (`Attachments.NumberingVersusClassification`).

## Model

| member | source | states |
|---|---|---|
| FileExtension.SliceStart | index.js:1377-1379 | `((d - 1) >>> 0) + 2` is `d + 1` for a dot after the first character, and past 2^32 for -1 and 0 |
| FileExtension.ExtensionOfSpec | index.js:1377-1379 | the extension is empty when there is no dot or only a leading one; otherwise it is the dot-free text after the last dot |
| FileExtension.MatchesFromIsMembership | index.js:1382-1386 | the loop to `i <= length` is exactly membership of the lower-cased extension in the allow-list; the extra step reads `undefined` and never matches |
| FileExtension.ValidateFileExtensionIff | index.js:1375-1389 | a file is accepted iff its extension is non-empty and its lower-cased form is on the allow-list |
| FileExtension.ValidateFileExtensionByName | index.js:1375-1389 | in terms of the name: rejected with no dot or only a leading dot, otherwise decided by the lower-cased text after the last dot |
| FileExtension.UpperCaseAccepted | index.js:1383 | `CV.PDF` passes an allow-list holding `pdf`, since only the file's side is lower-cased |
| FileExtension.LeadingDotRejected | index.js:1376-1381 | `.pdf` has no extension and is rejected |
| Attachments.Classify | index.js:1469-1503 | oversize (size above `maxSizeFile*1024*1024`) comes first whatever the type, then wrong type; the file is valid iff within the limit and of an allowed type |
| Attachments.ChangedSlot | index.js:1444-1510 | the decoration is cleared and the file recorded; a chosen file is classified, and a valid one empties the hint, leaving the label as it is; a cleared one gets the "not selected" hint, the label `Выберите файл...` and no error |
| Attachments.EachControllerUploadsItsForm | index.js:1563-1564 | with the default selectors, `ProcessForm` uploads `#feedback-form` and `ProcessForm2` uploads `#feedback-form2` (index.js:2010-2011), two different forms |
| Attachments.AfterChange | index.js:1451-1461 | a new empty slot goes in right after the changed one exactly when a file is chosen and fewer than `data-counts` exist; the slots before are unchanged, and the slots after it stay in place or move up by one |
| Attachments.ChangedSlotIdempotent | index.js:1444-1510 | decorating a slot twice with the same choice gives the same slot |
| Attachments.RepeatedChoice | index.js:1443-1510 | the same choice a second time gives the same decoration; a chosen file inserts one more empty slot after the changed one while there is room, and a cleared selection changes nothing |
| Attachments.SlotCountBounded | index.js:1451-1461 | from at most `data-counts` slots, no sequence of change events makes more |
| Attachments.NumberingIsConsecutive | index.js:1513-1541 | the pass hands out exactly 0, 1, ..., n-1 in slot order, skipping the excluded slots |
| Attachments.NumberingBySlot | index.js:1517-1540 | -1 and `disabled = state` exactly on slots with no file or with a failing extension under the size limit; every other slot gets the count of included slots before it |
| Attachments.NumberingIsInjective | index.js:1534 | two included slots never share an index, so a server message keyed by index names one slot |
| Attachments.NumberingVersusClassification | index.js:1471-1528 | an oversize file, and a wrong-type file of exactly the limit, are marked invalid yet numbered; a slot the pass excludes was marked wrong type |
| Attachments.CollectRestores | index.js:1544-1549 | after the two passes every slot keeps the snapshot's index; excluded slots end enabled and the others keep their flag |
| Attachments.SnapshotHoldsNumberedSlots | index.js:1544-1547 | when all slots start enabled, the snapshot holds exactly the included slots, numbered 0..n-1 |
| FormFields.Validated | index.js:1392-1404 | each checked field (not `type=file`, not `name=agree`) is marked success or error with its validation message; others are untouched |
| FormFields.ValidatedMarksFailures | index.js:1392-1406 | a checked field ends invalid iff it fails its constraints, so the pass fails iff it leaves some checked field invalid |
| FormFields.FirstInvalid | index.js:1554-1556 | the first element marked invalid in document order, fields before slots, or none iff nothing is invalid |
| FormFields.FailedValidationHasFocus | index.js:1553-1557 | after a failed pass there is an invalid field to focus |
| Captcha.JoinPrefix | index.js:1353 | `&rnd=` exactly when `data-src` contains `?id`, `?rnd=` otherwise |
| Captcha.CaptchaUrl | index.js:1350-1356 | the new `src` is `data-src`, the joiner, and a decimal timestamp that reads back as the clock value |
| Captcha.CaptchaUrlBustsCache | index.js:1354 | two different times give two different URLs |
| ServerResponse.Lookup | index.js:1629 | a member is found iff the answer has a member of that name |
| ServerResponse.MarkFields | index.js:1673-1678 | exactly the fields with the member's name are marked invalid with its message |
| ServerResponse.MarkSlotsNamed | index.js:1648-1678 | a `[name=...]` selector reaches the attachment slots only when the name is `attachment[]` |
| ServerResponse.MarkByName | index.js:1673-1678 | marking by name moves neither the focus nor the captcha |
| ServerResponse.MarkAttachments | index.js:1655-1666 | a slot is marked with the message keyed by its `data-index`; other slots, and a string value (only the empty one reaches it), mark nothing |
| ServerResponse.AnyThrowsSnoc | index.js:1642-1684 | a member list throws somewhere iff its prefix does or its last member does |
| ServerResponse.ApplyEntry | index.js:1642-1684 | one turn of the loop never clears a mark and keeps names and indices; it throws iff a `captcha` member meets a form with no captcha image or an `attachment`/`log` member holds a non-empty string, and a throwing turn changes nothing; otherwise the focus moves to the first invalid element when there is one |
| ServerResponse.ApplyAll | index.js:1642-1684 | over all members the same holds, and the loop stops early iff some member's turn throws |
| ServerResponse.FieldsAfterAnswer | index.js:1642-1684 | a field named by a member ends marked with that member's message; every other field is unchanged |
| ServerResponse.SlotsAfterAnswer | index.js:1655-1666 | a slot whose `data-index` keys the `attachment` object ends marked with that message; every other slot is unchanged |
| ServerResponse.FocusAfterAnswer | index.js:1680-1683 | after the loop the focus is on the first invalid element if there is one, where it was otherwise |
| ServerResponse.NameTooShort | index.js:1673-1678 | `{ name: "Too short" }` marks the `name` fields and changes no slot and no captcha |
| FeedbackForms.FeedbackForm.constructor | index.js:1301-1320 | the controller starts with the given configuration and form, nothing focused, submit enabled, both panels hidden |
| FeedbackForms.FeedbackForm.SetIsCaptcha | index.js:1327-1329 | only `isCaptcha` changes |
| FeedbackForms.FeedbackForm.SetIsAgreement | index.js:1330-1332 | only `isAgreement` changes |
| FeedbackForms.FeedbackForm.SetIsAttachments | index.js:1333-1335 | only `isAttachments` changes |
| FeedbackForms.FeedbackForm.Init | index.js:1693-1699 | the three flags follow the form's sections and every other option is kept |
| FeedbackForms.FeedbackForm.ChangeAgreement | index.js:1702-1708 | submit is disabled exactly while the agreement box is unchecked |
| FeedbackForms.FeedbackForm.RefreshCaptcha | index.js:1350-1356 | the image's `src` becomes the cache-busting URL; with no image nothing changes |
| FeedbackForms.FeedbackForm.ChangeInputFile | index.js:1443-1510 | the slots become `AfterChange` of the old ones when the form has attachments (also index.js:1729-1739) |
| FeedbackForms.FeedbackForm.ValidateForm | index.js:1392-1406 | the fields become `Validated` of the old ones and the result is `AllValid` |
| FeedbackForms.FeedbackForm.ChangeStateImages | index.js:1513-1541 | the slots become `Numbered(old slots, config, state)`; nothing changes without an attachment block |
| FeedbackForms.FeedbackForm.CollectData | index.js:1544-1549 | the snapshot is the enabled slots of the first pass, and the slots end as the second pass leaves them |
| FeedbackForms.FeedbackForm.SendForm | index.js:1552-1611 | a failed pass focuses the first invalid field and sends nothing; otherwise the error panel is hidden, submit disabled, the payload is the enabled slots when the selector names the form the controller uploads (both default configurations do), and the slots are renumbered |
| FeedbackForms.FeedbackForm.OnSuccess | index.js:1615-1686 | `result: "success"` shows the success panel and changes nothing else; any other answer shows the error panel, re-enables submit and leaves the form as `ApplyAll` says |
| FeedbackForms.FeedbackForm.ApplyAnswer | index.js:1642-1685 | the `for…in` loop leaves the form as `ApplyAll` over the members |
| FeedbackForms.FeedbackForm.ApplyMember | index.js:1643-1684 | one turn of the `switch` leaves the form as `ApplyEntry` says |
| FeedbackForms.FeedbackForm.OnError | index.js:1688-1690 | a transport failure shows the error panel |
| FeedbackForms.AbortedStays | index.js:1350-1353 | once a turn has thrown, the members after it change nothing (also index.js:1647-1649) |
| Vacancies.Find | index.js:1059 | `data[key]` finds an entry iff the key is in the table, and then it is that key's entry |
| Vacancies.FindAt | index.js:1065 | with distinct keys, the `k`-th key looks up the `k`-th entry |
| Vacancies.ActiveVacancies | index.js:1130 | only featured entries (`!closeVac && visibility`), and no more values than the table has entries |
| Vacancies.ActiveVacanciesAppend | index.js:1130 | the strip of two tables joined is the first strip followed by the second: the filter keeps table order |
| Vacancies.ActiveVacanciesSingle | index.js:1130 | one entry shows exactly when it is featured; with the previous row, the strip is the featured entries, each once, in table order |
| Vacancies.ActiveVacanciesExact | index.js:1130 | an entry is on the strip iff the table holds it and it is featured |
| Vacancies.GetParam | index.js:1087 | `get` finds nothing iff no pair has the name |
| Vacancies.SetThenGet | index.js:1058-1060 | after `set`, `get` reads the value set, every pair of that name holds it, and no other parameter changes |
| Vacancies.Contents | index.js:1065-1078 | `.need` holds one section per `inside` entry, in order |
| Vacancies.Matching | index.js:1089-1093 | only entries with the parameter's id that are not closed |
| Vacancies.MatchingUnique | index.js:1089-1093 | with distinct ids, an open entry is the only one its id matches |
| Vacancies.Page.constructor | index.js:1129 | the page starts with empty lists, a closed panel and the given URL |
| Vacancies.Page.RenderVacancies | index.js:1129-1195 | the strip gets one card per featured entry, numbered from 1; the list gets one row per entry with closed rows flagged; earlier content is kept |
| Vacancies.Page.RenderFeatured | index.js:1130-1152 | card `i` shows the `i`-th featured entry with number `i + 1` |
| Vacancies.Page.RenderList | index.js:1154-1194 | row `k` shows the `k`-th entry, flagged when it is closed |
| Vacancies.Page.Show | index.js:1063-1081 | `.need` is emptied and refilled with the sections in order; title and description keys are set when there is a section; the panel opens |
| Vacancies.Page.OpenVacancy | index.js:1055-1082 | an unknown key throws (by a click before anything changes, otherwise after `.need` is emptied); a click writes `vacancy=<id>`; a known key shows its entry |
| Vacancies.Page.OpenByQueryParameter | index.js:1085-1095 | with a non-empty decimal `vacancy` parameter, every open entry with that id is shown in table order; otherwise nothing changes; the URL is kept |
| Vacancies.Page.CloseDesc | index.js:1118-1126 | the URL becomes `/` with no `vacancy` parameter, `.need` is emptied and the panel closed |
| Vacancies.ClickThenReload | index.js:1057-1095 | the parameter a click writes reads back as the entry's id, and reloading shows exactly that entry |
| Strings.ParseNatToString | index.js:1090 | a written id (index.js:1059) is read back by `+vacancy` as the same number |
| VacancyData.IdsAreUnique | data.js:124-178 | the table's keys are distinct and so are its ids, 4 and 5 |
| VacancyData.ButtonDataIsKey | data.js:124-185 | each entry's `buttonData` is its key, so looking it up finds that entry |
| VacancyData.BothFeatured | data.js:133-187 | the strip holds both entries, in table order, and no row is flagged closed |
| VacancyData.HiddenTableEmpty | data.js:347-413 | `dataHide` has no entry under any key |
| VacancyData.EntriesFollowKeyLayout | data.js:124-225 | both entries have their text keys under their prefix and sections `paragraph1..3`, each with a `.title` key and non-empty bullets `<prefix>.paragraphN.1..M` |
| VacancyData.LocaleKeysResolve | index.js:2277-2353 | every key an entry puts on the page is in both the English and the Ukrainian table (also index.js:2444-2520) |
| CountUp.Normalise | index.js:60-74 | defaults overridden member by member; grouping is off exactly when not asked for or with an empty separator; prefix and suffix default to `""` |
| CountUp.DefaultOptions | index.js:60-65 | with no options: easing, grouping with `,` and `.`, no prefix or suffix |
| CountUp.NormaliseIdempotent | index.js:67-74 | normalising the result again changes nothing |
| CountUp.FirstMatch | index.js:212-214 | the leftmost position where four digits start, or none iff there is none |
| CountUp.GroupKeepsDigits | index.js:213-217 | dropping the separators from the grouped digits gives the digits back |
| CountUp.GroupLength | index.js:213-217 | one separator between neighbouring groups of three, the leading group one to three digits |
| CountUp.GroupHasNoMatch | index.js:214 | the grouped text no longer matches, so the loop stops there |
| CountUp.PartialMatch | index.js:214-215 | during the loop the match is at the head exactly while it has four digits or more, and spans the whole head |
| CountUp.PartialStep | index.js:215 | one replacement moves one group of three out of the head |
| CountUp.GroupDigits | index.js:213-217 | the loop ends with the sign followed by the digits grouped in threes from the right |
| CountUp.FormatNumber | index.js:205-219 | prefix, sign, grouped (or plain) integer digits, decimal mark and fraction if any, suffix |
| CountUp.SplitShape | index.js:209-210 | the text before the first dot is the sign and the integer digits |
| CountUp.GroupExample | index.js:213-217 | `1234567` with `,` becomes `1,234,567` |
| PhoneInput.KeepAllowed | index.js:393 | only digits, commas and plus signs remain, and a text of those only is unchanged |
| PhoneInput.KeepAllowedAppend | index.js:393 | the filter works character by character: filtering a joined text joins the filtered parts |
| PhoneInput.KeepAllowedSingle | index.js:393 | a character is kept exactly when it is a digit, `,` or `+`; with the previous row, every allowed character stays, in place |
| PhoneInput.Sanitise | index.js:391-395 | the result holds only allowed characters, and an all-digit value is left as it is |
| PhoneInput.SanitiseIsFilter | index.js:391-395 | the all-digits shortcut gives what the filter would, so the value is always the filtered text |
| PhoneInput.SanitiseKeepsDigits | index.js:391-395 | no digit is dropped or reordered |
| PhoneInput.KeepAllowedRemoves | index.js:393 | filtering shortens the value exactly when it holds a disallowed character |
| PhoneInput.SanitiseIdempotent | index.js:391-395 | running the handler again changes nothing |
| PhoneInput.SanitiseExample | index.js:391-395 | `+3 8` becomes `+38` |

## Left out

- CountUp's animation (`requestAnimationFrame`, easing, `start`, `pauseResume`, `reset`, `update`) and `toFixed`: timers and floating point. `FormatNumber` takes the text `toFixed` produced, so exponent forms are not covered.
- CountUp.FormatNumber: requires a separator with no digit and no `$`. With a digit in it the source's loop need not end, and `$` is special in a replacement string.
- The Swiper carousels, scroll and resize handlers, `positionPagination` and the timed slide chains: layout and timing, not logic.
- The ajax request, the XHR progress bar and its percentage: network I/O and a floating-point percentage. `SendForm` returns the payload instead.
- The jQuery Validate rules, `checkFileInput`, `checkFileInput2` and the `.btn-cont`/`.btn-v` handlers: a foreign plugin and class toggling outside the controller.
- i18next and `replaceTexts`: a foreign library. The translation tables appear only as key sets, and every translated text is left out.
- `randomLinearGradient`, because it is random. The HTML templates' literal text is left out too: cards, rows and sections are records.
- `$(this).addClass("btn-vac-close")` in `renderVacancies`: `this` is the window there, and the class lands on no row.
- `_showForm` (the reload link): it resets the form through DOM calls only. `ProcessForm2`'s own `init` copy adds nothing beyond its configuration.
- The close handler's reset of `.form-v` and its class and text clean-up: they touch another form, not the catalog.
- The `.link-vak-hide` click handler: its table `dataHide` is empty (`VacancyData.HiddenTableEmpty`), so it has nothing to show.
- Vacancies.ParamId: reads only decimal numerals. Forms like `" 4"`, `"0x4"` or `"4.0"` are numbers to `+vacancy` and match no entry here. The click handler only ever writes decimal ids.
- Vacancies.Page.OpenVacancy: the query string is kept as name/value pairs. Its serialisation into `location.search` is not modelled.
- ServerResponse.Json: holds strings and objects of strings only. Three kinds of server answer are not modelled. The first is a member value that is a number, `null` or an array. The second is an answer that is not a JSON object: `for…in` over a string walks its indices. The third is a member name that makes the `[name="…"]` selector at index.js:1674 invalid, such as one holding `"`: jQuery throws there and the loop ends, as it does on the captcha throw.
- FeedbackForms.FeedbackForm.ChangeInputFile: tests `isAttachments` when the change event fires. The source tests it once, when `_setupListener` binds the handler at `init` (index.js:1729). The two differ only if `setIsAttachments` runs after `init`.
- `for…in` over an answer visits integer-like keys first in JavaScript. The model takes the members in the order given.
- ServerResponse.ApplyEntry: follows jQuery 1.9 and later, where `$.each` on a non-empty string throws. jQuery 1.8 and earlier would walk the string's characters, marking slots `0` to `n-1`. The jQuery version is not part of this model.
- Strings.Lower: lower-cases ASCII letters only. `toLowerCase` on other letters is not modelled.
- Attachments.Config: `maxSizeFile` is kept as whole kilobytes (5.5 MB is 5632 KB). A fractional kilobyte limit is not representable.
- Attachments.AfterChange: takes the `.custom-files` test to pass for every slot. The slot template has no such element, and the static page markup is not part of this model.
- FormFields.FirstInvalid: takes document order to be the fields, then the attachment block.
- A slot's `<label>` and hint `<p>` are modelled as optional texts, not as elements. The inserted template has the label and no hint paragraph.
