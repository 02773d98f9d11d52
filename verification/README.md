# BootstrapValidator core in Dafny

This project models the core of BootstrapValidator 0.5.0-dev, the jQuery plugin that validates
Bootstrap forms (`dist/js/bootstrapValidator.js`). The model has two halves.

**Status machine and orchestration** (modules `Form`, `Orchestrator`, `Aggregator`,
`Lifecycle`, `Handles`). The plugin keeps one status per (element, validator) pair:
NOT_VALIDATED, VALIDATING, VALID or INVALID. A `State` holds:
- the registered fields, in registration order;
- the status store;
- the stored pending handles (`bv.dfs.<validator>`);
- the callbacks still armed, that is, registered on a handle that was neither rejected nor fired;
- the form-wide flags `$invalidField`, `$submitButton`, `_submitIfValid` and `live`.

A validator is an oracle. For a pair it answers with a boolean, with a pending handle, or with a
handle that was already resolved when it was returned. It may also force another field's
same-named binding to VALID, as `identical` and `different` do. The covered operations are:
- `validateFieldElement`, `validateField` and `validate`;
- the `done` callback of a handle;
- `updateStatus` and `updateElementStatus`;
- `isValid` and `_submit`;
- initialisation (`_init`, `_initField`);
- the value-change, submit-click and live handlers;
- `resetForm` and `enableFieldValidators`.

**Pure validators** (modules `Chars`, `Luhn`, `Sirene`, `Cards`, `Isbn`, `Iban`, `Date`, `Vin`,
`Formats`, `Postal`, `Counts`, `VatSums`, `VatWeighted`, `VatComposite`, `Vat`). These are:
- the Luhn helper, `creditCard` and `cvv`;
- `isbn`, `iban`, `date` and `vin`;
- `siren` and `siret`;
- `stringLength` and `choice`;
- `integer`, `digits`, `hex`, `hexColor`, `mac` and `uuid`;
- `zipCode` and `phone`;
- the 32 per-country routines of `vat`, and its dispatch on the `country` option.

Each validator is a predicate on the input string that follows the source's branches, regular
expressions and constants. The source uses JavaScript arithmetic in places; where that differs
from Dafny's, it is written out:
- `%` truncates toward zero (`Chars.JsRem`);
- `parseInt` knows ASCII digits only;
- `\s` is ECMAScript white space.

Loops of the source become methods with loop invariants, or recursive functions, and each is
related by a lemma to an independent reference definition. Examples of such references:
- the Luhn sum for SIRET;
- the MOD 97-10 number for IBAN;
- a regular-expression reading of the US zip code;
- set cardinality for `choice`.

For check-digit schemes the model proves error detection. Under the condition stated in each
row, changing one digit of an accepted number makes it rejected.

## Model

| member | source | states |
|---|---|---|
| Form.UpdateElementStatus | dist/js/bootstrapValidator.js:588-604 | the named validator (or every validator of the field when none is named) gets the new status on this element, and no other (element, validator) status and nothing else in the state changes |
| Form.UpdateStatus | dist/js/bootstrapValidator.js:568-578 | every element the field counts (one for a radio or checkbox group) gets the status for the named validators, and every other status is unchanged |
| Orchestrator.Reject | dist/js/bootstrapValidator.js:521-524 | rejecting the stored handle of a pair disarms exactly that handle's callback; with no stored handle nothing changes; well-formedness is kept |
| Orchestrator.Write | dist/js/bootstrapValidator.js:552-553 | with `updateAll` every counted element of the field gets the status for this validator, otherwise only this element does; statuses of other validators and of other fields are untouched |
| Orchestrator.Force | dist/js/bootstrapValidator.js:1673-1675 | a validator that forces another field sets that field's same-named status to VALID on all its counted elements and touches no other validator's status |
| Orchestrator.Settle | dist/js/bootstrapValidator.js:540-550 | the `done` callback of a handle keeps the form well formed and leaves fields, flags and the call trace alone; a handle whose callback is not armed (rejected or fired) changes nothing |
| Orchestrator.SettleEffect | dist/js/bootstrapValidator.js:540-550 | an armed callback firing disarms itself, removes the stored handle of its pair, writes VALID or INVALID for its validator only (on the element or the whole field as recorded), and submits the form exactly when the answer is true and `_submitIfValid` is set |
| Orchestrator.Start | dist/js/bootstrapValidator.js:535-538 | a pending answer marks the validator VALIDATING on every counted element of the field under `updateAll`, on this element otherwise; it stores a fresh handle for the pair and arms its callback with the element and `updateAll` flag |
| Orchestrator.StartSettled | dist/js/bootstrapValidator.js:535-550 | a handle resolved before it is returned fires its callback at once: the final status is the verdict, and no handle stays stored or armed for the pair |
| Orchestrator.Apply | dist/js/bootstrapValidator.js:533-554 | a boolean answer (or a handle already resolved) leaves VALID/INVALID, a pending handle leaves VALIDATING, in both cases on every counted element under `updateAll` and on this element otherwise; a pending handle is stored and armed; stored handles of other pairs are unchanged |
| Orchestrator.Check | dist/js/bootstrapValidator.js:521-554 | one pass of the validator loop: the old handle is always rejected; a pair already VALID or INVALID is skipped and not invoked; otherwise the validator is invoked once (recorded in the trace), and a boolean answer leaves VALID/INVALID while a pending one leaves VALIDATING, on every counted element under `updateAll` and on this element otherwise |
| Orchestrator.Invoke | dist/js/bootstrapValidator.js:532-554 | a validator not yet VALID or INVALID is invoked once (recorded in the trace); a boolean answer leaves VALID/INVALID and a pending one VALIDATING, on every counted element under `updateAll` and on this element otherwise; it can arm no handle but the next fresh one |
| Orchestrator.PendingFrame | dist/js/bootstrapValidator.js:526-530 | which validators of an element still need running depends only on the element's statuses, not on the rest of the state |
| Orchestrator.ValidateFrom | dist/js/bootstrapValidator.js:521-555 | running the loop from a position invokes exactly the validators not yet settled, in configuration order, and keeps the form well formed |
| Orchestrator.ValidateFromKeepsKey | dist/js/bootstrapValidator.js:521-555 | the loop from a position never changes the status of a validator that does not occur at or after that position of the field's configuration |
| Orchestrator.ValidateFromOthers | dist/js/bootstrapValidator.js:521-555 | validating an element never changes the status of a validator that is not configured on its field |
| Orchestrator.KeepsSettledHere | dist/js/bootstrapValidator.js:526-530 | a validator already VALID or INVALID on the element keeps its status through the whole loop |
| Orchestrator.ValidateFromKeepsSettled | dist/js/bootstrapValidator.js:526-530 | the same for a settled validator at any later position of the loop: its status survives the validators before it |
| Orchestrator.ValidateFromLands | dist/js/bootstrapValidator.js:551-554 | after the loop, every validator that was not settled and answered with a boolean on this element holds that boolean's verdict there, with or without `updateAll` (an `updateAll` pass runs on a counted element, as `validateField` ensures) |
| Orchestrator.ValidateFieldElement | dist/js/bootstrapValidator.js:510-558 | a disabled field or an excluded element leaves the state unchanged; otherwise the unsettled validators are invoked in order; statuses of unconfigured validators never change |
| Orchestrator.ValidateElements | dist/js/bootstrapValidator.js:496-498 | validating the counted elements one after another keeps the form well formed and the other validators' statuses unchanged |
| Orchestrator.ValidateField | dist/js/bootstrapValidator.js:491-501 | `validateField` keeps well-formedness and other validators' statuses; for a disabled field it changes nothing |
| Orchestrator.ValidateFieldElementsDisabled | dist/js/bootstrapValidator.js:517-519 | on a disabled field, the element loop of `validateField` is the identity |
| Orchestrator.ValidateFields | dist/js/bootstrapValidator.js:473-475 | validating every field in order keeps the form well formed with the same fields |
| Orchestrator.Validate | dist/js/bootstrapValidator.js:467-483 | `validate` runs every field, then submits exactly when a submit button was clicked and the form is valid afterwards |
| Orchestrator.LiveTrigger | dist/js/bootstrapValidator.js:431-436 | a live event does nothing unless live mode is enabled; then it validates the whole field when it updates all its elements, and the element alone otherwise |
| Aggregator.ScanValidators | dist/js/bootstrapValidator.js:689-698 | the inner walk reports all-valid exactly when every remaining validator of the element is VALID, else the first one that is not |
| Aggregator.ScanElements | dist/js/bootstrapValidator.js:683-700 | the element walk reports all-valid exactly when every visited, non-excluded element is good, else the first bad position in walk order |
| Aggregator.ScanFields | dist/js/bootstrapValidator.js:674-701 | the field walk reports all-valid exactly when every checked position of the enabled fields is VALID, else the first bad one |
| Aggregator.IsValid | dist/js/bootstrapValidator.js:670-704 | `isValid` is true exactly when every checked status is VALID; it changes only `$invalidField`, set to the first bad element when that status is INVALID and left alone when it is NOT_VALIDATED or VALIDATING |
| Aggregator.FormValidFrame | dist/js/bootstrapValidator.js:670-704 | form validity depends only on the fields and the status store |
| Aggregator.FirstBadUnique | dist/js/bootstrapValidator.js:689-698 | the position that stops the walk is unique |
| Aggregator.Submit | dist/js/bootstrapValidator.js:340-368 | `_submit` submits exactly when the form is valid; when it is not, live mode `submitted` becomes `enabled`; only `$invalidField`, the live mode and the submit count can change |
| Lifecycle.Known | dist/js/bootstrapValidator.js:242-246 | the validators kept for a field are exactly the configured ones that are registered |
| Lifecycle.KnownNoDup | dist/js/bootstrapValidator.js:242-246 | the kept validator names have no duplicates |
| Lifecycle.InitField | dist/js/bootstrapValidator.js:230-307 | a field without elements is dropped; otherwise it keeps its elements, kind and name, only registered validators, and is enabled unless configured `enabled: false` |
| Lifecycle.Kept | dist/js/bootstrapValidator.js:237-241 | the kept positions are strictly increasing positions of configured fields that have elements |
| Lifecycle.KeptExactly | dist/js/bootstrapValidator.js:237-241 | a configured field is kept exactly when it has elements |
| Lifecycle.InitFieldsKeepsEvery | dist/js/bootstrapValidator.js:218-220 | every configured field with elements is among the initialised fields |
| Lifecycle.InitFields | dist/js/bootstrapValidator.js:218-220 | the initialised field list is well formed and is, in configuration order, the initialisation of exactly the configured fields that have elements |
| Lifecycle.Init | dist/js/bootstrapValidator.js:126-223 | after initialisation every tracked pair is NOT_VALIDATED and nothing else has a status, no handle is stored or armed, and the flags are cleared |
| Lifecycle.InitValidity | dist/js/bootstrapValidator.js:275-276 | a freshly initialised form is valid exactly when no position is checked |
| Lifecycle.ValueChange | dist/js/bootstrapValidator.js:265-271 | a value change clears `_submitIfValid` and resets to NOT_VALIDATED the element's validators, or all the field's when it updates all; every other status is unchanged |
| Lifecycle.ValueChangeInvalidates | dist/js/bootstrapValidator.js:265-271 | after a value change on an enabled field with a validator and a non-excluded element, the form is not valid |
| Lifecycle.SubmitClick | dist/js/bootstrapValidator.js:158-162 | clicking a submit button records it and sets `_submitIfValid`, and changes nothing else |
| Lifecycle.ResetFields | dist/js/bootstrapValidator.js:726-743 | the reset loop sets every tracked pair of the remaining fields to NOT_VALIDATED and leaves other statuses alone |
| Lifecycle.ResetForm | dist/js/bootstrapValidator.js:724-752 | `resetForm` makes every tracked status NOT_VALIDATED and forgets their stored handles without disarming their callbacks; it clears `$invalidField` and `$submitButton` but keeps `_submitIfValid` and the live mode |
| Lifecycle.EnableFieldValidators | dist/js/bootstrapValidator.js:761-766 | only the field's `enabled` flag changes, and its tracked pairs become NOT_VALIDATED; other fields and statuses are unchanged |
| Lifecycle.DisabledFieldIgnored | dist/js/bootstrapValidator.js:675-677 | after disabling a field, the form is valid exactly when every checked position of the other fields is VALID |
| Handles.OneLiveHandlePerPair | dist/js/bootstrapValidator.js:521-524 | under the handle invariant, no two armed callbacks belong to the same (element, validator) pair |
| Handles.InitHandles | dist/js/bootstrapValidator.js:126-223 | initialisation establishes the handle invariant |
| Handles.StartHandles | dist/js/bootstrapValidator.js:535-538 | storing a fresh handle keeps the invariant when the pair's previous handle is disarmed |
| Handles.SettleHandles | dist/js/bootstrapValidator.js:540-542 | a callback firing keeps the invariant |
| Handles.RejectHandles | dist/js/bootstrapValidator.js:521-524 | rejecting keeps the invariant and disarms the pair's stored handle |
| Handles.InvokeHandles | dist/js/bootstrapValidator.js:532-554 | invoking a validator and applying its answer keeps the invariant once the old handle is disarmed |
| Handles.CheckHandles | dist/js/bootstrapValidator.js:521-554 | one pass of the validator loop keeps the invariant and never leaves the pair's old handle armed |
| Handles.CheckStoresFresh | dist/js/bootstrapValidator.js:535-538 | a pending answer stores the fresh handle for the pair, with its callback armed for that pair |
| Handles.ValidateFromHandles | dist/js/bootstrapValidator.js:521-555 | the validator loop keeps the invariant |
| Handles.ValidateFieldElementHandles | dist/js/bootstrapValidator.js:510-558 | `validateFieldElement` keeps the invariant |
| Handles.ValidateElementsHandles | dist/js/bootstrapValidator.js:496-498 | the element loop keeps the invariant |
| Handles.ValidateFieldHandles | dist/js/bootstrapValidator.js:491-501 | `validateField` keeps the invariant |
| Handles.ValidateFieldsHandles | dist/js/bootstrapValidator.js:473-475 | the field loop keeps the invariant |
| Handles.ValidateHandles | dist/js/bootstrapValidator.js:467-483 | `validate` keeps the invariant |
| Handles.LiveTriggerHandles | dist/js/bootstrapValidator.js:431-436 | a live event keeps the invariant |
| Handles.EventsKeepHandles | dist/js/bootstrapValidator.js:265-271 | value change, submit click, `enableFieldValidators` and `_submit` keep the invariant |
| Handles.FirstPass | dist/js/bootstrapValidator.js:535-538 | on a one-field form with a pending validator, the first validation arms exactly one callback, for handle 0 |
| Handles.ResetForgets | dist/js/bootstrapValidator.js:730-734 | `resetForm` then forgets the stored handle but leaves callback 0 armed, and marks the pair NOT_VALIDATED |
| Handles.SecondPass | dist/js/bootstrapValidator.js:521-538 | validating again arms a second callback for the same pair, and the handle invariant no longer holds |
| Handles.ResetLeavesTwoLiveCallbacks | dist/js/bootstrapValidator.js:724-752 | validate, reset, validate leaves two live callbacks for one pair, although the form was well formed and satisfied the invariant at the start |
| Handles.LateAnswers | dist/js/bootstrapValidator.js:540-545 | with both callbacks live, the one that fires last decides the status |
| Handles.StaleResultAfterResetWins | dist/js/bootstrapValidator.js:540-545 | after validate, reset, validate, the stale request from before the reset answering last overrides the current request's INVALID with VALID |
| Luhn.Prod | dist/js/bootstrapValidator.js:801-813 | a digit's contribution is one digit, and zero only for zero |
| Luhn.ProdInjective | dist/js/bootstrapValidator.js:801-813 | distinct digits contribute distinctly, whether doubled or not |
| Luhn.LuhnCheck | dist/js/bootstrapValidator.js:801-813 | the loop of `helpers.luhn` accepts exactly the numbers whose right-to-left doubled sum is a positive multiple of ten |
| Luhn.SumZero | dist/js/bootstrapValidator.js:801-813 | the sum is zero exactly for an all-zero number |
| Luhn.ZerosRejected | dist/js/bootstrapValidator.js:801-813 | an all-zero number is rejected by the positivity test |
| Luhn.SumReplace | dist/js/bootstrapValidator.js:801-813 | replacing one digit changes the sum by the difference of the two digits' contributions at that position |
| Luhn.SingleDigitErrorDetected | dist/js/bootstrapValidator.js:801-813 | changing any one digit of an accepted number makes it rejected |
| Luhn.CheckDigit | dist/js/bootstrapValidator.js:801-813 | the computed check digit is a digit |
| Luhn.CheckDigitCompletes | dist/js/bootstrapValidator.js:801-813 | appending a digit gives an accepted number exactly when it is the computed check digit and the sum is positive |
| Sirene.SirenCheck | dist/js/bootstrapValidator.js:2076-2086 | `siren` accepts the empty input, or exactly nine digits that pass Luhn |
| Sirene.SirenTypoRejected | dist/js/bootstrapValidator.js:2076-2086 | a single-digit change of an accepted SIREN is rejected |
| Sirene.SiretCheck | dist/js/bootstrapValidator.js:2100-2120 | `siret` accepts the empty input, or all digits whose left-to-right doubled sum is a multiple of ten |
| Sirene.SiretSumIsLuhnSum | dist/js/bootstrapValidator.js:2100-2120 | the SIRET sum (doubling from the left) is the Luhn sum of the same digits (doubling from the right) whenever the length is even |
| Sirene.SiretIsLuhnOrZeros | dist/js/bootstrapValidator.js:2100-2120 | for an even-length number, `siret` accepts exactly the Luhn-valid numbers plus the all-zero ones |
| Sirene.ZerosPassSiret | dist/js/bootstrapValidator.js:2100-2120 | an all-zero number has SIRET sum zero, so `siret` accepts it although Luhn rejects it |
| Cards.MatchesType | dist/js/bootstrapValidator.js:953-1037 | the prefix-and-length loop for one card type agrees with the table's description of that type |
| Cards.FindFit | dist/js/bootstrapValidator.js:953-1037 | the loop over card types finds a fit exactly when some type fits |
| Cards.LastFit | dist/js/bootstrapValidator.js:1057-1147 | the card type `cvv` settles on is a type that fits, and there is none exactly when no type fits |
| Cards.FindLastFit | dist/js/bootstrapValidator.js:1057-1147 | the loop that keeps the last fitting type computes that type |
| Chars.StripNonDigits | dist/js/bootstrapValidator.js:963 | removing every character that is not a digit leaves only digits, and never lengthens the input |
| Chars.StripKeepsDigits | dist/js/bootstrapValidator.js:1963 | a string that is all digits is left unchanged by stripping |
| Cards.CreditCardCheck | dist/js/bootstrapValidator.js:953-1037 | the method accepts exactly when the cleaned number passes Luhn and fits some card type |
| Cards.SeparatorsIgnored | dist/js/bootstrapValidator.js:953-1037 | spaces and dashes in an allowed input do not change the verdict |
| Cards.CvvCheck | dist/js/bootstrapValidator.js:1057-1147 | the method agrees with `cvv`: three digits, or four for American Express, when the card's type is known |
| Cards.AmexNeedsFour | dist/js/bootstrapValidator.js:1057-1147 | an American Express number is identified as such, so its CVV must have four digits |
| Isbn.GroupCount | dist/js/bootstrapValidator.js:1759-1818 | a grouped form has at least one group |
| Isbn.Detect | dist/js/bootstrapValidator.js:1759-1818 | ten plain characters are read as ISBN-10, and ISBN-13 is chosen only for a plain or a hyphen- or space-grouped 13-digit form |
| Isbn.DigitOf | dist/js/bootstrapValidator.js:1759-1818 | `parseInt` of one character yields a number exactly for a digit |
| Isbn.Sum10 | dist/js/bootstrapValidator.js:1759-1818 | the ISBN-10 weighted sum is a number exactly when the characters summed are digits |
| Isbn.Sum13 | dist/js/bootstrapValidator.js:1759-1818 | the ISBN-13 weighted sum is a number exactly when the characters summed are digits |
| Isbn.IsbnValid | dist/js/bootstrapValidator.js:1759-1818 | the empty input passes, and an accepted input has a recognised form |
| Isbn.Isbn10Reference | dist/js/bootstrapValidator.js:1759-1818 | the check character test of the source is the ISO 2108 rule: the weighted sum including the check value (X = 10) is a multiple of 11 |
| Isbn.CheckChar10Value | dist/js/bootstrapValidator.js:1759-1818 | the computed check character is the character whose value completes the sum to a multiple of 11 |
| Isbn.Isbn13Reference | dist/js/bootstrapValidator.js:1759-1818 | the ISBN-13 test is the ISO 2108 rule: all digits with the 1-3 weighted sum a multiple of 10 |
| Isbn.PlainIsbn10 | dist/js/bootstrapValidator.js:1759-1818 | a plain ten-character input is accepted exactly under the ISBN-10 rule |
| Isbn.PlainIsbn13 | dist/js/bootstrapValidator.js:1759-1818 | a plain 13-character input is accepted exactly under the ISBN-13 rule |
| Isbn.CleanGroups | dist/js/bootstrapValidator.js:1770-1771 | cleaning `k` digit groups keeps only their digits: one separator between each pair of groups is dropped |
| Isbn.PlainSelfJudged | dist/js/bootstrapValidator.js:1769-1790 | a plain form is its own cleaning, so it is judged by the check of its kind |
| Isbn.Grouped10Clean | dist/js/bootstrapValidator.js:1770-1771 | a hyphen- or space-grouped ISBN-10 cleans to ten characters of the plain form |
| Isbn.GroupedIsbn10 | dist/js/bootstrapValidator.js:1770-1771 | a grouped ISBN-10 is judged exactly as its cleaned plain form: the ISO 2108 check on the ten remaining characters |
| Isbn.Grouped13Clean | dist/js/bootstrapValidator.js:1775-1776 | a hyphen- or space-grouped ISBN-13 cleans to 13 characters of the plain form |
| Isbn.GroupedIsbn13 | dist/js/bootstrapValidator.js:1775-1776 | a grouped ISBN-13 is judged exactly as its cleaned plain form: the EAN-13 check on the 13 remaining characters |
| Isbn.DocumentedCheck10 | dist/js/bootstrapValidator.js:1759-1818 | 99921-58-10-7 passes the ISBN-10 check |
| Isbn.DocumentedCheck10Fails | dist/js/bootstrapValidator.js:1759-1818 | the same number with check digit 6 fails |
| Isbn.DocumentedCheck10X | dist/js/bootstrapValidator.js:1759-1818 | 0-8044-2957-X passes with the check character X |
| Isbn.DocumentedCheck13 | dist/js/bootstrapValidator.js:1759-1818 | 978-0-306-40615-7 passes the ISBN-13 check |
| Isbn.DocumentedCheck13Fails | dist/js/bootstrapValidator.js:1759-1818 | the same number with check digit 6 fails |
| Iban.Normalize | dist/js/bootstrapValidator.js:1529-1643 | stripping non-alphanumerics and upper casing leaves only capital letters and digits |
| Iban.Code | dist/js/bootstrapValidator.js:1626-1642 | a letter becomes the two digits of its value 10 to 35, and a digit stays itself |
| Iban.ExpandConcat | dist/js/bootstrapValidator.js:1626-1642 | letter replacement distributes over concatenation |
| Iban.ExpandDigits | dist/js/bootstrapValidator.js:1626-1642 | after letter replacement only digits remain |
| Iban.Mod97 | dist/js/bootstrapValidator.js:1626-1642 | the piecewise remainder loop computes the remainder of the whole number by 97 |
| Iban.IbanCheck | dist/js/bootstrapValidator.js:1529-1643 | the method agrees with `iban`: layout of the country, then MOD 97-10 remainder 1 |
| Iban.CheckDigits | dist/js/bootstrapValidator.js:1626-1642 | the check digits computed for a BBAN are two digits |
| Iban.CheckDigitsPass | dist/js/bootstrapValidator.js:1626-1642 | with the computed check digits the rearranged number has remainder 1 |
| Iban.NormalizeKeeps | dist/js/bootstrapValidator.js:1529-1643 | normalising an already clean IBAN changes nothing |
| Iban.GeneratedAccepted | dist/js/bootstrapValidator.js:1529-1643 | an IBAN assembled from country, computed check digits and a BBAN of the country's layout is accepted, with or without the country option |
| Iban.GeneratedChecksum | dist/js/bootstrapValidator.js:1626-1642 | such an IBAN passes the checksum part |
| Iban.CheckDigitsUnique | dist/js/bootstrapValidator.js:1626-1642 | check digits between 02 and 98 that pass are the computed ones |
| Iban.CompletionUnique | dist/js/bootstrapValidator.js:1626-1642 | adding a number from 2 to 98 gives remainder 1 by 97 only for the one value `98 - a % 97` |
| Date.FormatOf | dist/js/bootstrapValidator.js:1187-1273 | a recognised `format` option names the layout read from it |
| Date.FormatOfName | dist/js/bootstrapValidator.js:1187-1273 | every one of the sixteen layouts is recognised from its name |
| Date.Pattern | dist/js/bootstrapValidator.js:1203-1241 | a layout has three numeric groups, or five with a time |
| Date.Scan | dist/js/bootstrapValidator.js:1203-1241 | a successful match yields one number per group |
| Date.DaysIn | dist/js/bootstrapValidator.js:1265-1272 | a month has 28 to 31 days |
| Date.Pad | dist/js/bootstrapValidator.js:1203-1241 | a zero-padded numeral has the requested width and reads back as the number |
| Date.PatternWellFormed | dist/js/bootstrapValidator.js:1203-1241 | every layout pattern is well formed for scanning |
| Date.ScanRender | dist/js/bootstrapValidator.js:1203-1241 | matching the rendering of numbers that fit a pattern gives those numbers back |
| Date.Groups | dist/js/bootstrapValidator.js:1203-1241 | the groups of a layout place year, month and day where the layout says, and hour and minute last |
| Date.FitsPattern | dist/js/bootstrapValidator.js:1203-1241 | the groups of a four-digit year and two-digit fields fit the layout's pattern |
| Date.RenderedDateAccepted | dist/js/bootstrapValidator.js:1187-1273 | every calendar date (with a valid 12-hour time for the timed layouts), written in a layout, is accepted under that layout's name |
| Date.AcceptedIsDate | dist/js/bootstrapValidator.js:1187-1273 | every non-empty accepted input matches the layout and names a calendar date |
| Date.LeapDay | dist/js/bootstrapValidator.js:1265-1272 | February 29 is accepted in 2000 and 2024 and rejected in 1900 and 2023 |
| Vin.Value | dist/js/bootstrapValidator.js:3540-3571 | a transliterated character has a value up to 9 |
| Vin.VinCheck | dist/js/bootstrapValidator.js:3540-3571 | the method agrees with `vin`: 17 allowed characters whose weighted sum matches the check character |
| Vin.CheckChar | dist/js/bootstrapValidator.js:3540-3571 | the check character for a remainder matches it, and is a digit or X |
| Vin.SumIgnoresCheck | dist/js/bootstrapValidator.js:3540-3571 | the ninth position has weight zero, so the check character does not enter the sum |
| Vin.CheckCharUnique | dist/js/bootstrapValidator.js:3540-3571 | with everything else fixed, exactly one check character is accepted |
| Vin.CheckMatchesUnique | dist/js/bootstrapValidator.js:3540-3571 | a digit or `X` matches a remainder exactly when it is the check character for that remainder |
| Vin.CaseIgnored | dist/js/bootstrapValidator.js:3540-3571 | the verdict does not depend on letter case |
| Vin.CheckTenExample | dist/js/bootstrapValidator.js:3540-3571 | 1M8GDM9AXKP042788 has remainder 10 and check character X |
| Formats.ShowNat | dist/js/bootstrapValidator.js:1697-1703 | the decimal rendering of a number is a numeral without leading zeros that reads back as the number |
| Formats.ShowNumeral | dist/js/bootstrapValidator.js:1697-1703 | every numeral without leading zeros is the rendering of its value |
| Formats.ShowAccepted | dist/js/bootstrapValidator.js:1697-1703 | the rendering of every integer is accepted by `integer` and parses back to it |
| Formats.AcceptedIsCanonical | dist/js/bootstrapValidator.js:1697-1703 | every accepted input is the rendering of its value, except `-0` |
| Formats.DigitsAndInteger | dist/js/bootstrapValidator.js:1323-1330 | `digits` accepts `007` which `integer` rejects, and `integer` accepts `-7` which `digits` rejects |
| Formats.DigitsAreStripFixpoints | dist/js/bootstrapValidator.js:1323-1329 | `digits` accepts exactly the inputs that stripping non-digits leaves unchanged |
| Formats.DigitsShowNat | dist/js/bootstrapValidator.js:1323-1329 | the decimal rendering of every natural number is accepted by `digits` and reads back as the number |
| Formats.UnsignedIntegerIsDigits | dist/js/bootstrapValidator.js:1697-1703 | on an input without a sign, `integer` accepts exactly what `digits` accepts and has no leading zero, `0` aside |
| Formats.HexIsCaseless | dist/js/bootstrapValidator.js:1476-1482 | the `hex` class `[0-9a-fA-F]` is the `hexColor` class `[0-9A-F]` under the `i` flag |
| Formats.HexValidUpper | dist/js/bootstrapValidator.js:1476-1482 | `hex` accepts an input exactly when it accepts it upper-cased, exactly when every upper-cased character is in `[0-9A-F]` |
| Formats.HexColorIsHashHex | dist/js/bootstrapValidator.js:1501-1507 | `hexColor` accepts exactly `#` followed by a `hex` input of three or six characters |
| Formats.MacGroupsLayout | dist/js/bootstrapValidator.js:1872-1879 | the group-by-group reading of `mac` is the positional layout: six pairs of hex digits with one separator |
| Formats.UuidPattern | dist/js/bootstrapValidator.js:2375-2390 | every known version's pattern has 36 positions |
| Formats.AllPattern | dist/js/bootstrapValidator.js:2375-2390 | the `all` pattern is hex digits with dashes at 8, 13, 18 and 23 |
| Formats.VersionedIsUuid | dist/js/bootstrapValidator.js:2375-2390 | a UUID accepted for version 3, 4 or 5 is accepted under `all` |
| Formats.VersionsExclusive | dist/js/bootstrapValidator.js:2375-2390 | a non-empty input is accepted under at most one of versions 3, 4 and 5 |
| Postal.CaSearch | dist/js/bootstrapValidator.js:3605-3606 | the search loop agrees with the unanchored Canadian regular expression |
| Postal.CaEmbedded | dist/js/bootstrapValidator.js:3605-3606 | the Canadian test is unanchored: a code anywhere inside the input is enough |
| Postal.UsMatchesReference | dist/js/bootstrapValidator.js:3611-3613 | the US check agrees with a reading of `^\d{4,5}(-\d{4})?$` |
| Postal.ZipCheck | dist/js/bootstrapValidator.js:3597-3615 | the method agrees with `zipCode`: the empty input or a missing country passes, and the country (upper cased, US by default) picks the rule |
| Postal.PatternOnDigits | dist/js/bootstrapValidator.js:1949-1966 | on the stripped digits, the regular expression accepts ten digits, or eleven beginning with 1 |
| Postal.PhoneTenDigits | dist/js/bootstrapValidator.js:1949-1966 | as written, a non-empty input is accepted exactly when it has ten digits |
| Postal.CountryCodeRejected | dist/js/bootstrapValidator.js:1949-1966 | as written, `+1 ` followed by ten digits is rejected, although the pattern allows the country code |
| Postal.IntendedAcceptsCountryCode | dist/js/bootstrapValidator.js:1949-1966 | the corrected check accepts exactly what the pattern allows: ten digits, or eleven starting with 1 |
| Counts.PaddingIgnored | dist/js/bootstrapValidator.js:2245-2257 | white space around a non-empty value does not change the `stringLength` verdict, which is the bound test on its length in UTF-16 code units, and on its number of characters when it has none outside the Basic Multilingual Plane |
| Counts.TrimPadded | dist/js/bootstrapValidator.js:2245-2257 | trimming a padded value gives the value back |
| Counts.Utf16Len | dist/js/bootstrapValidator.js:2251 | the JavaScript `length` of a string lies between its number of characters and twice that |
| Counts.Utf16LenConcat | dist/js/bootstrapValidator.js:2251 | the code-unit length of a concatenation is the sum of the lengths of its parts |
| Counts.Utf16LenIsLength | dist/js/bootstrapValidator.js:2251 | the code-unit length equals the number of characters exactly when every character is in the Basic Multilingual Plane |
| Counts.AstralCountsTwice | dist/js/bootstrapValidator.js:2251-2252 | one emoji is two code units long: `max: 1` rejects it and `max: 2` accepts it |
| Counts.BlankRejectedByMin | dist/js/bootstrapValidator.js:2245-2257 | a blank non-empty input is rejected whenever `min` is set |
| Counts.Count | dist/js/bootstrapValidator.js:929-938 | the count of checked elements is at most the number of elements |
| Counts.CountIsCardinality | dist/js/bootstrapValidator.js:929-938 | the count is the number of checked positions |
| Counts.ChoiceCheck | dist/js/bootstrapValidator.js:929-938 | the counting loop yields the number of checked positions, and the verdict is the `min`/`max` test on it |
| Counts.CheckOneMore | dist/js/bootstrapValidator.js:929-938 | checking one more element adds one to the count |
| Vat.Routine | dist/js/bootstrapValidator.js:2410-2423 | a routine exists exactly for the 32 known codes |
| Vat.UnknownCountryAccepts | dist/js/bootstrapValidator.js:2410-2423 | a code without a routine accepts every value |
| Vat.CountryCaseIgnored | dist/js/bootstrapValidator.js:2410-2423 | the country code is read without regard to case |
| Vat.GreekCodesAgree | dist/js/bootstrapValidator.js:3041-3048 | a Greek number is judged alike under `el` and `gr` |
| VatSums.PartialReplace | dist/js/bootstrapValidator.js:2788-2801 | replacing one digit changes the weighted sum by the digit difference times its weight |
| VatSums.SubstitutionMoves | dist/js/bootstrapValidator.js:2788-2801 | when no multiple 1..9 of the position's weight is divisible by the modulus, one digit change moves the remainder |
| VatSums.TailIgnored | dist/js/bootstrapValidator.js:2788-2801 | digits past the weights do not enter the sum |
| VatSums.ZeroSumSubstitution | dist/js/bootstrapValidator.js:2788-2801 | for a "weighted sum is divisible" rule with separating weights, a single-digit change of an accepted number is rejected |
| VatSums.JsRemZero | dist/js/bootstrapValidator.js:2788-2801 | the truncating remainder is zero exactly when the Euclidean one is |
| VatSums.StepInjective | dist/js/bootstrapValidator.js:2759-2777 | one step of the MOD 11,10 recurrence is injective in the digit and in the carried product |
| VatSums.CarryMoves | dist/js/bootstrapValidator.js:2759-2777 | changing a digit the recurrence reads changes its final product |
| VatSums.CarryTail | dist/js/bootstrapValidator.js:2759-2777 | digits the recurrence has not read do not change it |
| VatSums.Mod1110Substitution | dist/js/bootstrapValidator.js:2759-2777 | a single-digit change of a number passing ISO/IEC 7064 MOD 11,10 is rejected |
| VatWeighted.AtTerm | dist/js/bootstrapValidator.js:2436-2460 | the Austrian term is a single digit: the digit, or its double with digits added |
| VatWeighted.AtCheck | dist/js/bootstrapValidator.js:2436-2460 | the Austrian check value is a digit |
| VatWeighted.AtTermInjective | dist/js/bootstrapValidator.js:2436-2460 | distinct digits give distinct Austrian terms |
| VatWeighted.AtSumReplace | dist/js/bootstrapValidator.js:2436-2460 | replacing a digit changes the Austrian sum by the difference of the terms |
| VatWeighted.AtSubstitutionDetected | dist/js/bootstrapValidator.js:2436-2460 | a single-digit change of an accepted Austrian number is rejected |
| VatWeighted.BeShortForm | dist/js/bootstrapValidator.js:2471-2487 | a nine-digit Belgian number is judged as its ten-digit form with a leading zero |
| VatWeighted.ChSuffixIgnored | dist/js/bootstrapValidator.js:2593-2614 | a trailing `MWST` does not change the Swiss verdict |
| VatWeighted.ChCheckUnique | dist/js/bootstrapValidator.js:2593-2614 | another Swiss check digit is rejected |
| VatWeighted.DeSubstitutionDetected | dist/js/bootstrapValidator.js:2759-2777 | a single-digit change of an accepted German number is rejected |
| VatWeighted.DkSubstitutionDetected | dist/js/bootstrapValidator.js:2788-2801 | a single-digit change of an accepted Danish number is rejected |
| VatWeighted.EeSubstitutionDetected | dist/js/bootstrapValidator.js:2812-2826 | a single-digit change of an accepted Estonian number is rejected |
| VatWeighted.FiSubstitutionDetected | dist/js/bootstrapValidator.js:2906-2920 | a single-digit change of an accepted Finnish number is rejected |
| VatWeighted.GrCheck | dist/js/bootstrapValidator.js:3020-3038 | the Greek check value is a digit |
| VatWeighted.GrCheckUnique | dist/js/bootstrapValidator.js:3020-3038 | another Greek check digit is rejected |
| VatWeighted.ElIsGr | dist/js/bootstrapValidator.js:3041-3048 | `_el` accepts `EL` plus digits exactly when `_gr` accepts `GR` plus the same digits |
| VatWeighted.HuSubstitutionDetected | dist/js/bootstrapValidator.js:3059-3073 | a single-digit change of an accepted Hungarian number is rejected |
| VatWeighted.HrSubstitutionDetected | dist/js/bootstrapValidator.js:3084-3102 | a single-digit change of an accepted Croatian number is rejected |
| VatWeighted.LuCheckUnique | dist/js/bootstrapValidator.js:3219-3226 | another two-digit Luxembourg check is rejected |
| VatWeighted.MtSubstitutionDetected | dist/js/bootstrapValidator.js:3292-3306 | a single-digit change of an accepted Maltese number is rejected |
| VatWeighted.NlCheckUnique | dist/js/bootstrapValidator.js:3317-3333 | another Dutch check digit is rejected |
| VatWeighted.NoCheckUnique | dist/js/bootstrapValidator.js:3342-3358 | another Norwegian check digit is rejected |
| VatWeighted.PlSubstitutionDetected | dist/js/bootstrapValidator.js:3369-3383 | a single-digit change of an accepted Polish number is rejected |
| VatWeighted.PtCheckUnique | dist/js/bootstrapValidator.js:3394-3411 | another Portuguese check digit is rejected |
| VatWeighted.RoCheckUnique | dist/js/bootstrapValidator.js:3422-3437 | another Romanian check digit is rejected |
| VatWeighted.RsSubstitutionDetected | dist/js/bootstrapValidator.js:3445-3462 | a single-digit change of an accepted Serbian number is rejected |
| VatWeighted.SiCheckUnique | dist/js/bootstrapValidator.js:3491-3508 | another Slovenian check digit is rejected |
| VatWeighted.SiElevenRejected | dist/js/bootstrapValidator.js:3491-3508 | a Slovenian number whose weighted sum is divisible by 11 has no valid check digit |
| VatWeighted.SkPunctuationRejected | dist/js/bootstrapValidator.js:3519-3526 | a Slovak number with `(`, `)` or `\|` in the third-digit class is rejected |
| VatWeighted.SkCheckUnique | dist/js/bootstrapValidator.js:3519-3526 | another Slovak last digit is rejected |
| VatComposite.BgLegalCheck | dist/js/bootstrapValidator.js:2501-2585 | the Bulgarian legal-entity check value is a digit |
| VatComposite.BgLegalCheckUnique | dist/js/bootstrapValidator.js:2501-2585 | another check digit of a nine-digit Bulgarian number is rejected |
| VatComposite.BgPersonalCheckUnique | dist/js/bootstrapValidator.js:2501-2585 | for each ten-digit Bulgarian kind (EGN, PNF, other), another check digit is rejected |
| VatComposite.CyTerm | dist/js/bootstrapValidator.js:2625-2653 | a Cypriot term is at most 21 |
| VatComposite.CyLetter | dist/js/bootstrapValidator.js:2625-2653 | the Cypriot check is a capital letter |
| VatComposite.CyPipeRejected | dist/js/bootstrapValidator.js:2625-2653 | `\|` in the leading-digit class is rejected |
| VatComposite.CySumReplace | dist/js/bootstrapValidator.js:2625-2653 | replacing a digit changes the Cypriot sum by the difference of the terms |
| VatComposite.CySubstitutionDetected | dist/js/bootstrapValidator.js:2625-2653 | a single-digit change of an accepted Cypriot number is rejected |
| VatComposite.CzCheck | dist/js/bootstrapValidator.js:2669-2748 | the Czech check value is a digit |
| VatComposite.CzBirthNumbersRejected | dist/js/bootstrapValidator.js:2669-2748 | as written, ten-digit birth numbers and nine-digit ones not starting with 6 are rejected |
| VatComposite.CzIndividualGap | dist/js/bootstrapValidator.js:2669-2748 | a Czech individual number whose remainder is 1 has no accepted check digit |
| VatComposite.CzLegalCheckUnique | dist/js/bootstrapValidator.js:2669-2748 | another check digit of a Czech legal-entity number is rejected |
| VatComposite.CzIndividualCheckUnique | dist/js/bootstrapValidator.js:2669-2748 | another check digit of a Czech individual number is rejected |
| VatComposite.EsLetter | dist/js/bootstrapValidator.js:2842-2895 | the DNI/NIE control letter is a capital |
| VatComposite.EsDniLetterUnique | dist/js/bootstrapValidator.js:2842-2895 | another control letter of an accepted DNI is rejected |
| VatComposite.EsCifTenRejected | dist/js/bootstrapValidator.js:2842-2895 | as written, a CIF whose sum is a multiple of 10 is rejected whatever its control character |
| VatComposite.EsCifRule | dist/js/bootstrapValidator.js:2842-2895 | a CIF is accepted exactly when its control is the digit or the letter for ten minus the sum's last digit |
| VatComposite.EsCifControlLetters | dist/js/bootstrapValidator.js:2842-2895 | the CIF control letters are capitals |
| VatComposite.EsCifTwoSpellings | dist/js/bootstrapValidator.js:2842-2895 | when the sum is not a multiple of 10, both the digit and the letter spelling of the control are accepted |
| VatComposite.FrSirenSubstitutionDetected | dist/js/bootstrapValidator.js:2933-2959 | a single-digit change inside the SIREN part of an accepted French number is rejected |
| VatComposite.FrNumericKeyUnique | dist/js/bootstrapValidator.js:2933-2959 | another numeric two-digit key is rejected |
| VatComposite.GbBranchIgnored | dist/js/bootstrapValidator.js:2970-3009 | a three-digit branch suffix does not change the British verdict |
| VatComposite.GbDepartmentOrAuthority | dist/js/bootstrapValidator.js:2970-3009 | a three-digit number is accepted as exactly one of government department (below 500) or health authority (500 and up) |
| VatComposite.Pad7 | dist/js/bootstrapValidator.js:3113-3142 | Irish padding prefixes zeros up to seven characters and keeps the original at the end |
| VatComposite.IeNewOrOld | dist/js/bootstrapValidator.js:3113-3142 | an Irish number of the right shape is either of the new or the old style |
| VatComposite.IeCheckLetterUnique | dist/js/bootstrapValidator.js:3113-3142 | another Irish check letter is rejected |
| VatComposite.ItSubstitutionDetected | dist/js/bootstrapValidator.js:3157-3173 | a single-digit change of an accepted Italian number is rejected |
| VatComposite.LtRemainder | dist/js/bootstrapValidator.js:3188-3208 | the Lithuanian remainder is below 11 |
| VatComposite.LtStaleCheck | dist/js/bootstrapValidator.js:3196-3207 | when the first remainder is 10 the verdict is "last digit is 0": the second sum is computed but `check` is never re-derived from it, so `10 % 11 % 10` is compared |
| VatComposite.LtCheckUnique | dist/js/bootstrapValidator.js:3188-3208 | another Lithuanian check digit is rejected |
| VatComposite.LvLegalSubstitutionDetected | dist/js/bootstrapValidator.js:3237-3281 | a single-digit change of an accepted Latvian legal-entity number is rejected |
| VatComposite.LvPersonCheckUnique | dist/js/bootstrapValidator.js:3237-3281 | another check digit of a Latvian personal number is rejected |
| VatComposite.SeSubstitutionDetected | dist/js/bootstrapValidator.js:3473-3480 | a single-digit change of an accepted Swedish number is rejected |

## Left out

- User interface: messages, help blocks, feedback icons, tab switching, focus, and enabling or disabling submit buttons are not modelled; none of them affects a status.
- Reading options from `data-bv-*` attributes and the HTML5 attributes in `_init` is left out; the model starts from an already-parsed configuration (`Lifecycle.FieldConfig`).
- Which event name a field listens to (`change`, `keyup`, `trigger`), and the binding in `setLiveMode`, are left out. `Orchestrator.LiveTrigger` models only the handler. The closure in `setLiveMode` reads `fields[field].trigger` through the loop variable rather than its own parameter; this is not modelled because it only picks an event name.
- `remote`, `callback`, `identical` and `different` are oracles. Their network requests, user functions and value comparisons are outside the model; only their answer and the forced VALID are kept.
- The floating-point validators (`between`, `greaterThan`, `lessThan`, `numeric`, `step`) are left out because the model has no floats.
- `file`, `emailAddress`, `uri`, `ip`, `base64`, `regexp`, `stringCase` and `notEmpty` are outside the modelled core.
- The `new Date(...)` calls in the Bulgarian EGN and Latvian personal-code paths never throw and their result is not compared, so they add no condition and the model drops them.
- `min`/`max` options are natural numbers; non-numeric or negative options, which JavaScript coerces, are left out.
- Case mapping covers ASCII letters only; there is no Unicode case folding.
- `for ... in` order over option objects is taken as the configuration order (an ordered sequence).
- `resetForm(true)` clearing field values is left out: values are not part of the state.
- Option names that collide with `Object.prototype` members are left out.
- Lifecycle.ResetForm: `_submitIfValid` is left as it was, as the source does; the model does not claim a reset clears it.
- Orchestrator.Force: a forced field name that does not exist makes the source throw; the model leaves the state unchanged instead.
- Isbn.DocumentedCheck10: the documented examples are stated on the checksum functions, not on the whole `isbn` validator, to keep the proofs small; the same holds for the other `Isbn.Documented` lemmas.
- Cards.CvvCheck: the `creditCard` option naming another field is given as that field's value; looking it up is not modelled.
- Iban.CheckDigitsUnique: stated only for check digits 02 to 98; the source also accepts 00, 01 and 99 when they happen to give remainder 1.
- Postal.ZipCheck: only the four countries the source knows; any other code falls back to the US rule, as in the source.
- The `country` option of `phone` is ignored by the source (always US) and not modelled.
- For each VAT routine, the single-digit detection lemmas cover the positions and digits stated in their `requires`; a general "prefix plus digits" shape lemma per routine is not stated.
- VatComposite.CzBirthNumbersRejected: the Czech routine defines a helper for birth numbers but never calls it, so those numbers fall through to `return false`; the model keeps that behaviour and does not model the uncalled helper.
- VatComposite.LtStaleCheck: when the first remainder is 10 the source resets and recomputes `sum` with the second weights but never re-derives `check` from it, so the stale `check` (10) decides; the model follows the code as written and does not model the second weighting.
- VatComposite.EsCifTenRejected: a CIF sum that is a multiple of 10 gives control value 10, which never matches; modelled as written.

## Findings

| source | as written | input that shows it | evidently intended | confidence | as-written member | corrected member |
|---|---|---|---|---|---|---|
| dist/js/bootstrapValidator.js:1949-1966 | after stripping non-digits, `phone` tests the country-code-aware pattern and then also requires exactly ten digits, so the optional leading `1` the pattern allows is always rejected | "+1 555 555 5555" | accept ten digits, or eleven digits starting with the country code 1, as the pattern states | not executed | Postal.CountryCodeRejected | Postal.IntendedAcceptsCountryCode |
