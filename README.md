# react-html-form: form-state extraction and session bookkeeping in Dafny

react-html-form is a React `<Form>` component. It turns the controls of an
HTML form into one snapshot: a `values` dictionary keyed by control name,
an `errors` dictionary of validation messages, and flags such as `isValid`
and `isDirty`. Its event handlers publish that snapshot through callback
props.

This project models two versions of the component:

- `src/index.tsx`, the newer one:
  - the extraction pass `getFormState`;
  - the bookkeeping fields `submitCount`, `touched`, `dirty` and `blurred`;
  - the synchronous bodies of its handlers.
- `src/index.js`, the older one, with its forward-order extraction and its
  three publishing handlers.

Each form control is a `Dom.Control` record holding what the extractors read
of the element. Each per-type rule of the `switch (element.type)` is written
out:

- file;
- checkbox, with the scalar-to-array promotion that the JavaScript test
  `!values[name]` drives;
- radio;
- `select-multiple`, whose inner loop `Dom.CollectSelected` is a method with
  a loop invariant;
- the default arm.

The calls the newer pass makes on elements go into an effect log, in order:
`setCustomValidity`, `focus`, the `defaultValue` restore and `checkValidity`.

Modules:

- `JsText` (js_text.dfy): JavaScript's `String.prototype.trim`, over the
  white space and line terminators of sections 12.2 and 12.3 of ECMA-262.
- `Dom` (dom.dfy):
  - the control and value datatypes;
  - JavaScript falsiness and the reading of a missing dictionary key as
    `undefined`;
  - the type switch both versions share.
- `TsxExtract` (tsx_extract.dfy): the newer pass as functions.
  - `Run(cs, lo, ctx)` is the pass once it has visited the elements from the
    last one down to `lo`.
  - The lemmas on values, errors and focus are stated about `Run`.
- `TsxForm` (tsx_form.dfy):
  - the `Form` class, with its fields and handler methods;
  - the loop of `getFormState`, proved equal to `Run`;
  - a `Session` value with `Apply`/`Replay`, which states the effect of a
    sequence of handler runs.
- `JsForm` (js_form.dfy): the older pass, `Run(cs, hi)`, which runs from the
  first element to the last. It includes its loop and its handlers.
- `Versions` (versions.dfy): the two passes compared on the same controls.

The model follows the code in these places:

- Buttons are not skipped. Every element of `form.elements` goes through the
  switch, and a named button gets its `value`.
- In reset mode, the `delete` of a field that was absent at mount runs
  before the switch writes the entry again. The comment at
  src/index.tsx:84-85 says such fields are removed, but the code does not
  remove them:
  - If the first control of the name in document order is not a radio, the
    field stays (`TsxExtract.ResetKeepsNewField`).
  - If that control is an unchecked, non-indeterminate radio with no
    coercion attribute, the field goes
    (`TsxExtract.ResetDropsRadioFirstField`).
- In `src/index.tsx`, native messages and validator results are recorded
  outside the `if (element.name)` test. A nameless control's error lands
  under the key `""`, and `validateOnChange[""]` is consulted for it.
- `validateOnChange[name]` runs once per control.
  - A checkbox group's validator sees the value aggregated from the controls
    visited so far, which are the later ones in document order.
  - A validator that returns an empty message leaves an earlier-recorded
    error in place, so a field's error comes from its first control in
    document order that reports one (`TsxExtract.FieldError`).

## Model

| member | source | states |
|---|---|---|
| JsText.Trim | src/index.tsx:157 | the result has no white space at either end, and it is a slice of the input whose cut-off margins are all white space |
| JsText.TrimPadded | src/index.tsx:157 | trimming any white-space padding around a tight string gives that string back |
| Dom.Falsy | src/index.tsx:101 | JavaScript's `!v`: only primitives can be falsy, so every object, an empty array included, counts as present |
| Dom.CollectSelected | src/index.tsx:128-133 | the option loop collects exactly `SelectedValues(options)`, the selected options' values in option order |
| Dom.SelectedValuesExact | src/index.tsx:128-134 | a value is collected if and only if some selected option carries it |
| Dom.SelectedValuesEmpty | src/index.js:66-72 | the collected array is empty if and only if no option is selected |
| Dom.CheckboxStep | src/index.tsx:100-120 | a checkbox always leaves an entry; on an existing array it appends its value when checked and keeps the array when not |
| Dom.BaseValue | src/index.tsx:93-141 | every arm but radio writes an entry; an unchecked, non-indeterminate radio leaves the entry as it was |
| Dom.SwitchOnType | src/index.js:31-79 | the switch on the dictionaries gives the named field `BaseValue` of its previous entry, leaves every other field alone, and adds the `select-multiple` native message to errors |
| Dom.CheckboxStepGroupEntry | src/index.tsx:100-120 | visiting one more box of a group keeps the entry equal to false/undefined/nothing, the one checked value, or the array of the checked values |
| TsxExtract.ValueAsBool | src/index.tsx:154-171 | a string is false exactly when its trimmed form is "false", "", "0", "undefined" or "null"; any other value is true exactly when it is truthy |
| TsxExtract.ValueAsBoolPadded | src/index.tsx:157-165 | a false token padded with white space is still false |
| TsxExtract.ValueAsBoolExamples | src/index.tsx:154-171 | "false" gives false and "false1" gives true |
| TsxExtract.Coerced | src/index.tsx:143-175 | the number coercion beats bool, which beats date; with no coercion attribute the entry is unchanged |
| TsxExtract.RestoreEffects | src/index.tsx:77-82 | the reset-mode restore only touches the current element and never focuses it |
| TsxExtract.VisitValues | src/index.tsx:71-176 | a nameless control leaves values alone; a named one changes only its own field, to `EntryStep` of the previous entry |
| TsxExtract.ValueEffects | src/index.tsx:67-91 | the calls before the switch target only the current element and never focus it |
| TsxExtract.NativeEffects | src/index.tsx:180-191 | in a submit without native display, the last focus is this element exactly when it has a native message; otherwise nothing is focused |
| TsxExtract.CustomEffects | src/index.tsx:193-208 | in a submit without native display, the last focus is this element exactly when the validator returned a message; otherwise nothing is focused |
| TsxExtract.VisitEffects | src/index.tsx:65-208 | every call of a visit targets the visited element |
| TsxExtract.Run | src/index.tsx:64-209 | a nameless control never gets a `values` entry, and every logged call targets a visited element |
| TsxExtract.FieldEntry | src/index.tsx:71-176 | a field's entry depends only on the controls with that name, visited last to first |
| TsxExtract.ValuesKeys | src/index.tsx:71 | every key of `values` is the name of some visited control |
| TsxExtract.LoneCheckbox | src/index.tsx:100-109 | an "on" checkbox that is the only control of its name, anywhere in the form, gives true when checked, undefined when unchecked and indeterminate, and false otherwise |
| TsxExtract.GroupEntryRun | src/index.tsx:100-120 | a checkbox group's entry tracks its checked values in reverse document order |
| TsxExtract.CheckboxGroup | src/index.tsx:64-120 | two or more checked boxes of a group give the array of exactly the checked values, in reverse document order |
| TsxExtract.RadioGroup | src/index.tsx:121-127 | a radio group's value is the first checked radio's value in document order, or no entry when none is checked |
| TsxExtract.ResetKeepsNewField | src/index.tsx:84-141 | when the first control of a name in document order is not a radio, its field is in `values`, in reset mode even if the field was absent at mount, because the delete precedes the switch |
| TsxExtract.ResetDropsRadioFirstField | src/index.tsx:84-127 | in reset mode, when the first control of a name absent at mount is an unchecked, non-indeterminate radio with no coercion attribute, the name has no entry, whatever the later controls wrote |
| TsxExtract.VisitErrors | src/index.tsx:178-208 | one visit sets its field's error to a non-empty validator message, else to the `data-errormessage` override or the native message, else leaves errors alone |
| TsxExtract.FieldError | src/index.tsx:178-208 | a field's error comes from its first control in document order that reports one |
| TsxExtract.LastFocusAppend | src/index.tsx:182 | the last focus of a concatenated log is the later part's, if that part focuses anything |
| TsxExtract.LastFocusNone | src/index.tsx:182 | a log with no focus call has no last focus |
| TsxExtract.VisitFocus | src/index.tsx:180-203 | in a submit without native display, a visit's last focus is its own element exactly when that element reports an error |
| TsxExtract.VisitNoFocus | src/index.tsx:181-202 | outside such a submit, a visit focuses nothing |
| TsxExtract.FocusOnFirstError | src/index.tsx:63-64 | in a submit without native display, the last focus of the pass is the first erroring element in document order, or none |
| TsxExtract.NoFocus | src/index.tsx:181-202 | outside a submit, or with native display, the pass never calls focus |
| TsxExtract.NumberWins | src/index.tsx:173-175 | with `data-valueasnumber`, the field's entry is the number, whatever the type and the other coercions |
| TsxForm.Mark | src/index.tsx:279-281 | marking adds the name exactly when it is non-empty |
| TsxForm.ReplayWithoutReset | src/index.tsx:267-303 | between resets, each submit adds one to `submitCount`, and touched, dirty and blurred gain exactly the focused, changed and blurred names |
| TsxForm.ReplayAfterReset | src/index.tsx:290-293 | a reset forgets everything before it: the state is that of the events after it replayed from the initial session |
| TsxForm.VisitElement | src/index.tsx:65-208 | one loop iteration computes exactly `Visit` of the pass |
| TsxForm.SaveValue | src/index.tsx:67-176 | clears the custom validity, restores in reset mode and saves the value, as `VisitValues` and `ValueEffects` say |
| TsxForm.SaveNativeError | src/index.tsx:178-191 | records the native message or its override, with its calls |
| TsxForm.Validate | src/index.tsx:193-208 | runs the field's validator on its current value and records a non-empty result |
| TsxForm.ApplyCoercions | src/index.tsx:143-175 | applies the coercions to the named field only, as `Coerced` |
| TsxForm.Form.constructor | src/index.tsx:37-43 | the bookkeeping starts empty, with no values captured yet |
| TsxForm.Form.Snapshot | src/index.tsx:211-228 | the state a pass returns: `isValid` exactly when errors is empty; `isDirty` false before mount and in reset mode, and otherwise exactly when values differ from the mount snapshot; the bookkeeping fields as they stand |
| TsxForm.Form.GetFormState | src/index.tsx:59-229 | the reverse loop returns exactly `Snapshot`, whose dictionaries are `Run`'s, and logs `Run`'s calls |
| TsxForm.Form.Mount | src/index.tsx:53-57 | the first pass is published whole through onData, is not dirty, and its values become the baseline |
| TsxForm.Form.HandleFocus | src/index.tsx:278-285 | a named target joins `touched`; onFocus then onData with touched |
| TsxForm.Form.HandleBlur | src/index.tsx:231-265 | a named target joins `blurred`, which is published; `isValidating` is published true and, when the name has no blur validator, false again; it stays true while a validator is awaited |
| TsxForm.Form.HandleChange | src/index.tsx:267-276 | a named target joins `dirty`; onChange, onData and onChangeWithData get the normal pass's full state, whose `dirty` already holds the target |
| TsxForm.Form.HandleSubmit | src/index.tsx:302-312 | `submitCount` grows by one before the submitting pass, whose full state onData gets; `preventDefault` and `onSubmitWithData` follow only for a function-valued prop |
| TsxForm.Form.ResetCallback | src/index.tsx:289-298 | the bookkeeping is cleared, and the full reset pass is published, with count 0, empty touched and dirty, and not dirty |
| JsForm.Coerced | src/index.js:84-89 | the number coercion beats the date coercion; with neither, the entry is unchanged |
| JsForm.VisitValues | src/index.js:26-90 | a nameless control leaves values alone; a named one changes only its own field |
| JsForm.Run | src/index.js:17-91 | a nameless control never gets a `values` entry |
| JsForm.GetFormState | src/index.js:13-98 | the forward loop gives `Run`'s values and errors; `isValid` is the form's own `checkValidity()` |
| JsForm.HandleChange | src/index.js:100-108 | onChange, then onData with a fresh state, then onChangeWithData with the blank payload; without an onData prop the call throws after onChange |
| JsForm.HandleReset | src/index.js:110-118 | onReset, then onData and onResetWithData with the blank payload only |
| JsForm.HandleSubmit | src/index.js:120-126 | `preventDefault` is called if and only if `onSubmitWithData` is a function, and that prop then receives a fresh state |
| JsForm.FieldEntry | src/index.js:26-90 | a field's entry depends only on the controls with that name, visited first to last |
| JsForm.GroupEntryRun | src/index.js:38-57 | a checkbox group's entry tracks its checked values in document order |
| JsForm.CheckboxGroup | src/index.js:17-57 | two or more checked boxes of a group give the array of exactly the checked values, in document order |
| JsForm.UncheckedRadioKeeps | src/index.js:59-65 | an unchecked, non-indeterminate radio does not overwrite its field's entry |
| JsForm.RadioGroup | src/index.js:59-65 | a radio group's value is the last checked radio's value, or no entry when none is checked |
| JsForm.SelectMultipleValue | src/index.js:66-72 | a `select-multiple` yields the array of its selected options' values |
| JsForm.NumberWins | src/index.js:84-89 | with `data-valueasnumber`, the field's entry is the number |
| JsForm.LastMessage | src/index.js:21-23 | a recorded message is never empty |
| JsForm.FieldError | src/index.js:21-23 | every non-empty native message is recorded under its control's name, `""` included, and the last one in document order wins |
| Versions.CheckboxOrderFlips | src/index.tsx:64 | on the same controls, the newer version's group array is the older one's reversed, and holds the same values |
| Versions.FirstCheckedIs | src/index.tsx:121-127 | the first checked radio is the one the newer version keeps |
| Versions.LastCheckedIs | src/index.js:59-65 | the last checked radio is the one the older version keeps |
| Versions.RadioAgrees | src/index.js:59-65 | with exactly one radio of a group checked, both versions give its value |
| Versions.RadioPicksDiffer | src/index.tsx:121-127 | with two radios of a group checked, the newer version keeps the first and the older one the last |

## Left out

- HandleBlur: stops at the `await` when the target has a `validateOnBlur` entry. The validator's result, the `setCustomValidity` call, and the `errors` and `isValidating: false` publications after it (src/index.tsx:248-264) are not modelled, and neither is the interleaving with other events while it is pending.
- A `validateOnChange` validator that throws: there is no `try` at src/index.tsx:195, so the exception aborts the pass and the handler. Validators are modelled as total functions.
- `handleReset`'s `setTimeout(0)`: `TsxForm.Form.ResetCallback` is the deferred callback body, run on its own. The interleaving with other events is not modelled.
- Promise-returning `validateOnChange` validators: a validator is a pure function to a string, and `""` stands for every falsy result.
- Dates, numbers and files are opaque. `valueAsDate`, `new Date(value)`, `valueAsNumber` and `files` are inputs of the control record, and no date parsing or floating point is modelled.
- The host's constraint validation: `validationMessage` is an input. `checkValidity`, `setCustomValidity` and the `defaultValue` write are logged as calls, and their effect on later reads is not modelled. The older `isValid` is a parameter standing for `form.checkValidity()`.
- `isEqual` from react-fast-compare: replaced by structural equality of the value maps.
- `new Array(x)` for a numeric `x`, reached when an earlier-visited control of the same name has `data-valueasnumber` (src/index.tsx:114, src/index.js:52): JavaScript makes a sparse array of length `x`, or throws a `RangeError` that aborts the pass when `x` is not an integer from 0 to 2^32 - 1 (1.5, -1 or Infinity, say). The model wraps every promoted value into a one-element array instead.
- Dictionary keys that name `Object.prototype` members (`"constructor"`, `"toString"`): the model reads them as absent, while JavaScript reads the inherited member.
- Object identity: the published `dirty`, `touched` and `blurred` are sets taken when published. The aliasing is captured only where `handleChange` marks `dirty` after computing the state.
- `TsxForm.Form.GetFormState`: requires a mount snapshot in reset mode, because before mount the source reads a property of `undefined`. `TsxForm.Form.ResetCallback` and `TsxForm.Form.Mount` likewise assume the order React guarantees.
- React lifecycle, `render`, `event.persist`, refs, propTypes and defaultProps: not modelled. The effect of the default props is kept as `submitWithData` and as the older version's `hasOnData`.
