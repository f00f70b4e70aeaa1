/**
 * The older component of src/index.js: `getFormState` (lines 13-98) visits
 * the elements from the first to the last, records native messages before
 * it looks at the name, and knows no validators, no reset mode and no
 * `data-valueasbool`. `Run(cs, hi)` is the pass after elements `0` to
 * `hi - 1`; `GetFormState` computes it with a loop. The handlers only call
 * the props in order.
 */
module JsForm {
  import opened Wrappers
  import opened Dom

  /** The dictionaries the loop fills. */
  datatype Pass = Pass(values: map<string, FieldValue>, errors: map<string, string>)

  /** The object `getFormState` returns (lines 93-97). */
  datatype FormState = FormState(values: map<string, FieldValue>, errors: map<string, string>, isValid: bool)

  /** What a data callback receives: a state, or `{values: undefined, errors: undefined}`. */
  datatype Payload = Snapshot(state: FormState) | Blank

  /** A call the component makes on its props or on the event, in order. */
  datatype Call =
    | OnChange
    | OnReset
    | OnSubmit
    | OnData(payload: Payload)
    | OnChangeWithData(payload: Payload)
    | OnResetWithData(payload: Payload)
    | OnSubmitWithData(payload: Payload)
    | PreventDefault

  /** `element.valueAsDate`, which reads `undefined` on an element that has no such property. */
  function DateValue(c: Control): FieldValue
  {
    match c.valueAsDate
    case NoDateProperty => Undef
    case NullDate => Null
    case HasDate(d) => DateVal(d)
  }

  /** Lines 84-89: date, then number, so the number wins. */
  function Coerced(e: Option<FieldValue>, c: Control): (r: Option<FieldValue>)
    ensures c.asNumber ==> r == Some(NumberValue(c))
    ensures !c.asNumber && c.asDate ==> r == Some(DateValue(c))
    ensures !c.asNumber && !c.asDate ==> r == e
  {
    var e1 := if c.asDate then Some(DateValue(c)) else e;
    if c.asNumber then Some(NumberValue(c)) else e1
  }

  function EntryStep(e: Option<FieldValue>, c: Control): Option<FieldValue>
  {
    Coerced(BaseValue(e, c), c)
  }

  /** Lines 26-90: a named control's value is saved under its name. */
  function VisitValues(values: map<string, FieldValue>, c: Control): (r: map<string, FieldValue>)
    ensures c.name == "" ==> r == values
    ensures c.name != "" ==> Get(r, c.name) == EntryStep(Get(values, c.name), c)
    ensures forall k :: k != c.name ==> Get(r, k) == Get(values, k)
  {
    if c.name == "" then values else SetEntry(values, c.name, EntryStep(Get(values, c.name), c))
  }

  /** Lines 21-23: a non-empty native message is recorded whatever the name. */
  function NativeErrors(errors: map<string, string>, c: Control): map<string, string>
  {
    if |c.validationMessage| > 0 then errors[c.name := c.validationMessage] else errors
  }

  function Visit(p: Pass, c: Control): Pass
  {
    Pass(VisitValues(p.values, c), SwitchErrors(NativeErrors(p.errors, c), c))
  }

  /** The pass once it has visited elements `0` to `hi - 1`. */
  function Run(cs: seq<Control>, hi: nat): (r: Pass)
    requires hi <= |cs|
    ensures "" !in r.values
  {
    if hi == 0 then Pass(map[], map[]) else Visit(Run(cs, hi - 1), cs[hi - 1])
  }

  /** `getFormState`; `formValid` is what the host's `form.checkValidity()` answers. */
  method GetFormState(elements: seq<Control>, formValid: bool) returns (state: FormState)
    ensures state.values == Run(elements, |elements|).values
    ensures state.errors == Run(elements, |elements|).errors
    ensures state.isValid == formValid
  {
    var values: map<string, FieldValue> := map[];
    var errors: map<string, string> := map[];
    var i := 0;
    while i < |elements|
      invariant 0 <= i <= |elements|
      invariant Pass(values, errors) == Run(elements, i)
    {
      var element := elements[i];
      ghost var before := Pass(values, errors);
      if |element.validationMessage| > 0 {
        errors := errors[element.name := element.validationMessage];
      }
      if element.name != "" {
        var name := element.name;
        values, errors := SwitchOnType(values, errors, element);
        if element.asDate {
          values := values[name := DateValue(element)];
        }
        if element.asNumber {
          values := values[name := NumberValue(element)];
        }
        SameEntries(values, VisitValues(before.values, element));
      }
      i := i + 1;
    }
    state := FormState(values, errors, formValid);
  }

  /**
   * `handleChange` (lines 100-108). `onData` has no default here, so a
   * caller that does not pass it gets a TypeError after `onChange`.
   */
  method HandleChange(elements: seq<Control>, formValid: bool, hasOnData: bool)
    returns (calls: seq<Call>, threw: bool)
    ensures threw <==> !hasOnData
    ensures |calls| >= 1 && calls[0] == OnChange
    ensures hasOnData ==> |calls| == 3 && calls[2] == OnChangeWithData(Blank)
    ensures hasOnData ==> calls[1] == OnData(Snapshot(FormState(Run(elements, |elements|).values,
                                                                 Run(elements, |elements|).errors, formValid)))
    ensures !hasOnData ==> calls == [OnChange]
  {
    calls := [OnChange];
    var state := GetFormState(elements, formValid);
    threw := !hasOnData;
    if hasOnData {
      calls := calls + [OnData(Snapshot(state)), OnChangeWithData(Blank)];
    }
  }

  /** `handleReset` (lines 110-118): nothing is extracted and the data callbacks get the blank payload. */
  method HandleReset(hasOnData: bool) returns (calls: seq<Call>, threw: bool)
    ensures threw <==> !hasOnData
    ensures forall k :: 0 <= k < |calls| && calls[k].OnData? ==> calls[k].payload == Blank
    ensures calls == [OnReset] + (if hasOnData then [OnData(Blank), OnResetWithData(Blank)] else [])
  {
    calls := [OnReset];
    threw := !hasOnData;
    if hasOnData {
      calls := calls + [OnData(Blank), OnResetWithData(Blank)];
    }
  }

  /**
   * `handleSubmit` (lines 120-126): with a function-valued
   * `onSubmitWithData`, which the default props provide, the native
   * submission is suppressed and the callback receives a fresh state.
   */
  method HandleSubmit(elements: seq<Control>, formValid: bool, submitWithData: bool) returns (calls: seq<Call>)
    ensures |calls| >= 1 && calls[0] == OnSubmit
    ensures submitWithData <==> PreventDefault in calls
    ensures submitWithData ==>
              && |calls| == 3
              && calls[1] == PreventDefault
              && calls[2] == OnSubmitWithData(Snapshot(FormState(Run(elements, |elements|).values,
                                                                 Run(elements, |elements|).errors, formValid)))
    ensures !submitWithData ==> calls == [OnSubmit]
  {
    calls := [OnSubmit];
    if submitWithData {
      var state := GetFormState(elements, formValid);
      calls := calls + [PreventDefault, OnSubmitWithData(Snapshot(state))];
    }
  }

  // ---------------------------------------------------------------------
  // Values

  /** The entry of field `name` from its own controls among `cs[..hi]`, first to last. */
  function EntryRun(cs: seq<Control>, name: string, hi: nat): Option<FieldValue>
    requires hi <= |cs|
  {
    if hi == 0 then None
    else
      var e := EntryRun(cs, name, hi - 1);
      if cs[hi - 1].name == name then EntryStep(e, cs[hi - 1]) else e
  }

  /** A field's entry depends only on the controls of that name, visited first to last. */
  lemma {:induction false} FieldEntry(cs: seq<Control>, name: string, hi: nat)
    requires hi <= |cs| && name != ""
    ensures Get(Run(cs, hi).values, name) == EntryRun(cs, name, hi)
  {
    if hi > 0 {
      FieldEntry(cs, name, hi - 1);
    }
  }

  lemma {:induction false} GroupEntryRun(cs: seq<Control>, name: string, hi: nat)
    requires hi <= |cs| && name != ""
    requires forall j :: 0 <= j < hi && cs[j].name == name ==> GroupBox(cs[j])
    ensures GroupEntry(EntryRun(cs, name, hi), Checked(cs[..hi], name))
    ensures NonEmptyStrings(Checked(cs[..hi], name))
  {
    if hi > 0 {
      GroupEntryRun(cs, name, hi - 1);
      assert cs[..hi][..hi - 1] == cs[..hi - 1];
      if cs[hi - 1].name == name {
        CheckboxStepGroupEntry(EntryRun(cs, name, hi - 1), Checked(cs[..hi - 1], name), cs[hi - 1], name);
      } else {
        assert Checked(cs[..hi], name) == Checked(cs[..hi - 1], name);
      }
    }
  }

  /**
   * Two or more checked boxes of a group give the array of exactly the
   * checked values, in document order.
   */
  lemma CheckboxGroup(cs: seq<Control>, name: string)
    requires name != ""
    requires forall j :: 0 <= j < |cs| && cs[j].name == name ==> GroupBox(cs[j])
    requires |Checked(cs, name)| >= 2
    ensures Get(Run(cs, |cs|).values, name) == Some(Arr(Checked(cs, name)))
  {
    GroupEntryRun(cs, name, |cs|);
    FieldEntry(cs, name, |cs|);
    assert cs[..|cs|] == cs;
  }

  /** An unchecked radio that is not indeterminate leaves its field as it was. */
  lemma UncheckedRadioKeeps(cs: seq<Control>, hi: nat)
    requires 0 < hi <= |cs| && cs[hi - 1].name != ""
    requires PlainRadio(cs[hi - 1]) && !cs[hi - 1].checked
    ensures Get(Run(cs, hi).values, cs[hi - 1].name) == Get(Run(cs, hi - 1).values, cs[hi - 1].name)
  {
  }

  /** The value of the last checked radio named `name` among `cs[..hi]`. */
  function LastChecked(cs: seq<Control>, name: string, hi: nat): Option<FieldValue>
    requires hi <= |cs|
  {
    if hi == 0 then None
    else if cs[hi - 1].name == name && cs[hi - 1].checked then Some(Str(cs[hi - 1].value))
    else LastChecked(cs, name, hi - 1)
  }

  /** A radio group's value is its checked radio's value, or no entry when none is checked. */
  lemma {:induction false} RadioGroup(cs: seq<Control>, name: string, hi: nat)
    requires hi <= |cs| && name != ""
    requires forall j :: 0 <= j < hi && cs[j].name == name ==> PlainRadio(cs[j])
    ensures Get(Run(cs, hi).values, name) == LastChecked(cs, name, hi)
  {
    FieldEntry(cs, name, hi);
    if hi > 0 {
      RadioGroup(cs, name, hi - 1);
      FieldEntry(cs, name, hi - 1);
    }
  }

  /**
   * A `select-multiple` yields the values of its selected options, in option
   * order: an empty array when none is selected.
   */
  lemma SelectMultipleValue(cs: seq<Control>, hi: nat)
    requires 0 < hi <= |cs| && cs[hi - 1].name != ""
    requires cs[hi - 1].kind == SelectMultiple && NoCoercion(cs[hi - 1])
    ensures Get(Run(cs, hi).values, cs[hi - 1].name) == Some(Arr(SelectedValues(cs[hi - 1].options)))
  {
  }

  /** `data-valueasnumber` wins over `data-valueasdate` and over the control type. */
  lemma NumberWins(cs: seq<Control>, hi: nat)
    requires 0 < hi <= |cs| && cs[hi - 1].name != "" && cs[hi - 1].asNumber
    ensures Get(Run(cs, hi).values, cs[hi - 1].name) == Some(NumberValue(cs[hi - 1]))
  {
  }

  // ---------------------------------------------------------------------
  // Errors

  /** The native message of the last control named `k` among `cs[..hi]` that has one. */
  function LastMessage(cs: seq<Control>, k: string, hi: nat): (r: Option<string>)
    requires hi <= |cs|
    ensures r.Some? ==> |r.value| > 0
  {
    if hi == 0 then None
    else if cs[hi - 1].name == k && |cs[hi - 1].validationMessage| > 0 then Some(cs[hi - 1].validationMessage)
    else LastMessage(cs, k, hi - 1)
  }

  /**
   * Every non-empty native message is recorded under its control's name,
   * the empty name included, and the last one in document order wins.
   */
  lemma {:induction false} FieldError(cs: seq<Control>, k: string, hi: nat)
    requires hi <= |cs|
    ensures Get(Run(cs, hi).errors, k) == LastMessage(cs, k, hi)
  {
    if hi > 0 {
      FieldError(cs, k, hi - 1);
    }
  }
}
