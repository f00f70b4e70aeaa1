/**
 * The form controls as the extractors see them, the values they derive, and
 * the per-control-type switch that both versions of the extractor share
 * (src/index.tsx:93-141 and src/index.js:31-79 are the same code).
 */
module Dom {
  import opened Wrappers

  /** A JavaScript number; the model only needs to know which ones are falsy. */
  datatype JsNumber = NaN | Infinity(negative: bool) | Finite(r: real)

  /** A `Date` object: the host's `valueAsDate`, or `new Date(raw)`. */
  datatype DateRef = HostDate(id: nat) | ParsedDate(raw: string)

  /** The host's `FileList` of a file control. */
  datatype FileListRef = FileListRef(id: nat)

  /** One entry of the `values` dictionary. */
  datatype FieldValue =
    | Str(s: string)
    | Bool(b: bool)
    | Undef
    | Null
    | Arr(elems: seq<FieldValue>)
    | FileVal(raw: string, files: FileListRef)
    | DateVal(date: DateRef)
    | NumVal(n: JsNumber)

  /**
   * JavaScript's `!v`: the empty string, false, undefined, null, 0 and NaN.
   * Only primitives are falsy; every object, the empty array included, is
   * truthy.
   */
  predicate Falsy(v: FieldValue)
    ensures Falsy(v) ==> v.Str? || v.Bool? || v.Undef? || v.Null? || v.NumVal?
  {
    match v
    case Str(s) => s == ""
    case Bool(b) => !b
    case Undef => true
    case Null => true
    case NumVal(n) => n.NaN? || (n.Finite? && n.r == 0.0)
    case _ => false
  }

  /** The `type` property of a control, as the switch distinguishes it. */
  datatype ControlType = File | Checkbox | Radio | SelectMultiple | Other(tag: string)

  datatype SelectOption = SelectOption(value: string, selected: bool)

  /** Whether the control has a `valueAsDate` property and what it holds. */
  datatype DateProperty = NoDateProperty | NullDate | HasDate(date: DateRef)

  /**
   * One element of `form.elements`: what the extractors read of it.
   * `asDate`, `asBool` and `asNumber` say whether the `data-valueasdate`,
   * `data-valueasbool` and `data-valueasnumber` attributes are present;
   * `errorMessage` is the `data-errormessage` attribute. `valueAsNumber` is
   * None where the element has no such property (it reads `undefined`).
   */
  datatype Control = Control(
    name: string,
    kind: ControlType,
    value: string,
    checked: bool,
    indeterminate: bool,
    options: seq<SelectOption>,
    files: FileListRef,
    validationMessage: string,
    valueAsDate: DateProperty,
    valueAsNumber: Option<JsNumber>,
    asDate: bool,
    asBool: bool,
    asNumber: bool,
    errorMessage: Option<string>)

  /** The entry of a dictionary, None when the key is absent. */
  function Get<V>(m: map<string, V>, k: string): (r: Option<V>)
    ensures r.Some? <==> k in m
    ensures r.Some? ==> r.value == m[k]
  {
    if k in m then Some(m[k]) else None
  }

  /** JavaScript's `values[k]`: an absent key reads `undefined`. */
  function Lookup(m: map<string, FieldValue>, k: string): FieldValue
  {
    if k in m then m[k] else Undef
  }

  /** Writes an entry, or deletes it when the new entry is None. */
  function SetEntry(m: map<string, FieldValue>, k: string, e: Option<FieldValue>): (r: map<string, FieldValue>)
    ensures Get(r, k) == e
    ensures forall k' :: k' != k ==> Get(r, k') == Get(m, k')
    ensures r.Keys <= m.Keys + {k}
  {
    if e.Some? then m[k := e.value] else m - {k}
  }

  /** Two dictionaries with the same entries are the same dictionary. */
  lemma SameEntries<V>(m1: map<string, V>, m2: map<string, V>)
    requires forall k :: Get(m1, k) == Get(m2, k)
    ensures m1 == m2
  {
    assert m1.Keys == m2.Keys by {
      forall k ensures k in m1 <==> k in m2 {
        assert Get(m1, k).Some? <==> Get(m2, k).Some?;
      }
    }
    forall k | k in m1 ensures m1[k] == m2[k] {
      assert Get(m1, k) == Get(m2, k);
    }
  }

  /** The values of the selected options, in option order. */
  function SelectedValues(options: seq<SelectOption>): seq<FieldValue>
  {
    if options == [] then []
    else
      var last := options[|options| - 1];
      SelectedValues(options[..|options| - 1]) + (if last.selected then [Str(last.value)] else [])
  }

  /** The inner loop over `element.options` (src/index.tsx:129-133, src/index.js:67-71). */
  method CollectSelected(options: seq<SelectOption>) returns (elementValues: seq<FieldValue>)
    ensures elementValues == SelectedValues(options)
  {
    elementValues := [];
    var j := 0;
    while j < |options|
      invariant 0 <= j <= |options|
      invariant elementValues == SelectedValues(options[..j])
    {
      assert options[..j + 1][..j] == options[..j];
      if options[j].selected {
        elementValues := elementValues + [Str(options[j].value)];
      }
      j := j + 1;
    }
    assert options[..j] == options;
  }

  /** A value is collected exactly when some selected option carries it. */
  lemma {:induction false} SelectedValuesExact(options: seq<SelectOption>, v: FieldValue)
    ensures v in SelectedValues(options) <==>
      exists j :: 0 <= j < |options| && options[j].selected && v == Str(options[j].value)
  {
    if options != [] {
      var init := options[..|options| - 1];
      SelectedValuesExact(init, v);
      if v in SelectedValues(options) && v !in SelectedValues(init) {
        assert options[|options| - 1].selected && v == Str(options[|options| - 1].value);
      }
      forall j | 0 <= j < |init| ensures init[j] == options[j] { }
    }
  }

  /** Nothing selected gives the empty array, and only then. */
  lemma {:induction false} SelectedValuesEmpty(options: seq<SelectOption>)
    ensures SelectedValues(options) == [] <==> forall j :: 0 <= j < |options| ==> !options[j].selected
  {
    if options != [] {
      var init := options[..|options| - 1];
      SelectedValuesEmpty(init);
      forall j | 0 <= j < |init| ensures init[j] == options[j] { }
    }
  }

  /**
   * The `checkbox` arm: the first checkbox seen for a name (the entry is
   * falsy) writes a scalar; a later one turns the entry into an array and
   * appends its value when checked.
   */
  function CheckboxStep(e: Option<FieldValue>, c: Control): (r: Option<FieldValue>)
    ensures r.Some?
    ensures e.Some? && e.value.Arr? && !Falsy(e.value) ==>
      r == Some(Arr(if c.checked then e.value.elems + [Str(c.value)] else e.value.elems))
  {
    var current := e.GetOr(Undef);
    if Falsy(current) then
      Some(if c.checked then (if c.value == "on" then Bool(true) else Str(c.value))
           else if c.indeterminate then Undef
           else Bool(false))
    else
      var group := if current.Arr? then current.elems else [current];
      Some(Arr(if c.checked then group + [Str(c.value)] else group))
  }

  /** The `switch (element.type)`; `e` is the entry for the control's name before it. */
  function BaseValue(e: Option<FieldValue>, c: Control): (r: Option<FieldValue>)
    ensures !c.kind.Radio? ==> r.Some?
    ensures c.kind.Radio? && !c.checked && !c.indeterminate ==> r == e
  {
    match c.kind
    case File => Some(FileVal(c.value, c.files))
    case Checkbox => CheckboxStep(e, c)
    case Radio =>
      if c.checked then Some(Str(c.value))
      else if c.indeterminate then Some(Undef)
      else e
    case SelectMultiple => Some(Arr(SelectedValues(c.options)))
    case Other(_) => Some(Str(c.value))
  }

  /** src/index.tsx:135-137 and src/index.js:73-75: the `select-multiple` arm records the native message too. */
  function SwitchErrors(errors: map<string, string>, c: Control): map<string, string>
  {
    if c.name != "" && c.kind == SelectMultiple && |c.validationMessage| > 0
    then errors[c.name := c.validationMessage] else errors
  }

  /**
   * The `switch (element.type)` on the dictionaries, as both extractors run
   * it for a named element; the `select-multiple` arm also records the
   * native message.
   */
  method SwitchOnType(values: map<string, FieldValue>, errors: map<string, string>, element: Control)
    returns (values': map<string, FieldValue>, errors': map<string, string>)
    requires element.name != ""
    ensures Get(values', element.name) == BaseValue(Get(values, element.name), element)
    ensures forall k :: k != element.name ==> Get(values', k) == Get(values, k)
    ensures errors' == SwitchErrors(errors, element)
  {
    var name := element.name;
    values', errors' := values, errors;
    match element.kind {
      case File =>
        values' := values'[name := FileVal(element.value, element.files)];
      case Checkbox =>
        if Falsy(Lookup(values', name)) {
          if element.checked {
            values' := values'[name := if element.value == "on" then Bool(true) else Str(element.value)];
          } else if element.indeterminate {
            values' := values'[name := Undef];
          } else {
            values' := values'[name := Bool(false)];
          }
        } else {
          if !values'[name].Arr? {
            values' := values'[name := Arr([values'[name]])];
          }
          if element.checked {
            values' := values'[name := Arr(values'[name].elems + [Str(element.value)])];
          }
        }
      case Radio =>
        if element.checked {
          values' := values'[name := Str(element.value)];
        } else if element.indeterminate {
          values' := values'[name := Undef];
        }
      case SelectMultiple =>
        var elementValues := CollectSelected(element.options);
        values' := values'[name := Arr(elementValues)];
        if |element.validationMessage| > 0 {
          errors' := errors'[name := element.validationMessage];
        }
      case Other(_) =>
        values' := values'[name := Str(element.value)];
    }
  }

  /** `data-valueasnumber` reads `valueAsNumber`: `undefined` on an element that has no such property. */
  function NumberValue(c: Control): FieldValue
  {
    if c.valueAsNumber.Some? then NumVal(c.valueAsNumber.value) else Undef
  }

  /** A control that carries none of the three coercion attributes. */
  predicate NoCoercion(c: Control)
  {
    !c.asDate && !c.asBool && !c.asNumber
  }

  /** A checkbox of a group: its value is neither empty nor the default "on". */
  predicate GroupBox(c: Control)
  {
    c.kind == Checkbox && NoCoercion(c) && c.value != "" && c.value != "on"
  }

  /** A radio that is not indeterminate. */
  predicate PlainRadio(c: Control)
  {
    c.kind == Radio && NoCoercion(c) && !c.indeterminate
  }

  /** What a checked control of the group named `name` adds, if anything. */
  function CheckedValue(c: Control, name: string): seq<FieldValue>
  {
    if c.name == name && c.checked then [Str(c.value)] else []
  }

  /** The values of the checked controls named `name`, in document order. */
  function Checked(cs: seq<Control>, name: string): seq<FieldValue>
  {
    if cs == [] then [] else Checked(cs[..|cs| - 1], name) + CheckedValue(cs[|cs| - 1], name)
  }

  /** The values of the checked controls named `name`, in reverse document order. */
  function CheckedReversed(cs: seq<Control>, name: string): seq<FieldValue>
  {
    if cs == [] then [] else CheckedReversed(cs[1..], name) + CheckedValue(cs[0], name)
  }

  function Reverse<T>(s: seq<T>): (r: seq<T>)
    ensures |r| == |s|
    ensures forall k :: 0 <= k < |s| ==> r[k] == s[|s| - 1 - k]
  {
    if s == [] then [] else Reverse(s[1..]) + [s[0]]
  }

  lemma {:induction false} CheckedFront(cs: seq<Control>, name: string)
    requires cs != []
    ensures Checked(cs, name) == CheckedValue(cs[0], name) + Checked(cs[1..], name)
  {
    if |cs| > 1 {
      CheckedFront(cs[..|cs| - 1], name);
      assert cs[..|cs| - 1][1..] == cs[1..][..|cs[1..]| - 1];
      assert cs[..|cs| - 1][0] == cs[0];
    } else {
      assert cs[..|cs| - 1] == [] && cs[1..] == [];
    }
  }

  /** The two visiting orders give the same checked values, reversed. */
  lemma {:induction false} CheckedReversedIsReverse(cs: seq<Control>, name: string)
    ensures CheckedReversed(cs, name) == Reverse(Checked(cs, name))
  {
    if cs != [] {
      CheckedReversedIsReverse(cs[1..], name);
      CheckedFront(cs, name);
      var a, b := CheckedValue(cs[0], name), Checked(cs[1..], name);
      var lhs, rhs := Reverse(b) + a, Reverse(a + b);
      assert |lhs| == |rhs|;
      forall k | 0 <= k < |lhs| ensures lhs[k] == rhs[k] {
        if k < |b| {
          assert lhs[k] == b[|b| - 1 - k];
          assert rhs[k] == (a + b)[|a| + |b| - 1 - k];
        }
      }
    }
  }

  /**
   * The entry of a checkbox group after some of its boxes were visited, in
   * terms of the values checked so far: no box checked leaves false or
   * undefined (or nothing), one checked box leaves its value or a one-element
   * array, and from then on the entry is the array of the checked values.
   */
  predicate GroupEntry(e: Option<FieldValue>, checked: seq<FieldValue>)
  {
    (checked == [] && (e == None || e == Some(Bool(false)) || e == Some(Undef)))
    || (|checked| == 1 && e == Some(checked[0]))
    || (|checked| >= 1 && e == Some(Arr(checked)))
  }

  predicate NonEmptyStrings(vs: seq<FieldValue>)
  {
    forall k :: 0 <= k < |vs| ==> vs[k].Str? && vs[k].s != ""
  }

  /** Visiting one more box of the group keeps GroupEntry. */
  lemma CheckboxStepGroupEntry(e: Option<FieldValue>, checked: seq<FieldValue>, c: Control, name: string)
    requires GroupEntry(e, checked) && NonEmptyStrings(checked)
    requires c.name == name && GroupBox(c)
    ensures GroupEntry(CheckboxStep(e, c), checked + CheckedValue(c, name))
    ensures NonEmptyStrings(checked + CheckedValue(c, name))
  {
    var next := checked + CheckedValue(c, name);
    if !c.checked {
      assert next == checked;
    }
    if |checked| == 1 && e == Some(checked[0]) {
      assert !Falsy(checked[0]);
      assert checked == [checked[0]];
      assert next == if c.checked then checked + [Str(c.value)] else checked;
    }
  }
}
