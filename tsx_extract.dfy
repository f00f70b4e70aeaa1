/**
 * The extraction pass of src/index.tsx (`getFormState`, lines 59-229) as
 * functions: one visit per element, elements visited from the last to the
 * first. `Run(cs, lo, ctx)` is the pass after it has visited elements
 * `|cs| - 1` down to `lo`; the class method `TsxForm.Form.GetFormState`
 * computes the same thing with a loop.
 */
module TsxExtract {
  import opened Wrappers
  import opened Dom
  import opened JsText

  /** Which handler asked for the pass: `getFormState()`, `{resetting: true}` or `{submitting: true}`. */
  datatype Mode = Normal | Resetting | Submitting

  /** A call on an element during the pass; `index` is its position in `form.elements`. */
  datatype Effect =
    | SetCustomValidity(index: nat, message: string)
    | Focus(index: nat)
    | SetDefaultValue(index: nat, to: FieldValue)
    | CheckValidity(index: nat)

  /**
   * What the pass reads besides the elements: the `domValidation` and
   * `validateOnChange` props, the mode, and the values captured at mount
   * (`this.values`).
   */
  datatype Context = Context(
    domValidation: bool,
    validateOnChange: map<string, FieldValue -> string>,
    mode: Mode,
    baseline: map<string, FieldValue>)

  /** The dictionaries the loop fills and the calls it has made on elements so far. */
  datatype Pass = Pass(values: map<string, FieldValue>, errors: map<string, string>, log: seq<Effect>)

  const FalseTokens: set<string> := {"false", "", "0", "undefined", "null"}

  /** The `data-valueasbool` closure (src/index.tsx:154-171). */
  function ValueAsBool(v: FieldValue): (r: bool)
    ensures v.Str? ==> (!r <==> Trim(v.s) in FalseTokens)
    ensures !v.Str? ==> (r <==> !Falsy(v))
  {
    if v.Str? then Trim(v.s) !in FalseTokens else !Falsy(v)
  }

  /** `valueAsDate`, or `new Date(value)` for an element that has no such property. */
  function DateValue(c: Control): FieldValue
  {
    match c.valueAsDate
    case NoDateProperty => DateVal(ParsedDate(c.value))
    case NullDate => Null
    case HasDate(d) => DateVal(d)
  }

  /** Whether the reset-mode `delete values[name]` applies to this control. */
  predicate DeletedFirst(c: Control, ctx: Context)
  {
    ctx.mode == Resetting && c.name !in ctx.baseline
  }

  /**
   * Lines 146-175: the coercion attributes replace the entry in the order
   * date, bool, number, so the number wins.
   */
  function Coerced(e: Option<FieldValue>, c: Control): (r: Option<FieldValue>)
    ensures c.asNumber ==> r == Some(NumberValue(c))
    ensures !c.asNumber && c.asBool ==> r == Some(Bool(ValueAsBool(Str(c.value))))
    ensures !c.asNumber && !c.asBool && c.asDate ==> r == Some(DateValue(c))
    ensures NoCoercion(c) ==> r == e
  {
    var e2 := if c.asDate then Some(DateValue(c)) else e;
    var e3 := if c.asBool then Some(Bool(ValueAsBool(Str(c.value)))) else e2;
    if c.asNumber then Some(NumberValue(c)) else e3
  }

  /**
   * The entry for a named control's field after its visit, given the entry
   * before it: the reset-mode delete, the switch, then the coercions.
   */
  function EntryStep(e: Option<FieldValue>, c: Control, ctx: Context): Option<FieldValue>
  {
    Coerced(BaseValue(if DeletedFirst(c, ctx) then None else e, c), c)
  }

  /** The calls of reset mode that restore a field's value captured at mount (lines 79-82). */
  function RestoreEffects(c: Control, i: nat, ctx: Context): (r: seq<Effect>)
    ensures forall e :: e in r ==> e.index == i && !e.Focus?
  {
    if ctx.mode == Resetting && !Falsy(Lookup(ctx.baseline, c.name))
    then [SetDefaultValue(i, ctx.baseline[c.name]), CheckValidity(i)]
    else []
  }

  /** Lines 71-176: a named control's value is saved under its name. */
  function VisitValues(values: map<string, FieldValue>, c: Control, ctx: Context): (r: map<string, FieldValue>)
    ensures c.name == "" ==> r == values
    ensures c.name != "" ==> Get(r, c.name) == EntryStep(Get(values, c.name), c, ctx)
    ensures forall k :: k != c.name ==> Get(r, k) == Get(values, k)
  {
    if c.name == "" then values
    else SetEntry(values, c.name, EntryStep(Get(values, c.name), c, ctx))
  }

  /** Lines 68-91: the custom validity is cleared, then the reset-mode restore. */
  function ValueEffects(c: Control, i: nat, ctx: Context): (r: seq<Effect>)
    ensures forall e :: e in r ==> e.index == i && !e.Focus?
  {
    [SetCustomValidity(i, "")] + (if c.name != "" then RestoreEffects(c, i, ctx) else [])
  }

  /** Lines 180-191: the native message, replaced by `data-errormessage` when present. */
  function NativeErrors(errors: map<string, string>, c: Control): map<string, string>
  {
    if |c.validationMessage| == 0 then errors
    else errors[c.name := c.errorMessage.GetOr(c.validationMessage)]
  }

  /** The calls of lines 181-189. */
  function NativeEffects(c: Control, i: nat, ctx: Context): (r: seq<Effect>)
    ensures forall e :: e in r ==> e.index == i
    ensures ctx.mode == Submitting && !ctx.domValidation ==>
      LastFocus(r) == if |c.validationMessage| > 0 then Some(i) else None
    ensures ctx.mode != Submitting || ctx.domValidation ==> forall e :: e in r ==> !e.Focus?
  {
    if |c.validationMessage| == 0 then []
    else
      (if !ctx.domValidation && ctx.mode == Submitting then [Focus(i)] else [])
      + (if c.errorMessage.Some? && ctx.domValidation then [SetCustomValidity(i, c.errorMessage.value)] else [])
  }

  /** What `validateOnChange[name]` returns for the value the field has at this point; "" when none. */
  function ValidatorMessage(values: map<string, FieldValue>, c: Control, ctx: Context): string
  {
    if c.name in ctx.validateOnChange then ctx.validateOnChange[c.name](Lookup(values, c.name)) else ""
  }

  /** Lines 194-208: a non-empty validator message `m` replaces the error. */
  function CustomErrors(errors: map<string, string>, c: Control, m: string): map<string, string>
  {
    if m != "" then errors[c.name := m] else errors
  }

  /** The calls of lines 198-207: a non-empty message is shown or focused, an empty one clears the custom validity. */
  function CustomEffects(c: Control, m: string, i: nat, ctx: Context): (r: seq<Effect>)
    requires c.name !in ctx.validateOnChange ==> m == ""
    ensures forall e :: e in r ==> e.index == i
    ensures ctx.mode == Submitting && !ctx.domValidation ==>
      LastFocus(r) == if m != "" then Some(i) else None
    ensures ctx.mode != Submitting || ctx.domValidation ==> forall e :: e in r ==> !e.Focus?
  {
    if c.name !in ctx.validateOnChange then []
    else if m != "" then
      (if ctx.domValidation then [SetCustomValidity(i, m)]
       else if ctx.mode == Submitting then [Focus(i)] else [])
    else [SetCustomValidity(i, "")]
  }

  /** The calls visit `i` makes on its element, in order. */
  function VisitEffects(p: Pass, c: Control, i: nat, ctx: Context): (r: seq<Effect>)
    ensures forall e :: e in r ==> e.index == i
  {
    var m := ValidatorMessage(VisitValues(p.values, c, ctx), c, ctx);
    ValueEffects(c, i, ctx) + NativeEffects(c, i, ctx) + CustomEffects(c, m, i, ctx)
  }

  /** One iteration of the loop, for element `i`. */
  function Visit(p: Pass, c: Control, i: nat, ctx: Context): Pass
  {
    var values := VisitValues(p.values, c, ctx);
    var m := ValidatorMessage(values, c, ctx);
    Pass(values, CustomErrors(NativeErrors(SwitchErrors(p.errors, c), c), c, m),
         p.log + VisitEffects(p, c, i, ctx))
  }

  /** The pass once it has visited elements `|cs| - 1` down to `lo`. */
  function Run(cs: seq<Control>, lo: nat, ctx: Context): (r: Pass)
    ensures "" !in r.values
    ensures forall e :: e in r.log ==> lo <= e.index < |cs|
    decreases |cs| - lo
  {
    if lo >= |cs| then Pass(map[], map[], [])
    else Visit(Run(cs, lo + 1, ctx), cs[lo], lo, ctx)
  }

  // ---------------------------------------------------------------------
  // Values

  /** The entry of field `name` computed from its own controls only. */
  function EntryRun(cs: seq<Control>, name: string, lo: nat, ctx: Context): Option<FieldValue>
    decreases |cs| - lo
  {
    if lo >= |cs| then None
    else
      var e := EntryRun(cs, name, lo + 1, ctx);
      if cs[lo].name == name then EntryStep(e, cs[lo], ctx) else e
  }

  /** A field's entry depends only on the controls of that name, visited last to first. */
  lemma {:induction false} FieldEntry(cs: seq<Control>, name: string, lo: nat, ctx: Context)
    requires name != ""
    ensures Get(Run(cs, lo, ctx).values, name) == EntryRun(cs, name, lo, ctx)
    decreases |cs| - lo
  {
    if lo < |cs| {
      FieldEntry(cs, name, lo + 1, ctx);
      var p := Run(cs, lo + 1, ctx);
      assert Run(cs, lo, ctx).values == VisitValues(p.values, cs[lo], ctx);
    }
  }

  /** Every key of `values` is the name of one of the visited controls. */
  lemma {:induction false} ValuesKeys(cs: seq<Control>, lo: nat, ctx: Context)
    ensures forall k :: k in Run(cs, lo, ctx).values ==> exists j :: lo <= j < |cs| && cs[j].name == k
    decreases |cs| - lo
  {
    if lo < |cs| {
      ValuesKeys(cs, lo + 1, ctx);
      var p := Run(cs, lo + 1, ctx);
      assert Run(cs, lo, ctx).values == VisitValues(p.values, cs[lo], ctx);
    }
  }

  /** Controls of other names between `lo` and `hi` leave a field's entry as it was. */
  lemma {:induction false} EntryRunSkips(cs: seq<Control>, name: string, lo: nat, hi: nat, ctx: Context)
    requires lo <= hi <= |cs|
    requires forall k :: lo <= k < hi ==> cs[k].name != name
    ensures EntryRun(cs, name, lo, ctx) == EntryRun(cs, name, hi, ctx)
    decreases hi - lo
  {
    if lo < hi {
      EntryRunSkips(cs, name, lo + 1, hi, ctx);
    }
  }

  /**
   * A checkbox with the default value "on" that is the only control of its
   * name gives true when checked, undefined when unchecked and
   * indeterminate, and false otherwise, wherever it sits in the form.
   */
  lemma LoneCheckbox(cs: seq<Control>, j: nat, ctx: Context)
    requires j < |cs| && cs[j].name != ""
    requires cs[j].kind == Checkbox && cs[j].value == "on" && NoCoercion(cs[j])
    requires forall k :: 0 <= k < |cs| && k != j ==> cs[k].name != cs[j].name
    ensures Get(Run(cs, 0, ctx).values, cs[j].name) ==
      Some(if cs[j].checked then Bool(true) else if cs[j].indeterminate then Undef else Bool(false))
  {
    var c := cs[j];
    FieldEntry(cs, c.name, 0, ctx);
    EntryRunSkips(cs, c.name, 0, j, ctx);
    EntryRunSkips(cs, c.name, j + 1, |cs|, ctx);
  }

  /** Whether some control named `name` among `cs[lo..]` is a checkbox of a group, and all are. */
  predicate GroupOfBoxes(cs: seq<Control>, name: string, lo: nat)
  {
    forall j :: lo <= j < |cs| && cs[j].name == name ==> GroupBox(cs[j])
  }

  lemma {:induction false} GroupEntryRun(cs: seq<Control>, name: string, lo: nat, ctx: Context)
    requires lo <= |cs|
    requires name != "" && !(ctx.mode == Resetting && name !in ctx.baseline)
    requires GroupOfBoxes(cs, name, lo)
    ensures GroupEntry(EntryRun(cs, name, lo, ctx), CheckedReversed(cs[lo..], name))
    ensures NonEmptyStrings(CheckedReversed(cs[lo..], name))
    decreases |cs| - lo
  {
    if lo < |cs| {
      GroupEntryRun(cs, name, lo + 1, ctx);
      assert cs[lo..][1..] == cs[lo + 1..];
      assert cs[lo..][0] == cs[lo];
      if cs[lo].name == name {
        CheckboxStepGroupEntry(EntryRun(cs, name, lo + 1, ctx), CheckedReversed(cs[lo + 1..], name), cs[lo], name);
      } else {
        assert CheckedValue(cs[lo], name) == [];
        assert CheckedReversed(cs[lo..], name) == CheckedReversed(cs[lo + 1..], name);
      }
    } else {
      assert cs[lo..] == [];
    }
  }

  /**
   * Two or more checked boxes of a group give the array of exactly the
   * checked values, in reverse document order.
   */
  lemma CheckboxGroup(cs: seq<Control>, name: string, ctx: Context)
    requires name != "" && !(ctx.mode == Resetting && name !in ctx.baseline)
    requires GroupOfBoxes(cs, name, 0)
    requires |Checked(cs, name)| >= 2
    ensures Get(Run(cs, 0, ctx).values, name) == Some(Arr(Reverse(Checked(cs, name))))
  {
    GroupEntryRun(cs, name, 0, ctx);
    FieldEntry(cs, name, 0, ctx);
    assert cs[0..] == cs;
    CheckedReversedIsReverse(cs, name);
  }

  /** The value of the first checked radio named `name` in `cs[lo..]`, in document order. */
  function FirstChecked(cs: seq<Control>, name: string, lo: nat): Option<FieldValue>
    decreases |cs| - lo
  {
    if lo >= |cs| then None
    else if cs[lo].name == name && cs[lo].checked then Some(Str(cs[lo].value))
    else FirstChecked(cs, name, lo + 1)
  }

  /**
   * Unchecked radios never write, so a radio group's value is the checked
   * radio's value, or no entry at all when none is checked.
   */
  lemma {:induction false} RadioGroup(cs: seq<Control>, name: string, lo: nat, ctx: Context)
    requires name != "" && !(ctx.mode == Resetting && name !in ctx.baseline)
    requires forall j :: lo <= j < |cs| && cs[j].name == name ==> PlainRadio(cs[j])
    ensures Get(Run(cs, lo, ctx).values, name) == FirstChecked(cs, name, lo)
    decreases |cs| - lo
  {
    FieldEntry(cs, name, lo, ctx);
    if lo < |cs| {
      RadioGroup(cs, name, lo + 1, ctx);
      FieldEntry(cs, name, lo + 1, ctx);
    }
  }

  /**
   * The reset-mode delete of a field absent at mount runs before the switch
   * writes the entry again. So when the first control of a name in document
   * order, the last one visited, is not a radio, the field is in `values`,
   * in every mode and whether or not it existed at mount.
   */
  lemma ResetKeepsNewField(cs: seq<Control>, j: nat, ctx: Context)
    requires j < |cs| && cs[j].name != "" && !cs[j].kind.Radio?
    requires forall k :: 0 <= k < j ==> cs[k].name != cs[j].name
    ensures cs[j].name in Run(cs, 0, ctx).values
  {
    var c := cs[j];
    FieldEntry(cs, c.name, 0, ctx);
    EntryRunSkips(cs, c.name, 0, j, ctx);
    assert EntryRun(cs, c.name, j, ctx) == EntryStep(EntryRun(cs, c.name, j + 1, ctx), c, ctx);
  }

  /**
   * When the first control of a name in document order is an unchecked,
   * non-indeterminate radio with no coercion attribute, a reset drops a
   * field that was absent at mount, whatever the later controls wrote.
   */
  lemma ResetDropsRadioFirstField(cs: seq<Control>, j: nat, ctx: Context)
    requires ctx.mode == Resetting
    requires j < |cs| && cs[j].name != "" && cs[j].name !in ctx.baseline
    requires PlainRadio(cs[j]) && !cs[j].checked
    requires forall k :: 0 <= k < j ==> cs[k].name != cs[j].name
    ensures cs[j].name !in Run(cs, 0, ctx).values
  {
    var n := cs[j].name;
    FieldEntry(cs, n, 0, ctx);
    EntryRunSkips(cs, n, 0, j, ctx);
    assert EntryRun(cs, n, j, ctx) == EntryStep(EntryRun(cs, n, j + 1, ctx), cs[j], ctx);
  }

  // ---------------------------------------------------------------------
  // Errors

  /**
   * What the visit of `c` leaves as the error of its field: a non-empty
   * validator message, else (for a non-empty native message) the
   * `data-errormessage` override or the native message, else nothing new.
   */
  function Contribution(p: Pass, c: Control, i: nat, ctx: Context): Option<string>
  {
    var m := ValidatorMessage(VisitValues(p.values, c, ctx), c, ctx);
    if m != "" then Some(m)
    else if |c.validationMessage| > 0 then Some(c.errorMessage.GetOr(c.validationMessage))
    else None
  }

  /** The precedence of the three sources of an error, for one visit. */
  lemma VisitErrors(p: Pass, c: Control, i: nat, ctx: Context)
    ensures var r := Visit(p, c, i, ctx).errors;
      match Contribution(p, c, i, ctx)
      case Some(m) => r == p.errors[c.name := m]
      case None => r == p.errors
  {
    var s := SwitchErrors(p.errors, c);
    assert s == p.errors || (|c.validationMessage| > 0 && s == p.errors[c.name := c.validationMessage]);
  }

  /** The contribution of element `j` of the pass. */
  function ContributionAt(cs: seq<Control>, j: nat, ctx: Context): Option<string>
    requires j < |cs|
  {
    Contribution(Run(cs, j + 1, ctx), cs[j], j, ctx)
  }

  /** The contribution of the first control named `k` in `cs[lo..]`, in document order, that has one. */
  function FirstContribution(cs: seq<Control>, k: string, lo: nat, ctx: Context): Option<string>
    decreases |cs| - lo
  {
    if lo >= |cs| then None
    else if cs[lo].name == k && ContributionAt(cs, lo, ctx).Some? then ContributionAt(cs, lo, ctx)
    else FirstContribution(cs, k, lo + 1, ctx)
  }

  /** A field's error is the one of its first control in document order that reports one. */
  lemma {:induction false} FieldError(cs: seq<Control>, k: string, lo: nat, ctx: Context)
    ensures Get(Run(cs, lo, ctx).errors, k) == FirstContribution(cs, k, lo, ctx)
    decreases |cs| - lo
  {
    if lo < |cs| {
      FieldError(cs, k, lo + 1, ctx);
      VisitErrors(Run(cs, lo + 1, ctx), cs[lo], lo, ctx);
    }
  }

  // ---------------------------------------------------------------------
  // Focus on submit

  /** Element `j` reports an error: a native message or a non-empty validator message. */
  predicate Erring(cs: seq<Control>, j: nat, ctx: Context)
    requires j < |cs|
  {
    |cs[j].validationMessage| > 0
    || ValidatorMessage(VisitValues(Run(cs, j + 1, ctx).values, cs[j], ctx), cs[j], ctx) != ""
  }

  /** The first element of `cs[lo..]`, in document order, that reports an error. */
  function FirstErring(cs: seq<Control>, lo: nat, ctx: Context): (r: Option<nat>)
    ensures r.Some? ==> lo <= r.value < |cs| && Erring(cs, r.value, ctx)
    decreases |cs| - lo
  {
    if lo >= |cs| then None
    else if Erring(cs, lo, ctx) then Some(lo)
    else FirstErring(cs, lo + 1, ctx)
  }

  /** The element of the last `focus()` call in a log. */
  function LastFocus(log: seq<Effect>): (r: Option<nat>)
    ensures r.Some? ==> Focus(r.value) in log
    ensures r.None? ==> forall e :: e in log ==> !e.Focus?
  {
    if log == [] then None
    else if log[|log| - 1].Focus? then Some(log[|log| - 1].index)
    else LastFocus(log[..|log| - 1])
  }

  lemma {:induction false} LastFocusNone(log: seq<Effect>)
    requires forall e :: e in log ==> !e.Focus?
    ensures LastFocus(log) == None
    decreases |log|
  {
    if log != [] {
      assert log[|log| - 1] in log;
      forall e | e in log[..|log| - 1] ensures !e.Focus? {
        assert e in log;
      }
      LastFocusNone(log[..|log| - 1]);
    }
  }

  lemma {:induction false} LastFocusAppend(a: seq<Effect>, b: seq<Effect>)
    ensures LastFocus(a + b) == if LastFocus(b).Some? then LastFocus(b) else LastFocus(a)
    decreases |b|
  {
    if b == [] {
      assert a + b == a;
    } else {
      assert (a + b)[..|a + b| - 1] == a + b[..|b| - 1];
      LastFocusAppend(a, b[..|b| - 1]);
    }
  }

  /** Where the last `focus()` of visit `i` is, when a submit runs the pass without native display. */
  lemma VisitFocus(p: Pass, c: Control, i: nat, ctx: Context)
    requires ctx.mode == Submitting && !ctx.domValidation
    ensures LastFocus(VisitEffects(p, c, i, ctx)) ==
      if |c.validationMessage| > 0 || ValidatorMessage(VisitValues(p.values, c, ctx), c, ctx) != ""
      then Some(i) else None
  {
    var m := ValidatorMessage(VisitValues(p.values, c, ctx), c, ctx);
    var a1, a2, a3 := ValueEffects(c, i, ctx), NativeEffects(c, i, ctx), CustomEffects(c, m, i, ctx);
    LastFocusNone(a1);
    LastFocusAppend(a1, a2);
    LastFocusAppend(a1 + a2, a3);
  }

  /** A visit outside a library-managed submit calls `focus()` on nothing. */
  lemma VisitNoFocus(p: Pass, c: Control, i: nat, ctx: Context)
    requires ctx.mode != Submitting || ctx.domValidation
    ensures forall e :: e in VisitEffects(p, c, i, ctx) ==> !e.Focus?
  {
  }

  /**
   * When a submit runs the pass and the browser does not show the messages,
   * the last `focus()` lands on the first element in document order that
   * reports an error, and there is none when no element does.
   */
  lemma {:induction false} FocusOnFirstError(cs: seq<Control>, lo: nat, ctx: Context)
    requires ctx.mode == Submitting && !ctx.domValidation
    ensures LastFocus(Run(cs, lo, ctx).log) == FirstErring(cs, lo, ctx)
    decreases |cs| - lo
  {
    if lo < |cs| {
      FocusOnFirstError(cs, lo + 1, ctx);
      var p := Run(cs, lo + 1, ctx);
      VisitFocus(p, cs[lo], lo, ctx);
      LastFocusAppend(p.log, VisitEffects(p, cs[lo], lo, ctx));
    }
  }

  /** Outside a submit, or when the browser shows the messages, the pass focuses nothing. */
  lemma {:induction false} NoFocus(cs: seq<Control>, lo: nat, ctx: Context)
    requires ctx.mode != Submitting || ctx.domValidation
    ensures forall e :: e in Run(cs, lo, ctx).log ==> !e.Focus?
    decreases |cs| - lo
  {
    if lo < |cs| {
      NoFocus(cs, lo + 1, ctx);
      VisitNoFocus(Run(cs, lo + 1, ctx), cs[lo], lo, ctx);
    }
  }

  // ---------------------------------------------------------------------
  // Coercions

  /** `data-valueasbool` ignores white space around one of the false tokens. */
  lemma ValueAsBoolPadded(p1: string, t: string, p2: string)
    requires AllSpace(p1) && AllSpace(p2) && t in FalseTokens
    ensures !ValueAsBool(Str(p1 + t + p2))
  {
    TrimPadded(p1, t, p2);
  }

  /** "false" is false and "false1" is true. */
  lemma ValueAsBoolExamples()
    ensures !ValueAsBool(Str("false"))
    ensures ValueAsBool(Str("false1"))
  {
    TrimPadded("", "false", "");
    TrimPadded("", "false1", "");
  }

  /** `data-valueasnumber` wins over the other coercions and over the control type. */
  lemma NumberWins(cs: seq<Control>, lo: nat, ctx: Context)
    requires lo < |cs| && cs[lo].name != "" && cs[lo].asNumber
    ensures Get(Run(cs, lo, ctx).values, cs[lo].name) == Some(NumberValue(cs[lo]))
  {
    FieldEntry(cs, cs[lo].name, lo, ctx);
  }
}
