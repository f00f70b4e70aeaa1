/**
 * The `Form` component of src/index.tsx: its bookkeeping fields, the
 * extraction loop of `getFormState` and the synchronous bodies of its
 * handlers. Each handler's effect on the bookkeeping is `Apply` of one
 * `Event` to a `Session` value; `Replay` folds a sequence of events.
 */
module TsxForm {
  import opened Wrappers
  import opened Dom
  import opened TsxExtract

  /**
   * The object `getFormState` returns (src/index.tsx:218-228);
   * `isValidating` is None while `handleBlur` has never set it.
   */
  datatype FormState = FormState(
    values: map<string, FieldValue>,
    errors: map<string, string>,
    dirty: set<string>,
    touched: set<string>,
    isValidating: Option<bool>,
    isDirty: bool,
    isValid: bool,
    submitCount: nat)

  /** What `onData` receives: the full state, or one of the partial objects the handlers publish. */
  datatype Payload =
    | Full(state: FormState)
    | TouchedOnly(touched: set<string>)
    | BlurredOnly(blurred: set<string>)
    | ValidatingOnly(isValidating: bool)

  /** A call the component makes on its props or on the event, in order. */
  datatype Call =
    | OnFocus
    | OnBlur
    | OnChange
    | OnReset
    | OnSubmit
    | OnData(payload: Payload)
    | OnChangeWithData(state: FormState)
    | OnResetWithData(state: FormState)
    | OnSubmitWithData(state: FormState)
    | PreventDefault

  // ---------------------------------------------------------------------
  // Bookkeeping as values

  /** The instance fields the handlers update (src/index.tsx:40-43); a dictionary of `true`s is its key set. */
  datatype Session = Session(submitCount: nat, touched: set<string>, dirty: set<string>, blurred: set<string>)

  /** A handler run, with the `name` of the event's target. */
  datatype Event = FocusOn(name: string) | ChangeOn(name: string) | BlurOn(name: string) | Submit | Reset

  const Initial := Session(0, {}, {}, {})

  /** `dict[name] = true`, done only when the target has a name. */
  function Mark(s: set<string>, name: string): (r: set<string>)
    ensures name != "" ==> r == s + {name}
    ensures name == "" ==> r == s
  {
    if name != "" then s + {name} else s
  }

  function Apply(s: Session, e: Event): Session
  {
    match e
    case FocusOn(n) => s.(touched := Mark(s.touched, n))
    case ChangeOn(n) => s.(dirty := Mark(s.dirty, n))
    case BlurOn(n) => s.(blurred := Mark(s.blurred, n))
    case Submit => s.(submitCount := s.submitCount + 1)
    case Reset => Initial
  }

  function Replay(s: Session, events: seq<Event>): Session
  {
    if events == [] then s else Apply(Replay(s, events[..|events| - 1]), events[|events| - 1])
  }

  function Submits(events: seq<Event>): (r: nat)
    ensures r <= |events|
  {
    if events == [] then 0
    else Submits(events[..|events| - 1]) + (if events[|events| - 1] == Submit then 1 else 0)
  }

  /** The names of the targets of the focus events. */
  function Focused(events: seq<Event>): set<string>
  {
    set e | e in events && e.FocusOn? && e.name != "" :: e.name
  }

  function Changed(events: seq<Event>): set<string>
  {
    set e | e in events && e.ChangeOn? && e.name != "" :: e.name
  }

  function Blurred(events: seq<Event>): set<string>
  {
    set e | e in events && e.BlurOn? && e.name != "" :: e.name
  }

  /**
   * Between two resets the bookkeeping only grows: each submit adds one to
   * `submitCount`, and `touched`, `dirty` and `blurred` gain exactly the
   * names of the focused, changed and blurred targets.
   */
  lemma {:induction false} ReplayWithoutReset(s: Session, events: seq<Event>)
    requires Reset !in events
    ensures var r := Replay(s, events);
      && r.submitCount == s.submitCount + Submits(events)
      && r.touched == s.touched + Focused(events)
      && r.dirty == s.dirty + Changed(events)
      && r.blurred == s.blurred + Blurred(events)
  {
    if events != [] {
      var init, last := events[..|events| - 1], events[|events| - 1];
      assert events == init + [last];
      assert forall e :: e in events <==> e in init || e == last;
      ReplayWithoutReset(s, init);
    }
  }

  /** A reset forgets everything that happened before it. */
  lemma {:induction false} ReplayAfterReset(s: Session, before: seq<Event>, after: seq<Event>)
    ensures Replay(s, before + [Reset] + after) == Replay(Initial, after)
    decreases |after|
  {
    var all := before + [Reset] + after;
    if after == [] {
      assert all[..|all| - 1] == before;
    } else {
      assert all[..|all| - 1] == before + [Reset] + after[..|after| - 1];
      ReplayAfterReset(s, before, after[..|after| - 1]);
    }
  }

  // ---------------------------------------------------------------------
  // The component

  /** One iteration of the loop of `getFormState` (src/index.tsx:65-208). */
  method VisitElement(values: map<string, FieldValue>, errors: map<string, string>, log: seq<Effect>,
                      element: Control, i: nat, ctx: Context)
    returns (values': map<string, FieldValue>, errors': map<string, string>, log': seq<Effect>)
    ensures Pass(values', errors', log') == Visit(Pass(values, errors, log), element, i, ctx)
  {
    values', errors', log' := SaveValue(values, errors, log, element, i, ctx);
    errors', log' := SaveNativeError(errors', log', element, i, ctx);
    errors', log' := Validate(values', errors', log', element, i, ctx);
    ghost var a1, a2 := ValueEffects(element, i, ctx), NativeEffects(element, i, ctx);
    ghost var a3 := CustomEffects(element, ValidatorMessage(values', element, ctx), i, ctx);
    assert VisitEffects(Pass(values, errors, log), element, i, ctx) == a1 + a2 + a3;
    assert log' == log + (a1 + a2 + a3);
  }

  /** Lines 67-176 of the loop body: clear the custom validity, then save a named element's value. */
  method SaveValue(values: map<string, FieldValue>, errors: map<string, string>, log: seq<Effect>,
                   element: Control, i: nat, ctx: Context)
    returns (values': map<string, FieldValue>, errors': map<string, string>, log': seq<Effect>)
    ensures values' == VisitValues(values, element, ctx)
    ensures errors' == SwitchErrors(errors, element)
    ensures log' == log + ValueEffects(element, i, ctx)
  {
    values', errors', log' := values, errors, log + [SetCustomValidity(i, "")];
    if element.name != "" {
      var name := element.name;
      if ctx.mode == Resetting {
        if !Falsy(Lookup(ctx.baseline, name)) {
          log' := log' + [SetDefaultValue(i, ctx.baseline[name]), CheckValidity(i)];
        }
        if name !in ctx.baseline {
          values' := values' - {name};
        }
      }
      values', errors' := SwitchOnType(values', errors', element);
      values' := ApplyCoercions(values', element);
      SameEntries(values', VisitValues(values, element, ctx));
    }
  }

  /** Lines 180-191: record the native message or its override. */
  method SaveNativeError(errors: map<string, string>, log: seq<Effect>, element: Control, i: nat, ctx: Context)
    returns (errors': map<string, string>, log': seq<Effect>)
    ensures errors' == NativeErrors(errors, element)
    ensures log' == log + NativeEffects(element, i, ctx)
  {
    errors', log' := errors, log;
    if |element.validationMessage| > 0 {
      if !ctx.domValidation && ctx.mode == Submitting {
        log' := log' + [Focus(i)];
      }
      errors' := errors'[element.name := element.validationMessage];
      if element.errorMessage.Some? {
        errors' := errors'[element.name := element.errorMessage.value];
        if ctx.domValidation {
          log' := log' + [SetCustomValidity(i, errors'[element.name])];
        }
      }
    }
  }

  /** Lines 194-208: run `validateOnChange[name]` on the value the field has now. */
  method Validate(values: map<string, FieldValue>, errors: map<string, string>, log: seq<Effect>,
                  element: Control, i: nat, ctx: Context)
    returns (errors': map<string, string>, log': seq<Effect>)
    ensures var m := ValidatorMessage(values, element, ctx);
      errors' == CustomErrors(errors, element, m) && log' == log + CustomEffects(element, m, i, ctx)
  {
    errors', log' := errors, log;
    if element.name in ctx.validateOnChange {
      var errorMessage := ctx.validateOnChange[element.name](Lookup(values, element.name));
      if errorMessage != "" {
        if ctx.domValidation {
          log' := log' + [SetCustomValidity(i, errorMessage)];
        } else if ctx.mode == Submitting {
          log' := log' + [Focus(i)];
        }
        errors' := errors'[element.name := errorMessage];
      } else {
        log' := log' + [SetCustomValidity(i, "")];
      }
    }
  }

  /** Lines 146-175 on the dictionary: the coercion attributes, in order. */
  method ApplyCoercions(values: map<string, FieldValue>, element: Control) returns (values': map<string, FieldValue>)
    requires element.name != ""
    ensures Get(values', element.name) == Coerced(Get(values, element.name), element)
    ensures forall k :: k != element.name ==> Get(values', k) == Get(values, k)
  {
    var name := element.name;
    values' := values;
    if element.asDate {
      match element.valueAsDate {
        case NoDateProperty => values' := values'[name := DateVal(ParsedDate(element.value))];
        case NullDate => values' := values'[name := Null];
        case HasDate(d) => values' := values'[name := DateVal(d)];
      }
    }
    if element.asBool {
      values' := values'[name := Bool(ValueAsBool(Str(element.value)))];
    }
    if element.asNumber {
      values' := values'[name := if element.valueAsNumber.Some? then NumVal(element.valueAsNumber.value) else Undef];
    }
  }

  class Form {
    const domValidation: bool
    const validateOnChange: map<string, FieldValue -> string>
    /** `typeof this.props.onSubmitWithData === "function"`; true with the default props. */
    const submitWithData: bool
    /** The names that have an entry in the `validateOnBlur` prop. */
    const validateOnBlur: set<string>

    var submitCount: nat
    var touched: set<string>
    var dirty: set<string>
    var blurred: set<string>
    /** `this.values`: the values captured at mount, None before it. */
    var values: Option<map<string, FieldValue>>
    /** `this.isValidating`, None until `handleBlur` first sets it. */
    var isValidating: Option<bool>

    function Bookkeeping(): Session
      reads this
    {
      Session(submitCount, touched, dirty, blurred)
    }

    function Ctx(mode: Mode): Context
      reads this
    {
      Context(domValidation, validateOnChange, mode, values.GetOr(map[]))
    }

    /**
     * The state a pass publishes: the dictionaries of `Run`, the bookkeeping
     * as it stands, `isValid` exactly when there is no error, and `isDirty`
     * exactly when, outside reset mode and after mount, the values differ
     * from the ones captured at mount.
     */
    function Snapshot(elements: seq<Control>, mode: Mode): (s: FormState)
      reads this
      ensures s.isValid <==> s.errors == map[]
      ensures !s.isDirty <==> values.None? || mode == Resetting || s.values == values.value
      ensures s.dirty == dirty && s.touched == touched && s.isValidating == isValidating
      ensures s.submitCount == submitCount
    {
      var p := Run(elements, 0, Ctx(mode));
      var isDirty := if values.None? then false else if mode == Resetting then false else p.values != values.value;
      FormState(p.values, p.errors, dirty, touched, isValidating, isDirty, p.errors == map[], submitCount)
    }

    constructor (domValidation: bool, validateOnChange: map<string, FieldValue -> string>, submitWithData: bool,
                 validateOnBlur: set<string>)
      ensures this.domValidation == domValidation && this.validateOnChange == validateOnChange
      ensures this.submitWithData == submitWithData && this.validateOnBlur == validateOnBlur
      ensures Bookkeeping() == Initial && values == None && isValidating == None
    {
      this.domValidation := domValidation;
      this.validateOnChange := validateOnChange;
      this.submitWithData := submitWithData;
      this.validateOnBlur := validateOnBlur;
      isValidating := None;
      submitCount := 0;
      blurred := {};
      dirty := {};
      touched := {};
      values := None;
    }

    /**
     * `getFormState` (src/index.tsx:59-229): the loop visits the elements
     * from the last to the first, as `Run` does; `effects` are the calls it
     * makes on them.
     */
    method GetFormState(elements: seq<Control>, mode: Mode) returns (state: FormState, effects: seq<Effect>)
      requires mode == Resetting ==> values.Some?
      ensures var p := Run(elements, 0, Ctx(mode));
        state.values == p.values && state.errors == p.errors && effects == p.log
      ensures state.isValid <==> state.errors == map[]
      ensures !state.isDirty <==> values.None? || mode == Resetting || state.values == values.value
      ensures state.dirty == dirty && state.touched == touched && state.submitCount == submitCount
      ensures state == Snapshot(elements, mode)
    {
      var ctx := Ctx(mode);
      var vals: map<string, FieldValue> := map[];
      var errors: map<string, string> := map[];
      var log: seq<Effect> := [];
      var i := |elements|;
      while i > 0
        invariant 0 <= i <= |elements|
        invariant Pass(vals, errors, log) == Run(elements, i, ctx)
      {
        i := i - 1;
        var element := elements[i];
        vals, errors, log := VisitElement(vals, errors, log, element, i, ctx);
      }
      var isDirty := if values.None? then false else if mode == Resetting then false else vals != values.value;
      state := FormState(vals, errors, dirty, touched, isValidating, isDirty, |errors| == 0, submitCount);
      effects := log;
    }

    /** `componentDidMount` (src/index.tsx:53-57): the first pass is never dirty, and its values become the baseline. */
    method Mount(elements: seq<Control>) returns (calls: seq<Call>, effects: seq<Effect>)
      requires values.None?
      modifies this`values
      ensures var p := Run(elements, 0, old(Ctx(Normal)));
        values == Some(p.values) && effects == p.log
      ensures calls == [OnData(Full(old(Snapshot(elements, Normal))))]
      ensures values == Some(old(Snapshot(elements, Normal)).values)
      ensures !old(Snapshot(elements, Normal)).isDirty
    {
      var state;
      state, effects := GetFormState(elements, Normal);
      values := Some(state.values);
      calls := [OnData(Full(state))];
    }

    /** `handleFocus` (src/index.tsx:278-285). */
    method HandleFocus(target: string) returns (calls: seq<Call>)
      modifies this`touched
      ensures Bookkeeping() == Apply(old(Bookkeeping()), FocusOn(target))
      ensures calls == [OnFocus, OnData(TouchedOnly(touched))]
    {
      if target != "" {
        touched := touched + {target};
      }
      calls := [OnFocus, OnData(TouchedOnly(touched))];
    }

    /**
     * The synchronous part of `handleBlur` (src/index.tsx:231-265): the
     * whole body when the target's name has no `validateOnBlur` entry, and up
     * to the `await` on the validator when it has one, which leaves
     * `isValidating` true.
     */
    method HandleBlur(target: string) returns (calls: seq<Call>)
      modifies this`blurred, this`isValidating
      ensures Bookkeeping() == Apply(old(Bookkeeping()), BlurOn(target))
      ensures isValidating == Some(target in validateOnBlur)
      ensures calls == [OnBlur]
                       + (if target != "" then [OnData(BlurredOnly(blurred))] else [])
                       + [OnData(ValidatingOnly(true))]
                       + (if target in validateOnBlur then [] else [OnData(ValidatingOnly(false))])
    {
      calls := [OnBlur];
      if target != "" {
        blurred := blurred + {target};
        calls := calls + [OnData(BlurredOnly(blurred))];
      }
      isValidating := Some(true);
      calls := calls + [OnData(ValidatingOnly(true))];
      if target !in validateOnBlur {
        isValidating := Some(false);
        calls := calls + [OnData(ValidatingOnly(false))];
      }
    }

    /**
     * `handleChange` (src/index.tsx:267-276). The state is computed before
     * the target is marked dirty, but its `dirty` is the same object, so the
     * published state already holds the target.
     */
    method HandleChange(elements: seq<Control>, target: string) returns (calls: seq<Call>, effects: seq<Effect>)
      modifies this`dirty
      ensures Bookkeeping() == Apply(old(Bookkeeping()), ChangeOn(target))
      ensures var state := old(Snapshot(elements, Normal)).(dirty := dirty);
        calls == [OnChange, OnData(Full(state)), OnChangeWithData(state)]
      ensures var state := calls[2].state;
        && state.values == Run(elements, 0, old(Ctx(Normal))).values
        && (state.isDirty <==> values.Some? && state.values != values.value)
      ensures effects == Run(elements, 0, old(Ctx(Normal))).log
    {
      var state;
      state, effects := GetFormState(elements, Normal);
      if target != "" {
        dirty := dirty + {target};
      }
      state := state.(dirty := dirty);
      calls := [OnChange, OnData(Full(state)), OnChangeWithData(state)];
    }

    /**
     * `handleSubmit` (src/index.tsx:302-312): the count goes up by one before
     * the submitting pass; a function-valued `onSubmitWithData` suppresses
     * the native submission and receives the state.
     */
    method HandleSubmit(elements: seq<Control>) returns (calls: seq<Call>, effects: seq<Effect>)
      modifies this`submitCount
      ensures Bookkeeping() == Apply(old(Bookkeeping()), Submit)
      ensures var state := Snapshot(elements, Submitting);
        calls == [OnSubmit, OnData(Full(state))] + (if submitWithData then [PreventDefault, OnSubmitWithData(state)] else [])
      ensures calls[1].payload.state.submitCount == old(submitCount) + 1
      ensures effects == Run(elements, 0, Ctx(Submitting)).log
    {
      submitCount := submitCount + 1;
      var state;
      state, effects := GetFormState(elements, Submitting);
      calls := [OnSubmit, OnData(Full(state))];
      if submitWithData {
        calls := calls + [PreventDefault, OnSubmitWithData(state)];
      }
    }

    /**
     * The callback `handleReset` defers (src/index.tsx:290-298): the
     * bookkeeping starts over and the pass runs in reset mode, so the state
     * it publishes is neither dirty nor submitted.
     */
    method ResetCallback(elements: seq<Control>) returns (calls: seq<Call>, effects: seq<Effect>)
      requires values.Some?
      modifies this`submitCount, this`touched, this`dirty, this`blurred
      ensures Bookkeeping() == Apply(old(Bookkeeping()), Reset)
      ensures var state := Snapshot(elements, Resetting);
        calls == [OnReset, OnData(Full(state)), OnResetWithData(state)]
      ensures var state := calls[2].state;
        state.submitCount == 0 && state.touched == {} && state.dirty == {} && !state.isDirty
      ensures effects == Run(elements, 0, Ctx(Resetting)).log
    {
      submitCount := 0;
      blurred := {};
      dirty := {};
      touched := {};
      var state;
      state, effects := GetFormState(elements, Resetting);
      calls := [OnReset, OnData(Full(state)), OnResetWithData(state)];
    }
  }
}
