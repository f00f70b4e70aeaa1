/**
 * The two extractors side by side. src/index.tsx visits the controls from
 * the last to the first and src/index.js from the first to the last, so
 * a checkbox group's array comes out in opposite orders, and a radio
 * group with several checked members keeps a different one.
 */
module Versions {
  import opened Wrappers
  import opened Dom
  import TsxExtract
  import JsForm

  /**
   * On the same controls, the array the newer extractor builds for a
   * checkbox group is the older one's array reversed: same values, opposite
   * order.
   */
  lemma CheckboxOrderFlips(cs: seq<Control>, name: string, ctx: TsxExtract.Context)
    requires name != "" && !(ctx.mode == TsxExtract.Resetting && name !in ctx.baseline)
    requires forall j :: 0 <= j < |cs| && cs[j].name == name ==> GroupBox(cs[j])
    requires |Checked(cs, name)| >= 2
    ensures var older := Get(JsForm.Run(cs, |cs|).values, name);
            var newer := Get(TsxExtract.Run(cs, 0, ctx).values, name);
            && older.Some? && older.value.Arr?
            && newer.Some? && newer.value.Arr?
            && newer.value.elems == Reverse(older.value.elems)
            && multiset(newer.value.elems) == multiset(older.value.elems)
  {
    JsForm.CheckboxGroup(cs, name);
    TsxExtract.CheckboxGroup(cs, name, ctx);
    ReverseSameMultiset(Checked(cs, name));
  }

  lemma {:induction false} ReverseSameMultiset<T>(s: seq<T>)
    ensures multiset(Reverse(s)) == multiset(s)
  {
    if s != [] {
      ReverseSameMultiset(s[1..]);
      assert s == [s[0]] + s[1..];
    }
  }

  /** The newer extractor keeps the first checked radio of a group. */
  lemma {:induction false} FirstCheckedIs(cs: seq<Control>, name: string, lo: nat, j: nat)
    requires lo <= j < |cs| && cs[j].name == name && cs[j].checked
    requires forall k :: lo <= k < j && cs[k].name == name ==> !cs[k].checked
    ensures TsxExtract.FirstChecked(cs, name, lo) == Some(Str(cs[j].value))
    decreases j - lo
  {
    if lo < j {
      FirstCheckedIs(cs, name, lo + 1, j);
    }
  }

  /** The older extractor keeps the last checked radio of a group. */
  lemma {:induction false} LastCheckedIs(cs: seq<Control>, name: string, hi: nat, j: nat)
    requires j < hi <= |cs| && cs[j].name == name && cs[j].checked
    requires forall k :: j < k < hi && cs[k].name == name ==> !cs[k].checked
    ensures JsForm.LastChecked(cs, name, hi) == Some(Str(cs[j].value))
  {
    if j < hi - 1 {
      LastCheckedIs(cs, name, hi - 1, j);
    }
  }

  /**
   * When exactly one radio of a group is checked, as a browser keeps it,
   * both extractors give that radio's value.
   */
  lemma RadioAgrees(cs: seq<Control>, name: string, ctx: TsxExtract.Context, j: nat)
    requires name != "" && !(ctx.mode == TsxExtract.Resetting && name !in ctx.baseline)
    requires forall k :: 0 <= k < |cs| && cs[k].name == name ==> PlainRadio(cs[k])
    requires j < |cs| && cs[j].name == name && cs[j].checked
    requires forall k :: 0 <= k < |cs| && k != j && cs[k].name == name ==> !cs[k].checked
    ensures Get(TsxExtract.Run(cs, 0, ctx).values, name) == Some(Str(cs[j].value))
    ensures Get(JsForm.Run(cs, |cs|).values, name) == Some(Str(cs[j].value))
  {
    TsxExtract.RadioGroup(cs, name, 0, ctx);
    JsForm.RadioGroup(cs, name, |cs|);
    FirstCheckedIs(cs, name, 0, j);
    LastCheckedIs(cs, name, |cs|, j);
  }

  /**
   * With two checked radios in one group, which only a form built outside
   * the browser's own radio handling can present, the two extractors keep
   * different members.
   */
  lemma RadioPicksDiffer(cs: seq<Control>, name: string, ctx: TsxExtract.Context, i: nat, j: nat)
    requires name != "" && !(ctx.mode == TsxExtract.Resetting && name !in ctx.baseline)
    requires forall k :: 0 <= k < |cs| && cs[k].name == name ==> PlainRadio(cs[k])
    requires i < j < |cs| && cs[i].name == name && cs[j].name == name && cs[i].checked && cs[j].checked
    requires forall k :: 0 <= k < |cs| && k != i && k != j && cs[k].name == name ==> !cs[k].checked
    ensures Get(TsxExtract.Run(cs, 0, ctx).values, name) == Some(Str(cs[i].value))
    ensures Get(JsForm.Run(cs, |cs|).values, name) == Some(Str(cs[j].value))
  {
    TsxExtract.RadioGroup(cs, name, 0, ctx);
    JsForm.RadioGroup(cs, name, |cs|);
    FirstCheckedIs(cs, name, 0, i);
    LastCheckedIs(cs, name, |cs|, j);
  }
}
