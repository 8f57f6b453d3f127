/**
 * The field formatter and `format_entry`, as functions on values. Python's
 * `format_fields` mutates a shallow copy of the record and overwrites the
 * elements of list fields in place; here each step returns the new value,
 * and `Settle` gives what such a list holds once its loop has run (the
 * in-place version with arrays is in module InPlace).
 */
module Formatting {
  import opened Text
  import opened Values
  import opened Templates
  import opened FieldRules

  /** What `format_fields` joins the elements of a list field with. */
  const Separator: string := "\n\n\n"

  /**
   * `format_entry(m, t)`: the fields of a copy of `m` are formatted with
   * FIELD_FORMATTERS, then `t` is filled from the copy.
   */
  function FormatEntry(m: Record, t: Template): Result<string>
    decreases Rec(m), 2, 0
  {
    match FormatFieldsFrom(FieldFormatters, m, 0)
    case Err(e) => Err(e)
    case Ok(m') => Ok(Render(t, m'))
  }

  /** The loop of `format_fields` from pair `i` on: the formatted pairs, or the first error. */
  function FormatFieldsFrom(rules: map<string, Rule>, m: Record, i: nat): Result<Record>
    requires i <= |m|
    decreases Rec(m), 1, |m| - i
  {
    if i == |m| then Ok([])
    else
      match FieldResult(rules, m[i])
      case Err(e) => Err(e)
      case Ok(v) =>
        match FormatFieldsFrom(rules, m, i + 1)
        case Err(e) => Err(e)
        case Ok(rest) => Ok([(m[i].0, v)] + rest)
  }

  /** One iteration of `format_fields`: a key without a rule keeps its value. */
  function FieldResult(rules: map<string, Rule>, p: (string, Value)): Result<Value>
    decreases p.1, 5, 0
  {
    if p.0 !in rules then Ok(p.1)
    else
      match FormatValue(rules[p.0], p.1)
      case Err(e) => Err(e)
      case Ok(s) => Ok(Str(s))
  }

  /** A list field is joined from its elements; any other value goes to the rule. */
  function FormatValue(rule: Rule, v: Value): Result<string>
    decreases v, 4, 0
  {
    match v
    case List(es) => FormatList(rule, es)
    case _ => ApplyRule(rule, v)
  }

  /**
   * The list branch of `format_fields`: mapping elements are formatted in
   * order, then `"\n\n\n".join` raises a TypeError if an element is not a string.
   */
  function FormatList(rule: Rule, es: seq<Value>): Result<string>
    decreases List(es), 3, 0
  {
    var (after, err) := Settle(rule, es, 0);
    if err.Some? then Err(err.value)
    else if forall j :: 0 <= j < |after| ==> after[j].Str? then
      Ok(Join(seq(|after|, j requires 0 <= j < |after| && after[j].Str? => after[j].s), Separator))
    else Err(TypeError)
  }

  /**
   * What elements `i..` of a list hold after the in-place loop: each mapping
   * is replaced by its rendering, up to the first one whose rendering raises
   * (that error is returned, and it and the rest stay as they were).
   */
  function Settle(rule: Rule, es: seq<Value>, i: nat): (seq<Value>, Option<Error>)
    requires i <= |es|
    decreases List(es), 2, |es| - i
  {
    if i == |es| then ([], None)
    else if es[i].Rec? then
      match ApplyRule(rule, es[i])
      case Err(e) => (es[i..], Some(e))
      case Ok(s) =>
        var (rest, err) := Settle(rule, es, i + 1);
        ([Str(s)] + rest, err)
    else
      var (rest, err) := Settle(rule, es, i + 1);
      ([es[i]] + rest, err)
  }

  /**
   * A rule applied to a value that is not a list. A string function calls
   * `.replace`, which only strings have (AttributeError). A template goes
   * through `format_entry`, whose `defaultdict(str, v)` accepts a mapping,
   * turns "" into an empty mapping, rejects any other string (ValueError) and
   * any other value (TypeError).
   */
  function ApplyRule(rule: Rule, v: Value): Result<string>
    requires !v.List?
    decreases v, 3, 0
  {
    match rule
    case Fn(f) => if v.Str? then Ok(Apply(f, v.s)) else Err(AttributeError)
    case Tpl(t) =>
      match v
      case Rec(fs) => FormatEntry(fs, t)
      case Str(s) => if s == [] then Ok(Render(t, [])) else Err(ValueError)
      case _ => Err(TypeError)
  }

  function FormatFields(rules: map<string, Rule>, m: Record): Result<Record>
  {
    FormatFieldsFrom(rules, m, 0)
  }

  function FormatPrompt(m: Record): Result<string>
  {
    FormatEntry(m, PromptTemplate())
  }

  function FormatCompletion(m: Record): Result<string>
  {
    FormatEntry(m, CompletionTemplate())
  }

  // ---------------------------------------------------------------------------
  // format_fields

  /** The state of a list element once the loop has rendered it. */
  function Settled(rule: Rule, e: Value): Value
  {
    if e.Rec? && ApplyRule(rule, e).Ok? then Str(ApplyRule(rule, e).value) else e
  }

  /** The list branch succeeds on an element that is a string or a mapping that renders. */
  predicate Renders(rule: Rule, e: Value)
  {
    e.Str? || (e.Rec? && ApplyRule(rule, e).Ok?)
  }

  /** Each iteration of the loop, from pair `i` on, succeeds exactly when every field's rule does. */
  lemma {:induction false} FormatFieldsFromOk(rules: map<string, Rule>, m: Record, i: nat)
    requires i <= |m|
    ensures FormatFieldsFrom(rules, m, i).Ok? <==>
      forall j :: i <= j < |m| ==> FieldResult(rules, m[j]).Ok?
    ensures FormatFieldsFrom(rules, m, i).Ok? ==>
      FormatFieldsFrom(rules, m, i).value ==
        seq(|m| - i, j requires 0 <= j < |m| - i => (m[i + j].0, FieldResult(rules, m[i + j]).value))
    decreases |m| - i
  {
    if i < |m| {
      FormatFieldsFromOk(rules, m, i + 1);
    }
  }

  /** The error `format_fields` raises is the one of the first field that fails. */
  lemma {:induction false} FormatFieldsFromErr(rules: map<string, Rule>, m: Record, i: nat, e: Error)
    requires i <= |m|
    ensures FormatFieldsFrom(rules, m, i) == Err(e) <==>
      exists j :: i <= j < |m| && FieldResult(rules, m[j]) == Err(e) &&
        forall k :: i <= k < j ==> FieldResult(rules, m[k]).Ok?
    decreases |m| - i
  {
    if i < |m| {
      FormatFieldsFromErr(rules, m, i + 1, e);
      if FieldResult(rules, m[i]).Ok? {
        FormatFieldsFromOk(rules, m, i + 1);
      }
    }
  }

  /** How many fields the loop of `format_fields` gets through before one fails. */
  function Progress(rules: map<string, Rule>, m: Record): (n: nat)
    ensures n <= |m|
    ensures forall j :: 0 <= j < n ==> FieldResult(rules, m[j]).Ok?
    ensures n < |m| ==> FieldResult(rules, m[n]).Err?
  {
    if m == [] then 0
    else if FieldResult(rules, m[0]).Err? then 0
    else 1 + Progress(rules, m[1..])
  }

  /** `format_entry` fails exactly when formatting the fields does, whatever the template. */
  lemma FormatEntryFields(m: Record, t: Template)
    ensures FormatEntry(m, t).Ok? <==> FormatFields(FieldFormatters, m).Ok?
    ensures FormatEntry(m, t).Ok? ==> FormatEntry(m, t).value == Render(t, FormatFields(FieldFormatters, m).value)
    ensures FormatEntry(m, t).Err? ==> FormatEntry(m, t).error == FormatFields(FieldFormatters, m).error
  {
  }

  /** When `format_fields` succeeds, its loop has been through every field. */
  lemma ProgressAll(rules: map<string, Rule>, m: Record)
    requires FormatFields(rules, m).Ok?
    ensures Progress(rules, m) == |m|
  {
    FormatFieldsOk(rules, m);
  }

  /**
   * `format_fields` adds no key, drops no key and keeps the order: a key
   * without a rule keeps its value, a key with one now holds a string.
   */
  lemma FormatFieldsShape(rules: map<string, Rule>, m: Record)
    requires FormatFields(rules, m).Ok?
    ensures Keys(FormatFields(rules, m).value) == Keys(m)
    ensures forall i :: 0 <= i < |m| && m[i].0 !in rules ==> FormatFields(rules, m).value[i] == m[i]
    ensures forall i :: 0 <= i < |m| && m[i].0 in rules ==> FormatFields(rules, m).value[i].1.Str?
  {
    FormatFieldsFromOk(rules, m, 0);
  }

  /** `format_fields` succeeds exactly when the rule of every field does. */
  lemma FormatFieldsOk(rules: map<string, Rule>, m: Record)
    ensures FormatFields(rules, m).Ok? <==> forall i :: 0 <= i < |m| ==> FieldResult(rules, m[i]).Ok?
    ensures FormatFields(rules, m).Ok? ==>
      FormatFields(rules, m).value == seq(|m|, i requires 0 <= i < |m| => (m[i].0, FieldResult(rules, m[i]).value))
  {
    FormatFieldsFromOk(rules, m, 0);
  }

  lemma {:induction false} FormatFieldsFromAgree(rules: map<string, Rule>, m1: Record, m2: Record, i: nat)
    requires i <= |m1| == |m2|
    requires forall j :: i <= j < |m1| ==> m1[j].0 == m2[j].0 && FieldResult(rules, m1[j]) == FieldResult(rules, m2[j])
    ensures FormatFieldsFrom(rules, m1, i) == FormatFieldsFrom(rules, m2, i)
    decreases |m1| - i
  {
    if i < |m1| {
      FormatFieldsFromAgree(rules, m1, m2, i + 1);
    }
  }

  /** Only what each field formats to matters: records whose fields format alike format alike. */
  lemma FormatFieldsAgree(rules: map<string, Rule>, m1: Record, m2: Record)
    requires |m1| == |m2|
    requires forall j :: 0 <= j < |m1| ==> m1[j].0 == m2[j].0 && FieldResult(rules, m1[j]) == FieldResult(rules, m2[j])
    ensures FormatFields(rules, m1) == FormatFields(rules, m2)
  {
    FormatFieldsFromAgree(rules, m1, m2, 0);
  }

  /** When it fails, it fails with the error of the first field (in insertion order) that fails. */
  lemma FormatFieldsErr(rules: map<string, Rule>, m: Record, e: Error)
    ensures FormatFields(rules, m) == Err(e) <==>
      exists j :: 0 <= j < |m| && FieldResult(rules, m[j]) == Err(e) &&
        forall k :: 0 <= k < j ==> FieldResult(rules, m[k]).Ok?
  {
    FormatFieldsFromErr(rules, m, 0, e);
  }

  // ---------------------------------------------------------------------------
  // The list branch

  /** With no failing mapping from `i` on, the loop renders each element in place. */
  lemma {:induction false} SettleOk(rule: Rule, es: seq<Value>, i: nat)
    requires i <= |es|
    ensures Settle(rule, es, i).1.None? <==>
      forall j :: i <= j < |es| && es[j].Rec? ==> ApplyRule(rule, es[j]).Ok?
    ensures Settle(rule, es, i).1.None? ==>
      Settle(rule, es, i).0 == seq(|es| - i, j requires 0 <= j < |es| - i => Settled(rule, es[i + j]))
    decreases |es| - i
  {
    if i < |es| {
      SettleOk(rule, es, i + 1);
      if Settle(rule, es, i).1.None? {
        assert Settle(rule, es, i).0 == [Settled(rule, es[i])] + Settle(rule, es, i + 1).0;
      }
    }
  }

  /**
   * Once the mappings among elements `k..i-1` have all rendered, the loop has
   * replaced them by their texts and goes on from `i`.
   */
  lemma {:induction false} SettleFrom(rule: Rule, es: seq<Value>, k: nat, i: nat)
    requires k <= i <= |es|
    requires forall j :: k <= j < i && es[j].Rec? ==> ApplyRule(rule, es[j]).Ok?
    ensures Settle(rule, es, k).1 == Settle(rule, es, i).1
    ensures Settle(rule, es, k).0 ==
      seq(i - k, j requires 0 <= j < i - k => Settled(rule, es[k + j])) + Settle(rule, es, i).0
    decreases i - k
  {
    if k < i {
      SettleFrom(rule, es, k + 1, i);
      assert Settle(rule, es, k).0 == [Settled(rule, es[k])] + Settle(rule, es, k + 1).0;
      assert seq(i - k, j requires 0 <= j < i - k => Settled(rule, es[k + j])) ==
        [Settled(rule, es[k])] + seq(i - (k + 1), j requires 0 <= j < i - (k + 1) => Settled(rule, es[k + 1 + j]));
    }
  }

  /** The loop always leaves a list of the same length. */
  lemma {:induction false} SettleLength(rule: Rule, es: seq<Value>, i: nat)
    requires i <= |es|
    ensures |Settle(rule, es, i).0| == |es| - i
    decreases |es| - i
  {
    if i < |es| {
      SettleLength(rule, es, i + 1);
    }
  }

  /**
   * A list field formats exactly when every element is a string or a mapping
   * that renders; the result joins the elements' texts in their original order.
   */
  lemma FormatListOk(rule: Rule, es: seq<Value>)
    ensures FormatList(rule, es).Ok? <==> forall j :: 0 <= j < |es| ==> Renders(rule, es[j])
    ensures FormatList(rule, es).Ok? ==>
      FormatList(rule, es).value ==
        Join(seq(|es|, j requires 0 <= j < |es| => Settled(rule, es[j]).s), Separator)
  {
    SettleOk(rule, es, 0);
    var (after, err) := Settle(rule, es, 0);
    if err.None? {
      assert forall j :: 0 <= j < |es| ==> after[j] == Settled(rule, es[j]);
      if forall j :: 0 <= j < |es| ==> Renders(rule, es[j]) {
        assert forall j :: 0 <= j < |after| ==> after[j].Str?;
        assert seq(|after|, j requires 0 <= j < |after| && after[j].Str? => after[j].s)
            == seq(|es|, j requires 0 <= j < |es| => Settled(rule, es[j]).s);
      } else {
        var j :| 0 <= j < |es| && !Renders(rule, es[j]);
        assert !after[j].Str?;
      }
    } else {
      var j :| 0 <= j < |es| && es[j].Rec? && !ApplyRule(rule, es[j]).Ok?;
      assert !Renders(rule, es[j]);
    }
  }

  /** Strings are left alone by the loop. */
  lemma {:induction false} SettleStrings(rule: Rule, es: seq<Value>, i: nat)
    requires i <= |es| && forall j :: 0 <= j < |es| ==> es[j].Str?
    ensures Settle(rule, es, i) == (es[i..], None)
    decreases |es| - i
  {
    if i < |es| {
      SettleStrings(rule, es, i + 1);
      assert es[i..] == [es[i]] + es[i + 1..];
    }
  }

  /**
   * A second pass over a list the loop has already formatted is a no-op: its
   * elements are all strings now, and they join to the same text.
   */
  lemma SecondPassNoop(rule: Rule, es: seq<Value>)
    requires FormatList(rule, es).Ok?
    ensures forall j :: 0 <= j < |Settle(rule, es, 0).0| ==> Settle(rule, es, 0).0[j].Str?
    ensures FormatList(rule, Settle(rule, es, 0).0) == FormatList(rule, es)
  {
    var after := Settle(rule, es, 0).0;
    SettleStrings(rule, after, 0);
    assert after[0..] == after;
  }

  /** A one-element list joins to the text of its element alone. */
  lemma FormatSingleton(rule: Rule, e: Value)
    ensures FormatList(rule, [e]).Ok? <==> Renders(rule, e)
    ensures FormatList(rule, [e]).Ok? ==> FormatList(rule, [e]).value == Settled(rule, e).s
  {
    FormatListOk(rule, [e]);
  }

  /** `defaultdict(str, "")` is empty, so the template is rendered with every field blank. */
  lemma EmptyStringRendersBlank(t: Template)
    ensures ApplyRule(Tpl(t), Str("")) == Ok(Literals(t))
    ensures FormatEntry([], t) == ApplyRule(Tpl(t), Str(""))
  {
    RenderMissingKeys(t, []);
  }

  /** A record none of whose keys has a rule is rendered from its own values. */
  lemma UnruledRendersSelf(m: Record, t: Template)
    requires forall i :: 0 <= i < |m| ==> m[i].0 !in FieldFormatters
    ensures FormatEntry(m, t) == Ok(Render(t, m))
  {
    FormatFieldsOk(FieldFormatters, m);
    FormatEntryFields(m, t);
    assert FormatFields(FieldFormatters, m).value == m;
  }

  /**
   * What a rule makes of a value that is not a list, in Python's terms. A string
   * function needs a string (`.replace`) and raises AttributeError on anything
   * else. A template renders a mapping when every field of it formats, and fails
   * with the first failing field's error otherwise; it renders "" as its literal
   * text; it raises ValueError on any other string and TypeError on None, a
   * boolean or a number.
   */
  lemma RuleOutcome(rule: Rule, v: Value)
    requires !v.List?
    ensures rule.Fn? ==> (ApplyRule(rule, v).Ok? <==> v.Str?)
    ensures rule.Fn? && v.Str? ==> ApplyRule(rule, v).value == Apply(rule.transform, v.s)
    ensures rule.Fn? && !v.Str? ==> ApplyRule(rule, v) == Err(AttributeError)
    ensures rule.Tpl? && v.Rec? ==>
      (ApplyRule(rule, v).Ok? <==> forall i :: 0 <= i < |v.fields| ==> FieldResult(FieldFormatters, v.fields[i]).Ok?)
    ensures rule.Tpl? && v.Rec? && ApplyRule(rule, v).Ok? ==>
      FormatFields(FieldFormatters, v.fields).Ok? &&
      ApplyRule(rule, v).value == Render(rule.template, FormatFields(FieldFormatters, v.fields).value)
    ensures rule.Tpl? && v.Rec? && ApplyRule(rule, v).Err? ==>
      FormatFields(FieldFormatters, v.fields) == Err(ApplyRule(rule, v).error)
    ensures rule.Tpl? && v == Str("") ==> ApplyRule(rule, v) == Ok(Literals(rule.template))
    ensures rule.Tpl? && v.Str? && v.s != "" ==> ApplyRule(rule, v) == Err(ValueError)
    ensures rule.Tpl? && (v.Null? || v.Bool? || v.Int?) ==> ApplyRule(rule, v) == Err(TypeError)
  {
    if rule.Tpl? {
      EmptyStringRendersBlank(rule.template);
      if v.Rec? {
        FormatEntryFields(v.fields, rule.template);
        FormatFieldsOk(FieldFormatters, v.fields);
      }
    }
  }

  /**
   * A `text` that is a list of strings takes the list branch: the strings are
   * joined unchanged, so the `%%%` escape does not reach them.
   */
  lemma ListTextUnescaped(s: string)
    ensures FieldResult(FieldFormatters, ("text", List([Str(s)]))) == Ok(Str(s))
  {
    var rule := FieldFormatters["text"];
    FormatSingleton(rule, Str(s));
  }
}
