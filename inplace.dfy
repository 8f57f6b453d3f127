/**
 * `format_fields` as the source runs it: the loop over the fields of a
 * (copied) record, and the loop that overwrites the elements of a list field
 * in place. A list the caller shares with the record is an array, so what the
 * loop leaves in it is visible afterwards.
 */
module InPlace {
  import opened Text
  import opened Values
  import opened Templates
  import opened FieldRules
  import opened Formatting

  /** A field's value: held by the record alone, or a list object shared with the caller. */
  datatype Slot = Held(v: Value) | Shared(list: array<Value>)

  type Items = seq<(string, Slot)>

  function Arrays(items: Items): set<array<Value>>
  {
    set j | 0 <= j < |items| && items[j].1.Shared? :: items[j].1.list
  }

  /** No list object is the value of two fields. */
  predicate Distinct(items: Items)
  {
    forall j, k :: 0 <= j < k < |items| && items[j].1.Shared? && items[k].1.Shared? ==>
      items[j].1.list != items[k].1.list
  }

  function Current(s: Slot): Value
    reads if s.Shared? then {s.list} else {}
  {
    match s
    case Held(v) => v
    case Shared(a) => List(a[..])
  }

  /** The record the fields currently make up. */
  function Snapshot(items: Items): (m: Record)
    reads Arrays(items)
    ensures |m| == |items|
    ensures forall j :: 0 <= j < |items| ==> m[j] == (items[j].0, Current(items[j].1))
  {
    seq(|items|, j requires 0 <= j < |items| reads Arrays(items) => (items[j].0, Current(items[j].1)))
  }

  /** The fields of `m`, with the list object `a` standing for the value of field `p`. */
  function ShareAt(m: Record, p: nat, a: array<Value>): (items: Items)
    requires p < |m|
    ensures Distinct(items) && Arrays(items) == {a}
    ensures |items| == |m| && items[p] == (m[p].0, Shared(a))
    ensures forall j :: 0 <= j < |m| && j != p ==> items[j] == (m[j].0, Held(m[j].1))
  {
    var items := seq(|m|, j requires 0 <= j < |m| => (m[j].0, if j == p then Shared(a) else Held(m[j].1)));
    assert items[p].1.list == a;
    items
  }

  /** Such a record reads as `m` with field `p` holding what `a` holds now. */
  lemma SnapshotShareAt(m: Record, p: nat, a: array<Value>)
    requires p < |m|
    ensures Snapshot(ShareAt(m, p, a)) == m[p := (m[p].0, List(a[..]))]
  {
    var items := ShareAt(m, p, a);
    assert Current(items[p].1) == List(a[..]);
  }

  /**
   * The list branch of `format_fields`: each mapping element is replaced by
   * its rendering, in order, until one raises; then the elements are joined.
   */
  method FormatListInPlace(rule: Rule, a: array<Value>) returns (r: Result<string>)
    modifies a
    ensures a[..] == Settle(rule, old(a[..]), 0).0
    ensures r == FormatList(rule, old(a[..]))
  {
    ghost var es := a[..];
    var i := 0;
    while i < a.Length
      invariant 0 <= i <= a.Length
      invariant forall j :: i <= j < a.Length ==> a[j] == es[j]
      invariant forall j :: 0 <= j < i ==> a[j] == Settled(rule, es[j])
      invariant forall j :: 0 <= j < i && es[j].Rec? ==> ApplyRule(rule, es[j]).Ok?
    {
      if a[i].Rec? {
        var res := ApplyRule(rule, a[i]);
        if res.Err? {
          SettleFrom(rule, es, 0, i);
          assert a[..] == seq(i, j requires 0 <= j < i => Settled(rule, es[j])) + es[i..];
          return Err(res.error);
        }
        a[i] := Str(res.value);
      }
      i := i + 1;
    }
    SettleFrom(rule, es, 0, a.Length);
    assert a[..] == seq(a.Length, j requires 0 <= j < a.Length => Settled(rule, es[j])) + [];
    var after := a[..];
    if forall j :: 0 <= j < |after| ==> after[j].Str? {
      r := Ok(Join(seq(|after|, j requires 0 <= j < |after| && after[j].Str? => after[j].s), Separator));
    } else {
      r := Err(TypeError);
    }
  }

  /**
   * One pass of the loop of `format_fields`: the field's new value. A field
   * with a rule is formatted, and a shared list of such a field is
   * overwritten in place; a field without a rule keeps its value.
   */
  method FormatItem(rules: map<string, Rule>, item: (string, Slot)) returns (res: Result<Value>)
    modifies if item.1.Shared? && item.0 in rules then {item.1.list} else {}
    ensures res == FieldResult(rules, (item.0, old(Current(item.1))))
    ensures item.1.Shared? && item.0 in rules ==>
      item.1.list[..] == Settle(rules[item.0], old(item.1.list[..]), 0).0
  {
    var (k, slot) := item;
    if k !in rules {
      return Ok(Current(slot));
    }
    var s: Result<string>;
    match slot {
      case Shared(a) =>
        s := FormatListInPlace(rules[k], a);
      case Held(x) =>
        if x.List? {
          var b := new Value[|x.elems|](j requires 0 <= j < |x.elems| => x.elems[j]);
          assert b[..] == x.elems;
          s := FormatListInPlace(rules[k], b);
        } else {
          s := ApplyRule(rules[k], x);
        }
    }
    res := match s case Err(e) => Err(e) case Ok(x) => Ok(Str(x));
  }

  /**
   * `format_fields(entry, rules)` on a copy of a record: returns the formatted
   * copy, or the first error. A shared list whose field the loop reaches is
   * left as `Settle` says; every other shared list is untouched.
   */
  method FormatFieldsInPlace(rules: map<string, Rule>, items: Items) returns (r: Result<Record>)
    requires Distinct(items)
    modifies Arrays(items)
    ensures r == FormatFields(rules, old(Snapshot(items)))
    ensures forall j :: 0 <= j < |items| && items[j].1.Shared? ==>
      items[j].1.list[..] ==
        if items[j].0 in rules && j <= Progress(rules, old(Snapshot(items)))
        then Settle(rules[items[j].0], old(items[j].1.list[..]), 0).0
        else old(items[j].1.list[..])
  {
    ghost var m0 := Snapshot(items);
    var done: Record := [];
    var i := 0;
    while i < |items|
      invariant 0 <= i <= |items|
      invariant forall j :: 0 <= j < i ==> FieldResult(rules, m0[j]).Ok?
      invariant done == seq(i, j requires 0 <= j < i => (m0[j].0, FieldResult(rules, m0[j]).value))
      invariant forall j :: 0 <= j < |items| && items[j].1.Shared? ==>
        List(items[j].1.list[..]) ==
          if items[j].0 in rules && j < i then List(Settle(rules[items[j].0], m0[j].1.elems, 0).0)
          else m0[j].1
    {
      var res := FormatItem(rules, items[i]);
      if res.Err? {
        FormatFieldsErr(rules, m0, res.error);
        assert Progress(rules, m0) == i;
        return Err(res.error);
      }
      done := done + [(items[i].0, res.value)];
      i := i + 1;
    }
    FormatFieldsOk(rules, m0);
    r := Ok(done);
  }

  /** `format_entry(entry, t)` with FIELD_FORMATTERS, on a record that may share lists. */
  method FormatEntryInPlace(items: Items, t: Template) returns (r: Result<string>)
    requires Distinct(items)
    modifies Arrays(items)
    ensures r == FormatEntry(old(Snapshot(items)), t)
    ensures forall j :: 0 <= j < |items| && items[j].1.Shared? ==>
      items[j].1.list[..] ==
        if items[j].0 in FieldFormatters && j <= Progress(FieldFormatters, old(Snapshot(items)))
        then Settle(FieldFormatters[items[j].0], old(items[j].1.list[..]), 0).0
        else old(items[j].1.list[..])
  {
    var fields := FormatFieldsInPlace(FieldFormatters, items);
    r := match fields case Err(e) => Err(e) case Ok(m) => Ok(Render(t, m));
  }
}
