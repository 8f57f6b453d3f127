/**
 * The values a JSON-lines record holds once parsed, Python's exceptions as data,
 * and the dictionary operations the formatter performs on records.
 */
module Values {
  import opened Text

  /** The exceptions the formatter can raise. */
  datatype Error = AttributeError | KeyError | ValueError | TypeError

  /** The exceptions `write_entry` catches; a `TypeError` escapes it. */
  predicate Caught(e: Error)
  {
    e.AttributeError? || e.KeyError? || e.ValueError?
  }

  datatype Option<T> = None | Some(value: T)

  datatype Result<T> = Ok(value: T) | Err(error: Error)

  /**
   * A parsed JSON value (floats are not modelled). A mapping is a list of
   * key/value pairs in insertion order, as a Python dict iterates them.
   */
  datatype Value =
    | Null
    | Bool(b: bool)
    | Int(i: int)
    | Str(s: string)
    | List(elems: seq<Value>)
    | Rec(fields: seq<(string, Value)>)

  type Record = seq<(string, Value)>

  function Keys(m: Record): (ks: seq<string>)
    ensures |ks| == |m| && forall i :: 0 <= i < |m| ==> ks[i] == m[i].0
  {
    seq(|m|, i requires 0 <= i < |m| => m[i].0)
  }

  /** The position of the first pair with key `k`, or -1 when there is none. */
  function Find(m: Record, k: string): (i: int)
    ensures -1 <= i < |m|
  {
    if m == [] then -1
    else if m[0].0 == k then 0
    else
      var j := Find(m[1..], k);
      if j == -1 then -1 else j + 1
  }

  /** `Find` returns the first position holding `k`, and -1 exactly when no pair does. */
  lemma {:induction false} FindSpec(m: Record, k: string)
    ensures Find(m, k) == -1 <==> k !in Keys(m)
    ensures Find(m, k) >= 0 ==> m[Find(m, k)].0 == k && k !in Keys(m[..Find(m, k)])
  {
    if m != [] && m[0].0 != k {
      FindSpec(m[1..], k);
      assert Keys(m) == [m[0].0] + Keys(m[1..]);
      var j := Find(m[1..], k);
      if j != -1 {
        assert Keys(m[..j + 1]) == [m[0].0] + Keys(m[1..][..j]);
      }
    } else if m != [] {
      assert Keys(m)[0] == k;
    }
  }

  /** `m.get(k)`: the value under key `k`, if there is one. */
  function Lookup(m: Record, k: string): Option<Value>
  {
    var i := Find(m, k);
    if i < 0 then None else Some(m[i].1)
  }

  /**
   * `m[k] = v`: an existing key keeps its place and gets the new value; a new key
   * is appended.
   */
  function Update(m: Record, k: string, v: Value): Record
  {
    var i := Find(m, k);
    if i < 0 then m + [(k, v)] else m[i := (k, v)]
  }

  /** The first pair with key `k` is the one `Find` returns. */
  lemma FindFirst(m: Record, k: string, j: int)
    requires 0 <= j < |m| && m[j].0 == k && k !in Keys(m[..j])
    ensures Find(m, k) == j
  {
    FindSpec(m, k);
    var i := Find(m, k);
    assert Keys(m)[j] == k;
  }

  /**
   * After `m[k] = v` the keys are those of `m`, with `k` appended if it was
   * new; `k` maps to `v`; every pair under another key is where it was.
   */
  lemma UpdateSpec(m: Record, k: string, v: Value)
    ensures var r := Update(m, k, v);
      Keys(r) == (if k in Keys(m) then Keys(m) else Keys(m) + [k]) &&
      Lookup(r, k) == Some(v) &&
      forall i :: 0 <= i < |r| && r[i].0 != k ==> i < |m| && r[i] == m[i]
  {
    FindSpec(m, k);
    var i := Find(m, k);
    var r := Update(m, k, v);
    if i < 0 {
      assert Keys(m + [(k, v)]) == Keys(m) + [k];
      assert Keys((m + [(k, v)])[..|m|]) == Keys(m);
      FindFirst(r, k, |m|);
    } else {
      assert Keys(m[i := (k, v)]) == Keys(m);
      assert m[i := (k, v)][..i] == m[..i];
      FindFirst(r, k, i);
    }
  }

  /** Where a key is found depends on the keys alone. */
  lemma FindSameKeys(m1: Record, m2: Record, k: string)
    requires Keys(m1) == Keys(m2)
    ensures Find(m1, k) == Find(m2, k)
  {
    FindSpec(m1, k);
    FindSpec(m2, k);
    var i := Find(m1, k);
    if i >= 0 {
      assert Keys(m1[..i]) == Keys(m1)[..i] == Keys(m2)[..i] == Keys(m2[..i]);
      assert Keys(m2)[i] == k;
      FindFirst(m2, k, i);
    }
  }

  /** Records with the same keys whose pairs under `k` agree give `k` the same value. */
  lemma LookupAgree(m1: Record, m2: Record, k: string)
    requires Keys(m1) == Keys(m2)
    requires forall i :: 0 <= i < |m1| && m1[i].0 == k ==> m1[i] == m2[i]
    ensures Lookup(m1, k) == Lookup(m2, k)
  {
    FindSameKeys(m1, m2, k);
    FindSpec(m1, k);
  }

  /** Assigning one key leaves what every other key maps to as it was. */
  lemma UpdateOtherKey(m: Record, k: string, v: Value, k': string)
    requires k' != k
    ensures Lookup(Update(m, k, v), k') == Lookup(m, k')
  {
    UpdateSpec(m, k, v);
    FindSpec(m, k);
    FindSpec(m, k');
    var r := Update(m, k, v);
    var j := Find(m, k');
    if j >= 0 {
      assert r[j] == m[j];
      assert Keys(r[..j]) == Keys(m[..j]) by {
        if Find(m, k) >= 0 {
          assert Keys(r[..j]) == Keys(r)[..j] && Keys(m[..j]) == Keys(m)[..j];
        } else {
          assert r[..j] == m[..j];
        }
      }
      FindFirst(r, k', j);
    } else {
      FindSpec(r, k');
    }
  }

  /** Python's `repr` of a value: `None`, `True`, `[1, 'a']`, `{'k': 2}`. */
  function Repr(v: Value): string
    decreases v
  {
    match v
    case Null => "None"
    case Bool(b) => if b then "True" else "False"
    case Int(i) => IntToString(i)
    case Str(s) => StrRepr(s)
    case List(es) => "[" + Join(seq(|es|, i requires 0 <= i < |es| => Repr(es[i])), ", ") + "]"
    case Rec(fs) =>
      "{" + Join(seq(|fs|, i requires 0 <= i < |fs| => StrRepr(fs[i].0) + ": " + Repr(fs[i].1)), ", ") + "}"
  }

  /**
   * What `str.format_map` writes for a value with an empty format spec, that is
   * `str(v)`: a string as itself, anything else as its `repr`.
   */
  function Show(v: Value): (r: string)
    ensures v.Str? ==> r == v.s
    ensures v.Int? ==> r == IntToString(v.i)
  {
    match v
    case Str(s) => s
    case _ => Repr(v)
  }

  /**
   * `str(n)` of an integer: a minus sign exactly when it is negative, then the
   * decimal digits of its magnitude, with no leading zero; `str(0)` is `"0"`.
   */
  lemma ShowInt(n: int)
    ensures var r := Show(Int(n));
      (n >= 0 ==> DigitsValue(r) == n) &&
      (n < 0 ==> r[0] == '-' && DigitsValue(r[1..]) == -n) &&
      (forall i :: (if n < 0 then 1 else 0) <= i < |r| ==> '0' <= r[i] <= '9') &&
      (r[if n < 0 then 1 else 0] == '0' ==> n == 0) &&
      (n == 0 ==> r == "0")
  {
    IntToStringValue(n);
  }

  /**
   * `str` of a list of strings that `repr` leaves unescaped (no quote, no
   * backslash, only printable characters), such as `authors` or `tags`: each string in single quotes, joined by ", " between brackets.
   */
  lemma ShowPlainStrings(ss: seq<string>)
    requires forall k :: 0 <= k < |ss| ==> PlainText(ss[k])
    ensures Show(List(seq(|ss|, k requires 0 <= k < |ss| => Str(ss[k])))) ==
      "[" + Join(seq(|ss|, k requires 0 <= k < |ss| => "'" + ss[k] + "'"), ", ") + "]"
  {
    var es := seq(|ss|, k requires 0 <= k < |ss| => Str(ss[k]));
    forall k | 0 <= k < |ss|
      ensures Repr(es[k]) == "'" + ss[k] + "'"
    {
      StrReprPlain(ss[k]);
    }
    assert seq(|es|, i requires 0 <= i < |es| => Repr(es[i])) ==
      seq(|ss|, k requires 0 <= k < |ss| => "'" + ss[k] + "'");
  }

  /** Two authors are shown as Python shows the list: `['a', 'b']`. */
  lemma ShowTwoStrings(a: string, b: string)
    requires PlainText(a) && PlainText(b)
    ensures Show(List([Str(a), Str(b)])) == "['" + a + "', '" + b + "']"
  {
    var ss := [a, b];
    ShowPlainStrings(ss);
    assert seq(|ss|, k requires 0 <= k < |ss| => Str(ss[k])) == [Str(a), Str(b)];
    var qs := seq(|ss|, k requires 0 <= k < |ss| => "'" + ss[k] + "'");
    assert qs == ["'" + a + "'", "'" + b + "'"];
    assert qs[1..] == ["'" + b + "'"];
  }
}
