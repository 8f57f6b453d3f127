/**
 * FIELD_FORMATTERS: the per-field rules applied before a record is rendered.
 * A rule is either a template (rendered with `format_entry`) or a string function.
 */
module FieldRules {
  import opened Text
  import opened Templates

  /** U+2212 MINUS SIGN. */
  const Minus: char := '\U{2212}'

  const Triple: string := "%%%"

  /** The two string functions of the rule table. */
  datatype Transform = MinusToHyphen | EscapeDivider

  /** `s.replace("−", "-")` for `score`, `s.replace("%%%", "---")` for `text`. */
  function Apply(f: Transform, s: string): string
  {
    match f
    case MinusToHyphen => Replace(s, [Minus], "-")
    case EscapeDivider => Replace(s, Triple, "---")
  }

  datatype Rule = Tpl(template: Template) | Fn(transform: Transform)

  const FieldFormatters: map<string, Rule> :=
    map["comments" := Tpl(CommentTemplate()), "score" := Fn(MinusToHyphen), "text" := Fn(EscapeDivider)]

  /**
   * The `score` rule turns every U+2212 into an ASCII hyphen and leaves every
   * other character where it was, so no U+2212 is left.
   */
  lemma ScoreNormalizes(s: string)
    ensures |Apply(MinusToHyphen, s)| == |s|
    ensures forall i :: 0 <= i < |s| ==>
      Apply(MinusToHyphen, s)[i] == if s[i] == Minus then '-' else s[i]
    ensures Minus !in Apply(MinusToHyphen, s)
  {
    ReplaceSameLength(s, [Minus], "-");
    forall i | 0 <= i < |s|
      ensures Apply(MinusToHyphen, s)[i] == if s[i] == Minus then '-' else s[i]
    {
      ReplaceCharAt(s, Minus, '-', i);
    }
  }

  /** On a string without U+2212 the `score` rule changes nothing. */
  lemma ScoreIdentity(s: string)
    requires Minus !in s
    ensures Apply(MinusToHyphen, s) == s
  {
    AbsentChar(s, Minus);
    ReplaceAbsent(s, [Minus], "-");
  }

  lemma ScoreIdempotent(s: string)
    ensures Apply(MinusToHyphen, Apply(MinusToHyphen, s)) == Apply(MinusToHyphen, s)
  {
    ScoreNormalizes(s);
    ScoreIdentity(Apply(MinusToHyphen, s));
  }

  /** The `text` rule keeps the length of the text. */
  lemma EscapeKeepsLength(s: string)
    ensures |Apply(EscapeDivider, s)| == |s|
  {
    ReplaceSameLength(s, Triple, "---");
  }

  /** On a text without `%%%` the `text` rule changes nothing. */
  lemma EscapeIdentity(s: string)
    requires !Occurs(s, Triple)
    ensures Apply(EscapeDivider, s) == s
  {
    ReplaceAbsent(s, Triple, "---");
  }

  /** If an escaped text starts with `%`, the text did too, and not with `%%%`. */
  lemma EscapeHead(t: string)
    ensures var r := Replace(t, Triple, "---");
      |r| > 0 && r[0] == '%' ==>
        |t| > 0 && t[0] == '%' && !(|t| >= 3 && t[..3] == Triple) && r == [t[0]] + Replace(t[1..], Triple, "---")
  {
  }

  /** Three dashes in front of a text without `%%%` do not make one. */
  lemma DashesNoTriple(r: string)
    requires !Occurs(r, Triple)
    ensures !Occurs("---" + r, Triple)
  {
    var x := "---" + r;
    forall i ensures !OccursAt(x, Triple, i) {
      if 0 <= i < 3 && i + 3 <= |x| {
        assert x[i..i + 3][0] == '-';
      } else if 3 <= i && i + 3 <= |x| {
        assert x[i..i + 3] == r[i - 3..i];
        assert !OccursAt(r, Triple, i - 3);
      }
    }
  }

  /** If an escaped text starts with `%%`, the text did too. */
  lemma EscapeTwoPercent(t: string)
    ensures var r := Replace(t, Triple, "---");
      |r| >= 2 && r[0] == '%' && r[1] == '%' ==> |t| >= 2 && t[0] == '%' && t[1] == '%'
  {
    EscapeHead(t);
    if t != [] {
      EscapeHead(t[1..]);
    }
  }

  /** A kept first character does not start a `%%%` with the escaped rest of the text. */
  lemma KeptHeadNoTriple(s: string)
    requires s != [] && !(|s| >= 3 && s[..3] == Triple)
    requires !Occurs(Replace(s[1..], Triple, "---"), Triple)
    ensures !Occurs([s[0]] + Replace(s[1..], Triple, "---"), Triple)
  {
    var r' := Replace(s[1..], Triple, "---");
    var r := [s[0]] + r';
    assert !OccursAt(r, Triple, 0) by {
      EscapeTwoPercent(s[1..]);
      assert |s| >= 3 ==> s[..3] == [s[0], s[1], s[2]];
      assert |r| >= 3 ==> r[..3] == [s[0], r'[0], r'[1]];
    }
    forall i | 1 <= i && i + 3 <= |r| ensures !OccursAt(r, Triple, i) {
      assert r[i..i + 3] == r'[i - 1..i + 2];
      assert !OccursAt(r', Triple, i - 1);
    }
  }

  /** After the `text` rule no `%%%` is left to be mistaken for the divider. */
  lemma {:induction false} EscapeRemovesTriple(s: string)
    ensures !Occurs(Apply(EscapeDivider, s), Triple)
    decreases |s|
  {
    if |s| >= 3 && s[..3] == Triple {
      EscapeRemovesTriple(s[3..]);
      DashesNoTriple(Replace(s[3..], Triple, "---"));
    } else if s != [] {
      EscapeRemovesTriple(s[1..]);
      KeptHeadNoTriple(s);
    }
  }

  lemma EscapeIdempotent(s: string)
    ensures Apply(EscapeDivider, Apply(EscapeDivider, s)) == Apply(EscapeDivider, s)
  {
    EscapeRemovesTriple(s);
    EscapeIdentity(Apply(EscapeDivider, s));
  }
}
