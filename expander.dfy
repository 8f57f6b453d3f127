/**
 * `write_entry`: one output record (prompt and completion) per top-level
 * comment of an entry. A comment whose formatting raises AttributeError,
 * KeyError or ValueError is skipped; a TypeError escapes and ends the run.
 */
module Expander {
  import opened Values
  import opened Templates
  import opened FieldRules
  import opened Formatting
  import opened InPlace

  datatype OutputRecord = OutputRecord(prompt: string, completion: string)

  /** What happens to one comment: written, skipped (and logged), or an escaping exception. */
  datatype Outcome = Emit(output: OutputRecord) | Skip(reason: Error) | Abort(error: Error)

  /** The records `write_entry` has written, and the exception that ended it, if any. */
  datatype Expansion = Expansion(written: seq<OutputRecord>, crash: Option<Error>)

  /** The rule FIELD_FORMATTERS gives the `comments` field. */
  const CommentRule: Rule := Tpl(CommentTemplate())

  /**
   * `input_entry.get("comments", [])`, iterated as Python iterates it: a list
   * yields its elements, a string its characters, a mapping its keys; `None`,
   * a number or a boolean is not iterable.
   */
  function Comments(entry: Record): (r: Result<seq<Value>>)
    ensures r.Err? ==> r.error == TypeError
    ensures Lookup(entry, "comments").None? ==> r == Ok([])
    ensures forall es :: Lookup(entry, "comments") == Some(List(es)) ==> r == Ok(es)
  {
    match Lookup(entry, "comments")
    case None => Ok([])
    case Some(v) =>
      match v
      case List(es) => Ok(es)
      case Str(s) => Ok(seq(|s|, i requires 0 <= i < |s| => Str([s[i]])))
      case Rec(fs) => Ok(seq(|fs|, i requires 0 <= i < |fs| => Str(fs[i].0)))
      case _ => Err(TypeError)
  }

  /** `entry_with_one_comment`: a copy of the entry whose `comments` is the one-element list. */
  function WithOneComment(entry: Record, c: Value): Record
  {
    Update(entry, "comments", List([c]))
  }

  /** In the copy, `comments` is found where the one-element list was put. */
  lemma CommentAt(entry: Record, c: Value)
    ensures var m := WithOneComment(entry, c); var p := Find(m, "comments");
      0 <= p < |m| && m[p] == ("comments", List([c]))
  {
    UpdateSpec(entry, "comments", List([c]));
    FindSpec(WithOneComment(entry, c), "comments");
  }

  function Failed(e: Error): (o: Outcome)
    ensures o.Skip? <==> Caught(e)
  {
    if Caught(e) then Skip(e) else Abort(e)
  }

  /** One iteration of `write_entry`, with the two formatting calls read as functions of the entry. */
  function ExpandOne(entry: Record, c: Value): Outcome
  {
    var m := WithOneComment(entry, c);
    match FormatPrompt(m)
    case Err(e) => Failed(e)
    case Ok(p) =>
      match FormatCompletion(m)
      case Err(e) => Failed(e)
      case Ok(q) => Emit(OutputRecord(p, q))
  }

  /** What happens to each comment of `cs`, in order. */
  function Outcomes(entry: Record, cs: seq<Value>): (os: seq<Outcome>)
    ensures |os| == |cs| && forall i :: 0 <= i < |cs| ==> os[i] == ExpandOne(entry, cs[i])
  {
    seq(|cs|, i requires 0 <= i < |cs| => ExpandOne(entry, cs[i]))
  }

  /** The loop of `write_entry` over the outcomes `os`, stopping at the first escaping exception. */
  function Collect(os: seq<Outcome>): Expansion
  {
    if os == [] then Expansion([], None)
    else
      var prev := Collect(os[..|os| - 1]);
      if prev.crash.Some? then prev
      else
        match os[|os| - 1]
        case Emit(o) => Expansion(prev.written + [o], None)
        case Skip(_) => prev
        case Abort(e) => Expansion(prev.written, Some(e))
  }

  function WriteEntrySpec(entry: Record): Expansion
  {
    match Comments(entry)
    case Err(e) => Expansion([], Some(e))
    case Ok(cs) => Collect(Outcomes(entry, cs))
  }

  /** The records of the outcomes that were written, in order. */
  function Emitted(os: seq<Outcome>): seq<OutputRecord>
  {
    if os == [] then []
    else Emitted(os[..|os| - 1]) + match os[|os| - 1] case Emit(o) => [o] case _ => []
  }

  /**
   * `write_entry` in the source's own form. The copy of the entry holds a
   * fresh one-element list for `comments`; formatting the prompt overwrites
   * that list's element with the rendered comment, and the completion is then
   * formatted from the same, already rewritten, list.
   */
  method WriteEntry(entry: Record) returns (count: nat, written: seq<OutputRecord>, crash: Option<Error>)
    ensures Expansion(written, crash) == WriteEntrySpec(entry)
    ensures count == |written|
  {
    var comments := Comments(entry);
    if comments.Err? {
      return 0, [], Some(comments.error);
    }
    var cs := comments.value;
    ghost var os := Outcomes(entry, cs);
    count, written, crash := 0, [], None;
    var i := 0;
    while i < |cs|
      invariant 0 <= i <= |cs|
      invariant Collect(os[..i]) == Expansion(written, None)
      invariant count == |written|
    {
      assert os[..i + 1][..i] == os[..i];
      var outcome := ExpandOneInPlace(entry, cs[i]);
      match outcome {
        case Emit(o) =>
          written := written + [o];
          count := count + 1;
        case Skip(_) =>
        case Abort(e) =>
          crash := Some(e);
          CollectCrashed(os, i + 1);
          assert os[..|os|] == os;
          return;
      }
      i := i + 1;
    }
    assert os[..|os|] == os;
  }

  /** One comment, formatted through a list object that the prompt and the completion share. */
  method ExpandOneInPlace(entry: Record, c: Value) returns (o: Outcome)
    ensures o == ExpandOne(entry, c)
  {
    var m := WithOneComment(entry, c);
    var p := Find(m, "comments");
    CommentAt(entry, c);
    var cell := new Value[1](_ => c);
    var items := ShareAt(m, p, cell);
    assert Snapshot(items) == m by {
      SnapshotShareAt(m, p, cell);
      assert cell[..] == [c] && m[p := ("comments", List([c]))] == m;
    }
    var prompt := FormatEntryInPlace(items, PromptTemplate());
    if prompt.Err? {
      return Failed(prompt.error);
    }
    assert cell[..] == Settle(CommentRule, [c], 0).0 by {
      FormatEntryFields(m, PromptTemplate());
      ProgressAll(FieldFormatters, m);
    }
    assert FormatEntry(Snapshot(items), CompletionTemplate()) == FormatCompletion(m) by {
      SnapshotShareAt(m, p, cell);
      FormatEntryFields(m, PromptTemplate());
      SharedListHarmless(entry, c, cell[..]);
    }
    var completion := FormatEntryInPlace(items, CompletionTemplate());
    o := match completion case Err(e) => Failed(e) case Ok(q) => Emit(OutputRecord(prompt.value, q));
  }

  /**
   * Once the prompt has been formatted, the shared list holds the rendered
   * comment, and formatting the entry again from it gives what formatting the
   * untouched entry gives.
   */
  lemma SharedListHarmless(entry: Record, c: Value, after: seq<Value>)
    requires FormatFields(FieldFormatters, WithOneComment(entry, c)).Ok?
    requires after == Settle(CommentRule, [c], 0).0
    ensures var m := WithOneComment(entry, c); var p := Find(m, "comments");
      0 <= p < |m| &&
      forall t :: FormatEntry(m[p := ("comments", List(after))], t) == FormatEntry(m, t)
  {
    var m := WithOneComment(entry, c);
    var p := Find(m, "comments");
    CommentAt(entry, c);
    var m2 := m[p := ("comments", List(after))];
    FormatFieldsOk(FieldFormatters, m);
    assert FieldResult(FieldFormatters, m[p]).Ok?;
    SecondPassNoop(CommentRule, [c]);
    FormatFieldsAgree(FieldFormatters, m2, m);
  }

  lemma {:induction false} CollectCrashed(os: seq<Outcome>, n: nat)
    requires 0 < n <= |os|
    requires Collect(os[..n]).crash.Some?
    ensures Collect(os) == Collect(os[..n])
    decreases |os| - n
  {
    if n < |os| {
      assert os[..n + 1][..n] == os[..n];
      CollectCrashed(os, n + 1);
    } else {
      assert os[..n] == os;
    }
  }

  // ---------------------------------------------------------------------------
  // What write_entry promises

  /** An entry without comments, or with an empty list of them, writes nothing. */
  lemma NoCommentsNoOutput(entry: Record)
    requires Lookup(entry, "comments") == None || Lookup(entry, "comments") == Some(List([]))
    ensures WriteEntrySpec(entry) == Expansion([], None)
  {
  }

  /** Comments that are not iterable end the run before anything is written. */
  lemma CommentsNotIterable(entry: Record)
    requires Lookup(entry, "comments").Some?
    requires var v := Lookup(entry, "comments").value; v.Null? || v.Bool? || v.Int?
    ensures WriteEntrySpec(entry) == Expansion([], Some(TypeError))
  {
  }

  /** The only exception a comment lets escape is a TypeError. */
  lemma AbortIsTypeError(entry: Record, c: Value)
    ensures ExpandOne(entry, c).Abort? ==> ExpandOne(entry, c).error == TypeError
  {
  }

  lemma {:induction false} CollectCrash(os: seq<Outcome>)
    ensures Collect(os).crash.Some? ==> exists i :: 0 <= i < |os| && os[i] == Abort(Collect(os).crash.value)
    decreases |os|
  {
    if os != [] {
      CollectCrash(os[..|os| - 1]);
    }
  }

  /** The only exception that escapes `write_entry` is a TypeError. */
  lemma OnlyTypeErrorEscapes(entry: Record)
    ensures WriteEntrySpec(entry).crash.Some? ==> WriteEntrySpec(entry).crash == Some(TypeError)
  {
    match Comments(entry)
    case Err(_) =>
    case Ok(cs) =>
      var os := Outcomes(entry, cs);
      CollectCrash(os);
      forall i | 0 <= i < |cs| ensures os[i].Abort? ==> os[i].error == TypeError {
        AbortIsTypeError(entry, cs[i]);
      }
  }

  /** With no escaping exception, what is written is the record of every formatted comment, in order. */
  lemma {:induction false} NoAbortWritesEmitted(os: seq<Outcome>)
    requires forall i :: 0 <= i < |os| ==> !os[i].Abort?
    ensures Collect(os) == Expansion(Emitted(os), None)
    decreases |os|
  {
    if os != [] {
      NoAbortWritesEmitted(os[..|os| - 1]);
    }
  }

  /**
   * The first comment whose exception escapes ends `write_entry`: what is
   * written is what the comments before it produced.
   */
  lemma {:induction false} FirstAbortStops(os: seq<Outcome>, k: nat)
    requires k < |os| && os[k].Abort?
    requires forall i :: 0 <= i < k ==> !os[i].Abort?
    ensures Collect(os) == Expansion(Emitted(os[..k]), Some(os[k].error))
    decreases |os|
  {
    if |os| - 1 == k {
      assert os[..|os| - 1] == os[..k];
      NoAbortWritesEmitted(os[..k]);
    } else {
      assert os[..|os| - 1][..k] == os[..k];
      FirstAbortStops(os[..|os| - 1], k);
    }
  }

  lemma {:induction false} EmittedConcat(xs: seq<Outcome>, ys: seq<Outcome>)
    ensures Emitted(xs + ys) == Emitted(xs) + Emitted(ys)
    decreases |ys|
  {
    if ys == [] {
      assert xs + ys == xs;
    } else {
      assert (xs + ys)[..|xs + ys| - 1] == xs + ys[..|ys| - 1];
      EmittedConcat(xs, ys[..|ys| - 1]);
    }
  }

  /** When every comment formats, one record is written per comment, the i-th from the i-th comment. */
  lemma {:induction false} AllEmit(os: seq<Outcome>)
    requires forall i :: 0 <= i < |os| ==> os[i].Emit?
    ensures Collect(os) == Expansion(Emitted(os), None)
    ensures Emitted(os) == seq(|os|, i requires 0 <= i < |os| => os[i].output)
    decreases |os|
  {
    NoAbortWritesEmitted(os);
    if os != [] {
      AllEmit(os[..|os| - 1]);
    }
  }

  /** A skipped comment contributes nothing and does not change what the others contribute. */
  lemma SkipIsolated(os: seq<Outcome>, i: nat)
    requires i < |os| && os[i].Skip?
    ensures Emitted(os) == Emitted(os[..i] + os[i + 1..])
  {
    var xs, x, ys := os[..i], os[i], os[i + 1..];
    var front := xs + [x];
    assert os == front + ys;
    EmittedConcat(front, ys);
    EmittedConcat(xs, [x]);
    EmittedConcat(xs, ys);
    SkipEmitsNothing(x);
  }

  lemma SkipEmitsNothing(x: Outcome)
    requires x.Skip?
    ensures Emitted([x]) == []
  {
    assert [x][..0] == [];
  }

  /** A comment is written exactly when every field of its entry formats. */
  lemma EmitIff(entry: Record, c: Value)
    ensures ExpandOne(entry, c).Emit? <==> FormatFields(FieldFormatters, WithOneComment(entry, c)).Ok?
    ensures ExpandOne(entry, c).Skip? <==>
      FormatFields(FieldFormatters, WithOneComment(entry, c)).Err? &&
      Caught(FormatFields(FieldFormatters, WithOneComment(entry, c)).error)
  {
    var m := WithOneComment(entry, c);
    FormatEntryFields(m, PromptTemplate());
    FormatEntryFields(m, CompletionTemplate());
  }

  /**
   * A written record: the prompt starts with a newline and ends with the
   * divider; the completion is a space, the rendered comment and the end
   * marker. Only a comment that is a string or a mapping that renders gets there.
   */
  lemma EmitShape(entry: Record, c: Value)
    requires ExpandOne(entry, c).Emit?
    ensures Renders(CommentRule, c)
    ensures StartsWith(ExpandOne(entry, c).output.prompt, "\n")
    ensures EndsWith(ExpandOne(entry, c).output.prompt, Divider)
    ensures ExpandOne(entry, c).output.completion == " " + Settled(CommentRule, c).s + EndMarker
  {
    var m := WithOneComment(entry, c);
    FormatEntryFields(m, PromptTemplate());
    FormatEntryFields(m, CompletionTemplate());
    var r := FormatFields(FieldFormatters, m).value;
    PromptShape(r);
    CompletionShape(r);
    FormatFieldsShape(FieldFormatters, m);
    FormatFieldsOk(FieldFormatters, m);
    FindSameKeys(r, m, "comments");
    var p := Find(m, "comments");
    CommentAt(entry, c);
    FormatSingleton(CommentRule, c);
    assert r[p] == ("comments", Str(Settled(CommentRule, c).s));
  }

  /** Two formatted copies of an entry that differ only in their comment agree on every other field. */
  lemma FormattedOffComments(entry: Record, c1: Value, c2: Value)
    requires FormatFields(FieldFormatters, WithOneComment(entry, c1)).Ok?
    requires FormatFields(FieldFormatters, WithOneComment(entry, c2)).Ok?
    ensures var r1, r2 := FormatFields(FieldFormatters, WithOneComment(entry, c1)).value,
                          FormatFields(FieldFormatters, WithOneComment(entry, c2)).value;
      Keys(r1) == Keys(r2) &&
      forall i :: 0 <= i < |r1| && r1[i].0 != "comments" ==> r1[i] == r2[i]
  {
    var m1, m2 := WithOneComment(entry, c1), WithOneComment(entry, c2);
    UpdateSpec(entry, "comments", List([c1]));
    UpdateSpec(entry, "comments", List([c2]));
    FormatFieldsShape(FieldFormatters, m1);
    FormatFieldsShape(FieldFormatters, m2);
    FormatFieldsOk(FieldFormatters, m1);
    FormatFieldsOk(FieldFormatters, m2);
  }

  /** The prompt template has no placeholder for the comments. */
  lemma PromptIgnoresComments(r1: Record, r2: Record)
    requires Keys(r1) == Keys(r2)
    requires forall i :: 0 <= i < |r1| && r1[i].0 != "comments" ==> r1[i] == r2[i]
    ensures Render(PromptTemplate(), r1) == Render(PromptTemplate(), r2)
  {
    forall n | n != "comments"
      ensures Fill(r1, n) == Fill(r2, n)
    {
      LookupAgree(r1, r2, n);
    }
    var t := PromptTemplate();
    assert forall i :: 0 <= i < |t| && t[i].Hole? ==> t[i].name != "comments";
    RenderAgree(t, r1, r2);
  }

  /** Only the comment differs between the records of one entry: their prompts are the same. */
  lemma SamePrompt(entry: Record, c1: Value, c2: Value)
    requires ExpandOne(entry, c1).Emit? && ExpandOne(entry, c2).Emit?
    ensures ExpandOne(entry, c1).output.prompt == ExpandOne(entry, c2).output.prompt
  {
    var m1, m2 := WithOneComment(entry, c1), WithOneComment(entry, c2);
    FormatEntryFields(m1, PromptTemplate());
    FormatEntryFields(m2, PromptTemplate());
    FormattedOffComments(entry, c1, c2);
    PromptIgnoresComments(FormatFields(FieldFormatters, m1).value, FormatFields(FieldFormatters, m2).value);
  }

  /** Every field of `m` before the first one with key `key` formats without error. */
  predicate OkBefore(m: Record, key: string)
  {
    forall k :: 0 <= k < |m| && key !in Keys(m[..k + 1]) ==> FieldResult(FieldFormatters, m[k]).Ok?
  }

  /**
   * A comment whose `score` is None, a boolean, a number or a mapping is skipped
   * with AttributeError, since `.replace` is a string method, provided nothing
   * formatted before it raises: no field of the entry before `comments` and no
   * field of the comment before `score`.
   */
  lemma NonStringScoreSkipped(entry: Record, fs: Record)
    requires Lookup(fs, "score").Some? && !Lookup(fs, "score").value.Str? && !Lookup(fs, "score").value.List?
    requires OkBefore(fs, "score")
    requires OkBefore(entry, "comments")
    ensures ExpandOne(entry, Rec(fs)) == Skip(AttributeError)
  {
    var c := Rec(fs);
    assert ApplyRule(CommentRule, c) == Err(AttributeError) by {
      assert FieldFormatters["score"] == Fn(MinusToHyphen);
      assert FormatValue(Fn(MinusToHyphen), Lookup(fs, "score").value) == Err(AttributeError);
      FieldFails(fs, "score", AttributeError);
      FormatEntryFields(fs, CommentTemplate());
    }
    assert [c][0..] == [c];
    assert Settle(CommentRule, [c], 0) == ([c], Some(AttributeError));
    CommentFails(entry, c, AttributeError);
  }

  /**
   * A comment is no longer formatted once the field under `key` raises `e`:
   * formatting its fields fails with `e` when nothing before that field raises.
   */
  lemma FieldFails(fs: Record, key: string, e: Error)
    requires Lookup(fs, key).Some? && key in FieldFormatters
    requires FieldResult(FieldFormatters, (key, Lookup(fs, key).value)) == Err(e)
    requires OkBefore(fs, key)
    ensures FormatFields(FieldFormatters, fs) == Err(e)
  {
    FindSpec(fs, key);
    var j := Find(fs, key);
    forall k | 0 <= k < j
      ensures FieldResult(FieldFormatters, fs[k]).Ok?
    {
      assert Keys(fs[..k + 1]) == Keys(fs[..j])[..k + 1];
    }
    assert fs[j] == (key, Lookup(fs, key).value);
    FormatFieldsErr(FieldFormatters, fs, e);
  }

  /**
   * A comment whose one-element list fails with `e` fails the copy's prompt
   * with `e`, when no field of the entry before `comments` raises: it is
   * skipped for a caught exception and ends the run for a TypeError.
   */
  lemma CommentFails(entry: Record, c: Value, e: Error)
    requires FormatList(CommentRule, [c]) == Err(e)
    requires OkBefore(entry, "comments")
    ensures ExpandOne(entry, c) == Failed(e)
  {
    var m := WithOneComment(entry, c);
    CommentAt(entry, c);
    var p := Find(m, "comments");
    assert FieldResult(FieldFormatters, m[p]) == Err(e) by {
      assert FieldFormatters["comments"] == CommentRule;
      assert FormatValue(CommentRule, List([c])) == Err(e);
    }
    BeforeCommentsOk(entry, c);
    FormatFieldsErr(FieldFormatters, m, e);
    FormatEntryFields(m, PromptTemplate());
  }

  /** The fields before `comments` in the one-comment copy are the entry's own. */
  lemma BeforeCommentsOk(entry: Record, c: Value)
    requires OkBefore(entry, "comments")
    ensures var m := WithOneComment(entry, c);
      forall k :: 0 <= k < Find(m, "comments") ==> FieldResult(FieldFormatters, m[k]).Ok?
  {
    var m := WithOneComment(entry, c);
    UpdateSpec(entry, "comments", List([c]));
    FindSpec(m, "comments");
    var p := Find(m, "comments");
    forall k | 0 <= k < p
      ensures FieldResult(FieldFormatters, m[k]).Ok?
    {
      assert Keys(m[..k + 1]) == Keys(m[..p])[..k + 1];
      forall i | 0 <= i <= k
        ensures m[i] == entry[i]
      {
        assert Keys(m[..p])[i] == m[i].0;
      }
      assert m[..k + 1] == entry[..k + 1];
    }
  }

  /**
   * A comment that is None, or a mapping whose own `comments` is None and
   * whose fields before it format: either one makes the comment rule's join
   * or template raise TypeError.
   */
  predicate NullComment(c: Value)
  {
    c.Null? || (c.Rec? && Lookup(c.fields, "comments") == Some(Null) && OkBefore(c.fields, "comments"))
  }

  /** A None comment, or a comment whose own `comments` is None, escapes as TypeError. */
  lemma NullCommentAborts(entry: Record, c: Value)
    requires NullComment(c)
    requires OkBefore(entry, "comments")
    ensures ExpandOne(entry, c) == Abort(TypeError)
  {
    assert FieldFormatters["comments"] == CommentRule;
    if c.Null? {
      var es := [c];
      assert Settle(CommentRule, es, 1) == ([], None);
      assert !es[0].Rec?;
      assert Settle(CommentRule, es, 0).0 == [es[0]] + [];
      assert Settle(CommentRule, es, 0).1 == None;
      assert !Settle(CommentRule, es, 0).0[0].Str?;
    } else {
      assert ApplyRule(CommentRule, c) == Err(TypeError) by {
        assert FormatValue(CommentRule, Null) == Err(TypeError);
        FieldFails(c.fields, "comments", TypeError);
        FormatEntryFields(c.fields, CommentTemplate());
      }
      assert [c][0..] == [c];
      assert Settle(CommentRule, [c], 0) == ([c], Some(TypeError));
    }
    CommentFails(entry, c, TypeError);
  }

  /**
   * One such comment is not contained to its own record: the TypeError is not
   * caught, so `write_entry` keeps what the comments before it wrote and ends
   * there, never reaching the comments after it. This needs only that no
   * field of the entry before `comments` raises (one that does fails every
   * comment first, with its own exception) and that no earlier comment ended
   * the run.
   */
  lemma NullCommentEndsRun(entry: Record, k: nat)
    requires OkBefore(entry, "comments")
    requires Comments(entry).Ok? && k < |Comments(entry).value| && NullComment(Comments(entry).value[k])
    requires forall j :: 0 <= j < k ==> !ExpandOne(entry, Comments(entry).value[j]).Abort?
    ensures var os := Outcomes(entry, Comments(entry).value);
      WriteEntrySpec(entry) == Expansion(Emitted(os[..k]), Some(TypeError))
  {
    var cs := Comments(entry).value;
    var os := Outcomes(entry, cs);
    NullCommentAborts(entry, cs[k]);
    FirstAbortStops(os, k);
  }
}
