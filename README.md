# Fine-tuning record formatter, modelled in Dafny

This project models `align_data/postprocess/format_for_fine_tuning.py`. That script turns
article records from JSON-lines files into `{prompt, completion}` pairs for fine-tuning,
one pair per top-level comment. The model covers these parts of the script:

- **Templates and rendering** (`Templates`). The three templates are written as sequences of
  literal pieces and `{name}` placeholders. `format_map` over a `defaultdict(str, …)` is
  modelled by `Render`: a placeholder becomes `str(value)`, or `""` when its key is absent.
  `str` of a list or mapping is Python's `repr` (`Values.Repr`).
- **Field rules** (`FieldRules`). `FIELD_FORMATTERS` maps `comments` to the comment template,
  `score` to replacing U+2212 by `-`, and `text` to replacing `%%%` by `---`. These use
  `str.replace` semantics: a left-to-right scan that replaces non-overlapping occurrences.
- **`format_fields` and `format_entry`** (`Formatting`). Records are insertion-ordered lists
  of key/value pairs, as Python dicts iterate them. Order matters: a skippable exception from
  one field and an escaping one from a later field are told apart by which field comes first.
  The functions follow every branch of the source:
  - a string rule on a non-string raises AttributeError;
  - a template on a mapping renders it;
  - a template on `""` renders every field blank, because `dict("")` is empty;
  - a template on any other string raises ValueError;
  - a template on any other scalar raises TypeError;
  - in a list, mapping elements are rendered in place and other elements are kept; the join
    raises TypeError if anything but strings is left.
- **The same loops in place** (`InPlace`). `FormatListInPlace` overwrites an `array` element
  by element, as line 142 does. `FormatFieldsInPlace` runs the field loop over a record
  whose list values may be array objects shared with the caller. Each method is proved equal
  to the functions above, and each states what it leaves in every shared array.
- **`write_entry`** (`Expander`).
  - `input_entry.get("comments", [])` is iterated as Python does: list elements, characters
    of a string, or keys of a mapping. `None`, numbers and booleans raise TypeError.
  - Each comment gets a copy of the entry whose `comments` is a new one-element list.
  - `WriteEntry` builds that list as an array of length one. It shares the array between the
    prompt and completion passes, so the completion pass sees the element that the prompt
    pass overwrote. `SharedListHarmless` proves that this gives exactly the completion a
    fresh copy would give.
  - AttributeError, KeyError and ValueError skip the comment. TypeError escapes and ends the
    run. So one malformed comment can end the whole run, not only its own record: a comment
    that is None, or a mapping whose own `comments` is None, raises TypeError once no field
    of the entry before `comments` (and none of the mapping's before its `comments`) has
    raised first (`Expander.NullCommentAborts`). The records written before it stay written
    and the later comments are never reached (`Expander.NullCommentEndsRun`). A field that
    raises earlier decides instead: an entry holding `score: 1` before its `comments` skips
    every comment with AttributeError.
- **`prepare_fine_tuning_entries`** (`Pipeline`).
  - Each input file is a sequence of lines: blank (skipped), a parsed object, or invalid.
  - The `sources` filter keeps an entry only when its `source` is one of the given strings.
  - The counters are modelled with the meaning the source gives them.
  - The writer is the sequence of records written. Records written before an escaping
    exception stay written.

## Model

| member | source | states |
|---|---|---|
| Values.FindSpec | align_data/postprocess/format_for_fine_tuning.py:151-153 | a key is looked up at its first position in the record, and is absent exactly when no pair holds it |
| Values.UpdateSpec | align_data/postprocess/format_for_fine_tuning.py:210-211 | assigning `comments` keeps an existing key in place or appends a new one, makes the key map to the new value, and leaves every other pair as it was |
| Values.UpdateOtherKey | align_data/postprocess/format_for_fine_tuning.py:210-211 | the copy with one comment agrees with the entry on every other key |
| Values.ShowInt | align_data/postprocess/format_for_fine_tuning.py:153 | `str(n)` of an integer is its numeral: a minus sign exactly when `n` is negative, then decimal digits whose left-to-right value is the magnitude of `n`, with no leading zero, and `str(0)` is exactly `"0"` |
| Values.ShowPlainStrings | align_data/postprocess/format_for_fine_tuning.py:153 | `str` of a list of strings with no quote, no backslash and only printable characters (non-ASCII letters included), such as `authors` or `tags`, is each string in single quotes, joined by ", " between brackets |
| Values.ShowTwoStrings | align_data/postprocess/format_for_fine_tuning.py:153 | a list of two such strings is shown as `['a', 'b']` |
| Templates.RenderMissingKeys | align_data/postprocess/format_for_fine_tuning.py:29-30 | rendering never fails on an absent key: with no key of the template present, the output is exactly the template's literal text |
| Templates.RenderAgree | align_data/postprocess/format_for_fine_tuning.py:150-153 | a rendering depends only on what each placeholder's key is filled with |
| Templates.PromptShape | align_data/postprocess/format_for_fine_tuning.py:50-62 | every prompt starts with a newline and ends with the divider `\n\n%%%\n\n` |
| Templates.CompletionShape | align_data/postprocess/format_for_fine_tuning.py:67-71 | every completion is a space, the `comments` field and `\n\n%END%\n\n` |
| FieldRules.ScoreNormalizes | align_data/postprocess/format_for_fine_tuning.py:93-94 | the score rule keeps the length, turns each U+2212 into `-`, keeps every other character, and leaves no U+2212 |
| FieldRules.ScoreIdentity | align_data/postprocess/format_for_fine_tuning.py:93-94 | on a string without U+2212 the score rule is the identity |
| FieldRules.ScoreIdempotent | align_data/postprocess/format_for_fine_tuning.py:93-94 | applying the score rule twice equals applying it once |
| FieldRules.EscapeKeepsLength | align_data/postprocess/format_for_fine_tuning.py:95-96 | the text rule keeps the length of the text |
| FieldRules.EscapeIdentity | align_data/postprocess/format_for_fine_tuning.py:95-96 | on a text without `%%%` the text rule is the identity |
| FieldRules.EscapeRemovesTriple | align_data/postprocess/format_for_fine_tuning.py:95-96 | after the text rule no `%%%` is left anywhere in a string, so a string `text` cannot contain the divider |
| FieldRules.EscapeIdempotent | align_data/postprocess/format_for_fine_tuning.py:95-96 | applying the text rule twice equals applying it once |
| Formatting.FormatFieldsShape | align_data/postprocess/format_for_fine_tuning.py:126-145 | a successful `format_fields` keeps exactly the keys in their order, leaves each pair without a rule unchanged, and turns each ruled field into a string |
| Formatting.FormatFieldsOk | align_data/postprocess/format_for_fine_tuning.py:126-145 | `format_fields` succeeds exactly when every field's rule does, and then each pair holds its own field's result |
| Formatting.FormatFieldsErr | align_data/postprocess/format_for_fine_tuning.py:126-145 | when `format_fields` fails, it fails with the error of the first failing field in insertion order, and only then |
| Formatting.Progress | align_data/postprocess/format_for_fine_tuning.py:126-145 | the number of fields the loop completes before the first failing one |
| Formatting.FormatFieldsAgree | align_data/postprocess/format_for_fine_tuning.py:126-145 | records whose fields have the same keys and format alike give the same `format_fields` result |
| Formatting.UnruledRendersSelf | align_data/postprocess/format_for_fine_tuning.py:127-153 | a record none of whose keys has a rule is rendered from its own values, unchanged |
| Formatting.RuleOutcome | align_data/postprocess/format_for_fine_tuning.py:130-153 | a string function succeeds exactly on a string and raises AttributeError otherwise; a template renders a mapping exactly when all its fields format (else the first failing field's error), renders `""` as its literal text, raises ValueError on any other string and TypeError on None, a boolean or a number |
| Formatting.EmptyStringRendersBlank | align_data/postprocess/format_for_fine_tuning.py:150-153 | a template rule applied to `""` renders the template with every placeholder blank |
| Formatting.SettleOk | align_data/postprocess/format_for_fine_tuning.py:139-142 | the in-place loop stops without error exactly when every mapping element renders, and then each mapping is replaced by its text and every other element is kept |
| Formatting.SettleFrom | align_data/postprocess/format_for_fine_tuning.py:139-142 | once elements before `i` have rendered, the list holds their texts followed by what the loop makes of the rest |
| Formatting.SettleLength | align_data/postprocess/format_for_fine_tuning.py:139-142 | the in-place loop never changes the length of a list |
| Formatting.FormatListOk | align_data/postprocess/format_for_fine_tuning.py:136-143 | a list field formats exactly when every element is a string or a mapping that renders, and then it is the `"\n\n\n"` join of the elements' texts in their original order |
| Formatting.SecondPassNoop | align_data/postprocess/format_for_fine_tuning.py:139-143 | after a successful pass the list holds only strings, and a second pass over it gives the same text |
| Formatting.FormatSingleton | align_data/postprocess/format_for_fine_tuning.py:136-143 | a one-element list formats exactly when its element renders, and then it is that element's text alone |
| Formatting.ListTextUnescaped | align_data/postprocess/format_for_fine_tuning.py:136-143 | a `text` that is a list of strings is joined unchanged: the `%%%` escape is not applied to its strings |
| InPlace.ShareAt | align_data/postprocess/format_for_fine_tuning.py:210-211 | the copy of the entry whose `comments` value is a list object shared with the caller, and no other field is |
| InPlace.SnapshotShareAt | align_data/postprocess/format_for_fine_tuning.py:210-211 | that copy reads as the entry with `comments` holding the shared list's current contents |
| InPlace.FormatListInPlace | align_data/postprocess/format_for_fine_tuning.py:136-143 | the list branch over an array returns what the value model returns and leaves the array holding the elements as the loop rewrote them |
| InPlace.FormatItem | align_data/postprocess/format_for_fine_tuning.py:127-145 | one pass of the field loop gives the value the value model gives that field; a shared list of a ruled field ends as the in-place element loop leaves it |
| InPlace.FormatFieldsInPlace | align_data/postprocess/format_for_fine_tuning.py:100-145 | the field loop returns the formatted copy or the first error. It leaves each shared list whose field was reached as the list loop rewrote it, and every other one untouched |
| InPlace.FormatEntryInPlace | align_data/postprocess/format_for_fine_tuning.py:148-153 | `format_entry` over a record with shared lists returns what the value model returns, with the same effect on the shared lists |
| Expander.Comments | align_data/postprocess/format_for_fine_tuning.py:208 | a missing `comments` gives no comments and a list gives its elements; the only failure is TypeError |
| Expander.WriteEntry | align_data/postprocess/format_for_fine_tuning.py:205-221 | with its one-element list shared between the two passes, `write_entry` writes exactly the records of the value model, and returns their number |
| Expander.ExpandOneInPlace | align_data/postprocess/format_for_fine_tuning.py:209-219 | one loop iteration through the shared list gives the outcome of formatting a fresh copy twice |
| Expander.SharedListHarmless | align_data/postprocess/format_for_fine_tuning.py:209-215 | after a successful prompt pass, the entry with the rewritten one-element list formats, under any template, exactly as the original copy does |
| Expander.NoCommentsNoOutput | align_data/postprocess/format_for_fine_tuning.py:208 | an entry with no or an empty `comments` writes nothing and returns 0 |
| Expander.CommentsNotIterable | align_data/postprocess/format_for_fine_tuning.py:208 | `comments` that is null, a number or a boolean raises TypeError before anything is written |
| Expander.AbortIsTypeError | align_data/postprocess/format_for_fine_tuning.py:209-218 | a comment's exception that escapes is a TypeError |
| Expander.CommentFails | align_data/postprocess/format_for_fine_tuning.py:209-218 | when no field of the entry before `comments` raises and the comment's one-element list fails with `e`, the comment is skipped if `e` is caught and ends the run if it is a TypeError |
| Expander.NullCommentAborts | align_data/postprocess/format_for_fine_tuning.py:136-143 | a comment that is None, or a mapping whose own `comments` is None (with no earlier field of it raising), raises TypeError, which is not caught, for any entry with no raising field before `comments` |
| Expander.NullCommentEndsRun | align_data/postprocess/format_for_fine_tuning.py:208-218 | when the k-th comment is such a comment and no earlier one ended the run, `write_entry` keeps exactly the records the first k comments wrote, ends with TypeError, and never reaches the comments after it |
| Expander.OnlyTypeErrorEscapes | align_data/postprocess/format_for_fine_tuning.py:208-221 | the only exception `write_entry` lets escape is TypeError |
| Expander.NoAbortWritesEmitted | align_data/postprocess/format_for_fine_tuning.py:208-221 | with no escaping exception, the records written are those of the comments that format, in comment order |
| Expander.FirstAbortStops | align_data/postprocess/format_for_fine_tuning.py:208-221 | the first escaping exception ends the loop; what was written is what the comments before it produced |
| Expander.AllEmit | align_data/postprocess/format_for_fine_tuning.py:208-221 | when all k comments format, exactly k records are written, the i-th from the i-th comment |
| Expander.SkipIsolated | align_data/postprocess/format_for_fine_tuning.py:216-218 | a skipped comment contributes nothing, and the others produce the same records as if it were absent |
| Expander.EmitIff | align_data/postprocess/format_for_fine_tuning.py:209-220 | a comment is written exactly when every field of its one-comment copy formats, and skipped exactly when the first failure is a caught exception |
| Expander.EmitShape | align_data/postprocess/format_for_fine_tuning.py:211-215 | a written record comes from a comment that is a string or a mapping that renders. Its prompt ends with the divider, and its completion is a space, that comment's text and the end marker |
| Expander.FormattedOffComments | align_data/postprocess/format_for_fine_tuning.py:209-213 | the formatted copies for two comments of one entry agree on every field but `comments` |
| Expander.PromptIgnoresComments | align_data/postprocess/format_for_fine_tuning.py:50-62 | the prompt does not depend on the `comments` field |
| Expander.SamePrompt | align_data/postprocess/format_for_fine_tuning.py:209-215 | all records written for one entry carry the same prompt |
| Expander.NonStringScoreSkipped | align_data/postprocess/format_for_fine_tuning.py:209-218 | for any entry and any mapping comment, a `score` that is None, a boolean, a number or a mapping skips the comment with AttributeError, provided no field formatted earlier raises: none of the entry before `comments`, none of the comment before `score` |
| Pipeline.PrepareFineTuningEntries | align_data/postprocess/format_for_fine_tuning.py:164-202 | the nested loops produce exactly the records, lines read, per-file parse-error counts and escaping exception of the run model. `lines_written` is the number of records written |
| Pipeline.ProcessFile | align_data/postprocess/format_for_fine_tuning.py:172-197 | one input file read line by line gives the state the file loop model gives, and `lines_written` grows by the records written |
| Pipeline.ScanTotals | align_data/postprocess/format_for_fine_tuning.py:172-197 | a file read to the end adds the records of its retained entries, all of its parsed lines, and the count of its invalid lines, which starts at 0 |
| Pipeline.RunTotals | align_data/postprocess/format_for_fine_tuning.py:164-202 | a finished run has read every parsed line of every file. It has one parse-error count per file, equal to that file's invalid lines, and its output is the records of the retained entries in file and line order |
| Pipeline.FilterKeepsCounts | align_data/postprocess/format_for_fine_tuning.py:185-194 | the filter changes what is written, not the lines read or the parse errors |
| Pipeline.RetainedIff | align_data/postprocess/format_for_fine_tuning.py:190-193 | with no `sources` every entry is kept; with them, an entry is kept exactly when its first `source` pair holds a string that is one of them |
| Pipeline.DroppedEntry | align_data/postprocess/format_for_fine_tuning.py:187-194 | an entry whose `source` is not among the sources counts as read and writes nothing |

## Left out

- `main`: the command line, the overwrite prompt and the logging setup. It is user I/O.
- Reading and writing JSON lines, opening files, EOF detection, and the log messages.
  - An input file is a sequence of `Line` values.
  - The writer is the sequence of records written.
  - The per-file parse-error warning is the `parseErrors` sequence.
- Floats in records. They would need Python's float formatting.
- The rest of the `str.format` mini-language. The shipped templates use only `{name}`.
- `repr` of a character outside Latin-1 that Python considers unprintable. `Text.Unprintable`
  is exact on ASCII and Latin-1 only.
- Nested reply lists:
  - Rendering a comment overwrites, in the caller's entry, the mapping elements of that
    comment's own `comments` list with their texts. This is because `format_entry` copies
    only the top level.
  - The model computes those nested lists as values and does not record the rewrite.
  - Nothing in the script reads such a list again after its comment has been rendered.
- `format_fields` assigns into the formatted copy. `FormatFieldsInPlace` builds that copy as
  a new record instead: the copy is private to `format_entry`.
- Records may repeat a key here, but JSON objects as parsed never do. Only the first
  `comments` pair is replaced, as `Update` defines it.
- A `text` given as a list of strings: its strings reach the prompt unescaped, so such a
  text can contain the divider (`Formatting.ListTextUnescaped`). Only a string `text` is
  promised free of `%%%`.
- Strings holding a lone surrogate code point (JSON `"\ud800"`) are not represented: a
  Dafny `char` is a Unicode scalar value.
- KeyError is caught by the source and kept in `Values.Caught`. No modelled path raises it.
- Pipeline.PrepareFineTuningEntries: says nothing of `lines_written` after an escaping
  exception. The source loses that counter together with the exception.
