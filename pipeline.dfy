/**
 * `prepare_fine_tuning_entries`: reads every input file line by line, drops
 * entries whose source is not selected, and writes the records `write_entry`
 * makes for the rest to one output. Files and the output are sequences here.
 */
module Pipeline {
  import opened Values
  import opened Expander

  /**
   * One line as `reader.read(type=dict, skip_empty=True)` sees it: a blank
   * line (skipped), a JSON object, or anything else (InvalidLineError).
   */
  datatype Line = Blank | Parsed(entry: Record) | Invalid

  type InputFile = seq<Line>

  /** Whether an entry passes the `sources` filter: `get("source") in sources`. */
  predicate Retained(entry: Record, sources: Option<seq<string>>)
  {
    sources.None? ||
    match Lookup(entry, "source")
    case Some(Str(s)) => s in sources.value
    case _ => false
  }

  /**
   * With no filter every entry is kept. With one, an entry is kept exactly when
   * the first pair with key `source` holds a string that is one of the sources:
   * a missing or non-string `source` is never among them.
   */
  lemma RetainedIff(entry: Record, sources: Option<seq<string>>)
    ensures Retained(entry, sources) <==>
      sources.None? ||
      exists j :: 0 <= j < |entry| && entry[j].0 == "source" && "source" !in Keys(entry[..j]) &&
        entry[j].1.Str? && entry[j].1.s in sources.value
  {
    FindSpec(entry, "source");
    if sources.Some? {
      var i := Find(entry, "source");
      if Retained(entry, sources) {
        assert 0 <= i && entry[i].1.Str? && entry[i].1.s in sources.value;
      }
      if j :| 0 <= j < |entry| && entry[j].0 == "source" && "source" !in Keys(entry[..j]) &&
             entry[j].1.Str? && entry[j].1.s in sources.value {
        FindFirst(entry, "source", j);
      }
    }
  }

  /** The counters while one file is read: records written so far, lines read so far, this file's parse errors. */
  datatype Tally = Tally(written: seq<OutputRecord>, linesRead: nat, errors: nat, crash: Option<Error>)

  /** The finished run: `parseErrors` holds the count of each file read to the end. */
  datatype Summary = Summary(written: seq<OutputRecord>, linesRead: nat, parseErrors: seq<nat>, crash: Option<Error>)

  /** One iteration of the inner loop. */
  function StepLine(t: Tally, l: Line, sources: Option<seq<string>>): Tally
  {
    match l
    case Blank => t
    case Invalid => t.(errors := t.errors + 1)
    case Parsed(e) =>
      if !Retained(e, sources) then t.(linesRead := t.linesRead + 1)
      else
        var x := WriteEntrySpec(e);
        Tally(t.written + x.written, t.linesRead + 1, t.errors, x.crash)
  }

  /** The inner loop over the lines of one file, stopping at an escaping exception. */
  function ScanLines(t: Tally, lines: seq<Line>, sources: Option<seq<string>>): Tally
  {
    if lines == [] then t
    else
      var prev := ScanLines(t, lines[..|lines| - 1], sources);
      if prev.crash.Some? then prev else StepLine(prev, lines[|lines| - 1], sources)
  }

  /** The outer loop over the input files. */
  function Run(files: seq<InputFile>, sources: Option<seq<string>>): Summary
  {
    if files == [] then Summary([], 0, [], None)
    else
      var prev := Run(files[..|files| - 1], sources);
      if prev.crash.Some? then prev
      else
        var t := ScanLines(Tally(prev.written, prev.linesRead, 0, None), files[|files| - 1], sources);
        Summary(t.written, t.linesRead,
                if t.crash.None? then prev.parseErrors + [t.errors] else prev.parseErrors, t.crash)
  }

  method PrepareFineTuningEntries(files: seq<InputFile>, sources: Option<seq<string>>)
    returns (written: seq<OutputRecord>, linesRead: nat, linesWritten: nat, parseErrors: seq<nat>, crash: Option<Error>)
    ensures Summary(written, linesRead, parseErrors, crash) == Run(files, sources)
    ensures crash.None? ==> linesWritten == |written|
  {
    written, linesRead, linesWritten, parseErrors, crash := [], 0, 0, [], None;
    var i := 0;
    while i < |files|
      invariant 0 <= i <= |files|
      invariant Run(files[..i], sources) == Summary(written, linesRead, parseErrors, None)
      invariant crash.None?
      invariant linesWritten == |written|
    {
      assert files[..i + 1][..i] == files[..i];
      var inputParseErrors;
      written, linesRead, linesWritten, inputParseErrors, crash := ProcessFile(files[i], sources, written, linesRead, linesWritten);
      assert Run(files[..i + 1], sources).crash == crash;
      if crash.Some? {
        assert Run(files[..i + 1], sources) == Summary(written, linesRead, parseErrors, crash);
        RunCrashed(files, i + 1, sources);
        return;
      }
      parseErrors := parseErrors + [inputParseErrors];
      i := i + 1;
    }
    assert files[..|files|] == files;
  }

  /** The body of the outer loop: one input file read to its end, or to an escaping exception. */
  method ProcessFile(lines: InputFile, sources: Option<seq<string>>,
                     written0: seq<OutputRecord>, read0: nat, linesWritten0: nat)
    returns (written: seq<OutputRecord>, linesRead: nat, linesWritten: nat, inputParseErrors: nat, crash: Option<Error>)
    ensures Tally(written, linesRead, inputParseErrors, crash) == ScanLines(Tally(written0, read0, 0, None), lines, sources)
    ensures crash.None? ==> linesWritten == linesWritten0 + |written| - |written0|
  {
    ghost var start := Tally(written0, read0, 0, None);
    written, linesRead, linesWritten, inputParseErrors, crash := written0, read0, linesWritten0, 0, None;
    var j := 0;
    while j < |lines|
      invariant 0 <= j <= |lines|
      invariant ScanLines(start, lines[..j], sources) == Tally(written, linesRead, inputParseErrors, None)
      invariant linesWritten == linesWritten0 + |written| - |written0|
    {
      ScanStep(start, lines, j, sources);
      match lines[j] {
        case Blank =>
        case Invalid =>
          inputParseErrors := inputParseErrors + 1;
        case Parsed(entry) =>
          linesRead := linesRead + 1;
          if Retained(entry, sources) {
            var count, out, err := WriteEntry(entry);
            written := written + out;
            if err.Some? {
              crash := err;
              ScanCrashed(start, lines, j + 1, sources);
              assert lines[..|lines|] == lines;
              return;
            }
            linesWritten := linesWritten + count;
          }
      }
      j := j + 1;
    }
    assert lines[..|lines|] == lines;
  }

  /** The scan of one more line is one more step, while nothing has escaped. */
  lemma ScanStep(t: Tally, lines: seq<Line>, j: nat, sources: Option<seq<string>>)
    requires j < |lines| && ScanLines(t, lines[..j], sources).crash.None?
    ensures ScanLines(t, lines[..j + 1], sources) == StepLine(ScanLines(t, lines[..j], sources), lines[j], sources)
  {
    assert lines[..j + 1][..j] == lines[..j];
  }

  lemma {:induction false} ScanCrashed(t: Tally, lines: seq<Line>, n: nat, sources: Option<seq<string>>)
    requires 0 < n <= |lines|
    requires ScanLines(t, lines[..n], sources).crash.Some?
    ensures ScanLines(t, lines, sources) == ScanLines(t, lines[..n], sources)
    decreases |lines| - n
  {
    if n < |lines| {
      assert lines[..n + 1][..n] == lines[..n];
      ScanCrashed(t, lines, n + 1, sources);
    } else {
      assert lines[..n] == lines;
    }
  }

  lemma {:induction false} RunCrashed(files: seq<InputFile>, n: nat, sources: Option<seq<string>>)
    requires 0 < n <= |files|
    requires Run(files[..n], sources).crash.Some?
    ensures Run(files, sources) == Run(files[..n], sources)
    decreases |files| - n
  {
    if n < |files| {
      assert files[..n + 1][..n] == files[..n];
      RunCrashed(files, n + 1, sources);
    } else {
      assert files[..n] == files;
    }
  }

  // ---------------------------------------------------------------------------
  // What the counters mean

  /** The lines of a file that parse to an entry. */
  function CountParsed(lines: seq<Line>): nat
  {
    if lines == [] then 0
    else CountParsed(lines[..|lines| - 1]) + if lines[|lines| - 1].Parsed? then 1 else 0
  }

  /** The lines of a file that are neither blank nor a JSON object. */
  function CountInvalid(lines: seq<Line>): nat
  {
    if lines == [] then 0
    else CountInvalid(lines[..|lines| - 1]) + if lines[|lines| - 1].Invalid? then 1 else 0
  }

  /** The records written for one line: those of its entry when the filter keeps it. */
  function LineOutput(l: Line, sources: Option<seq<string>>): seq<OutputRecord>
  {
    match l
    case Parsed(e) => if Retained(e, sources) then WriteEntrySpec(e).written else []
    case _ => []
  }

  /** The records written, in order, for the retained entries of a file. */
  function LinesOutput(lines: seq<Line>, sources: Option<seq<string>>): seq<OutputRecord>
  {
    if lines == [] then []
    else LinesOutput(lines[..|lines| - 1], sources) + LineOutput(lines[|lines| - 1], sources)
  }

  function TotalParsed(files: seq<InputFile>): nat
  {
    if files == [] then 0 else TotalParsed(files[..|files| - 1]) + CountParsed(files[|files| - 1])
  }

  function TotalOutput(files: seq<InputFile>, sources: Option<seq<string>>): seq<OutputRecord>
  {
    if files == [] then [] else TotalOutput(files[..|files| - 1], sources) + LinesOutput(files[|files| - 1], sources)
  }

  /**
   * A file read to the end adds its entries' records to the output, every
   * parsed line (retained or not) to the lines read, and counts its invalid lines.
   */
  lemma {:induction false} ScanTotals(t: Tally, lines: seq<Line>, sources: Option<seq<string>>)
    requires t.crash.None?
    ensures ScanLines(t, lines, sources).crash.None? ==>
      ScanLines(t, lines, sources) ==
        Tally(t.written + LinesOutput(lines, sources), t.linesRead + CountParsed(lines),
              t.errors + CountInvalid(lines), None)
    decreases |lines|
  {
    if lines != [] {
      var init, l := lines[..|lines| - 1], lines[|lines| - 1];
      ScanTotals(t, init, sources);
      var prev := ScanLines(t, init, sources);
      if prev.crash.None? {
        StepTotals(prev, l, sources);
      }
    }
  }

  /** One line read without an escaping exception adds its records and its counts. */
  lemma StepTotals(t: Tally, l: Line, sources: Option<seq<string>>)
    requires t.crash.None?
    ensures StepLine(t, l, sources).crash.None? ==>
      StepLine(t, l, sources) ==
        Tally(t.written + LineOutput(l, sources), t.linesRead + (if l.Parsed? then 1 else 0),
              t.errors + (if l.Invalid? then 1 else 0), None)
  {
  }

  /**
   * A run that ends without an escaping exception has read every parsed
   * line of every file, has one parse-error count per file, and has written
   * the records of the retained entries in file and line order.
   */
  lemma {:induction false} RunTotals(files: seq<InputFile>, sources: Option<seq<string>>)
    ensures Run(files, sources).crash.None? ==>
      Run(files, sources).linesRead == TotalParsed(files) &&
      Run(files, sources).written == TotalOutput(files, sources) &&
      |Run(files, sources).parseErrors| == |files| &&
      forall i :: 0 <= i < |files| ==> Run(files, sources).parseErrors[i] == CountInvalid(files[i])
    decreases |files|
  {
    if files != [] {
      var init, f := files[..|files| - 1], files[|files| - 1];
      var prev := Run(init, sources);
      RunTotals(init, sources);
      if prev.crash.None? {
        var start := Tally(prev.written, prev.linesRead, 0, None);
        ScanTotals(start, f, sources);
        var t := ScanLines(start, f, sources);
        if t.crash.None? {
          var pe := prev.parseErrors + [t.errors];
          assert Run(files, sources) == Summary(t.written, t.linesRead, pe, None);
          forall i | 0 <= i < |files| ensures pe[i] == CountInvalid(files[i]) {
            if i < |init| {
              assert files[i] == init[i];
            }
          }
        }
      }
    }
  }

  /**
   * The filter changes what is written but not what is counted: two runs
   * over the same files that both finish read the same number of lines and
   * count the same parse errors.
   */
  lemma FilterKeepsCounts(files: seq<InputFile>, s1: Option<seq<string>>, s2: Option<seq<string>>)
    requires Run(files, s1).crash.None? && Run(files, s2).crash.None?
    ensures Run(files, s1).linesRead == Run(files, s2).linesRead
    ensures Run(files, s1).parseErrors == Run(files, s2).parseErrors
  {
    RunTotals(files, s1);
    RunTotals(files, s2);
  }

  /** An entry the filter drops is counted as read and produces nothing. */
  lemma DroppedEntry(t: Tally, e: Record, sources: Option<seq<string>>)
    requires sources.Some? && !(Lookup(e, "source").Some? && Lookup(e, "source").value.Str? &&
                                Lookup(e, "source").value.s in sources.value)
    ensures StepLine(t, Parsed(e), sources) == t.(linesRead := t.linesRead + 1)
  {
  }
}
