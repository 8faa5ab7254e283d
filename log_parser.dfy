/**
 * The benchmark log reader (`parse_benchmark_file`). A log is a sequence of
 * lines; a scan over the stripped lines, steered by three section flags,
 * fills the system-information and summary dictionaries and collects the
 * comma-separated result rows, which are then turned into run records.
 *
 * Python's `int(...)` and `float(...)` are passed in as partial conversions
 * `toInt` and `toFloat`: `None` stands for the `ValueError` they raise.
 */
module LogParser {
  import opened Wrappers
  import opened Text

  const SystemHeader: string := "=== System Information ==="
  const ResultsHeader: string := "=== Benchmark Results ==="
  const SummaryHeader: string := "=== Summary Statistics ==="
  /** The time field that stands for "no time recorded". */
  const NotAvailable: string := "N/A"

  /** One row of the results table: `{run, time, status}`. */
  datatype RunRecord = RunRecord(run: int, time: Option<real>, status: string)

  /**
   * What `parse_benchmark_file` returns. `data` is `None` when no result row
   * was collected, and otherwise the table of records (possibly empty).
   */
  datatype Dataset = Dataset(systemInfo: map<string, string>, data: Option<seq<RunRecord>>,
                             summary: map<string, string>)

  /** The `ValueError` raised by `int(...)` on the run number or `float(...)` on the time. */
  datatype ParseError = BadRunNumber(field: string) | BadTime(field: string)

  /** `in_system_section`, `in_data_section`, `in_summary_section`. */
  datatype Sections = Sections(system: bool, data: bool, summary: bool)

  /** The state of the line scan: the flags and everything stored so far. */
  datatype Scan = Scan(sections: Sections, systemInfo: map<string, string>,
                       summary: map<string, string>, dataLines: seq<string>)

  const Start: Scan := Scan(Sections(false, false, false), map[], map[], [])

  predicate IsHeader(line: string) {
    StartsWith(line, SystemHeader) || StartsWith(line, ResultsHeader) || StartsWith(line, SummaryHeader)
  }

  /** A line the results section keeps: not a comment, and holding a comma. */
  predicate IsDataLine(line: string) {
    !StartsWith(line, "#") && ',' in line
  }

  /**
   * `key, value = line.split(':', 1)` followed by `key.strip()`, `value.strip()`:
   * the line is cut at its first colon and both sides are trimmed.
   */
  function KeyValue(line: string): (kv: (string, string))
    requires ':' in line
    ensures ':' !in kv.0
  {
    var parts := SplitFirst(line, ':');
    StripKeepsAbsent(parts.0, ':');
    (Strip(parts.0), Strip(parts.1))
  }

  /**
   * The key is the text before the first colon and the value the text after
   * it, both trimmed; trimming either again changes nothing.
   */
  lemma KeyValueSplit(line: string)
    requires ':' in line
    ensures var kv := KeyValue(line);
            Strip(kv.0) == kv.0 && Strip(kv.1) == kv.1
            && exists i :: 0 <= i < |line| && line[i] == ':' && ':' !in line[..i]
                           && kv == (Strip(line[..i]), Strip(line[i + 1..]))
  {
    var parts := SplitFirst(line, ':');
    var i := |parts.0|;
    assert line[..i] == parts.0 && line[i + 1..] == parts.1 && line[i] == ':';
    StripIdempotent(parts.0);
    StripIdempotent(parts.1);
  }

  /** What one loop iteration of the scan does with one raw line. */
  function Step(sc: Scan, raw: string): Scan {
    var line := Strip(raw);
    var f := sc.sections;
    if StartsWith(line, SystemHeader) then sc.(sections := f.(system := true))
    else if StartsWith(line, ResultsHeader) then sc.(sections := f.(system := false, data := true))
    else if StartsWith(line, SummaryHeader) then sc.(sections := f.(data := false, summary := true))
    else if f.system && ':' in line then
      var kv := KeyValue(line);
      sc.(systemInfo := sc.systemInfo[kv.0 := kv.1])
    else if f.data && IsDataLine(line) then
      if StartsWith(line, "Run#") then sc else sc.(dataLines := sc.dataLines + [line])
    else if f.summary && ':' in line then
      var kv := KeyValue(line);
      sc.(summary := sc.summary[kv.0 := kv.1])
    else sc
  }

  /** The scan after the given lines, one `Step` per line, from `Start`. */
  function ScanAll(lines: seq<string>): Scan
    decreases |lines|
  {
    if lines == [] then Start else Step(ScanAll(lines[..|lines| - 1]), lines[|lines| - 1])
  }

  /** No line starts with two different section headers. */
  lemma HeadersExclusive(line: string)
    ensures !(StartsWith(line, SystemHeader) && StartsWith(line, ResultsHeader))
    ensures !(StartsWith(line, SystemHeader) && StartsWith(line, SummaryHeader))
    ensures !(StartsWith(line, ResultsHeader) && StartsWith(line, SummaryHeader))
  {
    if StartsWith(line, SystemHeader) {
      assert line[..|SystemHeader|][4] == 'S' && line[..|SystemHeader|][5] == 'y';
    }
    if StartsWith(line, ResultsHeader) {
      assert line[..|ResultsHeader|][4] == 'B';
    }
    if StartsWith(line, SummaryHeader) {
      assert line[..|SummaryHeader|][4] == 'S' && line[..|SummaryHeader|][5] == 'u';
    }
  }

  /**
   * A header line stores nothing and only moves the section flags: the
   * System header sets its own flag, the Results header clears the system
   * flag and sets the data flag, the Summary header clears the data flag and
   * sets the summary flag, leaving the system flag as it was.
   */
  lemma HeaderSwitchesSections(sc: Scan, raw: string)
    requires IsHeader(Strip(raw))
    ensures var next := Step(sc, raw);
            next.systemInfo == sc.systemInfo && next.summary == sc.summary && next.dataLines == sc.dataLines
    ensures StartsWith(Strip(raw), SystemHeader) ==>
            Step(sc, raw).sections == sc.sections.(system := true)
    ensures StartsWith(Strip(raw), ResultsHeader) ==>
            Step(sc, raw).sections == Sections(false, true, sc.sections.summary)
    ensures StartsWith(Strip(raw), SummaryHeader) ==>
            Step(sc, raw).sections == Sections(sc.sections.system, false, true)
  {
    HeadersExclusive(Strip(raw));
  }

  /**
   * A Summary header that is not preceded by a Results header leaves the
   * system section open, so the key/value lines after it still go to the
   * system dictionary and not to the summary.
   */
  lemma SummaryWithoutResults(sc: Scan, header: string, raw: string)
    requires sc.sections.system
    requires StartsWith(Strip(header), SummaryHeader)
    requires !IsHeader(Strip(raw)) && ':' in Strip(raw)
    ensures var kv := KeyValue(Strip(raw));
            var next := Step(Step(sc, header), raw);
            next.systemInfo == sc.systemInfo[kv.0 := kv.1] && next.summary == sc.summary
  {
    HeadersExclusive(Strip(header));
  }

  /** Of two key/value lines in the system section with the same key, the later value is kept. */
  lemma LaterKeyWins(sc: Scan, first: string, second: string)
    requires sc.sections.system
    requires !IsHeader(Strip(first)) && ':' in Strip(first)
    requires !IsHeader(Strip(second)) && ':' in Strip(second)
    requires KeyValue(Strip(first)).0 == KeyValue(Strip(second)).0
    ensures var kv := KeyValue(Strip(second));
            var next := Step(Step(sc, first), second);
            kv.0 in next.systemInfo && next.systemInfo[kv.0] == kv.1
            && next.systemInfo.Keys == sc.systemInfo.Keys + {kv.0}
  {
  }

  /** The summary dictionary, or the system-information dictionary. */
  function Dict(sc: Scan, summary: bool): map<string, string> {
    if summary then sc.summary else sc.systemInfo
  }

  /**
   * The line is a key/value line that the scan stores in the chosen
   * dictionary: the system section takes a colon line first; the summary
   * section gets it only when the system section is closed and the data
   * section does not claim it as a row.
   */
  predicate Routes(sc: Scan, raw: string, summary: bool) {
    var line := Strip(raw);
    var f := sc.sections;
    !IsHeader(line) && ':' in line
    && if summary then !f.system && !(f.data && IsDataLine(line)) && f.summary else f.system
  }

  /** One step stores the line's key/value pair in a dictionary exactly when the line routes there. */
  lemma StepRoutes(sc: Scan, raw: string, summary: bool)
    ensures Routes(sc, raw, summary) ==>
            var kv := KeyValue(Strip(raw));
            Dict(Step(sc, raw), summary) == Dict(sc, summary)[kv.0 := kv.1]
    ensures !Routes(sc, raw, summary) ==> Dict(Step(sc, raw), summary) == Dict(sc, summary)
  {
    if summary {
      StepSummary(sc, raw);
    } else {
      StepSystem(sc, raw);
    }
  }

  /** The system dictionary changes only for a key/value line read in the system section. */
  lemma StepSystem(sc: Scan, raw: string)
    ensures Routes(sc, raw, false) ==>
            var kv := KeyValue(Strip(raw));
            Step(sc, raw).systemInfo == sc.systemInfo[kv.0 := kv.1]
    ensures !Routes(sc, raw, false) ==> Step(sc, raw).systemInfo == sc.systemInfo
  {
    if IsHeader(Strip(raw)) {
      HeadersExclusive(Strip(raw));
    }
  }

  /** The summary dictionary changes only for a key/value line that no earlier branch takes. */
  lemma StepSummary(sc: Scan, raw: string)
    ensures Routes(sc, raw, true) ==>
            var kv := KeyValue(Strip(raw));
            Step(sc, raw).summary == sc.summary[kv.0 := kv.1]
    ensures !Routes(sc, raw, true) ==> Step(sc, raw).summary == sc.summary
  {
    if IsHeader(Strip(raw)) {
      HeadersExclusive(Strip(raw));
    }
  }

  /** Line `j` of the log is stored under `key` in the chosen dictionary. */
  predicate StoresKey(lines: seq<string>, j: int, summary: bool, key: string)
    requires 0 <= j < |lines|
  {
    Routes(ScanAll(lines[..j]), lines[j], summary) && KeyValue(Strip(lines[j])).0 == key
  }

  /** What line `i` of the log does to one key of the chosen dictionary. */
  lemma DictStep(lines: seq<string>, i: int, summary: bool, key: string)
    requires 0 <= i < |lines|
    ensures var before := Dict(ScanAll(lines[..i]), summary);
            var after := Dict(ScanAll(lines[..i + 1]), summary);
            (StoresKey(lines, i, summary, key) ==> key in after && after[key] == KeyValue(Strip(lines[i])).1)
            && (!StoresKey(lines, i, summary, key) ==>
                  (key in after <==> key in before) && (key in before ==> after[key] == before[key]))
  {
    ScanAllSnoc(lines, i);
    StepRoutes(ScanAll(lines[..i]), lines[i], summary);
  }

  /**
   * The history of one key in a dictionary that starts without it: step `i`
   * takes `dicts[i]` to `dicts[i + 1]`, writing `val[i]` under the key when
   * `hit[i]` holds and leaving the key alone otherwise.
   */
  predicate KeyHistory(dicts: seq<map<string, string>>, hit: seq<bool>, val: seq<string>, key: string) {
    |dicts| == |hit| + 1 && |val| == |hit| && key !in dicts[0]
    && forall i :: 0 <= i < |hit| ==>
         if hit[i] then key in dicts[i + 1] && dicts[i + 1][key] == val[i]
         else (key in dicts[i + 1] <==> key in dicts[i]) && (key in dicts[i] ==> dicts[i + 1][key] == dicts[i][key])
  }

  /** After `n` steps the key is present exactly when some step wrote it. */
  lemma {:induction false} Written(dicts: seq<map<string, string>>, hit: seq<bool>, val: seq<string>,
                                   key: string, n: int)
    requires KeyHistory(dicts, hit, val, key) && 0 <= n <= |hit|
    ensures key in dicts[n] <==> exists j :: 0 <= j < n && hit[j]
    decreases n
  {
    if n > 0 {
      Written(dicts, hit, val, key, n - 1);
    }
  }

  /** After `n` steps the key holds what the last step to write it wrote. */
  lemma {:induction false} LastWrite(dicts: seq<map<string, string>>, hit: seq<bool>, val: seq<string>,
                                     key: string, n: int, j: int)
    requires KeyHistory(dicts, hit, val, key) && 0 <= j < n <= |hit| && hit[j]
    requires forall k :: j < k < n ==> !hit[k]
    ensures key in dicts[n] && dicts[n][key] == val[j]
    decreases n
  {
    if j < n - 1 {
      LastWrite(dicts, hit, val, key, n - 1, j);
    }
  }

  /** The chosen dictionary after each prefix of the log. */
  function Dicts(lines: seq<string>, summary: bool): (d: seq<map<string, string>>)
    ensures |d| == |lines| + 1
    ensures forall i :: 0 <= i <= |lines| ==> d[i] == Dict(ScanAll(lines[..i]), summary)
  {
    seq(|lines| + 1, i requires 0 <= i <= |lines| => Dict(ScanAll(lines[..i]), summary))
  }

  /** The last entry is the dictionary after the whole log. */
  lemma DictsLast(lines: seq<string>, summary: bool)
    ensures Dicts(lines, summary)[|lines|] == Dict(ScanAll(lines), summary)
  {
    assert lines[..|lines|] == lines;
  }

  /** Which lines are stored under `key`. */
  function Hits(lines: seq<string>, summary: bool, key: string): (h: seq<bool>)
    ensures |h| == |lines|
    ensures forall i :: 0 <= i < |lines| ==> h[i] == StoresKey(lines, i, summary, key)
  {
    seq(|lines|, i requires 0 <= i < |lines| => StoresKey(lines, i, summary, key))
  }

  /** The value each key/value line would store. */
  function Values(lines: seq<string>): (v: seq<string>)
    ensures |v| == |lines|
    ensures forall i :: 0 <= i < |lines| && ':' in Strip(lines[i]) ==> v[i] == KeyValue(Strip(lines[i])).1
  {
    seq(|lines|, i requires 0 <= i < |lines| => if ':' in Strip(lines[i]) then KeyValue(Strip(lines[i])).1 else "")
  }

  /** The scan writes each dictionary one key/value line at a time. */
  lemma ScanHistory(lines: seq<string>, summary: bool, key: string)
    ensures KeyHistory(Dicts(lines, summary), Hits(lines, summary, key), Values(lines), key)
  {
    var dicts, hit := Dicts(lines, summary), Hits(lines, summary, key);
    assert dicts[0] == Dict(ScanAll(lines[..0]), summary);
    forall i | 0 <= i < |lines|
      ensures if hit[i] then key in dicts[i + 1] && dicts[i + 1][key] == Values(lines)[i]
              else (key in dicts[i + 1] <==> key in dicts[i]) && (key in dicts[i] ==> dicts[i + 1][key] == dicts[i][key])
    {
      DictStep(lines, i, summary, key);
    }
  }

  /** A key is in a dictionary after the scan exactly when some line was stored there under it. */
  lemma StoredKeys(lines: seq<string>, summary: bool, key: string)
    ensures key in Dict(ScanAll(lines), summary) <==>
            exists j :: 0 <= j < |lines| && StoresKey(lines, j, summary, key)
  {
    var hit := Hits(lines, summary, key);
    ScanHistory(lines, summary, key);
    Written(Dicts(lines, summary), hit, Values(lines), key, |lines|);
    DictsLast(lines, summary);
    assert (exists j :: 0 <= j < |lines| && hit[j]) <==> exists j :: 0 <= j < |lines| && StoresKey(lines, j, summary, key);
  }

  /**
   * Repeated keys: the stored value is the one from the last line stored
   * under that key in that dictionary.
   */
  lemma LastKeyWins(lines: seq<string>, summary: bool, key: string, j: int)
    requires 0 <= j < |lines| && StoresKey(lines, j, summary, key)
    requires forall k :: j < k < |lines| ==> !StoresKey(lines, k, summary, key)
    ensures key in Dict(ScanAll(lines), summary)
    ensures Dict(ScanAll(lines), summary)[key] == KeyValue(Strip(lines[j])).1
  {
    ScanHistory(lines, summary, key);
    LastWrite(Dicts(lines, summary), Hits(lines, summary, key), Values(lines), key, |lines|, j);
    DictsLast(lines, summary);
  }

  /** Until a section header has been read, nothing is stored and every flag is off. */
  lemma {:induction false} NothingBeforeHeader(lines: seq<string>)
    requires forall j :: 0 <= j < |lines| ==> !IsHeader(Strip(lines[j]))
    ensures ScanAll(lines) == Start
    decreases |lines|
  {
    if lines != [] {
      NothingBeforeHeader(lines[..|lines| - 1]);
    }
  }

  /**
   * One step either leaves the collected rows alone or appends the stripped
   * line, which happens only in the data section, for a line that is not a
   * header, not a comment, not the `Run#` column header, and has a comma;
   * such a line is appended unless the open system section takes it first.
   */
  lemma StepRows(sc: Scan, raw: string)
    ensures var next := Step(sc, raw);
            next.dataLines == sc.dataLines
            || (next.dataLines == sc.dataLines + [Strip(raw)] && sc.sections.data && IsDataLine(Strip(raw))
                && !StartsWith(Strip(raw), "Run#") && !IsHeader(Strip(raw)))
    ensures sc.sections.data && IsDataLine(Strip(raw)) && !StartsWith(Strip(raw), "Run#") && !IsHeader(Strip(raw))
            && !(sc.sections.system && ':' in Strip(raw)) ==>
            Step(sc, raw).dataLines == sc.dataLines + [Strip(raw)]
  {
  }

  /**
   * Every collected row is a stripped input line that is not a header, not a
   * comment, not the `Run#` column header, and contains a comma.
   */
  lemma {:induction false} CollectedRows(lines: seq<string>)
    ensures forall k :: 0 <= k < |ScanAll(lines).dataLines| ==>
              var d := ScanAll(lines).dataLines[k];
              IsDataLine(d) && !StartsWith(d, "Run#") && !IsHeader(d)
              && exists j :: 0 <= j < |lines| && d == Strip(lines[j])
    decreases |lines|
  {
    if lines != [] {
      var n := |lines| - 1;
      var init := lines[..n];
      CollectedRows(init);
      StepRows(ScanAll(init), lines[n]);
      var rows := ScanAll(lines).dataLines;
      forall k | 0 <= k < |rows|
        ensures exists j :: 0 <= j < |lines| && rows[k] == Strip(lines[j])
      {
        if k < |ScanAll(init).dataLines| {
          var j :| 0 <= j < n && ScanAll(init).dataLines[k] == Strip(init[j]);
          assert init[j] == lines[j];
        } else {
          assert rows[k] == Strip(lines[n]);
        }
      }
    }
  }

  /** Rows are only collected once a Results header has been read. */
  lemma {:induction false} RowsNeedResultsHeader(lines: seq<string>)
    requires ScanAll(lines).dataLines != []
    ensures exists j :: 0 <= j < |lines| && StartsWith(Strip(lines[j]), ResultsHeader)
    decreases |lines|
  {
    var n := |lines| - 1;
    var init := lines[..n];
    var before := ScanAll(init);
    StepRows(before, lines[n]);
    if before.dataLines == [] {
      assert before.sections.data;
      ScanOpensData(init);
    } else {
      RowsNeedResultsHeader(init);
    }
    var j :| 0 <= j < |init| && StartsWith(Strip(init[j]), ResultsHeader);
    assert init[j] == lines[j];
  }

  /** The data flag is only ever set by a Results header. */
  lemma {:induction false} ScanOpensData(lines: seq<string>)
    requires ScanAll(lines).sections.data
    ensures exists j :: 0 <= j < |lines| && StartsWith(Strip(lines[j]), ResultsHeader)
    decreases |lines|
  {
    var n := |lines| - 1;
    if StartsWith(Strip(lines[n]), ResultsHeader) {
    } else {
      ScanOpensData(lines[..n]);
      var j :| 0 <= j < n && StartsWith(Strip(lines[..n][j]), ResultsHeader);
      assert lines[..n][j] == lines[j];
    }
  }

  /** A collected result row with at least three comma-separated fields. */
  predicate HasRecordFields(line: string) {
    |Split(line, ',')| >= 3
  }

  /**
   * `int(parts[0])`, then `float(parts[1])` unless it is `N/A`, then
   * `parts[2]` verbatim; later fields are ignored.
   */
  function RecordOf(fields: seq<string>, toInt: string -> Option<int>,
                    toFloat: string -> Option<real>): (r: Result<RunRecord, ParseError>)
    requires |fields| >= 3
    ensures r.Ok? <==> toInt(fields[0]).Some? && (fields[1] == NotAvailable || toFloat(fields[1]).Some?)
    ensures r.Ok? ==> r.value.run == toInt(fields[0]).value && r.value.status == fields[2]
    ensures r.Ok? ==> (r.value.time.None? <==> fields[1] == NotAvailable)
    ensures r.Ok? && r.value.time.Some? ==> r.value.time.value == toFloat(fields[1]).value
    ensures toInt(fields[0]).None? ==> r == Err(BadRunNumber(fields[0]))
    ensures toInt(fields[0]).Some? && r.Err? ==> r == Err(BadTime(fields[1]))
  {
    match toInt(fields[0])
    case None => Err(BadRunNumber(fields[0]))
    case Some(n) =>
      if fields[1] == NotAvailable then Ok(RunRecord(n, None, fields[2]))
      else
        match toFloat(fields[1])
        case None => Err(BadTime(fields[1]))
        case Some(t) => Ok(RunRecord(n, Some(t), fields[2]))
  }

  /** The second loop of the reader: records for the collected rows, or the first conversion error. */
  function Records(ls: seq<string>, toInt: string -> Option<int>,
                   toFloat: string -> Option<real>): Result<seq<RunRecord>, ParseError>
    decreases |ls|
  {
    if ls == [] then Ok([])
    else
      var last := ls[|ls| - 1];
      match Records(ls[..|ls| - 1], toInt, toFloat)
      case Err(e) => Err(e)
      case Ok(rs) =>
        var parts := Split(last, ',');
        if |parts| < 3 then Ok(rs)
        else
          match RecordOf(parts, toInt, toFloat)
          case Err(e) => Err(e)
          case Ok(rec) => Ok(rs + [rec])
  }

  /** The collected rows that have at least three fields, in order. */
  function RecordLines(ls: seq<string>): (r: seq<string>)
    ensures |r| <= |ls|
    ensures forall k :: 0 <= k < |r| ==> HasRecordFields(r[k])
    decreases |ls|
  {
    if ls == [] then []
    else RecordLines(ls[..|ls| - 1]) + (if HasRecordFields(ls[|ls| - 1]) then [ls[|ls| - 1]] else [])
  }

  /**
   * The rows kept are exactly those with three or more fields, each as
   * often as it was collected, and in the order they were collected.
   */
  lemma {:induction false} RecordLinesSelect(ls: seq<string>)
    ensures forall x :: multiset(RecordLines(ls))[x] == if HasRecordFields(x) then multiset(ls)[x] else 0
    ensures forall x :: x in RecordLines(ls) <==> x in ls && HasRecordFields(x)
    decreases |ls|
  {
    if ls != [] {
      var n := |ls| - 1;
      RecordLinesSelect(ls[..n]);
      assert ls == ls[..n] + [ls[n]];
      assert multiset(ls) == multiset(ls[..n]) + multiset([ls[n]]);
    }
  }

  /** Selecting rows from two stretches of the log is selecting from each, one after the other. */
  lemma {:induction false} RecordLinesAppend(a: seq<string>, b: seq<string>)
    ensures RecordLines(a + b) == RecordLines(a) + RecordLines(b)
    decreases |b|
  {
    if b == [] {
      assert a + b == a;
    } else {
      var n := |b| - 1;
      RecordLinesAppend(a, b[..n]);
      assert (a + b)[..|a + b| - 1] == a + b[..n];
    }
  }

  /** The whole of `parse_benchmark_file`, as a value. */
  function Parse(lines: seq<string>, toInt: string -> Option<int>,
                 toFloat: string -> Option<real>): Result<Dataset, ParseError>
  {
    var sc := ScanAll(lines);
    if sc.dataLines == [] then Ok(Dataset(sc.systemInfo, None, sc.summary))
    else
      match Records(sc.dataLines, toInt, toFloat)
      case Err(e) => Err(e)
      case Ok(rs) => Ok(Dataset(sc.systemInfo, Some(rs), sc.summary))
  }

  /**
   * The first loop of `parse_benchmark_file`: the three section flags are
   * loop variables, and each stripped line is routed to the system
   * dictionary, the collected rows, the summary dictionary, or nowhere.
   */
  method ScanLines(lines: seq<string>)
    returns (systemInfo: map<string, string>, summary: map<string, string>, dataLines: seq<string>)
    ensures systemInfo == ScanAll(lines).systemInfo
    ensures summary == ScanAll(lines).summary
    ensures dataLines == ScanAll(lines).dataLines
  {
    var inSystem, inData, inSummary := false, false, false;
    systemInfo, summary, dataLines := map[], map[], [];
    for i := 0 to |lines|
      invariant ScanAll(lines[..i]) == Scan(Sections(inSystem, inData, inSummary), systemInfo, summary, dataLines)
    {
      ghost var before := Scan(Sections(inSystem, inData, inSummary), systemInfo, summary, dataLines);
      ScanAllSnoc(lines, i);
      var line := Strip(lines[i]);
      if StartsWith(line, SystemHeader) {
        inSystem := true;
      } else if StartsWith(line, ResultsHeader) {
        inSystem := false;
        inData := true;
      } else if StartsWith(line, SummaryHeader) {
        inData := false;
        inSummary := true;
      } else if inSystem && ':' in line {
        var kv := KeyValue(line);
        systemInfo := systemInfo[kv.0 := kv.1];
      } else if inData && !StartsWith(line, "#") && ',' in line {
        if !StartsWith(line, "Run#") {
          dataLines := dataLines + [line];
        }
      } else if inSummary && ':' in line {
        var kv := KeyValue(line);
        summary := summary[kv.0 := kv.1];
      }
      assert Scan(Sections(inSystem, inData, inSummary), systemInfo, summary, dataLines) == Step(before, lines[i]);
    }
    assert lines[..|lines|] == lines;
  }

  /** Scanning one more line is one more `Step`. */
  lemma ScanAllSnoc(lines: seq<string>, i: nat)
    requires i < |lines|
    ensures ScanAll(lines[..i + 1]) == Step(ScanAll(lines[..i]), lines[i])
  {
    assert lines[..i + 1][..i] == lines[..i];
  }

  /**
   * The second loop of `parse_benchmark_file`: every collected row with at
   * least three fields becomes a record; a failed conversion ends the loop
   * with that error.
   */
  method BuildRecords(dataLines: seq<string>, toInt: string -> Option<int>,
                      toFloat: string -> Option<real>) returns (r: Result<seq<RunRecord>, ParseError>)
    ensures r == Records(dataLines, toInt, toFloat)
  {
    var data: seq<RunRecord> := [];
    for i := 0 to |dataLines|
      invariant Records(dataLines[..i], toInt, toFloat) == Ok(data)
    {
      assert dataLines[..i + 1][..i] == dataLines[..i];
      var parts := Split(dataLines[i], ',');
      if |parts| >= 3 {
        var run := toInt(parts[0]);
        if run.None? {
          RecordsErrorPersists(dataLines, i + 1, toInt, toFloat);
          return Err(BadRunNumber(parts[0]));
        }
        var time: Option<real> := None;
        if parts[1] != NotAvailable {
          var t := toFloat(parts[1]);
          if t.None? {
            RecordsErrorPersists(dataLines, i + 1, toInt, toFloat);
            return Err(BadTime(parts[1]));
          }
          time := Some(t.value);
        }
        data := data + [RunRecord(run.value, time, parts[2])];
      }
    }
    assert dataLines[..|dataLines|] == dataLines;
    r := Ok(data);
  }

  /**
   * `parse_benchmark_file` on the lines of the file: the scan, then record
   * building, with no partial result when a conversion fails.
   */
  method ParseBenchmarkFile(lines: seq<string>, toInt: string -> Option<int>,
                            toFloat: string -> Option<real>) returns (r: Result<Dataset, ParseError>)
    ensures r == Parse(lines, toInt, toFloat)
    ensures r.Ok? ==> r.value.systemInfo == ScanAll(lines).systemInfo
                      && r.value.summary == ScanAll(lines).summary
    ensures r.Ok? ==> (r.value.data.None? <==> ScanAll(lines).dataLines == [])
    ensures r.Err? <==> exists j :: 0 <= j < |ScanAll(lines).dataLines| && HasRecordFields(ScanAll(lines).dataLines[j])
                                  && RecordOf(Split(ScanAll(lines).dataLines[j], ','), toInt, toFloat).Err?
  {
    var systemInfo, summary, dataLines := ScanLines(lines);
    RecordsOkIff(dataLines, toInt, toFloat);
    if dataLines == [] {
      return Ok(Dataset(systemInfo, None, summary));
    }
    var data := BuildRecords(dataLines, toInt, toFloat);
    match data
    case Err(e) => r := Err(e);
    case Ok(rs) => r := Ok(Dataset(systemInfo, Some(rs), summary));
  }

  /** Once a conversion has failed, later rows do not change the outcome. */
  lemma {:induction false} RecordsErrorPersists(ls: seq<string>, i: nat, toInt: string -> Option<int>,
                                                toFloat: string -> Option<real>)
    requires i <= |ls| && Records(ls[..i], toInt, toFloat).Err?
    ensures Records(ls, toInt, toFloat) == Records(ls[..i], toInt, toFloat)
    decreases |ls| - i
  {
    if i == |ls| {
      assert ls[..i] == ls;
    } else {
      assert ls[..i + 1][..i] == ls[..i];
      RecordsErrorPersists(ls, i + 1, toInt, toFloat);
    }
  }

  /**
   * Record building succeeds exactly when every row with three or more fields
   * converts.
   */
  lemma {:induction false} RecordsOkIff(ls: seq<string>, toInt: string -> Option<int>,
                                        toFloat: string -> Option<real>)
    ensures Records(ls, toInt, toFloat).Ok? <==>
            forall j :: 0 <= j < |ls| && HasRecordFields(ls[j]) ==> RecordOf(Split(ls[j], ','), toInt, toFloat).Ok?
    decreases |ls|
  {
    if ls != [] {
      var n := |ls| - 1;
      RecordsOkIff(ls[..n], toInt, toFloat);
      assert forall j :: 0 <= j < n ==> ls[..n][j] == ls[j];
    }
  }

  /**
   * When record building succeeds, the records are the conversions of the
   * rows with three or more fields, one each, in the same order.
   */
  lemma {:induction false} RecordsInOrder(ls: seq<string>, toInt: string -> Option<int>,
                                          toFloat: string -> Option<real>)
    requires Records(ls, toInt, toFloat).Ok?
    ensures var rs := Records(ls, toInt, toFloat).value;
            |rs| == |RecordLines(ls)|
            && forall k :: 0 <= k < |rs| ==> Ok(rs[k]) == RecordOf(Split(RecordLines(ls)[k], ','), toInt, toFloat)
    decreases |ls|
  {
    if ls != [] {
      var n := |ls| - 1;
      RecordsInOrder(ls[..n], toInt, toFloat);
    }
  }

  /** On failure, the error is that of the first row with three or more fields that does not convert. */
  lemma {:induction false} RecordsFirstError(ls: seq<string>, toInt: string -> Option<int>,
                                             toFloat: string -> Option<real>)
    requires Records(ls, toInt, toFloat).Err?
    ensures exists j :: 0 <= j < |ls| && HasRecordFields(ls[j]) && Records(ls[..j], toInt, toFloat).Ok?
                        && RecordOf(Split(ls[j], ','), toInt, toFloat) == Err(Records(ls, toInt, toFloat).error)
    decreases |ls|
  {
    var n := |ls| - 1;
    var init := ls[..n];
    if Records(init, toInt, toFloat).Err? {
      RecordsFirstError(init, toInt, toFloat);
      var j :| 0 <= j < n && HasRecordFields(init[j]) && Records(init[..j], toInt, toFloat).Ok?
               && RecordOf(Split(init[j], ','), toInt, toFloat) == Err(Records(init, toInt, toFloat).error);
      assert init[..j] == ls[..j] && init[j] == ls[j];
    } else {
      assert ls[..n] == init;
    }
  }
}
