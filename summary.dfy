/** `compute_summary`: one pass over the first 2000 records that counts, per column, the
  * missing, present and parsed cells, then splits the columns into numeric and categorical
  * ones and summarises the numeric ones. */
module DatasetSummary {
  import opened Wrappers
  import opened ValueParser
  import opened Records
  import opened State
  import opened DatasetService
  import Stats
  import Counters

  /** `SUMMARY_SAMPLE_MAX_ROWS`. */
  const SummaryMaxRows: nat := 2000

  /** `NUMERIC_THRESHOLD`. */
  const NumericThreshold: real := 0.70

  const SummaryParsingNote := "Numbers are parsed by treating NA/N/A/null/empty/'-' as missing; removing commas/spaces and symbols like $ and %."

  /** `os.path.basename(path)`: the text after the last `/`. */
  function Basename(path: string): (b: string)
    ensures |b| <= |path| && b == path[|path| - |b|..]
    ensures '/' !in b
    ensures |b| < |path| ==> path[|path| - |b| - 1] == '/'
  {
    if path == [] || path[|path| - 1] == '/' then []
    else Basename(path[..|path| - 1]) + [path[|path| - 1]]
  }

  /** The inner loop over the header positions `hs` for one record: `counter[c] += 1` for
    * each position whose cell is of the kind `t` counts. */
  function CountRow(acc: Counters.Counter, header: seq<string>, row: seq<string>, hs: seq<string>, t: Tallied): Counters.Counter {
    if hs == [] then acc
    else
      var c := hs[|hs| - 1];
      var before := CountRow(acc, header, row, hs[..|hs| - 1], t);
      if Hit(t, Kind(header, row, c)) then Counters.Inc(before, c) else before
  }

  /** The counter the row loop builds for the kind `t` over the records `rows`. */
  function CountRows(header: seq<string>, rows: seq<seq<string>>, t: Tallied): Counters.Counter {
    if rows == [] then []
    else CountRow(CountRows(header, rows[..|rows| - 1], t), header, rows[|rows| - 1], header, t)
  }

  /** `{c: [] for c in cols}`. */
  function InitialValues(header: seq<string>): (m: map<string, seq<real>>)
    ensures forall c :: c in m <==> c in header
  {
    map c | c in header :: []
  }

  /** The inner loop over the header positions `hs` for one record: each parsed value is
    * appended to `numeric_vals[c]`. */
  function ValuesRow(acc: map<string, seq<real>>, header: seq<string>, row: seq<string>, hs: seq<string>): (m: map<string, seq<real>>)
    requires forall c :: c in hs ==> c in acc
    ensures m.Keys == acc.Keys
  {
    if hs == [] then acc
    else
      var c := hs[|hs| - 1];
      var before := ValuesRow(acc, header, row, hs[..|hs| - 1]);
      var k := Kind(header, row, c);
      if k.Number? then before[c := before[c] + [k.value]] else before
  }

  /** `numeric_vals` after the records `rows`. */
  function ValuesRows(header: seq<string>, rows: seq<seq<string>>): (m: map<string, seq<real>>)
    ensures forall c :: c in m <==> c in header
  {
    if rows == [] then InitialValues(header)
    else ValuesRow(ValuesRows(header, rows[..|rows| - 1]), header, rows[|rows| - 1], header)
  }

  /** The test that makes a column numeric: some present cells, at least 70% of them parsed,
    * and at least five parsed. */
  predicate IsNumericColumn(nm: nat, ok: nat) {
    nm != 0 && ok as real / nm as real >= NumericThreshold && ok >= 5
  }

  /** `numeric_cols`: the header positions that pass the test, in header order. */
  function NumericColumns(cols: seq<string>, present: Counters.Counter, ok: Counters.Counter): seq<string> {
    if cols == [] then []
    else
      var c := cols[|cols| - 1];
      NumericColumns(cols[..|cols| - 1], present, ok)
        + (if IsNumericColumn(Counters.Get(present, c), Counters.Get(ok, c)) then [c] else [])
  }

  /** `categorical_cols`: the header positions that fail the test, in header order. */
  function CategoricalColumns(cols: seq<string>, present: Counters.Counter, ok: Counters.Counter): seq<string> {
    if cols == [] then []
    else
      var c := cols[|cols| - 1];
      CategoricalColumns(cols[..|cols| - 1], present, ok)
        + (if IsNumericColumn(Counters.Get(present, c), Counters.Get(ok, c)) then [] else [c])
  }

  /** One entry of `num_stats`: `_stats(vals) | {"parse_ratio": ratio}`. */
  datatype NumericSummary = NumericSummary(stats: Stats.StatsRecord, parseRatio: real)

  /** `num_stats`: for each numeric column with values, its statistics and parse ratio. */
  function NumericStats(cols: seq<string>, present: Counters.Counter, ok: Counters.Counter, vals: map<string, seq<real>>): map<string, NumericSummary>
    requires forall c :: c in cols ==> c in vals
  {
    if cols == [] then map[]
    else
      var c := cols[|cols| - 1];
      var before := NumericStats(cols[..|cols| - 1], present, ok, vals);
      var nm, k := Counters.Get(present, c), Counters.Get(ok, c);
      if IsNumericColumn(nm, k) && vals[c] != [] then
        before[c := NumericSummary(Stats.Stats(vals[c]), k as real / nm as real)]
      else before
  }

  /** The answer of `compute_summary`. */
  datatype Summary = Summary(
    datasetName: string,
    mode: Mode,
    modeText: string,
    rowCount: nat,
    columns: seq<string>,
    missing: Counters.Counter,
    numericColumns: seq<string>,
    categoricalColumns: seq<string>,
    numericStats: map<string, NumericSummary>,
    defaultTrimCap: Option<nat>,
    numericThreshold: real,
    parsingNote: string)

  /** The summary of the table `t` read from `path` in mode `mode`. */
  function SummaryOf(path: string, mode: Mode, modeText: string, t: Table): Summary {
    var w := Scanned(t.Records(), Some(SummaryMaxRows));
    var present := CountRows(t.header, w, PresentCells);
    var ok := CountRows(t.header, w, ParsedCells);
    Summary(
      Basename(path), mode, modeText, |w|, t.header,
      CountRows(t.header, w, MissingCells),
      NumericColumns(t.header, present, ok),
      CategoricalColumns(t.header, present, ok),
      NumericStats(t.header, present, ok, ValuesRows(t.header, w)),
      if mode == Default then Some(DefaultCap) else None,
      NumericThreshold,
      SummaryParsingNote)
  }

  /** `compute_summary()`. */
  method ComputeSummary(state: DatasetState, fs: FileSystem) returns (r: Result<Summary>)
    ensures state.CurrentPath() !in fs ==> r == Failure(FileNotFound(state.CurrentPath()))
    ensures state.CurrentPath() in fs ==>
      r == Success(SummaryOf(state.CurrentPath(), state.mode, state.ModeText(), fs[state.CurrentPath()]))
    ensures r.Success? ==>
      && r.value.rowCount <= SummaryMaxRows
      && r.value.defaultTrimCap == state.HardCap()
      && r.value.modeText == (if state.mode == Default then DefaultModeText else UploadModeText)
  {
    var path := state.CurrentPath();
    if path !in fs {
      return Failure(FileNotFound(path));
    }
    var t := fs[path];
    var cols := t.header;
    var rowCount, missing, present, ok, vals := ScanSummary(state.mode, cols, t.Records());
    var numericCols, categoricalCols, numStats := ClassifyColumns(cols, present, ok, vals);
    var trimCap := if state.mode == Default then Some(DefaultCap) else None;
    return Success(Summary(Basename(path), state.mode, state.ModeText(), rowCount, cols, missing,
                           numericCols, categoricalCols, numStats, trimCap, NumericThreshold, SummaryParsingNote));
  }

  /** The row loop of `compute_summary`: stops at 2000 records in either mode. */
  method ScanSummary(mode: Mode, header: seq<string>, records: seq<seq<string>>)
    returns (rowCount: nat, missing: Counters.Counter, present: Counters.Counter, ok: Counters.Counter, vals: map<string, seq<real>>)
    ensures var w := Scanned(records, Some(SummaryMaxRows));
      && rowCount == |w|
      && missing == CountRows(header, w, MissingCells)
      && present == CountRows(header, w, PresentCells)
      && ok == CountRows(header, w, ParsedCells)
      && vals == ValuesRows(header, w)
  {
    rowCount, missing, present, ok, vals := 0, [], [], [], InitialValues(header);
    while rowCount < |records|
      invariant rowCount <= |records| && rowCount <= SummaryMaxRows
      invariant missing == CountRows(header, records[..rowCount], MissingCells)
      invariant present == CountRows(header, records[..rowCount], PresentCells)
      invariant ok == CountRows(header, records[..rowCount], ParsedCells)
      invariant vals == ValuesRows(header, records[..rowCount])
    {
      if mode == Default && rowCount >= DefaultCap {
        break;
      }
      if rowCount >= SummaryMaxRows && mode == Upload {
        break;
      }
      RowsStep(header, records, rowCount);
      missing, present, ok, vals := ScanSummaryRow(header, records[rowCount], missing, present, ok, vals);
      rowCount := rowCount + 1;
    }
    assert records[..rowCount] == Scanned(records, Some(SummaryMaxRows));
  }

  /** The inner loop of `compute_summary` over the header positions of one record. */
  method ScanSummaryRow(header: seq<string>, row: seq<string>, missing0: Counters.Counter, present0: Counters.Counter,
                        ok0: Counters.Counter, vals0: map<string, seq<real>>)
    returns (missing: Counters.Counter, present: Counters.Counter, ok: Counters.Counter, vals: map<string, seq<real>>)
    requires forall c :: c in header ==> c in vals0
    ensures missing == CountRow(missing0, header, row, header, MissingCells)
    ensures present == CountRow(present0, header, row, header, PresentCells)
    ensures ok == CountRow(ok0, header, row, header, ParsedCells)
    ensures vals == ValuesRow(vals0, header, row, header)
  {
    missing, present, ok, vals := missing0, present0, ok0, vals0;
    var j := 0;
    while j < |header|
      invariant j <= |header|
      invariant missing == CountRow(missing0, header, row, header[..j], MissingCells)
      invariant present == CountRow(present0, header, row, header[..j], PresentCells)
      invariant ok == CountRow(ok0, header, row, header[..j], ParsedCells)
      invariant vals == ValuesRow(vals0, header, row, header[..j])
    {
      RowStep(header, row, j);
      missing, present, ok, vals := ScanSummaryCell(header, row, header[j], missing, present, ok, vals);
      j := j + 1;
    }
    assert header[..j] == header;
  }

  /** The body of the inner loop: the cell of column `c` is missing, or present and maybe
    * parsed. */
  method ScanSummaryCell(header: seq<string>, row: seq<string>, c: string, missing0: Counters.Counter, present0: Counters.Counter,
                         ok0: Counters.Counter, vals0: map<string, seq<real>>)
    returns (missing: Counters.Counter, present: Counters.Counter, ok: Counters.Counter, vals: map<string, seq<real>>)
    requires c in vals0
    ensures var k := Kind(header, row, c);
      && missing == (if Hit(MissingCells, k) then Counters.Inc(missing0, c) else missing0)
      && present == (if Hit(PresentCells, k) then Counters.Inc(present0, c) else present0)
      && ok == (if Hit(ParsedCells, k) then Counters.Inc(ok0, c) else ok0)
      && vals == (if k.Number? then vals0[c := vals0[c] + [k.value]] else vals0)
  {
    missing, present, ok, vals := missing0, present0, ok0, vals0;
    var v := Cell(header, row, c);
    if IsMissing(v) {
      missing := Counters.Inc(missing, c);
      return;
    }
    present := Counters.Inc(present, c);
    var fv := TryFloat(v);
    if fv.Some? {
      ok := Counters.Inc(ok, c);
      vals := vals[c := vals[c] + [fv.value]];
    }
  }

  /** One more header position is one more step of each fold. */
  lemma RowStep(header: seq<string>, row: seq<string>, j: nat)
    requires j < |header|
    ensures forall acc, t ::
      CountRow(acc, header, row, header[..j + 1], t) ==
      (var before := CountRow(acc, header, row, header[..j], t);
       if Hit(t, Kind(header, row, header[j])) then Counters.Inc(before, header[j]) else before)
    ensures forall acc | forall c :: c in header ==> c in acc ::
      ValuesRow(acc, header, row, header[..j + 1]) ==
        (var before := ValuesRow(acc, header, row, header[..j]);
         var k := Kind(header, row, header[j]);
         if k.Number? then before[header[j] := before[header[j]] + [k.value]] else before)
  {
    assert header[..j + 1][..j] == header[..j];
  }

  /** One more record is one more pass of the inner loop. */
  lemma RowsStep(header: seq<string>, records: seq<seq<string>>, i: nat)
    requires i < |records|
    ensures forall t :: CountRows(header, records[..i + 1], t) == CountRow(CountRows(header, records[..i], t), header, records[i], header, t)
    ensures ValuesRows(header, records[..i + 1]) == ValuesRow(ValuesRows(header, records[..i]), header, records[i], header)
  {
    assert records[..i + 1][..i] == records[..i];
  }

  /** The column loop of `compute_summary`. */
  method ClassifyColumns(cols: seq<string>, present: Counters.Counter, ok: Counters.Counter, vals: map<string, seq<real>>)
    returns (numericCols: seq<string>, categoricalCols: seq<string>, numStats: map<string, NumericSummary>)
    requires forall c :: c in cols ==> c in vals
    ensures numericCols == NumericColumns(cols, present, ok)
    ensures categoricalCols == CategoricalColumns(cols, present, ok)
    ensures numStats == NumericStats(cols, present, ok, vals)
  {
    numericCols, categoricalCols, numStats := [], [], map[];
    var j := 0;
    while j < |cols|
      invariant j <= |cols|
      invariant numericCols == NumericColumns(cols[..j], present, ok)
      invariant categoricalCols == CategoricalColumns(cols[..j], present, ok)
      invariant numStats == NumericStats(cols[..j], present, ok, vals)
    {
      ClassifyStep(cols, j, present, ok, vals);
      numericCols, categoricalCols, numStats := ClassifyColumn(cols[j], present, ok, vals, numericCols, categoricalCols, numStats);
      j := j + 1;
    }
    assert cols[..j] == cols;
  }

  /** The body of the column loop: column `c` joins the numeric or the categorical ones, and a
    * numeric column with values gets its statistics. */
  method ClassifyColumn(c: string, present: Counters.Counter, ok: Counters.Counter, vals: map<string, seq<real>>,
                        numericCols0: seq<string>, categoricalCols0: seq<string>, numStats0: map<string, NumericSummary>)
    returns (numericCols: seq<string>, categoricalCols: seq<string>, numStats: map<string, NumericSummary>)
    requires c in vals
    ensures var numeric := IsNumericColumn(Counters.Get(present, c), Counters.Get(ok, c));
      && numericCols == numericCols0 + (if numeric then [c] else [])
      && categoricalCols == categoricalCols0 + (if numeric then [] else [c])
      && numStats ==
           if numeric && vals[c] != [] then
             numStats0[c := NumericSummary(Stats.Stats(vals[c]), Counters.Get(ok, c) as real / Counters.Get(present, c) as real)]
           else numStats0
  {
    numericCols, categoricalCols, numStats := numericCols0, categoricalCols0, numStats0;
    var nm := Counters.Get(present, c);
    var k := Counters.Get(ok, c);
    if nm == 0 {
      categoricalCols := categoricalCols + [c];
      return;
    }
    var ratio := k as real / nm as real;
    if ratio >= NumericThreshold && k >= 5 {
      numericCols := numericCols + [c];
      var vs := vals[c];
      if vs != [] {
        numStats := numStats[c := NumericSummary(Stats.Stats(vs), ratio)];
      }
    } else {
      categoricalCols := categoricalCols + [c];
    }
  }

  /** One more column is one more step of each classification fold. */
  lemma ClassifyStep(cols: seq<string>, j: nat, present: Counters.Counter, ok: Counters.Counter, vals: map<string, seq<real>>)
    requires j < |cols| && forall c :: c in cols ==> c in vals
    ensures var c := cols[j];
      var numeric := IsNumericColumn(Counters.Get(present, c), Counters.Get(ok, c));
      && NumericColumns(cols[..j + 1], present, ok) == NumericColumns(cols[..j], present, ok) + (if numeric then [c] else [])
      && CategoricalColumns(cols[..j + 1], present, ok) == CategoricalColumns(cols[..j], present, ok) + (if numeric then [] else [c])
      && NumericStats(cols[..j + 1], present, ok, vals) ==
           var before := NumericStats(cols[..j], present, ok, vals);
           if numeric && vals[c] != [] then
             before[c := NumericSummary(Stats.Stats(vals[c]), Counters.Get(ok, c) as real / Counters.Get(present, c) as real)]
           else before
  {
    assert cols[..j + 1][..j] == cols[..j];
  }

  /** After one record, `counter[c]` has grown by the multiplicity of `c` among the visited
    * header positions when the cell of `c` is of the counted kind, and not at all otherwise. */
  lemma {:induction false} GetCountRow(acc: Counters.Counter, header: seq<string>, row: seq<string>, hs: seq<string>, t: Tallied, c: string)
    ensures Counters.Get(CountRow(acc, header, row, hs, t), c) ==
      Counters.Get(acc, c) + (if Hit(t, Kind(header, row, c)) then Counters.Occurrences(hs, c) else 0)
  {
    if hs != [] {
      var init := hs[..|hs| - 1];
      GetCountRow(acc, header, row, init, t, c);
      if Hit(t, Kind(header, row, hs[|hs| - 1])) {
        Counters.GetInc(CountRow(acc, header, row, init, t), hs[|hs| - 1], c);
      }
    }
  }

  /** Each counter holds, under `c`, the multiplicity of `c` in the header times the number of
    * records whose cell of `c` it counts. */
  lemma {:induction false} GetCountRows(header: seq<string>, rows: seq<seq<string>>, t: Tallied, c: string)
    ensures Counters.Get(CountRows(header, rows, t), c) == Counters.Occurrences(header, c) * HitCount(header, rows, c, t)
  {
    if rows != [] {
      var init, row := rows[..|rows| - 1], rows[|rows| - 1];
      GetCountRows(header, init, t, c);
      GetCountRow(CountRows(header, init, t), header, row, header, t, c);
      ScaleStep(Counters.Occurrences(header, c), HitCount(header, init, c, t), Counters.Get(CountRows(header, init, t), c),
                HitCount(header, rows, c, t), Counters.Get(CountRows(header, rows, t), c), Hit(t, Kind(header, row, c)));
    }
  }

  /** A counter as `Counter` keeps it: each key once, each count positive. */
  ghost predicate WellFormed(cnt: Counters.Counter) {
    Counters.DistinctKeys(cnt) && forall i :: 0 <= i < |cnt| ==> cnt[i].count >= 1
  }

  lemma {:induction false} CountRowWellFormed(acc: Counters.Counter, header: seq<string>, row: seq<string>, hs: seq<string>, t: Tallied)
    requires WellFormed(acc)
    ensures WellFormed(CountRow(acc, header, row, hs, t))
  {
    if hs != [] {
      var init := hs[..|hs| - 1];
      CountRowWellFormed(acc, header, row, init, t);
      var before := CountRow(acc, header, row, init, t);
      Counters.IncDistinct(before, hs[|hs| - 1]);
      Counters.IncKeepsPositive(before, hs[|hs| - 1]);
    }
  }

  lemma {:induction false} CountRowsWellFormed(header: seq<string>, rows: seq<seq<string>>, t: Tallied)
    ensures WellFormed(CountRows(header, rows, t))
  {
    if rows != [] {
      CountRowsWellFormed(header, rows[..|rows| - 1], t);
      CountRowWellFormed(CountRows(header, rows[..|rows| - 1], t), header, rows[|rows| - 1], header, t);
    }
  }

  lemma RepeatSnoc(v: real, n: nat)
    ensures Repeat(v, n) + [v] == Repeat(v, n + 1)
  {
    assert forall i :: 0 <= i < n + 1 ==> (Repeat(v, n) + [v])[i] == v;
  }

  /** After one record, `numeric_vals[c]` has grown by the parsed value of `c`, once per visited
    * header position named `c`. */
  lemma {:induction false} ValuesRowAt(acc: map<string, seq<real>>, header: seq<string>, row: seq<string>, hs: seq<string>, c: string)
    requires forall x :: x in hs ==> x in acc
    requires c in acc
    ensures ValuesRow(acc, header, row, hs)[c] ==
      acc[c] + (var k := Kind(header, row, c); if k.Number? then Repeat(k.value, Counters.Occurrences(hs, c)) else [])
  {
    if hs != [] {
      var init := hs[..|hs| - 1];
      assert forall x :: x in init ==> x in hs;
      ValuesRowAt(acc, header, row, init, c);
      var x := hs[|hs| - 1];
      var before := ValuesRow(acc, header, row, init);
      var kx := Kind(header, row, x);
      if !kx.Number? {
        assert ValuesRow(acc, header, row, hs) == before;
      } else if x != c {
        assert ValuesRow(acc, header, row, hs)[c] == before[c];
      } else {
        assert ValuesRow(acc, header, row, hs)[c] == before[c] + [kx.value];
        RepeatSnoc(kx.value, Counters.Occurrences(init, c));
      }
    }
  }

  /** The map the row loop builds holds `NumericValues` under every column. */
  lemma {:induction false} ValuesRowsAt(header: seq<string>, rows: seq<seq<string>>, c: string)
    requires c in header
    ensures ValuesRows(header, rows)[c] == NumericValues(header, rows, c)
  {
    if rows != [] {
      var init := rows[..|rows| - 1];
      ValuesRowsAt(header, init, c);
      ValuesRowAt(ValuesRows(header, init), header, rows[|rows| - 1], header, c);
    }
  }

  /** The numeric test in integers: no division needed. */
  lemma NumericIff(nm: nat, ok: nat)
    ensures IsNumericColumn(nm, ok) <==> nm > 0 && 10 * ok >= 7 * nm && ok >= 5
  {
    if nm > 0 {
      var r := ok as real / nm as real;
      assert r * nm as real == ok as real;
      assert r >= 0.70 <==> ok as real >= 0.70 * nm as real;
    }
  }

  /** Every header position lands in exactly one of the two lists. */
  lemma {:induction false} ColumnsPartition(cols: seq<string>, present: Counters.Counter, ok: Counters.Counter)
    ensures multiset(NumericColumns(cols, present, ok)) + multiset(CategoricalColumns(cols, present, ok)) == multiset(cols)
  {
    if cols != [] {
      var init, c := cols[..|cols| - 1], cols[|cols| - 1];
      ColumnsPartition(init, present, ok);
      assert cols == init + [c];
    }
  }

  /** `numeric_cols` is built column by column in header order: splitting the header splits
    * the list the same way. */
  lemma {:induction false} NumericColumnsConcat(a: seq<string>, b: seq<string>, present: Counters.Counter, ok: Counters.Counter)
    ensures NumericColumns(a + b, present, ok) == NumericColumns(a, present, ok) + NumericColumns(b, present, ok)
  {
    if b == [] {
      assert a + b == a;
    } else {
      var binit, c := b[..|b| - 1], b[|b| - 1];
      NumericColumnsConcat(a, binit, present, ok);
      assert (a + b)[..|a + b| - 1] == a + binit && (a + b)[|a + b| - 1] == c;
    }
  }

  /** `categorical_cols` is built column by column in header order, too. */
  lemma {:induction false} CategoricalColumnsConcat(a: seq<string>, b: seq<string>, present: Counters.Counter, ok: Counters.Counter)
    ensures CategoricalColumns(a + b, present, ok) == CategoricalColumns(a, present, ok) + CategoricalColumns(b, present, ok)
  {
    if b == [] {
      assert a + b == a;
    } else {
      var binit, c := b[..|b| - 1], b[|b| - 1];
      CategoricalColumnsConcat(a, binit, present, ok);
      assert (a + b)[..|a + b| - 1] == a + binit && (a + b)[|a + b| - 1] == c;
    }
  }

  /** A column is numeric exactly when its counts pass the test, and categorical otherwise. */
  lemma {:induction false} ColumnsMembership(cols: seq<string>, present: Counters.Counter, ok: Counters.Counter)
    ensures forall c :: c in NumericColumns(cols, present, ok) <==>
      c in cols && IsNumericColumn(Counters.Get(present, c), Counters.Get(ok, c))
    ensures forall c :: c in CategoricalColumns(cols, present, ok) <==>
      c in cols && !IsNumericColumn(Counters.Get(present, c), Counters.Get(ok, c))
  {
    if cols != [] {
      var init, c := cols[..|cols| - 1], cols[|cols| - 1];
      ColumnsMembership(init, present, ok);
      assert forall x :: x in cols <==> x in init || x == c by {
        assert cols == init + [c];
      }
    }
  }

  /** `num_stats` has an entry for exactly the numeric columns: each has at least five parsed
    * values, so its value list is never empty. */
  lemma {:induction false} NumericStatsKeys(cols: seq<string>, present: Counters.Counter, ok: Counters.Counter, vals: map<string, seq<real>>)
    requires forall c :: c in cols ==> c in vals && |vals[c]| == Counters.Get(ok, c)
    ensures forall c :: c in NumericStats(cols, present, ok, vals) <==>
      c in cols && IsNumericColumn(Counters.Get(present, c), Counters.Get(ok, c))
  {
    if cols != [] {
      var init, c := cols[..|cols| - 1], cols[|cols| - 1];
      assert forall x :: x in cols <==> x in init || x == c by {
        assert cols == init + [c];
      }
      NumericStatsKeys(init, present, ok, vals);
      if IsNumericColumn(Counters.Get(present, c), Counters.Get(ok, c)) {
        assert vals[c] != [];
      }
    }
  }

  /** The entry of a numeric column holds `_stats` of its values and its parse ratio. */
  lemma {:induction false} NumericStatsValues(cols: seq<string>, present: Counters.Counter, ok: Counters.Counter, vals: map<string, seq<real>>, c: string)
    requires forall x :: x in cols ==> x in vals
    requires c in NumericStats(cols, present, ok, vals)
    ensures c in cols && Counters.Get(present, c) != 0
    ensures NumericStats(cols, present, ok, vals)[c] ==
      NumericSummary(Stats.Stats(vals[c]), Counters.Get(ok, c) as real / Counters.Get(present, c) as real)
  {
    var init, last := cols[..|cols| - 1], cols[|cols| - 1];
    assert cols == init + [last];
    if last != c || !(IsNumericColumn(Counters.Get(present, c), Counters.Get(ok, c)) && vals[c] != []) {
      NumericStatsValues(init, present, ok, vals, c);
    }
  }

  lemma RatioScale(m: nat, p: nat, n: nat)
    requires m > 0 && n > 0
    ensures (m * p) as real / (m * n) as real == p as real / n as real
  {
    var q := p as real / n as real;
    assert q * n as real == p as real;
    assert (m * p) as real == m as real * p as real;
    assert (m * n) as real == m as real * n as real;
    assert q * (m * n) as real == (m * p) as real;
  }

  lemma ProductPositive(m: nat, a: nat)
    ensures m * a > 0 <==> m > 0 && a > 0
  {
    if m > 0 && a > 0 {
      assert m * a >= a;
    }
  }

  /** Per column `c`, named `m` times in the header, the `missing` counter holds `m` times the
    * records where `c` is missing, and missing plus present cells are `m` times the number of
    * records read. The `missing` dict holds, once each, exactly the header columns with a
    * missing cell. */
  lemma MissingCounts(header: seq<string>, w: seq<seq<string>>, c: string)
    ensures var missing := CountRows(header, w, MissingCells);
      var m := Counters.Occurrences(header, c);
      && Counters.Get(missing, c) == m * MissingCount(header, w, c)
      && Counters.Get(missing, c) + Counters.Get(CountRows(header, w, PresentCells), c) == m * |w|
      && (c in Counters.Keys(missing) <==> c in header && MissingCount(header, w, c) > 0)
      && Counters.DistinctKeys(missing)
  {
    var m := Counters.Occurrences(header, c);
    var missing := CountRows(header, w, MissingCells);
    GetCountRows(header, w, MissingCells, c);
    GetCountRows(header, w, PresentCells, c);
    HitCounts(header, w, c);
    PresentCount(header, w, c);
    ScaledSum(m, MissingCount(header, w, c), |PresentValues(header, w, c)|, |w|);
    CountRowsWellFormed(header, w, MissingCells);
    Counters.KeysIffPositive(missing);
    Counters.OccurrencesPositive(header, c);
    ProductPositive(m, MissingCount(header, w, c));
  }

  lemma ScaledSum(m: nat, a: nat, b: nat, n: nat)
    requires a + b == n
    ensures m * a + m * b == m * n
  {
  }

  /** Per column, the present and parsed counters are the column's multiplicity times the
    * number of present and of parsed cells. */
  lemma ColumnCounts(header: seq<string>, w: seq<seq<string>>, c: string)
    ensures var m := Counters.Occurrences(header, c);
      && Counters.Get(CountRows(header, w, PresentCells), c) == m * |PresentValues(header, w, c)|
      && Counters.Get(CountRows(header, w, ParsedCells), c) == m * |ParsedValues(header, w, c)|
  {
    GetCountRows(header, w, PresentCells, c);
    GetCountRows(header, w, ParsedCells, c);
    HitCounts(header, w, c);
  }

  /** `numeric_stats` has an entry for exactly the numeric columns; it holds `_stats` of the
    * column's `numeric_vals` and the share of parsed cells among the present ones, which does
    * not depend on how often the header names the column. */
  lemma NumericStatsOfColumn(header: seq<string>, w: seq<seq<string>>, c: string)
    ensures var present, ok := CountRows(header, w, PresentCells), CountRows(header, w, ParsedCells);
      var stats := NumericStats(header, present, ok, ValuesRows(header, w));
      && (c in stats <==> c in NumericColumns(header, present, ok))
      && (c in stats ==>
            && |PresentValues(header, w, c)| > 0
            && stats[c] == NumericSummary(Stats.Stats(NumericValues(header, w, c)),
                                          |ParsedValues(header, w, c)| as real / |PresentValues(header, w, c)| as real))
  {
    var present, ok := CountRows(header, w, PresentCells), CountRows(header, w, ParsedCells);
    var vals := ValuesRows(header, w);
    forall x | x in header
      ensures x in vals && |vals[x]| == Counters.Get(ok, x)
    {
      ValuesRowsAt(header, w, x);
      NumericValuesLength(header, w, x);
      ColumnCounts(header, w, x);
    }
    NumericStatsKeys(header, present, ok, vals);
    ColumnsMembership(header, present, ok);
    var stats := NumericStats(header, present, ok, vals);
    if c in stats {
      NumericStatsValues(header, present, ok, vals, c);
      ValuesRowsAt(header, w, c);
      ColumnCounts(header, w, c);
      var m := Counters.Occurrences(header, c);
      Counters.OccurrencesPositive(header, c);
      ProductPositive(m, |PresentValues(header, w, c)|);
      RatioScale(m, |ParsedValues(header, w, c)|, |PresentValues(header, w, c)|);
    }
  }
}
