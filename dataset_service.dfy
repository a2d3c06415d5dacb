/** The capped dataset scans: `read_preview`, `get_column_values`, `get_top_values`
  * and `get_column_stats`. Each opens the current file and walks its
  * records in order; the file system is a map from path to table. */
module DatasetService {
  import opened Wrappers
  import opened Text
  import opened ValueParser
  import opened Records
  import opened State
  import Stats
  import Counters

  /** The files the scans can open. */
  type FileSystem = map<string, Table>

  /** One preview row: for each header column, `r.get(k, "")`, with `None` shown as `""`. */
  function ProjectRow(header: seq<string>, record: seq<string>): (row: seq<string>)
    ensures |row| == |header|
    ensures forall k :: 0 <= k < |header| ==> row[k] == Cell(header, record, header[k]).GetOr("")
  {
    seq(|header|, k requires 0 <= k < |header| => Cell(header, record, header[k]).GetOr(""))
  }

  function ProjectRows(header: seq<string>, records: seq<seq<string>>): (rows: seq<seq<string>>)
    ensures |rows| == |records|
    ensures forall k :: 0 <= k < |records| ==> rows[k] == ProjectRow(header, records[k])
  {
    seq(|records|, k requires 0 <= k < |records| => ProjectRow(header, records[k]))
  }

  /** The records at positions `[offset, offset + limit)` of the window `w`; a negative offset
    * starts at 0 and a limit of 0 or less selects nothing. */
  function Page(w: seq<seq<string>>, offset: int, limit: int): (p: seq<seq<string>>)
    ensures |p| <= (if limit > 0 then limit else 0)
    ensures var lo := if offset < 0 then 0 else offset;
      && (forall k :: 0 <= k < |p| ==> lo + k < |w| && p[k] == w[lo + k])
      && (limit > 0 && lo + |p| < |w| ==> |p| == limit)
  {
    var lo := if offset < 0 then 0 else offset;
    if lo >= |w| || limit <= 0 then []
    else w[lo..if lo + limit < |w| then lo + limit else |w|]
  }

  /** Reading one more record adds it to the page exactly when the loop of `read_preview`
    * appends it. */
  lemma PageStep(w: seq<seq<string>>, x: seq<string>, offset: int, limit: int)
    ensures Page(w + [x], offset, limit) ==
      Page(w, offset, limit) + (if |w| >= offset && |Page(w, offset, limit)| < limit then [x] else [])
  {
    var lo := if offset < 0 then 0 else offset;
    var w' := w + [x];
    if lo < |w| && limit > 0 {
      if lo + limit <= |w| {
        assert w'[lo..lo + limit] == w[lo..lo + limit];
      } else {
        assert w'[lo..|w'|] == w[lo..|w|] + [x];
      }
    } else if lo == |w| && limit > 0 {
      assert w'[lo..lo + 1] == [x];
    }
  }

  /** The `{"columns", "rows", "offset", "limit"}` answer of `read_preview`. */
  datatype Preview = Preview(columns: seq<string>, rows: seq<seq<string>>, offset: int, limit: int)

  /** `read_preview(offset, limit)`: the header and the projected records at positions
    * `[offset, offset + limit)` of the window (the first 2000 records in default mode, all of
    * them in upload mode). */
  method ReadPreview(state: DatasetState, fs: FileSystem, offset: int, limit: int) returns (r: Result<Preview>)
    ensures state.CurrentPath() !in fs ==> r == Failure(FileNotFound(state.CurrentPath()))
    ensures state.CurrentPath() in fs ==>
      var t := fs[state.CurrentPath()];
      var page := Page(Scanned(t.Records(), state.HardCap()), offset, limit);
      && r.Success?
      && r.value == Preview(t.header, ProjectRows(t.header, page), offset, limit)
      && |r.value.rows| <= (if limit > 0 then limit else 0)
  {
    var path := state.CurrentPath();
    if path !in fs {
      return Failure(FileNotFound(path));
    }
    var t := fs[path];
    var cap := state.HardCap();
    var recs := t.Records();
    var rows: seq<seq<string>> := [];
    var i := 0;
    while i < |recs|
      invariant 0 <= i <= |recs|
      invariant cap.Some? ==> i <= cap.value
      invariant rows == ProjectRows(t.header, Page(recs[..i], offset, limit))
    {
      if cap.Some? && i >= cap.value {
        break;
      }
      PageStep(recs[..i], recs[i], offset, limit);
      assert recs[..i + 1] == recs[..i] + [recs[i]];
      if i >= offset && |rows| < limit {
        rows := rows + [ProjectRow(t.header, recs[i])];
      }
      i := i + 1;
    }
    assert recs[..i] == Scanned(recs, cap);
    return Success(Preview(t.header, rows, offset, limit));
  }

  /** What `get_column_values` returns from the window `w`: with `limit >= 1` the first
    * `limit` non-missing values of the column; with `limit <= 0` the check after the first
    * record stops the scan, so only that record's value (if present) is returned. */
  function ColumnValues(header: seq<string>, w: seq<seq<string>>, name: string, limit: int): seq<string> {
    if limit >= 1 then
      var vs := PresentValues(header, w, name);
      vs[..if |vs| < limit then |vs| else limit]
    else
      PresentValues(header, w[..if |w| < 1 then |w| else 1], name)
  }

  /** `get_column_values(name, limit)`. */
  method GetColumnValues(state: DatasetState, fs: FileSystem, name: string, limit: int) returns (r: Result<seq<string>>)
    ensures state.CurrentPath() !in fs ==> r == Failure(FileNotFound(state.CurrentPath()))
    ensures state.CurrentPath() in fs ==>
      var t := fs[state.CurrentPath()];
      var w := Scanned(t.Records(), state.HardCap());
      && r == Success(ColumnValues(t.header, w, name, limit))
      && r.value <= PresentValues(t.header, w, name)
      && |r.value| <= (if limit >= 1 then limit else 1)
      && (limit >= 1 && |r.value| < limit ==> r.value == PresentValues(t.header, w, name))
      && (name !in t.header ==> r.value == [])
  {
    var path := state.CurrentPath();
    if path !in fs {
      return Failure(FileNotFound(path));
    }
    var t := fs[path];
    var cap := state.HardCap();
    var out := ScanColumn(t.header, t.Records(), cap, name, limit);
    ColumnValuesFacts(t.header, Scanned(t.Records(), cap), name, limit);
    return Success(out);
  }

  /** The reading loop of `get_column_values`: stops at the cap, or once `limit` values
    * have been collected (checked after each record). */
  method ScanColumn(header: seq<string>, records: seq<seq<string>>, cap: Option<nat>, name: string, limit: int)
    returns (out: seq<string>)
    ensures out == ColumnValues(header, Scanned(records, cap), name, limit)
  {
    out := [];
    var i := 0;
    var full := false;
    ghost var before := 0;
    while i < |records| && !full
      invariant 0 <= i <= |records|
      invariant cap.Some? ==> i <= cap.value
      invariant out == PresentValues(header, records[..i], name)
      invariant i >= 1 ==> before == |PresentValues(header, records[..i - 1], name)|
      invariant !full ==> i == 0 || |out| < limit
      invariant full ==> i >= 1 && |out| >= limit && (i == 1 || before < limit)
    {
      if cap.Some? && i >= cap.value {
        break;
      }
      PresentValuesStep(header, records, i, name);
      before := |out|;
      assert i == 0 || before < limit;
      if name in header {
        var v := Cell(header, records[i], name);
        if !IsMissing(v) {
          out := out + [v.value];
        }
      } else {
        EmptyIsMissing();
      }
      i := i + 1;
      if |out| >= limit {
        full := true;
        assert i == 1 || before < limit;
      }
    }
    ScanEnd(header, records, cap, name, limit, i, full);
  }

  /** Where the loop of `get_column_values` stops, the values collected so far are those
    * `ColumnValues` describes. */
  lemma ScanEnd(header: seq<string>, records: seq<seq<string>>, cap: Option<nat>, name: string, limit: int, i: nat, full: bool)
    requires i <= |records| && (cap.Some? ==> i <= cap.value)
    requires full ==>
      && i >= 1 && |PresentValues(header, records[..i], name)| >= limit
      && (i == 1 || |PresentValues(header, records[..i - 1], name)| < limit)
    requires !full ==>
      && (i == |records| || (cap.Some? && i >= cap.value))
      && (i == 0 || |PresentValues(header, records[..i], name)| < limit)
    ensures PresentValues(header, records[..i], name) == ColumnValues(header, Scanned(records, cap), name, limit)
  {
    var w := Scanned(records, cap);
    PrefixSlices(w, records, i);
    if i >= 1 {
      PrefixSlices(w, records, i - 1);
    }
    if full {
      ColumnValuesFull(header, w, name, limit, i);
    } else {
      assert w[..i] == w;
      ColumnValuesExhausted(header, w, name, limit);
    }
  }

  /** What the values returned by `get_column_values` are: a prefix of the column's present
    * values, at most `limit` of them (one when `limit <= 0`), all of them when fewer were
    * found, and none for a column outside the header. */
  lemma ColumnValuesFacts(header: seq<string>, w: seq<seq<string>>, name: string, limit: int)
    ensures var out := ColumnValues(header, w, name, limit);
      && out <= PresentValues(header, w, name)
      && |out| <= (if limit >= 1 then limit else 1)
      && (limit >= 1 && |out| < limit ==> out == PresentValues(header, w, name))
      && (name !in header ==> out == [])
  {
    if limit <= 0 {
      if |w| >= 1 {
        PresentValuesPrefix(header, w, 1, name);
        PresentValuesStep(header, w, 0, name);
        assert w[..0] == [];
      } else {
        assert w[..0] == w;
      }
    }
    if name !in header {
      ColumnValuesUnknown(header, w, name, limit);
    }
  }

  lemma PrefixSlices<T>(w: seq<T>, s: seq<T>, i: nat)
    requires w <= s && i <= |w|
    ensures w[..i] == s[..i]
  {
  }

  lemma PresentValuesStep(header: seq<string>, rows: seq<seq<string>>, i: nat, name: string)
    requires i < |rows|
    ensures var v := Cell(header, rows[i], name);
      PresentValues(header, rows[..i + 1], name) ==
        PresentValues(header, rows[..i], name) + (if IsMissing(v) then [] else [v.value])
  {
    assert rows[..i + 1][..i] == rows[..i];
  }

  /** The scan of `get_column_values` ran to the end of the window. */
  lemma ColumnValuesExhausted(header: seq<string>, w: seq<seq<string>>, name: string, limit: int)
    requires w == [] || |PresentValues(header, w, name)| < limit
    ensures var out := PresentValues(header, w, name);
      && out == ColumnValues(header, w, name, limit)
      && |out| <= (if limit >= 1 then limit else 1)
  {
    if limit <= 0 {
      assert w == [];
      assert w[..0] == w;
    } else {
      var vs := PresentValues(header, w, name);
      assert vs[..|vs|] == vs;
    }
  }

  /** The scan of `get_column_values` stopped after record `i` because the limit was reached. */
  lemma ColumnValuesFull(header: seq<string>, w: seq<seq<string>>, name: string, limit: int, i: nat)
    requires 1 <= i <= |w|
    requires |PresentValues(header, w[..i], name)| >= limit
    requires i == 1 || |PresentValues(header, w[..i - 1], name)| < limit
    ensures var out := PresentValues(header, w[..i], name);
      && out == ColumnValues(header, w, name, limit)
      && out <= PresentValues(header, w, name)
      && |out| <= (if limit >= 1 then limit else 1)
  {
    PresentValuesPrefix(header, w, i, name);
    if limit <= 0 {
      FirstRecordOnly(header, w, name, limit, i);
    } else {
      LimitReached(header, w, name, limit, i);
    }
  }

  lemma FirstRecordOnly(header: seq<string>, w: seq<seq<string>>, name: string, limit: int, i: nat)
    requires 1 <= i <= |w| && limit <= 0
    requires i == 1 || |PresentValues(header, w[..i - 1], name)| < limit
    ensures i == 1
    ensures PresentValues(header, w[..i], name) == ColumnValues(header, w, name, limit)
    ensures |PresentValues(header, w[..i], name)| <= 1
  {
    PresentValuesStep(header, w, 0, name);
    assert w[..0] == [];
  }

  lemma LimitReached(header: seq<string>, w: seq<seq<string>>, name: string, limit: int, i: nat)
    requires 1 <= i <= |w| && limit >= 1
    requires |PresentValues(header, w[..i], name)| >= limit
    requires i == 1 || |PresentValues(header, w[..i - 1], name)| < limit
    requires PresentValues(header, w[..i], name) <= PresentValues(header, w, name)
    ensures PresentValues(header, w[..i], name) == ColumnValues(header, w, name, limit)
    ensures |PresentValues(header, w[..i], name)| == limit
  {
    var out := PresentValues(header, w[..i], name);
    var prev := PresentValues(header, w[..i - 1], name);
    PresentValuesStep(header, w, i - 1, name);
    assert w[..i - 1 + 1] == w[..i];
    if i == 1 {
      assert w[..0] == [];
    }
    assert |out| <= |prev| + 1;
  }

  /** A column outside the header yields no values. */
  lemma ColumnValuesUnknown(header: seq<string>, w: seq<seq<string>>, name: string, limit: int)
    requires name !in header
    ensures ColumnValues(header, w, name, limit) == [] && PresentValues(header, w, name) == []
  {
    UnknownColumnAllMissing(header, w, name);
    UnknownColumnAllMissing(header, w[..if |w| < 1 then |w| else 1], name);
  }

  /** A cell whose stripped text is blank is missing. */
  lemma BlankIsMissing(v: Option<string>)
    ensures v.Some? && Strip(v.value) == "" ==> IsMissing(v)
  {
    if v.Some? && Strip(v.value) == "" {
      assert Lower(Strip(v.value)) == "";
    }
  }

  /** The labels `get_top_values` counts are stripped and never blank. */
  lemma {:induction false} LabelsNonBlank(header: seq<string>, rows: seq<seq<string>>, c: string)
    ensures forall i :: 0 <= i < |Labels(header, rows, c)| ==>
      Labels(header, rows, c)[i] != "" && Strip(Labels(header, rows, c)[i]) == Labels(header, rows, c)[i]
  {
    if rows != [] {
      var v := Cell(header, rows[|rows| - 1], c);
      var init := Labels(header, rows[..|rows| - 1], c);
      LabelsNonBlank(header, rows[..|rows| - 1], c);
      if !IsMissing(v) {
        var l := Strip(v.value);
        BlankIsMissing(v);
        StripIdempotent(v.value);
        assert l != "" && Strip(l) == l;
        var ls := init + [l];
        assert Labels(header, rows, c) == ls;
        forall i | 0 <= i < |ls| ensures ls[i] != "" && Strip(ls[i]) == ls[i] {
          if i < |init| {
            assert ls[i] == init[i];
          }
        }
      } else {
        assert Labels(header, rows, c) == init;
      }
    }
  }

  lemma LabelsStep(header: seq<string>, rows: seq<seq<string>>, i: nat, c: string)
    requires i < |rows|
    ensures var v := Cell(header, rows[i], c);
      Labels(header, rows[..i + 1], c) ==
        Labels(header, rows[..i], c) + (if IsMissing(v) then [] else [Strip(v.value)])
  {
    assert rows[..i + 1][..i] == rows[..i];
  }

  /** The `(labels, counts)` pair of `get_top_values`. */
  datatype TopValues = TopValues(labels: seq<string>, counts: seq<nat>)

  /** `get_top_values(name, limit)`: the `limit` most common stripped non-missing values of
    * the column over the window, with their counts. */
  method GetTopValues(state: DatasetState, fs: FileSystem, name: string, limit: int) returns (r: Result<TopValues>)
    ensures state.CurrentPath() !in fs ==> r == Failure(FileNotFound(state.CurrentPath()))
    ensures state.CurrentPath() in fs ==>
      var t := fs[state.CurrentPath()];
      var xs := Labels(t.header, Scanned(t.Records(), state.HardCap()), name);
      var top := Counters.MostCommon(Counters.Tally(xs), limit);
      && r == Success(TopValues(Counters.Keys(top), Counters.Counts(top)))
      && (forall i :: 0 <= i < |r.value.labels| ==>
            r.value.labels[i] in xs && r.value.labels[i] != "" && Strip(r.value.labels[i]) == r.value.labels[i])
  {
    var path := state.CurrentPath();
    if path !in fs {
      return Failure(FileNotFound(path));
    }
    var t := fs[path];
    var cap := state.HardCap();
    var cnt := CountLabels(t.header, t.Records(), cap, name);
    var top := Counters.MostCommon(cnt, limit);
    var labels := Counters.Keys(top);
    var counts := Counters.Counts(top);
    ghost var xs := Labels(t.header, Scanned(t.Records(), cap), name);
    Counters.MostCommonCounts(xs, limit);
    LabelsNonBlank(t.header, Scanned(t.Records(), cap), name);
    return Success(TopValues(labels, counts));
  }

  /** The counting loop of `get_top_values`. */
  method CountLabels(header: seq<string>, records: seq<seq<string>>, cap: Option<nat>, name: string)
    returns (cnt: Counters.Counter)
    ensures cnt == Counters.Tally(Labels(header, Scanned(records, cap), name))
  {
    cnt := [];
    ghost var seen: seq<string> := [];
    var i := 0;
    assert seen == Labels(header, records[..i], name);
    while i < |records|
      invariant 0 <= i <= |records|
      invariant cap.Some? ==> i <= cap.value
      invariant seen == Labels(header, records[..i], name)
      invariant cnt == Counters.Tally(seen)
    {
      if cap.Some? && i >= cap.value {
        break;
      }
      var v := Cell(header, records[i], name);
      LabelsStep(header, records, i, name);
      if !IsMissing(v) {
        var s := Strip(v.value);
        BlankIsMissing(v);
        if s != "" {
          Counters.TallySnoc(seen, s);
          cnt := Counters.Inc(cnt, s);
          seen := seen + [s];
        } else {
          assert false;
        }
      } else {
        assert seen + [] == seen;
      }
      i := i + 1;
    }
    assert records[..i] == Scanned(records, cap);
  }

  /** The row cap of `get_column_stats`: 2000 in default mode, `max_rows` (nothing when
    * negative) in upload mode. */
  function StatsCap(mode: Mode, maxRows: int): (cap: nat)
    ensures mode == Default ==> cap == DefaultCap
    ensures mode == Upload ==> cap == if maxRows < 0 then 0 else maxRows
  {
    if mode == Default then DefaultCap else if maxRows < 0 then 0 else maxRows
  }

  const StatsParsingNote := "Parsing: treat NA/N/A/null/empty/'-' as missing; remove commas/spaces; remove symbols like $ and %; keep digits, dot, minus."

  /** The answer of `get_column_stats`. */
  datatype ColumnStats = ColumnStats(
    name: string,
    rowsScanned: nat,
    missingCount: nat,
    unparsableCount: nat,
    parsedCount: nat,
    parseRatio: real,
    stats: Stats.StatsRecord,
    parsingNote: string)

  /** The share of parsed cells among the present ones; 0 when no cell is present. */
  function ParseRatio(parsed: nat, nonMissing: nat): (q: real)
    ensures nonMissing == 0 ==> q == 0.0
    ensures nonMissing > 0 ==> q * nonMissing as real == parsed as real
  {
    if nonMissing != 0 then parsed as real / nonMissing as real else 0.0
  }

  /** The answer `get_column_stats` gives for the scanned records `w`. */
  function ColumnStatsOf(header: seq<string>, w: seq<seq<string>>, name: string): ColumnStats {
    var missing := MissingCount(header, w, name);
    var vals := ParsedValues(header, w, name);
    var nonMissing := if |w| - missing > 0 then |w| - missing else 0;
    ColumnStats(name, |w|, missing, UnparsableCount(header, w, name), |vals|,
                ParseRatio(|vals|, nonMissing), Stats.Stats(vals), StatsParsingNote)
  }

  /** Every scanned row is counted exactly once, the ratio lies in [0, 1], and the statistics
    * count exactly the parsed numbers. */
  lemma ColumnStatsFacts(header: seq<string>, w: seq<seq<string>>, name: string)
    ensures var s := ColumnStatsOf(header, w, name);
      && s.missingCount + s.unparsableCount + s.parsedCount == s.rowsScanned == |w|
      && 0.0 <= s.parseRatio <= 1.0
      && s.stats.count == s.parsedCount
  {
    ScanPartition(header, w, name);
    var missing := MissingCount(header, w, name);
    var vals := ParsedValues(header, w, name);
    var nonMissing := if |w| - missing > 0 then |w| - missing else 0;
    ParseRatioBounds(|vals|, nonMissing);
  }

  lemma ParseRatioBounds(parsed: nat, nonMissing: nat)
    requires parsed <= nonMissing
    ensures 0.0 <= ParseRatio(parsed, nonMissing) <= 1.0
  {
    if nonMissing != 0 {
      RatioAtMostOne(parsed, nonMissing);
    }
  }

  /** `get_column_stats(name, max_rows)`: the counts, ratio and `_stats` of the column over
    * the first `StatsCap` records. */
  method GetColumnStats(state: DatasetState, fs: FileSystem, name: string, maxRows: int) returns (r: Result<ColumnStats>)
    ensures state.CurrentPath() !in fs ==> r == Failure(FileNotFound(state.CurrentPath()))
    ensures state.CurrentPath() in fs ==>
      var t := fs[state.CurrentPath()];
      r == Success(ColumnStatsOf(t.header, Scanned(t.Records(), Some(StatsCap(state.mode, maxRows))), name))
  {
    var path := state.CurrentPath();
    if path !in fs {
      return Failure(FileNotFound(path));
    }
    var t := fs[path];
    var cap := StatsCap(state.mode, maxRows);
    var seen, missing, unparsable, vals := ScanStats(t.header, t.Records(), cap, name);
    var s := Stats.Stats(vals);
    var nonMissing := if seen - missing > 0 then seen - missing else 0;
    return Success(ColumnStats(name, seen, missing, unparsable, |vals|, ParseRatio(|vals|, nonMissing), s, StatsParsingNote));
  }

  /** One more record adds one to the count its cell falls under. */
  lemma ScanStep(header: seq<string>, rows: seq<seq<string>>, i: nat, c: string)
    requires i < |rows|
    ensures var v := Cell(header, rows[i], c);
      && MissingCount(header, rows[..i + 1], c) == MissingCount(header, rows[..i], c) + (if IsMissing(v) then 1 else 0)
      && UnparsableCount(header, rows[..i + 1], c) ==
           UnparsableCount(header, rows[..i], c) + (if !IsMissing(v) && TryFloat(v).None? then 1 else 0)
      && ParsedValues(header, rows[..i + 1], c) ==
           ParsedValues(header, rows[..i], c) + (if !IsMissing(v) && TryFloat(v).Some? then [TryFloat(v).value] else [])
  {
    assert rows[..i + 1][..i] == rows[..i];
  }

  lemma RatioAtMostOne(a: nat, b: nat)
    requires 0 < b && a <= b
    ensures 0.0 <= a as real / b as real <= 1.0
  {
  }

  /** The reading loop of `get_column_stats`. */
  method ScanStats(header: seq<string>, records: seq<seq<string>>, cap: nat, name: string)
    returns (seen: nat, missing: nat, unparsable: nat, vals: seq<real>)
    ensures var w := Scanned(records, Some(cap));
      && seen == |w|
      && missing == MissingCount(header, w, name)
      && unparsable == UnparsableCount(header, w, name)
      && vals == ParsedValues(header, w, name)
  {
    seen, missing, unparsable, vals := 0, 0, 0, [];
    while seen < |records|
      invariant seen <= |records| && seen <= cap
      invariant missing == MissingCount(header, records[..seen], name)
      invariant unparsable == UnparsableCount(header, records[..seen], name)
      invariant vals == ParsedValues(header, records[..seen], name)
    {
      if seen >= cap {
        break;
      }
      ScanStep(header, records, seen, name);
      var v := Cell(header, records[seen], name);
      missing, unparsable, vals := CountCell(v, missing, unparsable, vals);
      seen := seen + 1;
    }
    assert records[..seen] == Scanned(records, Some(cap));
  }

  /** The body of the reading loop of `get_column_stats`: a missing cell, an unparsable one,
    * or one more number. */
  method CountCell(v: Option<string>, missing: nat, unparsable: nat, vals: seq<real>)
    returns (missing': nat, unparsable': nat, vals': seq<real>)
    ensures missing' == missing + (if IsMissing(v) then 1 else 0)
    ensures unparsable' == unparsable + (if !IsMissing(v) && TryFloat(v).None? then 1 else 0)
    ensures vals' == vals + (if !IsMissing(v) && TryFloat(v).Some? then [TryFloat(v).value] else [])
  {
    missing', unparsable', vals' := missing, unparsable, vals;
    if IsMissing(v) {
      missing' := missing + 1;
      return;
    }
    var fv := TryFloat(v);
    if fv.None? {
      unparsable' := unparsable + 1;
      return;
    }
    vals' := vals + [fv.value];
  }
}
