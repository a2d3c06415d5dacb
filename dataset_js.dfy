/** The client logic of the dataset page: the browser's twin of the cell parser, the chart
  * histogram, and the page state behind the preview table (paging and the two filters). */
module DatasetPage {
  import opened Wrappers
  import opened Text
  import opened JsValues
  import Numerals
  import ValueParser
  import Histogram

  /** The tokens the browser treats as an absent value, compared after trim and lower-casing. */
  const JsTokens: set<string> := {"", "na", "n/a", "nan", "null", "none", "-", "--", "\U{2014}"}

  /** `isMissingToken(s)`: `String(s ?? "")`, trimmed and lower-cased, is a token. A cell is
    * `None` when the value is `null` or `undefined`. */
  function IsMissingToken(v: Option<string>): (b: bool)
    ensures v.None? ==> b
    ensures b ==> ValueParser.IsMissing(v)
  {
    Lower(Strip(if v.None? then "" else v.value)) in JsTokens
  }

  /** Every token the browser knows the server knows too; the server has two more. */
  lemma TokensOfServer(v: Option<string>)
    ensures JsTokens < ValueParser.NaTokens
    ensures ValueParser.NaTokens - JsTokens == {"not available", "n\\a"}
    ensures IsMissingToken(v) ==> ValueParser.IsMissing(v)
  {
    assert "not available" !in JsTokens;
  }

  /** The text `tryParseNumber` hands to `Number()`: trimmed, without commas and spaces, and
    * then without anything outside `[0-9.-]`. */
  function CleanText(s: string): (r: string)
    ensures forall i :: 0 <= i < |r| ==> IsNumChar(r[i])
  {
    KeepNumChars(RemoveChar(RemoveChar(Strip(s), ','), ' '))
  }

  /** `tryParseNumber(v)`: `None` (JavaScript's `null`) for an absent value, a missing token,
    * the cleaned texts `""`, `"-"`, `"."` and `"-."`, and a non-finite `Number()`. */
  function TryParseNumber(v: Option<string>): (r: Option<real>)
    ensures v.None? || IsMissingToken(v) ==> r == None
    ensures !(v.None? || IsMissingToken(v)) ==> r == Numerals.DecimalLiteral(KeepNumChars(v.value))
  {
    if v.None? || IsMissingToken(v) then None
    else
      var s := CleanText(v.value);
      CleanTextIsKept(v.value);
      NotNumerals();
      if s in ["", "-", ".", "-."] then None
      else
        Numerals.StripNumChars(s);
        Numerals.PyFloatOnNumChars(s);
        StringToNumber(s)
  }

  /** The browser's cleaning keeps exactly the `[0-9.-]` characters of the raw text. */
  lemma CleanTextIsKept(s: string)
    ensures CleanText(s) == KeepNumChars(s)
  {
    var t := Strip(s);
    ValueParser.KeepAfterRemoveChar(RemoveChar(t, ','), ' ');
    ValueParser.KeepAfterRemoveChar(t, ',');
    ValueParser.KeepAfterStrip(s);
  }

  /** The four cleaned texts `tryParseNumber` rejects before calling `Number()` are no
    * numerals anyway. */
  lemma NotNumerals()
    ensures forall k :: k in ["", "-", ".", "-."] ==> Numerals.DecimalLiteral(k) == None
  {
    assert Numerals.IndexOf(".", '.') == 0;
    assert "-"[1..] == "" && "-."[1..] == ".";
  }

  /** The two server tokens the browser lacks hold none of `[0-9.-]`. */
  lemma ExtraTokensClean(s: string)
    requires Lower(Strip(s)) == "not available" || Lower(Strip(s)) == "n\\a"
    ensures KeepNumChars(s) == []
  {
    ValueParser.KeepAfterLower(Strip(s));
    ValueParser.KeepAfterStrip(s);
    ValueParser.WordTokensClean();
  }

  /** The browser reads every cell as the server does: although its token list is shorter,
    * the two tokens it lacks clean to nothing. */
  lemma TryParseNumberIsTryFloat(v: Option<string>)
    ensures TryParseNumber(v) == ValueParser.TryFloat(v)
  {
    TokensOfServer(v);
    if v.Some? && !IsMissingToken(v) && ValueParser.IsMissing(v) {
      var x := Lower(Strip(v.value));
      assert x in ValueParser.NaTokens - JsTokens;
      ExtraTokensClean(v.value);
      NotNumerals();
    }
  }

  /** The finite numbers among the values, in order (`values.map(Number).filter(Number.isFinite)`). */
  function Finite(values: seq<JsValue>): (nums: seq<real>)
    ensures |nums| <= |values|
  {
    if values == [] then []
    else
      var f := FiniteNumber(values[|values| - 1]);
      Finite(values[..|values| - 1]) + (if f.Some? then [f.value] else [])
  }

  /** A bar label: the single value of a constant column, or the two edges of a bin (the
    * `toFixed(0)` text of the edges is not modelled). */
  datatype Label = Single(value: real) | Span(from: real, to: real)

  datatype HistData = HistData(labels: seq<Label>, counts: seq<nat>)

  /** What `buildHistogramBins(values, bins)` returns, on the finite numbers `nums`. */
  function HistogramBins(nums: seq<real>, bins: nat): (h: HistData)
    requires bins >= 1
    ensures |h.labels| == |h.counts|
    ensures nums == [] <==> h.counts == []
    ensures nums != [] && Histogram.Min(nums) < Histogram.Max(nums) ==> |h.counts| == bins
    ensures Histogram.Total(h.counts) == |nums|
  {
    if nums == [] then HistData([], [])
    else
      var mn, mx := Histogram.Min(nums), Histogram.Max(nums);
      if mn == mx then
        assert Histogram.Total([|nums|]) == |nums| + Histogram.Total([]);
        HistData([Single(mn)], [|nums|])
      else
        var step := Histogram.Width(mn, mx, bins);
        Histogram.BinCountsTotal(nums, mn, step, bins);
        HistData(
          seq(bins, i requires 0 <= i < bins => Span(Histogram.Edge(mn, step, i), Histogram.Edge(mn, step, i + 1))),
          Histogram.BinCounts(nums, mn, step, bins))
  }

  /** `buildHistogramBins(values, bins)`. */
  method BuildHistogramBins(values: seq<JsValue>, bins: int) returns (h: HistData)
    requires bins >= 1
    ensures h == HistogramBins(Finite(values), bins)
  {
    var nums := Finite(values);
    if |nums| == 0 {
      return HistData([], []);
    }
    var mn := Histogram.Min(nums);
    var mx := Histogram.Max(nums);
    if mn == mx {
      return HistData([Single(mn)], [|nums|]);
    }
    var step := (mx - mn) / bins as real;
    assert step == Histogram.Width(mn, mx, bins);
    var counts := CountFloored(nums, mn, step, bins);
    var labels := seq(bins, i requires 0 <= i < bins => Span(mn + i as real * step, mn + (i + 1) as real * step));
    assert forall i :: 0 <= i < bins ==> labels[i] == Span(Histogram.Edge(mn, step, i), Histogram.Edge(mn, step, i + 1));
    return HistData(labels, counts);
  }

  /** The `forEach` of `buildHistogramBins`: the counts are filled in place, one value at a
    * time, at the floored and clamped index. */
  method CountFloored(nums: seq<real>, mn: real, step: real, bins: nat) returns (r: seq<nat>)
    requires step > 0.0 && bins >= 1
    ensures r == Histogram.BinCounts(nums, mn, step, bins)
  {
    var counts := new nat[bins](_ => 0);
    var j := 0;
    while j < |nums|
      invariant 0 <= j <= |nums|
      invariant counts[..] == Histogram.BinCounts(nums[..j], mn, step, bins)
    {
      var idx := ((nums[j] - mn) / step).Floor;
      if idx >= bins {
        idx := bins - 1;
      }
      if idx < 0 {
        idx := 0;
      }
      Histogram.BinCountsAppend(nums[..j], nums[j], mn, step, bins);
      assert nums[..j + 1] == nums[..j] + [nums[j]];
      counts[idx] := counts[idx] + 1;
      j := j + 1;
    }
    assert nums[..j] == nums;
    return counts[..];
  }

  /** The browser's bars sum to the number of finite values, and they are the server's
    * `_histogram` bins for the same values: same counts, same edges. */
  lemma HistogramBinsAgree(nums: seq<real>, bins: nat)
    requires bins >= 1
    ensures var h := HistogramBins(nums, bins);
      && Histogram.Total(h.counts) == |nums|
      && h.counts == Histogram.Counts(Histogram.HistogramOf(nums, bins).value)
      && forall i :: 0 <= i < |h.labels| && h.labels[i].Span? ==>
           h.labels[i].from == Histogram.HistogramOf(nums, bins).value[i].from
           && h.labels[i].to == Histogram.HistogramOf(nums, bins).value[i].to
  {
    var h := HistogramBins(nums, bins);
    var r := Histogram.HistogramOf(nums, bins);
    Histogram.HistogramOfTotal(nums, bins);
    if nums != [] && Histogram.Min(nums) < Histogram.Max(nums) {
      assert h.counts == Histogram.Counts(r.value);
    } else if nums != [] {
      assert Histogram.Counts(r.value) == [|nums|];
    }
  }

  /** A row of the preview: the cell of each column, `None` for JSON `null`. */
  type Row = map<string, Option<string>>

  /** `row?.[c]`: an absent key reads as `undefined`. */
  function Cell(row: Row, c: string): Option<string> {
    if c in row then row[c] else None
  }

  /** The two filters of the preview table: a numeric range on one column, or a
    * lower-cased substring searched in a list of columns. */
  datatype RowFilter =
    | Range(col: string, minV: Option<real>, maxV: Option<real>)
    | Text(cols: seq<string>, needle: string)

  /** Whether a row passes the filter. */
  function Keeps(f: RowFilter, row: Row): (b: bool)
    ensures f.Range? && b ==> Cell(row, f.col).Some? && !IsMissingToken(Cell(row, f.col))
    ensures f.Text? && f.cols == [] ==> !b
    ensures f.Text? && f.needle == [] && f.cols != [] ==> b
  {
    match f
    case Range(col, minV, maxV) =>
      var val := TryParseNumber(Cell(row, col));
      && val.Some?
      && (minV.None? || minV.value <= val.value)
      && (maxV.None? || val.value <= maxV.value)
    case Text(cols, needle) =>
      assert needle == [] && cols != [] ==>
        Contains(Lower(if Cell(row, cols[0]).Some? then Cell(row, cols[0]).value else ""), needle);
      exists i :: 0 <= i < |cols| && Contains(Lower(if Cell(row, cols[i]).Some? then Cell(row, cols[i]).value else ""), needle)
  }

  /** The callback of `rows.filter(...)` for a filter. */
  function KeepsFn(f: RowFilter): Row -> bool {
    row => Keeps(f, row)
  }

  /** `rows.filter(keep)`. */
  function Filter(rows: seq<Row>, keep: Row -> bool): (r: seq<Row>)
    ensures |r| <= |rows|
  {
    if rows == [] then []
    else Filter(rows[..|rows| - 1], keep) + (if keep(rows[|rows| - 1]) then [rows[|rows| - 1]] else [])
  }

  /** `a` is `b` with some entries left out, the rest in their order. */
  predicate IsSubsequence(a: seq<Row>, b: seq<Row>)
    decreases |b|
  {
    if a == [] then true
    else if b == [] then false
    else if a[|a| - 1] == b[|b| - 1] then IsSubsequence(a[..|a| - 1], b[..|b| - 1])
    else IsSubsequence(a, b[..|b| - 1])
  }

  lemma {:induction false} SubsequenceSnoc(a: seq<Row>, b: seq<Row>, x: Row)
    requires IsSubsequence(a, b)
    ensures IsSubsequence(a, b + [x])
    decreases |b|, 1
  {
    var bx := b + [x];
    assert bx[..|bx| - 1] == b;
    if a != [] && a[|a| - 1] == x {
      SubsequenceDropLast(a, b);
    }
  }

  /** Removing the last entry keeps a subsequence a subsequence. */
  lemma {:induction false} SubsequenceDropLast(a: seq<Row>, b: seq<Row>)
    requires a != [] && IsSubsequence(a, b)
    ensures IsSubsequence(a[..|a| - 1], b)
    decreases |b|, 0
  {
    var init, binit := a[..|a| - 1], b[..|b| - 1];
    assert binit + [b[|b| - 1]] == b;
    if a[|a| - 1] == b[|b| - 1] {
      SubsequenceSnoc(init, binit, b[|b| - 1]);
    } else {
      SubsequenceDropLast(a, binit);
      SubsequenceSnoc(init, binit, b[|b| - 1]);
    }
  }

  lemma {:induction false} SubsequenceSelf(rows: seq<Row>)
    ensures IsSubsequence(rows, rows)
  {
    if rows != [] {
      SubsequenceSelf(rows[..|rows| - 1]);
    }
  }

  /** A filter keeps rows in their order and adds none. */
  lemma {:induction false} FilterIsSubsequence(rows: seq<Row>, keep: Row -> bool)
    ensures IsSubsequence(Filter(rows, keep), rows)
  {
    if rows != [] {
      var init, last := rows[..|rows| - 1], rows[|rows| - 1];
      FilterIsSubsequence(init, keep);
      var r := Filter(rows, keep);
      if keep(last) {
        assert r[..|r| - 1] == Filter(init, keep);
      } else {
        assert init + [last] == rows;
        assert r == Filter(init, keep);
        SubsequenceSnoc(Filter(init, keep), init, last);
      }
    }
  }

  /** A row is shown exactly when it is a raw row that passes the filter. */
  lemma {:induction false} FilterMembers(rows: seq<Row>, keep: Row -> bool)
    ensures forall row :: row in Filter(rows, keep) <==> row in rows && keep(row)
  {
    if rows != [] {
      var init := rows[..|rows| - 1];
      FilterMembers(init, keep);
      assert rows == init + [rows[|rows| - 1]];
    }
  }

  /** Filtering twice with the same filter changes nothing more. */
  lemma {:induction false} FilterIdempotent(rows: seq<Row>, keep: Row -> bool)
    ensures Filter(Filter(rows, keep), keep) == Filter(rows, keep)
  {
    if rows != [] {
      var init, last := rows[..|rows| - 1], rows[|rows| - 1];
      FilterIdempotent(init, keep);
      var r := Filter(rows, keep);
      if keep(last) {
        assert r[..|r| - 1] == Filter(init, keep);
      } else {
        assert r == Filter(init, keep);
      }
    }
  }

  /** The filter the inputs of `applyFilterToCurrentPage()` select: the range filter when
    * `filterCol` is a numeric column, the text filter otherwise (on `filterCol`, or on every
    * column when it is empty), and none when the range or the text is empty. */
  function ChosenFilter(columns: seq<string>, numericCols: set<string>, filterCol: string,
                        minRaw: string, maxRaw: string, filterText: string): Option<RowFilter>
  {
    if filterCol != "" && filterCol in numericCols then
      var minV, maxV := TryParseNumber(Some(minRaw)), TryParseNumber(Some(maxRaw));
      if minV.None? && maxV.None? then None else Some(Range(filterCol, minV, maxV))
    else
      var needle := Lower(Strip(filterText));
      if needle == [] then None else Some(Text(if filterCol != "" then [filterCol] else columns, needle))
  }

  /** The rows the table shows for the filter inputs: the raw rows in order, less those the
    * chosen filter rejects. */
  function Shown(rowsRaw: seq<Row>, columns: seq<string>, numericCols: set<string>, filterCol: string,
                 minRaw: string, maxRaw: string, filterText: string): (r: seq<Row>)
    ensures IsSubsequence(r, rowsRaw)
    ensures var f := ChosenFilter(columns, numericCols, filterCol, minRaw, maxRaw, filterText);
      forall row :: row in r <==> row in rowsRaw && (f.None? || Keeps(f.value, row))
  {
    var f := ChosenFilter(columns, numericCols, filterCol, minRaw, maxRaw, filterText);
    if f.None? then
      SubsequenceSelf(rowsRaw);
      rowsRaw
    else
      FilterIsSubsequence(rowsRaw, KeepsFn(f.value));
      FilterMembers(rowsRaw, KeepsFn(f.value));
      Filter(rowsRaw, KeepsFn(f.value))
  }

  /** A number read from a text box, as `Number(input || dflt)` does: an empty box gives the
    * default, `None` stands for `NaN`. */
  function NumberOr(input: string, dflt: real): (r: Option<real>)
    ensures input == "" ==> r == Some(dflt)
    ensures input != "" && Strip(input) == [] ==> r == Some(0.0)
    ensures input != "" && (forall i :: 0 <= i < |input| ==> IsNumChar(input[i])) ==> r == Numerals.DecimalLiteral(input)
  {
    if input == "" then Some(dflt) else StringToNumber(input)
  }

  /** `Math.max(10, Math.min(500, n))`, with `NaN` staying `NaN`. */
  function ClampSize(n: Option<real>): (r: Option<real>)
    ensures r.Some? <==> n.Some?
    ensures r.Some? ==> 10.0 <= r.value <= 500.0
    ensures n.Some? && 10.0 <= n.value <= 500.0 ==> r == n
  {
    if n.None? then None else Some(if n.value < 10.0 then 10.0 else if n.value > 500.0 then 500.0 else n.value)
  }

  /** `Math.max(1, n)`, with `NaN` staying `NaN`. */
  function ClampPage(n: Option<real>): (r: Option<real>)
    ensures r.Some? <==> n.Some?
    ensures r.Some? ==> r.value >= 1.0
    ensures n.Some? && n.value >= 1.0 ==> r == n
  {
    if n.None? then None else Some(if n.value < 1.0 then 1.0 else n.value)
  }

  /** `(page - 1) * size`, `NaN` when either is. */
  function Offset(page: Option<real>, size: Option<real>): (r: Option<real>)
    ensures r.Some? <==> page.Some? && size.Some?
    ensures page.Some? && size.Some? && page.value >= 1.0 && size.value >= 0.0 ==> r.value >= 0.0
  {
    if page.Some? && size.Some? then
      if page.value >= 1.0 && size.value >= 0.0 then
        Histogram.MulLe(size.value, 0.0, page.value - 1.0);
        Some((page.value - 1.0) * size.value)
      else Some((page.value - 1.0) * size.value)
    else None
  }

  /** The page state of the dataset preview. Numbers that can be `NaN` are `Option<real>`,
    * `None` standing for `NaN`. */
  class DatasetPage {
    var columns: seq<string>
    var rowsRaw: seq<Row>
    var rowsShown: seq<Row>
    var numericCols: set<string>
    var pageSize: Option<real>
    var currentPage: Option<real>
    var currentOffset: Option<real>

    /** The shown rows are always some of the raw rows, in order. */
    predicate Valid()
      reads this
    {
      IsSubsequence(rowsShown, rowsRaw)
    }

    /** The state the page script starts with. */
    constructor ()
      ensures Valid()
      ensures columns == [] && rowsRaw == [] && rowsShown == [] && numericCols == {}
      ensures pageSize == Some(50.0) && currentPage == Some(1.0) && currentOffset == Some(0.0)
    {
      columns := [];
      rowsRaw := [];
      rowsShown := [];
      numericCols := {};
      pageSize := Some(50.0);
      currentPage := Some(1.0);
      currentOffset := Some(0.0);
    }

    /** The numeric columns reported by the summary, cached for the filter. */
    method SetNumericColumns(cols: seq<string>)
      modifies this
      ensures numericCols == set c | c in cols
      ensures columns == old(columns) && rowsRaw == old(rowsRaw) && rowsShown == old(rowsShown)
      ensures pageSize == old(pageSize) && currentPage == old(currentPage) && currentOffset == old(currentOffset)
    {
      numericCols := set c | c in cols;
    }

    /** `applyFilterToCurrentPage()` with the values of the filter inputs: a numeric column
    * chosen in `filterCol` gets the range filter, anything else the text filter. An empty
    * range or an empty text shows every raw row. */
    method ApplyFilter(filterCol: string, minRaw: string, maxRaw: string, filterText: string)
      modifies this
      ensures Valid()
      ensures columns == old(columns) && rowsRaw == old(rowsRaw) && numericCols == old(numericCols)
      ensures pageSize == old(pageSize) && currentPage == old(currentPage) && currentOffset == old(currentOffset)
      ensures rowsShown == Shown(rowsRaw, columns, numericCols, filterCol, minRaw, maxRaw, filterText)
    {
      var isNumeric := filterCol != "" && filterCol in numericCols;
      if isNumeric {
        var minV := TryParseNumber(Some(minRaw));
        var maxV := TryParseNumber(Some(maxRaw));
        if minV.None? && maxV.None? {
          rowsShown := rowsRaw;
          SubsequenceSelf(rowsRaw);
          return;
        }
        rowsShown := Filter(rowsRaw, KeepsFn(Range(filterCol, minV, maxV)));
        FilterIsSubsequence(rowsRaw, KeepsFn(Range(filterCol, minV, maxV)));
        return;
      }
      var needle := Lower(Strip(filterText));
      if needle == [] {
        rowsShown := rowsRaw;
        SubsequenceSelf(rowsRaw);
        return;
      }
      var colsToCheck := if filterCol != "" then [filterCol] else columns;
      rowsShown := Filter(rowsRaw, KeepsFn(Text(colsToCheck, needle)));
      FilterIsSubsequence(rowsRaw, KeepsFn(Text(colsToCheck, needle)));
    }

    /** `loadPreviewPage()` with the two paging inputs and the answer of the preview request
    * (`None` when it failed): the page size is clamped to `[10, 500]`, the page number to at
    * least 1, and the offset is where that page starts. A fetched page replaces the columns
    * and rows and is filtered again; a failed request leaves them. */
    method LoadPreviewPage(sizeInput: string, pageInput: string, fetched: Option<(seq<string>, seq<Row>)>,
                           filterCol: string, minRaw: string, maxRaw: string, filterText: string)
      modifies this
      requires Valid()
      ensures Valid()
      ensures pageSize == ClampSize(NumberOr(sizeInput, 50.0))
      ensures currentPage == ClampPage(NumberOr(pageInput, 1.0))
      ensures currentOffset == Offset(currentPage, pageSize)
      ensures fetched.None? ==> columns == old(columns) && rowsRaw == old(rowsRaw) && rowsShown == old(rowsShown)
      ensures fetched.Some? ==> columns == fetched.value.0 && rowsRaw == fetched.value.1
      ensures fetched.Some? ==>
        rowsShown == Shown(fetched.value.1, fetched.value.0, numericCols, filterCol, minRaw, maxRaw, filterText)
      ensures numericCols == old(numericCols)
    {
      pageSize := ClampSize(NumberOr(sizeInput, 50.0));
      currentPage := ClampPage(NumberOr(pageInput, 1.0));
      currentOffset := Offset(currentPage, pageSize);
      if fetched.None? {
        return;
      }
      columns := fetched.value.0;
      rowsRaw := fetched.value.1;
      ApplyFilter(filterCol, minRaw, maxRaw, filterText);
    }
  }

  /** The paging window is well formed: a size in `[10, 500]` that is the asked size when
    * that is in range, a page of at least 1, and an offset of at least 0 that is a whole
    * number of pages when the page number is whole. Empty inputs give size 50 and page 1. */
  lemma PagingBounds(size: Option<real>, page: Option<real>, k: nat)
    ensures ClampSize(size).Some? <==> size.Some?
    ensures size.Some? ==> 10.0 <= ClampSize(size).value <= 500.0
    ensures size.Some? && 10.0 <= size.value <= 500.0 ==> ClampSize(size) == size
    ensures page.Some? ==> ClampPage(page).value >= 1.0
    ensures size.Some? && page.Some? ==> Offset(ClampPage(page), ClampSize(size)).value >= 0.0
    ensures size.Some? && page == Some((k + 1) as real) ==>
      Offset(ClampPage(page), ClampSize(size)) == Some(k as real * ClampSize(size).value)
    ensures NumberOr("", 50.0) == Some(50.0) && NumberOr("", 1.0) == Some(1.0)
  {
    if size.Some? && page.Some? {
      var s, p := ClampSize(size).value, ClampPage(page).value;
      Histogram.MulLe(s, 0.0, p - 1.0);
    }
  }
}
