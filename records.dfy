/** A CSV file as the dataset scans see it through `csv.DictReader`, and the per-column
  * tallies the scans are specified by. */
module Records {
  import opened Wrappers
  import opened Text
  import opened ValueParser
  import Counters

  /** The header line (`reader.fieldnames or []`) and the lines after it, each a list of raw
    * fields; a blank line is the empty list. */
  datatype Table = Table(header: seq<string>, lines: seq<seq<string>>) {
    /** The records `csv.DictReader` yields: the lines after the header that are not blank. */
    function Records(): seq<seq<string>> {
      NonBlank(lines)
    }
  }

  /** The lines with the blank ones (`row == []`) skipped, the others in their order. */
  function NonBlank(lines: seq<seq<string>>): (rs: seq<seq<string>>)
    ensures |rs| <= |lines|
    ensures forall i :: 0 <= i < |rs| ==> rs[i] != []
  {
    if lines == [] then []
    else NonBlank(lines[..|lines| - 1]) + (if lines[|lines| - 1] == [] then [] else [lines[|lines| - 1]])
  }

  /** A record is exactly a non-blank line. */
  lemma {:induction false} NonBlankMembers(lines: seq<seq<string>>)
    ensures forall r :: r in NonBlank(lines) <==> r in lines && r != []
  {
    if lines != [] {
      var init := lines[..|lines| - 1];
      NonBlankMembers(init);
      assert lines == init + [lines[|lines| - 1]];
    }
  }

  /** Skipping blank lines works piece by piece, so a blank line anywhere in the file changes
    * neither the records nor their count: `NonBlank(a + [[]] + b) == NonBlank(a + b)`. */
  lemma {:induction false} NonBlankConcat(a: seq<seq<string>>, b: seq<seq<string>>)
    ensures NonBlank(a + b) == NonBlank(a) + NonBlank(b)
    ensures NonBlank(a + [[]] + b) == NonBlank(a + b)
  {
    if b != [] {
      var binit := b[..|b| - 1];
      NonBlankConcat(a, binit);
      assert (a + b)[..|a + b| - 1] == a + binit;
      assert (a + [[]] + b)[..|a + [[]] + b| - 1] == a + [[]] + binit;
    } else {
      assert a + b == a && a + [[]] + b == a + [[]];
      assert (a + [[]])[..|a|] == a;
    }
  }

  /** The last position of `name` in the header, or -1. */
  function LastIndex(header: seq<string>, name: string): (k: int)
    ensures -1 <= k < |header|
    ensures k == -1 <==> name !in header
    ensures k >= 0 ==> header[k] == name && forall j :: k < j < |header| ==> header[j] != name
  {
    if header == [] then -1
    else if header[|header| - 1] == name then |header| - 1
    else LastIndex(header[..|header| - 1], name)
  }

  /** `row.get(name, "")` on the dict `csv.DictReader` builds from `record`: a later column of
    * the same name overrides an earlier one, a column past the end of a short record holds
    * `None`, and a name outside the header falls back to `""`. */
  function Cell(header: seq<string>, record: seq<string>, name: string): (v: Option<string>)
    ensures name !in header ==> v == Some("")
    ensures v.None? <==> name in header && |record| <= LastIndex(header, name)
  {
    var k := LastIndex(header, name);
    if k < 0 then Some("") else if k < |record| then Some(record[k]) else None
  }

  /** With distinct header names, column `k` reads field `k` of the record, or `None` past
    * its end. */
  lemma CellOfDistinctHeader(header: seq<string>, record: seq<string>, k: nat)
    requires k < |header| && forall i, j :: 0 <= i < j < |header| ==> header[i] != header[j]
    ensures Cell(header, record, header[k]) == if k < |record| then Some(record[k]) else None
  {
    assert LastIndex(header, header[k]) == k;
  }

  /** The records a scan reaches before its row cap: the first `cap` ones, or all of them. */
  function Scanned(records: seq<seq<string>>, cap: Option<nat>): (w: seq<seq<string>>)
    ensures w <= records
    ensures cap.None? ==> w == records
    ensures cap.Some? ==> |w| == if |records| < cap.value then |records| else cap.value
  {
    if cap.Some? && cap.value < |records| then records[..cap.value] else records
  }

  /** How a scan classifies column `c` of a record. */
  function Kind(header: seq<string>, record: seq<string>, c: string): Parsed {
    Classify(Cell(header, record, c))
  }

  /** Number of records whose cell in column `c` is missing. */
  function MissingCount(header: seq<string>, rows: seq<seq<string>>, c: string): (n: nat)
    ensures n <= |rows|
  {
    if rows == [] then 0
    else
      MissingCount(header, rows[..|rows| - 1], c) + (if Kind(header, rows[|rows| - 1], c) == Missing then 1 else 0)
  }

  /** Number of records whose cell in column `c` is present but no number. */
  function UnparsableCount(header: seq<string>, rows: seq<seq<string>>, c: string): (n: nat)
    ensures n <= |rows|
  {
    if rows == [] then 0
    else
      UnparsableCount(header, rows[..|rows| - 1], c) + (if Kind(header, rows[|rows| - 1], c) == Unparsable then 1 else 0)
  }

  /** The numbers parsed from column `c`, in record order. */
  function ParsedValues(header: seq<string>, rows: seq<seq<string>>, c: string): (vs: seq<real>)
    ensures |vs| <= |rows|
  {
    if rows == [] then []
    else
      var k := Kind(header, rows[|rows| - 1], c);
      ParsedValues(header, rows[..|rows| - 1], c) + (if k.Number? then [k.value] else [])
  }

  /** Every record lands in exactly one of the three outcomes. */
  lemma {:induction false} ScanPartition(header: seq<string>, rows: seq<seq<string>>, c: string)
    ensures MissingCount(header, rows, c) + UnparsableCount(header, rows, c) + |ParsedValues(header, rows, c)| == |rows|
  {
    if rows != [] {
      ScanPartition(header, rows[..|rows| - 1], c);
    }
  }

  /** The raw non-missing values of column `c`, in record order. */
  function PresentValues(header: seq<string>, rows: seq<seq<string>>, c: string): (vs: seq<string>)
    ensures |vs| <= |rows|
  {
    if rows == [] then []
    else
      var v := Cell(header, rows[|rows| - 1], c);
      PresentValues(header, rows[..|rows| - 1], c) + (if IsMissing(v) then [] else [v.value])
  }

  /** No value kept by `PresentValues` is missing. */
  lemma {:induction false} PresentValuesNotMissing(header: seq<string>, rows: seq<seq<string>>, c: string)
    ensures forall i :: 0 <= i < |PresentValues(header, rows, c)| ==> !IsMissing(Some(PresentValues(header, rows, c)[i]))
  {
    if rows != [] {
      var v := Cell(header, rows[|rows| - 1], c);
      var init := PresentValues(header, rows[..|rows| - 1], c);
      PresentValuesNotMissing(header, rows[..|rows| - 1], c);
      if !IsMissing(v) {
        var vs := init + [v.value];
        assert v == Some(v.value);
        forall i | 0 <= i < |vs| ensures !IsMissing(Some(vs[i])) {
          if i < |init| {
            assert vs[i] == init[i];
            assert !IsMissing(Some(init[i]));
          } else {
            assert vs[i] == v.value;
          }
        }
        assert PresentValues(header, rows, c) == vs;
      } else {
        assert PresentValues(header, rows, c) == init;
      }
    }
  }

  /** Exactly the non-missing records contribute a value. */
  lemma {:induction false} PresentCount(header: seq<string>, rows: seq<seq<string>>, c: string)
    ensures |PresentValues(header, rows, c)| + MissingCount(header, rows, c) == |rows|
  {
    if rows != [] {
      PresentCount(header, rows[..|rows| - 1], c);
    }
  }

  /** A column outside the header is missing in every record. */
  lemma {:induction false} UnknownColumnAllMissing(header: seq<string>, rows: seq<seq<string>>, c: string)
    requires c !in header
    ensures MissingCount(header, rows, c) == |rows|
    ensures PresentValues(header, rows, c) == [] && ParsedValues(header, rows, c) == []
  {
    if rows != [] {
      UnknownColumnAllMissing(header, rows[..|rows| - 1], c);
      EmptyIsMissing();
    }
  }

  /** An empty cell is missing. */
  lemma EmptyIsMissing()
    ensures IsMissing(Some(""))
  {
    var e: string := [];
    assert TrimStart(e) == e && TrimEnd(e) == e;
    assert Lower(Strip(e)) == e;
    assert e in NaTokens;
  }

  /** Taking a prefix of the records takes a prefix of the present values. */
  lemma {:induction false} PresentValuesPrefix(header: seq<string>, rows: seq<seq<string>>, n: nat, c: string)
    requires n <= |rows|
    ensures PresentValues(header, rows[..n], c) <= PresentValues(header, rows, c)
  {
    if n < |rows| {
      PresentValuesPrefix(header, rows[..|rows| - 1], n, c);
      assert rows[..|rows| - 1][..n] == rows[..n];
    } else {
      assert rows[..n] == rows;
    }
  }

  /** The stripped labels of the non-missing values of column `c` (what `get_top_values`
    * counts). */
  function Labels(header: seq<string>, rows: seq<seq<string>>, c: string): (ls: seq<string>)
    ensures |ls| <= |rows|
  {
    if rows == [] then []
    else
      var v := Cell(header, rows[|rows| - 1], c);
      Labels(header, rows[..|rows| - 1], c) + (if IsMissing(v) then [] else [Strip(v.value)])
  }

  /** What a `compute_summary` counter counts: `missing`, `non_missing_cnt` or `numeric_ok_cnt`. */
  datatype Tallied = MissingCells | PresentCells | ParsedCells

  predicate Hit(t: Tallied, k: Parsed) {
    match t
    case MissingCells => k == Missing
    case PresentCells => k != Missing
    case ParsedCells => k.Number?
  }

  /** Number of records whose cell in column `c` is of the kind `t` counts. */
  function HitCount(header: seq<string>, rows: seq<seq<string>>, c: string, t: Tallied): (n: nat)
    ensures n <= |rows|
  {
    if rows == [] then 0
    else HitCount(header, rows[..|rows| - 1], c, t) + (if Hit(t, Kind(header, rows[|rows| - 1], c)) then 1 else 0)
  }

  /** The three counts are the missing count, the number of present values and the number of
    * parsed values. */
  lemma {:induction false} HitCounts(header: seq<string>, rows: seq<seq<string>>, c: string)
    ensures HitCount(header, rows, c, MissingCells) == MissingCount(header, rows, c)
    ensures HitCount(header, rows, c, PresentCells) == |PresentValues(header, rows, c)|
    ensures HitCount(header, rows, c, ParsedCells) == |ParsedValues(header, rows, c)|
  {
    if rows != [] {
      HitCounts(header, rows[..|rows| - 1], c);
    }
  }

  /** `v` repeated `m` times. */
  function Repeat(v: real, m: nat): (r: seq<real>)
    ensures |r| == m && forall i :: 0 <= i < m ==> r[i] == v
  {
    seq(m, _ => v)
  }

  /** `numeric_vals[c]` of `compute_summary`: its inner loop visits every header position, so a
    * column named `m` times in the header gets each parsed value `m` times. */
  function NumericValues(header: seq<string>, rows: seq<seq<string>>, c: string): seq<real> {
    if rows == [] then []
    else
      var k := Kind(header, rows[|rows| - 1], c);
      NumericValues(header, rows[..|rows| - 1], c)
        + (if k.Number? then Repeat(k.value, Counters.Occurrences(header, c)) else [])
  }

  /** One more record keeps `total == m * count`: both grow, by `m` and by one, or neither. */
  lemma ScaleStep(m: nat, count0: nat, total0: nat, count: nat, total: nat, hit: bool)
    requires total0 == m * count0
    requires count == count0 + (if hit then 1 else 0)
    requires total == total0 + (if hit then m else 0)
    ensures total == m * count
  {
    if hit {
      calc {
        m * count;
        m * (count0 + 1);
        m * count0 + m;
      }
    }
  }

  /** `numeric_vals[c]` holds `m` copies of each parsed value, `m` the column's multiplicity. */
  lemma {:induction false} NumericValuesLength(header: seq<string>, rows: seq<seq<string>>, c: string)
    ensures |NumericValues(header, rows, c)| == Counters.Occurrences(header, c) * |ParsedValues(header, rows, c)|
  {
    if rows != [] {
      var init := rows[..|rows| - 1];
      NumericValuesLength(header, init, c);
      var k := Kind(header, rows[|rows| - 1], c);
      ScaleStep(Counters.Occurrences(header, c), |ParsedValues(header, init, c)|, |NumericValues(header, init, c)|,
                |ParsedValues(header, rows, c)|, |NumericValues(header, rows, c)|, k.Number?);
    }
  }

  /** For a column named once in the header, `numeric_vals[c]` is exactly the parsed values. */
  lemma {:induction false} SingleColumnValues(header: seq<string>, rows: seq<seq<string>>, c: string)
    requires Counters.Occurrences(header, c) == 1
    ensures NumericValues(header, rows, c) == ParsedValues(header, rows, c)
  {
    if rows != [] {
      SingleColumnValues(header, rows[..|rows| - 1], c);
      var k := Kind(header, rows[|rows| - 1], c);
      if k.Number? {
        assert Repeat(k.value, 1) == [k.value];
      }
    }
  }
}
