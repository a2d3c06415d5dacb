/** `compute_analytics`: the price, shipping, total and seller statistics, the missing-value
  * counter, the currency and group counters and the histograms over a list of normalised
  * search items. */
module Analytics {
  import opened Wrappers
  import opened JsonValues
  import Text
  import Numerals
  import Counters
  import Stats
  import Histogram

  /** The label of an item whose group field is empty. */
  const NoLabel: string := "—"
  const HistogramBins: int := 10
  const TopN: int := 7

  /** `_to_float(x)`: `None` for `None`, otherwise `float(x)`, and `None` where `float` raises
    * (lists, dicts, strings that are not numbers). */
  function ToFloat(x: Json): (r: Option<real>)
    ensures x.Null? || x.List? || x.Dict? ==> r == None
    ensures x.Int? ==> r == Some(x.i as real)
    ensures x.Float? ==> r == Some(x.f)
    ensures x.Str? && Text.Strip(x.s) == [] ==> r == None
  {
    match x
    case Null => None
    case Bool(b) => Some(if b then 1.0 else 0.0)
    case Int(i) => Some(i as real)
    case Float(f) => Some(f)
    case Str(s) => Numerals.PyFloat(s)
    case List(_) => None
    case Dict(_) => None
  }

  /** `it.get(k)`; only a dict item has fields (the others fail, see `ItemOk`). */
  function Field(it: Json, k: string): Json {
    if it.Dict? then GetKey(it.fields, k, Null) else Null
  }

  /** `(v or default).strip()`: the stripped string, and `AttributeError` when the chosen value
    * is truthy but not a string. */
  function Label(v: Json, default: string): (r: Result<string>)
    ensures r.Failure? <==> Truthy(v) && !v.Str?
    ensures r.Success? && !Truthy(v) ==> r.value == Text.Strip(default)
    ensures r.Success? && Truthy(v) ==> r.value == Text.Strip(v.s)
  {
    var x := Or(v, Str(default));
    if x.Str? then Success(Text.Strip(x.s)) else Failure(AttributeError)
  }

  /** `it.get("price_currency") or it.get("shipping_currency")`. */
  function CurrencyField(it: Json): Json {
    Or(Field(it, "price_currency"), Field(it, "shipping_currency"))
  }

  /** An item the loop gets through: a dict whose currency and group labels can be stripped. */
  predicate ItemOk(it: Json) {
    && it.Dict?
    && Label(CurrencyField(it), "").Success?
    && Label(Field(it, "condition"), NoLabel).Success?
    && Label(Field(it, "location_country"), NoLabel).Success?
    && Label(Field(it, "category"), NoLabel).Success?
  }

  /** The values of field `k` that convert to numbers, in item order. */
  function Values(items: seq<Json>, k: string): (vs: seq<real>)
    ensures |vs| <= |items|
  {
    if items == [] then []
    else
      var v := ToFloat(Field(items[|items| - 1], k));
      Values(items[..|items| - 1], k) + (if v.Some? then [v.value] else [])
  }

  function OrZero(x: Option<real>): real {
    if x.Some? then x.value else 0.0
  }

  /** `(pv or 0.0) + (sv or 0.0)` for each item with a price or a shipping cost. */
  function Totals(items: seq<Json>): (ts: seq<real>)
    ensures |ts| <= |items|
  {
    if items == [] then []
    else
      var it := items[|items| - 1];
      Totals(items[..|items| - 1]) + TotalOf(ToFloat(Field(it, "price_value")), ToFloat(Field(it, "shipping_value")))
  }

  /** The total of one item: none when it has neither a price nor a shipping cost. */
  function TotalOf(pv: Option<real>, sv: Option<real>): seq<real> {
    if pv.None? && sv.None? then [] else [OrZero(pv) + OrZero(sv)]
  }

  /** The `missing` updates of one item, in the loop's order, given its converted price,
    * shipping and seller score. */
  function MissingUpdate(c: Counters.Counter, pv: Option<real>, sv: Option<real>, sf: Option<real>): Counters.Counter {
    var c1 := if pv.None? then Counters.Inc(c, "price_value") else c;
    var c2 := if sv.None? then Counters.Inc(c1, "shipping_value") else c1;
    var c3 := if pv.None? && sv.None? then Counters.Inc(c2, "total") else c2;
    if sf.None? then Counters.Inc(c3, "seller_feedback") else c3
  }

  function MissingStep(c: Counters.Counter, it: Json): Counters.Counter {
    MissingUpdate(c, ToFloat(Field(it, "price_value")), ToFloat(Field(it, "shipping_value")), ToFloat(Field(it, "seller_feedback")))
  }

  function MissingOf(items: seq<Json>): Counters.Counter {
    if items == [] then [] else MissingStep(MissingOf(items[..|items| - 1]), items[|items| - 1])
  }

  /** The non-empty currency labels, in item order. */
  function CurrencyLabels(items: seq<Json>): (ls: seq<string>)
    ensures forall i :: 0 <= i < |ls| ==> ls[i] != []
  {
    if items == [] then []
    else
      var cur := Label(CurrencyField(items[|items| - 1]), "");
      CurrencyLabels(items[..|items| - 1]) + (if cur.Success? && cur.value != [] then [cur.value] else [])
  }

  /** The labels of group field `k`, `"—"` standing for an empty one, in item order. */
  function GroupLabels(items: seq<Json>, k: string): seq<string> {
    if items == [] then []
    else
      var g := Label(Field(items[|items| - 1], k), NoLabel);
      GroupLabels(items[..|items| - 1], k) + (if g.Success? then [g.value] else [])
  }

  /** The loop's accumulators: the four number lists and the five counters. */
  datatype Acc = Acc(
    prices: seq<real>,
    ship: seq<real>,
    totals: seq<real>,
    sellerScores: seq<real>,
    missing: Counters.Counter,
    currencies: Counters.Counter,
    byCondition: Counters.Counter,
    byCountry: Counters.Counter,
    byCategory: Counters.Counter)

  /** The accumulators after the loop has gone through `items`. */
  function AccOf(items: seq<Json>): Acc {
    Acc(
      Values(items, "price_value"),
      Values(items, "shipping_value"),
      Totals(items),
      Values(items, "seller_feedback"),
      MissingOf(items),
      Counters.Tally(CurrencyLabels(items)),
      Counters.Tally(GroupLabels(items, "condition")),
      Counters.Tally(GroupLabels(items, "location_country")),
      Counters.Tally(GroupLabels(items, "category")))
  }

  /** `currencies.most_common(1)[0][0] if currencies else ""`. */
  function CommonCurrency(c: Counters.Counter): (r: string)
    ensures c == [] ==> r == ""
    ensures c != [] ==> exists e :: e in c && e.key == r && forall e' :: e' in c ==> e'.count <= e.count
    ensures c != [] ==> exists i :: 0 <= i < |c| && c[i].key == r && forall j :: 0 <= j < i ==> c[j].count < c[i].count
  {
    if c == [] then ""
    else
      Counters.MostCommonFirst(c);
      Counters.MostCommonFirstSeen(c);
      Counters.MostCommon(c, 1)[0].key
  }

  /** On the cleaned price text `[0-9.-]*`, `_to_float` reads the decimal literal. */
  lemma ToFloatOfNumChars(s: string)
    requires forall i :: 0 <= i < |s| ==> Text.IsNumChar(s[i])
    ensures ToFloat(Str(s)) == Numerals.DecimalLiteral(s)
  {
    Numerals.PyFloatOnNumChars(s);
  }

  /** The answer of `compute_analytics`. */
  datatype Analytics = Analytics(
    countItems: nat,
    currencyMostCommon: string,
    missing: Counters.Counter,
    price: Stats.StatsRecord,
    shipping: Stats.StatsRecord,
    total: Stats.StatsRecord,
    sellerFeedback: Stats.StatsRecord,
    histPrice: seq<Histogram.Bin>,
    histTotal: seq<Histogram.Bin>,
    topConditions: seq<Counters.Entry>,
    topCountries: seq<Counters.Entry>,
    topCategories: seq<Counters.Entry>)

  function AnalyticsOf(items: seq<Json>): Analytics {
    var acc := AccOf(items);
    Analytics(
      |items|,
      CommonCurrency(acc.currencies),
      acc.missing,
      Stats.Stats(acc.prices),
      Stats.Stats(acc.ship),
      Stats.Stats(acc.totals),
      Stats.Stats(acc.sellerScores),
      Histogram.HistogramOf(acc.prices, HistogramBins).value,
      Histogram.HistogramOf(acc.totals, HistogramBins).value,
      Counters.MostCommon(acc.byCondition, TopN),
      Counters.MostCommon(acc.byCountry, TopN),
      Counters.MostCommon(acc.byCategory, TopN))
  }

  /** `compute_analytics(items)`: goes through the items once, then summarises. An item that
    * is not a dict, or whose chosen currency or group value is truthy but not a string, stops
    * it with `AttributeError`. */
  method ComputeAnalytics(items: seq<Json>) returns (r: Result<Analytics>)
    ensures r.Success? <==> forall i :: 0 <= i < |items| ==> ItemOk(items[i])
    ensures r.Success? ==> r.value == AnalyticsOf(items)
    ensures r.Failure? ==> r.error == AttributeError
  {
    var scanned := ScanItems(items);
    if scanned.Failure? {
      return Failure(scanned.error);
    }
    var acc := scanned.value;
    var histPrice := Histogram.PyHistogram(acc.prices, HistogramBins);
    var histTotal := Histogram.PyHistogram(acc.totals, HistogramBins);
    r := Success(Analytics(
      |items|,
      CommonCurrency(acc.currencies),
      acc.missing,
      Stats.Stats(acc.prices),
      Stats.Stats(acc.ship),
      Stats.Stats(acc.totals),
      Stats.Stats(acc.sellerScores),
      histPrice.value,
      histTotal.value,
      Counters.MostCommon(acc.byCondition, TopN),
      Counters.MostCommon(acc.byCountry, TopN),
      Counters.MostCommon(acc.byCategory, TopN)));
  }

  /** The loop of `compute_analytics`. */
  method ScanItems(items: seq<Json>) returns (r: Result<Acc>)
    ensures r.Success? <==> forall i :: 0 <= i < |items| ==> ItemOk(items[i])
    ensures r.Success? ==> r.value == AccOf(items)
    ensures r.Failure? ==> r.error == AttributeError
  {
    var acc := Acc([], [], [], [], [], [], [], [], []);
    var j := 0;
    while j < |items|
      invariant j <= |items|
      invariant forall i :: 0 <= i < j ==> ItemOk(items[i])
      invariant acc == AccOf(items[..j])
    {
      var next := AddItem(items[..j], acc, items[j]);
      if next.Failure? {
        return Failure(next.error);
      }
      OkExtend(items, j);
      SnocSlice(items, j);
      acc := next.value;
      j := j + 1;
    }
    SliceAll(items);
    return Success(acc);
  }

  lemma OkExtend(items: seq<Json>, j: nat)
    requires j < |items| && ItemOk(items[j])
    requires forall i :: 0 <= i < j ==> ItemOk(items[i])
    ensures forall i :: 0 <= i < j + 1 ==> ItemOk(items[i])
  {
  }

  lemma SnocSlice(items: seq<Json>, j: nat)
    requires j < |items|
    ensures items[..j] + [items[j]] == items[..j + 1]
  {
  }

  lemma SliceAll(items: seq<Json>)
    ensures items[..|items|] == items
  {
  }

  /** The body of the loop of `compute_analytics` for one item `it` after `seen`. */
  method AddItem(ghost seen: seq<Json>, acc: Acc, it: Json) returns (r: Result<Acc>)
    requires acc == AccOf(seen)
    ensures r.Success? <==> ItemOk(it)
    ensures ItemOk(it) ==> r == Success(AccOf(seen + [it]))
    ensures !ItemOk(it) ==> r == Failure(AttributeError)
  {
    if !it.Dict? {
      return Failure(AttributeError);
    }
    var pv := ToFloat(Field(it, "price_value"));
    var sv := ToFloat(Field(it, "shipping_value"));
    var sf := ToFloat(Field(it, "seller_feedback"));
    var cur := Label(CurrencyField(it), "");
    if cur.Failure? {
      return Failure(AttributeError);
    }
    var currencies := acc.currencies;
    if cur.value != [] {
      currencies := Counters.Inc(currencies, cur.value);
    }
    var missing, prices, ship, totals, sellerScores := acc.missing, acc.prices, acc.ship, acc.totals, acc.sellerScores;
    if pv.None? {
      missing := Counters.Inc(missing, "price_value");
    } else {
      prices := prices + [pv.value];
    }
    if sv.None? {
      missing := Counters.Inc(missing, "shipping_value");
    } else {
      ship := ship + [sv.value];
    }
    if pv.None? && sv.None? {
      missing := Counters.Inc(missing, "total");
    } else {
      totals := totals + [OrZero(pv) + OrZero(sv)];
    }
    TotalsStep(seen, it, pv, sv);
    if sf.None? {
      missing := Counters.Inc(missing, "seller_feedback");
    } else {
      sellerScores := sellerScores + [sf.value];
    }
    var cond := Label(Field(it, "condition"), NoLabel);
    if cond.Failure? {
      return Failure(AttributeError);
    }
    var ctry := Label(Field(it, "location_country"), NoLabel);
    if ctry.Failure? {
      return Failure(AttributeError);
    }
    var cat := Label(Field(it, "category"), NoLabel);
    if cat.Failure? {
      return Failure(AttributeError);
    }
    ValuesStep(seen, it, "price_value");
    ValuesStep(seen, it, "shipping_value");
    ValuesStep(seen, it, "seller_feedback");
    AccStep(seen, it);
    assert missing == MissingStep(acc.missing, it);
    assert prices == Values(seen + [it], "price_value");
    assert ship == Values(seen + [it], "shipping_value");
    assert sellerScores == Values(seen + [it], "seller_feedback");
    assert currencies == AccOf(seen + [it]).currencies;
    return Success(Acc(
      prices, ship, totals, sellerScores, missing, currencies,
      Counters.Inc(acc.byCondition, cond.value),
      Counters.Inc(acc.byCountry, ctry.value),
      Counters.Inc(acc.byCategory, cat.value)));
  }

  lemma ValuesStep(seen: seq<Json>, it: Json, k: string)
    ensures ToFloat(Field(it, k)).None? ==> Values(seen + [it], k) == Values(seen, k)
    ensures ToFloat(Field(it, k)).Some? ==> Values(seen + [it], k) == Values(seen, k) + [ToFloat(Field(it, k)).value]
  {
    SnocPrefix(seen, it);
    assert Values(seen, k) + [] == Values(seen, k);
  }

  lemma TotalsStep(seen: seq<Json>, it: Json, pv: Option<real>, sv: Option<real>)
    requires pv == ToFloat(Field(it, "price_value")) && sv == ToFloat(Field(it, "shipping_value"))
    ensures pv.None? && sv.None? ==> Totals(seen + [it]) == Totals(seen)
    ensures pv.Some? || sv.Some? ==> Totals(seen + [it]) == Totals(seen) + [OrZero(pv) + OrZero(sv)]
  {
    SnocPrefix(seen, it);
    assert Totals(seen + [it]) == Totals(seen) + TotalOf(pv, sv);
    assert Totals(seen) + [] == Totals(seen);
  }

  /** `AccOf` one item further, counter by counter. */
  lemma AccStep(seen: seq<Json>, it: Json)
    requires ItemOk(it)
    ensures var before, after := AccOf(seen), AccOf(seen + [it]);
      var cur := Label(CurrencyField(it), "").value;
      && after.missing == MissingStep(before.missing, it)
      && after.currencies == (if cur != [] then Counters.Inc(before.currencies, cur) else before.currencies)
      && after.byCondition == Counters.Inc(before.byCondition, Label(Field(it, "condition"), NoLabel).value)
      && after.byCountry == Counters.Inc(before.byCountry, Label(Field(it, "location_country"), NoLabel).value)
      && after.byCategory == Counters.Inc(before.byCategory, Label(Field(it, "category"), NoLabel).value)
  {
    SnocPrefix(seen, it);
    CurrencyStep(seen, it);
    GroupStep(seen, it, "condition");
    GroupStep(seen, it, "location_country");
    GroupStep(seen, it, "category");
  }

  lemma SnocPrefix(seen: seq<Json>, it: Json)
    ensures (seen + [it])[..|seen|] == seen && (seen + [it])[|seen|] == it
  {
  }

  lemma CurrencyStep(seen: seq<Json>, it: Json)
    requires Label(CurrencyField(it), "").Success?
    ensures var cur := Label(CurrencyField(it), "").value;
      Counters.Tally(CurrencyLabels(seen + [it]))
        == if cur != [] then Counters.Inc(Counters.Tally(CurrencyLabels(seen)), cur) else Counters.Tally(CurrencyLabels(seen))
  {
    SnocPrefix(seen, it);
    var cur := Label(CurrencyField(it), "").value;
    if cur != [] {
      Counters.TallySnoc(CurrencyLabels(seen), cur);
    } else {
      assert CurrencyLabels(seen + [it]) == CurrencyLabels(seen) + [];
      assert CurrencyLabels(seen) + [] == CurrencyLabels(seen);
    }
  }

  lemma GroupStep(seen: seq<Json>, it: Json, k: string)
    requires Label(Field(it, k), NoLabel).Success?
    ensures Counters.Tally(GroupLabels(seen + [it], k))
      == Counters.Inc(Counters.Tally(GroupLabels(seen, k)), Label(Field(it, k), NoLabel).value)
  {
    SnocPrefix(seen, it);
    Counters.TallySnoc(GroupLabels(seen, k), Label(Field(it, k), NoLabel).value);
  }

  /** The keys `missing` can hold. */
  const MissingKeys: seq<string> := ["price_value", "shipping_value", "total", "seller_feedback"]

  /** What one item adds to `missing` under key `k`. */
  lemma GetMissingUpdateAt(c: Counters.Counter, pv: Option<real>, sv: Option<real>, sf: Option<real>, k: string)
    ensures Counters.Get(MissingUpdate(c, pv, sv, sf), k) == Counters.Get(c, k)
      + (if k == "price_value" && pv.None? then 1 else 0)
      + (if k == "shipping_value" && sv.None? then 1 else 0)
      + (if k == "total" && pv.None? && sv.None? then 1 else 0)
      + (if k == "seller_feedback" && sf.None? then 1 else 0)
  {
    var c1 := if pv.None? then Counters.Inc(c, "price_value") else c;
    var c2 := if sv.None? then Counters.Inc(c1, "shipping_value") else c1;
    var c3 := if pv.None? && sv.None? then Counters.Inc(c2, "total") else c2;
    Counters.GetInc(c, "price_value", k);
    Counters.GetInc(c1, "shipping_value", k);
    Counters.GetInc(c2, "total", k);
    Counters.GetInc(c3, "seller_feedback", k);
  }

  /** What one item adds to `missing`: one for each of its absent numbers, and one for
    * `total` when both price and shipping are absent. */
  lemma GetMissingUpdate(c: Counters.Counter, pv: Option<real>, sv: Option<real>, sf: Option<real>)
    ensures Counters.Get(MissingUpdate(c, pv, sv, sf), "price_value") == Counters.Get(c, "price_value") + (if pv.None? then 1 else 0)
    ensures Counters.Get(MissingUpdate(c, pv, sv, sf), "shipping_value") == Counters.Get(c, "shipping_value") + (if sv.None? then 1 else 0)
    ensures Counters.Get(MissingUpdate(c, pv, sv, sf), "total") == Counters.Get(c, "total") + (if pv.None? && sv.None? then 1 else 0)
    ensures Counters.Get(MissingUpdate(c, pv, sv, sf), "seller_feedback") == Counters.Get(c, "seller_feedback") + (if sf.None? then 1 else 0)
    ensures forall k :: k !in MissingKeys ==> Counters.Get(MissingUpdate(c, pv, sv, sf), k) == Counters.Get(c, k)
  {
    assert |"price_value"| == 11 && |"shipping_value"| == 14 && |"total"| == 5 && |"seller_feedback"| == 15;
    GetMissingUpdateAt(c, pv, sv, sf, "price_value");
    GetMissingUpdateAt(c, pv, sv, sf, "shipping_value");
    GetMissingUpdateAt(c, pv, sv, sf, "total");
    GetMissingUpdateAt(c, pv, sv, sf, "seller_feedback");
    forall k | k !in MissingKeys
      ensures Counters.Get(MissingUpdate(c, pv, sv, sf), k) == Counters.Get(c, k)
    {
      GetMissingUpdateAt(c, pv, sv, sf, k);
    }
  }

  /** `missing` keeps its entries positive and its keys distinct. */
  lemma UpdateKeepsPositive(c: Counters.Counter, pv: Option<real>, sv: Option<real>, sf: Option<real>)
    requires Counters.DistinctKeys(c) && forall i :: 0 <= i < |c| ==> c[i].count >= 1
    ensures var d := MissingUpdate(c, pv, sv, sf);
      Counters.DistinctKeys(d) && forall i :: 0 <= i < |d| ==> d[i].count >= 1
  {
    var c1 := if pv.None? then Counters.Inc(c, "price_value") else c;
    var c2 := if sv.None? then Counters.Inc(c1, "shipping_value") else c1;
    var c3 := if pv.None? && sv.None? then Counters.Inc(c2, "total") else c2;
    Counters.IncKeepsPositive(c, "price_value");
    Counters.IncDistinct(c, "price_value");
    Counters.IncKeepsPositive(c1, "shipping_value");
    Counters.IncDistinct(c1, "shipping_value");
    Counters.IncKeepsPositive(c2, "total");
    Counters.IncDistinct(c2, "total");
    Counters.IncKeepsPositive(c3, "seller_feedback");
    Counters.IncDistinct(c3, "seller_feedback");
  }

  /** Each number is either collected or counted missing; `total` is missing exactly when both
    * price and shipping are, so it is missing at most as often as either and at least as often
    * as both together exceed the item count; no other key is ever counted. */
  lemma {:induction false} MissingCounts(items: seq<Json>)
    ensures Counters.Get(MissingOf(items), "price_value") + |Values(items, "price_value")| == |items|
    ensures Counters.Get(MissingOf(items), "shipping_value") + |Values(items, "shipping_value")| == |items|
    ensures Counters.Get(MissingOf(items), "seller_feedback") + |Values(items, "seller_feedback")| == |items|
    ensures Counters.Get(MissingOf(items), "total") + |Totals(items)| == |items|
    ensures Counters.Get(MissingOf(items), "total") <= Counters.Get(MissingOf(items), "price_value")
    ensures Counters.Get(MissingOf(items), "total") <= Counters.Get(MissingOf(items), "shipping_value")
    ensures Counters.Get(MissingOf(items), "price_value") + Counters.Get(MissingOf(items), "shipping_value")
      <= Counters.Get(MissingOf(items), "total") + |items|
    ensures forall k :: k !in MissingKeys ==> Counters.Get(MissingOf(items), k) == 0
  {
    if items != [] {
      var init, it := items[..|items| - 1], items[|items| - 1];
      MissingCounts(init);
      GetMissingUpdate(MissingOf(init), ToFloat(Field(it, "price_value")), ToFloat(Field(it, "shipping_value")), ToFloat(Field(it, "seller_feedback")));
    }
  }

  /** `missing` holds a key exactly when it counted it at least once, and each key once. */
  lemma {:induction false} MissingKeysCounted(items: seq<Json>)
    ensures Counters.DistinctKeys(MissingOf(items))
    ensures forall k :: k in Counters.Keys(MissingOf(items)) <==> Counters.Get(MissingOf(items), k) > 0
  {
    MissingPositive(items);
    Counters.KeysIffPositive(MissingOf(items));
  }

  lemma {:induction false} MissingPositive(items: seq<Json>)
    ensures Counters.DistinctKeys(MissingOf(items))
    ensures forall i :: 0 <= i < |MissingOf(items)| ==> MissingOf(items)[i].count >= 1
  {
    if items != [] {
      var init, it := items[..|items| - 1], items[|items| - 1];
      MissingPositive(init);
      UpdateKeepsPositive(MissingOf(init), ToFloat(Field(it, "price_value")), ToFloat(Field(it, "shipping_value")), ToFloat(Field(it, "seller_feedback")));
    }
  }

  /** The names of the three grouping fields. */
  predicate IsGroupField(k: string) {
    k == "condition" || k == "location_country" || k == "category"
  }

  /** When every item gets through, each one lands in exactly one group of each grouping,
    * so each group counter adds up to the number of items. */
  lemma {:induction false} GroupTotals(items: seq<Json>, k: string)
    requires IsGroupField(k)
    requires forall i :: 0 <= i < |items| ==> ItemOk(items[i])
    ensures |GroupLabels(items, k)| == |items|
    ensures Counters.Total(Counters.Tally(GroupLabels(items, k))) == |items|
  {
    if items != [] {
      var init := items[..|items| - 1];
      assert forall i :: 0 <= i < |init| ==> init[i] == items[i];
      GroupTotals(init, k);
      assert ItemOk(items[|items| - 1]);
    }
    Counters.TallyTotal(GroupLabels(items, k));
  }

  /** `currencies.most_common(1)[0][0] if currencies else ""` over the labels counted: empty
    * exactly when there are none, and otherwise a label occurring at least as often as any. */
  lemma {:induction false} CommonOf(labels: seq<string>)
    requires forall i :: 0 <= i < |labels| ==> labels[i] != []
    ensures CommonCurrency(Counters.Tally(labels)) == [] <==> labels == []
    ensures labels != [] ==> CommonCurrency(Counters.Tally(labels)) in labels
    ensures forall x :: x in labels ==> Counters.Occurrences(labels, x) <= Counters.Occurrences(labels, CommonCurrency(Counters.Tally(labels)))
  {
    if labels != [] {
      Counters.TallyTotal(labels);
      assert Counters.Tally(labels) != [];
      TopOfOne(labels);
    }
  }

  lemma TopOfOne(labels: seq<string>)
    requires Counters.Tally(labels) != []
    ensures var e := Counters.MostCommon(Counters.Tally(labels), 1)[0];
      && e.key in labels
      && forall x :: x in labels ==> Counters.Occurrences(labels, x) <= Counters.Occurrences(labels, e.key)
  {
    var top := Counters.MostCommon(Counters.Tally(labels), 1);
    Counters.MostCommonCounts(labels, 1);
    Counters.MostCommonMaximal(labels, 1);
    var e := top[0];
    assert Counters.Keys(top) == [e.key];
    assert Counters.Counts(top)[0] == e.count;
    forall x | x in labels
      ensures Counters.Occurrences(labels, x) <= Counters.Occurrences(labels, e.key)
    {
      if x != e.key {
        assert x !in Counters.Keys(top);
      }
    }
  }

  /** `currency_most_common` is empty exactly when no item has a currency, and otherwise is a
    * currency that occurs at least as often as any other. */
  lemma CommonCurrencyFacts(items: seq<Json>)
    ensures CommonCurrency(Counters.Tally(CurrencyLabels(items))) == [] <==> CurrencyLabels(items) == []
    ensures CurrencyLabels(items) != [] ==> CommonCurrency(Counters.Tally(CurrencyLabels(items))) in CurrencyLabels(items)
    ensures forall x :: x in CurrencyLabels(items) ==>
      Counters.Occurrences(CurrencyLabels(items), x) <= Counters.Occurrences(CurrencyLabels(items), CommonCurrency(Counters.Tally(CurrencyLabels(items))))
  {
    CommonOf(CurrencyLabels(items));
  }

  /** The summary's counts agree with each other: every item is either counted in a
    * statistic or counted missing for it, and each histogram holds every value of its
    * statistic. */
  lemma AnalyticsFacts(items: seq<Json>)
    ensures var a := AnalyticsOf(items);
      && a.countItems == |items|
      && a.price.count + Counters.Get(a.missing, "price_value") == a.countItems
      && a.shipping.count + Counters.Get(a.missing, "shipping_value") == a.countItems
      && a.total.count + Counters.Get(a.missing, "total") == a.countItems
      && a.sellerFeedback.count + Counters.Get(a.missing, "seller_feedback") == a.countItems
      && Histogram.Total(Histogram.Counts(a.histPrice)) == a.price.count
      && Histogram.Total(Histogram.Counts(a.histTotal)) == a.total.count
  {
    MissingCounts(items);
    var acc := AccOf(items);
    Histogram.HistogramOfTotal(acc.prices, HistogramBins);
    Histogram.HistogramOfTotal(acc.totals, HistogramBins);
  }
}
