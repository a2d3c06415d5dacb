/** The eBay payload normalisers: the path lookup `_get` and `normalize_item_summary`,
  * `normalize_search_response` and `normalize_item_details`. */
module Transform {
  import opened Wrappers
  import opened JsonValues

  /** One step of a `_get` path: an `int` indexes a list, anything else keys a dict. */
  datatype Step = Index(i: int) | Key(k: string)

  /** Where a walk along a path ends: at a value, at a step that does not apply (so `_get`
    * answers its default), or at Python's `IndexError` for a negative index past the front. */
  datatype Walk = Found(node: Json) | NotFound | Raised(error: Error)

  /** The walk `_get` performs. A non-negative index at or past the end, or an index into a
    * non-list, ends it; so does a missing key or a key into a non-dict. A negative index is
    * not guarded: it counts from the end, and raises when it reaches before the front. */
  function WalkPath(cur: Json, path: seq<Step>): (w: Walk)
    ensures path == [] ==> w == Found(cur)
    ensures w.Raised? ==> w.error == IndexError && path != []
    decreases |path|
  {
    if path == [] then Found(cur)
    else match path[0]
      case Index(i) =>
        if !cur.List? || i >= |cur.elems| then NotFound
        else if i >= 0 then WalkPath(cur.elems[i], path[1..])
        else if i >= -|cur.elems| then WalkPath(cur.elems[|cur.elems| + i], path[1..])
        else Raised(IndexError)
      case Key(k) =>
        if !cur.Dict? || k !in cur.fields then NotFound
        else WalkPath(cur.fields[k], path[1..])
  }

  /** What `_get(cur, path, default)` returns. */
  function GetPath(cur: Json, path: seq<Step>, default: Json): (r: Result<Json>)
    ensures path == [] ==> r == Success(cur)
    ensures r.Failure? ==> r.error == IndexError
  {
    match WalkPath(cur, path)
    case Found(x) => Success(x)
    case NotFound => Success(default)
    case Raised(e) => Failure(e)
  }

  /** The step of `_get` from `cur` along `s`. */
  function Descend(cur: Json, s: Step): Walk {
    WalkPath(cur, [s])
  }

  /** `_get(cur, path, default)`: walks the path one step at a time, returning the default as
    * soon as a step does not apply. */
  method Get(cur: Json, path: seq<Step>, default: Json) returns (r: Result<Json>)
    ensures r == GetPath(cur, path, default)
  {
    var node := cur;
    var j := 0;
    while j < |path|
      invariant j <= |path|
      invariant WalkPath(cur, path) == WalkPath(node, path[j..])
    {
      assert path[j..][1..] == path[j + 1..];
      var step := path[j];
      if step.Index? {
        var i := step.i;
        if !node.List? || i >= |node.elems| {
          return Success(default);
        }
        if i < -|node.elems| {
          return Failure(IndexError);
        }
        node := if i >= 0 then node.elems[i] else node.elems[|node.elems| + i];
      } else {
        if !node.Dict? || step.k !in node.fields {
          return Success(default);
        }
        node := node.fields[step.k];
      }
      j := j + 1;
    }
    return Success(node);
  }

  /** A walk along `p + q` is the walk along `p` followed, if it found a value, by the walk
    * along `q` from there. */
  lemma {:induction false} WalkConcat(cur: Json, p: seq<Step>, q: seq<Step>)
    ensures WalkPath(cur, p + q) == match WalkPath(cur, p)
      case Found(x) => WalkPath(x, q)
      case other => other
  {
    if p != [] {
      assert (p + q)[1..] == p[1..] + q;
      match p[0]
      case Index(i) => {
        if cur.List? && -|cur.elems| <= i < |cur.elems| {
          WalkConcat(if i >= 0 then cur.elems[i] else cur.elems[|cur.elems| + i], p[1..], q);
        }
      }
      case Key(k) => {
        if cur.Dict? && k in cur.fields {
          WalkConcat(cur.fields[k], p[1..], q);
        }
      }
    } else {
      assert p + q == q;
    }
  }

  /** Each step descends one level: once `p` has led to `x`, the next step yields the child of
    * `x` it names, and the default when it names none (an index into a non-list or at or past
    * the end, a key into a non-dict or not in it). */
  lemma StepAfterPath(cur: Json, p: seq<Step>, s: Step, default: Json)
    requires WalkPath(cur, p).Found?
    ensures var x := WalkPath(cur, p).node;
      && (s.Index? && x.List? && 0 <= s.i < |x.elems| ==> GetPath(cur, p + [s], default) == Success(x.elems[s.i]))
      && (s.Index? && (!x.List? || s.i >= |x.elems|) ==> GetPath(cur, p + [s], default) == Success(default))
      && (s.Index? && x.List? && s.i < -|x.elems| ==> GetPath(cur, p + [s], default) == Failure(IndexError))
      && (s.Key? && x.Dict? && s.k in x.fields ==> GetPath(cur, p + [s], default) == Success(x.fields[s.k]))
      && (s.Key? && (!x.Dict? || s.k !in x.fields) ==> GetPath(cur, p + [s], default) == Success(default))
  {
    WalkConcat(cur, p, [s]);
  }

  /** A path without negative indices never raises: `_get` answers a value or its default. */
  lemma {:induction false} NonNegativePathSafe(cur: Json, path: seq<Step>)
    requires forall k :: 0 <= k < |path| && path[k].Index? ==> path[k].i >= 0
    ensures !WalkPath(cur, path).Raised?
  {
    if path != [] {
      assert forall k :: 0 <= k < |path| - 1 && path[1..][k].Index? ==> path[1..][k].i >= 0 by {
        forall k | 0 <= k < |path| - 1 ensures path[1..][k] == path[k + 1] { }
      }
      match path[0]
      case Index(i) => {
        if cur.List? && 0 <= i < |cur.elems| {
          NonNegativePathSafe(cur.elems[i], path[1..]);
        }
      }
      case Key(k) => {
        if cur.Dict? && k in cur.fields {
          NonNegativePathSafe(cur.fields[k], path[1..]);
        }
      }
    }
  }

  /** `_get(item, path)` for the fixed paths of the normalisers, which hold no negative index:
    * the value found, or `None`. */
  function Lookup(item: map<string, Json>, path: seq<Step>): Json {
    match WalkPath(Dict(item), path)
    case Found(x) => x
    case _ => Null
  }

  /** The flat record `normalize_item_summary` builds. */
  datatype ItemSummary = ItemSummary(
    itemId: Json,
    title: Json,
    category: Json,
    categoryId: Json,
    condition: Json,
    priceValue: Json,
    priceCurrency: Json,
    shippingValue: Json,
    shippingCurrency: Json,
    sellerFeedback: Json,
    webUrl: Json,
    itemHref: Json,
    locationCountry: Json)

  /** `normalize_item_summary(item)`: each field read by `_get` along a fixed path. The category
    * id is the first category's `categoryId` when truthy, else the first leaf category id;
    * shipping comes from the first shipping option. */
  function NormalizeItemSummary(item: map<string, Json>): (s: ItemSummary)
    ensures var cat := Lookup(item, [Key("categories"), Index(0), Key("categoryId")]);
      s.categoryId == if Truthy(cat) then cat else Lookup(item, [Key("leafCategoryIds"), Index(0)])
  {
    ItemSummary(
      GetKey(item, "itemId", Null),
      GetKey(item, "title", Null),
      Lookup(item, [Key("categories"), Index(0), Key("categoryName")]),
      Or(Lookup(item, [Key("categories"), Index(0), Key("categoryId")]), Lookup(item, [Key("leafCategoryIds"), Index(0)])),
      GetKey(item, "condition", Null),
      Lookup(item, [Key("price"), Key("value")]),
      Lookup(item, [Key("price"), Key("currency")]),
      Lookup(item, [Key("shippingOptions"), Index(0), Key("shippingCost"), Key("value")]),
      Lookup(item, [Key("shippingOptions"), Index(0), Key("shippingCost"), Key("currency")]),
      Lookup(item, [Key("seller"), Key("feedbackScore")]),
      GetKey(item, "itemWebUrl", Null),
      GetKey(item, "itemHref", Null),
      Lookup(item, [Key("itemLocation"), Key("country")]))
  }

  /** The shipping fields are read from the first shipping option's cost, and only from it. */
  lemma ShippingFromFirstOption(item: map<string, Json>, cost: map<string, Json>)
    requires "shippingOptions" in item && item["shippingOptions"].List? && item["shippingOptions"].elems != []
    requires var first := item["shippingOptions"].elems[0];
      first.Dict? && "shippingCost" in first.fields && first.fields["shippingCost"] == Dict(cost)
    ensures NormalizeItemSummary(item).shippingValue == GetKey(cost, "value", Null)
    ensures NormalizeItemSummary(item).shippingCurrency == GetKey(cost, "currency", Null)
  {
    var pre := [Key("shippingOptions"), Index(0), Key("shippingCost")];
    assert WalkPath(Dict(cost), [Key("value")]) == (if "value" in cost then Found(cost["value"]) else NotFound);
    assert WalkPath(Dict(cost), [Key("currency")]) == (if "currency" in cost then Found(cost["currency"]) else NotFound);
    WalkConcat(Dict(item), pre, [Key("value")]);
    WalkConcat(Dict(item), pre, [Key("currency")]);
    assert pre + [Key("value")] == [Key("shippingOptions"), Index(0), Key("shippingCost"), Key("value")];
    assert pre + [Key("currency")] == [Key("shippingOptions"), Index(0), Key("shippingCost"), Key("currency")];
  }

  /** The dict entries of a list, in order (`[i for i in items if isinstance(i, dict)]`). */
  function Dicts(elems: seq<Json>): (ds: seq<map<string, Json>>)
    ensures |ds| <= |elems|
  {
    if elems == [] then []
    else Dicts(elems[..|elems| - 1]) + (if elems[|elems| - 1].Dict? then [elems[|elems| - 1].fields] else [])
  }

  /** `Dicts` keeps every dict of the list, keeps nothing else, and keeps their order: it
    * distributes over concatenation. */
  lemma {:induction false} DictsConcat(a: seq<Json>, b: seq<Json>)
    ensures Dicts(a + b) == Dicts(a) + Dicts(b)
  {
    if b == [] {
      assert a + b == a;
    } else {
      DictsConcat(a, b[..|b| - 1]);
      assert (a + b)[..|a + b| - 1] == a + b[..|b| - 1];
    }
  }

  lemma {:induction false} DictsMembers(elems: seq<Json>)
    ensures forall d :: d in Dicts(elems) <==> Dict(d) in elems
  {
    if elems != [] {
      var init, x := elems[..|elems| - 1], elems[|elems| - 1];
      DictsMembers(init);
      assert elems == init + [x];
    }
  }

  function NormalizeAll(ds: seq<map<string, Json>>): (ns: seq<ItemSummary>)
    ensures |ns| == |ds| && forall k :: 0 <= k < |ds| ==> ns[k] == NormalizeItemSummary(ds[k])
  {
    if ds == [] then [] else [NormalizeItemSummary(ds[0])] + NormalizeAll(ds[1..])
  }

  /** The answer of `normalize_search_response`. */
  datatype SearchResponse = SearchResponse(total: Json, limit: Json, offset: Json, next: Json, href: Json, items: seq<ItemSummary>)

  /** `normalize_search_response(payload)`: the dict entries of `itemSummaries`, normalised in
    * order. A falsy `itemSummaries` gives no items; iterating a string or a dict yields no
    * dicts; a truthy number is not iterable (`TypeError`). `total` and `offset` default to 0,
    * `limit` to the number of items. */
  function NormalizeSearchResponse(payload: map<string, Json>): (r: Result<SearchResponse>)
    ensures var items := GetKey(payload, "itemSummaries", Null);
      && (r.Failure? <==> Truthy(items) && (items.Int? || items.Float? || items.Bool?))
      && (r.Success? ==>
            && r.value.items == NormalizeAll(if Truthy(items) && items.List? then Dicts(items.elems) else [])
            && r.value.total == GetKey(payload, "total", Int(0))
            && r.value.offset == GetKey(payload, "offset", Int(0))
            && r.value.limit == GetKey(payload, "limit", Int(|r.value.items|)))
  {
    var items := Or(GetKey(payload, "itemSummaries", Null), List([]));
    var dicts := if items.List? then Dicts(items.elems) else [];
    if items.Int? || items.Float? || items.Bool? then Failure(TypeError)
    else
      var norm := NormalizeAll(dicts);
      Success(SearchResponse(
        GetKey(payload, "total", Int(0)),
        GetKey(payload, "limit", Int(|norm|)),
        GetKey(payload, "offset", Int(0)),
        GetKey(payload, "next", Null),
        GetKey(payload, "href", Null),
        norm))
  }

  /** The `"name: value"` strings of the aspect entries that are dicts with a truthy name and
    * a truthy value, in order. */
  function Aspects(elems: seq<Json>, render: Json -> string): seq<string> {
    if elems == [] then []
    else
      var a := elems[|elems| - 1];
      Aspects(elems[..|elems| - 1], render)
        + (if a.Dict? && Truthy(GetKey(a.fields, "name", Null)) && Truthy(GetKey(a.fields, "value", Null))
           then [Display(GetKey(a.fields, "name", Null), render) + ": " + Display(GetKey(a.fields, "value", Null), render)]
           else [])
  }

  /** An entry qualifies when it is a dict whose name and value are both truthy. */
  predicate IsAspect(a: Json) {
    a.Dict? && Truthy(GetKey(a.fields, "name", Null)) && Truthy(GetKey(a.fields, "value", Null))
  }

  function AspectCount(elems: seq<Json>): nat {
    if elems == [] then 0 else AspectCount(elems[..|elems| - 1]) + (if IsAspect(elems[|elems| - 1]) then 1 else 0)
  }

  /** One string per qualifying entry, and the strings of a concatenation are the
    * concatenated strings. */
  lemma {:induction false} AspectsConcat(a: seq<Json>, b: seq<Json>, render: Json -> string)
    ensures Aspects(a + b, render) == Aspects(a, render) + Aspects(b, render)
    ensures |Aspects(a, render)| == AspectCount(a)
  {
    if b == [] {
      assert a + b == a;
    } else {
      AspectsConcat(a, b[..|b| - 1], render);
      assert (a + b)[..|a + b| - 1] == a + b[..|b| - 1];
    }
    if a != [] {
      AspectsConcat(a[..|a| - 1], [], render);
    }
  }

  /** The answer of `normalize_item_details`. */
  datatype ItemDetails = ItemDetails(itemId: Json, shortDescription: Json, description: Json, aspects: seq<string>)

  /** `description` after the dict case: its `text`, else its `content`, else `str(desc)`. */
  function Description(desc: Json, render: Json -> string): (d: Json)
    ensures !desc.Dict? ==> d == desc
    ensures desc.Dict? && Truthy(GetKey(desc.fields, "text", Null)) ==> d == desc.fields["text"]
    ensures desc.Dict? && !Truthy(GetKey(desc.fields, "text", Null)) && Truthy(GetKey(desc.fields, "content", Null)) ==>
      d == desc.fields["content"]
    ensures desc.Dict? && !Truthy(GetKey(desc.fields, "text", Null)) && !Truthy(GetKey(desc.fields, "content", Null)) ==>
      d == Str(render(desc))
  {
    if desc.Dict? then
      Or(Or(GetKey(desc.fields, "text", Null), GetKey(desc.fields, "content", Null)), Str(render(desc)))
    else desc
  }

  /** `normalize_item_details(payload)`; `render` is `str()` on a non-string. */
  method NormalizeItemDetails(payload: map<string, Json>, render: Json -> string) returns (d: ItemDetails)
    ensures d.itemId == GetKey(payload, "itemId", Null)
    ensures d.shortDescription == GetKey(payload, "shortDescription", Null)
    ensures d.description == Description(GetKey(payload, "description", Null), render)
    ensures var aspects := Or(GetKey(payload, "localizedAspects", Null), List([]));
      d.aspects == if aspects.List? then Aspects(aspects.elems, render) else []
  {
    var shortDesc := GetKey(payload, "shortDescription", Null);
    var desc := GetKey(payload, "description", Null);
    if desc.Dict? {
      desc := Or(Or(GetKey(desc.fields, "text", Null), GetKey(desc.fields, "content", Null)), Str(render(desc)));
    }
    var aspects := Or(GetKey(payload, "localizedAspects", Null), List([]));
    var aspectsKv: seq<string> := [];
    if aspects.List? {
      var j := 0;
      while j < |aspects.elems|
        invariant j <= |aspects.elems|
        invariant aspectsKv == Aspects(aspects.elems[..j], render)
      {
        assert aspects.elems[..j + 1][..j] == aspects.elems[..j];
        var a := aspects.elems[j];
        if a.Dict? {
          var n := GetKey(a.fields, "name", Null);
          var v := GetKey(a.fields, "value", Null);
          if Truthy(n) && Truthy(v) {
            aspectsKv := aspectsKv + [Display(n, render) + ": " + Display(v, render)];
          }
        }
        j := j + 1;
      }
      assert aspects.elems[..j] == aspects.elems;
    }
    return ItemDetails(GetKey(payload, "itemId", Null), shortDesc, desc, aspectsKv);
  }
}
