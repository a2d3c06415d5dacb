/** Python's `collections.Counter` as used by the scans and the item analytics: a sequence
  * of (key, count) entries in first-insertion order, and `most_common(n)`. */
module Counters {

  datatype Entry = Entry(key: string, count: nat)

  /** A counter: its entries in the order their keys were first inserted. */
  type Counter = seq<Entry>

  predicate DistinctKeys(c: Counter) {
    forall i, j :: 0 <= i < j < |c| ==> c[i].key != c[j].key
  }

  function Keys(c: Counter): (ks: seq<string>)
    ensures |ks| == |c| && forall i :: 0 <= i < |c| ==> ks[i] == c[i].key
  {
    if c == [] then [] else [c[0].key] + Keys(c[1..])
  }

  /** `counter[k]`: the count stored under `k`, 0 when `k` was never inserted. */
  function Get(c: Counter, k: string): nat {
    if c == [] then 0 else if c[0].key == k then c[0].count else Get(c[1..], k)
  }

  /** `counter[k] += 1`: bumps the entry of `k`, or appends `(k, 1)` when `k` is new. */
  function Inc(c: Counter, k: string): (r: Counter)
    ensures k in Keys(c) ==> |r| == |c|
    ensures k !in Keys(c) ==> r == c + [Entry(k, 1)]
    ensures forall i :: 0 <= i < |c| ==> r[i].key == c[i].key
  {
    if c == [] then [Entry(k, 1)]
    else if c[0].key == k then [Entry(k, c[0].count + 1)] + c[1..]
    else [c[0]] + Inc(c[1..], k)
  }

  /** The sum of all counts (`sum(counter.values())`). */
  function Total(c: Counter): nat {
    if c == [] then 0 else c[0].count + Total(c[1..])
  }

  /** Number of times `k` occurs in `xs`. */
  function Occurrences(xs: seq<string>, k: string): (n: nat)
    ensures n <= |xs|
  {
    if xs == [] then 0 else Occurrences(xs[..|xs| - 1], k) + (if xs[|xs| - 1] == k then 1 else 0)
  }

  /** Index of the first occurrence of `k` in `xs`. */
  function FirstIndex(xs: seq<string>, k: string): (i: nat)
    requires k in xs
    ensures i < |xs| && xs[i] == k && k !in xs[..i]
  {
    if xs[0] == k then 0 else 1 + FirstIndex(xs[1..], k)
  }

  /** The counter that `cnt[x] += 1` for each `x` of `xs`, in order, builds from an empty one. */
  function Tally(xs: seq<string>): Counter {
    if xs == [] then [] else Inc(Tally(xs[..|xs| - 1]), xs[|xs| - 1])
  }

  /** Counting one more value is one more `Inc`. */
  lemma TallySnoc(xs: seq<string>, x: string)
    ensures Tally(xs + [x]) == Inc(Tally(xs), x)
  {
    assert (xs + [x])[..|xs|] == xs;
  }

  lemma {:induction false} GetInc(c: Counter, k: string, x: string)
    ensures Get(Inc(c, k), x) == Get(c, x) + (if x == k then 1 else 0)
  {
    if c != [] && c[0].key != k {
      GetInc(c[1..], k, x);
    }
  }

  lemma {:induction false} TotalInc(c: Counter, k: string)
    ensures Total(Inc(c, k)) == Total(c) + 1
  {
    if c == [] {
      assert Total([Entry(k, 1)]) == 1 + Total([]);
    } else if c[0].key == k {
      assert Inc(c, k)[1..] == c[1..];
    } else {
      TotalInc(c[1..], k);
      assert Inc(c, k)[1..] == Inc(c[1..], k);
    }
  }

  lemma {:induction false} KeysAppend(c: Counter, e: Entry)
    ensures Keys(c + [e]) == Keys(c) + [e.key]
  {
    if c != [] {
      assert (c + [e])[1..] == c[1..] + [e];
      KeysAppend(c[1..], e);
    }
  }

  lemma {:induction false} IncDistinct(c: Counter, k: string)
    requires DistinctKeys(c)
    ensures DistinctKeys(Inc(c, k))
  {
    if k !in Keys(c) {
      assert forall i :: 0 <= i < |c| ==> c[i].key != k;
    }
  }

  lemma {:induction false} KeysInc(c: Counter, k: string)
    ensures forall x :: x in Keys(Inc(c, k)) <==> x in Keys(c) || x == k
  {
    if k in Keys(c) {
      var i :| 0 <= i < |c| && c[i].key == k;
      assert Inc(c, k)[i].key == k;
    } else {
      KeysAppend(c, Entry(k, 1));
    }
  }

  /** A tally holds each key once. */
  lemma {:induction false} TallyDistinct(xs: seq<string>)
    ensures DistinctKeys(Tally(xs))
  {
    if xs != [] {
      TallyDistinct(xs[..|xs| - 1]);
      IncDistinct(Tally(xs[..|xs| - 1]), xs[|xs| - 1]);
    }
  }

  /** A tally stores under each key the number of times the key occurs. */
  lemma {:induction false} TallyGet(xs: seq<string>, k: string)
    ensures Get(Tally(xs), k) == Occurrences(xs, k)
  {
    if xs != [] {
      TallyGet(xs[..|xs| - 1], k);
      GetInc(Tally(xs[..|xs| - 1]), xs[|xs| - 1], k);
    }
  }

  /** A tally stores exactly the keys that occur. */
  lemma {:induction false} TallyKeys(xs: seq<string>)
    ensures forall k :: k in Keys(Tally(xs)) <==> k in xs
  {
    if xs != [] {
      var init, x := xs[..|xs| - 1], xs[|xs| - 1];
      TallyKeys(init);
      KeysInc(Tally(init), x);
      assert xs == init + [x];
    }
  }

  /** Every count in a tally is at least 1, and the counts add up to the number of values. */
  lemma {:induction false} TallyTotal(xs: seq<string>)
    ensures forall i :: 0 <= i < |Tally(xs)| ==> Tally(xs)[i].count >= 1
    ensures Total(Tally(xs)) == |xs|
  {
    if xs != [] {
      TallyTotal(xs[..|xs| - 1]);
      TotalInc(Tally(xs[..|xs| - 1]), xs[|xs| - 1]);
      IncKeepsPositive(Tally(xs[..|xs| - 1]), xs[|xs| - 1]);
    }
  }

  lemma {:induction false} IncKeepsPositive(c: Counter, k: string)
    requires forall i :: 0 <= i < |c| ==> c[i].count >= 1
    ensures forall i :: 0 <= i < |Inc(c, k)| ==> Inc(c, k)[i].count >= 1
  {
    if c != [] && c[0].key != k {
      IncKeepsPositive(c[1..], k);
    }
  }

  /** `k` occurs in `xs` exactly when it is counted at least once. */
  lemma {:induction false} OccurrencesPositive(xs: seq<string>, k: string)
    ensures Occurrences(xs, k) > 0 <==> k in xs
  {
    if xs != [] {
      OccurrencesPositive(xs[..|xs| - 1], k);
      assert xs == xs[..|xs| - 1] + [xs[|xs| - 1]];
    }
  }

  /** In a counter whose counts are all positive, the stored keys are those with a positive
    * `counter[k]`. */
  lemma {:induction false} KeysIffPositive(c: Counter)
    requires forall i :: 0 <= i < |c| ==> c[i].count >= 1
    ensures forall k :: k in Keys(c) <==> Get(c, k) > 0
  {
    if c != [] {
      KeysIffPositive(c[1..]);
      forall k ensures k in Keys(c) <==> Get(c, k) > 0 {
        assert Keys(c) == [c[0].key] + Keys(c[1..]);
      }
    }
  }

  /** Every key of a tally occurs in the values counted. */
  lemma TallyKeysOccur(xs: seq<string>)
    ensures forall i :: 0 <= i < |Tally(xs)| ==> Tally(xs)[i].key in xs
  {
    TallyKeys(xs);
    forall i | 0 <= i < |Tally(xs)| ensures Tally(xs)[i].key in xs {
      assert Keys(Tally(xs))[i] == Tally(xs)[i].key;
    }
  }

  /** Keys enter a tally in the order of their first occurrence. */
  lemma {:induction false} TallyFirstSeen(xs: seq<string>)
    ensures forall i, j :: 0 <= i < j < |Tally(xs)| ==>
      Tally(xs)[i].key in xs && Tally(xs)[j].key in xs &&
      FirstIndex(xs, Tally(xs)[i].key) < FirstIndex(xs, Tally(xs)[j].key)
  {
    if xs != [] {
      var init, x := xs[..|xs| - 1], xs[|xs| - 1];
      TallyFirstSeen(init);
      TallyKeys(init);
      TallyKeysOccur(init);
      assert xs == init + [x];
      assert Tally(xs) == Inc(Tally(init), x);
      FirstSeenInc(init, x, Tally(init));
    } else {
      assert Tally(xs) == [];
    }
  }

  /** Counting one more value keeps the keys in first-occurrence order. */
  lemma FirstSeenInc(init: seq<string>, x: string, c: Counter)
    requires forall k :: k in Keys(c) <==> k in init
    requires forall i :: 0 <= i < |c| ==> c[i].key in init
    requires forall i, j :: 0 <= i < j < |c| ==>
      c[i].key in init && c[j].key in init && FirstIndex(init, c[i].key) < FirstIndex(init, c[j].key)
    ensures var t, xs := Inc(c, x), init + [x];
      forall i, j :: 0 <= i < j < |t| ==>
        t[i].key in xs && t[j].key in xs && FirstIndex(xs, t[i].key) < FirstIndex(xs, t[j].key)
  {
    var t, xs := Inc(c, x), init + [x];
    forall i | 0 <= i < |c| ensures t[i].key == c[i].key && c[i].key in xs && FirstIndex(xs, c[i].key) == FirstIndex(init, c[i].key) {
      FirstIndexAppend(init, x, c[i].key);
    }
    if x !in Keys(c) {
      FirstIndexLast(init, x);
      assert t == c + [Entry(x, 1)];
    }
    forall i, j | 0 <= i < j < |t| ensures t[i].key in xs && t[j].key in xs && FirstIndex(xs, t[i].key) < FirstIndex(xs, t[j].key) {
      if j == |c| {
        assert FirstIndex(init, c[i].key) < |init|;
      }
    }
  }

  lemma {:induction false} FirstIndexAppend(xs: seq<string>, x: string, k: string)
    requires k in xs
    ensures k in xs + [x] && FirstIndex(xs + [x], k) == FirstIndex(xs, k)
  {
    if xs[0] != k {
      assert (xs + [x])[1..] == xs[1..] + [x];
      FirstIndexAppend(xs[1..], x, k);
    }
  }

  lemma {:induction false} FirstIndexLast(xs: seq<string>, x: string)
    requires x !in xs
    ensures x in xs + [x] && FirstIndex(xs + [x], x) == |xs|
  {
    if xs != [] {
      assert (xs + [x])[1..] == xs[1..] + [x];
      FirstIndexLast(xs[1..], x);
    }
  }

  /** Counts never increase along the sequence. */
  predicate NonIncreasing(s: seq<Entry>) {
    forall i, j :: 0 <= i < j < |s| ==> s[i].count >= s[j].count
  }

  /** The entries whose count is `k`, in their order in `s`. */
  function WithCount(s: seq<Entry>, k: nat): seq<Entry> {
    if s == [] then [] else (if s[0].count == k then [s[0]] else []) + WithCount(s[1..], k)
  }

  /** Places `e` after every entry with a larger count and before the rest. */
  function Insert(e: Entry, s: seq<Entry>): (r: seq<Entry>)
    ensures |r| == |s| + 1
    ensures multiset(r) == multiset(s) + multiset{e}
  {
    if s == [] || s[0].count <= e.count then [e] + s
    else
      assert s == [s[0]] + s[1..];
      [s[0]] + Insert(e, s[1..])
  }

  lemma {:induction false} InsertSorted(e: Entry, s: seq<Entry>)
    requires NonIncreasing(s)
    ensures NonIncreasing(Insert(e, s))
  {
    if s == [] || s[0].count <= e.count {
    } else {
      var rest := Insert(e, s[1..]);
      InsertSorted(e, s[1..]);
      forall j | 0 <= j < |rest| ensures s[0].count >= rest[j].count {
        assert rest[j] in multiset(rest);
        assert rest[j] in multiset(s[1..]) + multiset{e};
        if rest[j] != e {
          assert rest[j] in multiset(s[1..]);
          var k :| 0 <= k < |s[1..]| && s[1..][k] == rest[j];
          assert s[k + 1] == rest[j];
        }
      }
      assert Insert(e, s) == [s[0]] + rest;
    }
  }

  /** `sorted(entries, key=count, reverse=True)`: a stable sort by descending count. */
  function SortByCount(c: seq<Entry>): (r: seq<Entry>)
    ensures |r| == |c|
    ensures multiset(r) == multiset(c)
    ensures NonIncreasing(r)
  {
    if c == [] then []
    else
      assert c == [c[0]] + c[1..];
      var rest := SortByCount(c[1..]);
      InsertSorted(c[0], rest);
      Insert(c[0], rest)
  }

  lemma {:induction false} WithCountInsert(e: Entry, s: seq<Entry>, k: nat)
    ensures WithCount(Insert(e, s), k) == (if e.count == k then [e] else []) + WithCount(s, k)
  {
    if s == [] || s[0].count <= e.count {
      assert ([e] + s)[1..] == s;
    } else {
      WithCountInsert(e, s[1..], k);
      assert ([s[0]] + Insert(e, s[1..]))[1..] == Insert(e, s[1..]);
    }
  }

  /** The sort is stable: for every count, the entries with that count keep their order. */
  lemma {:induction false} SortByCountStable(c: seq<Entry>, k: nat)
    ensures WithCount(SortByCount(c), k) == WithCount(c, k)
  {
    if c != [] {
      SortByCountStable(c[1..], k);
      WithCountInsert(c[0], SortByCount(c[1..]), k);
    }
  }

  lemma {:induction false} WithCountPrefix(s: seq<Entry>, n: nat, k: nat)
    requires n <= |s|
    ensures WithCount(s[..n], k) <= WithCount(s, k)
  {
    if n > 0 {
      assert s[..n][1..] == s[1..][..n - 1];
      WithCountPrefix(s[1..], n - 1, k);
    }
  }

  /** The first `m` entries of a sequence sorted by descending count have the largest counts. */
  lemma PrefixOfSorted(sorted: seq<Entry>, m: nat)
    requires NonIncreasing(sorted) && m <= |sorted|
    ensures multiset(sorted[..m]) <= multiset(sorted)
    ensures forall e, i :: e in sorted && e !in sorted[..m] && 0 <= i < m ==> e.count <= sorted[i].count
  {
    assert sorted == sorted[..m] + sorted[m..];
    forall e, i | e in sorted && e !in sorted[..m] && 0 <= i < m ensures e.count <= sorted[i].count {
      var j :| 0 <= j < |sorted| && sorted[j] == e;
    }
  }

  /** Cutting a stable descending sort keeps, for every count, a prefix of the entries with
    * that count in their original order. */
  lemma PrefixOfSortedStable(c: seq<Entry>, m: nat)
    requires m <= |c|
    ensures forall k :: WithCount(SortByCount(c)[..m], k) <= WithCount(c, k)
  {
    forall k ensures WithCount(SortByCount(c)[..m], k) <= WithCount(c, k) {
      WithCountPrefix(SortByCount(c), m, k);
      SortByCountStable(c, k);
    }
  }

  lemma SameElements(c: seq<Entry>, d: seq<Entry>)
    requires multiset(c) == multiset(d)
    ensures forall e :: e in c <==> e in d
  {
    forall e ensures e in c <==> e in d {
      assert e in c <==> e in multiset(c);
      assert e in d <==> e in multiset(d);
    }
  }

  /** `counter.most_common(n)`: the entries by descending count, ties in insertion order, cut
    * to the first `n`; `[]` when `n <= 0` (as `heapq.nlargest` gives). */
  function MostCommon(c: Counter, n: int): (r: seq<Entry>)
    ensures |r| == if n <= 0 then 0 else if n < |c| then n else |c|
    ensures NonIncreasing(r)
    ensures multiset(r) <= multiset(c)
    ensures forall k :: WithCount(r, k) <= WithCount(c, k)
    ensures forall e, i :: e in c && e !in r && 0 <= i < |r| ==> e.count <= r[i].count
  {
    if n <= 0 then []
    else
      var m := if n < |c| then n else |c|;
      TakeSorted(c, m);
      SortByCount(c)[..m]
  }

  /** The first `m` entries of the stable sort by descending count. */
  lemma TakeSorted(c: Counter, m: nat)
    requires m <= |c|
    ensures var r := SortByCount(c)[..m];
      && NonIncreasing(r)
      && multiset(r) <= multiset(c)
      && (forall k :: WithCount(r, k) <= WithCount(c, k))
      && (forall e, i :: e in c && e !in r && 0 <= i < |r| ==> e.count <= r[i].count)
  {
    var sorted := SortByCount(c);
    PrefixOfSorted(sorted, m);
    PrefixOfSortedStable(c, m);
    SameElements(c, sorted);
  }

  lemma {:induction false} GetOfDistinct(c: Counter, p: nat)
    requires DistinctKeys(c) && p < |c|
    ensures Get(c, c[p].key) == c[p].count
  {
    if p > 0 {
      assert c[0].key != c[p].key;
      assert c[1..][p - 1] == c[p];
      GetOfDistinct(c[1..], p - 1);
    }
  }

  lemma {:induction false} DistinctOnce(c: Counter, e: Entry)
    requires DistinctKeys(c)
    ensures multiset(c)[e] <= 1
  {
    if c != [] {
      assert c == [c[0]] + c[1..];
      DistinctOnce(c[1..], e);
      if c[0] == e {
        assert e !in c[1..];
      }
    }
  }

  lemma Twice(s: seq<Entry>, i: nat, j: nat)
    requires i < j < |s| && s[i] == s[j]
    ensures multiset(s)[s[i]] >= 2
  {
    assert s == s[..j] + s[j..];
    assert s[i] in s[..j] && s[j] in s[j..];
  }

  /** The counts of an entry list, in its order. */
  function Counts(top: seq<Entry>): (cs: seq<nat>)
    ensures |cs| == |top| && forall i :: 0 <= i < |top| ==> cs[i] == top[i].count
  {
    seq(|top|, i requires 0 <= i < |top| => top[i].count)
  }

  /** A tally of `xs` as the facts below use it. */
  ghost predicate TallyOf(c: Counter, xs: seq<string>) {
    && DistinctKeys(c)
    && (forall i :: 0 <= i < |c| ==> c[i].count >= 1)
    && (forall k :: k in Keys(c) <==> k in xs)
    && (forall k :: Get(c, k) == Occurrences(xs, k))
  }

  lemma TallyIsTallyOf(xs: seq<string>)
    ensures TallyOf(Tally(xs), xs)
  {
    TallyDistinct(xs);
    TallyTotal(xs);
    TallyKeys(xs);
    forall k ensures Get(Tally(xs), k) == Occurrences(xs, k) {
      TallyGet(xs, k);
    }
  }

  /** Entries drawn from a tally carry a value of `xs` and its number of occurrences. */
  lemma SubCounts(xs: seq<string>, c: Counter, top: seq<Entry>)
    requires TallyOf(c, xs) && multiset(top) <= multiset(c)
    ensures forall i :: 0 <= i < |top| ==> top[i].key in xs && top[i].count == Occurrences(xs, top[i].key) >= 1
  {
    forall i | 0 <= i < |top| ensures top[i].key in xs && top[i].count == Occurrences(xs, top[i].key) >= 1 {
      assert top[i] in multiset(c);
      var p :| 0 <= p < |c| && c[p] == top[i];
      GetOfDistinct(c, p);
      assert Keys(c)[p] == c[p].key;
    }
  }

  /** Entries drawn from a counter with distinct keys have distinct keys. */
  lemma SubDistinct(c: Counter, top: seq<Entry>)
    requires DistinctKeys(c) && multiset(top) <= multiset(c)
    ensures DistinctKeys(top)
  {
    forall i, j | 0 <= i < j < |top| ensures top[i].key != top[j].key {
      if top[i].key == top[j].key {
        assert top[i] in multiset(c) && top[j] in multiset(c);
        var p :| 0 <= p < |c| && c[p] == top[i];
        var q :| 0 <= q < |c| && c[q] == top[j];
        assert p == q;
        Twice(top, i, j);
        DistinctOnce(c, top[i]);
      }
    }
  }

  lemma NotInKeys(s: seq<Entry>, e: Entry)
    requires e.key !in Keys(s)
    ensures e !in s
  {
    forall q | 0 <= q < |s| ensures s[q] != e {
      assert Keys(s)[q] == s[q].key;
    }
  }

  /** When no entry left out of `top` beats one kept, no value of `xs` left out does either. */
  lemma SubMaximal(xs: seq<string>, c: Counter, top: seq<Entry>)
    requires TallyOf(c, xs)
    requires forall e, i :: e in c && e !in top && 0 <= i < |top| ==> e.count <= top[i].count
    ensures forall x, i :: x in xs && x !in Keys(top) && 0 <= i < |top| ==> Occurrences(xs, x) <= top[i].count
  {
    forall x, i | x in xs && x !in Keys(top) && 0 <= i < |top| ensures Occurrences(xs, x) <= top[i].count {
      assert x in Keys(c);
      var p :| 0 <= p < |c| && Keys(c)[p] == x;
      GetOfDistinct(c, p);
      NotInKeys(top, c[p]);
    }
  }

  /** The first entry of `most_common(1)` is an entry of the counter no other entry outnumbers. */
  lemma MostCommonFirst(c: Counter)
    requires c != []
    ensures MostCommon(c, 1)[0] in c
    ensures forall e :: e in c ==> e.count <= MostCommon(c, 1)[0].count
  {
    var top := MostCommon(c, 1);
    assert top[0] in multiset(top);
    forall e | e in c
      ensures e.count <= top[0].count
    {
      if e in top {
        assert e == top[0];
      }
    }
  }

  /** Ties go to the entry seen first: every entry before the one `most_common(1)` picks
    * counts strictly less than it. */
  lemma MostCommonFirstSeen(c: Counter)
    requires c != []
    ensures exists i :: 0 <= i < |c| && c[i] == MostCommon(c, 1)[0] && forall j :: 0 <= j < i ==> c[j].count < c[i].count
  {
    var e := MostCommon(c, 1)[0];
    MostCommonFirst(c);
    TopLeadsItsCount(c);
    FirstOfCount(c, e.count);
    var i :| 0 <= i < |c| && c[i] == WithCount(c, e.count)[0] && forall j :: 0 <= j < i ==> c[j].count != e.count;
    forall j | 0 <= j < i
      ensures c[j].count < c[i].count
    {
      assert c[j] in c;
    }
  }

  /** The entry `most_common(1)` picks is the first of its count in the counter. */
  lemma TopLeadsItsCount(c: Counter)
    requires c != []
    ensures WithCount(c, MostCommon(c, 1)[0].count) != []
    ensures WithCount(c, MostCommon(c, 1)[0].count)[0] == MostCommon(c, 1)[0]
  {
    var top := MostCommon(c, 1);
    var k := top[0].count;
    assert WithCount(top, k) == [top[0]] by {
      assert top[1..] == [];
    }
    assert WithCount(top, k) <= WithCount(c, k);
  }

  /** The first entry with count `k` in the order of `s` is the first one `WithCount` lists. */
  lemma {:induction false} FirstOfCount(s: seq<Entry>, k: nat)
    requires WithCount(s, k) != []
    ensures exists i :: 0 <= i < |s| && s[i] == WithCount(s, k)[0] && forall j :: 0 <= j < i ==> s[j].count != k
  {
    if s[0].count == k {
      assert s[0] == WithCount(s, k)[0];
    } else {
      FirstOfCount(s[1..], k);
      var i :| 0 <= i < |s[1..]| && s[1..][i] == WithCount(s[1..], k)[0] && forall j :: 0 <= j < i ==> s[1..][j].count != k;
      assert s[i + 1] == WithCount(s, k)[0];
      assert forall j :: 0 <= j < i + 1 ==> s[j].count != k by {
        forall j | 0 <= j < i + 1
          ensures s[j].count != k
        {
          if j > 0 {
            assert s[j] == s[1..][j - 1];
          }
        }
      }
    }
  }

  /** `Counter(xs).most_common(n)` read as labels and counts: at most `n` values of `xs`,
    * each with its number of occurrences. */
  lemma MostCommonCounts(xs: seq<string>, n: int)
    ensures var top := MostCommon(Tally(xs), n);
      var labels, counts := Keys(top), Counts(top);
      && |labels| == |counts| <= (if n > 0 then n else 0)
      && forall i :: 0 <= i < |labels| ==> labels[i] in xs && counts[i] == Occurrences(xs, labels[i]) >= 1
  {
    var c := Tally(xs);
    var top := MostCommon(c, n);
    TallyIsTallyOf(xs);
    SubCounts(xs, c, top);
  }

  /** The labels of `Counter(xs).most_common(n)` are distinct and their counts never
    * increase. */
  lemma MostCommonOrder(xs: seq<string>, n: int)
    ensures var top := MostCommon(Tally(xs), n);
      var labels, counts := Keys(top), Counts(top);
      forall i, j :: 0 <= i < j < |labels| ==> labels[i] != labels[j] && counts[i] >= counts[j]
  {
    var c := Tally(xs);
    var top := MostCommon(c, n);
    TallyDistinct(xs);
    SubDistinct(c, top);
  }

  /** No value of `xs` left out of `Counter(xs).most_common(n)` occurs more often than one
    * listed. */
  lemma MostCommonMaximal(xs: seq<string>, n: int)
    ensures var top := MostCommon(Tally(xs), n);
      var labels, counts := Keys(top), Counts(top);
      forall x, i :: x in xs && x !in labels && 0 <= i < |labels| ==> Occurrences(xs, x) <= counts[i]
  {
    var c := Tally(xs);
    var top := MostCommon(c, n);
    TallyIsTallyOf(xs);
    SubMaximal(xs, c, top);
  }
}
