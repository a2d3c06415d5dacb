/** The string helpers of the search page: HTML escaping (`esc`), the short form of an eBay
  * item id (`shortItemId`), the price text (`money`) and the lenient number reader
  * (`toNumber`). */
module AppJs {
  import opened Wrappers
  import opened JsValues
  import Text
  import Numerals

  /** `s.replaceAll(c, r)` for a one-character pattern. */
  function ReplaceAll(s: string, c: char, r: string): string {
    if s == [] then [] else (if s[0] == c then r else [s[0]]) + ReplaceAll(s[1..], c, r)
  }

  /** The five `replaceAll` calls of `esc`, ampersand first. */
  function EscapeText(s: string): string {
    ReplaceAll(ReplaceAll(ReplaceAll(ReplaceAll(ReplaceAll(s, '&', "&amp;"), '<', "&lt;"), '>', "&gt;"), '"', "&quot;"), '\'', "&#39;")
  }

  /** `esc(v)`: `String(v ?? "")` with the five HTML-special characters replaced by entities. */
  function Esc(v: JsValue, render: JsValue -> string): (r: string)
    ensures IsNullish(v) ==> r == ""
  {
    EscapeText(JsString(Coalesce(v, Str("")), render))
  }

  /** The entity of one character, or the character itself. */
  function EscChar(c: char): string {
    if c == '&' then "&amp;"
    else if c == '<' then "&lt;"
    else if c == '>' then "&gt;"
    else if c == '"' then "&quot;"
    else if c == '\'' then "&#39;"
    else [c]
  }

  /** Escaping character by character. */
  function EscapeChars(s: string): string {
    if s == [] then [] else EscChar(s[0]) + EscapeChars(s[1..])
  }

  predicate IsSpecial(c: char) {
    c == '&' || c == '<' || c == '>' || c == '"' || c == '\''
  }

  predicate StartsEntity(t: string) {
    "&amp;" <= t || "&lt;" <= t || "&gt;" <= t || "&quot;" <= t || "&#39;" <= t
  }

  /** Decoding of the five entities, left to right. */
  function Unescape(t: string): string
    decreases |t|
  {
    if t == [] then []
    else if "&amp;" <= t then "&" + Unescape(t[5..])
    else if "&lt;" <= t then "<" + Unescape(t[4..])
    else if "&gt;" <= t then ">" + Unescape(t[4..])
    else if "&quot;" <= t then "\"" + Unescape(t[6..])
    else if "&#39;" <= t then "'" + Unescape(t[5..])
    else [t[0]] + Unescape(t[1..])
  }

  lemma {:induction false} ReplaceAllAppend(a: string, b: string, c: char, r: string)
    ensures ReplaceAll(a + b, c, r) == ReplaceAll(a, c, r) + ReplaceAll(b, c, r)
  {
    if a == [] {
      assert a + b == b;
    } else {
      assert (a + b)[0] == a[0];
      assert (a + b)[1..] == a[1..] + b;
      ReplaceAllAppend(a[1..], b, c, r);
    }
  }

  lemma {:induction false} ReplaceAllAbsent(s: string, c: char, r: string)
    requires c !in s
    ensures ReplaceAll(s, c, r) == s
  {
    if s != [] {
      assert c !in s[1..];
      ReplaceAllAbsent(s[1..], c, r);
      assert [s[0]] + s[1..] == s;
    }
  }

  lemma EscapeTextAppend(a: string, b: string)
    ensures EscapeText(a + b) == EscapeText(a) + EscapeText(b)
  {
    var a1, b1 := ReplaceAll(a, '&', "&amp;"), ReplaceAll(b, '&', "&amp;");
    ReplaceAllAppend(a, b, '&', "&amp;");
    var a2, b2 := ReplaceAll(a1, '<', "&lt;"), ReplaceAll(b1, '<', "&lt;");
    ReplaceAllAppend(a1, b1, '<', "&lt;");
    var a3, b3 := ReplaceAll(a2, '>', "&gt;"), ReplaceAll(b2, '>', "&gt;");
    ReplaceAllAppend(a2, b2, '>', "&gt;");
    var a4, b4 := ReplaceAll(a3, '"', "&quot;"), ReplaceAll(b3, '"', "&quot;");
    ReplaceAllAppend(a3, b3, '"', "&quot;");
    ReplaceAllAppend(a4, b4, '\'', "&#39;");
  }

  /** Pushes one character through the five passes. */
  lemma ReplaceSingle(c: char, x: char, r: string)
    ensures ReplaceAll([c], x, r) == if c == x then r else [c]
  {
    assert ReplaceAll([c], x, r) == (if c == x then r else [c]) + ReplaceAll([], x, r);
  }

  /** The passes after the one that produced an entity leave it alone, so one character comes
    * out as its entity. */
  lemma EscapeOne(c: char)
    ensures EscapeText([c]) == EscChar(c)
  {
    if c == '&' {
      ReplaceSingle(c, '&', "&amp;");
      EntityUntouched("&amp;", 1);
    } else if c == '<' {
      ReplaceSingle(c, '&', "&amp;");
      ReplaceSingle(c, '<', "&lt;");
      EntityUntouched("&lt;", 2);
    } else if c == '>' {
      ReplaceSingle(c, '&', "&amp;");
      ReplaceSingle(c, '<', "&lt;");
      ReplaceSingle(c, '>', "&gt;");
      EntityUntouched("&gt;", 3);
    } else if c == '"' {
      ReplaceSingle(c, '&', "&amp;");
      ReplaceSingle(c, '<', "&lt;");
      ReplaceSingle(c, '>', "&gt;");
      ReplaceSingle(c, '"', "&quot;");
      EntityUntouched("&quot;", 4);
    } else {
      ReplaceSingle(c, '&', "&amp;");
      ReplaceSingle(c, '<', "&lt;");
      ReplaceSingle(c, '>', "&gt;");
      ReplaceSingle(c, '"', "&quot;");
      ReplaceSingle(c, '\'', "&#39;");
    }
  }

  /** The passes after the `pass`-th leave an entity without special characters other than
    * its `&` alone. */
  lemma EntityUntouched(e: string, pass: nat)
    requires 1 <= pass <= 4
    requires '<' !in e && '>' !in e && '"' !in e && '\'' !in e
    ensures pass <= 1 ==> ReplaceAll(e, '<', "&lt;") == e
    ensures pass <= 2 ==> ReplaceAll(e, '>', "&gt;") == e
    ensures pass <= 3 ==> ReplaceAll(e, '"', "&quot;") == e
    ensures ReplaceAll(e, '\'', "&#39;") == e
  {
    ReplaceAllAbsent(e, '<', "&lt;");
    ReplaceAllAbsent(e, '>', "&gt;");
    ReplaceAllAbsent(e, '"', "&quot;");
    ReplaceAllAbsent(e, '\'', "&#39;");
  }

  /** The chain of `replaceAll` calls escapes each character on its own: the later passes
    * never touch the entities the earlier ones wrote. */
  lemma {:induction false} EscapeTextIsCharwise(s: string)
    ensures EscapeText(s) == EscapeChars(s)
  {
    if s == [] {
      assert EscapeText(s) == [];
    } else {
      assert s == [s[0]] + s[1..];
      EscapeTextAppend([s[0]], s[1..]);
      EscapeOne(s[0]);
      EscapeTextIsCharwise(s[1..]);
    }
  }

  lemma UnescapeAmp(rest: string)
    ensures Unescape("&amp;" + rest) == "&" + Unescape(rest)
  {
    var t := "&amp;" + rest;
    assert "&amp;" <= t && t[5..] == rest;
  }

  lemma UnescapeLt(rest: string)
    ensures Unescape("&lt;" + rest) == "<" + Unescape(rest)
  {
    var t := "&lt;" + rest;
    assert !("&amp;" <= t) by { assert t[1] == 'l'; }
    assert "&lt;" <= t && t[4..] == rest;
  }

  lemma UnescapeGt(rest: string)
    ensures Unescape("&gt;" + rest) == ">" + Unescape(rest)
  {
    var t := "&gt;" + rest;
    assert !("&amp;" <= t) && !("&lt;" <= t) by { assert t[1] == 'g'; }
    assert "&gt;" <= t && t[4..] == rest;
  }

  lemma UnescapeQuot(rest: string)
    ensures Unescape("&quot;" + rest) == "\"" + Unescape(rest)
  {
    var t := "&quot;" + rest;
    assert !("&amp;" <= t) && !("&lt;" <= t) && !("&gt;" <= t) by { assert t[1] == 'q'; }
    assert "&quot;" <= t && t[6..] == rest;
  }

  lemma UnescapeApos(rest: string)
    ensures Unescape("&#39;" + rest) == "'" + Unescape(rest)
  {
    var t := "&#39;" + rest;
    assert !("&amp;" <= t) && !("&lt;" <= t) && !("&gt;" <= t) && !("&quot;" <= t) by { assert t[1] == '#'; }
    assert "&#39;" <= t && t[5..] == rest;
  }

  lemma UnescapePlain(c: char, rest: string)
    requires c != '&'
    ensures Unescape([c] + rest) == [c] + Unescape(rest)
  {
    var t := [c] + rest;
    assert t[0] == c && t[1..] == rest;
  }

  /** Decoding reads one escaped character back and goes on after it. */
  lemma UnescapeStep(c: char, rest: string)
    ensures Unescape(EscChar(c) + rest) == [c] + Unescape(rest)
  {
    if c == '&' {
      UnescapeAmp(rest);
    } else if c == '<' {
      UnescapeLt(rest);
    } else if c == '>' {
      UnescapeGt(rest);
    } else if c == '"' {
      UnescapeQuot(rest);
    } else if c == '\'' {
      UnescapeApos(rest);
    } else {
      UnescapePlain(c, rest);
    }
  }

  /** Decoding undoes `esc` on every string. */
  lemma {:induction false} UnescapeEscapeChars(s: string)
    ensures Unescape(EscapeChars(s)) == s
  {
    if s != [] {
      UnescapeEscapeChars(s[1..]);
      UnescapeStep(s[0], EscapeChars(s[1..]));
      assert [s[0]] + s[1..] == s;
    }
  }

  lemma EscapeRoundTrip(s: string)
    ensures Unescape(EscapeText(s)) == s
  {
    EscapeTextIsCharwise(s);
    UnescapeEscapeChars(s);
  }

  /** An entity holds no `<`, `>`, `"` or `'`, and only its first character is `&`. */
  lemma EscCharFacts(c: char)
    ensures var e := EscChar(c);
      && '<' !in e && '>' !in e && '"' !in e && '\'' !in e
      && e[0] == (if IsSpecial(c) then '&' else c)
      && forall i :: 0 < i < |e| ==> e[i] != '&'
  {
  }

  lemma EntityPrefix(c: char, rest: string)
    requires IsSpecial(c)
    ensures StartsEntity(EscChar(c) + rest)
  {
    var t := EscChar(c) + rest;
    assert t[..|EscChar(c)|] == EscChar(c);
  }

  /** The output of `esc` holds no `<`, `>`, `"` or `'`, and each of its `&` opens one of the
    * five entities. */
  lemma {:induction false} EscapeCharsSafe(s: string)
    ensures var t := EscapeChars(s);
      && '<' !in t && '>' !in t && '"' !in t && '\'' !in t
      && forall i :: 0 <= i < |t| && t[i] == '&' ==> StartsEntity(t[i..])
  {
    if s != [] {
      var e, rest := EscChar(s[0]), EscapeChars(s[1..]);
      var t := e + rest;
      assert EscapeChars(s) == t;
      EscapeCharsSafe(s[1..]);
      EscCharFacts(s[0]);
      forall i | 0 <= i < |t| && t[i] == '&'
        ensures StartsEntity(t[i..])
      {
        if i < |e| {
          assert i == 0 && t[i..] == t;
          EntityPrefix(s[0], rest);
        } else {
          assert t[i..] == rest[i - |e|..];
        }
      }
    }
  }

  lemma EscapeSafe(s: string)
    ensures var t := EscapeText(s);
      && '<' !in t && '>' !in t && '"' !in t && '\'' !in t
      && forall i :: 0 <= i < |t| && t[i] == '&' ==> StartsEntity(t[i..])
  {
    EscapeTextIsCharwise(s);
    EscapeCharsSafe(s);
  }

  /** Text without special characters passes through `esc` unchanged. */
  lemma {:induction false} EscapePlain(s: string)
    requires forall i :: 0 <= i < |s| ==> !IsSpecial(s[i])
    ensures EscapeText(s) == s
  {
    EscapeTextIsCharwise(s);
    PlainChars(s);
  }

  lemma {:induction false} PlainChars(s: string)
    requires forall i :: 0 <= i < |s| ==> !IsSpecial(s[i])
    ensures EscapeChars(s) == s
  {
    if s != [] {
      PlainChars(s[1..]);
      assert [s[0]] + s[1..] == s;
    }
  }

  /** `s.split(sep)`. */
  function Split(s: string, sep: char): (parts: seq<string>)
    ensures |parts| >= 1
    ensures sep in s ==> |parts| >= 2
    decreases |s|
  {
    var k := Numerals.IndexOf(s, sep);
    if k == |s| then [s] else [s[..k]] + Split(s[k + 1..], sep)
  }

  /** `parts.join(sep)`. */
  function Join(parts: seq<string>, sep: char): string {
    if parts == [] then []
    else if |parts| == 1 then parts[0]
    else parts[0] + [sep] + Join(parts[1..], sep)
  }

  /** Splitting loses nothing: the fields hold no separator and joining them gives the text
    * back. */
  lemma {:induction false} SplitJoin(s: string, sep: char)
    ensures Join(Split(s, sep), sep) == s
    ensures forall i :: 0 <= i < |Split(s, sep)| ==> sep !in Split(s, sep)[i]
    decreases |s|
  {
    var k := Numerals.IndexOf(s, sep);
    if k < |s| {
      SplitJoin(s[k + 1..], sep);
      assert s == s[..k] + [sep] + s[k + 1..];
    }
  }

  /** `shortItemId(itemId)`: `""` for a falsy id; the text unchanged when it holds no `|`;
    * otherwise its second `|`-separated field. */
  function ShortItemId(itemId: JsValue, render: JsValue -> string): (r: string)
    ensures !Truthy(itemId) ==> r == ""
    ensures Truthy(itemId) && '|' !in JsString(itemId, render) ==> r == JsString(itemId, render)
    ensures Truthy(itemId) && '|' in JsString(itemId, render) ==>
      var s := JsString(itemId, render);
      var rest := s[Numerals.IndexOf(s, '|') + 1..];
      r == rest[..Numerals.IndexOf(rest, '|')]
  {
    if !Truthy(itemId) then ""
    else
      var s := JsString(itemId, render);
      if '|' in s then SplitFirst(s[Numerals.IndexOf(s, '|') + 1..], '|'); Split(s, '|')[1] else s
  }

  lemma SplitFirst(s: string, sep: char)
    ensures Split(s, sep)[0] == s[..Numerals.IndexOf(s, sep)]
  {
  }

  /** The eBay form `v1|<legacy id>|<variation>` shortens to the legacy id. */
  lemma ShortItemIdOfEbayId(legacy: string, variation: string, render: JsValue -> string)
    requires '|' !in legacy
    ensures ShortItemId(Str("v1|" + legacy + "|" + variation), render) == legacy
  {
    var s := "v1|" + legacy + "|" + variation;
    assert s[2] == '|';
    assert Numerals.IndexOf(s, '|') == 2 by {
      assert s[0] == 'v' && s[1] == '1';
      assert Numerals.IndexOf(s, '|') == 1 + Numerals.IndexOf(s[1..], '|');
      assert Numerals.IndexOf(s[1..], '|') == 1 + Numerals.IndexOf(s[2..], '|');
    }
    var rest := s[3..];
    assert rest == legacy + "|" + variation;
    IndexOfFirst(legacy, variation, '|');
    assert rest[..|legacy|] == legacy;
  }

  lemma {:induction false} IndexOfFirst(a: string, b: string, c: char)
    requires c !in a
    ensures Numerals.IndexOf(a + [c] + b, c) == |a|
  {
    if a != [] {
      assert (a + [c] + b)[1..] == a[1..] + [c] + b;
      IndexOfFirst(a[1..], b, c);
    }
  }

  /** `money(value, currency)`: `"<value> <currency>"` trimmed, or `"—"` when nothing is
    * left. */
  function Money(value: JsValue, currency: JsValue, render: JsValue -> string): (r: string)
    ensures r != []
    ensures r != "—" ==> Text.Strip(r) == r
  {
    var v := JsString(Coalesce(value, Str("")), render);
    var c := JsString(Coalesce(currency, Str("")), render);
    var s := Text.Strip(v + " " + c);
    Text.StripIdempotent(v + " " + c);
    if s == [] then "—" else s
  }

  /** With neither a value nor a currency, the price reads `"—"`. */
  lemma MoneyOfNothing(value: JsValue, currency: JsValue, render: JsValue -> string)
    requires IsNullish(value) && IsNullish(currency)
    ensures Money(value, currency, render) == "—"
  {
    assert Text.TrimStart(" ") == [] by {
      assert Text.TrimStart(" ") == Text.TrimStart(" "[1..]);
    }
    assert "" + " " + "" == " ";
  }

  /** For two strings, the price is `"<value> <currency>"` with its ends trimmed, unless that
    * leaves nothing, which reads `"—"`. */
  lemma MoneyOfStrings(v: string, c: string, render: JsValue -> string)
    ensures Text.Strip(v + " " + c) == [] ==> Money(Str(v), Str(c), render) == "—"
    ensures Text.Strip(v + " " + c) != [] ==> Money(Str(v), Str(c), render) == Text.Strip(v + " " + c)
  {
  }

  /** A trimmed value and a trimmed currency are joined by one space, untouched. */
  lemma MoneyOfTrimmed(v: string, c: string, render: JsValue -> string)
    requires v != [] && c != [] && Text.Strip(v) == v && Text.Strip(c) == c
    ensures Money(Str(v), Str(c), render) == v + " " + c
  {
    Text.StripFacts(v);
    Text.StripFacts(c);
    var s := v + " " + c;
    assert s[0] == v[0] && s[|s| - 1] == c[|c| - 1];
    Text.StripTrimmed(s);
  }

  /** Without a currency the price is the trimmed value, or `"—"` when that is blank. */
  lemma MoneyWithoutCurrency(v: string, currency: JsValue, render: JsValue -> string)
    requires IsNullish(currency)
    ensures Text.Strip(v) == [] ==> Money(Str(v), currency, render) == "—"
    ensures Text.Strip(v) != [] ==> Money(Str(v), currency, render) == Text.Strip(v)
  {
    assert v + " " + "" == v + " ";
    Text.StripSpaceAfter(v);
  }

  /** `toNumber(x)`: `Number(x)` when finite, 0 otherwise. */
  function ToNumber(x: JsValue): (n: real)
    ensures FiniteNumber(x).None? ==> n == 0.0
    ensures FiniteNumber(x).Some? ==> n == FiniteNumber(x).value
  {
    var f := FiniteNumber(x);
    if f.Some? then f.value else 0.0
  }

  /** On the decimal texts the server cleans prices into, `toNumber` reads the same value the
    * server's parser does. */
  lemma ToNumberOfDecimal(s: string)
    requires forall i :: 0 <= i < |s| ==> Text.IsNumChar(s[i])
    requires Numerals.DecimalLiteral(s).Some?
    ensures ToNumber(Str(s)) == Numerals.DecimalLiteral(s).value
  {
    Numerals.StripNumChars(s);
    Numerals.PyFloatOnNumChars(s);
  }
}
