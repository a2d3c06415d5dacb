/** The dataset value parser (`_is_missing`, `_try_float` of src/app/dataset_service.py):
  * every cell is missing, a number, or unparsable text. */
module ValueParser {
  import opened Wrappers
  import opened Text
  import opened Numerals

  /** The textual stand-ins for an absent value, compared after strip and lower-casing. */
  const NaTokens: set<string> :=
    {"", "na", "n/a", "nan", "null", "none", "-", "--", "\U{2014}", "not available", "n\\a"}

  /** `_is_missing(x)`: the cell is absent (`None`) or its stripped, lower-cased text is a token. */
  function IsMissing(x: Option<string>): (b: bool)
    ensures x.None? ==> b
    ensures x.Some? && Strip(x.value) == [] ==> b
    ensures x.Some? ==> (b <==> Lower(Strip(x.value)) in NaTokens)
    ensures b && x.Some? ==> |Strip(x.value)| <= |"not available"|
  {
    x.None? || Lower(Strip(x.value)) in NaTokens
  }

  /** The two cleaning substitutions of `_try_float` applied to the stripped text:
    * delete commas and whitespace, then every character outside `[0-9.-]`. */
  function CleanNumber(s: string): (r: string)
    ensures forall i :: 0 <= i < |r| ==> IsNumChar(r[i])
  {
    KeepNumChars(RemoveSpaces(RemoveChar(Strip(s), ',')))
  }

  /** `_try_float(x)`: `None` for a missing cell, for the cleaned strings "", "-", "." and "-.",
    * and when `float()` rejects the cleaned string; otherwise its value. The result is the
    * decimal literal spelled by the cell's digits, dots and minus signs, read in order. */
  function TryFloat(x: Option<string>): (r: Option<real>)
    ensures IsMissing(x) ==> r == None
    ensures !IsMissing(x) ==> r == DecimalLiteral(KeepNumChars(x.value))
  {
    if IsMissing(x) then None
    else
      var s := CleanNumber(x.value);
      CleanNumberIsKept(x.value);
      if s in ["", "-", ".", "-."] then None
      else
        PyFloatOnNumChars(s);
        PyFloat(s)
  }

  /** The three outcomes a raw cell can have. */
  datatype Parsed = Missing | Number(value: real) | Unparsable

  /** The classification the scans apply: the missing check first, then the number parser. */
  function Classify(x: Option<string>): (p: Parsed)
    ensures p == Missing <==> IsMissing(x)
    ensures p.Number? <==> TryFloat(x).Some?
    ensures p.Number? ==> TryFloat(x) == Some(p.value)
    ensures p == Unparsable <==> !IsMissing(x) && TryFloat(x) == None
  {
    if IsMissing(x) then Missing
    else match TryFloat(x)
      case Some(v) => Number(v)
      case None => Unparsable
  }

  /** Deleting characters outside `[0-9.-]` ignores any earlier deletion of such characters. */
  lemma {:induction false} KeepAfterRemoveChar(s: string, c: char)
    requires !IsNumChar(c)
    ensures KeepNumChars(RemoveChar(s, c)) == KeepNumChars(s)
  {
    if s != [] {
      KeepAfterRemoveChar(s[1..], c);
      assert RemoveChar(s, c) == (if s[0] == c then [] else [s[0]]) + RemoveChar(s[1..], c);
      KeepAppend(if s[0] == c then [] else [s[0]], RemoveChar(s[1..], c));
    }
  }

  lemma {:induction false} KeepAfterRemoveSpaces(s: string)
    ensures KeepNumChars(RemoveSpaces(s)) == KeepNumChars(s)
  {
    if s != [] {
      KeepAfterRemoveSpaces(s[1..]);
      KeepAppend(if IsSpace(s[0]) then [] else [s[0]], RemoveSpaces(s[1..]));
    }
  }

  lemma {:induction false} KeepAppend(a: string, b: string)
    ensures KeepNumChars(a + b) == KeepNumChars(a) + KeepNumChars(b)
  {
    if a == [] {
      assert a + b == b;
    } else {
      assert (a + b)[0] == a[0];
      assert (a + b)[1..] == a[1..] + b;
      KeepAppend(a[1..], b);
    }
  }

  /** Lower-casing maps no character into or out of `[0-9.-]`. */
  lemma {:induction false} KeepAfterLower(s: string)
    ensures KeepNumChars(Lower(s)) == KeepNumChars(s)
  {
    if s != [] {
      KeepAfterLower(s[1..]);
      assert Lower(s) == [LowerChar(s[0])] + Lower(s[1..]);
      KeepAppend([LowerChar(s[0])], Lower(s[1..]));
      KeepAppend([s[0]], s[1..]);
      assert [s[0]] + s[1..] == s;
    }
  }

  lemma KeepAfterTrimStart(s: string)
    ensures KeepNumChars(TrimStart(s)) == KeepNumChars(s)
  {
    var r := TrimStart(s);
    TrimStartFacts(s);
    var k := |s| - |r|;
    assert s == s[..k] + r;
    KeepOfSpaces(s[..k]);
    KeepAppend(s[..k], r);
  }

  lemma {:induction false} KeepAfterTrimEnd(s: string)
    ensures KeepNumChars(TrimEnd(s)) == KeepNumChars(s)
  {
    if s != [] && IsSpace(s[|s| - 1]) {
      var init := s[..|s| - 1];
      KeepAfterTrimEnd(init);
      KeepAppend(init, [s[|s| - 1]]);
      assert init + [s[|s| - 1]] == s;
    }
  }

  /** Stripping removes only whitespace, which the cleaner drops anyway. */
  lemma KeepAfterStrip(s: string)
    ensures KeepNumChars(Strip(s)) == KeepNumChars(s)
  {
    KeepAfterTrimStart(s);
    KeepAfterTrimEnd(TrimStart(s));
  }

  lemma {:induction false} KeepOfSpaces(s: string)
    requires forall i :: 0 <= i < |s| ==> IsSpace(s[i])
    ensures KeepNumChars(s) == []
  {
    if s != [] {
      KeepOfSpaces(s[1..]);
    }
  }

  /** The three cleaning steps of `_try_float` together keep exactly the `[0-9.-]` characters. */
  lemma CleanNumberIsKept(s: string)
    ensures CleanNumber(s) == KeepNumChars(s)
  {
    var stripped := Strip(s);
    var noCommas := RemoveChar(stripped, ',');
    KeepAfterRemoveSpaces(noCommas);
    assert KeepNumChars(RemoveSpaces(noCommas)) == KeepNumChars(noCommas);
    KeepAfterRemoveChar(stripped, ',');
    assert KeepNumChars(noCommas) == KeepNumChars(stripped);
    KeepAfterStrip(s);
  }

  /** The two word tokens hold no `[0-9.-]` character. */
  lemma WordTokensClean()
    ensures KeepNumChars("not available") == [] && KeepNumChars("n\\a") == []
  {
    var words := "not available";
    assert words == "not" + " " + "available";
    Letters("not");
    Letters(" ");
    Letters("available");
    KeepAppend("not", " ");
    KeepAppend("not" + " ", "available");
    SlashTokenClean();
  }

  lemma SlashTokenClean()
    ensures KeepNumChars("n\\a") == []
  {
    var slash := "n\\a";
    assert slash[1..][1..] == "a";
    assert KeepNumChars(slash) == KeepNumChars(slash[1..]);
    assert KeepNumChars(slash[1..]) == KeepNumChars("a");
    Letters("a");
  }

  lemma {:induction false} Letters(w: string)
    requires forall i :: 0 <= i < |w| ==> w[i] == ' ' || 'a' <= w[i] <= 'z'
    ensures KeepNumChars(w) == []
  {
    if w != [] {
      Letters(w[1..]);
    }
  }

  /** Keeping `[0-9.-]` leaves a string made only of those characters as it is. */
  lemma {:induction false} KeepOfNumChars(s: string)
    requires forall i :: 0 <= i < |s| ==> IsNumChar(s[i])
    ensures KeepNumChars(s) == s
  {
    if s != [] {
      KeepOfNumChars(s[1..]);
    }
  }

  /** `_try_float` on a cell that is not missing reads the number its kept characters spell. */
  lemma TryFloatOfKept(x: string, t: string)
    requires !IsMissing(Some(x)) && KeepNumChars(x) == t
    ensures TryFloat(Some(x)) == DecimalLiteral(t)
  {
  }

  /** The first worked example of `_try_float`: a percentage keeps its number. */
  lemma PercentExample()
    ensures TryFloat(Some("12.5%")) == Some(12.5)
  {
    LongNotMissing("12.5%");
    PercentKept();
    PercentValue();
    TryFloatOfKept("12.5%", "12.5");
  }

  /** A cell with no blank at either end and of no token's length is not missing. */
  lemma LongNotMissing(x: string)
    requires x != [] && !IsSpace(x[0]) && !IsSpace(x[|x| - 1])
    requires 5 <= |x| && |x| != 13
    ensures !IsMissing(Some(x))
  {
    assert TrimStart(x) == x;
    assert TrimEnd(x) == x;
    assert |Lower(x)| == |x|;
  }

  lemma PercentKept()
    ensures KeepNumChars("12.5%") == "12.5"
  {
    assert "12.5%" == "12.5" + "%";
    KeepOfNumChars("12.5");
    KeepAppend("12.5", "%");
  }

  lemma PercentValue()
    ensures DecimalLiteral("12.5") == Some(12.5)
  {
    var t := "12.5";
    assert IndexOf(t, '.') == 2;
    assert t[..2] == "12" && t[3..] == "5";
    assert DigitsValue("12") == 12 by {
      assert "12"[..1] == "1";
    }
    assert DigitsValue("5") == 5;
  }

  /** The second worked example: surrounding blanks are ignored. */
  lemma PaddedExample()
    ensures TryFloat(Some(" 99 ")) == Some(99.0)
  {
    PaddedNotMissing();
    PaddedKept();
    assert DecimalLiteral("99") == Some(99.0) by {
      assert IndexOf("99", '.') == 2;
      assert DigitsValue("99") == 99 by {
        assert "99"[..1] == "9";
      }
    }
    TryFloatOfKept(" 99 ", "99");
  }

  lemma PaddedNotMissing()
    ensures !IsMissing(Some(" 99 "))
  {
    var s := " 99 ";
    assert TrimStart(s) == "99 " by {
      assert s[1..] == "99 ";
    }
    assert TrimEnd("99 ") == "99" by {
      assert "99 "[..2] == "99";
    }
    assert Lower("99") == "99";
  }

  lemma PaddedKept()
    ensures KeepNumChars(" 99 ") == "99"
  {
    assert " 99 " == " " + "99" + " ";
    KeepOfNumChars("99");
    KeepAppend(" ", "99");
    KeepAppend(" " + "99", " ");
  }

  /** The third worked example: a currency sign and a thousands separator are dropped. */
  lemma PriceExample()
    ensures TryFloat(Some("$1,234.50")) == Some(1234.5)
  {
    LongNotMissing("$1,234.50");
    PriceKept();
    PriceValue();
    TryFloatOfKept("$1,234.50", "1234.50");
  }

  lemma PriceKept()
    ensures KeepNumChars("$1,234.50") == "1234.50"
  {
    KeepDrop("$1,234.50", "1,234.50");
    GroupedKept();
  }

  lemma GroupedKept()
    ensures KeepNumChars("1,234.50") == "1234.50"
  {
    KeepFirst("1,234.50", ",234.50");
    SeparatorKept();
    LeadingDigit();
  }

  lemma LeadingDigit()
    ensures ['1'] + "234.50" == "1234.50"
  {
  }

  /** A first character in `[0-9.-]` is kept in front of the rest. */
  lemma KeepFirst(s: string, rest: string)
    requires s != [] && IsNumChar(s[0]) && s[1..] == rest
    ensures KeepNumChars(s) == [s[0]] + KeepNumChars(rest)
  {
  }

  lemma SeparatorKept()
    ensures KeepNumChars(",234.50") == "234.50"
  {
    KeepDrop(",234.50", "234.50");
    KeepOfNumChars("234.50");
  }

  /** Dropping a first character outside `[0-9.-]` does not change what is kept. */
  lemma KeepDrop(s: string, rest: string)
    requires s != [] && !IsNumChar(s[0]) && s[1..] == rest
    ensures KeepNumChars(s) == KeepNumChars(rest)
  {
  }

  lemma PriceValue()
    ensures DecimalLiteral("1234.50") == Some(1234.5)
  {
    PriceParts();
    ThousandsDigits();
    CentsDigits();
    assert Pow10(2) == 100;
  }

  lemma PriceParts()
    ensures IndexOf("1234.50", '.') == 4
    ensures "1234.50"[..4] == "1234" && "1234.50"[5..] == "50"
  {
  }

  lemma CentsDigits()
    ensures DigitsValue("50") == 50
  {
    assert "50"[..1] == "5";
  }

  lemma ThousandsDigits()
    ensures DigitsValue("1234") == 1234
  {
    assert "1234"[..3] == "123" && "123"[..2] == "12" && "12"[..1] == "1";
  }

}
