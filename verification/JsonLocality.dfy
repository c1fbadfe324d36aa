/** Decoding does not look behind the value it decodes: a text may be cut off anywhere behind it. */
module JsonLocality {
  import opened Optional
  import opened Json
  import opened JsonTheorems

  /** What is left of `r` when the last `|t|` characters of the text are cut off. */
  function Cut(r: string, t: string): string
    requires |r| >= |t|
  {
    r[..|r| - |t|]
  }

  lemma CutBack(r: string, s: string, t: string)
    requires Suffix(r, s + t) && |r| >= |t|
    ensures r == Cut(r, t) + t
  {
  }

  lemma {:induction false} SkipWsShrinks(s: string, t: string)
    requires |SkipWs(s + t)| >= |t|
    ensures SkipWs(s) == Cut(SkipWs(s + t), t)
    ensures SkipWs(s + t) == SkipWs(s) + t
  {
    if s == "" {
      assert s + t == t;
    } else if IsWs(s[0]) {
      assert (s + t)[1..] == s[1..] + t;
      SkipWsShrinks(s[1..], t);
    }
  }

  lemma {:induction false} StringShrinks(s: string, t: string)
    requires ParseString(s + t).Some? && |ParseString(s + t).value.1| >= |t|
    ensures ParseString(s) == Some((ParseString(s + t).value.0, Cut(ParseString(s + t).value.1, t)))
  {
    hide HexChar, Unescape;
    assert s != "" by { assert "" + t == t; }
    if s[0] == '\"' {
      assert (s + t)[1..] == s[1..] + t;
    } else if s[0] == '\\' {
      if (s + t)[1] == 'u' {
        assert |ParseString((s + t)[6..]).value.1| >= |t|;
        assert (s + t)[6..] == s[6..] + t;
        StringShrinks(s[6..], t);
      } else {
        assert |ParseString((s + t)[2..]).value.1| >= |t|;
        assert (s + t)[2..] == s[2..] + t;
        StringShrinks(s[2..], t);
      }
    } else {
      assert (s + t)[1..] == s[1..] + t;
      StringShrinks(s[1..], t);
    }
  }

  lemma {:induction false} DigitsShrink(s: string, t: string)
    requires Digits(s + t) <= |s|
    ensures Digits(s) == Digits(s + t)
  {
    if s != "" && IsDigit(s[0]) {
      assert (s + t)[1..] == s[1..] + t;
      DigitsShrink(s[1..], t);
    }
  }

  lemma IntegerShrinks(s: string, t: string)
    requires 0 < IntegerLength(s + t) <= |s|
    ensures IntegerLength(s) == IntegerLength(s + t)
  {
    var sign := if s[0] == '-' then 1 else 0;
    assert (s + t)[sign..] == s[sign..] + t;
    if (s + t)[sign] != '0' { DigitsShrink(s[sign..], t); }
  }

  lemma FractionShrinks(s: string, t: string)
    requires FractionLength(s + t) <= |s|
    ensures FractionLength(s) == FractionLength(s + t)
  {
    hide Digits;
    if s != "" && s[0] == '.' {
      assert (s + t)[1..] == s[1..] + t;
      DigitsShrink(s[1..], t);
    }
  }

  lemma ExponentShrinks(s: string, t: string)
    requires ExponentLength(s + t) <= |s|
    ensures ExponentLength(s) == ExponentLength(s + t)
  {
    hide Digits;
    if |s| == 1 {
      assert s[1..] == "";
    } else if s != "" && (s[0] == 'e' || s[0] == 'E') {
      var sign := if s[1] == '+' || s[1] == '-' then 1 else 0;
      assert (s + t)[1 + sign..] == s[1 + sign..] + t;
      DigitsShrink(s[1 + sign..], t);
    }
  }

  lemma NumberShrinks(s: string, t: string)
    requires 0 < NumberLength(s + t) <= |s|
    ensures NumberLength(s) == NumberLength(s + t)
  {
    hide FractionLength, ExponentLength, IntegerLength;
    var whole := IntegerLength(s + t);
    IntegerShrinks(s, t);
    assert (s + t)[whole..] == s[whole..] + t;
    var fraction := FractionLength((s + t)[whole..]);
    FractionShrinks(s[whole..], t);
    assert (s + t)[whole + fraction..] == s[whole + fraction..] + t;
    ExponentShrinks(s[whole + fraction..], t);
  }

  lemma WordKept(word: string, s: string, t: string)
    requires word <= s + t && |word| <= |s|
    ensures word <= s && s[|word|..] == Cut((s + t)[|word|..], t)
  {
    assert (s + t)[..|word|] == s[..|word|];
  }

  lemma WordShrinks(s: string, t: string)
    requires ParseWord(s + t).Some? && |ParseWord(s + t).value.1| >= |t|
    ensures ParseWord(s) == Some((ParseWord(s + t).value.0, Cut(ParseWord(s + t).value.1, t)))
    ensures NumberLength(s) == 0
  {
    hide NumberLength, IntegerLength;
    assert s != "" by { assert "" + t == t; }
    assert (s + t)[0] == s[0];
    if s[0] == 'n' { WordKept("null", s, t); }
    else if s[0] == 't' { WordKept("true", s, t); }
    else if s[0] == 'f' { WordKept("false", s, t); }
    else if s[0] == 'N' { WordKept("NaN", s, t); }
    else if s[0] == 'I' { WordKept("Infinity", s, t); }
    else { WordKept("-Infinity", s, t); }
    WordIsNoNumber(s);
    NoIntegerNoNumber(s);
  }

  /** What is decoded from a text is decoded from every beginning of it that holds the value. */
  lemma {:induction false} ValueShrinks(s: string, t: string)
    requires ParseValue(s + t).Some? && |ParseValue(s + t).value.1| >= |t|
    ensures ParseValue(s) == Some((ParseValue(s + t).value.0, Cut(ParseValue(s + t).value.1, t)))
    decreases |s|, 0
  {
    hide ParseItems, ParseFields, ParseString, SkipWs, NumberLength, ParseWord;
    assert s != "" by { assert "" + t == t; }
    assert (s + t)[1..] == s[1..] + t && (s + t)[0] == s[0];
    if s[0] == '\"' {
      StringShrinks(s[1..], t);
    } else if s[0] == '{' || s[0] == '[' {
      var body := SkipWs(s[1..] + t);
      if body == "" { NothingParsed(); }
      SkipWsShrinks(s[1..], t);
      var mine := SkipWs(s[1..]);
      assert body == mine + t;
      assert mine != "";
      assert body[0] == mine[0] && body[1..] == mine[1..] + t;
      if s[0] == '{' && body[0] != '}' {
        FieldsShrink(mine, t);
      } else if s[0] == '[' && body[0] != ']' {
        ItemsShrink(mine, t);
      }
    } else {
      var n := NumberLength(s + t);
      if n > 0 {
        NumberShrinks(s, t);
        assert (s + t)[..n] == s[..n] && (s + t)[n..] == s[n..] + t;
      } else {
        WordShrinks(s, t);
      }
    }
  }

  lemma {:induction false} ItemsShrink(s: string, t: string)
    requires ParseItems(s + t).Some? && |ParseItems(s + t).value.1| >= |t|
    ensures ParseItems(s) == Some((ParseItems(s + t).value.0, Cut(ParseItems(s + t).value.1, t)))
    decreases |s|, 1
  {
    hide ParseValue, SkipWs, Suffix;
    var (v, rest) := ParseValue(s + t).value;
    ValueShrinks(s, t);
    ValueSuffix(s + t);
    CutBack(rest, s, t);
    var mine := Cut(rest, t);
    SkipWsShrinks(mine, t);
    var next := SkipWs(mine);
    assert (next + t)[0] == next[0] && (next + t)[1..] == next[1..] + t;
    if next[0] == ',' {
      SkipWsShrinks(next[1..], t);
      ItemsShrink(SkipWs(next[1..]), t);
    }
  }

  lemma {:induction false} FieldsShrink(s: string, t: string)
    requires ParseFields(s + t).Some? && |ParseFields(s + t).value.1| >= |t|
    ensures ParseFields(s) == Some((ParseFields(s + t).value.0, Cut(ParseFields(s + t).value.1, t)))
    decreases |s|, 1
  {
    hide ParseValue, SkipWs, ParseString, Suffix;
    assert s != "" by { assert "" + t == t; }
    assert (s + t)[1..] == s[1..] + t && (s + t)[0] == s[0];
    var (key, afterKey) := ParseString(s[1..] + t).value;
    StringShrinks(s[1..], t);
    StringSuffix(s[1..] + t);
    CutBack(afterKey, s[1..], t);
    SkipWsShrinks(Cut(afterKey, t), t);
    var colon := SkipWs(Cut(afterKey, t));
    assert (colon + t)[0] == colon[0] && (colon + t)[1..] == colon[1..] + t;
    SkipWsShrinks(colon[1..], t);
    var valueText := SkipWs(colon[1..]);
    var (v, rest) := ParseValue(valueText + t).value;
    ValueShrinks(valueText, t);
    ValueSuffix(valueText + t);
    CutBack(rest, valueText, t);
    SkipWsShrinks(Cut(rest, t), t);
    var next := SkipWs(Cut(rest, t));
    assert (next + t)[0] == next[0] && (next + t)[1..] == next[1..] + t;
    if next[0] == ',' {
      SkipWsShrinks(next[1..], t);
      FieldsShrink(SkipWs(next[1..]), t);
    }
  }
}
