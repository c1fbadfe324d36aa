/** Decoding undoes printing, and does not look past the end of what it decodes. */
module JsonTheorems {
  import opened Optional
  import opened Json

  lemma Shift(a: string, b: string, c: string)
    ensures (a + b) + c == a + (b + c)
  {
  }

  // ----- printing, then decoding -----

  lemma HexRoundTrip(c: char)
    requires (c as int) < 0x20
    ensures HexChar('0', '0', HexDigit(c as int / 16), HexDigit(c as int % 16)) == Some(c)
  {
    assert HexValue('0') == Some(0);
    assert (c as int / 16) * 16 + c as int % 16 == c as int;
  }

  lemma ParseOneChar(c: char, t: string)
    ensures ParseString(EscapeChar(c) + t) == Prepend(c, ParseString(t))
  {
    hide HexDigit, HexChar;
    var s := EscapeChar(c) + t;
    if (c as int) < 0x20 && c != '\n' && c != '\r' && c != '\t' && c as int != 12 && c as int != 8 {
      HexRoundTrip(c);
      assert s[0] == '\\' && s[1] == 'u' && s[2] == '0' && s[3] == '0';
      assert s[6..] == t;
    } else if |EscapeChar(c)| == 2 {
      assert s[0] == '\\' && s[2..] == t;
    } else {
      assert s[1..] == t;
    }
  }

  lemma ParseClosingQuote(suffix: string)
    ensures ParseString("\"" + suffix) == Some(("", suffix))
  {
    assert ("\"" + suffix)[1..] == suffix;
  }

  lemma {:induction false} ParseEscaped(text: string, suffix: string)
    ensures ParseString(Escape(text) + "\"" + suffix) == Some((text, suffix))
  {
    hide ParseString;
    if text == "" {
      ParseClosingQuote(suffix);
      assert Escape(text) + "\"" + suffix == "\"" + suffix;
    } else {
      hide EscapeChar;
      var first, rest := EscapeChar(text[0]), Escape(text[1..]);
      assert Escape(text) == first + rest;
      hide Escape;
      ParseEscaped(text[1..], suffix);
      ParseOneChar(text[0], rest + "\"" + suffix);
      Shift(first, rest, "\"");
      Shift(first, rest + "\"", suffix);
      assert [text[0]] + text[1..] == text;
    }
  }

  lemma ParseQuoted(text: string, suffix: string)
    ensures Quote(text) + suffix != "" && (Quote(text) + suffix)[0] == '\"'
    ensures ParseString((Quote(text) + suffix)[1..]) == Some((text, suffix))
  {
    hide Escape, ParseString;
    ParseEscaped(text, suffix);
    assert (Quote(text) + suffix)[1..] == Escape(text) + "\"" + suffix;
  }

  lemma SkipNoWs(s: string)
    requires s != "" && !IsWs(s[0])
    ensures SkipWs(s) == s
  {
  }

  lemma SkipOneSpace(s: string)
    requires s != "" && !IsWs(s[0])
    ensures SkipWs(" " + s) == s
  {
    assert (" " + s)[1..] == s;
  }

  /** Whitespace in front is skipped, all four kinds of it. */
  lemma {:induction false} SkipWsDrops(w: string, s: string)
    requires forall i :: 0 <= i < |w| ==> w[i] == ' ' || w[i] == '\t' || w[i] == '\n' || w[i] == '\r'
    ensures SkipWs(w + s) == SkipWs(s)
  {
    if w == "" {
      assert w + s == s;
    } else {
      assert (w + s)[1..] == w[1..] + s;
      SkipWsDrops(w[1..], s);
    }
  }

  /** The escapes the printer does not write: a solidus, and four hexadecimal digits in either case. */
  lemma OtherEscapes(h: seq<nat>, s: string)
    requires |h| == 4 && forall i :: 0 <= i < 4 ==> h[i] < 16
    ensures ParseString("\\/" + s) == Prepend('/', ParseString(s))
    ensures HexValue('A') == HexValue('a') && HexValue('B') == HexValue('b') && HexValue('C') == HexValue('c')
    ensures HexValue('D') == HexValue('d') && HexValue('E') == HexValue('e') && HexValue('F') == HexValue('f')
    ensures var code := h[0] * 4096 + h[1] * 256 + h[2] * 16 + h[3];
      code < 0xD800 || 0xE000 <= code ==>
        ParseString("\\u" + [HexDigit(h[0]), HexDigit(h[1]), HexDigit(h[2]), HexDigit(h[3])] + s)
        == Prepend(code as char, ParseString(s))
  {
    hide HexDigit;
    var t := "\\/" + s;
    assert t[0] == '\\' && t[1] == '/' && t[2..] == s;
    var u := "\\u" + [HexDigit(h[0]), HexDigit(h[1]), HexDigit(h[2]), HexDigit(h[3])] + s;
    assert u[0] == '\\' && u[1] == 'u' && u[6..] == s;
    assert u[2] == HexDigit(h[0]) && u[3] == HexDigit(h[1]) && u[4] == HexDigit(h[2]) && u[5] == HexDigit(h[3]);
  }

  /** A control character that is not escaped ends the decoding of a string, and so does the end of the text. */
  lemma {:induction false} ControlCharacterRefused(text: string, c: char, s: string)
    requires (c as int) < 0x20
    ensures ParseString(Escape(text) + [c] + s).None? && ParseString(Escape(text)).None?
  {
    hide ParseString;
    if text == "" {
      RefusedHere(c, s);
      assert Escape(text) + [c] + s == [c] + s;
    } else {
      hide EscapeChar;
      var rest := Escape(text[1..]);
      ControlCharacterRefused(text[1..], c, s);
      Shift(EscapeChar(text[0]), rest, [c] + s);
      Shift(rest, [c], s);
      Shift(Escape(text), [c], s);
      ParseOneChar(text[0], rest + [c] + s);
      ParseOneChar(text[0], rest);
    }
  }

  lemma RefusedHere(c: char, s: string)
    requires (c as int) < 0x20
    ensures ParseString([c] + s).None? && ParseString("").None?
  {
  }

  // ----- numbers and constants -----

  /** Nothing behind a number that could go on with it. */
  predicate EndsNumber(rest: string) { rest == "" || !IsNumChar(rest[0]) }

  lemma {:induction false} DigitsOf(digits: string, rest: string)
    requires AllDigits(digits) && (rest == "" || !IsDigit(rest[0]))
    ensures Digits(digits + rest) == |digits|
  {
    if digits == "" {
      assert digits + rest == rest;
    } else {
      assert (digits + rest)[1..] == digits[1..] + rest;
      DigitsOf(digits[1..], rest);
    }
  }

  lemma IntegerOf(sign: string, whole: string, rest: string)
    requires sign == "" || sign == "-"
    requires whole != "" && AllDigits(whole) && (whole[0] == '0' ==> |whole| == 1)
    requires rest == "" || !IsDigit(rest[0])
    ensures IntegerLength(sign + whole + rest) == |sign + whole|
  {
    var s := sign + whole + rest;
    assert s[|sign|..] == whole + rest && s[|sign|] == whole[0];
    assert IsDigit(whole[0]) && (sign == "-" ==> s[0] == '-');
    DigitsOf(whole, rest);
  }

  lemma FractionOf(fraction: string, rest: string)
    requires fraction != "" ==> |fraction| > 1 && fraction[0] == '.' && AllDigits(fraction[1..])
    requires rest == "" || (!IsDigit(rest[0]) && rest[0] != '.')
    ensures FractionLength(fraction + rest) == |fraction|
  {
    if fraction == "" {
      assert fraction + rest == rest;
    } else {
      assert (fraction + rest)[1..] == fraction[1..] + rest;
      DigitsOf(fraction[1..], rest);
    }
  }

  lemma ExponentOf(exponent: string, rest: string)
    requires NumberParts("0" + exponent, "", "0", "", exponent) && EndsNumber(rest)
    ensures ExponentLength(exponent + rest) == |exponent|
  {
    var s := exponent + rest;
    if exponent == "" {
      assert s == rest;
    } else {
      var sign := if |exponent| > 1 && (exponent[1] == '+' || exponent[1] == '-') then 1 else 0;
      assert s[0] == exponent[0] && s[1 + sign..] == exponent[1 + sign..] + rest;
      assert |exponent| > 1 && s[1] == exponent[1];
      DigitsOf(exponent[1 + sign..], rest);
    }
  }

  lemma JoinedParts(a: string, b: string, c: string, d: string, rest: string)
    ensures a + b + c + d + rest == a + b + (c + (d + rest))
    ensures (a + b + c + d + rest)[|a + b|..] == c + (d + rest)
    ensures (a + b + c + d + rest)[|a + b| + |c|..] == d + rest
  {
    Shift(a + b + c, d, rest);
    Shift(a + b, c, d + rest);
  }

  /** Where a fraction or an exponent may begin, no digit stands. */
  lemma BehindInteger(text: string, sign: string, whole: string, fraction: string, exponent: string, rest: string)
    requires NumberParts(text, sign, whole, fraction, exponent) && EndsNumber(rest)
    ensures exponent + rest == "" || (!IsDigit((exponent + rest)[0]) && (exponent + rest)[0] != '.')
    ensures fraction + (exponent + rest) == "" || !IsDigit((fraction + (exponent + rest))[0])
    ensures NumberParts("0" + exponent, "", "0", "", exponent)
  {
    assert "0" + "" + "" + exponent == "0" + exponent && "" + "0" == "0";
    if exponent == "" { assert exponent + rest == rest; }
    if fraction == "" { assert fraction + (exponent + rest) == exponent + rest; }
  }

  lemma LengthsAddUp(s: string, a: nat, f: nat)
    requires 0 < a <= |s| && IntegerLength(s) == a && a + f <= |s| && FractionLength(s[a..]) == f
    ensures NumberLength(s) == a + f + ExponentLength(s[a + f..])
  {
    hide IntegerLength, FractionLength, ExponentLength;
  }

  lemma PartLengths(sign: string, whole: string, fraction: string, exponent: string, rest: string)
    requires NumberParts(sign + whole + fraction + exponent, sign, whole, fraction, exponent) && EndsNumber(rest)
    ensures IntegerLength(sign + whole + (fraction + (exponent + rest))) == |sign + whole| > 0
    ensures FractionLength(fraction + (exponent + rest)) == |fraction|
    ensures ExponentLength(exponent + rest) == |exponent|
  {
    BehindInteger(sign + whole + fraction + exponent, sign, whole, fraction, exponent, rest);
    hide IntegerLength, FractionLength, ExponentLength, IsDigit, IsNumChar;
    IntegerOf(sign, whole, fraction + (exponent + rest));
    FractionOf(fraction, exponent + rest);
    ExponentOf(exponent, rest);
  }

  lemma NumberOfParts(text: string, sign: string, whole: string, fraction: string, exponent: string, rest: string)
    requires NumberParts(text, sign, whole, fraction, exponent) && EndsNumber(rest)
    ensures NumberLength(text + rest) == |text| > 0
    ensures text[0] == '-' || IsDigit(text[0])
  {
    assert IsDigit(whole[0]);
    assert text == sign + whole + fraction + exponent;
    PartLengths(sign, whole, fraction, exponent, rest);
    JoinedParts(sign, whole, fraction, exponent, rest);
    hide IntegerLength, FractionLength, ExponentLength, NumberLength, IsDigit, IsNumChar, NumberParts;
    LengthsAddUp(text + rest, |sign + whole|, |fraction|);
  }

  /** A number is read as far as it goes. */
  lemma NumberRoundTrip(text: string, rest: string)
    requires IsNumber(text) && EndsNumber(rest)
    ensures text != "" && (text[0] == '-' || IsDigit(text[0]))
    ensures ParseValue(text + rest) == Some((Num(text), rest))
  {
    hide NumberLength, NumberParts;
    var sign, whole, fraction, exponent :| NumberParts(text, sign, whole, fraction, exponent);
    NumberOfParts(text, sign, whole, fraction, exponent, rest);
    assert (text + rest)[0] == text[0] && (text + rest)[..|text|] == text && (text + rest)[|text|..] == rest;
  }

  lemma ConstantRoundTrip(word: string, rest: string)
    requires IsConstant(word)
    ensures word != "" && !IsWs(word[0]) && word[0] != ']' && word[0] != '}'
    ensures ParseValue(word + rest) == Some((Lit(word), rest))
  {
    hide NumberLength, IntegerLength, ParseString, ParseItems, ParseFields;
    var s := word + rest;
    assert s[0] == word[0] && s[|word|..] == rest && word <= s;
    ConstantFirst(word, s);
    WordIsNoNumber(s);
    NoIntegerNoNumber(s);
  }

  lemma ConstantFirst(word: string, s: string)
    requires IsConstant(word) && word <= s
    ensures ParseWord(s) == Some((Lit(word), s[|word|..]))
    ensures s != "" && s[0] == word[0]
  {
    assert "null"[0] == 'n' && "true"[0] == 't' && "false"[0] == 'f' && "NaN"[0] == 'N' && "Infinity"[0] == 'I' && "-Infinity"[0] == '-';
  }

  lemma DumpsStart(v: Value)
    requires WellFormed(v)
    ensures Dumps(v) != "" && !IsWs(Dumps(v)[0]) && Dumps(v)[0] != ']' && Dumps(v)[0] != '}'
  {
    hide DumpItems, DumpFields, Escape, IsNumber, IsConstant;
    match v
    case Num(lexeme) => NumberRoundTrip(lexeme, "");
    case Lit(word) => ConstantRoundTrip(word, "");
    case _ =>
  }

  /** `loads(dumps(v)) == v`, for every value and any text behind the printed one that does not prolong a number. */
  lemma {:induction false} ValueRoundTrip(v: Value, suffix: string)
    requires WellFormed(v) && (v.Num? ==> EndsNumber(suffix))
    ensures ParseValue(Dumps(v) + suffix) == Some((v, suffix))
    decreases v, 0
  {
    hide ParseItems, ParseFields, ParseString, Escape, DumpItems, DumpFields, NumberLength, ParseWord, IsNumber, IsConstant;
    var s := Dumps(v) + suffix;
    match v
    case Str(text) => ParseQuoted(text, suffix);
    case Num(lexeme) => NumberRoundTrip(lexeme, suffix);
    case Lit(word) => ConstantRoundTrip(word, suffix);
    case Arr(items) =>
      if items == [] {
        NothingDumped();
        assert s[1..] == "]" + suffix && (s[1..])[1..] == suffix;
      } else {
        ItemsRoundTrip(items, suffix);
        DumpsStart(items[0]);
        ItemsStart(items);
        assert s[1..] == DumpItems(items) + "]" + suffix;
        SkipNoWs(s[1..]);
      }
    case Obj(fields) =>
      if fields == [] {
        NothingDumped();
        assert s[1..] == "}" + suffix && (s[1..])[1..] == suffix;
      } else {
        FieldsRoundTrip(fields, suffix);
        FieldsStart(fields);
        assert s[1..] == DumpFields(fields) + ("}" + suffix);
        SkipNoWs(s[1..]);
      }
  }

  lemma NothingDumped()
    ensures DumpItems([]) == "" && DumpFields([]) == ""
  {
  }

  lemma ItemsStart(items: seq<Value>)
    requires items != [] && WellFormed(items[0])
    ensures Dumps(items[0]) <= DumpItems(items)
  {
    hide Dumps;
  }

  lemma FieldsStart(fields: seq<Field>)
    requires fields != []
    ensures DumpFields(fields) != "" && DumpFields(fields)[0] == '\"'
  {
    hide Dumps, Escape;
  }

  lemma ItemsStep(v: Value, next: string)
    requires ParseValue(Dumps(v) + next) == Some((v, next))
    requires next != ""
    ensures next[0] == ']' ==> ParseItems(Dumps(v) + next) == Some(([v], next[1..]))
    ensures next[0] == ',' && |next| > 2 && next[1] == ' ' && !IsWs(next[2]) ==>
      ParseItems(Dumps(v) + next) ==
        match ParseItems(next[2..]) { case None => None case Some((vs, end)) => Some(([v] + vs, end)) }
  {
    hide ParseValue, Dumps;
    if next[0] == ']' || next[0] == ',' { SkipNoWs(next); }
    if next[0] == ',' && |next| > 2 && next[1] == ' ' && !IsWs(next[2]) {
      assert next[1..] == " " + next[2..];
      SkipOneSpace(next[2..]);
    }
  }

  lemma {:induction false} ItemsRoundTrip(items: seq<Value>, suffix: string)
    requires items != [] && forall i :: 0 <= i < |items| ==> WellFormed(items[i])
    ensures ParseItems(DumpItems(items) + "]" + suffix) == Some((items, suffix))
    decreases items, 1
  {
    hide ParseItems, ParseValue, Dumps, SkipWs;
    if |items| == 1 {
      ValueRoundTrip(items[0], "]" + suffix);
      ItemsStep(items[0], "]" + suffix);
      assert DumpItems(items) + "]" + suffix == Dumps(items[0]) + ("]" + suffix);
      assert ("]" + suffix)[1..] == suffix && items == [items[0]];
    } else {
      var tail := DumpItems(items[1..]) + "]" + suffix;
      var next := ", " + tail;
      ValueRoundTrip(items[0], next);
      ItemsRoundTrip(items[1..], suffix);
      DumpsStart(items[1]);
      ItemsStart(items[1..]);
      assert tail[0] == Dumps(items[1])[0];
      assert next[2..] == tail;
      ItemsStep(items[0], next);
      assert DumpItems(items) + "]" + suffix == Dumps(items[0]) + next;
      assert items == [items[0]] + items[1..];
    }
  }

  /** The key, the colon and the space of a printed field are read back. */
  lemma FieldHead(key: string, body: string)
    requires body != "" && !IsWs(body[0])
    ensures var s := Quote(key) + ": " + body;
      && s != "" && s[0] == '\"'
      && ParseString(s[1..]) == Some((key, ": " + body))
      && SkipWs(": " + body) == ": " + body
      && SkipWs((": " + body)[1..]) == body
  {
    hide Escape, ParseString, Quote;
    Shift(Quote(key), ": ", body);
    ParseQuoted(key, ": " + body);
    SkipNoWs(": " + body);
    assert (": " + body)[1..] == " " + body;
    SkipOneSpace(body);
  }

  lemma FieldsStep(f: Field, body: string, next: string)
    requires body != "" && !IsWs(body[0]) && ParseValue(body) == Some((f.value, next))
    requires next != ""
    ensures var s := Quote(f.key) + ": " + body;
      && (next[0] == '}' ==> ParseFields(s) == Some(([f], next[1..])))
      && (next[0] == ',' && |next| > 2 && next[1] == ' ' && !IsWs(next[2]) ==>
          ParseFields(s) ==
            match ParseFields(next[2..]) { case None => None case Some((fs, end)) => Some(([f] + fs, end)) })
  {
    hide ParseValue, Quote, ParseString, SkipWs;
    FieldHead(f.key, body);
    if next[0] == '}' || next[0] == ',' { SkipNoWs(next); }
    if next[0] == ',' && |next| > 2 && next[1] == ' ' && !IsWs(next[2]) {
      assert next[1..] == " " + next[2..];
      SkipOneSpace(next[2..]);
    }
  }

  lemma FieldBody(v: Value, next: string)
    requires WellFormed(v)
    ensures Dumps(v) + next != "" && !IsWs((Dumps(v) + next)[0])
  {
    DumpsStart(v);
  }

  lemma DumpOneField(f: Field, suffix: string)
    ensures DumpFields([f]) + suffix == Quote(f.key) + ": " + (Dumps(f.value) + suffix)
  {
    hide Dumps, Quote;
    Shift(Quote(f.key) + ": ", Dumps(f.value), suffix);
  }

  lemma DumpMoreFields(fields: seq<Field>, suffix: string)
    requires |fields| > 1
    ensures DumpFields(fields) + suffix
      == Quote(fields[0].key) + ": " + (Dumps(fields[0].value) + (", " + (DumpFields(fields[1..]) + suffix)))
  {
    hide Dumps, Quote;
    var first, body, tail := Quote(fields[0].key) + ": ", Dumps(fields[0].value), DumpFields(fields[1..]);
    assert DumpFields(fields) == first + body + ", " + tail;
    hide DumpFields;
    Shift(first + body + ", ", tail, suffix);
    Shift(first + body, ", ", tail + suffix);
    Shift(first, body, ", " + (tail + suffix));
  }

  lemma {:induction false} FieldsRoundTrip(fields: seq<Field>, suffix: string)
    requires fields != [] && forall i :: 0 <= i < |fields| ==> WellFormed(fields[i].value)
    ensures ParseFields(DumpFields(fields) + ("}" + suffix)) == Some((fields, suffix))
    decreases fields, 1
  {
    hide ParseFields, ParseValue, Dumps, SkipWs, Quote, DumpFields, WellFormed;
    var f := fields[0];
    if |fields| == 1 {
      var next := "}" + suffix;
      ValueRoundTrip(f.value, next);
      FieldBody(f.value, next);
      FieldsStep(f, Dumps(f.value) + next, next);
      DumpOneField(f, next);
      assert next[1..] == suffix && fields == [f];
    } else {
      var tail := DumpFields(fields[1..]) + ("}" + suffix);
      var next := ", " + tail;
      ValueRoundTrip(f.value, next);
      FieldsRoundTrip(fields[1..], suffix);
      FieldsStart(fields[1..]);
      assert next[2..] == tail;
      FieldBody(f.value, next);
      FieldsStep(f, Dumps(f.value) + next, next);
      DumpMoreFields(fields, "}" + suffix);
      assert fields == [f] + fields[1..];
    }
  }

  // ----- decoding does not depend on what follows -----

  lemma {:induction false} SkipWsExtends(s: string, t: string)
    requires SkipWs(s) != ""
    ensures SkipWs(s + t) == SkipWs(s) + t
  {
    if IsWs(s[0]) {
      SkipWsExtends(s[1..], t);
      assert (s + t)[1..] == s[1..] + t;
    }
  }

  lemma {:induction false} ParseStringExtends(s: string, t: string)
    requires ParseString(s).Some?
    ensures ParseString(s + t) == Some((ParseString(s).value.0, ParseString(s).value.1 + t))
  {
    hide HexChar, Unescape;
    if s[0] == '\"' {
      assert (s + t)[1..] == s[1..] + t;
    } else if s[0] == '\\' {
      if s[1] == 'u' {
        ParseStringExtends(s[6..], t);
        assert (s + t)[6..] == s[6..] + t;
      } else {
        ParseStringExtends(s[2..], t);
        assert (s + t)[2..] == s[2..] + t;
      }
    } else {
      ParseStringExtends(s[1..], t);
      assert (s + t)[1..] == s[1..] + t;
    }
  }

  lemma {:induction false} DigitsExtend(s: string, t: string)
    requires Digits(s) < |s|
    ensures Digits(s + t) == Digits(s)
  {
    if IsDigit(s[0]) {
      DigitsExtend(s[1..], t);
      assert (s + t)[1..] == s[1..] + t;
    }
  }

  lemma ExponentExtends(s: string, t: string)
    requires ExponentLength(s) < |s| && !IsNumChar(s[ExponentLength(s)])
    ensures ExponentLength(s + t) == ExponentLength(s)
  {
    if s[0] == 'e' || s[0] == 'E' {
      var sign := if |s| > 1 && (s[1] == '+' || s[1] == '-') then 1 else 0;
      assert (s + t)[1 + sign..] == s[1 + sign..] + t;
      DigitsExtend(s[1 + sign..], t);
    }
  }

  lemma IntegerExtends(s: string, t: string)
    requires 0 < IntegerLength(s) < |s|
    ensures IntegerLength(s + t) == IntegerLength(s)
  {
    var sign := if s != "" && s[0] == '-' then 1 else 0;
    assert (s + t)[sign..] == s[sign..] + t;
    if s[sign] != '0' { DigitsExtend(s[sign..], t); }
  }

  /** The fraction ends where it does if the exponent behind it leaves a delimiter. */
  lemma FractionExtends(s: string, t: string)
    requires FractionLength(s) + ExponentLength(s[FractionLength(s)..]) < |s|
    requires !IsNumChar(s[FractionLength(s) + ExponentLength(s[FractionLength(s)..])])
    ensures FractionLength(s + t) == FractionLength(s)
  {
    hide ExponentLength, Digits;
    if s[0] == '.' {
      assert (s + t)[1..] == s[1..] + t;
      assert Digits(s[1..]) < |s[1..]|;
      DigitsExtend(s[1..], t);
    }
  }

  /** A number is read the same with more text behind it, if a delimiter already ends it. */
  lemma NumberExtends(s: string, t: string)
    requires 0 < NumberLength(s) < |s| && !IsNumChar(s[NumberLength(s)])
    ensures NumberLength(s + t) == NumberLength(s)
  {
    hide FractionLength, ExponentLength, IntegerLength, IsNumChar;
    var whole := IntegerLength(s);
    var behind := s[whole..];
    var fraction := FractionLength(behind);
    assert s[whole + fraction..] == behind[fraction..];
    IntegerExtends(s, t);
    FractionExtends(behind, t);
    ExponentExtends(behind[fraction..], t);
    assert (s + t)[whole..] == behind + t;
    assert (s + t)[whole + fraction..] == behind[fraction..] + t;
  }

  lemma WordPrefix(word: string, s: string, t: string)
    requires word <= s
    ensures word <= s + t && (s + t)[|word|..] == s[|word|..] + t
  {
  }

  /** A constant is no number, whatever follows. */
  lemma WordIsNoNumber(s: string)
    requires ParseWord(s).Some?
    ensures IntegerLength(s) == 0
  {
    if s[0] == '-' {
      assert s[1] == "-Infinity"[1];
      assert s[1..][0] == s[1];
    }
  }

  lemma WordExtends(s: string, t: string)
    requires ParseWord(s).Some?
    ensures ParseWord(s + t) == Some((ParseWord(s).value.0, ParseWord(s).value.1 + t))
    ensures NumberLength(s + t) == 0
  {
    hide NumberLength, IntegerLength;
    assert (s + t)[0] == s[0];
    if s[0] == 'n' { WordPrefix("null", s, t); }
    else if s[0] == 't' { WordPrefix("true", s, t); }
    else if s[0] == 'f' { WordPrefix("false", s, t); }
    else if s[0] == 'N' { WordPrefix("NaN", s, t); }
    else if s[0] == 'I' { WordPrefix("Infinity", s, t); }
    else { WordPrefix("-Infinity", s, t); }
    WordIsNoNumber(s + t);
    NoIntegerNoNumber(s + t);
  }

  lemma NoIntegerNoNumber(s: string)
    requires IntegerLength(s) == 0
    ensures NumberLength(s) == 0
  {
  }

  /** Whether the decoded value may be a number that goes on behind the text. */
  ghost predicate Delimited(v: Value, rest: string) {
    v.Num? ==> rest != "" && !IsNumChar(rest[0])
  }

  /**
   Self-delimitation: what is decoded from the front of a text is decoded from every
   extension of the text, with the extension left over; only a number at the very
   end can be prolonged.
   */
  lemma {:induction false} ValueExtends(s: string, t: string)
    requires ParseValue(s).Some? && Delimited(ParseValue(s).value.0, ParseValue(s).value.1)
    ensures ParseValue(s + t) == Some((ParseValue(s).value.0, ParseValue(s).value.1 + t))
    decreases |s|, 0
  {
    hide ParseItems, ParseFields, ParseString, SkipWs, NumberLength, ParseWord;
    assert (s + t)[1..] == s[1..] + t && (s + t)[0] == s[0];
    if s[0] == '\"' {
      ParseStringExtends(s[1..], t);
    } else if s[0] == '{' || s[0] == '[' {
      var body := SkipWs(s[1..]);
      if body == "" {
        NothingParsed();
      }
      SkipWsExtends(s[1..], t);
      assert (body + t)[1..] == body[1..] + t;
      if s[0] == '{' && body[0] != '}' {
        FieldsExtend(body, t);
      } else if s[0] == '[' && body[0] != ']' {
        ItemsExtend(body, t);
      }
    } else {
      var n := NumberLength(s);
      if n > 0 {
        NumberExtends(s, t);
        assert (s + t)[..n] == s[..n] && (s + t)[n..] == s[n..] + t;
      } else {
        WordExtends(s, t);
      }
    }
  }

  lemma NothingParsed()
    ensures ParseItems("").None? && ParseFields("").None?
  {
  }

  lemma AfterValueDelimits(v: Value, rest: string)
    requires var next := SkipWs(rest); next != "" && (next[0] == ']' || next[0] == '}' || next[0] == ',')
    ensures Delimited(v, rest)
  {
  }

  lemma {:induction false} ItemsExtend(s: string, t: string)
    requires ParseItems(s).Some?
    ensures ParseItems(s + t) == Some((ParseItems(s).value.0, ParseItems(s).value.1 + t))
    decreases |s|, 1
  {
    hide ParseValue, SkipWs;
    var (v, rest) := ParseValue(s).value;
    var next := SkipWs(rest);
    AfterValueDelimits(v, rest);
    ValueExtends(s, t);
    SkipWsExtends(rest, t);
    assert (next + t)[1..] == next[1..] + t && (next + t)[0] == next[0];
    if next[0] == ',' {
      if SkipWs(next[1..]) == "" { NothingParsed(); }
      SkipWsExtends(next[1..], t);
      ItemsExtend(SkipWs(next[1..]), t);
    }
  }

  lemma {:induction false} FieldsExtend(s: string, t: string)
    requires ParseFields(s).Some?
    ensures ParseFields(s + t) == Some((ParseFields(s).value.0, ParseFields(s).value.1 + t))
    decreases |s|, 1
  {
    hide ParseValue, SkipWs, ParseString;
    assert (s + t)[1..] == s[1..] + t && (s + t)[0] == s[0];
    ParseStringExtends(s[1..], t);
    var (key, afterKey) := ParseString(s[1..]).value;
    var colon := SkipWs(afterKey);
    SkipWsExtends(afterKey, t);
    assert (colon + t)[1..] == colon[1..] + t && (colon + t)[0] == colon[0];
    var valueText := SkipWs(colon[1..]);
    if valueText == "" { NoValue(); }
    SkipWsExtends(colon[1..], t);
    var (v, rest) := ParseValue(valueText).value;
    var next := SkipWs(rest);
    AfterValueDelimits(v, rest);
    ValueExtends(valueText, t);
    SkipWsExtends(rest, t);
    assert (next + t)[1..] == next[1..] + t && (next + t)[0] == next[0];
    if next[0] == ',' {
      if SkipWs(next[1..]) == "" { NothingParsed(); }
      SkipWsExtends(next[1..], t);
      FieldsExtend(SkipWs(next[1..]), t);
    }
  }

  lemma NoValue()
    ensures ParseValue("").None?
  {
  }

  // ----- what is left over is the end of the text -----

  ghost predicate Suffix(r: string, s: string) {
    |r| <= |s| && r == s[|s| - |r|..]
  }

  lemma SuffixOfTail(r: string, s: string, k: nat)
    requires k <= |s| && Suffix(r, s[k..])
    ensures Suffix(r, s)
  {
  }

  lemma SuffixTransitive(a: string, b: string, c: string)
    requires Suffix(a, b) && Suffix(b, c)
    ensures Suffix(a, c)
  {
  }

  lemma {:induction false} SkipWsSuffix(s: string)
    ensures Suffix(SkipWs(s), s)
  {
    if s != "" && IsWs(s[0]) {
      SkipWsSuffix(s[1..]);
      SuffixOfTail(SkipWs(s), s, 1);
    }
  }

  lemma {:induction false} StringSuffix(s: string)
    requires ParseString(s).Some?
    ensures Suffix(ParseString(s).value.1, s)
  {
    hide HexChar, Unescape, Suffix;
    var rest := ParseString(s).value.1;
    if s[0] == '\"' {
      SuffixRefl(s[1..]);
      SuffixOfTail(rest, s, 1);
    } else if s[0] == '\\' {
      var k := if s[1] == 'u' then 6 else 2;
      StringSuffix(s[k..]);
      SuffixOfTail(rest, s, k);
    } else {
      StringSuffix(s[1..]);
      SuffixOfTail(rest, s, 1);
    }
  }

  lemma SuffixRefl(s: string)
    ensures Suffix(s, s)
  {
  }

  lemma {:induction false} ValueSuffix(s: string)
    requires ParseValue(s).Some?
    ensures Suffix(ParseValue(s).value.1, s)
    decreases |s|, 0
  {
    hide ParseItems, ParseFields, ParseString, SkipWs, NumberLength, Suffix;
    var rest := ParseValue(s).value.1;
    if s[0] == '\"' {
      StringSuffix(s[1..]);
      SuffixOfTail(rest, s, 1);
    } else if s[0] == '{' || s[0] == '[' {
      var body := SkipWs(s[1..]);
      if body == "" { NothingParsed(); }
      SkipWsSuffix(s[1..]);
      SuffixOfTail(body, s, 1);
      if s[0] == '{' && body[0] != '}' {
        FieldsSuffix(body);
      } else if s[0] == '[' && body[0] != ']' {
        ItemsSuffix(body);
      } else {
        SuffixRefl(body[1..]);
        SuffixOfTail(rest, body, 1);
      }
      SuffixTransitive(rest, body, s);
    } else {
      var k := |s| - |rest|;
      SuffixRefl(s[k..]);
      SuffixOfTail(rest, s, k);
    }
  }

  lemma {:induction false} ItemsSuffix(s: string)
    requires ParseItems(s).Some?
    ensures Suffix(ParseItems(s).value.1, s)
    decreases |s|, 1
  {
    hide ParseValue, SkipWs, Suffix;
    var (v, rest) := ParseValue(s).value;
    var next := SkipWs(rest);
    ValueSuffix(s);
    SkipWsSuffix(rest);
    SuffixTransitive(next, rest, s);
    SuffixRefl(next[1..]);
    SuffixOfTail(next[1..], next, 1);
    SuffixTransitive(next[1..], next, s);
    if next[0] == ',' {
      SkipWsSuffix(next[1..]);
      SuffixTransitive(SkipWs(next[1..]), next[1..], s);
      ItemsSuffix(SkipWs(next[1..]));
      SuffixTransitive(ParseItems(s).value.1, SkipWs(next[1..]), s);
    }
  }

  lemma {:induction false} FieldsSuffix(s: string)
    requires ParseFields(s).Some?
    ensures Suffix(ParseFields(s).value.1, s)
    decreases |s|, 1
  {
    hide ParseValue, SkipWs, ParseString, Suffix;
    var (key, afterKey) := ParseString(s[1..]).value;
    StringSuffix(s[1..]);
    SuffixOfTail(afterKey, s, 1);
    var colon := SkipWs(afterKey);
    SkipWsSuffix(afterKey);
    SuffixTransitive(colon, afterKey, s);
    SuffixRefl(colon[1..]);
    SuffixOfTail(colon[1..], colon, 1);
    SuffixTransitive(colon[1..], colon, s);
    var valueText := SkipWs(colon[1..]);
    SkipWsSuffix(colon[1..]);
    SuffixTransitive(valueText, colon[1..], s);
    var (v, rest) := ParseValue(valueText).value;
    ValueSuffix(valueText);
    SuffixTransitive(rest, valueText, s);
    var next := SkipWs(rest);
    SkipWsSuffix(rest);
    SuffixTransitive(next, rest, s);
    SuffixRefl(next[1..]);
    SuffixOfTail(next[1..], next, 1);
    SuffixTransitive(next[1..], next, s);
    if next[0] == ',' {
      SkipWsSuffix(next[1..]);
      SuffixTransitive(SkipWs(next[1..]), next[1..], s);
      FieldsSuffix(SkipWs(next[1..]));
      SuffixTransitive(ParseFields(s).value.1, SkipWs(next[1..]), s);
    }
  }
}
