/**
 Reading a tool set out of a prompt, and the cold-start stratum it falls into; and
 `render_tool_schema`, which writes such prompts.
 */
module ToolVocabulary {
  import opened Optional
  import opened Json
  import opened JsonTheorems

  const INVOKE_MARKER := "you can invoke:"

  // ----- the bracket scanner -----

  datatype Scan = Scan(depth: int, inString: bool, escaped: bool)

  function ScanChar(st: Scan, c: char): Scan {
    if st.inString then
      if st.escaped then st.(escaped := false)
      else if c == '\\' then st.(escaped := true)
      else if c == '\"' then st.(inString := false)
      else st
    else if c == '\"' then st.(inString := true)
    else if c == '[' || c == '{' then st.(depth := st.depth + 1)
    else if c == ']' || c == '}' then st.(depth := st.depth - 1)
    else st
  }

  /** Whether reading `c` closes the outermost bracket. */
  predicate Closes(st: Scan, c: char) {
    !st.inString && (c == ']' || c == '}') && st.depth - 1 == 0
  }

  /** How many characters the scanner reads before it stops. */
  function ScanLength(st: Scan, s: string): Option<nat>
    decreases |s|
  {
    if s == "" then None
    else if Closes(st, s[0]) then Some(1)
    else
      match ScanLength(ScanChar(st, s[0]), s[1..])
      case None => None
      case Some(n) => Some(n + 1)
  }

  // ----- finding the schema -----

  /** `text.find(part, start)`. */
  function Find(text: string, part: string, start: nat): (r: Option<nat>)
    requires start <= |text|
    ensures r.Some? ==> start <= r.value <= |text| && part <= text[r.value..]
    decreases |text| - start
  {
    if part <= text[start..] then Some(start)
    else if start == |text| then None
    else Find(text, part, start + 1)
  }

  /** Where the scan starts: the first opening bracket after the marker, or in the whole text without one. */
  function SchemaStart(text: string): (r: Option<nat>)
    ensures r.Some? ==> r.value < |text| && text[r.value] == '['
  {
    var marker := Find(text, INVOKE_MARKER, 0);
    var r := Find(text, "[", if marker.Some? then marker.value else 0);
    assert r.Some? ==> text[r.value..][0] == "["[0];
    r
  }

  /** `json.loads`: the whole text is one value, with whitespace around it. */
  function Loads(s: string): Option<Value> {
    match ParseValue(SkipWs(s))
    case None => None
    case Some((v, rest)) => if SkipWs(rest) == "" then Some(v) else None
  }

  /** Whitespace around the value does not matter, anything else behind it does. */
  lemma LoadsWholeText(v: Value, before: string, after: string, junk: string)
    requires WellFormed(v) && !v.Num?
    requires SkipWs(before) == "" && SkipWs(after) == "" && SkipWs(junk) != ""
    ensures Loads(before + Dumps(v) + after) == Some(v)
    ensures Loads(before + Dumps(v) + junk).None?
  {
    hide ParseValue, Dumps, SkipWs;
    LoadsFront(v, before, after);
    LoadsFront(v, before, junk);
  }

  lemma LoadsFront(v: Value, before: string, after: string)
    requires WellFormed(v) && !v.Num? && SkipWs(before) == ""
    ensures ParseValue(SkipWs(before + Dumps(v) + after)) == Some((v, after))
  {
    hide ParseValue, Dumps;
    DumpsStart(v);
    OnlyWs(before);
    SkipWsDrops(before, Dumps(v) + after);
    Shift(before, Dumps(v), after);
    SkipNoWs(Dumps(v) + after);
    ValueRoundTrip(v, after);
  }

  lemma {:induction false} OnlyWs(w: string)
    requires SkipWs(w) == ""
    ensures forall i :: 0 <= i < |w| ==> IsWs(w[i])
  {
    if w != "" { OnlyWs(w[1..]); }
  }

  function LoadsList(s: string): Option<seq<Value>> {
    match Loads(s)
    case Some(Arr(items)) => Some(items)
    case _ => None
  }

  /** `_extract_schema_json`. */
  function ExtractSchema(text: string): Option<seq<Value>> {
    match SchemaStart(text)
    case None => None
    case Some(start) =>
      match ScanLength(Scan(0, false, false), text[start..])
      case None => None
      case Some(n) => if n <= |text| - start then LoadsList(text[start..start + n]) else None
  }

  lemma {:induction false} ScanLengthBound(st: Scan, s: string)
    requires ScanLength(st, s).Some?
    ensures 1 <= ScanLength(st, s).value <= |s|
    decreases |s|
  {
    if !Closes(st, s[0]) { ScanLengthBound(ScanChar(st, s[0]), s[1..]); }
  }

  method ExtractSchemaJson(text: string) returns (r: Option<seq<Value>>)
    ensures r == ExtractSchema(text)
  {
    hide LoadsList, Loads, Find;
    var start := SchemaStart(text);
    if start.None? {
      return None;
    }
    var depth, inString, escaped := 0, false, false;
    var index := start.value;
    ghost var whole := ScanLength(Scan(0, false, false), text[start.value..]);
    while index < |text|
      invariant start.value <= index <= |text|
      invariant whole == Shifted(ScanLength(Scan(depth, inString, escaped), text[index..]), index - start.value)
    {
      var c := text[index];
      assert text[index..][0] == c && text[index..][1..] == text[index + 1..];
      if inString {
        if escaped {
          escaped := false;
        } else if c == '\\' {
          escaped := true;
        } else if c == '\"' {
          inString := false;
        }
      } else if c == '\"' {
        inString := true;
      } else if c == '[' || c == '{' {
        depth := depth + 1;
      } else if c == ']' || c == '}' {
        depth := depth - 1;
        if depth == 0 {
          var items := LoadsList(text[start.value..index + 1]);
          return items;
        }
      }
      index := index + 1;
    }
    return None;
  }

  function Shifted(r: Option<nat>, n: nat): Option<nat> {
    match r
    case None => None
    case Some(k) => Some(k + n)
  }

  // ----- the scanner stops at the end of the printed array -----

  /** The scanner does not stop anywhere in `s`. */
  predicate RunsThrough(st: Scan, s: string)
    decreases |s|
  {
    s == "" || (!Closes(st, s[0]) && RunsThrough(ScanChar(st, s[0]), s[1..]))
  }

  function ScanAll(st: Scan, s: string): Scan
    decreases |s|
  {
    if s == "" then st else ScanAll(ScanChar(st, s[0]), s[1..])
  }

  lemma {:induction false} ScanConcat(st: Scan, a: string, b: string)
    ensures RunsThrough(st, a + b) <==> RunsThrough(st, a) && RunsThrough(ScanAll(st, a), b)
    ensures ScanAll(st, a + b) == ScanAll(ScanAll(st, a), b)
    ensures RunsThrough(st, a) ==> ScanLength(st, a + b) == Shifted(ScanLength(ScanAll(st, a), b), |a|)
    decreases |a|
  {
    if a == "" {
      assert a + b == b;
    } else {
      assert (a + b)[1..] == a[1..] + b;
      ScanConcat(ScanChar(st, a[0]), a[1..], b);
    }
  }

  /** The scanner passes over `s` and is back in the state it was in. */
  ghost predicate Passes(depth: int, s: string) {
    RunsThrough(Scan(depth, false, false), s) && ScanAll(Scan(depth, false, false), s) == Scan(depth, false, false)
  }

  lemma PassesConcat(depth: int, a: string, b: string)
    requires Passes(depth, a) && Passes(depth, b)
    ensures Passes(depth, a + b)
  {
    ScanConcat(Scan(depth, false, false), a, b);
  }

  lemma ScanEscapedChar(depth: int, c: char)
    ensures RunsThrough(Scan(depth, true, false), EscapeChar(c))
    ensures ScanAll(Scan(depth, true, false), EscapeChar(c)) == Scan(depth, true, false)
  {
    var st := Scan(depth, true, false);
    var s := EscapeChar(c);
    if |s| == 1 {
      assert s[1..] == "";
    } else if |s| == 2 {
      ScanTwo(st, s[0], s[1]);
      assert s == [s[0], s[1]];
    } else {
      ScanHexEscape(st, s);
    }
  }

  /** Inside a string, a backslash and the character behind it change nothing. */
  lemma ScanTwo(st: Scan, a: char, b: char)
    requires st.inString && !st.escaped && a == '\\'
    ensures RunsThrough(st, [a, b]) && ScanAll(st, [a, b]) == st
  {
    OneChar(st, a);
    OneChar(ScanChar(st, a), b);
    ScanConcat(st, [a], [b]);
    assert [a] + [b] == [a, b];
  }

  lemma ScanHexEscape(st: Scan, s: string)
    requires |s| == 6 && st.inString && !st.escaped
    requires s[0] == '\\' && forall i :: 2 <= i < 6 ==> s[i] != '\\' && s[i] != '\"'
    ensures RunsThrough(st, s) && ScanAll(st, s) == st
  {
    ScanTwo(st, s[0], s[1]);
    assert s == [s[0], s[1]] + s[2..];
    ScanConcat(st, [s[0], s[1]], s[2..]);
    ScanOrdinary(st, s[2..]);
  }

  lemma {:induction false} ScanOrdinary(st: Scan, s: string)
    requires st.inString && !st.escaped && forall i :: 0 <= i < |s| ==> s[i] != '\\' && s[i] != '\"'
    ensures RunsThrough(st, s) && ScanAll(st, s) == st
  {
    if s != "" { ScanOrdinary(st, s[1..]); }
  }

  lemma {:induction false} ScanEscaped(depth: int, text: string)
    ensures RunsThrough(Scan(depth, true, false), Escape(text))
    ensures ScanAll(Scan(depth, true, false), Escape(text)) == Scan(depth, true, false)
  {
    hide EscapeChar;
    if text != "" {
      ScanEscapedChar(depth, text[0]);
      ScanEscaped(depth, text[1..]);
      ScanConcat(Scan(depth, true, false), EscapeChar(text[0]), Escape(text[1..]));
    }
  }

  lemma QuotePasses(depth: int, text: string)
    ensures Passes(depth, Quote(text))
  {
    hide Escape;
    var outside, inside := Scan(depth, false, false), Scan(depth, true, false);
    ScanEscaped(depth, text);
    assert "\""[1..] == "";
    assert ScanAll(outside, "\"") == inside && RunsThrough(outside, "\"");
    assert ScanAll(inside, "\"") == outside && RunsThrough(inside, "\"");
    ScanConcat(outside, "\"", Escape(text));
    ScanConcat(outside, "\"" + Escape(text), "\"");
  }

  lemma SeparatorsPass(depth: int)
    ensures Passes(depth, ", ") && Passes(depth, ": ")
  {
    assert ", "[1..] == " " && ": "[1..] == " " && " "[1..] == "";
  }

  /** What holds neither quotes nor brackets is passed over. */
  lemma {:induction false} OrdinaryPasses(depth: int, s: string)
    requires forall i :: 0 <= i < |s| ==> s[i] != '\"' && s[i] != '[' && s[i] != ']' && s[i] != '{' && s[i] != '}'
    ensures Passes(depth, s)
  {
    if s != "" { OrdinaryPasses(depth, s[1..]); }
  }

  lemma NumberPasses(depth: int, text: string)
    requires IsNumber(text)
    ensures Passes(depth, text)
  {
    var sign, whole, fraction, exponent :| NumberParts(text, sign, whole, fraction, exponent);
    forall i | 0 <= i < |text| ensures IsNumChar(text[i]) {
      NumberChars(text, sign, whole, fraction, exponent, i);
    }
    OrdinaryPasses(depth, text);
  }

  lemma NumberChars(text: string, sign: string, whole: string, fraction: string, exponent: string, i: nat)
    requires NumberParts(text, sign, whole, fraction, exponent) && i < |text|
    ensures IsNumChar(text[i])
  {
    var a, b := |sign| + |whole|, |sign| + |whole| + |fraction|;
    if a <= i < b {
      assert text[i] == fraction[i - a];
      if i > a { assert text[i] == fraction[1..][i - a - 1]; }
    } else if i >= b {
      assert text[i] == exponent[i - b];
      if i >= b + 2 { assert exponent[i - b] == exponent[1..][i - b - 1] == exponent[2..][i - b - 2]; }
      if i == b + 1 { assert exponent[1] == exponent[1..][0]; }
    }
  }

  lemma ConstantPasses(depth: int, word: string)
    requires IsConstant(word)
    ensures Passes(depth, word)
  {
    OrdinaryPasses(depth, word);
  }

  /** Inside at least one bracket, a printed value is passed over; its own brackets balance. */
  lemma {:induction false} ValuePasses(depth: int, v: Value)
    requires depth >= 1 && WellFormed(v)
    ensures Passes(depth, Dumps(v))
    decreases v, 0
  {
    hide DumpItems, DumpFields, Quote, ScanAll, RunsThrough, IsNumber, IsConstant;
    match v
    case Str(text) => QuotePasses(depth, text);
    case Num(lexeme) => NumberPasses(depth, lexeme);
    case Lit(word) => ConstantPasses(depth, word);
    case Arr(items) =>
      ItemsPass(depth + 1, items);
      BracketsPass(depth, '[', DumpItems(items), ']');
    case Obj(fields) =>
      FieldsPass(depth + 1, fields);
      BracketsPass(depth, '{', DumpFields(fields), '}');
  }

  lemma BracketsPass(depth: int, open: char, body: string, close: char)
    requires depth >= 1 && (open == '[' || open == '{') && (close == ']' || close == '}')
    requires Passes(depth + 1, body)
    ensures Passes(depth, [open] + body + [close])
  {
    var outside, inside := Scan(depth, false, false), Scan(depth + 1, false, false);
    OneChar(outside, open);
    OneChar(inside, close);
    ScanConcat(outside, [open], body);
    ScanConcat(outside, [open] + body, [close]);
  }

  lemma OneChar(st: Scan, c: char)
    ensures ScanAll(st, [c]) == ScanChar(st, c)
    ensures RunsThrough(st, [c]) <==> !Closes(st, c)
    ensures Closes(st, c) ==> ScanLength(st, [c]) == Some(1)
  {
    assert [c][1..] == "";
  }

  lemma {:induction false} ItemsPass(depth: int, items: seq<Value>)
    requires depth >= 1 && forall i :: 0 <= i < |items| ==> WellFormed(items[i])
    ensures Passes(depth, DumpItems(items))
    decreases items, 1
  {
    hide Dumps, ScanChar, Closes;
    if items != [] {
      ValuePasses(depth, items[0]);
      if |items| > 1 {
        ItemsPass(depth, items[1..]);
        SeparatorsPass(depth);
        PassesConcat(depth, Dumps(items[0]), ", ");
        PassesConcat(depth, Dumps(items[0]) + ", ", DumpItems(items[1..]));
      }
    }
  }

  lemma {:induction false} FieldsPass(depth: int, fields: seq<Field>)
    requires depth >= 1 && forall i :: 0 <= i < |fields| ==> WellFormed(fields[i].value)
    ensures Passes(depth, DumpFields(fields))
    decreases fields, 1
  {
    hide Dumps, Quote, ScanChar, Closes;
    if fields != [] {
      var key, value := Quote(fields[0].key), Dumps(fields[0].value);
      QuotePasses(depth, fields[0].key);
      ValuePasses(depth, fields[0].value);
      SeparatorsPass(depth);
      PassesConcat(depth, key, ": ");
      PassesConcat(depth, key + ": ", value);
      if |fields| > 1 {
        FieldsPass(depth, fields[1..]);
        PassesConcat(depth, key + ": " + value, ", ");
        PassesConcat(depth, key + ": " + value + ", ", DumpFields(fields[1..]));
      }
    }
  }

  /** Started at a printed array, the scanner stops exactly at its last character, whatever follows. */
  lemma ScanStopsAtEnd(items: seq<Value>, suffix: string)
    requires forall i :: 0 <= i < |items| ==> WellFormed(items[i])
    ensures ScanLength(Scan(0, false, false), Dumps(Arr(items)) + suffix) == Some(|Dumps(Arr(items))|)
  {
    hide DumpItems;
    var outside, inside := Scan(0, false, false), Scan(1, false, false);
    var body := DumpItems(items);
    ItemsPass(1, items);
    OneChar(outside, '[');
    ScanConcat(outside, "[", body);
    ScanConcat(outside, "[" + body, "]" + suffix);
    assert ("]" + suffix)[0] == ']';
    assert ScanLength(inside, "]" + suffix) == Some(1);
    assert Dumps(Arr(items)) + suffix == ("[" + body) + ("]" + suffix);
  }
}
