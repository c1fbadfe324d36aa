/** When reading in chunks is reading the whole text: exactly when no number of the array can be cut in two. */
module JsonArrayChunks {
  import opened Optional
  import opened Json
  import opened JsonTheorems
  import opened JsonLocality
  import opened JsonArrayReader

  // ----- the reference reading is the decoder's -----

  lemma {:induction false} DigitsStart(s: string)
    requires NumberLength(s) > 0
    ensures s != "" && (IsDigit(s[0]) || s[0] == '-')
  {
  }

  lemma ValueStart(s: string)
    requires ParseValue(s).Some?
    ensures s != "" && !IsFiller(s[0]) && s[0] != ']' && !IsWs(s[0])
  {
    hide ParseItems, ParseFields, ParseString, NumberLength;
    if s[0] != '\"' && s[0] != '{' && s[0] != '[' {
      if NumberLength(s) > 0 {
        DigitsStart(s);
      } else {
        assert "-Infinity"[0] == '-';
      }
    }
  }

  /** Whitespace of the JSON grammar is skipped by the reader too. */
  lemma {:induction false} SkipWsThenFiller(s: string)
    ensures SkipFiller(SkipWs(s)) == SkipFiller(s)
  {
    if s != "" && IsWs(s[0]) {
      SkipWsThenFiller(s[1..]);
    }
  }

  lemma ItemsStartValue(s: string)
    requires ParseItems(s).Some?
    ensures ParseValue(s).Some?
  {
  }

  lemma {:induction false} ItemsAreRead(s: string)
    requires ParseItems(s).Some?
    ensures ReadElements(s) == Reading(ParseItems(s).value.0, Finished)
    decreases |s|
  {
    assert !IsSpace(']');
    hide ParseValue, SkipWs, IsSpace;
    ItemsStartValue(s);
    ValueStart(s);
    assert SkipFiller(s) == s;
    var (v, rest) := ParseValue(s).value;
    var next := SkipWs(rest);
    SkipWsThenFiller(rest);
    if next[0] == ',' {
      var more := SkipWs(next[1..]);
      SkipWsThenFiller(next[1..]);
      assert SkipFiller(next) == SkipFiller(next[1..]);
      ItemsStartValue(more);
      ValueStart(more);
      assert SkipFiller(more) == more;
      ItemsAreRead(more);
      SameElementsAhead(rest, more);
    } else {
      assert next[0] == ']';
      assert SkipFiller(next) == next;
    }
  }

  lemma SameElementsAhead(a: string, b: string)
    requires SkipFiller(a) == SkipFiller(b)
    ensures ReadElements(a) == ReadElements(b)
  {
    hide ParseValue, SkipFiller;
  }

  /**
   Against the decoder: if the decoder finds an array at the front of the text,
   reading it finds the same elements and its end.
   */
  lemma ReadingAgreesWithDecoder(text: string)
    requires ParseValue(text).Some? && ParseValue(text).value.0.Arr?
    ensures Read(text) == Reading(ParseValue(text).value.0.items, Finished)
  {
    hide ParseItems, ParseFields, ParseString, NumberLength, ParseWord, SkipWs;
    NotAWordOrNumber(text);
    assert !IsSpace('[');
    assert SkipSpace(text) == text;
    var body := SkipWs(text[1..]);
    SkipWsThenFiller(text[1..]);
    if body != "" && body[0] == ']' {
      assert SkipFiller(body) == body;
    } else {
      ItemsAreRead(body);
      ItemsStartValue(body);
      SameElementsAhead(text[1..], body);
    }
  }

  lemma NotAWordOrNumber(text: string)
    requires ParseValue(text).Some? && ParseValue(text).value.0.Arr?
    ensures text != "" && text[0] == '['
  {
    hide ParseItems, ParseFields, ParseString, NumberLength;
  }

  // ----- arrays that are not well formed -----

  lemma OneElement(v: Value, rest: string)
    requires WellFormed(v) && EndsNumber(rest)
    ensures ReadElements(Dumps(v) + rest) == After([v], ReadElements(rest))
  {
    hide ParseValue, IsSpace, Dumps;
    ValueRoundTrip(v, rest);
    ValueStart(Dumps(v) + rest);
    var s := Dumps(v) + rest;
    assert SkipFiller(s) == s;
  }

  lemma SeparatorSkipped(rest: string)
    ensures ReadElements(", " + rest) == ReadElements(rest)
  {
    assert IsFiller(',') && IsFiller(' ');
    assert (", " + rest)[1..] == " " + rest && (" " + rest)[1..] == rest;
    hide IsFiller;
    SameElementsAhead(", " + rest, rest);
  }

  /** Printed elements are read one after another, whatever comes behind them. */
  lemma {:induction false} PrintedElementsAreRead(items: seq<Value>, rest: string)
    requires items != [] && (forall i :: 0 <= i < |items| ==> WellFormed(items[i])) && EndsNumber(rest)
    ensures ReadElements(DumpItems(items) + rest) == After(items, ReadElements(rest))
  {
    hide ReadElements, Dumps;
    if |items| == 1 {
      OneElement(items[0], rest);
      assert items == [items[0]];
    } else {
      var tail := DumpItems(items[1..]) + rest;
      PrintedElementsAreRead(items[1..], rest);
      OneElement(items[0], ", " + tail);
      SeparatorSkipped(tail);
      assert DumpItems(items) + rest == Dumps(items[0]) + (", " + tail);
      assert items == [items[0]] + items[1..];
    }
  }

  lemma ReadBehindBracket(body: string)
    ensures Read("[" + body) == ReadElements(body)
  {
    assert !IsSpace('[');
    hide ReadElements, IsSpace;
    assert ("[" + body)[1..] == body;
  }

  lemma WithoutArray(text: string)
    ensures SkipSpace(text) == "" ==> Read(text) == Reading([], Unterminated)
    ensures SkipSpace(text) != "" && SkipSpace(text)[0] != '[' ==> Read(text) == Reading([], NotAnArray)
  {
    hide ReadElements, SkipSpace;
  }

  lemma WithoutElement(junk: string)
    ensures ReadElements("") == Reading([], Unterminated)
    ensures junk != "" && !IsFiller(junk[0]) && junk[0] != ']' && ParseValue(junk).None? ==> ReadElements(junk) == Reading([], BadElement)
  {
    hide ParseValue, IsFiller;
  }

  /**
   How reading ends otherwise. A text without an opening bracket is no array; behind
   the elements read so far, the end of the text leaves the array unterminated, and what
   is no value is a bad element.
   */
  lemma ReadingEndings(items: seq<Value>, text: string, junk: string)
    requires items != [] && (forall i :: 0 <= i < |items| ==> WellFormed(items[i]))
    requires junk != "" && !IsFiller(junk[0]) && junk[0] != ']' && ParseValue(junk).None?
    ensures SkipSpace(text) == "" ==> Read(text) == Reading([], Unterminated)
    ensures SkipSpace(text) != "" && SkipSpace(text)[0] != '[' ==> Read(text) == Reading([], NotAnArray)
    ensures Read("[" + DumpItems(items)) == Reading(items, Unterminated)
    ensures Read("[" + (DumpItems(items) + (", " + junk))) == Reading(items, BadElement)
  {
    hide ParseValue, IsFiller, DumpItems, Read, ReadElements, SkipSpace, WellFormed;
    WithoutArray(text);
    WithoutElement(junk);
    PrintedElementsAreRead(items, "");
    PrintedElementsAreRead(items, ", " + junk);
    SeparatorSkipped(junk);
    assert DumpItems(items) + "" == DumpItems(items);
    ReadBehindBracket(DumpItems(items));
    ReadBehindBracket(DumpItems(items) + (", " + junk));
  }

  // ----- numbers that can be cut -----

  /** The length of the shortest number with the sign of `s`. */
  function MinLength(s: string): nat { if s != "" && s[0] == '-' then 2 else 1 }

  /** `s` starts with a number of which a proper beginning is a number too. */
  predicate Cuttable(s: string) { NumberLength(s) > MinLength(s) }

  /** No element is such a number. */
  ghost predicate NoCutElements(s: string)
    decreases |s|
  {
    var next := SkipFiller(s);
    next == "" || next[0] == ']' ||
    (!Cuttable(next) && (ParseValue(next).Some? ==> NoCutElements(ParseValue(next).value.1)))
  }

  /** What a caller can look for before reading in chunks. */
  ghost predicate NoCuttableNumbers(text: string) {
    var next := SkipSpace(text);
    next != "" && next[0] == '[' ==> NoCutElements(next[1..])
  }

  function ReadFrom(started: bool, s: string): Reading {
    if started then ReadElements(s) else Read(s)
  }

  ghost predicate NoCut(started: bool, s: string) {
    if started then NoCutElements(s) else NoCuttableNumbers(s)
  }

  lemma IntegerStart(s: string, t: string)
    requires IntegerLength(s) > 0
    ensures s != "" && IntegerLength(s) >= MinLength(s)
    ensures IntegerLength(s + t) > 0 && MinLength(s + t) == MinLength(s)
  {
    var sign := if s[0] == '-' then 1 else 0;
    assert |s| > sign && IsDigit(s[sign]);
    assert (s + t)[sign..] == s[sign..] + t && (s + t)[sign] == s[sign];
  }

  /** A number that cannot be cut is the same number in every text that holds it. */
  lemma UncutNumber(s: string, t: string)
    requires NumberLength(s) > 0 && !Cuttable(s + t)
    ensures NumberLength(s + t) == NumberLength(s)
  {
    hide IntegerLength, FractionLength, ExponentLength;
    IntegerStart(s, t);
    NumberShrinks(s, t);
  }

  /** So an element decoded from the buffer alone is the element of the whole text. */
  lemma ElementKept(s: string, t: string)
    requires ParseValue(s).Some? && !Cuttable(s + t)
    ensures ParseValue(s + t) == Some((ParseValue(s).value.0, ParseValue(s).value.1 + t))
  {
    hide ParseItems, ParseFields, ParseString, NumberLength, ParseWord, Cuttable;
    if ParseValue(s).value.0.Num? {
      var n := NumberLength(s);
      UncutNumber(s, t);
      assert (s + t)[0] == s[0] && (s + t)[..n] == s[..n] && (s + t)[n..] == s[n..] + t;
    } else {
      ValueExtends(s, t);
    }
  }

  lemma {:induction false} SkipFillerAppend(s: string, t: string)
    ensures SkipFiller(s + t) == if SkipFiller(s) == "" then SkipFiller(t) else SkipFiller(s) + t
  {
    if s == "" {
      assert s + t == t;
    } else if IsFiller(s[0]) {
      assert (s + t)[1..] == s[1..] + t;
      SkipFillerAppend(s[1..], t);
    }
  }

  lemma {:induction false} SkipSpaceAppend(s: string, t: string)
    ensures SkipSpace(s + t) == if SkipSpace(s) == "" then SkipSpace(t) else SkipSpace(s) + t
  {
    if s == "" {
      assert s + t == t;
    } else if IsSpace(s[0]) {
      assert (s + t)[1..] == s[1..] + t;
      SkipSpaceAppend(s[1..], t);
    }
  }

  /** What a pass over `s` does for the reading of `s` with `unread` behind it. */
  ghost predicate Agrees(started: bool, s: string, unread: string) {
    var p := Pass(started, s);
    var whole := ReadFrom(started, s + unread);
    match p.end
    case Closed => whole == Reading(p.values, Finished)
    case WrongStart => p.values == [] && whole == Reading([], NotAnArray)
    case _ => whole == After(p.values, ReadFrom(p.started, p.rest + unread)) && NoCut(p.started, p.rest + unread)
  }

  /** A pass over the buffer reads what the whole text has there. */
  lemma {:induction false} PassAgrees(started: bool, s: string, unread: string)
    requires NoCut(started, s + unread)
    ensures Agrees(started, s, unread)
    decreases |s|
  {
    hide ParseValue, SkipFiller, SkipSpace, Cuttable;
    if started {
      InsideAgrees(s, unread);
    } else {
      SkipSpaceAppend(s, unread);
      var next := SkipSpace(s);
      if next == "" {
        StartLater(s, unread);
      } else {
        assert (next + unread)[0] == next[0] && (next + unread)[1..] == next[1..] + unread;
        if next[0] == '[' {
          PassAgrees(true, next[1..], unread);
        }
      }
    }
  }

  lemma StartLater(s: string, unread: string)
    requires SkipSpace(s) == "" && SkipSpace(s + unread) == SkipSpace(unread)
    ensures ReadFrom(false, s + unread) == After([], ReadFrom(false, "" + unread))
    ensures NoCut(false, s + unread) <==> NoCut(false, "" + unread)
  {
    assert "" + unread == unread;
  }

  lemma ElementsLater(a: string, b: string)
    requires SkipFiller(a) == SkipFiller(b)
    ensures ReadFrom(true, a) == After([], ReadFrom(true, b))
    ensures NoCut(true, a) <==> NoCut(true, b)
  {
    hide ParseValue, SkipFiller, Cuttable;
    SameElementsAhead(a, b);
  }

  lemma {:induction false} InsideAgrees(s: string, unread: string)
    requires NoCut(true, s + unread)
    ensures Agrees(true, s, unread)
    decreases |s|
  {
    hide ParseValue, SkipFiller, Cuttable;
    SkipFillerAppend(s, unread);
    var next := SkipFiller(s);
    if next == "" {
      assert "" + unread == unread;
      ElementsLater(s + unread, unread);
    } else {
      assert (next + unread)[0] == next[0] && (next + unread)[1..] == next[1..] + unread;
      if next[0] != ']' {
        if ParseValue(next).None? {
          SkipFillerAppend(next, unread);
          SkipTwice(s);
          ElementsLater(s + unread, next + unread);
        } else {
          ElementKept(next, unread);
          var (v, rest) := ParseValue(next).value;
          InsideAgrees(rest, unread);
          var p := Pass(true, rest);
          AfterConcatenates([v], p.values, ReadFrom(true, p.rest + unread));
        }
      }
    }
  }

  lemma SkipTwice(s: string)
    ensures SkipFiller(SkipFiller(s)) == SkipFiller(s)
  {
  }

  /** Chunk independence, from any state of the reader. */
  lemma {:induction false} ChunksAgree(started: bool, rest: string, unread: string, chunkSize: nat)
    requires chunkSize >= 1 && NoCut(started, rest + unread)
    ensures ReadChunks(started, rest, unread, chunkSize) == ReadFrom(started, rest + unread)
    decreases |unread|, |rest|
  {
    hide Pass, ReadElements, Read, NoCutElements, NoCuttableNumbers, ReadFrom, NoCut;
    var size := if chunkSize <= |unread| then chunkSize else |unread|;
    assert rest + unread == (rest + unread[..size]) + unread[size..];
    if size == 0 && rest == "" {
      assert rest + unread == "";
      NothingRead(started);
    } else {
      PassAgrees(started, rest + unread[..size], unread[size..]);
      var p := Pass(started, rest + unread[..size]);
      if p.end.Undecodable? && size == 0 {
        assert p.rest + unread[size..] == p.rest && rest + unread[..size] == rest;
        UndecodableReads(started, rest);
      } else if p.end.NeedMore? || p.end.Undecodable? {
        ChunksAgree(p.started, p.rest, unread[size..], chunkSize);
      }
    }
  }

  lemma NothingRead(started: bool)
    ensures ReadFrom(started, "") == Reading([], Unterminated)
  {
  }

  /** What cannot be decoded at the end of a pass cannot be read with nothing behind it. */
  lemma {:induction false} UndecodableReads(started: bool, s: string)
    requires Pass(started, s).end.Undecodable?
    ensures ReadFrom(Pass(started, s).started, Pass(started, s).rest) == Reading([], BadElement)
    ensures forall values: seq<Value> :: After(values, Reading([], BadElement)) == Reading(values, BadElement)
    decreases |s|
  {
    hide ParseValue, IsSpace;
    var next := if started then SkipFiller(s) else SkipSpace(s);
    forall values: seq<Value> ensures After(values, Reading([], BadElement)) == Reading(values, BadElement) {
      assert values + [] == values;
    }
    if !started {
      UndecodableReads(true, next[1..]);
    } else if ParseValue(next).Some? {
      UndecodableReads(true, ParseValue(next).value.1);
    }
  }

  // ----- a number that is cut -----

  /** Behind the shortest beginning of the first number that can be cut. */
  ghost function CutPoint(started: bool, s: string): (c: nat)
    requires !NoCut(started, s)
    ensures 1 <= c <= |s|
    decreases |s|
  {
    if started then
      var next := SkipFiller(s);
      if Cuttable(next) then |s| - |next| + MinLength(next)
      else
        var rest := ParseValue(next).value.1;
        |s| - |rest| + CutPoint(true, rest)
    else
      var next := SkipSpace(s);
      |s| - |next| + 1 + CutPoint(true, next[1..])
  }

  lemma {:induction false} SkipFillerCut(s: string, c: nat)
    requires |s| - |SkipFiller(s)| <= c <= |s|
    ensures SkipFiller(s[..c]) == SkipFiller(s)[..c - (|s| - |SkipFiller(s)|)]
  {
    if s != "" && IsFiller(s[0]) {
      SkipFillerCut(s[1..], c - 1);
      assert s[..c][1..] == s[1..][..c - 1];
    } else if c > 0 {
      assert s[..c][0] == s[0];
    }
  }

  lemma {:induction false} SkipSpaceCut(s: string, c: nat)
    requires |s| - |SkipSpace(s)| <= c <= |s|
    ensures SkipSpace(s[..c]) == SkipSpace(s)[..c - (|s| - |SkipSpace(s)|)]
  {
    if s != "" && IsSpace(s[0]) {
      SkipSpaceCut(s[1..], c - 1);
      assert s[..c][1..] == s[1..][..c - 1];
    } else if c > 0 {
      assert s[..c][0] == s[0];
    }
  }

  /** The shortest number is a number. */
  lemma ShortestNumber(s: string)
    requires IntegerLength(s) > 0
    ensures MinLength(s) <= |s| && ParseValue(s[..MinLength(s)]) == Some((Num(s[..MinLength(s)]), ""))
  {
    var m := MinLength(s);
    var short := s[..m];
    var sign := m - 1;
    assert s[sign..][0] == s[sign] && IsDigit(s[sign]);
    assert short[sign..] == [s[sign]] && short[m..] == "" && [s[sign]][1..] == "";
    assert Digits([s[sign]]) == 1;
    assert IntegerLength(short) == m;
    assert FractionLength("") == 0 && ExponentLength("") == 0;
    assert NumberLength(short) == m;
    assert short[..m] == short && short[0] != '\"' && short[0] != '[' && short[0] != '{';
  }

  lemma NumberIsDecoded(s: string)
    requires NumberLength(s) > 0
    ensures ParseValue(s) == Some((Num(s[..NumberLength(s)]), s[NumberLength(s)..]))
    ensures s[0] != ']'
  {
    hide ParseItems, ParseFields, ParseString, NumberLength;
    DigitsStart(s);
  }

  lemma CutNumberShows(s: string)
    requires s != "" && !IsFiller(s[0]) && Cuttable(s)
    ensures var m := MinLength(s);
      && m <= |s| && Pass(true, s[..m]) == PassResult(true, [Num(s[..m])], "", NeedMore)
      && ReadElements(s).values != [] && ReadElements(s).values[0] != Num(s[..m])
  {
    hide ParseValue, IsFiller, IntegerLength, FractionLength, ExponentLength;
    var m, n := MinLength(s), NumberLength(s);
    ShortestNumber(s);
    NumberIsDecoded(s);
    hide NumberLength;
    assert |s[..n]| != |s[..m]|;
    FirstElement(s);
    assert s[..m][0] == s[0];
    PassInside(s[..m]);
    PassInside("");
    assert [Num(s[..m])] + [] == [Num(s[..m])];
  }

  lemma FirstElement(s: string)
    requires s != "" && !IsFiller(s[0]) && s[0] != ']' && ParseValue(s).Some?
    ensures ReadElements(s).values != [] && ReadElements(s).values[0] == ParseValue(s).value.0
  {
    hide ParseValue, IsFiller;
  }

  /** Read as far as the cut point, the text shows a value that it does not have. */
  lemma {:induction false} CutShows(started: bool, s: string) returns (k: nat)
    requires !NoCut(started, s)
    ensures var p := Pass(started, s[..CutPoint(started, s)]);
      && p.end.NeedMore?
      && k < |p.values| && k < |ReadFrom(started, s).values| && p.values[k] != ReadFrom(started, s).values[k]
    decreases |s|
  {
    hide ParseValue, SkipFiller, SkipSpace, Cuttable, IsFiller, IsSpace;
    var c := CutPoint(started, s);
    if started {
      var next := SkipFiller(s);
      SkipFillerCut(s, c);
      var cut := next[..c - (|s| - |next|)];
      SkipTwice(s);
      SkipTwice(s[..c]);
      if Cuttable(next) {
        CutNumberShows(next);
        SamePass(s[..c], cut);
        SameElementsAhead(s, next);
        k := 0;
      } else {
        var (v, rest) := ParseValue(next).value;
        var c' := CutPoint(true, rest);
        var behind := next[|cut|..];
        assert next == cut + behind;
        ValueShrinks(cut, behind);
        assert Cut(rest, behind) == rest[..c'];
        k := CutShows(true, rest);
        assert cut != "" && cut[0] == next[0];
        SkipFillerStop(s);
        PassInside(cut);
        SamePass(s[..c], cut);
        k := k + 1;
      }
    } else {
      var next := SkipSpace(s);
      SkipSpaceCut(s, c);
      var cut := next[..c - (|s| - |next|)];
      assert cut[0] == next[0] && cut[1..] == next[1..][..CutPoint(true, next[1..])];
      k := CutShows(true, next[1..]);
    }
  }

  lemma SkipFillerStop(s: string)
    ensures SkipFiller(s) != "" ==> !IsFiller(SkipFiller(s)[0])
  {
  }

  lemma SamePass(a: string, b: string)
    requires SkipFiller(a) == SkipFiller(b)
    ensures Pass(true, a) == Pass(true, b)
  {
    hide ParseValue, SkipFiller;
  }

  /**
   Chunk independence, exactly. Reading in chunks gives the reading of the whole text
   for every chunk size if and only if no element of the array is a number with more
   digits than one, a fraction or an exponent.
   */
  lemma ChunkIndependentIff(text: string)
    ensures (forall n: nat :: n >= 1 ==> ReadChunks(false, "", text, n) == Read(text)) <==> NoCuttableNumbers(text)
  {
    hide Pass, Read, NoCuttableNumbers;
    assert "" + text == text;
    if NoCuttableNumbers(text) {
      forall n: nat | n >= 1 ensures ReadChunks(false, "", text, n) == Read(text) {
        ChunksAgree(false, "", text, n);
      }
    } else {
      var c := CutPoint(false, text);
      var k := CutShows(false, text);
      var p := Pass(false, text[..c]);
      assert "" + text[..c] == text[..c];
      assert ReadChunks(false, "", text, c) == After(p.values, ReadChunks(p.started, p.rest, text[c..], c));
      assert ReadChunks(false, "", text, c).values[k] == p.values[k];
    }
  }
}
