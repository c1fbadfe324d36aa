/**
 `_iter_json_array`: read a JSON array element by element, in chunks, so that the
 whole text never has to be in memory.
 */
module JsonArrayReader {
  import opened Json
  import opened JsonTheorems

  /** How reading ends: at the closing bracket, or with one of the reader's errors. */
  datatype Ending = Finished | NotAnArray | Unterminated | BadElement

  datatype Reading = Reading(values: seq<Value>, ending: Ending)

  /** `str.isspace`. */
  predicate IsSpace(c: char) {
    var n := c as int;
    9 <= n <= 13 || 28 <= n <= 32 || n == 0x85 || n == 0xA0 || n == 0x1680 || 0x2000 <= n <= 0x200A
    || n == 0x2028 || n == 0x2029 || n == 0x202F || n == 0x205F || n == 0x3000
  }

  predicate IsFiller(c: char) { IsSpace(c) || c == ',' }

  // ----- reading the whole text at once -----

  function SkipSpace(s: string): (r: string)
    ensures |r| <= |s| && (r != "" ==> !IsSpace(r[0]))
  {
    if s != "" && IsSpace(s[0]) then SkipSpace(s[1..]) else s
  }

  function SkipFiller(s: string): (r: string)
    ensures |r| <= |s| && (r != "" ==> !IsFiller(r[0]))
  {
    if s != "" && IsFiller(s[0]) then SkipFiller(s[1..]) else s
  }

  /** The elements from inside the array on. */
  function ReadElements(s: string): Reading
    decreases |s|
  {
    var next := SkipFiller(s);
    if next == "" then Reading([], Unterminated)
    else if next[0] == ']' then Reading([], Finished)
    else
      match ParseValue(next)
      case None => Reading([], BadElement)
      case Some((v, rest)) =>
        var more := ReadElements(rest);
        Reading([v] + more.values, more.ending)
  }

  /** Reference definition: the reading of the complete text. */
  function Read(text: string): Reading {
    var next := SkipSpace(text);
    if next == "" then Reading([], Unterminated)
    else if next[0] != '[' then Reading([], NotAnArray)
    else ReadElements(next[1..])
  }

  // ----- reading in chunks -----

  /** Where one pass over the buffer stops. */
  datatype PassEnd = NeedMore | Closed | WrongStart | Undecodable

  datatype PassResult = PassResult(started: bool, values: seq<Value>, rest: string, end: PassEnd)

  /**
   What one pass makes of the buffer: it stops behind the closing bracket, in front of
   a wrong start or of an element that cannot be decoded yet, or at the end.
   */
  function Pass(started: bool, s: string): (p: PassResult)
    ensures p.end.NeedMore? ==> p.rest == ""
    ensures started ==> p.started
    decreases |s|
  {
    var next := if started then SkipFiller(s) else SkipSpace(s);
    if next == "" then PassResult(started, [], "", NeedMore)
    else if !started then
      if next[0] != '[' then PassResult(false, [], next, WrongStart) else Pass(true, next[1..])
    else if next[0] == ']' then PassResult(true, [], next[1..], Closed)
    else
      match ParseValue(next)
      case None => PassResult(true, [], next, Undecodable)
      case Some((v, rest)) => Behind([v], Pass(true, rest))
  }

  function Behind(values: seq<Value>, p: PassResult): PassResult { p.(values := values + p.values) }

  function After(values: seq<Value>, r: Reading): Reading { Reading(values + r.values, r.ending) }

  /** The reading in chunks: `rest` is what is left of the buffer, `unread` of the file. */
  function ReadChunks(started: bool, rest: string, unread: string, chunkSize: nat): Reading
    requires chunkSize >= 1
    decreases |unread|, |rest|
  {
    var size := if chunkSize <= |unread| then chunkSize else |unread|;
    if size == 0 && rest == "" then Reading([], Unterminated)
    else
      var p := Pass(started, rest + unread[..size]);
      match p.end
      case Closed => Reading(p.values, Finished)
      case WrongStart => Reading(p.values, NotAnArray)
      case Undecodable =>
        if size == 0 then Reading(p.values, BadElement)
        else After(p.values, ReadChunks(p.started, p.rest, unread[size..], chunkSize))
      case NeedMore => After(p.values, ReadChunks(p.started, p.rest, unread[size..], chunkSize))
  }

  lemma SkipOne(started: bool, s: string)
    requires s != "" && (IsSpace(s[0]) || (started && IsFiller(s[0])))
    ensures Pass(started, s[1..]) == Pass(started, s)
  {
    hide ParseValue;
  }

  lemma BehindNothing(p: PassResult)
    ensures Behind([], p) == p
  {
  }

  lemma BehindAssociates(a: seq<Value>, b: seq<Value>, p: PassResult)
    ensures Behind(a, Behind(b, p)) == Behind(a + b, p)
  {
    assert a + (b + p.values) == (a + b) + p.values;
  }

  lemma RestIsSuffix(buffer: string, position: nat)
    requires position < |buffer| && ParseValue(buffer[position..]).Some?
    ensures var rest := ParseValue(buffer[position..]).value.1;
      |rest| < |buffer| - position && rest == buffer[|buffer| - |rest|..]
  {
    ValueSuffix(buffer[position..]);
  }

  /** What a pass does where the buffer stands, at the start of the array. */
  lemma PassAtStart(s: string)
    requires s == "" || !IsSpace(s[0])
    ensures s == "" ==> Pass(false, s) == PassResult(false, [], "", NeedMore)
    ensures s != "" && s[0] != '[' ==> Pass(false, s) == PassResult(false, [], s, WrongStart)
    ensures s != "" && s[0] == '[' ==> Pass(false, s) == Pass(true, s[1..])
  {
    hide ParseValue, IsSpace;
  }

  /** And inside it. */
  lemma PassInside(s: string)
    requires s == "" || !IsFiller(s[0])
    ensures s == "" ==> Pass(true, s) == PassResult(true, [], "", NeedMore)
    ensures s != "" && s[0] == ']' ==> Pass(true, s) == PassResult(true, [], s[1..], Closed)
    ensures s != "" && s[0] != ']' && ParseValue(s).None? ==> Pass(true, s) == PassResult(true, [], s, Undecodable)
    ensures s != "" && s[0] != ']' && ParseValue(s).Some? ==>
      Pass(true, s) == Behind([ParseValue(s).value.0], Pass(true, ParseValue(s).value.1))
  {
    hide ParseValue, IsSpace;
  }

  lemma TailOf(buffer: string, position: nat)
    requires position < |buffer|
    ensures buffer[position..] != "" && buffer[position..][0] == buffer[position]
    ensures buffer[position..][1..] == buffer[position + 1..]
  {
  }

  /** The inner loop: consume the buffer as far as it goes. */
  method ConsumeBuffer(buffer: string, position0: nat, started0: bool)
    returns (position: nat, started: bool, values: seq<Value>, end: PassEnd)
    requires position0 <= |buffer|
    ensures position <= |buffer|
    ensures Pass(started0, buffer[position0..]) == PassResult(started, values, buffer[position..], end)
  {
    hide Pass, ParseValue, IsSpace;
    position, started, values := position0, started0, [];
    ghost var whole := Pass(started0, buffer[position0..]);
    BehindNothing(whole);
    while true
      invariant position0 <= position <= |buffer|
      invariant whole == Behind(values, Pass(started, buffer[position..]))
      decreases |buffer| - position
    {
      while position < |buffer| && IsSpace(buffer[position])
        invariant position0 <= position <= |buffer|
        invariant whole == Behind(values, Pass(started, buffer[position..]))
      {
        TailOf(buffer, position);
        SkipOne(started, buffer[position..]);
        position := position + 1;
      }
      if !started {
        PassAtStart(buffer[position..]);
        if position >= |buffer| {
          return position, started, values, NeedMore;
        }
        TailOf(buffer, position);
        if buffer[position] != '[' {
          return position, started, values, WrongStart;
        }
        started := true;
        position := position + 1;
      } else {
        while position < |buffer| && (IsSpace(buffer[position]) || buffer[position] == ',')
          invariant position0 <= position <= |buffer|
          invariant whole == Behind(values, Pass(started, buffer[position..]))
        {
          TailOf(buffer, position);
          SkipOne(started, buffer[position..]);
          position := position + 1;
        }
        PassInside(buffer[position..]);
        if position >= |buffer| {
          return position, started, values, NeedMore;
        }
        TailOf(buffer, position);
        if buffer[position] == ']' {
          position := position + 1;
          return position, started, values, Closed;
        }
        match ParseValue(buffer[position..]) {
          case None =>
            return position, started, values, Undecodable;
          case Some((v, rest)) =>
            RestIsSuffix(buffer, position);
            BehindAssociates(values, [v], Pass(true, rest));
            values := values + [v];
            position := |buffer| - |rest|;
        }
      }
    }
  }

  lemma AfterConcatenates(a: seq<Value>, b: seq<Value>, r: Reading)
    ensures After(a, After(b, r)) == After(a + b, r)
    ensures After(a, Reading(b, r.ending)) == Reading(a + b, r.ending)
  {
    assert a + (b + r.values) == (a + b) + r.values;
  }

  lemma AfterNothing(r: Reading)
    ensures After([], r) == r
  {
  }

  /** The reader itself, over a file whose text is `text`. */
  method IterJsonArray(text: string, chunkSize: nat) returns (values: seq<Value>, ending: Ending)
    requires chunkSize >= 1
    ensures Reading(values, ending) == ReadChunks(false, "", text, chunkSize)
  {
    hide Pass;
    var buffer, position, started := "", 0, false;
    var offset := 0;
    values := [];
    ghost var whole := ReadChunks(false, "", text, chunkSize);
    AfterNothing(whole);
    assert ""[0..] == "" && text[0..] == text;
    while true
      invariant position <= |buffer| && offset <= |text|
      invariant whole == After(values, ReadChunks(started, buffer[position..], text[offset..], chunkSize))
      decreases |text| - offset, |buffer| - position
    {
      var size := if chunkSize <= |text| - offset then chunkSize else |text| - offset;
      var chunk := text[offset..offset + size];
      ghost var rest, unread := buffer[position..], text[offset..];
      assert unread[..size] == chunk && unread[size..] == text[offset + size..];
      if chunk != "" {
        buffer := buffer[position..] + chunk;
        position := 0;
      } else if position >= |buffer| {
        break;
      }
      assert buffer[position..] == rest + chunk;
      offset := offset + size;
      var more, end;
      position, started, more, end := ConsumeBuffer(buffer, position, started);
      AfterConcatenates(values, more, Reading([], Finished));
      AfterConcatenates(values, more, Reading([], NotAnArray));
      AfterConcatenates(values, more, Reading([], BadElement));
      AfterConcatenates(values, more, ReadChunks(started, buffer[position..], text[offset..], chunkSize));
      values := values + more;
      match end {
        case Closed =>
          return values, Finished;
        case WrongStart =>
          return values, NotAnArray;
        case Undecodable =>
          if chunk == "" {
            return values, BadElement;
          }
        case NeedMore =>
          assert buffer[position..] == "";
      }
    }
    ending := Unterminated;
    assert values + [] == values;
  }
}
