/**
 JSON text as Python's `json` module reads and writes it (RFC 8259): the decoder's
 `raw_decode`, and `dumps(..., ensure_ascii=False)`.
 */
module Json {
  import opened Optional

  /** A decoded value. Numbers and constants are kept as the text that denotes them. */
  datatype Value =
    | Str(text: string)
    | Num(lexeme: string)
    | Lit(word: string)
    | Arr(items: seq<Value>)
    | Obj(fields: seq<Field>)

  datatype Field = Field(key: string, value: Value)

  /** What is decoded from the front of a text, and the text behind it. */
  type Parsed<T> = Option<(T, string)>

  // ----- characters -----

  predicate IsWs(c: char) { c == ' ' || c == '\t' || c == '\n' || c == '\r' }

  predicate IsDigit(c: char) { '0' <= c <= '9' }

  /** Characters a number can contain. */
  predicate IsNumChar(c: char) { IsDigit(c) || c == '-' || c == '+' || c == '.' || c == 'e' || c == 'E' }

  function HexValue(c: char): Option<nat> {
    if '0' <= c <= '9' then Some((c as int - '0' as int) as nat)
    else if 'a' <= c <= 'f' then Some((c as int - 'a' as int + 10) as nat)
    else if 'A' <= c <= 'F' then Some((c as int - 'A' as int + 10) as nat)
    else None
  }

  function HexDigit(n: nat): (c: char)
    requires n < 16
    ensures HexValue(c) == Some(n)
  {
    if n < 10 then (('0' as int + n) as char) else (('a' as int + (n - 10)) as char)
  }

  function SkipWs(s: string): (r: string)
    ensures |r| <= |s|
    ensures r != "" ==> !IsWs(r[0])
  {
    if s != "" && IsWs(s[0]) then SkipWs(s[1..]) else s
  }

  // ----- strings -----

  /** The characters `\n`, `\t`, ... stand for. */
  function Unescape(c: char): Option<char> {
    if c == '\"' then Some('\"')
    else if c == '\\' then Some('\\')
    else if c == '/' then Some('/')
    else if c == 'b' then Some(8 as char)
    else if c == 'f' then Some(12 as char)
    else if c == 'n' then Some('\n')
    else if c == 'r' then Some('\r')
    else if c == 't' then Some('\t')
    else None
  }

  /** Four hexadecimal digits; surrogates are not characters here. */
  function HexChar(a: char, b: char, c: char, d: char): Option<char> {
    match (HexValue(a), HexValue(b), HexValue(c), HexValue(d))
    case (Some(w), Some(x), Some(y), Some(z)) =>
      var n := w * 4096 + x * 256 + y * 16 + z;
      if n < 0xD800 || 0xE000 <= n < 0x10000 then Some(n as char) else None
    case _ => None
  }

  /** The rest of a string whose opening quote has been read. */
  function ParseString(s: string): (r: Parsed<string>)
    ensures r.Some? ==> |r.value.1| < |s|
  {
    if s == "" then None
    else if s[0] == '\"' then Some(("", s[1..]))
    else if s[0] == '\\' then
      if |s| < 2 then None
      else if s[1] == 'u' then
        if |s| < 6 then None
        else
          match HexChar(s[2], s[3], s[4], s[5])
          case None => None
          case Some(c) => Prepend(c, ParseString(s[6..]))
      else
        match Unescape(s[1])
        case None => None
        case Some(c) => Prepend(c, ParseString(s[2..]))
    else if (s[0] as int) < 0x20 then None
    else Prepend(s[0], ParseString(s[1..]))
  }

  function Prepend(c: char, r: Parsed<string>): Parsed<string> {
    match r
    case None => None
    case Some((t, rest)) => Some(([c] + t, rest))
  }

  // ----- numbers and constants -----

  /** How many digits `s` starts with. */
  function Digits(s: string): (n: nat)
    ensures n <= |s|
    ensures forall i :: 0 <= i < n ==> IsDigit(s[i])
    ensures n < |s| ==> !IsDigit(s[n])
  {
    if s != "" && IsDigit(s[0]) then 1 + Digits(s[1..]) else 0
  }

  /** The length of the fraction `s` starts with: a point and at least one digit, or nothing. */
  function FractionLength(s: string): (n: nat)
    ensures n <= |s|
  {
    if s != "" && s[0] == '.' && Digits(s[1..]) > 0 then 1 + Digits(s[1..]) else 0
  }

  function ExponentLength(s: string): (n: nat)
    ensures n <= |s|
  {
    if s == "" || (s[0] != 'e' && s[0] != 'E') then 0
    else
      var sign := if |s| > 1 && (s[1] == '+' || s[1] == '-') then 1 else 0;
      var digits := Digits(s[1 + sign..]);
      if digits > 0 then 1 + sign + digits else 0
  }

  /** The length of the sign and integer part `s` starts with, 0 if there is no digit. */
  function IntegerLength(s: string): (n: nat)
    ensures n <= |s|
  {
    var sign := if s != "" && s[0] == '-' then 1 else 0;
    var digits := if |s| > sign && s[sign] == '0' then 1 else Digits(s[sign..]);
    if digits == 0 then 0 else sign + digits
  }

  /** The length of the number `s` starts with, 0 if there is none. */
  function NumberLength(s: string): (n: nat)
    ensures n <= |s|
  {
    var whole := IntegerLength(s);
    if whole == 0 then 0
    else
      var fraction := whole + FractionLength(s[whole..]);
      fraction + ExponentLength(s[fraction..])
  }

  function ParseWord(s: string): (r: Parsed<Value>)
    ensures r.Some? ==> |r.value.1| < |s| && !r.value.0.Num?
  {
    if "null" <= s then Some((Lit("null"), s[4..]))
    else if "true" <= s then Some((Lit("true"), s[4..]))
    else if "false" <= s then Some((Lit("false"), s[5..]))
    else if "NaN" <= s then Some((Lit("NaN"), s[3..]))
    else if "Infinity" <= s then Some((Lit("Infinity"), s[8..]))
    else if "-Infinity" <= s then Some((Lit("-Infinity"), s[9..]))
    else None
  }

  // ----- values -----

  /** `raw_decode`: the value at the very front of `s`. */
  function ParseValue(s: string): (r: Parsed<Value>)
    ensures r.Some? ==> |r.value.1| < |s|
    decreases |s|, 0
  {
    if s == "" then None
    else if s[0] == '\"' then
      match ParseString(s[1..])
      case None => None
      case Some((t, rest)) => Some((Str(t), rest))
    else if s[0] == '{' then
      var body := SkipWs(s[1..]);
      if body != "" && body[0] == '}' then Some((Obj([]), body[1..]))
      else
        match ParseFields(body)
        case None => None
        case Some((fields, rest)) => Some((Obj(fields), rest))
    else if s[0] == '[' then
      var body := SkipWs(s[1..]);
      if body != "" && body[0] == ']' then Some((Arr([]), body[1..]))
      else
        match ParseItems(body)
        case None => None
        case Some((items, rest)) => Some((Arr(items), rest))
    else
      var n := NumberLength(s);
      if n > 0 then Some((Num(s[..n]), s[n..])) else ParseWord(s)
  }

  /** The items of an array up to its closing bracket, the first one at the front. */
  function ParseItems(s: string): (r: Parsed<seq<Value>>)
    ensures r.Some? ==> |r.value.1| < |s|
    decreases |s|, 1
  {
    match ParseValue(s)
    case None => None
    case Some((v, rest)) =>
      var next := SkipWs(rest);
      if next == "" then None
      else if next[0] == ']' then Some(([v], next[1..]))
      else if next[0] == ',' then
        match ParseItems(SkipWs(next[1..]))
        case None => None
        case Some((vs, end)) => Some(([v] + vs, end))
      else None
  }

  /** The fields of an object up to its closing brace, the first key at the front. */
  function ParseFields(s: string): (r: Parsed<seq<Field>>)
    ensures r.Some? ==> |r.value.1| < |s|
    decreases |s|, 1
  {
    if s == "" || s[0] != '\"' then None
    else
      match ParseString(s[1..])
      case None => None
      case Some((key, afterKey)) =>
        var colon := SkipWs(afterKey);
        if colon == "" || colon[0] != ':' then None
        else
          match ParseValue(SkipWs(colon[1..]))
          case None => None
          case Some((v, rest)) =>
            var next := SkipWs(rest);
            if next == "" then None
            else if next[0] == '}' then Some(([Field(key, v)], next[1..]))
            else if next[0] == ',' then
              match ParseFields(SkipWs(next[1..]))
              case None => None
              case Some((fs, end)) => Some(([Field(key, v)] + fs, end))
            else None
  }

  // ----- printing -----

  function EscapeChar(c: char): string {
    if c == '\"' then "\\\""
    else if c == '\\' then "\\\\"
    else if c == '\n' then "\\n"
    else if c == '\r' then "\\r"
    else if c == '\t' then "\\t"
    else if c as int == 12 then "\\f"
    else if c as int == 8 then "\\b"
    else if (c as int) < 0x20 then "\\u00" + [HexDigit(c as int / 16), HexDigit(c as int % 16)]
    else [c]
  }

  function Escape(s: string): string {
    if s == "" then "" else EscapeChar(s[0]) + Escape(s[1..])
  }

  function Quote(s: string): string { "\"" + Escape(s) + "\"" }

  /** `json.dumps`, with its default separators. */
  function Dumps(v: Value): string
    decreases v, 0
  {
    match v
    case Str(t) => Quote(t)
    case Num(lexeme) => lexeme
    case Lit(word) => word
    case Arr(items) => "[" + DumpItems(items) + "]"
    case Obj(fields) => "{" + DumpFields(fields) + "}"
  }

  function DumpItems(items: seq<Value>): string
    decreases items, 1
  {
    if items == [] then ""
    else if |items| == 1 then Dumps(items[0])
    else Dumps(items[0]) + ", " + DumpItems(items[1..])
  }

  function DumpFields(fields: seq<Field>): string
    decreases fields, 1
  {
    if fields == [] then ""
    else
      var first := Quote(fields[0].key) + ": " + Dumps(fields[0].value);
      if |fields| == 1 then first else first + ", " + DumpFields(fields[1..])
  }

  // ----- the values there are -----

  predicate AllDigits(s: string) { forall i :: 0 <= i < |s| ==> IsDigit(s[i]) }

  /** The parts of a number (section 6 of RFC 8259): a sign, an integer, a fraction and an exponent. */
  predicate NumberParts(text: string, sign: string, whole: string, fraction: string, exponent: string) {
    && text == sign + whole + fraction + exponent
    && (sign == "" || sign == "-")
    && whole != "" && AllDigits(whole) && (whole[0] == '0' ==> |whole| == 1)
    && (fraction != "" ==> |fraction| > 1 && fraction[0] == '.' && AllDigits(fraction[1..]))
    && (exponent != "" ==>
          && (exponent[0] == 'e' || exponent[0] == 'E')
          && var digits := if |exponent| > 1 && (exponent[1] == '+' || exponent[1] == '-') then exponent[2..] else exponent[1..];
          digits != "" && AllDigits(digits))
  }

  ghost predicate IsNumber(text: string) {
    exists sign, whole, fraction, exponent :: NumberParts(text, sign, whole, fraction, exponent)
  }

  predicate IsConstant(word: string) {
    word == "null" || word == "true" || word == "false" || word == "NaN" || word == "Infinity" || word == "-Infinity"
  }

  /** Every value there is: its numbers and constants are denoted by texts that denote some. */
  ghost predicate WellFormed(v: Value)
    decreases v
  {
    match v
    case Str(_) => true
    case Num(lexeme) => IsNumber(lexeme)
    case Lit(word) => IsConstant(word)
    case Arr(items) => forall i :: 0 <= i < |items| ==> WellFormed(items[i])
    case Obj(fields) => forall i :: 0 <= i < |fields| ==> WellFormed(fields[i].value)
  }
}
