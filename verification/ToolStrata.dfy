/**
 Tool names, cold-start strata and the gate's confidence; the workload's printed
 schemas; and the clients built from them, one cohort for each stratum.
 */
module ToolStrata {
  import opened Optional
  import opened Orders
  import opened Sorting
  import opened Json
  import opened JsonTheorems
  import opened ToolVocabulary

  // ----- `tool_names` -----

  /** Looking a key up in a decoded object: the last field with that key counts. */
  function Lookup(fields: seq<Field>, key: string): Option<Value> {
    if fields == [] then None
    else
      var n := |fields| - 1;
      if fields[n].key == key then Some(fields[n].value) else Lookup(fields[..n], key)
  }

  /** `str(value)` of a name. */
  function NameText(v: Value): string { if v.Str? then v.text else Dumps(v) }

  /** A tool's name: its own, or that of its `function` object. */
  function NameOf(item: Value): Option<string> {
    match item
    case Obj(fields) =>
      (match Lookup(fields, "name")
       case Some(name) => Some(NameText(name))
       case None =>
         match Lookup(fields, "function")
         case Some(Obj(inner)) =>
           (match Lookup(inner, "name") case Some(name) => Some(NameText(name)) case None => None)
         case _ => None)
    case _ => None
  }

  function NamesOf(items: seq<Value>): seq<string> {
    if items == [] then []
    else
      var n := |items| - 1;
      NamesOf(items[..n]) + match NameOf(items[n]) { case Some(name) => [name] case None => [] }
  }

  function NameKey(name: string): Key { Key(0.0, 0.0, name) }

  /** The sorted tool names of a prompt that carries a JSON tool array; none otherwise. */
  function ToolNames(text: string): seq<string> {
    match ExtractSchema(text)
    case Some(items) => Sort(NameKey, NamesOf(items))
    case None => []
  }

  /** The last field with a key decides what is looked up. */
  lemma {:induction false} LookupIsLast(fields: seq<Field>, key: string)
    ensures Lookup(fields, key).None? <==> forall i :: 0 <= i < |fields| ==> fields[i].key != key
    ensures forall i :: 0 <= i < |fields| && fields[i].key == key && (forall k :: i < k < |fields| ==> fields[k].key != key) ==>
      Lookup(fields, key) == Some(fields[i].value)
  {
    if fields != [] {
      var n := |fields| - 1;
      LookupIsLast(fields[..n], key);
      assert forall i :: 0 <= i < n ==> fields[..n][i] == fields[i];
    }
  }

  /** A tool is named by its own `name`, or, for lack of one, by that of its `function`; anything else has no name. */
  lemma ToolNaming(fields: seq<Field>, inner: seq<Field>, value: Value, name: string)
    ensures Lookup(fields, "name") == Some(Str(name)) ==> NameOf(Obj(fields)) == Some(name)
    ensures forall text :: Lookup(fields, "name") == Some(Num(text)) ==> NameOf(Obj(fields)) == Some(text)
    ensures Lookup(fields, "name").None? && Lookup(fields, "function") == Some(Obj(inner)) && Lookup(inner, "name") == Some(Str(name))
      ==> NameOf(Obj(fields)) == Some(name)
    ensures Lookup(fields, "name").None? && Lookup(fields, "function").None? ==> NameOf(Obj(fields)).None?
    ensures !value.Obj? ==> NameOf(value).None?
  {
    hide Lookup;
  }

  // ----- strata -----

  datatype Stratum = S1 | S2 | S3 | S4 | Unknown

  /** The training vocabulary; `digest` is the truncated hash of a sorted name list. */
  datatype GateVocabulary = GateVocabulary(
    fingerprints: set<string>,
    tools: set<string>,
    confidenceOf: Stratum -> real,
    unknownConfidence: real,
    digest: seq<string> -> string)

  function CountSeen(names: seq<string>, tools: set<string>): (n: nat)
    ensures n <= |names|
  {
    if names == [] then 0
    else CountSeen(names[..|names| - 1], tools) + if names[|names| - 1] in tools then 1 else 0
  }

  function StratumOfNames(v: GateVocabulary, names: seq<string>): Stratum {
    if names == [] then Unknown
    else if v.digest(names) in v.fingerprints then S1
    else
      var seen := CountSeen(names, v.tools);
      if seen == |names| then S2 else if seen == 0 then S4 else S3
  }

  function StratumOf(v: GateVocabulary, text: string): Stratum { StratumOfNames(v, ToolNames(text)) }

  function Confidence(v: GateVocabulary, text: string): real {
    var stratum := StratumOf(v, text);
    if stratum == Unknown then v.unknownConfidence else v.confidenceOf(stratum)
  }

  lemma {:induction false} CountSeenMeaning(names: seq<string>, tools: set<string>)
    ensures CountSeen(names, tools) == |names| <==> forall i :: 0 <= i < |names| ==> names[i] in tools
    ensures CountSeen(names, tools) == 0 <==> forall i :: 0 <= i < |names| ==> names[i] !in tools
  {
    if names != [] { CountSeenMeaning(names[..|names| - 1], tools); }
  }

  /** The strata, as their documentation defines them. */
  lemma StrataPartition(v: GateVocabulary, names: seq<string>)
    requires names != []
    ensures var s := StratumOfNames(v, names);
      var known := v.digest(names) in v.fingerprints;
      && (s == S1 <==> known)
      && (s == S2 <==> !known && forall i :: 0 <= i < |names| ==> names[i] in v.tools)
      && (s == S4 <==> !known && forall i :: 0 <= i < |names| ==> names[i] !in v.tools)
      && (s == S3 <==> !known && (exists i :: 0 <= i < |names| && names[i] in v.tools)
                             && (exists i :: 0 <= i < |names| && names[i] !in v.tools))
      && s != Unknown
  {
    CountSeenMeaning(names, v.tools);
  }

  // ----- `render_tool_schema` -----

  const HEADER_PART_1 := "You are an expert in composing " + "functions. You are given a question "

  const HEADER_PART_2 := "and a set of possible functions. \n" + "Based on the question, you will "

  const HEADER_PART_3 := "need to make one or more " + "function/tool calls to achieve the "

  const HEADER_PART_4 := "purpose. \nHere is a list of " + "functions in JSON format that "

  const HEADER_START := HEADER_PART_1 + HEADER_PART_2 + HEADER_PART_3 + HEADER_PART_4

  const SCHEMA_HEADER := HEADER_START + INVOKE_MARKER + "\n"

  const SCHEMA_FOOTER := ". \nShould you decide to return the function call(s).\n"

  function ToolObject(name: string): Value {
    Obj([
      Field("name", Str(name)),
      Field("description", Str("Synthetic tool " + name + " for multi-tenant workload replay.")),
      Field("parameters", Obj([
        Field("type", Str("dict")),
        Field("properties", Obj([
          Field("query", Obj([
            Field("description", Str("Free-form argument.")),
            Field("type", Str("string"))]))])),
        Field("required", Arr([Str("query")]))]))])
  }

  function ToolObjects(names: seq<string>): (r: seq<Value>)
    ensures |r| == |names| && forall i :: 0 <= i < |r| ==> r[i] == ToolObject(names[i])
  {
    seq(|names|, i requires 0 <= i < |names| => ToolObject(names[i]))
  }

  function RenderToolSchema(names: seq<string>): string {
    SCHEMA_HEADER + Dumps(Arr(ToolObjects(names))) + SCHEMA_FOOTER
  }

  lemma ToolObjectWellFormed(name: string)
    ensures WellFormed(ToolObject(name))
  {
    assert WellFormed(Arr([Str("query")]));
    assert WellFormed(Obj([Field("description", Str("Free-form argument.")), Field("type", Str("string"))]));
    assert WellFormed(Obj([Field("query", Obj([
            Field("description", Str("Free-form argument.")),
            Field("type", Str("string"))]))]));
  }

  lemma ToolObjectName(name: string)
    ensures NameOf(ToolObject(name)) == Some(name)
  {
    var fields := ToolObject(name).fields;
    assert fields[..2][..1] == [Field("name", Str(name))];
    assert Lookup(fields, "name") == Lookup(fields[..2], "name");
    assert Lookup(fields[..2], "name") == Lookup(fields[..2][..1], "name");
  }

  /** What a printed tool says besides its name. */
  lemma ToolObjectSays(name: string)
    ensures var fields := ToolObject(name).fields;
      && Lookup(fields, "description") == Some(Str("Synthetic tool " + name + " for multi-tenant workload replay."))
      && Lookup(fields, "parameters").Some? && Lookup(fields, "parameters").value.Obj?
      && var parameters := Lookup(fields, "parameters").value.fields;
      && Lookup(parameters, "type") == Some(Str("dict")) && Lookup(parameters, "required") == Some(Arr([Str("query")]))
  {
    var fields := ToolObject(name).fields;
    LookupIsLast(fields, "description");
    LookupIsLast(fields, "parameters");
    assert fields[1].key == "description" && fields[2].key == "parameters";
    assert "parameters" != "description";
    var parameters := fields[2].value.fields;
    LookupIsLast(parameters, "type");
    LookupIsLast(parameters, "required");
    assert parameters[0].key == "type" && parameters[2].key == "required" && parameters[1].key == "properties";
    assert |"type"| < |"required"| < |"properties"|;
  }

  lemma {:induction false} NamesOfToolObjects(names: seq<string>)
    ensures NamesOf(ToolObjects(names)) == names
  {
    hide ToolObject, NameOf;
    if names != [] {
      var n := |names| - 1;
      NamesOfToolObjects(names[..n]);
      ToolObjectName(names[n]);
      assert ToolObjects(names)[..n] == ToolObjects(names[..n]);
      assert names == names[..n] + [names[n]];
    }
  }

  // ----- where the printed array starts -----

  lemma {:induction false} FindAtMost(text: string, part: string, start: nat, p: nat)
    requires start <= p <= |text| && part <= text[p..]
    ensures Find(text, part, start).Some? && Find(text, part, start).value <= p
    decreases |text| - start
  {
    if !(part <= text[start..]) {
      FindAtMost(text, part, start + 1, p);
    }
  }

  lemma {:induction false} FindChar(text: string, c: char, start: nat, p: nat)
    requires start <= p < |text| && text[p] == c
    requires forall i :: start <= i < p ==> text[i] != c
    ensures Find(text, [c], start) == Some(p)
    decreases |text| - start
  {
    if start < p {
      assert text[start..][0] == text[start] != [c][0];
      FindChar(text, c, start + 1, p);
    } else {
      assert text[start..][0] == c;
    }
  }

  lemma {:induction false} FindIsFirst(text: string, part: string, start: nat, p: nat)
    requires start <= p <= |text| && part <= text[p..]
    requires forall i :: start <= i < p ==> !(part <= text[i..])
    ensures Find(text, part, start) == Some(p)
    decreases |text| - start
  {
    if start < p { FindIsFirst(text, part, start + 1, p); }
  }

  lemma {:induction false} FindNothing(text: string, part: string, start: nat)
    requires start <= |text| && forall i :: start <= i <= |text| ==> !(part <= text[i..])
    ensures Find(text, part, start).None?
    decreases |text| - start
  {
    if start < |text| { FindNothing(text, part, start + 1); }
  }

  /** The schema starts at the first bracket behind the first marker, or, in a text without one, at its first bracket. */
  lemma SchemaStartIsFirstBracket(text: string, from: nat, p: nat)
    requires from <= p < |text| && text[p] == '[' && forall i :: from <= i < p ==> text[i] != '['
    requires
      || (INVOKE_MARKER <= text[from..] && forall i :: 0 <= i < from ==> !(INVOKE_MARKER <= text[i..]))
      || (from == 0 && forall i :: 0 <= i <= |text| ==> !(INVOKE_MARKER <= text[i..]))
    ensures SchemaStart(text) == Some(p)
  {
    hide Find;
    if INVOKE_MARKER <= text[from..] {
      FindIsFirst(text, INVOKE_MARKER, 0, from);
    } else {
      FindNothing(text, INVOKE_MARKER, 0);
    }
    FindChar(text, '[', from, p);
    assert ['['] == "[";
  }

  lemma Part1HasNoBracket()
    ensures '[' !in HEADER_PART_1
  {
    assert '[' !in "You are an expert in composing ";
    assert '[' !in "functions. You are given a question ";
  }

  lemma Part2HasNoBracket()
    ensures '[' !in HEADER_PART_2
  {
    assert '[' !in "and a set of possible functions. \n";
    assert '[' !in "Based on the question, you will ";
  }

  lemma Part3HasNoBracket()
    ensures '[' !in HEADER_PART_3
  {
    assert '[' !in "need to make one or more ";
    assert '[' !in "function/tool calls to achieve the ";
  }

  lemma Part4HasNoBracket()
    ensures '[' !in HEADER_PART_4
  {
    assert '[' !in "purpose. \nHere is a list of ";
    assert '[' !in "functions in JSON format that ";
  }

  lemma HeaderHasNoBracket()
    ensures '[' !in SCHEMA_HEADER
  {
    Part1HasNoBracket();
    Part2HasNoBracket();
    Part3HasNoBracket();
    Part4HasNoBracket();
    hide HEADER_PART_1, HEADER_PART_2, HEADER_PART_3, HEADER_PART_4;
    assert '[' !in INVOKE_MARKER;
    assert '[' !in "\n";
  }

  lemma SchemaStartsBehindHeader(header: string, body: string)
    requires header == HEADER_START + INVOKE_MARKER + "\n" && '[' !in header
    requires body != "" && body[0] == '['
    ensures SchemaStart(header + body) == Some(|header|)
  {
    hide Find;
    var text := header + body;
    var p := |HEADER_START|;
    assert text[p..] == INVOKE_MARKER + ("\n" + body);
    FindAtMost(text, INVOKE_MARKER, 0, p);
    var marker := Find(text, INVOKE_MARKER, 0).value;
    forall i | marker <= i < |header| ensures text[i] != '[' {
      assert text[i] == header[i];
    }
    FindChar(text, '[', marker, |header|);
    assert ['['] == "[";
  }

  /**
   Printer and reader agree: for any tool names, printing a schema and reading the
   names back gives the sorted list of names.
   */
  lemma ToolNamesRoundTrip(names: seq<string>)
    ensures ToolNames(RenderToolSchema(names)) == Sort(NameKey, names)
  {
    hide Dumps, ScanLength, SchemaStart, ToolObject, NameOf, NamesOf, Sort, ParseValue, Find;
    var items := ToolObjects(names);
    var printed := Dumps(Arr(items));
    var text := RenderToolSchema(names);
    HeaderHasNoBracket();
    PrintedArrayStart(items);
    assert text == SCHEMA_HEADER + (printed + SCHEMA_FOOTER);
    SchemaStartsBehindHeader(SCHEMA_HEADER, printed + SCHEMA_FOOTER);
    forall i | 0 <= i < |items| ensures WellFormed(items[i]) { ToolObjectWellFormed(names[i]); }
    ScanStopsAtEnd(items, SCHEMA_FOOTER);
    var start := |SCHEMA_HEADER|;
    assert text[start..] == printed + SCHEMA_FOOTER;
    assert text[start..start + |printed|] == printed;
    LoadsPrinted(items);
    NamesOfToolObjects(names);
  }

  lemma PrintedArrayStart(items: seq<Value>)
    ensures Dumps(Arr(items)) != "" && Dumps(Arr(items))[0] == '['
  {
    hide DumpItems;
  }

  lemma LoadsPrinted(items: seq<Value>)
    requires forall i :: 0 <= i < |items| ==> WellFormed(items[i])
    ensures LoadsList(Dumps(Arr(items))) == Some(items)
  {
    hide Dumps, ParseValue;
    var v := Arr(items);
    PrintedArrayStart(items);
    SkipNoWs(Dumps(v));
    ValueRoundTrip(v, "");
    assert Dumps(v) + "" == Dumps(v);
    assert SkipWs("") == "";
  }

  /** What the gate says of a printed tool set: the value measured for the stratum that its sorted names fall into. */
  lemma ConfidenceOfSchema(v: GateVocabulary, names: seq<string>)
    requires names != []
    ensures var known := v.digest(Sort(NameKey, names)) in v.fingerprints;
      var c := Confidence(v, RenderToolSchema(names));
      && (known ==> c == v.confidenceOf(S1))
      && (!known && (forall x :: x in names ==> x in v.tools) ==> c == v.confidenceOf(S2))
      && (!known && (forall x :: x in names ==> x !in v.tools) ==> c == v.confidenceOf(S4))
      && (!known && (exists x :: x in names && x in v.tools) && (exists x :: x in names && x !in v.tools) ==>
            c == v.confidenceOf(S3))
  {
    hide RenderToolSchema, ToolNames, Sort, StratumOfNames;
    ToolNamesRoundTrip(names);
    var sorted := Sort(NameKey, names);
    SameElements(sorted, names);
    StrataPartition(v, sorted);
    assert sorted[0] in sorted;
    if x :| x in names && x in v.tools { var i :| 0 <= i < |sorted| && sorted[i] == x; }
    if x :| x in names && x !in v.tools { var i :| 0 <= i < |sorted| && sorted[i] == x; }
  }

  /** And of a text that names no tools: the conservative value. */
  lemma ConfidenceWithoutTools(v: GateVocabulary, text: string)
    requires ToolNames(text) == []
    ensures Confidence(v, text) == v.unknownConfidence
  {
    hide ToolNames;
  }
}
