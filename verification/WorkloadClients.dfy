/** `build_clients`: synthetic tenants, one cohort for each cold-start stratum. */
module WorkloadClients {
  import opened Optional
  import opened Sorting
  import opened ToolStrata

  datatype Client = Client(cohort: Stratum, names: seq<string>, schema: string)

  datatype ClientsResult = Built(clients: seq<Client>) | Rejected

  /**
   The random choices: a training set for each S1 client, a sample of seen names for
   each S2 client and attempt, a seen name for each S3 client.
   */
  datatype Draws = Draws(trainSet: nat -> nat, sample: (nat, nat) -> seq<string>, seenName: nat -> string)

  // ----- the training pool -----

  /** The readable tool sets of the training examples. */
  function TrainSets(examples: seq<string>): seq<seq<string>> {
    if examples == [] then []
    else
      var names := ToolNames(examples[|examples| - 1]);
      TrainSets(examples[..|examples| - 1]) + if names != [] then [names] else []
  }

  function SeenNames(trainSets: seq<seq<string>>): set<string> {
    set i, j | 0 <= i < |trainSets| && 0 <= j < |trainSets[i]| :: trainSets[i][j]
  }

  /** `rng.sample(seen_pool, size)` with a size between 2 and 4. */
  ghost predicate SampleOf(pool: set<string>, s: seq<string>) {
    && 2 <= |s| <= 4
    && (forall x :: x in s ==> x in pool)
    && (forall i, j :: 0 <= i < j < |s| ==> s[i] != s[j])
  }

  ghost predicate ValidDraws(draws: Draws, trainSets: seq<seq<string>>) {
    && (trainSets != [] ==> forall i: nat :: draws.trainSet(i) < |trainSets|)
    && (trainSets != [] ==> forall i: nat :: draws.seenName(i) in SeenNames(trainSets))
    && (|SeenNames(trainSets)| >= 2 ==> forall i: nat, k: nat :: SampleOf(SeenNames(trainSets), draws.sample(i, k)))
  }

  // ----- novel names -----

  function Decimal(n: nat): (r: string)
    ensures r != ""
  {
    if n < 10 then [('0' as int + n) as char] else Decimal(n / 10) + [('0' as int + n % 10) as char]
  }

  function Pad(r: string, width: nat): string
    decreases width - |r|
  {
    if |r| >= width then r else Pad("0" + r, width)
  }

  function NovelName(index: nat): string { "synthetic_tool_" + Pad(Decimal(index), 5) }

  ghost predicate IsNovel(name: string) { exists k: nat :: name == NovelName(k) }

  /** `tuple(sorted({a, b}))`. */
  function SortedPair(a: string, b: string): seq<string> {
    if a == b then [a] else Sort(NameKey, [a, b])
  }

  lemma SortedPairElements(a: string, b: string)
    ensures SortedPair(a, b) != []
    ensures forall x :: x in SortedPair(a, b) <==> x == a || x == b
    ensures SortedBy(NameKey, SortedPair(a, b))
  {
    hide Sort;
    SortIsSorted(NameKey, [a, b]);
    SameElements(Sort(NameKey, [a, b]), [a, b]);
  }

  // ----- the clients -----

  function MakeClient(cohort: Stratum, names: seq<string>): Client {
    Client(cohort, names, RenderToolSchema(names))
  }

  /** What a client of each cohort looks like. */
  ghost predicate ClientOk(trainSets: seq<seq<string>>, c: Client) {
    && c.schema == RenderToolSchema(c.names)
    && c.names != [] && SortedBy(NameKey, c.names)
    && match c.cohort
       case S1 => c.names in trainSets
       case S2 => c.names !in trainSets && forall x :: x in c.names ==> x in SeenNames(trainSets)
       case S3 => (exists x :: x in c.names && x in SeenNames(trainSets)) && (exists x :: x in c.names && IsNovel(x))
       case S4 => forall x :: x in c.names ==> IsNovel(x)
       case Unknown => false
  }

  lemma {:induction false} TrainSetsSorted(examples: seq<string>, names: seq<string>)
    requires names in TrainSets(examples)
    ensures names != [] && SortedBy(NameKey, names)
  {
    hide ToolNames, SortedBy;
    var last := ToolNames(examples[|examples| - 1]);
    if names in TrainSets(examples[..|examples| - 1]) {
      TrainSetsSorted(examples[..|examples| - 1], names);
    } else {
      ToolNamesSorted(examples[|examples| - 1]);
    }
  }

  lemma ToolNamesSorted(text: string)
    ensures SortedBy(NameKey, ToolNames(text))
  {
    hide Sort, ToolVocabulary.ExtractSchema, NamesOf;
    match ToolVocabulary.ExtractSchema(text)
    case Some(items) => SortIsSorted(NameKey, NamesOf(items));
    case None =>
  }

  method CollectTrainSets(examples: seq<string>) returns (trainSets: seq<seq<string>>)
    ensures trainSets == TrainSets(examples)
  {
    hide ToolNames;
    trainSets := [];
    var i := 0;
    while i < |examples|
      invariant i <= |examples| && trainSets == TrainSets(examples[..i])
    {
      assert examples[..i + 1][..i] == examples[..i];
      var names := ToolNames(examples[i]);
      if names != [] {
        trainSets := trainSets + [names];
      }
      i := i + 1;
    }
    assert examples[..|examples|] == examples;
  }

  /** Up to 64 samples, until one is not a training combination. */
  function FirstUnseen(trainSets: seq<seq<string>>, draws: Draws, index: nat, attempt: nat): Option<seq<string>>
    decreases 64 - attempt
  {
    if attempt >= 64 then None
    else
      var names := Sort(NameKey, draws.sample(index, attempt));
      if names !in trainSets then Some(names) else FirstUnseen(trainSets, draws, index, attempt + 1)
  }

  /** The first of the 64 samples that training has not seen; none if it has seen them all. */
  lemma {:induction false} UnseenIsFirst(trainSets: seq<seq<string>>, draws: Draws, index: nat, attempt: nat)
    ensures FirstUnseen(trainSets, draws, index, attempt).None? <==>
      forall k: nat :: attempt <= k < 64 ==> Sort(NameKey, draws.sample(index, k)) in trainSets
    ensures forall k: nat ::
      (attempt <= k < 64 && Sort(NameKey, draws.sample(index, k)) !in trainSets
       && forall l: nat :: attempt <= l < k ==> Sort(NameKey, draws.sample(index, l)) in trainSets)
      ==> FirstUnseen(trainSets, draws, index, attempt) == Some(Sort(NameKey, draws.sample(index, k)))
    decreases 64 - attempt
  {
    hide Sort;
    if attempt < 64 && Sort(NameKey, draws.sample(index, attempt)) in trainSets {
      UnseenIsFirst(trainSets, draws, index, attempt + 1);
    }
  }

  method UnseenCombination(trainSets: seq<seq<string>>, draws: Draws, index: nat) returns (r: Option<seq<string>>)
    ensures r == FirstUnseen(trainSets, draws, index, 0)
  {
    hide Sort;
    var attempt := 0;
    while attempt < 64
      invariant attempt <= 64 && FirstUnseen(trainSets, draws, index, 0) == FirstUnseen(trainSets, draws, index, attempt)
    {
      var names := Sort(NameKey, draws.sample(index, attempt));
      if names !in trainSets {
        return Some(names);
      }
      attempt := attempt + 1;
    }
    return None;
  }

  lemma {:induction false} UnseenIsRecombined(trainSets: seq<seq<string>>, draws: Draws, index: nat, attempt: nat)
    requires ValidDraws(draws, trainSets) && |SeenNames(trainSets)| >= 2
    requires FirstUnseen(trainSets, draws, index, attempt).Some?
    ensures ClientOk(trainSets, MakeClient(S2, FirstUnseen(trainSets, draws, index, attempt).value))
    decreases 64 - attempt
  {
    hide RenderToolSchema, Sort, SeenNames;
    assert SampleOf(SeenNames(trainSets), draws.sample(index, attempt));
    var names := Sort(NameKey, draws.sample(index, attempt));
    if names !in trainSets {
      SortIsSorted(NameKey, draws.sample(index, attempt));
      SameElements(names, draws.sample(index, attempt));
    } else {
      UnseenIsRecombined(trainSets, draws, index, attempt + 1);
    }
  }

  /** The cohorts follow one another, `n` clients each. */
  function CohortAt(i: nat, n: nat): Stratum {
    if i < n then S1 else if i < 2 * n then S2 else if i < 3 * n then S3 else S4
  }

  /** The cohorts can be made: there are seen names to recombine, and each S2 client finds an unseen combination. */
  ghost predicate Feasible(trainSets: seq<seq<string>>, draws: Draws, n: nat) {
    && trainSets != [] && |SeenNames(trainSets)| >= 2
    && forall i :: 0 <= i < n ==> FirstUnseen(trainSets, draws, i, 0).Some?
  }

  /** Client number `i`; every novel name is used once, numbered through the last two cohorts. */
  ghost function ClientAt(trainSets: seq<seq<string>>, draws: Draws, n: nat, i: nat): Client
    requires ValidDraws(draws, trainSets) && trainSets != []
    requires n <= i < 2 * n ==> FirstUnseen(trainSets, draws, i - n, 0).Some?
  {
    if i < n then MakeClient(S1, trainSets[draws.trainSet(i)])
    else if i < 2 * n then MakeClient(S2, FirstUnseen(trainSets, draws, i - n, 0).value)
    else if i < 3 * n then MakeClient(S3, SortedPair(draws.seenName(i - 2 * n), NovelName(i - 2 * n + 1)))
    else
      var k := n + 2 * (i - 3 * n);
      MakeClient(S4, SortedPair(NovelName(k + 1), NovelName(k + 2)))
  }

  method BuildClients(examples: seq<string>, perStratum: int, draws: Draws) returns (r: ClientsResult)
    requires ValidDraws(draws, TrainSets(examples))
    ensures r.Rejected? <==> perStratum < 1 || !Feasible(TrainSets(examples), draws, perStratum)
    ensures r.Built? ==>
      && |r.clients| == 4 * perStratum
      && forall i :: 0 <= i < |r.clients| ==> r.clients[i] == ClientAt(TrainSets(examples), draws, perStratum, i)
  {
    hide MakeClient, ToolNames, TrainSets, SortedPair, NovelName, SeenNames, FirstUnseen;
    if perStratum < 1 {
      return Rejected;
    }
    var trainSets := CollectTrainSets(examples);
    if trainSets == [] {
      return Rejected;
    }
    var clients: seq<Client> := [];
    var novel := 0;

    var index := 0;
    while index < perStratum
      invariant 0 <= index <= perStratum && |clients| == index
      invariant forall i :: 0 <= i < |clients| ==> clients[i] == ClientAt(trainSets, draws, perStratum, i)
    {
      clients := clients + [MakeClient(S1, trainSets[draws.trainSet(index)])];
      index := index + 1;
    }

    if |SeenNames(trainSets)| < 2 {
      // `rng.randint(2, 1)` raises ValueError
      return Rejected;
    }
    index := 0;
    while index < perStratum
      invariant 0 <= index <= perStratum && |clients| == perStratum + index
      invariant forall i :: 0 <= i < index ==> FirstUnseen(trainSets, draws, i, 0).Some?
      invariant forall i :: 0 <= i < |clients| ==> clients[i] == ClientAt(trainSets, draws, perStratum, i)
    {
      var unseen := UnseenCombination(trainSets, draws, index);
      if unseen.None? {
        return Rejected;
      }
      clients := clients + [MakeClient(S2, unseen.value)];
      index := index + 1;
    }

    index := 0;
    while index < perStratum
      invariant 0 <= index <= perStratum && |clients| == 2 * perStratum + index && novel == index
      invariant forall i :: 0 <= i < |clients| ==> clients[i] == ClientAt(trainSets, draws, perStratum, i)
    {
      novel := novel + 1;
      clients := clients + [MakeClient(S3, SortedPair(draws.seenName(index), NovelName(novel)))];
      index := index + 1;
    }

    index := 0;
    while index < perStratum
      invariant 0 <= index <= perStratum && |clients| == 3 * perStratum + index && novel == perStratum + 2 * index
      invariant forall i :: 0 <= i < |clients| ==> clients[i] == ClientAt(trainSets, draws, perStratum, i)
    {
      novel := novel + 1;
      var first := novel;
      novel := novel + 1;
      clients := clients + [MakeClient(S4, SortedPair(NovelName(first), NovelName(novel)))];
      index := index + 1;
    }
    return Built(clients);
  }

  // ----- novel names are used once -----

  /** The number that a text of digits denotes. */
  function NumberOf(digits: string): int {
    if digits == "" then 0 else NumberOf(digits[..|digits| - 1]) * 10 + (digits[|digits| - 1] as int - '0' as int)
  }

  lemma {:induction false} DecimalDenotes(n: nat)
    ensures NumberOf(Decimal(n)) == n
  {
    if n < 10 {
      assert Decimal(n)[..0] == "";
    } else {
      DecimalDenotes(n / 10);
      assert Decimal(n)[..|Decimal(n)| - 1] == Decimal(n / 10);
    }
  }

  lemma {:induction false} ZeroInFront(digits: string)
    ensures NumberOf("0" + digits) == NumberOf(digits)
  {
    if digits == "" {
      assert ("0" + digits)[..0] == "" && "0" + digits == "0";
    } else {
      ZeroInFront(digits[..|digits| - 1]);
      assert ("0" + digits)[..|digits|] == "0" + digits[..|digits| - 1];
    }
  }

  lemma {:induction false} PadDenotes(digits: string, width: nat)
    ensures NumberOf(Pad(digits, width)) == NumberOf(digits)
    decreases width - |digits|
  {
    if |digits| < width {
      ZeroInFront(digits);
      PadDenotes("0" + digits, width);
    }
  }

  /** Different numbers give different names. */
  lemma NovelNamesDiffer(a: nat, b: nat)
    ensures NovelName(a) == NovelName(b) ==> a == b
  {
    DecimalDenotes(a);
    DecimalDenotes(b);
    PadDenotes(Decimal(a), 5);
    PadDenotes(Decimal(b), 5);
    hide Decimal, Pad, NumberOf;
    assert NovelName(a)[|"synthetic_tool_"|..] == Pad(Decimal(a), 5);
    assert NovelName(b)[|"synthetic_tool_"|..] == Pad(Decimal(b), 5);
  }

  /** The numbers of the synthetic tools that client number `i` gets. */
  function NovelNumbers(n: nat, i: nat): set<nat> {
    if i < 2 * n then {} else if i < 3 * n then {i - 2 * n + 1} else {n + 2 * (i - 3 * n) + 1, n + 2 * (i - 3 * n) + 2}
  }

  /** What each client consists of, from the draws. */
  lemma ClientFromDraws(trainSets: seq<seq<string>>, draws: Draws, n: nat, i: nat)
    requires ValidDraws(draws, trainSets) && Feasible(trainSets, draws, n) && i < 4 * n
    ensures var c := ClientAt(trainSets, draws, n, i);
      && (i < n ==> c.names == trainSets[draws.trainSet(i)])
      && (n <= i < 2 * n ==> Some(c.names) == FirstUnseen(trainSets, draws, i - n, 0))
      && (2 * n <= i ==> forall x :: x in c.names <==>
            (i < 3 * n && x == draws.seenName(i - 2 * n)) || exists k: nat :: k in NovelNumbers(n, i) && x == NovelName(k))
  {
    hide RenderToolSchema, SortedPair, NovelName, SeenNames, FirstUnseen;
    if 2 * n <= i < 3 * n {
      SortedPairElements(draws.seenName(i - 2 * n), NovelName(i - 2 * n + 1));
    } else if 3 * n <= i {
      var k := n + 2 * (i - 3 * n);
      SortedPairElements(NovelName(k + 1), NovelName(k + 2));
    }
  }

  /** No synthetic tool is given to two clients. */
  lemma NovelNamesUsedOnce(n: nat, i: nat, j: nat, a: nat, b: nat)
    requires i != j && a in NovelNumbers(n, i) && b in NovelNumbers(n, j)
    ensures NovelName(a) != NovelName(b)
  {
    hide NovelName;
    NovelNamesDiffer(a, b);
  }

  /** Every client built has the tool set its cohort stands for. */
  lemma ClientsAreOk(examples: seq<string>, draws: Draws, n: nat, i: nat)
    requires ValidDraws(draws, TrainSets(examples)) && Feasible(TrainSets(examples), draws, n) && i < 4 * n
    ensures var c := ClientAt(TrainSets(examples), draws, n, i);
      c.cohort == CohortAt(i, n) && ClientOk(TrainSets(examples), c)
  {
    hide RenderToolSchema, ToolNames, TrainSets, SortedPair, NovelName, SeenNames, FirstUnseen;
    var trainSets := TrainSets(examples);
    if i < n {
      TrainSetsSorted(examples, trainSets[draws.trainSet(i)]);
    } else if i < 2 * n {
      UnseenIsRecombined(trainSets, draws, i - n, 0);
    } else if i < 3 * n {
      MixedPair(trainSets, draws.seenName(i - 2 * n), i - 2 * n + 1);
    } else {
      var k := n + 2 * (i - 3 * n);
      NovelPair(trainSets, k + 1, k + 2);
    }
  }

  lemma MixedPair(trainSets: seq<seq<string>>, seen: string, k: nat)
    requires seen in SeenNames(trainSets)
    ensures ClientOk(trainSets, MakeClient(S3, SortedPair(seen, NovelName(k))))
  {
    hide RenderToolSchema, SortedPair, NovelName, SortedBy, SeenNames;
    SortedPairElements(seen, NovelName(k));
    assert IsNovel(NovelName(k));
    assert seen in SortedPair(seen, NovelName(k)) && NovelName(k) in SortedPair(seen, NovelName(k));
  }

  lemma NovelPair(trainSets: seq<seq<string>>, k: nat, l: nat)
    ensures ClientOk(trainSets, MakeClient(S4, SortedPair(NovelName(k), NovelName(l))))
  {
    hide RenderToolSchema, SortedPair, NovelName, SortedBy;
    SortedPairElements(NovelName(k), NovelName(l));
    assert IsNovel(NovelName(k)) && IsNovel(NovelName(l));
  }

  // ----- classification -----

  /** The vocabulary learned from the same examples. */
  ghost predicate TrainedOn(v: GateVocabulary, trainSets: seq<seq<string>>) {
    && v.tools == SeenNames(trainSets)
    && v.fingerprints == set i | 0 <= i < |trainSets| :: v.digest(trainSets[i])
  }

  /** The truncated hash tells a name list from every training set it differs from. */
  ghost predicate DigestSeparates(v: GateVocabulary, trainSets: seq<seq<string>>, names: seq<string>) {
    forall i :: 0 <= i < |trainSets| && v.digest(names) == v.digest(trainSets[i]) ==> names == trainSets[i]
  }

  /** The synthetic names of a client are new to the training sets: one of them for S3, all for S4. */
  ghost predicate NovelNamesUnseen(trainSets: seq<seq<string>>, c: Client) {
    match c.cohort
    case S3 => exists x :: x in c.names && x !in SeenNames(trainSets)
    case S4 => forall x :: x in c.names ==> x !in SeenNames(trainSets)
    case _ => true
  }

  /**
   A client, printed, read back, fingerprinted and counted against the vocabulary, is
   classified into its own cohort if and only if its synthetic names are new to the
   training sets.
   */
  lemma ClientsClassifiedIff(trainSets: seq<seq<string>>, v: GateVocabulary, c: Client)
    requires ClientOk(trainSets, c) && TrainedOn(v, trainSets)
    requires DigestSeparates(v, trainSets, c.names)
    ensures StratumOf(v, c.schema) == c.cohort <==> NovelNamesUnseen(trainSets, c)
  {
    hide RenderToolSchema, ToolNames, Sort, SortedBy, IsNovel, StratumOfNames, SeenNames;
    ToolNamesRoundTrip(c.names);
    SortOfSorted(NameKey, c.names);
    StrataPartition(v, c.names);
    KnownFingerprint(trainSets, v, c.names);
    if c.names in trainSets {
      forall x | x in c.names ensures x in SeenNames(trainSets) { TrainSetMembersSeen(trainSets, c.names, x); }
      assert c.names[0] in c.names;
    }
  }

  /** In particular when no training tool has a synthetic name. */
  lemma ClientsClassifiedByLabel(trainSets: seq<seq<string>>, v: GateVocabulary, c: Client)
    requires ClientOk(trainSets, c) && TrainedOn(v, trainSets)
    requires DigestSeparates(v, trainSets, c.names)
    requires forall x :: x in SeenNames(trainSets) ==> !IsNovel(x)
    ensures StratumOf(v, c.schema) == c.cohort
  {
    hide RenderToolSchema, StratumOf, IsNovel, SeenNames, SortedBy;
    ClientsClassifiedIff(trainSets, v, c);
  }

  // ----- a training tool with a synthetic name -----

  const SYNTHETIC_TOOL := "synthetic_tool_00001"

  const TRAINED_PAIR: seq<string> := ["get_weather", SYNTHETIC_TOOL]

  function TrainedExamples(): seq<string> { [RenderToolSchema(TRAINED_PAIR), RenderToolSchema(["search"])] }

  function TrainedDraws(): Draws {
    Draws((i: nat) => 0, (i: nat, k: nat) => ["get_weather", "search"], (i: nat) => "get_weather")
  }

  lemma FirstNovelName()
    ensures NovelName(1) == SYNTHETIC_TOOL
  {
    assert Decimal(1) == "1";
    assert "0" + "1" == "01" && "0" + "01" == "001" && "0" + "001" == "0001" && "0" + "0001" == "00001";
    assert Pad("0001", 5) == Pad("00001", 5) == "00001";
    assert Pad("01", 5) == Pad("001", 5) == Pad("0001", 5);
    assert Pad("1", 5) == Pad("01", 5);
  }

  lemma TrainedPairSorted()
    ensures SortedBy(NameKey, TRAINED_PAIR) && SortedBy(NameKey, ["search"])
    ensures Sort(NameKey, TRAINED_PAIR) == TRAINED_PAIR && Sort(NameKey, ["search"]) == ["search"]
  {
    assert "get_weather"[0] < SYNTHETIC_TOOL[0];
    SortOfSorted(NameKey, TRAINED_PAIR);
    SortOfSorted(NameKey, ["search"]);
  }

  lemma TrainedSets()
    ensures TrainSets(TrainedExamples()) == [TRAINED_PAIR, ["search"]]
  {
    hide ToolNames, RenderToolSchema, Sort;
    var e := TrainedExamples();
    ToolNamesRoundTrip(TRAINED_PAIR);
    ToolNamesRoundTrip(["search"]);
    TrainedPairSorted();
    assert e[..1] == [e[0]] && [e[0]][..0] == [];
  }

  lemma TrainedDrawsAreFeasible()
    ensures var sets := TrainSets(TrainedExamples());
      ValidDraws(TrainedDraws(), sets) && Feasible(sets, TrainedDraws(), 1)
  {
    hide TrainSets, TrainedExamples, Sort;
    TrainedSets();
    var sets := TrainSets(TrainedExamples());
    var pool := SeenNames(sets);
    assert sets[0][0] in pool && sets[1][0] in pool;
    assert "get_weather"[0] != "search"[0];
    assert {"get_weather", "search"} <= pool;
    SubsetSize({"get_weather", "search"}, pool);
    var names: seq<string> := ["get_weather", "search"];
    SameElements(Sort(NameKey, names), names);
    assert names[1] in Sort(NameKey, names) && |Sort(NameKey, names)| == 2;
    assert "search" !in TRAINED_PAIR;
    assert Sort(NameKey, names) !in sets;
  }

  /**
   A training tool named like the first synthetic one: the only mixed client gets the
   very pair of the training example, and is classified as known.
   */
  lemma SyntheticTrainingToolMisleads(v: GateVocabulary)
    requires TrainedOn(v, TrainSets(TrainedExamples()))
    ensures var sets, draws := TrainSets(TrainedExamples()), TrainedDraws();
      && ValidDraws(draws, sets) && Feasible(sets, draws, 1)
      && var c := ClientAt(sets, draws, 1, 2);
      c.cohort == S3 && StratumOf(v, c.schema) == S1
  {
    hide RenderToolSchema, ToolNames, TrainSets, Sort, NovelName, SeenNames, FirstUnseen, TrainedExamples;
    TrainedDrawsAreFeasible();
    TrainedSets();
    var sets := TrainSets(TrainedExamples());
    FirstNovelName();
    TrainedPairSorted();
    assert SortedPair("get_weather", NovelName(1)) == TRAINED_PAIR by { assert "get_weather"[0] != SYNTHETIC_TOOL[0]; }
    ToolNamesRoundTrip(TRAINED_PAIR);
    assert v.digest(sets[0]) in v.fingerprints;
  }

  lemma TrainSetMembersSeen(trainSets: seq<seq<string>>, names: seq<string>, x: string)
    requires names in trainSets && x in names
    ensures x in SeenNames(trainSets)
  {
    var i :| 0 <= i < |trainSets| && trainSets[i] == names;
    var j :| 0 <= j < |trainSets[i]| && trainSets[i][j] == x;
  }

  lemma KnownFingerprint(trainSets: seq<seq<string>>, v: GateVocabulary, names: seq<string>)
    requires TrainedOn(v, trainSets) && DigestSeparates(v, trainSets, names)
    ensures v.digest(names) in v.fingerprints <==> names in trainSets
  {
    hide SeenNames;
  }
}
