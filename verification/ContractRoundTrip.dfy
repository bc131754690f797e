/**
 The editor-to-command-line translation of completion contracts is a
 normaliser: what it accepts, what it makes of it, and why doing it again
 changes nothing.
*/
module ContractRoundTrip {
  import opened Wrappers
  import opened Text
  import opened Json
  import opened CompletionContract

  // ----- what an editor contract says ------------------------------------------------------

  function ReadEntries(values: seq<Json>, idField: string): Result<seq<Entry>, ContractError> {
    if values == [] then Ok([])
    else
      match ReadEntry(values[0], idField)
      case Err(error) => Err(error)
      case Ok(entry) => Behind([entry], ReadEntries(values[1..], idField))
  }

  /** The arguments of entries that all have a flag. */
  function ArgsOf(entries: seq<Entry>, flag: string, optionalFlag: string): seq<string> {
    if entries == [] then []
    else
      [if entries[0].required then flag else optionalFlag, entries[0].id + "=" + entries[0].description]
      + ArgsOf(entries[1..], flag, optionalFlag)
  }

  predicate AllRequired(entries: seq<Entry>) {
    forall i :: 0 <= i < |entries| ==> entries[i].required
  }

  lemma AllRequiredCons(first: Entry, rest: seq<Entry>)
    ensures AllRequired([first] + rest) <==> first.required && AllRequired(rest)
  {
    var all := [first] + rest;
    assert all[0] == first && forall i :: 0 < i < |all| ==> all[i] == rest[i - 1];
    forall i | 0 <= i < |rest| ensures rest[i] == all[i + 1] {
    }
  }

  lemma {:induction false} ValuesArgsAre(values: seq<Json>, idField: string, flag: string, optionalFlag: Option<string>)
    ensures ValuesArgs(values, idField, flag, optionalFlag).Ok? <==>
      ReadEntries(values, idField).Ok? && (optionalFlag.None? ==> AllRequired(ReadEntries(values, idField).value))
    ensures ValuesArgs(values, idField, flag, optionalFlag).Ok? ==>
      ValuesArgs(values, idField, flag, optionalFlag).value
        == ArgsOf(ReadEntries(values, idField).value, flag, if optionalFlag.Some? then optionalFlag.value else "")
  {
    if values != [] {
      ValuesArgsAre(values[1..], idField, flag, optionalFlag);
      var first, rest := ReadEntry(values[0], idField), ReadEntries(values[1..], idField);
      if first.Ok? && rest.Ok? {
        assert ([first.value] + rest.value)[1..] == rest.value;
        AllRequiredCons(first.value, rest.value);
      }
    }
  }

  function Listed(contract: Json, field: string): seq<Json> {
    var values := Get(contract, field);
    if values.Some? && values.value.Arr? then values.value.items else []
  }

  /** The entries of one field; a missing field has none. */
  function EntriesOf(contract: Json, field: string, idField: string): Result<seq<Entry>, ContractError> {
    ReadEntries(Listed(contract, field), idField)
  }

  function Criteria(contract: Json): Result<seq<Entry>, ContractError> {
    EntriesOf(contract, "acceptance_criteria", "criterion_id")
  }

  function Artifacts(contract: Json): Result<seq<Entry>, ContractError> {
    EntriesOf(contract, "required_artifacts", "artifact_id")
  }

  predicate ListOrMissing(contract: Json, field: string) {
    var values := Get(contract, field);
    values.None? || values.value.Arr?
  }

  predicate BoolOrMissing(contract: Json, field: string) {
    var value := Get(contract, field);
    value.None? || value.value.Bool?
  }

  function Delivery(contract: Json): bool {
    var value := Get(contract, "delivery_required");
    value.Some? && value.value.Bool? && value.value.b
  }

  /** The contracts the translation reads at all. */
  predicate WellFormed(contract: Json) {
    && contract.Obj?
    && ListOrMissing(contract, "acceptance_criteria") && Criteria(contract).Ok?
    && ListOrMissing(contract, "required_artifacts") && Artifacts(contract).Ok? && AllRequired(Artifacts(contract).value)
    && BoolOrMissing(contract, "delivery_required")
  }

  function DeliveryArgs(contract: Json): seq<string> {
    if Delivery(contract) then [DELIVERY_FLAG] else []
  }

  lemma EditorArgsAre(contract: Json)
    ensures EditorArgs(contract).Ok? <==> WellFormed(contract)
    ensures WellFormed(contract) ==>
      EditorArgs(contract).value
        == ArgsOf(Criteria(contract).value, CRITERION_FLAG, OPTIONAL_FLAG)
         + (ArgsOf(Artifacts(contract).value, ARTIFACT_FLAG, "") + DeliveryArgs(contract))
  {
    ValuesArgsAre(Listed(contract, "acceptance_criteria"), "criterion_id", CRITERION_FLAG, Some(OPTIONAL_FLAG));
    ValuesArgsAre(Listed(contract, "required_artifacts"), "artifact_id", ARTIFACT_FLAG, None);
  }

  // ----- regrouping -------------------------------------------------------------------------

  /** The ID=DESCRIPTION values of the entries with this `required`, in order. */
  function Joined(entries: seq<Entry>, required: bool): seq<string> {
    if entries == [] then []
    else
      (if entries[0].required == required then [entries[0].id + "=" + entries[0].description] else [])
      + Joined(entries[1..], required)
  }

  lemma {:induction false} RegroupCriteria(entries: seq<Entry>, rest: seq<string>)
    requires Regroup(rest).Ok?
    ensures
      var tail := Regroup(rest).value;
      Regroup(ArgsOf(entries, CRITERION_FLAG, OPTIONAL_FLAG) + rest) == Ok(tail.(
        criteria := Joined(entries, true) + tail.criteria, optional := Joined(entries, false) + tail.optional))
  {
    if entries == [] {
      assert [] + rest == rest;
      var tail := Regroup(rest).value;
      assert [] + tail.criteria == tail.criteria && [] + tail.optional == tail.optional;
    } else {
      RegroupCriteria(entries[1..], rest);
      FrontArgs(entries, CRITERION_FLAG, OPTIONAL_FLAG, rest);
      FlagsDiffer();
      JoinedBehind(entries, true, Regroup(rest).value.criteria);
      JoinedBehind(entries, false, Regroup(rest).value.optional);
    }
  }

  lemma JoinedBehind(entries: seq<Entry>, required: bool, tail: seq<string>)
    requires entries != []
    ensures
      var value := entries[0].id + "=" + entries[0].description;
      Joined(entries, required) + tail ==
        if entries[0].required == required then [value] + (Joined(entries[1..], required) + tail)
        else Joined(entries[1..], required) + tail
  {
  }

  lemma FlagsDiffer()
    ensures CRITERION_FLAG != OPTIONAL_FLAG && CRITERION_FLAG != ARTIFACT_FLAG && OPTIONAL_FLAG != ARTIFACT_FLAG
    ensures DELIVERY_FLAG != CRITERION_FLAG && DELIVERY_FLAG != OPTIONAL_FLAG && DELIVERY_FLAG != ARTIFACT_FLAG
  {
    assert CRITERION_FLAG[2] == 'a' && OPTIONAL_FLAG[2] == 'o' && ARTIFACT_FLAG[2] == 'r' && DELIVERY_FLAG[2] == 'd';
  }

  lemma FrontArgs(entries: seq<Entry>, flag: string, optionalFlag: string, rest: seq<string>)
    requires entries != []
    ensures
      var all := ArgsOf(entries, flag, optionalFlag) + rest;
      && |all| >= 2 && all[0] == (if entries[0].required then flag else optionalFlag)
      && all[1] == entries[0].id + "=" + entries[0].description
      && all[2..] == ArgsOf(entries[1..], flag, optionalFlag) + rest
  {
    PairInFront(if entries[0].required then flag else optionalFlag, entries[0].id + "=" + entries[0].description,
                ArgsOf(entries[1..], flag, optionalFlag), rest);
  }

  lemma PairInFront(flag: string, value: string, tail: seq<string>, rest: seq<string>)
    ensures
      var all := [flag, value] + tail + rest;
      |all| >= 2 && all[0] == flag && all[1] == value && all[2..] == tail + rest
  {
  }

  lemma RegroupOneArtifact(args: seq<string>)
    requires |args| >= 2 && args[0] == ARTIFACT_FLAG && Regroup(args[2..]).Ok?
    ensures
      var tail := Regroup(args[2..]).value;
      Regroup(args) == Ok(tail.(artifacts := [args[1]] + tail.artifacts))
  {
    FlagsDiffer();
  }

  lemma {:induction false} RegroupArtifacts(entries: seq<Entry>, rest: seq<string>)
    requires AllRequired(entries) && Regroup(rest).Ok?
    ensures
      var tail := Regroup(rest).value;
      Regroup(ArgsOf(entries, ARTIFACT_FLAG, "") + rest) == Ok(tail.(artifacts := Joined(entries, true) + tail.artifacts))
  {
    if entries == [] {
      assert [] + rest == rest;
      assert [] + Regroup(rest).value.artifacts == Regroup(rest).value.artifacts;
    } else {
      RegroupArtifacts(entries[1..], rest);
      JoinedBehind(entries, true, Regroup(rest).value.artifacts);
      var all := ArgsOf(entries, ARTIFACT_FLAG, "") + rest;
      assert all[2..] == ArgsOf(entries[1..], ARTIFACT_FLAG, "") + rest;
      RegroupOneArtifact(ArgsOf(entries, ARTIFACT_FLAG, "") + rest);
    }
  }

  /** Regrouping the editor's arguments separates required from optional criteria, keeping their order. */
  lemma RegroupedEditorArgs(contract: Json)
    requires WellFormed(contract)
    ensures EditorArgs(contract).Ok?
    ensures Regroup(EditorArgs(contract).value) == Ok(Flags(
      Joined(Criteria(contract).value, true), Joined(Criteria(contract).value, false),
      Joined(Artifacts(contract).value, true), Delivery(contract)))
  {
    EditorArgsAre(contract);
    var delivery := DeliveryArgs(contract);
    assert Regroup(delivery) == Ok(Flags([], [], [], Delivery(contract))) by {
      if Delivery(contract) {
        assert delivery[1..] == [];
      }
    }
    RegroupArtifacts(Artifacts(contract).value, delivery);
    RegroupCriteria(Criteria(contract).value, ArgsOf(Artifacts(contract).value, ARTIFACT_FLAG, "") + delivery);
    assert Joined(Artifacts(contract).value, true) + [] == Joined(Artifacts(contract).value, true);
    assert Joined(Criteria(contract).value, true) + [] == Joined(Criteria(contract).value, true);
    assert Joined(Criteria(contract).value, false) + [] == Joined(Criteria(contract).value, false);
  }

  // ----- parsing joined values ----------------------------------------------------------------

  /** The trimmed specs of the entries with this `required`, in order. */
  function Specs(entries: seq<Entry>, required: bool): seq<Spec> {
    if entries == [] then []
    else
      (if entries[0].required == required then [Spec(Trim(entries[0].id), Trim(entries[0].description))] else [])
      + Specs(entries[1..], required)
  }

  predicate PlainIds(entries: seq<Entry>) {
    forall i :: 0 <= i < |entries| ==> '=' !in entries[i].id
  }

  /** An id without `=` comes back trimmed, as does its description. */
  lemma JoinedParses(id: string, description: string)
    requires '=' !in id
    ensures
      var spec := Spec(Trim(id), Trim(description));
      ParseSpec(id + "=" + description) == if WellSized(spec) then Ok(spec) else Err(BadLength)
  {
    SplitOnceJoined(id, '=', description);
  }

  /** The id that comes back is the trimmed id exactly when it has no `=`. */
  lemma IdKeptIff(id: string, description: string)
    requires ParseSpec(id + "=" + description).Ok?
    ensures ParseSpec(id + "=" + description).value.id == Trim(id) <==> '=' !in id
  {
    if '=' !in id {
      JoinedParses(id, description);
    } else {
      var joined := id + "=" + description;
      var (before, after) := SplitOnce(joined, '=').value;
      assert '=' !in before;
      TrimKeepsOut(before, '=');
      TrimKeepsIn(id, '=');
    }
  }

  lemma TrimKeepsOut(s: string, c: char)
    requires c !in s
    ensures c !in Trim(s)
  {
    var i, j := TrimCut(s);
  }

  lemma TrimKeepsIn(s: string, c: char)
    requires c in s && !IsWhitespace(c)
    ensures c in Trim(s)
  {
    var i, j := TrimCut(s);
    var k :| 0 <= k < |s| && s[k] == c;
    forall m | 0 <= m < i ensures IsWhitespace(s[m]) {
      assert s[m] == s[..i][m];
    }
    forall m | j <= m < |s| ensures IsWhitespace(s[m]) {
      assert s[m] == s[j..][m - j];
    }
    assert s[i..j][k - i] == c;
  }

  predicate Distinct(specs: seq<Spec>) {
    forall i, j :: 0 <= i < j < |specs| ==> specs[i].id != specs[j].id
  }

  predicate AllWellSized(specs: seq<Spec>) {
    forall i :: 0 <= i < |specs| ==> WellSized(specs[i])
  }

  predicate NoneSeen(specs: seq<Spec>, seen: set<string>) {
    forall i :: 0 <= i < |specs| ==> specs[i].id !in seen
  }

  predicate Good(specs: seq<Spec>, seen: set<string>) {
    AllWellSized(specs) && Distinct(specs) && NoneSeen(specs, seen)
  }

  lemma GoodTail(first: Spec, rest: seq<Spec>, seen: set<string>)
    requires Good([first] + rest, seen)
    ensures WellSized(first) && first.id !in seen && Good(rest, seen + {first.id})
  {
    var all := [first] + rest;
    assert all[0] == first;
    forall i | 0 <= i < |rest| ensures WellSized(rest[i]) && rest[i].id !in seen + {first.id} {
      assert all[i + 1] == rest[i];
    }
    forall i, j | 0 <= i < j < |rest| ensures rest[i].id != rest[j].id {
      assert all[i + 1] == rest[i] && all[j + 1] == rest[j];
    }
  }

  lemma GoodInFront(first: Spec, rest: seq<Spec>, seen: set<string>)
    requires WellSized(first) && first.id !in seen && Good(rest, seen + {first.id})
    ensures Good([first] + rest, seen)
  {
    var all := [first] + rest;
    forall i | 0 <= i < |all| ensures WellSized(all[i]) && all[i].id !in seen {
      assert i > 0 ==> all[i] == rest[i - 1];
    }
    forall i, j | 0 <= i < j < |all| ensures all[i].id != all[j].id {
      assert all[j] == rest[j - 1];
      assert i > 0 ==> all[i] == rest[i - 1];
    }
  }

  lemma GoodCons(first: Spec, rest: seq<Spec>, seen: set<string>)
    ensures Good([first] + rest, seen) <==> WellSized(first) && first.id !in seen && Good(rest, seen + {first.id})
  {
    if Good([first] + rest, seen) {
      GoodTail(first, rest, seen);
    } else if WellSized(first) && first.id !in seen && Good(rest, seen + {first.id}) {
      GoodInFront(first, rest, seen);
    }
  }

  lemma {:induction false} ParseJoined(entries: seq<Entry>, required: bool, seen: set<string>)
    requires PlainIds(entries)
    ensures ParseSpecs(Joined(entries, required), seen).Ok? <==> Good(Specs(entries, required), seen)
    ensures ParseSpecs(Joined(entries, required), seen).Ok? ==>
      ParseSpecs(Joined(entries, required), seen).value == Specs(entries, required)
    decreases |entries|
  {
    if entries != [] {
      var entry, later := entries[0], entries[1..];
      if entry.required == required {
        var spec := Spec(Trim(entry.id), Trim(entry.description));
        JoinedParses(entry.id, entry.description);
        ParseJoined(later, required, seen + {spec.id});
        GoodCons(spec, Specs(later, required), seen);
        var value := entry.id + "=" + entry.description;
        assert ([value] + Joined(later, required))[1..] == Joined(later, required);
      } else {
        ParseJoined(later, required, seen);
        assert [] + Joined(later, required) == Joined(later, required);
        assert [] + Specs(later, required) == Specs(later, required);
      }
    }
  }

  // ----- the normal form ------------------------------------------------------------------------

  function Normal(contract: Json): Contract
    requires WellFormed(contract)
  {
    Contract(Specs(Criteria(contract).value, true), Specs(Criteria(contract).value, false),
             Specs(Artifacts(contract).value, true), Delivery(contract))
  }

  /** Sizes in range, criterion ids unique across required and optional, artifact ids unique, something required. */
  predicate Valid(c: Contract) {
    && Good(c.required, {}) && Good(c.optional, Ids(c.required)) && Good(c.artifacts, {})
    && (c.required != [] || c.artifacts != [])
  }

  predicate PlainContract(contract: Json)
    requires WellFormed(contract)
  {
    PlainIds(Criteria(contract).value) && PlainIds(Artifacts(contract).value)
  }

  /**
   For contracts whose ids hold no `=`: the translation yields a contract exactly
   when the normal form is valid, and then yields that normal form.
  */
  lemma TranslateNormalises(contract: Json)
    requires WellFormed(contract) ==> PlainContract(contract)
    ensures (Translate(contract).Ok? && Translate(contract).value.Some?) <==>
      WellFormed(contract) && Valid(Normal(contract))
    ensures WellFormed(contract) && Valid(Normal(contract)) ==>
      Translate(contract) == Ok(Some(ToJson(Normal(contract))))
  {
    EditorArgsAre(contract);
    if WellFormed(contract) {
      RegroupedEditorArgs(contract);
      var criteria, artifacts := Criteria(contract).value, Artifacts(contract).value;
      ParseJoined(criteria, true, {});
      ParseJoined(criteria, false, Ids(Specs(criteria, true)));
      ParseJoined(artifacts, true, {});
    }
  }

  // ----- fixed points --------------------------------------------------------------------------

  /** As parsing leaves specs: trimmed on both sides, the id without `=`. */
  predicate Clean(spec: Spec) {
    Trimmed(spec.id) && Trimmed(spec.description) && '=' !in spec.id
  }

  predicate AllClean(specs: seq<Spec>) {
    forall i :: 0 <= i < |specs| ==> Clean(specs[i])
  }

  lemma {:induction false} ParsedSpecsAreGood(values: seq<string>, seen: set<string>)
    requires ParseSpecs(values, seen).Ok?
    ensures Good(ParseSpecs(values, seen).value, seen) && AllClean(ParseSpecs(values, seen).value)
    decreases |values|
  {
    if values != [] {
      var spec := ParseSpec(values[0]).value;
      var (id, description) := SplitOnce(values[0], '=').value;
      TrimIsTrimmed(id);
      TrimIsTrimmed(description);
      TrimKeepsOut(id, '=');
      ParsedSpecsAreGood(values[1..], seen + {spec.id});
      GoodCons(spec, ParseSpecs(values[1..], seen + {spec.id}).value, seen);
    }
  }

  lemma BuiltContractIsNormal(flags: Flags) returns (c: Contract)
    requires Build(flags).Ok? && Build(flags).value.Some?
    ensures Build(flags).value.value == ToJson(c) && Valid(c)
    ensures AllClean(c.required) && AllClean(c.optional) && AllClean(c.artifacts)
  {
    c := ParseFlags(flags).value;
    ParsedSpecsAreGood(flags.criteria, {});
    ParsedSpecsAreGood(flags.optional, Ids(c.required));
    ParsedSpecsAreGood(flags.artifacts, {});
  }

  function AsEntries(specs: seq<Spec>, required: bool): seq<Entry> {
    seq(|specs|, i requires 0 <= i < |specs| => Entry(specs[i].id, specs[i].description, required))
  }

  lemma CriterionReadsBack(spec: Spec, required: bool)
    ensures ReadEntry(CriterionJson(spec, required), "criterion_id") == Ok(Entry(spec.id, spec.description, required))
  {
    var fields := CriterionJson(spec, required).fields;
    assert Lookup(fields, "criterion_id") == Some(Str(spec.id));
    assert fields[0].name[0] == 'c' && fields[1].name[0] == 'd' && fields[2].name[0] == 'r';
    assert Lookup(fields[1..], "description") == Some(Str(spec.description));
    assert Lookup(fields[1..][1..], "required") == Some(Bool(required));
    assert Lookup(fields[1..], "required") == Some(Bool(required));
  }

  lemma ArtifactReadsBack(spec: Spec)
    ensures ReadEntry(ArtifactJson(spec), "artifact_id") == Ok(Entry(spec.id, spec.description, true))
  {
    var fields := ArtifactJson(spec).fields;
    assert fields[0].name[0] == 'a' && fields[1].name[0] == 'd';
    assert Lookup(fields, "artifact_id") == Some(Str(spec.id));
    assert Lookup(fields[1..], "description") == Some(Str(spec.description));
    assert Lookup(fields[1..][1..], "required") == None;
    assert Lookup(fields[1..], "required") == None;
  }

  lemma {:induction false} ReadEntriesAre(values: seq<Json>, idField: string, entries: seq<Entry>)
    requires |values| == |entries|
    requires forall i :: 0 <= i < |values| ==> ReadEntry(values[i], idField) == Ok(entries[i])
    ensures ReadEntries(values, idField) == Ok(entries)
  {
    if values != [] {
      ReadEntriesAre(values[1..], idField, entries[1..]);
      assert [entries[0]] + entries[1..] == entries;
    }
  }

  lemma {:induction false} SpecsOfAppend(a: seq<Entry>, b: seq<Entry>, required: bool)
    ensures Specs(a + b, required) == Specs(a, required) + Specs(b, required)
  {
    if a == [] {
      assert a + b == b;
    } else {
      assert (a + b)[1..] == a[1..] + b;
      SpecsOfAppend(a[1..], b, required);
    }
  }

  lemma {:induction false} SpecsOfEntries(specs: seq<Spec>, required: bool)
    requires AllClean(specs)
    ensures Specs(AsEntries(specs, required), required) == specs
    ensures Specs(AsEntries(specs, required), !required) == []
  {
    if specs != [] {
      assert AsEntries(specs, required)[1..] == AsEntries(specs[1..], required);
      SpecsOfEntries(specs[1..], required);
      assert Clean(specs[0]);
      TrimFixed(specs[0].id);
      TrimFixed(specs[0].description);
      assert [specs[0]] + specs[1..] == specs;
    }
  }

  lemma CriteriaReadBack(c: Contract)
    ensures ReadEntries(CriteriaJson(c.required, true) + CriteriaJson(c.optional, false), "criterion_id")
      == Ok(AsEntries(c.required, true) + AsEntries(c.optional, false))
  {
    forall spec, required: bool
      ensures ReadEntry(CriterionJson(spec, required), "criterion_id") == Ok(Entry(spec.id, spec.description, required))
    {
      CriterionReadsBack(spec, required);
    }
    ReadEntriesAre(CriteriaJson(c.required, true) + CriteriaJson(c.optional, false), "criterion_id",
                   AsEntries(c.required, true) + AsEntries(c.optional, false));
  }

  lemma ArtifactsReadBack(c: Contract)
    ensures ReadEntries(ArtifactsJson(c.artifacts), "artifact_id") == Ok(AsEntries(c.artifacts, true))
  {
    forall spec ensures ReadEntry(ArtifactJson(spec), "artifact_id") == Ok(Entry(spec.id, spec.description, true)) {
      ArtifactReadsBack(spec);
    }
    ReadEntriesAre(ArtifactsJson(c.artifacts), "artifact_id", AsEntries(c.artifacts, true));
  }

  /** A clean contract is read back entry by entry. */
  lemma ContractReadsBack(c: Contract)
    ensures WellFormed(ToJson(c))
    ensures Criteria(ToJson(c)) == Ok(AsEntries(c.required, true) + AsEntries(c.optional, false))
    ensures Artifacts(ToJson(c)) == Ok(AsEntries(c.artifacts, true))
    ensures Delivery(ToJson(c)) == c.delivery
  {
    FieldsOfContract(c);
    CriteriaReadBack(c);
    ArtifactsReadBack(c);
  }

  lemma FieldsOfContract(c: Contract)
    ensures Get(ToJson(c), "acceptance_criteria") == Some(Arr(CriteriaJson(c.required, true) + CriteriaJson(c.optional, false)))
    ensures Get(ToJson(c), "required_artifacts") == Some(Arr(ArtifactsJson(c.artifacts)))
    ensures Get(ToJson(c), "delivery_required") == Some(Bool(c.delivery))
  {
    var fields := ToJson(c).fields;
    assert fields[0].name[0] == 'a' && fields[1].name[0] == 'd' && fields[2].name[0] == 'r';
    assert Lookup(fields[1..][1..], "required_artifacts") == Some(Arr(ArtifactsJson(c.artifacts)));
    assert Lookup(fields[1..], "required_artifacts") == Some(Arr(ArtifactsJson(c.artifacts)));
    assert Lookup(fields[1..], "delivery_required") == Some(Bool(c.delivery));
  }

  lemma CleanContractIsFixed(c: Contract)
    requires Valid(c) && AllClean(c.required) && AllClean(c.optional) && AllClean(c.artifacts)
    ensures Translate(ToJson(c)) == Ok(Some(ToJson(c)))
  {
    ContractReadsBack(c);
    var required, optional := AsEntries(c.required, true), AsEntries(c.optional, false);
    var criteria := required + optional;
    assert PlainIds(criteria) by {
      forall i | 0 <= i < |criteria| ensures '=' !in criteria[i].id {
        assert i < |required| ==> Clean(c.required[i]);
        assert i >= |required| ==> Clean(c.optional[i - |required|]);
      }
    }
    assert PlainIds(AsEntries(c.artifacts, true)) by {
      assert forall i :: 0 <= i < |c.artifacts| ==> Clean(c.artifacts[i]);
    }
    SpecsOfAppend(required, optional, true);
    SpecsOfAppend(required, optional, false);
    SpecsOfEntries(c.required, true);
    SpecsOfEntries(c.optional, false);
    SpecsOfEntries(c.artifacts, true);
    assert c.required + [] == c.required && [] + c.optional == c.optional;
    TranslateNormalises(ToJson(c));
  }

  /** Every contract the command line builds passes through the editor translation unchanged. */
  lemma BuiltContractIsFixed(flags: Flags)
    requires Build(flags).Ok? && Build(flags).value.Some?
    ensures Translate(Build(flags).value.value) == Ok(Some(Build(flags).value.value))
  {
    var c := BuiltContractIsNormal(flags);
    CleanContractIsFixed(c);
  }

  /** Translating once is enough. */
  lemma TranslateIsIdempotent(contract: Json)
    requires Translate(contract).Ok? && Translate(contract).value.Some?
    ensures Translate(Translate(contract).value.value) == Translate(contract)
  {
    BuiltContractIsFixed(Regroup(EditorArgs(contract).value).value);
  }
}
