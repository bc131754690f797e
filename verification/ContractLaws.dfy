/** Which flags make a completion contract, told by the flag texts and their lengths in bytes. */
module ContractLaws {
  import opened Wrappers
  import opened Text
  import opened Json
  import opened Utf8
  import opened CompletionContract
  import opened ContractRoundTrip

  /** ID=DESCRIPTION, cut at the first equals sign; both parts trimmed, not empty, at most 128 and 2,000 bytes. */
  ghost predicate Reads(value: string, spec: Spec) {
    && (exists id, description :: Cuts(value, id, description) && spec == Spec(Trim(id), Trim(description)))
    && 1 <= |Encode(spec.id)| <= 128 && 1 <= |Encode(spec.description)| <= 2_000
  }

  predicate Cuts(value: string, id: string, description: string) {
    value == id + "=" + description && '=' !in id
  }

  lemma CutIs(value: string, id: string, description: string)
    ensures Cuts(value, id, description) <==> SplitOnce(value, '=') == Some((id, description))
  {
    if Cuts(value, id, description) {
      SplitOnceJoined(id, '=', description);
    }
  }

  lemma SizedIff(spec: Spec)
    ensures WellSized(spec) <==> 1 <= |Encode(spec.id)| <= 128 && 1 <= |Encode(spec.description)| <= 2_000
  {
    LengthIsEncoded(spec.id);
    LengthIsEncoded(spec.description);
  }

  lemma ReadsIff(value: string, spec: Spec)
    ensures ParseSpec(value) == Ok(spec) <==> Reads(value, spec)
  {
    SizedIff(spec);
    if Reads(value, spec) {
      var id, description :| Cuts(value, id, description) && spec == Spec(Trim(id), Trim(description));
      CutIs(value, id, description);
    }
    if ParseSpec(value) == Ok(spec) {
      var (id, description) := SplitOnce(value, '=').value;
      CutIs(value, id, description);
    }
  }

  ghost predicate ReadAll(values: seq<string>, specs: seq<Spec>) {
    |specs| == |values| && forall i :: 0 <= i < |values| ==> Reads(values[i], specs[i])
  }

  predicate DistinctIds(specs: seq<Spec>) {
    forall i, j :: 0 <= i < j < |specs| ==> specs[i].id != specs[j].id
  }

  predicate Unseen(specs: seq<Spec>, seen: set<string>) {
    forall i :: 0 <= i < |specs| ==> specs[i].id !in seen
  }

  /** The flags of one list give those specs exactly if each reads as its own and no id comes twice. */
  lemma {:induction false} ParsedIff(values: seq<string>, seen: set<string>, specs: seq<Spec>)
    ensures ParseSpecs(values, seen) == Ok(specs) <==> ReadAll(values, specs) && DistinctIds(specs) && Unseen(specs, seen)
  {
    if values != [] && specs != [] {
      ReadsIff(values[0], specs[0]);
      ParsedIff(values[1..], seen + {specs[0].id}, specs[1..]);
      TailIff(values, seen, specs);
      if specs[0].id !in seen && ParseSpec(values[0]) == Ok(specs[0]) {
        FirstParsed(values, seen, specs);
      }
    }
  }

  lemma FirstParsed(values: seq<string>, seen: set<string>, specs: seq<Spec>)
    requires values != [] && specs != [] && specs[0].id !in seen && ParseSpec(values[0]) == Ok(specs[0])
    ensures ParseSpecs(values, seen) == Ok(specs) <==> ParseSpecs(values[1..], seen + {specs[0].id}) == Ok(specs[1..])
  {
    var rest := ParseSpecs(values[1..], seen + {specs[0].id});
    assert specs == [specs[0]] + specs[1..];
    if rest.Ok? {
      assert ([specs[0]] + rest.value)[1..] == rest.value;
    }
  }

  lemma TailIff(values: seq<string>, seen: set<string>, specs: seq<Spec>)
    requires values != [] && specs != []
    ensures ReadAll(values, specs) <==> Reads(values[0], specs[0]) && ReadAll(values[1..], specs[1..])
    ensures
      DistinctIds(specs) && Unseen(specs, seen) <==>
      specs[0].id !in seen && DistinctIds(specs[1..]) && Unseen(specs[1..], seen + {specs[0].id})
  {
    if Reads(values[0], specs[0]) && ReadAll(values[1..], specs[1..]) {
      forall i | 0 <= i < |values| ensures Reads(values[i], specs[i]) {
        assert i > 0 ==> values[i] == values[1..][i - 1] && specs[i] == specs[1..][i - 1];
      }
    }
    if specs[0].id !in seen && DistinctIds(specs[1..]) && Unseen(specs[1..], seen + {specs[0].id}) {
      forall i, j | 0 <= i < j < |specs| ensures specs[i].id != specs[j].id {
        assert specs[j] == specs[1..][j - 1];
        assert i > 0 ==> specs[i] == specs[1..][i - 1];
      }
      forall i | 0 <= i < |specs| ensures specs[i].id !in seen {
        assert i > 0 ==> specs[i] == specs[1..][i - 1];
      }
    }
  }

  /** The contract the three flag lists spell; ids are distinct among criteria and among artifacts. */
  ghost predicate Spells(flags: Flags, c: Contract) {
    && ReadAll(flags.criteria, c.required) && ReadAll(flags.optional, c.optional) && ReadAll(flags.artifacts, c.artifacts)
    && DistinctIds(c.required) && DistinctIds(c.optional) && DistinctIds(c.artifacts)
    && (forall i, j :: 0 <= i < |c.required| && 0 <= j < |c.optional| ==> c.required[i].id != c.optional[j].id)
    && c.delivery == flags.delivery
  }

  lemma SpelledIff(flags: Flags, c: Contract)
    ensures ParseFlags(flags) == Ok(c) <==> Spells(flags, c)
  {
    ParsedIff(flags.criteria, {}, c.required);
    ParsedIff(flags.optional, Ids(c.required), c.optional);
    ParsedIff(flags.artifacts, {}, c.artifacts);
    assert Unseen(c.optional, Ids(c.required)) <==>
      forall i, j :: 0 <= i < |c.required| && 0 <= j < |c.optional| ==> c.required[i].id != c.optional[j].id;
  }

  /**
   Flags build a contract exactly if they spell one with something required, or say nothing at all; then it is the
   contract they spell.
  */
  lemma BuildsIff(flags: Flags)
    ensures forall c :: Spells(flags, c) ==>
      Build(flags) ==
        if c.required == [] && c.optional == [] && c.artifacts == [] then
          if c.delivery then Err(NothingToDeliver) else Ok(None)
        else if c.required == [] && c.artifacts == [] then Err(NothingRequired)
        else Ok(Some(ToJson(c)))
    ensures (forall c :: !Spells(flags, c)) ==> Build(flags).Err?
  {
    forall c | Spells(flags, c) ensures ParseFlags(flags) == Ok(c) {
      SpelledIff(flags, c);
    }
    if ParseFlags(flags).Ok? {
      SpelledIff(flags, ParseFlags(flags).value);
    }
  }

  // ----- the contract as JSON ---------------------------------------------------------------------

  predicate Says(item: Json, idField: string, spec: Spec) {
    Get(item, idField) == Some(Str(spec.id)) && Get(item, "description") == Some(Str(spec.description))
  }

  /** Required criteria and optional ones behind them, in the order of the flags. */
  lemma CriteriaSay(c: Contract)
    ensures
      var criteria := Get(ToJson(c), "acceptance_criteria");
      && criteria.Some? && criteria.value.Arr? && |criteria.value.items| == |c.required| + |c.optional|
      && (forall i :: 0 <= i < |c.required| ==> CriterionSays(criteria.value.items[i], c.required[i], true))
      && (forall i :: 0 <= i < |c.optional| ==>
            CriterionSays(criteria.value.items[|c.required| + i], c.optional[i], false))
  {
    FieldsOfContract(c);
    var criteria := CriteriaJson(c.required, true) + CriteriaJson(c.optional, false);
    forall i | 0 <= i < |c.required| ensures CriterionSays(criteria[i], c.required[i], true) {
      NamedMembers(c.required[i], true);
    }
    forall i | 0 <= i < |c.optional| ensures CriterionSays(criteria[|c.required| + i], c.optional[i], false) {
      NamedMembers(c.optional[i], false);
    }
  }

  lemma ArtifactsSay(c: Contract)
    ensures Get(ToJson(c), "delivery_required") == Some(Bool(c.delivery))
    ensures
      var artifacts := Get(ToJson(c), "required_artifacts");
      && artifacts.Some? && artifacts.value.Arr? && |artifacts.value.items| == |c.artifacts|
      && forall i :: 0 <= i < |c.artifacts| ==> Says(artifacts.value.items[i], "artifact_id", c.artifacts[i])
  {
    FieldsOfContract(c);
    forall i | 0 <= i < |c.artifacts| ensures Says(ArtifactsJson(c.artifacts)[i], "artifact_id", c.artifacts[i]) {
      NamedMembers(c.artifacts[i], true);
    }
  }

  predicate CriterionSays(item: Json, spec: Spec, required: bool) {
    Says(item, "criterion_id", spec) && Get(item, "required") == Some(Bool(required))
  }

  lemma NamedMembers(spec: Spec, required: bool)
    ensures CriterionSays(CriterionJson(spec, required), spec, required)
    ensures Says(ArtifactJson(spec), "artifact_id", spec)
  {
    var fields, parts := CriterionJson(spec, required).fields, ArtifactJson(spec).fields;
    assert fields[0].name[0] == 'c' && fields[1].name[0] == 'd' && fields[2].name[0] == 'r';
    assert Lookup(fields[1..][1..], "required") == Some(Bool(required));
    assert Lookup(fields[1..], "required") == Some(Bool(required));
    assert Lookup(fields[1..], "description") == Some(Str(spec.description));
    assert parts[0].name[0] == 'a' && Lookup(parts[1..], "description") == Some(Str(spec.description));
  }

  // ----- an editor's entry ------------------------------------------------------------------------

  /** An entry has a text under each of the two names; it is required unless it says that it is not. */
  predicate Stands(value: Json, idField: string, entry: Entry) {
    && Get(value, idField) == Some(Str(entry.id)) && Get(value, "description") == Some(Str(entry.description))
    && Get(value, "required") in {None, Some(Bool(true)), Some(Bool(false))}
    && (entry.required <==> Get(value, "required") != Some(Bool(false)))
  }

  lemma EntryIff(value: Json, idField: string)
    ensures forall entry :: ReadEntry(value, idField) == Ok(entry) <==> Stands(value, idField, entry)
    ensures ReadEntry(value, idField).Err? ==> ReadEntry(value, idField).error == BadEntry
  {
  }
}
