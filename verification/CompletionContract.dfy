/**
 Completion contracts: the command line's ID=DESCRIPTION flags become a JSON
 contract, and an editor's JSON contract becomes those flags.
*/
module CompletionContract {
  import opened Wrappers
  import opened Text
  import opened Json

  // ----- flags to contract ---------------------------------------------------------------

  datatype Spec = Spec(id: string, description: string)

  datatype ContractError =
    | NotIdEqualsDescription | BadLength | DuplicateId(id: string) | NothingToDeliver | NothingRequired
    | NotAnObject | NotAnArray | BadEntry | OptionalArtifact | BadDeliveryFlag | UnknownFlag

  predicate WellSized(spec: Spec) {
    && spec.id != "" && Utf8Len(spec.id) <= 128
    && spec.description != "" && Utf8Len(spec.description) <= 2_000
  }

  function ParseSpec(value: string): Result<Spec, ContractError> {
    match SplitOnce(value, '=')
    case None => Err(NotIdEqualsDescription)
    case Some((id, description)) =>
      var spec := Spec(Trim(id), Trim(description));
      if WellSized(spec) then Ok(spec) else Err(BadLength)
  }

  /** Results collected behind a list already collected; the first error wins. */
  function Behind<T>(done: seq<T>, rest: Result<seq<T>, ContractError>): Result<seq<T>, ContractError> {
    if rest.Ok? then Ok(done + rest.value) else rest
  }

  lemma BehindBehind<T>(done: seq<T>, more: seq<T>, rest: Result<seq<T>, ContractError>)
    ensures Behind(done, Behind(more, rest)) == Behind(done + more, rest)
  {
    if rest.Ok? {
      assert done + (more + rest.value) == done + more + rest.value;
    }
  }

  lemma BehindNothing<T>(done: seq<T>, rest: Result<seq<T>, ContractError>)
    ensures Behind([], rest) == rest && Behind(done, Ok([])) == Ok(done)
  {
    assert done + [] == done;
    if rest.Ok? {
      assert [] + rest.value == rest.value;
    }
  }

  function ParseSpecs(values: seq<string>, seen: set<string>): Result<seq<Spec>, ContractError> {
    if values == [] then Ok([])
    else
      match ParseSpec(values[0])
      case Err(error) => Err(error)
      case Ok(spec) =>
        if spec.id in seen then Err(DuplicateId(spec.id))
        else
          Behind([spec], ParseSpecs(values[1..], seen + {spec.id}))
  }

  function Ids(specs: seq<Spec>): set<string> {
    set i | 0 <= i < |specs| :: specs[i].id
  }

  datatype Contract = Contract(required: seq<Spec>, optional: seq<Spec>, artifacts: seq<Spec>, delivery: bool)

  function CriterionJson(spec: Spec, required: bool): Json {
    Obj([Field("criterion_id", Str(spec.id)), Field("description", Str(spec.description)), Field("required", Bool(required))])
  }

  function ArtifactJson(spec: Spec): Json {
    Obj([Field("artifact_id", Str(spec.id)), Field("description", Str(spec.description))])
  }

  function CriteriaJson(specs: seq<Spec>, required: bool): seq<Json> {
    seq(|specs|, i requires 0 <= i < |specs| => CriterionJson(specs[i], required))
  }

  function ArtifactsJson(specs: seq<Spec>): seq<Json> {
    seq(|specs|, i requires 0 <= i < |specs| => ArtifactJson(specs[i]))
  }

  function ToJson(c: Contract): Json {
    Obj([Field("acceptance_criteria", Arr(CriteriaJson(c.required, true) + CriteriaJson(c.optional, false))),
         Field("delivery_required", Bool(c.delivery)),
         Field("required_artifacts", Arr(ArtifactsJson(c.artifacts)))])
  }

  /** The three flag lists and the delivery switch, as the command line groups them. */
  datatype Flags = Flags(criteria: seq<string>, optional: seq<string>, artifacts: seq<string>, delivery: bool)

  function ParseFlags(flags: Flags): Result<Contract, ContractError> {
    match ParseSpecs(flags.criteria, {})
    case Err(error) => Err(error)
    case Ok(required) =>
      match ParseSpecs(flags.optional, Ids(required))
      case Err(error) => Err(error)
      case Ok(optional) =>
        match ParseSpecs(flags.artifacts, {})
        case Err(error) => Err(error)
        case Ok(artifacts) => Ok(Contract(required, optional, artifacts, flags.delivery))
  }

  function Build(flags: Flags): Result<Option<Json>, ContractError> {
    match ParseFlags(flags)
    case Err(error) => Err(error)
    case Ok(c) =>
      if c.required == [] && c.optional == [] && c.artifacts == [] then
        if c.delivery then Err(NothingToDeliver) else Ok(None)
      else if c.required == [] && c.artifacts == [] then Err(NothingRequired)
      else Ok(Some(ToJson(c)))
  }

  // ----- contract to flags ------------------------------------------------------------------

  datatype Entry = Entry(id: string, description: string, required: bool)

  function ReadEntry(value: Json, idField: string): Result<Entry, ContractError> {
    var id, description, required := AsStr(Get(value, idField)), AsStr(Get(value, "description")), Get(value, "required");
    if !value.Obj? || id.None? || description.None? then Err(BadEntry)
    else if required.None? then Ok(Entry(id.value, description.value, true))
    else if required.value.Bool? then Ok(Entry(id.value, description.value, required.value.b))
    else Err(BadEntry)
  }

  const CRITERION_FLAG := "--acceptance-criterion"
  const OPTIONAL_FLAG := "--optional-acceptance-criterion"
  const ARTIFACT_FLAG := "--required-artifact"
  const DELIVERY_FLAG := "--delivery-required"

  function EntryArgs(entry: Entry, flag: string, optionalFlag: Option<string>): Result<seq<string>, ContractError> {
    if !entry.required && optionalFlag.None? then Err(OptionalArtifact)
    else
      Ok([if entry.required then flag else optionalFlag.value, entry.id + "=" + entry.description])
  }

  function ValuesArgs(values: seq<Json>, idField: string, flag: string, optionalFlag: Option<string>)
    : Result<seq<string>, ContractError>
  {
    if values == [] then Ok([])
    else
      match ReadEntry(values[0], idField)
      case Err(error) => Err(error)
      case Ok(entry) =>
        match EntryArgs(entry, flag, optionalFlag)
        case Err(error) => Err(error)
        case Ok(first) =>
          Behind(first, ValuesArgs(values[1..], idField, flag, optionalFlag))
  }

  /** A missing field counts as an empty list. */
  function FieldArgs(contract: Json, field: string, idField: string, flag: string, optionalFlag: Option<string>)
    : Result<seq<string>, ContractError>
  {
    match Get(contract, field)
    case None => Ok([])
    case Some(values) => if values.Arr? then ValuesArgs(values.items, idField, flag, optionalFlag) else Err(NotAnArray)
  }

  function EditorArgs(contract: Json): Result<seq<string>, ContractError> {
    if !contract.Obj? then Err(NotAnObject)
    else
      match FieldArgs(contract, "acceptance_criteria", "criterion_id", CRITERION_FLAG, Some(OPTIONAL_FLAG))
      case Err(error) => Err(error)
      case Ok(criteria) =>
        match FieldArgs(contract, "required_artifacts", "artifact_id", ARTIFACT_FLAG, None)
        case Err(error) => Err(error)
        case Ok(artifacts) =>
          match Get(contract, "delivery_required")
          case None => Ok(criteria + artifacts)
          case Some(delivery) =>
            if !delivery.Bool? then Err(BadDeliveryFlag)
            else if delivery.b then Ok(criteria + artifacts + [DELIVERY_FLAG])
            else Ok(criteria + artifacts)
  }

  /** The command line's reading of those arguments: each flag appends its value to its list. */
  function Regroup(args: seq<string>): Result<Flags, ContractError> {
    if args == [] then Ok(Flags([], [], [], false))
    else if args[0] == DELIVERY_FLAG then
      match Regroup(args[1..])
      case Err(error) => Err(error)
      case Ok(rest) => Ok(rest.(delivery := true))
    else if |args| == 1 then Err(UnknownFlag)
    else
      match Regroup(args[2..])
      case Err(error) => Err(error)
      case Ok(rest) =>
        if args[0] == CRITERION_FLAG then Ok(rest.(criteria := [args[1]] + rest.criteria))
        else if args[0] == OPTIONAL_FLAG then Ok(rest.(optional := [args[1]] + rest.optional))
        else if args[0] == ARTIFACT_FLAG then Ok(rest.(artifacts := [args[1]] + rest.artifacts))
        else Err(UnknownFlag)
  }

  /** The whole way of an editor's contract: to arguments, to flag lists, to a contract. */
  function Translate(contract: Json): Result<Option<Json>, ContractError> {
    match EditorArgs(contract)
    case Err(error) => Err(error)
    case Ok(args) =>
      match Regroup(args)
      case Err(error) => Err(error)
      case Ok(flags) => Build(flags)
  }

  // ----- as the code runs it --------------------------------------------------------------------

  method EditorContractCliArgs(contract: Json) returns (r: Result<seq<string>, ContractError>)
    ensures r == EditorArgs(contract)
  {
    if !contract.Obj? {
      return Err(NotAnObject);
    }
    var criteria := PushField([], contract, "acceptance_criteria", "criterion_id", CRITERION_FLAG, Some(OPTIONAL_FLAG));
    BehindNothing(
      [], FieldArgs(contract, "acceptance_criteria", "criterion_id", CRITERION_FLAG, Some(OPTIONAL_FLAG)));
    if criteria.Err? {
      return criteria;
    }
    var both := PushField(criteria.value, contract, "required_artifacts", "artifact_id", ARTIFACT_FLAG, None);
    if both.Err? {
      return both;
    }
    var args := both.value;
    var delivery := Get(contract, "delivery_required");
    if delivery.Some? {
      if !delivery.value.Bool? {
        return Err(BadDeliveryFlag);
      }
      if delivery.value.b {
        args := args + [DELIVERY_FLAG];
      }
    }
    r := Ok(args);
  }

  /** One pass of the loop over the two contract fields. */
  method PushField(before: seq<string>, contract: Json, field: string, idField: string,
                   flag: string, optionalFlag: Option<string>)
    returns (r: Result<seq<string>, ContractError>)
    ensures r == Behind(before, FieldArgs(contract, field, idField, flag, optionalFlag))
  {
    BehindNothing(before, Ok([]));
    var found := Get(contract, field);
    if found.None? {
      return Ok(before);
    }
    if !found.value.Arr? {
      return Err(NotAnArray);
    }
    var args, left := before, found.value.items;
    while left != []
      invariant Behind(before, ValuesArgs(found.value.items, idField, flag, optionalFlag))
             == Behind(args, ValuesArgs(left, idField, flag, optionalFlag))
      decreases |left|
    {
      var entry := ReadEntry(left[0], idField);
      if entry.Err? {
        return Err(entry.error);
      }
      if !entry.value.required && optionalFlag.None? {
        return Err(OptionalArtifact);
      }
      var selected := if entry.value.required then flag else optionalFlag.value;
      var value := entry.value.id + "=" + entry.value.description;
      BehindBehind(args, [selected, value], ValuesArgs(left[1..], idField, flag, optionalFlag));
      args := args + [selected, value];
      left := left[1..];
    }
    BehindNothing(args, Ok([]));
    r := Ok(args);
  }

  /** Parses one flag list, adding its ids to those seen before it. */
  method CollectSpecs(values: seq<string>, seen: set<string>)
    returns (r: Result<seq<Spec>, ContractError>, seen': set<string>)
    ensures r == ParseSpecs(values, seen)
    ensures r.Ok? ==> seen' == seen + Ids(r.value)
  {
    var specs, left := [], values;
    seen' := seen;
    BehindNothing(specs, ParseSpecs(values, seen));
    while left != []
      invariant seen' == seen + Ids(specs)
      invariant ParseSpecs(values, seen) == Behind(specs, ParseSpecs(left, seen'))
      decreases |left|
    {
      var spec := ParseSpec(left[0]);
      if spec.Err? {
        return Err(spec.error), seen';
      }
      if spec.value.id in seen' {
        return Err(DuplicateId(spec.value.id)), seen';
      }
      IdsAppend(specs, spec.value);
      BehindBehind(specs, [spec.value], ParseSpecs(left[1..], seen' + {spec.value.id}));
      seen' := seen' + {spec.value.id};
      specs := specs + [spec.value];
      left := left[1..];
    }
    BehindNothing(specs, ParseSpecs(left, seen'));
    r := Ok(specs);
  }

  lemma IdsAppend(specs: seq<Spec>, spec: Spec)
    ensures Ids(specs + [spec]) == Ids(specs) + {spec.id}
  {
    var all := specs + [spec];
    assert forall i :: 0 <= i < |specs| ==> all[i] == specs[i];
    assert all[|specs|] == spec;
  }

  method BuildCompletionContract(flags: Flags) returns (r: Result<Option<Json>, ContractError>)
    ensures r == Build(flags)
  {
    var required, seen := CollectSpecs(flags.criteria, {});
    if required.Err? {
      return Err(required.error);
    }
    assert {} + Ids(required.value) == Ids(required.value);
    var optional, _ := CollectSpecs(flags.optional, seen);
    if optional.Err? {
      return Err(optional.error);
    }
    var artifacts, _ := CollectSpecs(flags.artifacts, {});
    if artifacts.Err? {
      return Err(artifacts.error);
    }
    if required.value == [] && optional.value == [] && artifacts.value == [] {
      if flags.delivery {
        return Err(NothingToDeliver);
      }
      return Ok(None);
    }
    if artifacts.value == [] && required.value == [] {
      return Err(NothingRequired);
    }
    r := Ok(Some(ToJson(Contract(required.value, optional.value, artifacts.value, flags.delivery))));
  }
}
