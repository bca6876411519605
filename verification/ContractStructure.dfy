/** Structural validation of a feature contract: canonical vocabulary, coherent shapes, unique
    ids, and one normalization owner per key. */
module ContractStructure {
  import opened Outcomes
  import opened FeatureContracts
  import opened ContractCompatibility

  const OBSERVATION_STAGES: set<string> := {
    "environment_raw.v1", "lerobot_preprocess_observation_output.v1", "lerobot_env_preprocessor_output.v1",
    "lerobot_policy_preprocessor_output.v1", "coreai_runner_input.v1"}

  const ACTION_STAGES: set<string> := {
    "coreai_runner_output.v1", "coreai_assembled_action_chunk.v1", "coreai_validated_action_chunk.v1",
    "coreai_queue_committed_chunk.v1", "lerobot_selected_policy_action.v1", "lerobot_policy_postprocessor_output.v1",
    "environment_action.v1"}

  const MODALITIES: set<string> := {"vector", "image", "video", "depth", "text", "scalar"}
  const SHAPE_SYMBOLS: set<string> := {"B", "T", "H", "A", "C", "IH", "IW", "S"}
  const NORMALIZATION_STATES: set<string> := {"none", "raw", "normalized", "unknown"}
  const NORMALIZATION_OWNERS: set<string> := {
    "environment", "preprocess_observation", "env_preprocessor", "policy_preprocessor", "coreai_transport", "coreai_model",
    "policy_postprocessor", "env_postprocessor"}

  datatype StructureError =
    | DuplicateId(id: string)
    | UnknownRole(id: string) | UnknownModality(id: string) | NonCanonicalStage(id: string)
    | BadDimension(id: string) | RankMismatch(id: string) | HorizonNotAllowed(id: string)
    | NamesMismatch(id: string)
    | BadState(id: string) | BadOwner(id: string) | NormalizedWithoutOwner(id: string)
    | TwoOwners(key: string)

  // ---------------------------------------------------------------- the declarative rules

  function StagesOf(role: string): set<string> {
    if role == "action" then ACTION_STAGES else OBSERVATION_STAGES
  }

  predicate VocabularyOk(s: FeatureSpec) {
    && s.role in {"observation", "action", "context"} && s.modality in MODALITIES
    && ((s.role == "action" && s.stage in ACTION_STAGES) || (s.role != "action" && s.stage in OBSERVATION_STAGES))
  }

  predicate DimOk(d: Dim) {
    match d
    case Fixed(n) => n >= 0
    case Symbol(name) => name in SHAPE_SYMBOLS
  }

  predicate ShapeOk(s: FeatureSpec) {
    && (forall i :: 0 <= i < |s.shape| ==> DimOk(s.shape[i]))
    && |s.axes| == |s.shape|
    && (Symbol("H") in s.shape ==> s.stage != "lerobot_selected_policy_action.v1" && s.stage != "environment_action.v1")
  }

  /** The component dimension: the last one that is a number. */
  function ComponentDim(shape: seq<Dim>): Option<int> {
    if shape == [] then None
    else if shape[|shape| - 1].Fixed? then Some(shape[|shape| - 1].size)
    else ComponentDim(shape[..|shape| - 1])
  }

  /** The number in place `i` is the last one of the shape. */
  ghost predicate IsLastNumber(shape: seq<Dim>, i: int) {
    0 <= i < |shape| && shape[i].Fixed? && forall j :: i < j < |shape| ==> shape[j].Symbol?
  }

  lemma {:induction false} ComponentDimMeaning(shape: seq<Dim>)
    ensures ComponentDim(shape).None? <==> forall i :: 0 <= i < |shape| ==> shape[i].Symbol?
    ensures forall i :: IsLastNumber(shape, i) ==> ComponentDim(shape) == Some(shape[i].size)
  {
    if shape == [] {
    } else {
      var init := shape[..|shape| - 1];
      ComponentDimMeaning(init);
      assert forall i :: 0 <= i < |init| ==> init[i] == shape[i];
      forall i | IsLastNumber(shape, i)
        ensures ComponentDim(shape) == Some(shape[i].size)
      {
        assert i < |init| ==> IsLastNumber(init, i);
      }
    }
  }

  /** Names and shape agree exactly when the last number of the shape, if it has one, counts the names. */
  lemma NamesOkMeaning(s: FeatureSpec)
    ensures NamesOk(s) <==>
            (s.names.Some? ==> forall i :: IsLastNumber(s.shape, i) ==> |s.names.value| == s.shape[i].size)
  {
    ComponentDimMeaning(s.shape);
    LastNumberExists(s.shape);
  }

  lemma {:induction false} LastNumberExists(shape: seq<Dim>)
    ensures (exists i :: IsLastNumber(shape, i)) <==> exists i :: 0 <= i < |shape| && shape[i].Fixed?
  {
    if i :| 0 <= i < |shape| && shape[i].Fixed? {
      var k := |shape| - 1;
      if shape[k].Fixed? {
        assert IsLastNumber(shape, k);
      } else {
        var init := shape[..k];
        assert init[i] == shape[i];
        LastNumberExists(init);
        var j :| IsLastNumber(init, j);
        assert IsLastNumber(shape, j);
      }
    }
  }

  predicate NamesOk(s: FeatureSpec) {
    s.names.Some? && ComponentDim(s.shape).Some? ==> |s.names.value| == ComponentDim(s.shape).value
  }

  predicate IsNormalized(s: FeatureSpec) {
    s.normalization.state == "normalized"
  }

  predicate NormalizationOk(s: FeatureSpec) {
    && s.normalization.state in NORMALIZATION_STATES
    && (s.normalization.owner.Some? ==> s.normalization.owner.value in NORMALIZATION_OWNERS)
    && (IsNormalized(s) ==> s.normalization.owner.Some?)
  }

  predicate FeatureOk(s: FeatureSpec) {
    VocabularyOk(s) && ShapeOk(s) && NamesOk(s) && NormalizationOk(s)
  }

  predicate OwnersAgree(s: FeatureSpec, t: FeatureSpec) {
    s.key == t.key && IsNormalized(s) && IsNormalized(t) && s.normalization.owner.Some? && t.normalization.owner.Some? ==>
      s.normalization.owner == t.normalization.owner
  }

  ghost predicate UniqueIds(specs: seq<FeatureSpec>) {
    forall i, j :: 0 <= i < j < |specs| ==> specs[i].featureId != specs[j].featureId
  }

  /** No two features normalize one key under different owners. */
  ghost predicate SingleOwners(specs: seq<FeatureSpec>) {
    forall i, j :: 0 <= i < j < |specs| ==> OwnersAgree(specs[i], specs[j])
  }

  ghost predicate StructureOk(specs: seq<FeatureSpec>) {
    (forall i :: 0 <= i < |specs| ==> FeatureOk(specs[i])) && UniqueIds(specs) && SingleOwners(specs)
  }

  // ---------------------------------------------------------------- the single pass

  /** What an error about one feature alone says. */
  predicate Breaks(s: FeatureSpec, e: StructureError) {
    && !e.TwoOwners? && e.id == s.featureId
    && match e
       case UnknownRole(_) => s.role !in {"observation", "action", "context"}
       case UnknownModality(_) => s.modality !in MODALITIES
       case NonCanonicalStage(_) =>
         (s.role == "action" && s.stage !in ACTION_STAGES) || (s.role != "action" && s.stage !in OBSERVATION_STAGES)
       case BadDimension(_) =>
         exists i :: 0 <= i < |s.shape| && if s.shape[i].Fixed? then s.shape[i].size < 0 else s.shape[i].name !in SHAPE_SYMBOLS
       case RankMismatch(_) => |s.axes| != |s.shape|
       case HorizonNotAllowed(_) =>
         Symbol("H") in s.shape && (s.stage == "lerobot_selected_policy_action.v1" || s.stage == "environment_action.v1")
       case NamesMismatch(_) => !NamesOk(s)
       case BadState(_) => s.normalization.state !in NORMALIZATION_STATES
       case BadOwner(_) => s.normalization.owner.Some? && s.normalization.owner.value !in NORMALIZATION_OWNERS
       case NormalizedWithoutOwner(_) => s.normalization.state == "normalized" && s.normalization.owner.None?
       case _ => false
  }

  /** A feature is sound exactly when no such error can be said of it. */
  lemma SoundIffUnbroken(s: FeatureSpec)
    ensures FeatureOk(s) <==> forall e :: !Breaks(s, e)
  {
    var id := s.featureId;
    if forall e :: !Breaks(s, e) {
      assert !Breaks(s, UnknownRole(id)) && !Breaks(s, UnknownModality(id)) && !Breaks(s, NonCanonicalStage(id));
      assert !Breaks(s, BadDimension(id)) && !Breaks(s, RankMismatch(id)) && !Breaks(s, HorizonNotAllowed(id));
      assert !Breaks(s, NamesMismatch(id)) && !Breaks(s, BadState(id)) && !Breaks(s, BadOwner(id));
      assert !Breaks(s, NormalizedWithoutOwner(id));
    }
  }

  method CheckShape(s: FeatureSpec) returns (errs: seq<StructureError>)
    ensures forall e :: e in errs <==> (e.BadDimension? || e.RankMismatch? || e.HorizonNotAllowed?) && Breaks(s, e)
  {
    errs := [];
    var id := s.featureId;
    for i := 0 to |s.shape|
      invariant forall e :: e in errs <==> e == BadDimension(id) && exists j :: 0 <= j < i && !DimOk(s.shape[j])
    {
      if !DimOk(s.shape[i]) {
        errs := errs + [BadDimension(id)];
      }
    }
    if |s.axes| != |s.shape| {
      errs := errs + [RankMismatch(id)];
    }
    if Symbol("H") in s.shape && (s.stage == "lerobot_selected_policy_action.v1" || s.stage == "environment_action.v1") {
      errs := errs + [HorizonNotAllowed(id)];
    }
  }

  method CheckNormalization(s: FeatureSpec) returns (errs: seq<StructureError>)
    ensures forall e :: e in errs <==> (e.BadState? || e.BadOwner? || e.NormalizedWithoutOwner?) && Breaks(s, e)
  {
    errs := [];
    var id := s.featureId;
    if s.normalization.state !in NORMALIZATION_STATES {
      errs := errs + [BadState(id)];
    }
    if s.normalization.owner.Some? && s.normalization.owner.value !in NORMALIZATION_OWNERS {
      errs := errs + [BadOwner(id)];
    }
    if IsNormalized(s) && s.normalization.owner.None? {
      errs := errs + [NormalizedWithoutOwner(id)];
    }
  }

  method CheckVocabulary(s: FeatureSpec) returns (errs: seq<StructureError>)
    ensures forall e :: e in errs <==> (e.UnknownRole? || e.UnknownModality? || e.NonCanonicalStage?) && Breaks(s, e)
  {
    errs := [];
    var id := s.featureId;
    if s.role !in {"observation", "action", "context"} {
      errs := errs + [UnknownRole(id)];
    }
    if s.modality !in MODALITIES {
      errs := errs + [UnknownModality(id)];
    }
    if s.stage !in StagesOf(s.role) {
      errs := errs + [NonCanonicalStage(id)];
    }
  }

  /** The checks that look at one feature alone find exactly what can be said of it. */
  method CheckFeature(s: FeatureSpec) returns (errs: seq<StructureError>)
    ensures forall e :: e in errs <==> Breaks(s, e)
  {
    var vocabulary := CheckVocabulary(s);
    var shape := CheckShape(s);
    var names := if NamesOk(s) then [] else [NamesMismatch(s.featureId)];
    var normalization := CheckNormalization(s);
    errs := vocabulary + shape + names + normalization;
  }

  /** What an error about a feature says, given the ids and owners met so far. */
  predicate BreaksAgainst(s: FeatureSpec, seen: set<string>, owners: map<string, string>, e: StructureError) {
    match e
    case DuplicateId(id) => id == s.featureId && id in seen
    case TwoOwners(key) =>
      && key == s.key && IsNormalized(s) && s.normalization.owner.Some?
      && s.key in owners && owners[s.key] != s.normalization.owner.value
    case _ => Breaks(s, e)
  }

  /** The checks against the ids and owners met so far. */
  method CheckAgainst(s: FeatureSpec, seen: set<string>, owners: map<string, string>) returns (errs: seq<StructureError>)
    ensures errs == [] <==> FeatureOk(s) && FreshAndAgreeing(s, seen, owners)
    ensures forall e :: e in errs <==> BreaksAgainst(s, seen, owners, e)
  {
    errs := CheckFeature(s);
    SoundIffUnbroken(s);
    assert errs != [] ==> errs[0] in errs;
    if s.featureId in seen {
      errs := [DuplicateId(s.featureId)] + errs;
    }
    if IsNormalized(s) && s.normalization.owner.Some? && s.key in owners && owners[s.key] != s.normalization.owner.value {
      errs := errs + [TwoOwners(s.key)];
    }
  }

  /** The owner recorded for a key after a prefix: the last normalizing feature's. */
  function OwnerOf(specs: seq<FeatureSpec>, key: string): Option<string> {
    if specs == [] then None
    else
      var last := specs[|specs| - 1];
      if last.key == key && IsNormalized(last) && last.normalization.owner.Some? then last.normalization.owner
      else OwnerOf(specs[..|specs| - 1], key)
  }

  lemma {:induction false} OwnerOfMeaning(specs: seq<FeatureSpec>, key: string)
    requires SingleOwners(specs)
    ensures forall i :: 0 <= i < |specs| && specs[i].key == key && IsNormalized(specs[i]) && specs[i].normalization.owner.Some? ==>
              OwnerOf(specs, key) == specs[i].normalization.owner
    ensures OwnerOf(specs, key).Some? ==>
              exists i :: 0 <= i < |specs| && specs[i].key == key && IsNormalized(specs[i]) && specs[i].normalization.owner == OwnerOf(specs, key)
  {
    if specs == [] {
    } else {
      var init := specs[..|specs| - 1];
      assert forall i :: 0 <= i < |init| ==> init[i] == specs[i];
      OwnerOfMeaning(init, key);
      assert forall i :: 0 <= i < |init| ==> OwnersAgree(specs[i], specs[|specs| - 1]);
    }
  }

  predicate OwnerFits(specs: seq<FeatureSpec>, s: FeatureSpec) {
    IsNormalized(s) && s.normalization.owner.Some? && OwnerOf(specs, s.key).Some? ==> OwnerOf(specs, s.key) == s.normalization.owner
  }

  lemma OwnersExtend(specs: seq<FeatureSpec>, s: FeatureSpec)
    ensures SingleOwners(specs + [s]) <==> SingleOwners(specs) && OwnerFits(specs, s)
  {
    var all := specs + [s];
    assert forall i :: 0 <= i < |specs| ==> all[i] == specs[i];
    if SingleOwners(specs) {
      OwnerOfMeaning(specs, s.key);
    }
    if SingleOwners(all) {
      assert SingleOwners(specs);
      assert forall i :: 0 <= i < |specs| ==> OwnersAgree(all[i], all[|specs|]);
    }
  }

  lemma StructureExtend(specs: seq<FeatureSpec>, s: FeatureSpec)
    ensures StructureOk(specs + [s]) <==>
            StructureOk(specs) && FeatureOk(s) && OwnerFits(specs, s) && forall i :: 0 <= i < |specs| ==> specs[i].featureId != s.featureId
  {
    OwnersExtend(specs, s);
    var all := specs + [s];
    assert forall i :: 0 <= i < |specs| ==> all[i] == specs[i];
    assert all[|specs|] == s;
    assert (forall i :: 0 <= i < |all| ==> FeatureOk(all[i])) <==> (forall i :: 0 <= i < |specs| ==> FeatureOk(specs[i])) && FeatureOk(s);
    assert UniqueIds(all) <==> UniqueIds(specs) && forall i :: 0 <= i < |specs| ==> specs[i].featureId != s.featureId by {
      if UniqueIds(all) {
        assert forall i :: 0 <= i < |specs| ==> all[i].featureId != all[|specs|].featureId;
      }
    }
  }

  function LookupOwner(owners: map<string, string>, key: string): Option<string> {
    if key in owners then Some(owners[key]) else None
  }

  /** What the set of ids and the dictionary of owners hold after a prefix. */
  ghost predicate Tracks(seen: set<string>, owners: map<string, string>, specs: seq<FeatureSpec>) {
    && (forall i :: 0 <= i < |specs| ==> specs[i].featureId in seen)
    && (forall id :: id in seen ==> exists i :: 0 <= i < |specs| && specs[i].featureId == id)
    && (forall k :: LookupOwner(owners, k) == OwnerOf(specs, k))
  }

  function Recorded(owners: map<string, string>, s: FeatureSpec): map<string, string> {
    if IsNormalized(s) && s.normalization.owner.Some? then owners[s.key := s.normalization.owner.value] else owners
  }

  predicate FreshAndAgreeing(s: FeatureSpec, seen: set<string>, owners: map<string, string>) {
    && s.featureId !in seen
    && (IsNormalized(s) && s.normalization.owner.Some? && s.key in owners ==> owners[s.key] == s.normalization.owner.value)
  }

  lemma TracksExtend(seen: set<string>, owners: map<string, string>, specs: seq<FeatureSpec>, s: FeatureSpec)
    requires Tracks(seen, owners, specs)
    ensures Tracks(seen + {s.featureId}, Recorded(owners, s), specs + [s])
  {
    var all := specs + [s];
    assert all[..|specs|] == specs && all[|specs|] == s;
    forall id | id in seen + {s.featureId}
      ensures exists i :: 0 <= i < |all| && all[i].featureId == id
    {
      if id in seen {
        var i :| 0 <= i < |specs| && specs[i].featureId == id;
        assert all[i].featureId == id;
      } else {
        assert all[|specs|].featureId == id;
      }
    }
    forall k
      ensures LookupOwner(Recorded(owners, s), k) == OwnerOf(all, k)
    {
      assert LookupOwner(owners, k) == OwnerOf(specs, k);
    }
  }

  lemma StepMeaning(seen: set<string>, owners: map<string, string>, specs: seq<FeatureSpec>, s: FeatureSpec)
    requires Tracks(seen, owners, specs)
    ensures StructureOk(specs + [s]) <==> StructureOk(specs) && FeatureOk(s) && FreshAndAgreeing(s, seen, owners)
  {
    StructureExtend(specs, s);
    assert LookupOwner(owners, s.key) == OwnerOf(specs, s.key);
  }

  /** What an error about a list of features says. */
  ghost predicate IsStructureError(specs: seq<FeatureSpec>, e: StructureError) {
    match e
    case DuplicateId(id) => exists i, j :: 0 <= i < j < |specs| && specs[i].featureId == specs[j].featureId == id
    case TwoOwners(key) => exists j :: 0 <= j < |specs| && specs[j].key == key && !OwnerFits(specs[..j], specs[j])
    case _ => exists j :: 0 <= j < |specs| && Breaks(specs[j], e)
  }

  /** One more feature adds exactly the errors found against the ids and owners before it. */
  lemma ErrorsExtend(seen: set<string>, owners: map<string, string>, specs: seq<FeatureSpec>, s: FeatureSpec, e: StructureError)
    requires Tracks(seen, owners, specs)
    ensures IsStructureError(specs + [s], e) <==> IsStructureError(specs, e) || BreaksAgainst(s, seen, owners, e)
  {
    var all := specs + [s];
    assert forall j :: 0 <= j < |specs| ==> all[j] == specs[j] && all[..j] == specs[..j];
    assert all[|specs|] == s && all[..|specs|] == specs;
    assert LookupOwner(owners, s.key) == OwnerOf(specs, s.key);
    if e.DuplicateId? {
      DuplicatesExtend(specs, s, e.id);
    } else if IsStructureError(specs, e) {
      assert IsStructureError(all, e);
    }
  }

  lemma DuplicatesExtend(specs: seq<FeatureSpec>, s: FeatureSpec, id: string)
    ensures IsStructureError(specs + [s], DuplicateId(id)) <==>
            || IsStructureError(specs, DuplicateId(id))
            || (id == s.featureId && exists i :: 0 <= i < |specs| && specs[i].featureId == id)
  {
    var all := specs + [s];
    assert forall j :: 0 <= j < |specs| ==> all[j] == specs[j];
    assert all[|specs|] == s;
    if i :| 0 <= i < |specs| && specs[i].featureId == id == s.featureId {
      assert all[i].featureId == all[|specs|].featureId == id;
    }
    if IsStructureError(specs, DuplicateId(id)) {
      var i, j :| 0 <= i < j < |specs| && specs[i].featureId == specs[j].featureId == id;
      assert all[i].featureId == all[j].featureId == id;
    }
  }

  /** `validate_contract_structure`: one pass with a set of ids and a dictionary of owners finds
      no error exactly when every feature is sound, ids are unique and owners agree pairwise. */
  method ValidateStructure(contract: FeatureContract) returns (errs: seq<StructureError>)
    ensures errs == [] <==> StructureOk(contract.AllSpecs())
    ensures forall e :: e in errs <==> IsStructureError(contract.AllSpecs(), e)
  {
    errs := [];
    var specs := contract.AllSpecs();
    var seen: set<string> := {};
    var owners: map<string, string> := map[];
    for i := 0 to |specs|
      invariant errs == [] <==> StructureOk(specs[..i])
      invariant forall e :: e in errs <==> IsStructureError(specs[..i], e)
      invariant Tracks(seen, owners, specs[..i])
    {
      var s := specs[i];
      assert specs[..i + 1] == specs[..i] + [s];
      StepMeaning(seen, owners, specs[..i], s);
      TracksExtend(seen, owners, specs[..i], s);
      var found := CheckAgainst(s, seen, owners);
      forall e
        ensures e in errs + found <==> IsStructureError(specs[..i + 1], e)
      {
        ErrorsExtend(seen, owners, specs[..i], s, e);
      }
      errs := errs + found;
      seen := seen + {s.featureId};
      owners := Recorded(owners, s);
    }
    assert specs[..|specs|] == specs;
  }

  // ---------------------------------------------------------------- link to compatibility

  lemma ObservationStagesHaveNoAt(stage: string)
    requires stage in OBSERVATION_STAGES
    ensures '@' !in stage
  {
  }

  lemma ActionStagesHaveNoAt(stage: string)
    requires stage in ACTION_STAGES
    ensures '@' !in stage
  {
  }

  /** A structurally valid contract whose ids follow `role:key@stage` is disciplined: the
      hypotheses of the compatibility theorem are what this validator checks. */
  lemma ValidatedContractsAreDisciplined(contract: FeatureContract)
    requires StructureOk(contract.AllSpecs())
    requires forall s :: s in contract.AllSpecs() ==> s.featureId == MakeFeatureId(s.role, s.key, s.stage)
    ensures Disciplined(contract)
  {
    forall s | s in contract.AllSpecs()
      ensures Canonical(s)
    {
      assert FeatureOk(s);
      if s.role == "action" {
        ActionStagesHaveNoAt(s.stage);
      } else {
        ObservationStagesHaveNoAt(s.stage);
      }
    }
  }
}
