/** The stage-bound feature contract: its entities and the identity of a feature. */
module FeatureContracts {
  import opened Outcomes

  /** A declared dimension: a number or a symbol such as `B` or `IH`. */
  datatype Dim = Fixed(size: int) | Symbol(name: string)

  datatype ValueDomain = ValueDomain(finite: bool, minimum: Option<real>, maximum: Option<real>)

  datatype Normalization =
    Normalization(state: string, method_: Option<string>, owner: Option<string>, statsRef: Option<string>)

  datatype Units = NoUnits | Unit(name: string) | UnitPerComponent(names: seq<string>)

  datatype FeatureSpec = FeatureSpec(
    featureId: string,
    key: string,
    role: string,
    modality: string,
    stage: string,
    required: bool,
    dtype: string,
    shape: seq<Dim>,
    axes: seq<string>,
    layout: Option<string>,
    valueDomain: ValueDomain,
    units: Units,
    coordinateFrame: Option<string>,
    names: Option<seq<string>>,
    normalization: Normalization)
  {
    predicate IsText() {
      modality == "text"
    }
  }

  datatype FeatureContract =
    FeatureContract(observations: seq<FeatureSpec>, actions: seq<FeatureSpec>, context: seq<FeatureSpec>)
  {
    function AllSpecs(): seq<FeatureSpec> {
      observations + actions + context
    }
  }

  /** All features in order: the observations, the actions, the context. */
  lemma AllSpecsAt(c: FeatureContract, i: nat)
    ensures |c.AllSpecs()| == |c.observations| + |c.actions| + |c.context|
    ensures i < |c.observations| ==> c.AllSpecs()[i] == c.observations[i]
    ensures i < |c.actions| ==> c.AllSpecs()[|c.observations| + i] == c.actions[i]
    ensures i < |c.context| ==> c.AllSpecs()[|c.observations| + |c.actions| + i] == c.context[i]
  {
  }

  function MakeFeatureId(role: string, key: string, stage: string): string {
    role + ":" + key + "@" + stage
  }

  /** Roles carry no colon and canonical stages no at-sign. */
  predicate Canonical(s: FeatureSpec) {
    s.role in {"observation", "action", "context"} && '@' !in s.stage
  }

  lemma RoleHasNoColon(s: FeatureSpec)
    requires Canonical(s)
    ensures ':' !in s.role
  {
  }

  lemma SplitAtFirst(a: string, x: string, b: string, y: string, sep: char)
    requires a + [sep] + x == b + [sep] + y && sep !in a && sep !in b
    ensures a == b && x == y
  {
    var whole := a + [sep] + x;
    assert whole[|a|] == sep && whole[|b|] == sep;
    assert a == whole[..|a|] && b == whole[..|b|];
    assert x == whole[|a| + 1..] && y == whole[|b| + 1..];
  }

  lemma SplitAtLast(x: string, a: string, y: string, b: string, sep: char)
    requires x + [sep] + a == y + [sep] + b && sep !in a && sep !in b
    ensures a == b && x == y
  {
    var whole := x + [sep] + a;
    assert whole[|x|] == sep && whole[|y|] == sep;
    assert x == whole[..|x|] && y == whole[..|y|];
    assert a == whole[|x| + 1..] && b == whole[|y| + 1..];
  }

  /** A feature id determines role, key and stage, whatever characters the key holds. */
  lemma FeatureIdIsInjective(s: FeatureSpec, t: FeatureSpec)
    requires Canonical(s) && Canonical(t)
    requires MakeFeatureId(s.role, s.key, s.stage) == MakeFeatureId(t.role, t.key, t.stage)
    ensures s.role == t.role && s.key == t.key && s.stage == t.stage
  {
    RoleHasNoColon(s);
    RoleHasNoColon(t);
    var x, y := s.key + "@" + s.stage, t.key + "@" + t.stage;
    assert s.role + [':'] + x == MakeFeatureId(s.role, s.key, s.stage);
    assert t.role + [':'] + y == MakeFeatureId(t.role, t.key, t.stage);
    SplitAtFirst(s.role, x, t.role, y, ':');
    assert s.key + ['@'] + s.stage == x && t.key + ['@'] + t.stage == y;
    SplitAtLast(s.key, s.stage, t.key, t.stage, '@');
  }
}
