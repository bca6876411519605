/** Classification of the changes between a baseline and a candidate feature contract. */
module ContractDiff {
  import opened FeatureContracts

  datatype Change =
    | Removed(id: string)
    | DtypeChange(id: string)
    | LayoutChange(id: string)
    | ShapeChange(id: string)
    | UnitsChange(id: string)
    | NamesChange(id: string)
    | OwnerChange(id: string)
    | RangeReduction(id: string)
    | RangeExpansion(id: string)
    | Added(id: string)

  type SpecIndex = map<string, FeatureSpec>

  /** Features by id; the last of several with one id wins. */
  function ById(specs: seq<FeatureSpec>): SpecIndex {
    if specs == [] then map[]
    else
      var last := specs[|specs| - 1];
      ById(specs[..|specs| - 1])[last.featureId := last]
  }

  predicate Tightens(b: ValueDomain, c: ValueDomain) {
    || (b.minimum.Some? && c.minimum.Some? && c.minimum.value > b.minimum.value)
    || (b.maximum.Some? && c.maximum.Some? && c.maximum.value < b.maximum.value)
  }

  predicate Widens(b: ValueDomain, c: ValueDomain) {
    || (b.minimum.Some? && c.minimum.Some? && c.minimum.value < b.minimum.value)
    || (b.maximum.Some? && c.maximum.Some? && c.maximum.value > b.maximum.value)
  }

  /** When a change of a feature that both contracts have is breaking. */
  predicate PairBreaking(b: FeatureSpec, c: FeatureSpec, change: Change) {
    match change
    case DtypeChange(_) => b.dtype != c.dtype
    case LayoutChange(_) => b.axes != c.axes || b.layout != c.layout
    case ShapeChange(_) => b.shape != c.shape
    case UnitsChange(_) => b.units != c.units
    case NamesChange(_) => b.names != c.names
    case OwnerChange(_) => b.normalization.owner != c.normalization.owner
    case RangeReduction(_) => Tightens(b.valueDomain, c.valueDomain)
    case _ => false
  }

  predicate PairNonBreaking(b: FeatureSpec, c: FeatureSpec, change: Change) {
    change.RangeExpansion? && Widens(b.valueDomain, c.valueDomain) && !Tightens(b.valueDomain, c.valueDomain)
  }

  /** When a change between two indexed contracts is breaking. */
  predicate IsBreaking(base: SpecIndex, cand: SpecIndex, change: Change) {
    var id := change.id;
    match change
    case Removed(_) => id in base && id !in cand && base[id].required
    case Added(_) => id in cand && id !in base && cand[id].required
    case _ => id in base && id in cand && PairBreaking(base[id], cand[id], change)
  }

  predicate IsNonBreaking(base: SpecIndex, cand: SpecIndex, change: Change) {
    var id := change.id;
    match change
    case Removed(_) => id in base && id !in cand && !base[id].required
    case Added(_) => id in cand && id !in base && !cand[id].required
    case _ => id in base && id in cand && PairNonBreaking(base[id], cand[id], change)
  }

  /** The candidate declares the feature as the baseline does, with no tighter bound. */
  predicate SameDeclaration(b: FeatureSpec, c: FeatureSpec) {
    && b.dtype == c.dtype && b.axes == c.axes && b.layout == c.layout && b.shape == c.shape
    && b.units == c.units && b.names == c.names
    && b.normalization.owner == c.normalization.owner
    && !Tightens(b.valueDomain, c.valueDomain)
  }

  /** What a diff without breaking entries guarantees, feature by feature. */
  ghost predicate NonBreaking(base: SpecIndex, cand: SpecIndex) {
    && (forall id :: id in base && id !in cand ==> !base[id].required)
    && (forall id :: id in cand && id !in base ==> !cand[id].required)
    && (forall id :: id in base && id in cand ==> SameDeclaration(base[id], cand[id]))
  }

  class ContractDiffResult {
    var breaking: seq<Change>
    var nonBreaking: seq<Change>

    constructor ()
      ensures breaking == [] && nonBreaking == []
    {
      breaking, nonBreaking := [], [];
    }
  }

  /** The ids in the order in which they first occur. */
  function IdsOf(specs: seq<FeatureSpec>): seq<string> {
    if specs == [] then []
    else
      var init, last := specs[..|specs| - 1], specs[|specs| - 1];
      if last.featureId in ById(init) then IdsOf(init) else IdsOf(init) + [last.featureId]
  }

  /** Indexing by id: a later feature replaces an earlier one of its id, in its place. */
  method IndexSpecs(specs: seq<FeatureSpec>) returns (ids: seq<string>, index: SpecIndex)
    ensures index == ById(specs) && ids == IdsOf(specs)
    ensures forall id :: id in ids <==> id in index
  {
    ids, index := [], map[];
    for i := 0 to |specs|
      invariant index == ById(specs[..i]) && ids == IdsOf(specs[..i])
      invariant forall id :: id in ids <==> id in index
    {
      assert specs[..i + 1][..i] == specs[..i];
      var s := specs[i];
      if s.featureId !in index {
        ids := ids + [s.featureId];
      }
      index := index[s.featureId := s];
    }
    assert specs[..|specs|] == specs;
  }

  function When(condition: bool, change: Change): seq<Change> {
    if condition then [change] else []
  }

  /** The breaking entries for one feature of both contracts, in the source's order. */
  function FeatureBreaking(id: string, b: FeatureSpec, c: FeatureSpec): seq<Change> {
    When(b.dtype != c.dtype, DtypeChange(id))
    + When(b.axes != c.axes || b.layout != c.layout, LayoutChange(id))
    + When(b.shape != c.shape, ShapeChange(id))
    + When(b.units != c.units, UnitsChange(id))
    + When(b.names != c.names, NamesChange(id))
    + When(b.normalization.owner != c.normalization.owner, OwnerChange(id))
    + When(Tightens(b.valueDomain, c.valueDomain), RangeReduction(id))
  }

  lemma InSeven<T>(x: T, w0: seq<T>, w1: seq<T>, w2: seq<T>, w3: seq<T>, w4: seq<T>, w5: seq<T>, w6: seq<T>)
    ensures x in w0 + w1 + w2 + w3 + w4 + w5 + w6 <==>
            x in w0 || x in w1 || x in w2 || x in w3 || x in w4 || x in w5 || x in w6
  {
    var a := w0 + w1 + w2;
    var b := a + w3 + w4;
    assert x in a <==> x in w0 || x in w1 || x in w2;
    assert x in b <==> x in a || x in w3 || x in w4;
    assert w0 + w1 + w2 + w3 + w4 + w5 + w6 == b + w5 + w6;
  }

  /** Membership in the entries, with the seven comparisons as given truth values. */
  lemma EntriesMeaning(ch: Change, id: string, dtype: bool, layout: bool, shape: bool, units: bool, names: bool,
                       owner: bool, range: bool)
    ensures ch in When(dtype, DtypeChange(id)) + When(layout, LayoutChange(id)) + When(shape, ShapeChange(id))
                  + When(units, UnitsChange(id)) + When(names, NamesChange(id)) + When(owner, OwnerChange(id))
                  + When(range, RangeReduction(id))
            <==> ch.id == id && match ch
                                case DtypeChange(_) => dtype
                                case LayoutChange(_) => layout
                                case ShapeChange(_) => shape
                                case UnitsChange(_) => units
                                case NamesChange(_) => names
                                case OwnerChange(_) => owner
                                case RangeReduction(_) => range
                                case _ => false
  {
    InSeven(ch, When(dtype, DtypeChange(id)), When(layout, LayoutChange(id)), When(shape, ShapeChange(id)),
            When(units, UnitsChange(id)), When(names, NamesChange(id)), When(owner, OwnerChange(id)),
            When(range, RangeReduction(id)));
  }

  lemma FeatureBreakingMeaning(id: string, b: FeatureSpec, c: FeatureSpec, ch: Change)
    ensures ch in FeatureBreaking(id, b, c) <==> ch.id == id && PairBreaking(b, c, ch)
  {
    EntriesMeaning(ch, id, b.dtype != c.dtype, b.axes != c.axes || b.layout != c.layout, b.shape != c.shape,
                   b.units != c.units, b.names != c.names, b.normalization.owner != c.normalization.owner,
                   Tightens(b.valueDomain, c.valueDomain));
  }

  /** The entries for one baseline id, and for one candidate id. */
  function BaseEntries(id: string, base: SpecIndex, cand: SpecIndex, breaking: bool): seq<Change> {
    if id !in base then []
    else if id !in cand then When(base[id].required == breaking, Removed(id))
    else if breaking then FeatureBreaking(id, base[id], cand[id])
    else When(PairNonBreaking(base[id], cand[id], RangeExpansion(id)), RangeExpansion(id))
  }

  function AddedEntries(id: string, base: SpecIndex, cand: SpecIndex, breaking: bool): seq<Change> {
    if id in base || id !in cand then [] else When(cand[id].required == breaking, Added(id))
  }

  function BaseReport(ids: seq<string>, base: SpecIndex, cand: SpecIndex, breaking: bool): seq<Change> {
    if ids == [] then []
    else BaseReport(ids[..|ids| - 1], base, cand, breaking) + BaseEntries(ids[|ids| - 1], base, cand, breaking)
  }

  function AddedReport(ids: seq<string>, base: SpecIndex, cand: SpecIndex, breaking: bool): seq<Change> {
    if ids == [] then []
    else AddedReport(ids[..|ids| - 1], base, cand, breaking) + AddedEntries(ids[|ids| - 1], base, cand, breaking)
  }

  predicate Kind(base: SpecIndex, cand: SpecIndex, ch: Change, breaking: bool) {
    if breaking then IsBreaking(base, cand, ch) else IsNonBreaking(base, cand, ch)
  }

  lemma BaseEntriesMeaning(id: string, base: SpecIndex, cand: SpecIndex, breaking: bool)
    ensures forall ch :: ch in BaseEntries(id, base, cand, breaking) <==>
              ch.id == id && !ch.Added? && Kind(base, cand, ch, breaking)
  {
    if id in base && id in cand {
      forall ch
        ensures ch in FeatureBreaking(id, base[id], cand[id]) <==> ch.id == id && PairBreaking(base[id], cand[id], ch)
      {
        FeatureBreakingMeaning(id, base[id], cand[id], ch);
      }
    }
  }

  lemma {:induction false} BaseReportMeaning(ids: seq<string>, base: SpecIndex, cand: SpecIndex, breaking: bool)
    ensures forall ch :: ch in BaseReport(ids, base, cand, breaking) <==>
              ch.id in ids && !ch.Added? && Kind(base, cand, ch, breaking)
  {
    if ids == [] {
    } else {
      var init, id := ids[..|ids| - 1], ids[|ids| - 1];
      assert ids == init + [id];
      BaseReportMeaning(init, base, cand, breaking);
      BaseEntriesMeaning(id, base, cand, breaking);
    }
  }

  lemma {:induction false} AddedReportMeaning(ids: seq<string>, base: SpecIndex, cand: SpecIndex, breaking: bool)
    ensures forall ch :: ch in AddedReport(ids, base, cand, breaking) <==>
              ch.id in ids && ch.Added? && Kind(base, cand, ch, breaking)
  {
    if ids == [] {
    } else {
      var init, id := ids[..|ids| - 1], ids[|ids| - 1];
      assert ids == init + [id];
      AddedReportMeaning(init, base, cand, breaking);
    }
  }

  /** Appends an entry when its check fires. */
  method NoteIf(d: ContractDiffResult, condition: bool, change: Change)
    modifies d`breaking
    ensures d.breaking == old(d.breaking) + When(condition, change)
  {
    if condition {
      d.breaking := d.breaking + [change];
    }
  }

  lemma AppendSeven<T>(o: seq<T>, w0: seq<T>, w1: seq<T>, w2: seq<T>, w3: seq<T>, w4: seq<T>, w5: seq<T>, w6: seq<T>)
    ensures o + w0 + w1 + w2 + w3 + w4 + w5 + w6 == o + (w0 + w1 + w2 + w3 + w4 + w5 + w6)
  {
    assert o + w0 + w1 == o + (w0 + w1);
    assert o + (w0 + w1) + w2 == o + (w0 + w1 + w2);
    assert o + (w0 + w1 + w2) + w3 == o + (w0 + w1 + w2 + w3);
    assert o + (w0 + w1 + w2 + w3) + w4 == o + (w0 + w1 + w2 + w3 + w4);
    assert o + (w0 + w1 + w2 + w3 + w4) + w5 == o + (w0 + w1 + w2 + w3 + w4 + w5);
    assert o + (w0 + w1 + w2 + w3 + w4 + w5) + w6 == o + (w0 + w1 + w2 + w3 + w4 + w5 + w6);
  }

  /** The checks on one feature that both contracts have. */
  method DiffFeature(d: ContractDiffResult, id: string, b: FeatureSpec, c: FeatureSpec)
    modifies d
    ensures d.breaking == old(d.breaking) + FeatureBreaking(id, b, c)
    ensures d.nonBreaking == old(d.nonBreaking) + When(PairNonBreaking(b, c, RangeExpansion(id)), RangeExpansion(id))
  {
    NoteIf(d, b.dtype != c.dtype, DtypeChange(id));
    NoteIf(d, b.axes != c.axes || b.layout != c.layout, LayoutChange(id));
    NoteIf(d, b.shape != c.shape, ShapeChange(id));
    NoteIf(d, b.units != c.units, UnitsChange(id));
    NoteIf(d, b.names != c.names, NamesChange(id));
    NoteIf(d, b.normalization.owner != c.normalization.owner, OwnerChange(id));
    NoteIf(d, Tightens(b.valueDomain, c.valueDomain), RangeReduction(id));
    AppendSeven(old(d.breaking), When(b.dtype != c.dtype, DtypeChange(id)),
                When(b.axes != c.axes || b.layout != c.layout, LayoutChange(id)),
                When(b.shape != c.shape, ShapeChange(id)), When(b.units != c.units, UnitsChange(id)),
                When(b.names != c.names, NamesChange(id)),
                When(b.normalization.owner != c.normalization.owner, OwnerChange(id)),
                When(Tightens(b.valueDomain, c.valueDomain), RangeReduction(id)));
    if !Tightens(b.valueDomain, c.valueDomain) && Widens(b.valueDomain, c.valueDomain) {
      d.nonBreaking := d.nonBreaking + [RangeExpansion(id)];
    }
  }

  lemma ReportIsComplete(baseIds: seq<string>, candIds: seq<string>, base: SpecIndex, cand: SpecIndex, breaking: bool)
    requires (forall id :: id in baseIds <==> id in base) && forall id :: id in candIds <==> id in cand
    ensures forall ch :: ch in BaseReport(baseIds, base, cand, breaking) + AddedReport(candIds, base, cand, breaking)
                         <==> Kind(base, cand, ch, breaking)
  {
    BaseReportMeaning(baseIds, base, cand, breaking);
    AddedReportMeaning(candIds, base, cand, breaking);
  }

  /** The pass over the baseline's features. */
  method DiffBaseline(d: ContractDiffResult, ids: seq<string>, base: SpecIndex, cand: SpecIndex)
    requires d.breaking == [] && d.nonBreaking == [] && forall id :: id in ids ==> id in base
    modifies d
    ensures d.breaking == BaseReport(ids, base, cand, true)
    ensures d.nonBreaking == BaseReport(ids, base, cand, false)
  {
    for i := 0 to |ids|
      invariant d.breaking == BaseReport(ids[..i], base, cand, true)
      invariant d.nonBreaking == BaseReport(ids[..i], base, cand, false)
    {
      var id := ids[i];
      assert ids[..i + 1][..i] == ids[..i] && id in base;
      if id !in cand {
        if base[id].required {
          d.breaking := d.breaking + [Removed(id)];
        } else {
          d.nonBreaking := d.nonBreaking + [Removed(id)];
        }
      } else {
        DiffFeature(d, id, base[id], cand[id]);
      }
    }
    assert ids[..|ids|] == ids;
  }

  /** The pass over the candidate's features, for those the baseline lacks. */
  method DiffAdditions(d: ContractDiffResult, ids: seq<string>, base: SpecIndex, cand: SpecIndex)
    requires forall id :: id in ids ==> id in cand
    modifies d
    ensures d.breaking == old(d.breaking) + AddedReport(ids, base, cand, true)
    ensures d.nonBreaking == old(d.nonBreaking) + AddedReport(ids, base, cand, false)
  {
    for i := 0 to |ids|
      invariant d.breaking == old(d.breaking) + AddedReport(ids[..i], base, cand, true)
      invariant d.nonBreaking == old(d.nonBreaking) + AddedReport(ids[..i], base, cand, false)
    {
      var id := ids[i];
      assert ids[..i + 1][..i] == ids[..i] && id in cand;
      if id !in base {
        if cand[id].required {
          d.breaking := d.breaking + [Added(id)];
        } else {
          d.nonBreaking := d.nonBreaking + [Added(id)];
        }
      }
    }
    assert ids[..|ids|] == ids;
  }

  /** The entries of one kind, in the order of the two passes. */
  function FullReport(baseline: seq<FeatureSpec>, candidate: seq<FeatureSpec>, breaking: bool): seq<Change> {
    BaseReport(IdsOf(baseline), ById(baseline), ById(candidate), breaking)
    + AddedReport(IdsOf(candidate), ById(baseline), ById(candidate), breaking)
  }

  /** `diff_feature_contracts`: each list holds exactly the changes of its kind, and nothing
      is breaking exactly when the contracts are compatible feature by feature. */
  method DiffContracts(baseline: FeatureContract, candidate: FeatureContract) returns (d: ContractDiffResult)
    ensures fresh(d)
    ensures d.breaking == FullReport(baseline.AllSpecs(), candidate.AllSpecs(), true)
    ensures d.nonBreaking == FullReport(baseline.AllSpecs(), candidate.AllSpecs(), false)
    ensures forall ch :: ch in d.breaking <==> IsBreaking(ById(baseline.AllSpecs()), ById(candidate.AllSpecs()), ch)
    ensures forall ch :: ch in d.nonBreaking <==> IsNonBreaking(ById(baseline.AllSpecs()), ById(candidate.AllSpecs()), ch)
    ensures d.breaking == [] <==> NonBreaking(ById(baseline.AllSpecs()), ById(candidate.AllSpecs()))
  {
    d := new ContractDiffResult();
    var baseIds, base := IndexSpecs(baseline.AllSpecs());
    var candIds, cand := IndexSpecs(candidate.AllSpecs());
    DiffBaseline(d, baseIds, base, cand);
    DiffAdditions(d, candIds, base, cand);
    ReportIsComplete(baseIds, candIds, base, cand, true);
    ReportIsComplete(baseIds, candIds, base, cand, false);
    assert forall ch :: ch in d.breaking <==> Kind(base, cand, ch, true);
    assert forall ch :: ch in d.nonBreaking <==> Kind(base, cand, ch, false);
    NothingBreakingMeaning(base, cand, d.breaking);
  }

  lemma UnbrokenPair(b: FeatureSpec, c: FeatureSpec, id: string)
    requires forall ch: Change :: ch.id == id && !ch.Removed? && !ch.Added? ==> !PairBreaking(b, c, ch)
    ensures SameDeclaration(b, c)
  {
    assert !PairBreaking(b, c, DtypeChange(id)) && !PairBreaking(b, c, LayoutChange(id));
    assert !PairBreaking(b, c, ShapeChange(id)) && !PairBreaking(b, c, UnitsChange(id));
    assert !PairBreaking(b, c, NamesChange(id)) && !PairBreaking(b, c, OwnerChange(id));
    assert !PairBreaking(b, c, RangeReduction(id));
  }

  lemma NothingBreakingMeaning(base: SpecIndex, cand: SpecIndex, breaking: seq<Change>)
    requires forall ch :: ch in breaking <==> IsBreaking(base, cand, ch)
    ensures breaking == [] <==> NonBreaking(base, cand)
  {
    if breaking == [] {
      forall id | id in base && id !in cand
        ensures !base[id].required
      {
        assert Removed(id) !in breaking;
      }
      forall id | id in cand && id !in base
        ensures !cand[id].required
      {
        assert Added(id) !in breaking;
      }
      forall id | id in base && id in cand
        ensures SameDeclaration(base[id], cand[id])
      {
        forall ch: Change | ch.id == id && !ch.Removed? && !ch.Added?
          ensures !PairBreaking(base[id], cand[id], ch)
        {
          assert !IsBreaking(base, cand, ch);
        }
        UnbrokenPair(base[id], cand[id], id);
      }
    } else {
      assert IsBreaking(base, cand, breaking[0]);
    }
  }

  // ---------------------------------------------------------------- what the range entries mean

  /** A value inside the bounds of `d` that the other domain declares as well. */
  predicate InShared(d: ValueDomain, other: ValueDomain, x: real) {
    && (d.minimum.Some? && other.minimum.Some? ==> d.minimum.value <= x)
    && (d.maximum.Some? && other.maximum.Some? ==> x <= d.maximum.value)
  }

  /** The value is admitted by the candidate and not by the baseline. */
  predicate Gains(b: ValueDomain, c: ValueDomain, x: real) {
    InShared(c, b, x) && !InShared(b, c, x)
  }

  /** Judged by the bounds that both declare, and for a range that admits something: it is reduced
      exactly when a value is lost, and otherwise expanded exactly when a value is gained. */
  lemma RangeMeaning(b: ValueDomain, c: ValueDomain, inside: real)
    requires InShared(b, c, inside)
    ensures Tightens(b, c) <==> exists x :: Gains(c, b, x)
    ensures !Tightens(b, c) ==> (Widens(b, c) <==> exists x :: Gains(b, c, x))
  {
    var lower := b.minimum.Some? && c.minimum.Some?;
    var upper := b.maximum.Some? && c.maximum.Some?;
    if lower {
      assert c.minimum.value > b.minimum.value ==> Gains(c, b, b.minimum.value);
      assert !Tightens(b, c) && c.minimum.value < b.minimum.value ==> Gains(b, c, c.minimum.value);
    }
    if upper {
      assert c.maximum.value < b.maximum.value ==> Gains(c, b, b.maximum.value);
      assert !Tightens(b, c) && c.maximum.value > b.maximum.value ==> Gains(b, c, c.maximum.value);
    }
  }

  /** So the diff lists a reduction exactly when a value of the baseline's
      range is lost, and an expansion exactly when none is lost and one is gained. */
  lemma RangeEntriesIff(base: SpecIndex, cand: SpecIndex, id: string, inside: real)
    requires id in base && id in cand && InShared(base[id].valueDomain, cand[id].valueDomain, inside)
    ensures var b, c := base[id].valueDomain, cand[id].valueDomain;
            && (IsBreaking(base, cand, RangeReduction(id)) <==> exists x :: Gains(c, b, x))
            && (IsNonBreaking(base, cand, RangeExpansion(id)) <==>
                  (exists x :: Gains(b, c, x)) && forall x :: !Gains(c, b, x))
  {
    RangeMeaning(base[id].valueDomain, cand[id].valueDomain, inside);
  }
}
