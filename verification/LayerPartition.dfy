/** Which model layers a pipeline stage holds, and the metadata check on them. */
module LayerPartition {
  import opened Outcomes
  import LlmMeaning

  /** First layer of stage i; the end of stage i is the start of stage i + 1. */
  function Start(i: nat, layers: int, stages: int): int
    requires stages > 0
  {
    i * layers / stages
  }

  /** The ranges run from 0 to the layer count without gap, overlap or disorder, and two of
      them differ by at most one layer. */
  lemma RangesTile(layers: int, stages: int)
    requires stages > 0
    ensures Start(0, layers, stages) == 0 && Start(stages, layers, stages) == layers
    ensures forall i: nat ::
      layers / stages <= Start(i + 1, layers, stages) - Start(i, layers, stages) <= layers / stages + 1
    ensures layers % stages == 0 ==>
      forall i: nat :: Start(i + 1, layers, stages) - Start(i, layers, stages) == layers / stages
  {
    DivideProduct(layers, stages);
    forall i: nat
      ensures layers / stages <= Start(i + 1, layers, stages) - Start(i, layers, stages) <= layers / stages + 1
      ensures layers % stages == 0 ==> Start(i + 1, layers, stages) - Start(i, layers, stages) == layers / stages
    {
      assert (i + 1) * layers == i * layers + layers;
      DivideSum(i * layers, layers, stages);
    }
  }

  lemma DivideProduct(layers: int, stages: int)
    requires stages > 0
    ensures stages * layers / stages == layers
  {
    DivideUnique(stages * layers, stages, layers, 0);
  }

  lemma DivideUnique(a: int, d: int, q: int, r: int)
    requires d > 0 && a == d * q + r && 0 <= r < d
    ensures a / d == q && a % d == r
  {
    var p := a / d - q;
    assert a == d * (a / d) + a % d;
    assert d * p == r - a % d by { assert d * p == d * (a / d) - d * q; }
    if p != 0 { ProductOutside(d, p); }
  }

  lemma ProductOutside(d: int, p: int)
    requires d > 0 && p != 0
    ensures d * p >= d || d * p <= -d
  {
    if p > 0 { assert d * p >= d; } else { assert d * p <= -d; }
  }

  lemma DivideSum(a: int, b: int, d: int)
    requires d > 0
    ensures a / d + b / d <= (a + b) / d <= a / d + b / d + 1
    ensures b % d == 0 ==> (a + b) / d == a / d + b / d
  {
    var r := a % d + b % d;
    assert a == d * (a / d) + a % d && b == d * (b / d) + b % d;
    assert d * (a / d + b / d) == d * (a / d) + d * (b / d);
    if r < d {
      DivideUnique(a + b, d, a / d + b / d, r);
    } else {
      assert d * (a / d + b / d + 1) == d * (a / d) + d * (b / d) + d;
      DivideUnique(a + b, d, a / d + b / d + 1, r - d);
    }
  }

  predicate Holds(i: nat, layer: nat, layers: int, stages: int)
    requires stages > 0
  {
    Start(i, layers, stages) <= layer < Start(i + 1, layers, stages)
  }

  lemma {:induction false} StartsOrdered(i: nat, j: nat, layers: int, stages: int)
    requires stages > 0 && layers >= 0 && i <= j
    ensures Start(i, layers, stages) <= Start(j, layers, stages)
    decreases j
  {
    hide Start;
    if i < j {
      StartsOrdered(i, j - 1, layers, stages);
      RangesTile(layers, stages);
      assert layers / stages >= 0;
      var p: nat := j - 1;
      assert layers / stages <= Start(p + 1, layers, stages) - Start(p, layers, stages);
    }
  }

  /** The stage of a layer among the first n stages. */
  function StageOf(layer: nat, n: nat, layers: int, stages: int): (i: nat)
    requires stages > 0 && layer < Start(n, layers, stages)
    ensures i < n && Holds(i, layer, layers, stages)
  {
    assert n > 0;
    if Start(n - 1, layers, stages) <= layer then n - 1
    else StageOf(layer, n - 1, layers, stages)
  }

  /** Every layer of the model is held by exactly one stage. */
  lemma EveryLayerHeldOnce(layer: nat, layers: int, stages: int)
    requires stages > 0 && layer < layers
    ensures exists i: nat :: i < stages && Holds(i, layer, layers, stages)
    ensures forall i: nat, j: nat :: Holds(i, layer, layers, stages) && Holds(j, layer, layers, stages) ==> i == j
  {
    RangesTile(layers, stages);
    var i := StageOf(layer, stages, layers, stages);
    hide Start;
    forall i: nat, j: nat | Holds(i, layer, layers, stages) && Holds(j, layer, layers, stages) ensures i == j {
      if i < j { StartsOrdered(i + 1, j, layers, stages); }
      if j < i { StartsOrdered(j + 1, i, layers, stages); }
    }
  }

  ghost predicate NonEmpty(i: nat, layers: int, stages: int)
    requires stages > 0
  {
    exists layer: nat :: Holds(i, layer, layers, stages)
  }

  /** No stage is left without layers exactly when there are at least as many layers as stages. */
  lemma NonEmptyExactlyWhenEnough(layers: int, stages: int)
    requires stages > 0
    ensures (forall i: nat :: i < stages ==> NonEmpty(i, layers, stages)) <==> layers >= stages
  {
    RangesTile(layers, stages);
    if layers >= stages {
      QuotientPositive(layers, stages);
      hide Start;
      forall i: nat | i < stages ensures NonEmpty(i, layers, stages) {
        StartsOrdered(0, i, layers, stages);
        assert Start(i + 1, layers, stages) - Start(i, layers, stages) >= layers / stages;
        assert Holds(i, Start(i, layers, stages), layers, stages);
      }
    } else {
      FirstRangeEmpty(layers, stages);
      hide Start;
      assert !NonEmpty(0, layers, stages);
    }
  }

  lemma QuotientPositive(layers: int, stages: int)
    requires 0 < stages <= layers
    ensures layers / stages >= 1
  {
    DivideUnique(stages, stages, 1, 0);
    DivideSum(layers - stages, stages, stages);
    QuotientNonNegative(layers - stages, stages);
  }

  lemma QuotientNonNegative(a: int, d: int)
    requires a >= 0 && d > 0
    ensures a / d >= 0
  {
  }

  lemma FirstRangeEmpty(layers: int, stages: int)
    requires stages > 0 && layers < stages
    ensures Start(1, layers, stages) <= 0
  {
    assert 1 * layers == layers;
    if layers >= 0 { DivideUnique(layers, stages, 0, layers); }
  }

  // ----- the metadata check -----

  datatype StageMetadata = StageMetadata(stageIndex: Option<int>, stageCount: Option<int>, roleKind: Option<string>,
                                         start: Option<int>, endExclusive: Option<int>)

  datatype Metadata = Metadata(modelFamily: Option<string>, plannerKind: Option<string>, executionMode: Option<string>,
                               stageCount: Option<int>, layerCount: Option<int>,
                               roleMetadata: map<string, StageMetadata>)

  predicate StageAccepted(service: Metadata, index: int, stages: int, layers: int)
    requires 0 <= index < stages
  {
    var role := LlmMeaning.StageRole(index);
    && role in service.roleMetadata
    && var m := service.roleMetadata[role];
    && m.stageIndex == Some(index) && m.stageCount == Some(stages) && m.roleKind == Some("llm-pipeline-stage")
    && (layers != 0 ==> m.start == Some(Start(index, layers, stages)))
    && (layers != 0 ==> m.endExclusive == Some(Start(index + 1, layers, stages)))
  }

  predicate HeaderAccepted(service: Metadata, stages: int, layers: int) {
    && service.modelFamily == Some("llm") && service.plannerKind == Some("llm-pipeline")
    && service.executionMode == Some("pipeline-parallel") && service.stageCount == Some(stages)
    && (layers != 0 ==> service.layerCount == Some(layers))
  }

  /** Accepts exactly the metadata whose header and every stage entry match the split;
      with no layer count the ranges are not looked at. */
  method ValidatePipelineMetadata(service: Metadata, stages: int, layers: int) returns (ok: bool)
    ensures ok <==>
      HeaderAccepted(service, stages, layers) && forall i: nat :: i < stages ==> StageAccepted(service, i, stages, layers)
  {
    if service.modelFamily != Some("llm") || service.plannerKind != Some("llm-pipeline") ||
       service.executionMode != Some("pipeline-parallel") {
      return false;
    }
    if service.stageCount != Some(stages) || (layers != 0 && service.layerCount != Some(layers)) {
      return false;
    }
    if stages <= 0 { return true; }
    for index := 0 to stages
      invariant forall i: nat :: i < index ==> StageAccepted(service, i, stages, layers)
    {
      var role := LlmMeaning.StageRole(index);
      if role !in service.roleMetadata {
        assert !StageAccepted(service, index, stages, layers);
        return false;
      }
      var m := service.roleMetadata[role];
      if m.stageIndex != Some(index) || m.stageCount != Some(stages) || m.roleKind != Some("llm-pipeline-stage") {
        assert !StageAccepted(service, index, stages, layers);
        return false;
      }
      if layers != 0 {
        if m.start != Some(index * layers / stages) || m.endExclusive != Some((index + 1) * layers / stages) {
          assert !StageAccepted(service, index, stages, layers);
          return false;
        }
      }
    }
    ok := true;
  }

  /** Metadata that passes the check with a layer count covers each layer by exactly one stage entry. */
  lemma AcceptedMetadataCovers(service: Metadata, stages: int, layers: int, layer: nat)
    requires stages > 0 && layer < layers
    requires forall i: nat :: i < stages ==> StageAccepted(service, i, stages, layers)
    ensures exists i: nat :: i < stages && Claims(service, i, layer)
    ensures forall i: nat, j: nat :: i < stages && j < stages && Claims(service, i, layer) && Claims(service, j, layer) ==> i == j
  {
    EveryLayerHeldOnce(layer, layers, stages);
    forall i: nat | i < stages ensures Claims(service, i, layer) <==> Holds(i, layer, layers, stages) {
      assert StageAccepted(service, i, stages, layers);
    }
    var i: nat :| i < stages && Holds(i, layer, layers, stages);
    assert Claims(service, i, layer);
  }

  /** The entry of stage i claims a layer. */
  predicate Claims(service: Metadata, i: nat, layer: nat) {
    var role := LlmMeaning.StageRole(i);
    && role in service.roleMetadata
    && service.roleMetadata[role].start.Some? && service.roleMetadata[role].endExclusive.Some?
    && service.roleMetadata[role].start.value <= layer < service.roleMetadata[role].endExclusive.value
  }
}
