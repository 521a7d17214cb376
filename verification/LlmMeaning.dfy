/** What the LLM pipeline interpreter computes, for every plan. */
module LlmMeaning {
  import opened Outcomes
  import opened Strings
  import opened LlmPipeline

  /** The interpreter returns exactly when some listed role is fed, hands nothing on, and follows
      roles that are all fed and hand on; the result is then that role's value, and one object
      was stored, published and fetched for every role before it. */
  lemma InterpreterReturns(plan: Plan, stage: StageFunction, prompt: string)
    ensures Interpret(plan, stage, prompt).Returned? <==> exists k: nat :: ReturnsAt(Line(plan), k)
    ensures forall k: nat :: ReturnsAt(Line(plan), k) ==>
      var run := Interpret(plan, stage, prompt);
      && run.Returned?
      && run.final == Final(plan.roles[k], plan.roles[..k + 1], Value(Line(plan), stage, prompt, k))
      && run.state.published == run.state.fetched == |run.state.objects| == k
    ensures !Interpret(plan, stage, prompt).Running?
  {
    var line, n := Line(plan), |plan.roles|;
    var done := Exec(line, stage, prompt, n);
    ExecMeaning(line, stage, prompt, n);
    forall k: nat | ReturnsAt(line, k)
      ensures done.Returned?
      ensures done.final == Final(plan.roles[k], plan.roles[..k + 1], Value(line, stage, prompt, k))
      ensures done.state.published == done.state.fetched == |done.state.objects| == k
    {
      ReturnShape(plan, stage, prompt, k, done);
    }
    hide ReturnsAt; hide Exec; hide StepOutcome; hide Value; hide Loop;
  }

  lemma ReturnShape(plan: Plan, stage: StageFunction, prompt: string, k: nat, done: Progress)
    requires ReturnsAt(Line(plan), k) && Describes(Line(plan), stage, prompt, |plan.roles|, done)
    ensures done.Returned?
    ensures done.final == Final(plan.roles[k], plan.roles[..k + 1], Value(Line(plan), stage, prompt, k))
    ensures done.state.published == done.state.fetched == |done.state.objects| == k
  {
    hide Loop; hide Value; hide Fed; hide HandsOn; hide AllFed;
    var line := Line(plan);
    assert StepOutcome(line, stage, prompt, k, done);
    assert done.state.order == plan.roles[..k + 1];
  }

  lemma SlotOfEqual(plan: Plan, i: nat, j: nat)
    requires i < |plan.roles| && j < |plan.roles| && plan.roles[i] == plan.roles[j]
    ensures Line(plan)[i] == Line(plan)[j]
  {
    hide SlotOf;
  }

  /** Whatever the plan, a role listed twice never runs twice on the way to a result,
      and the role that produces it has no outgoing edge. */
  lemma ExecutedAtMostOnce(plan: Plan, k: nat)
    requires ReturnsAt(Line(plan), k)
    ensures forall i, j :: 0 <= i < j <= k ==> plan.roles[i] != plan.roles[j]
    ensures forall e :: e in plan.edges ==> e.producer != plan.roles[k]
  {
    hide Fed; hide IsHiddenState;
    var line := Line(plan);
    forall i, j | 0 <= i < j <= k ensures plan.roles[i] != plan.roles[j] {
      if plan.roles[i] == plan.roles[j] {
        SlotOfEqual(plan, i, j);
      }
    }
    assert line[k] == SlotOf(plan, plan.roles[k]);
  }

  /** A plan in which every listed role has an outgoing edge never returns. */
  lemma EveryRoleHandingOnNeverReturns(plan: Plan, stage: StageFunction, prompt: string)
    requires forall role :: role in plan.roles ==> exists e :: e in plan.edges && e.producer == role
    ensures Interpret(plan, stage, prompt).Failed?
  {
    InterpreterReturns(plan, stage, prompt);
    forall k: nat ensures !ReturnsAt(Line(plan), k) {
      if ReturnsAt(Line(plan), k) {
        assert plan.roles[k] in plan.roles;
        var e :| e in plan.edges && e.producer == plan.roles[k];
        ExecutedAtMostOnce(plan, k);
      }
    }
  }

  // ----- dataflow equations -----

  predicate PlainProducers(plan: Plan) {
    forall e :: e in plan.edges ==> PlainPath(e.producer, '_')
  }

  /** In a run that returns, each later role works on the value of its incoming edge's producer,
      which ran earlier and exactly once, under the edge's key scope. */
  lemma DataflowEquations(plan: Plan, stage: StageFunction, prompt: string, k: nat, i: nat)
    requires PlainProducers(plan) && ReturnsAt(Line(plan), k) && i <= k
    ensures i == 0 ==> Value(Line(plan), stage, prompt, i) == stage(plan.roles[0], 0, prompt)
    ensures i > 0 ==>
      var edge, j := Incoming(plan.edges, plan.roles[i]), Source(Line(plan), i);
      && edge.Some? && j < i
      && plan.roles[j] == edge.value.producer
      && Outgoing(plan.edges, plan.roles[j]).Some?
      && Outgoing(plan.edges, plan.roles[j]).value.keyScope == edge.value.keyScope
      && (forall m :: 0 <= m <= k && plan.roles[m] == edge.value.producer ==> m == j)
      && Value(Line(plan), stage, prompt, i)
         == stage(plan.roles[i], i, Value(Line(plan), stage, prompt, j))
  {
    hide FeederBefore; hide HandsOn; hide IsHiddenState;
    var line := Line(plan);
    assert line[i] == SlotOf(plan, plan.roles[i]);
    if i > 0 {
      assert Fed(line, i);
      var j := Source(line, i);
      assert FedBy(line, i, j);
      assert line[j] == SlotOf(plan, plan.roles[j]);
      var e, f := Incoming(plan.edges, plan.roles[i]).value, Outgoing(plan.edges, plan.roles[j]).value;
      NamesIdentifyPlainProducers(plan.session, e, f);
      ExecutedAtMostOnce(plan, k);
    }
  }

  // ----- chains -----

  /** The edges link each role to the next, in any order and any number of times. */
  ghost predicate Chain(plan: Plan) {
    && plan.roles != []
    && (forall i, j :: 0 <= i < j < |plan.roles| ==> plan.roles[i] != plan.roles[j])
    && (forall i :: 0 <= i < |plan.roles| - 1 ==> PlainPath(plan.roles[i], '_'))
    && (forall e :: e in plan.edges ==> IsHiddenState(e.tensors) && e.keyScope != [])
    && (forall e :: e in plan.edges ==> exists i :: Joins(plan, e, i))
    && (forall i :: 0 <= i < |plan.roles| - 1 ==> Linked(plan, i))
  }

  predicate Linked(plan: Plan, i: int) {
    exists e :: e in plan.edges && Joins(plan, e, i)
  }

  predicate Joins(plan: Plan, e: PlannedDependency, i: int) {
    0 <= i < |plan.roles| - 1 && e.producer == plan.roles[i] && e.consumer == plan.roles[i + 1]
  }

  /** The undivided model: every stage applied in turn. */
  function Composition(stage: StageFunction, prompt: string, roles: seq<string>, i: nat): string
    requires i < |roles|
  {
    stage(roles[i], i, if i == 0 then prompt else Composition(stage, prompt, roles, i - 1))
  }

  /** When the edges of one producer are those of one consumer, both maps keep the same edge. */
  lemma {:induction false} LastEdgeShared(edges: seq<PlannedDependency>, producer: string, consumer: string)
    requires forall e :: e in edges ==> (e.producer == producer <==> e.consumer == consumer)
    ensures Outgoing(edges, producer) == Incoming(edges, consumer)
  {
    if edges != [] {
      assert edges[|edges| - 1] in edges;
      forall e | e in edges[..|edges| - 1] ensures e in edges {}
      LastEdgeShared(edges[..|edges| - 1], producer, consumer);
    }
  }

  lemma ChainEdge(plan: Plan, i: nat)
    requires Chain(plan) && i < |plan.roles| - 1
    ensures Outgoing(plan.edges, plan.roles[i]).Some?
    ensures Outgoing(plan.edges, plan.roles[i]) == Incoming(plan.edges, plan.roles[i + 1])
  {
    hide PlainPath; hide IsHiddenState;
    forall e | e in plan.edges
      ensures e.producer == plan.roles[i] <==> e.consumer == plan.roles[i + 1]
    {
      var m :| Joins(plan, e, m);
    }
    LastEdgeShared(plan.edges, plan.roles[i], plan.roles[i + 1]);
    assert Linked(plan, i);
    var e :| e in plan.edges && Joins(plan, e, i);
  }

  lemma ChainEnds(plan: Plan)
    requires Chain(plan)
    ensures plan.roles != [] && Outgoing(plan.edges, plan.roles[|plan.roles| - 1]).None?
  {
    hide PlainPath; hide IsHiddenState;
    forall e | e in plan.edges ensures e.producer != plan.roles[|plan.roles| - 1] {
      var m :| Joins(plan, e, m);
    }
  }

  lemma ChainSlot(plan: Plan, i: nat)
    requires Chain(plan) && i < |plan.roles|
    ensures var line := Line(plan);
      && (i == |plan.roles| - 1 <==> line[i].hands.None?)
      && (line[i].hands.Some? ==>
            && line[i].hands.value.edge in plan.edges
            && line[i].hands.value.edge.producer == plan.roles[i]
            && line[i].hands.value.name == DependencyName(plan.session, line[i].hands.value.edge)
            && line[i + 1].fetches == Some(line[i].hands.value.name))
  {
    hide DependencyName; hide IsHiddenState; hide Chain;
    var line := Line(plan);
    assert line[i] == SlotOf(plan, plan.roles[i]);
    if i < |plan.roles| - 1 {
      ChainEdge(plan, i);
      assert line[i + 1] == SlotOf(plan, plan.roles[i + 1]);
    } else {
      ChainEnds(plan);
    }
  }

  lemma ChainNamesDiffer(plan: Plan, i: nat, j: nat)
    requires Chain(plan) && i < j < |plan.roles| - 1
    ensures Line(plan)[i].hands.Some? && Line(plan)[j].hands.Some?
    ensures Line(plan)[i].hands.value.name != Line(plan)[j].hands.value.name
  {
    ChainSlot(plan, i);
    ChainSlot(plan, j);
    hide SlotOf; hide DependencyName; hide IsHiddenState;
    NamesIdentifyPlainProducers(plan.session, Line(plan)[i].hands.value.edge, Line(plan)[j].hands.value.edge);
  }

  lemma ChainHandsOn(plan: Plan)
    requires Chain(plan) && plan.roles != []
    ensures HandsOn(Line(plan), |plan.roles| - 1)
  {
    hide SlotOf; hide DependencyName; hide Chain;
    var line, k := Line(plan), |plan.roles| - 1;
    assert |line| == |plan.roles| by { LineLength(plan); }
    forall i, j | 0 <= i < j < k ensures line[i].hands.Some? && line[j].hands.Some? && line[i].hands.value.name != line[j].hands.value.name {
      ChainNamesDiffer(plan, i, j);
    }
    forall i: nat | i < k ensures line[i].hands.Some? && IsHiddenState(line[i].hands.value.edge.tensors) {
      ChainSlot(plan, i);
      ChainHidden(plan, line[i].hands.value.edge);
    }
  }

  lemma ChainHidden(plan: Plan, edge: PlannedDependency)
    requires Chain(plan) && edge in plan.edges
    ensures IsHiddenState(edge.tensors)
  {
  }

  lemma LineLength(plan: Plan)
    ensures |Line(plan)| == |plan.roles|
  {
  }

  lemma FedByLast(line: seq<Slot>, i: nat)
    requires 0 < i < |line| && FedBy(line, i, i - 1)
    ensures Source(line, i) == i - 1
  {
  }

  lemma ChainReturns(plan: Plan)
    requires Chain(plan)
    ensures plan.roles != [] && ReturnsAt(Line(plan), |plan.roles| - 1)
    ensures forall i: nat :: 0 < i < |plan.roles| ==> Source(Line(plan), i) == i - 1
  {
    var line, k := Line(plan), |plan.roles| - 1;
    assert plan.roles != [];
    ChainHandsOn(plan);
    ChainSlot(plan, k);
    hide SlotOf; hide DependencyName; hide IsHiddenState; hide HandsOn; hide Chain; hide FedBy; hide Source;
    forall i: nat | 0 < i <= k ensures Source(line, i) == i - 1 {
      ChainFeeds(plan, i);
      FedByLast(line, i);
    }
  }

  lemma ChainFeeds(plan: Plan, i: nat)
    requires Chain(plan) && 0 < i < |plan.roles|
    ensures FedBy(Line(plan), i, i - 1)
  {
    ChainHandsOn(plan);
    ChainSlot(plan, i - 1);
    ChainSlot(plan, i);
    hide SlotOf; hide DependencyName; hide IsHiddenState; hide Chain;
  }

  lemma SlotRole(plan: Plan, role: string)
    ensures SlotOf(plan, role).role == role
  {
  }

  lemma ValueUnfolds(line: seq<Slot>, stage: StageFunction, prompt: string, i: nat)
    requires i < |line|
    ensures Value(line, stage, prompt, i) == stage(line[i].role, i,
              if i == 0 || Source(line, i) >= i then prompt else Value(line, stage, prompt, Source(line, i)))
  {
  }

  lemma {:induction false} ChainValue(plan: Plan, stage: StageFunction, prompt: string, i: nat)
    requires Chain(plan) && i < |plan.roles|
    ensures Value(Line(plan), stage, prompt, i) == Composition(stage, prompt, plan.roles, i)
  {
    hide Chain; hide Source; hide Value; hide ReturnsAt; hide SlotOf;
    ChainReturns(plan);
    ValueUnfolds(Line(plan), stage, prompt, i);
    assert SlotOf(plan, plan.roles[i]).role == plan.roles[i] by { SlotRole(plan, plan.roles[i]); }
    if i > 0 {
      ChainValue(plan, stage, prompt, i - 1);
    }
  }

  /** Splitting into a chain of stages keeps the meaning of the undivided pipeline. */
  lemma ChainComposes(plan: Plan, stage: StageFunction, prompt: string)
    requires Chain(plan)
    ensures var run := Interpret(plan, stage, prompt);
      && run.Returned?
      && run.final == Final(plan.roles[|plan.roles| - 1], plan.roles,
                            Composition(stage, prompt, plan.roles, |plan.roles| - 1))
      && run.state.published == run.state.fetched == |run.state.objects| == |plan.roles| - 1
  {
    hide Chain; hide ReturnsAt; hide Value; hide Interpret;
    ChainReturns(plan);
    InterpreterReturns(plan, stage, prompt);
    ChainValue(plan, stage, prompt, |plan.roles| - 1);
    assert plan.roles[..|plan.roles|] == plan.roles;
  }

  // ----- the planner's pipeline -----

  function StageRole(index: nat): string {
    "/LLM/Pipeline/Stage/" + Decimal(index)
  }

  function StageEdge(index: nat): PlannedDependency {
    PlannedDependency(StageRole(index), StageRole(index + 1),
                      "pipeline-stage-" + Decimal(index) + "-to-" + Decimal(index + 1), ["hidden-state"])
  }

  /** The roles and dependencies the pipeline planner emits for a stage count. */
  function PipelineShape(stages: nat, session: string): Plan {
    Plan(seq(stages, i requires 0 <= i < stages => StageRole(i)),
         seq(if stages == 0 then 0 else stages - 1, i requires 0 <= i < stages => StageEdge(i)), session)
  }

  lemma StageRolePlain(index: nat)
    ensures PlainPath(StageRole(index), '_')
    ensures forall other: nat :: StageRole(other) == StageRole(index) ==> other == index
  {
    DecimalRoundTrip(index);
    var role, head := StageRole(index), "/LLM/Pipeline/Stage/";
    assert IsDigit(Decimal(index)[|Decimal(index)| - 1]);
    assert role[|role| - 1] == Decimal(index)[|Decimal(index)| - 1];
    forall p | 0 <= p < |role| ensures role[p] != '_' {
      if p >= |head| {
        assert role[p] == Decimal(index)[p - |head|];
      }
    }
    forall other: nat | StageRole(other) == role ensures other == index {
      assert Decimal(other) == StageRole(other)[|head|..] == role[|head|..] == Decimal(index);
      DecimalInjective(other, index);
    }
  }

  /** The planner's stages by number, each handing its hidden state to the next under a scope that names the two. */
  lemma PipelineShapeExactly(stages: nat, session: string)
    ensures var plan := PipelineShape(stages, session);
      && |plan.roles| == stages && |plan.edges| == (if stages == 0 then 0 else stages - 1) && plan.session == session
      && (forall i: nat :: i < stages ==> plan.roles[i] == "/LLM/Pipeline/Stage/" + Decimal(i))
      && forall i: nat :: i + 1 < stages ==>
           && plan.edges[i].producer == "/LLM/Pipeline/Stage/" + Decimal(i)
           && plan.edges[i].consumer == "/LLM/Pipeline/Stage/" + Decimal(i + 1)
           && plan.edges[i].keyScope == "pipeline-stage-" + Decimal(i) + "-to-" + Decimal(i + 1)
           && plan.edges[i].tensors == ["hidden-state"]
  {
    hide Decimal;
  }

  lemma PipelineShapeIsChain(stages: nat, session: string)
    requires stages > 0
    ensures Chain(PipelineShape(stages, session))
  {
    hide PlainPath; hide Decimal;
    var plan := PipelineShape(stages, session);
    forall i: nat | i < stages { StageRolePlain(i); }
    hide StageRole;
    forall e | e in plan.edges
      ensures IsHiddenState(e.tensors) && |e.keyScope| > 0 && exists i :: Joins(plan, e, i)
    {
      var i :| 0 <= i < stages - 1 && plan.edges[i] == e;
      assert Joins(plan, e, i);
    }
    forall i | 0 <= i < |plan.roles| - 1 ensures Linked(plan, i) {
      assert plan.edges[i] in plan.edges && Joins(plan, plan.edges[i], i);
    }
  }

  /** For every positive stage count the planned pipeline runs every stage exactly once, in
      order, and its result is the last stage's: what the smoke run checks at the end. */
  lemma PlannedPipelineRuns(stages: nat, session: string, stage: StageFunction, prompt: string)
    requires stages > 0
    ensures var run := Interpret(PipelineShape(stages, session), stage, prompt);
      && run.Returned?
      && run.final.finalRole == StageRole(stages - 1)
      && |run.final.executionOrder| == stages
      && (forall i: nat :: i < stages ==> run.final.executionOrder[i] == StageRole(i))
      && run.final.logits == Composition(stage, prompt, PipelineShape(stages, session).roles, stages - 1)
      && run.state.published == stages - 1
  {
    hide Chain; hide Interpret; hide StageRole; hide Composition;
    PipelineShapeIsChain(stages, session);
    ChainComposes(PipelineShape(stages, session), stage, prompt);
  }

  // ----- why the plain producers are needed -----

  /** A chain but for an underscore: the two producers' objects share a name, and the run fails. */
  lemma UnderscoreStopsChain(stage: StageFunction, prompt: string, session: string)
    ensures var edges := [PlannedDependency("/a/b", "/a_b", "s", ["hidden-state"]),
                          PlannedDependency("/a_b", "/c", "s", ["hidden-state"])];
      Interpret(Plan(["/a/b", "/a_b", "/c"], edges, session), stage, prompt).Failed?
  {
    var e, f := PlannedDependency("/a/b", "/a_b", "s", ["hidden-state"]), PlannedDependency("/a_b", "/c", "s", ["hidden-state"]);
    var plan := Plan(["/a/b", "/a_b", "/c"], [e, f], session);
    var line := Line(plan);
    InterpreterReturns(plan, stage, prompt);
    UnderscoreSlots(session);
    hide Interpret; hide Value; hide SlotOf; hide Fed;
    forall k: nat ensures !ReturnsAt(line, k) {}
  }

  lemma UnderscoreSlots(session: string)
    ensures var e, f := PlannedDependency("/a/b", "/a_b", "s", ["hidden-state"]), PlannedDependency("/a_b", "/c", "s", ["hidden-state"]);
      var line := Line(Plan(["/a/b", "/a_b", "/c"], [e, f], session));
      && line[0].hands.Some? && line[1].hands.Some?
      && line[0].hands.value.name == line[1].hands.value.name
  {
    var e, f := PlannedDependency("/a/b", "/a_b", "s", ["hidden-state"]), PlannedDependency("/a_b", "/c", "s", ["hidden-state"]);
    UnderscoreCollision(session, "s", ["hidden-state"]);
    assert "/a/b" != "/a_b" by { assert "/a/b"[2] != "/a_b"[2]; }
    assert [e, f][..1] == [e];
    assert Outgoing([e, f], "/a/b") == Outgoing([e], "/a/b") == Some(e);
    assert Outgoing([e, f], "/a_b") == Some(f);
    NamesAgreeExactly(session, e, f);
    NamesAgreeExactly(session, e, PlannedDependency("/a_b", "/c", "s", ["hidden-state"]));
  }
}
