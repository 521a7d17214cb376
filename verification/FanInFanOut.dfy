/** The fan-out/fan-in model: one source feeding two branches that join. An instance that meets
every hypothesis of the dataflow theorems, with a bundle that carries more than each branch needs. */
module FanInFanOut {
  import opened Outcomes
  import opened DataflowBoard
  import opened DataflowRun
  import opened DataflowMeaning

  // ----- the chunks -----

  function Shift(t: Tensor, amount: real): Tensor {
    Tensor(t.shape, seq(|t.data|, i requires 0 <= i < |t.data| => t.data[i] + amount))
  }

  function Scale(t: Tensor, factor: real): Tensor {
    Tensor(t.shape, seq(|t.data|, i requires 0 <= i < |t.data| => t.data[i] * factor))
  }

  function Add(s: Tensor, t: Tensor): Tensor {
    Tensor(s.shape, seq(if |s.data| <= |t.data| then |s.data| else |t.data|,
                        i requires 0 <= i < |s.data| && i < |t.data| => s.data[i] + t.data[i]))
  }

  function Named(v: Values, name: string): Tensor {
    if name in v then v[name] else Tensor([], [])
  }

  function SourceChunk(v: Values): Values {
    map["a" := Shift(Named(v, "x"), 1.0), "b" := Scale(Named(v, "x"), 2.0)]
  }

  function LeftChunk(v: Values): Values {
    map["left" := Scale(Named(v, "a"), 3.0)]
  }

  function RightChunk(v: Values): Values {
    map["right" := Shift(Named(v, "b"), 5.0)]
  }

  function JoinChunk(v: Values): Values {
    map["y" := Add(Named(v, "left"), Named(v, "right"))]
  }

  // ----- the roles -----

  const FANOUT := Edge(["/Source"], ["/Left", "/Right"], "source-fanout", "/activation", ["a", "b"])
  const LEFT := Edge(["/Left"], ["/Join"], "left-to-join", "/activation", ["left"])
  const RIGHT := Edge(["/Right"], ["/Join"], "right-to-join", "/activation", ["right"])

  function SourceRole(x: Tensor): Role {
    Role("/Source", [], [FANOUT], ["x"], {"a", "b"}, SourceChunk, Some(map["x" := x]))
  }

  function LeftRole(): Role {
    Role("/Left", [FANOUT], [LEFT], ["a"], {"left"}, LeftChunk, None)
  }

  function RightRole(): Role {
    Role("/Right", [FANOUT], [RIGHT], ["b"], {"right"}, RightChunk, None)
  }

  function JoinRole(): Role {
    Role("/Join", [LEFT, RIGHT], [], ["left", "right"], {"y"}, JoinChunk, None)
  }

  function ThePlan(x: Tensor): Plan {
    map["/Source" := SourceRole(x), "/Left" := LeftRole(), "/Right" := RightRole(), "/Join" := JoinRole()]
  }

  const LEFT_FIRST := ["/Source", "/Left", "/Right", "/Join"]
  const RIGHT_FIRST := ["/Source", "/Right", "/Left", "/Join"]

  // ----- its keys and links -----

  function FanoutKey(): RefKey { ReferenceKey(FANOUT, "/Source") }
  function LeftKey(): RefKey { ReferenceKey(LEFT, "/Left") }
  function RightKey(): RefKey { ReferenceKey(RIGHT, "/Right") }

  lemma KeysDiffer()
    ensures FanoutKey() != LeftKey() && FanoutKey() != RightKey() && LeftKey() != RightKey()
  {
    hide Topic;
    assert "source-fanout"[0] != "left-to-join"[0] && "source-fanout"[0] != "right-to-join"[0];
    assert "left-to-join"[0] != "right-to-join"[0];
  }

  lemma OutKeysAre(x: Tensor)
    ensures OutKeys(SourceRole(x)) == [FanoutKey()] && OutKeys(LeftRole()) == [LeftKey()]
    ensures OutKeys(RightRole()) == [RightKey()] && OutKeys(JoinRole()) == []
  {
    hide ReferenceKey;
    SingleKey(FANOUT, "/Source");
    SingleKey(LEFT, "/Left");
    SingleKey(RIGHT, "/Right");
  }

  lemma SingleKey(edge: Edge, producer: string)
    ensures KeysOf([edge], producer) == [ReferenceKey(edge, producer)]
  {
    hide ReferenceKey;
    assert [edge][1..] == [];
    assert KeysOf([edge][1..], producer) == [];
  }

  lemma SingleLink(edge: Edge, producer: string)
    requires edge.producers == [producer]
    ensures EdgeLinks(edge, edge.producers) == [Link(edge.keyScope, ReferenceKey(edge, producer))]
  {
    hide ReferenceKey;
    assert [producer][1..] == [];
    assert EdgeLinks(edge, [producer][1..]) == [];
  }

  lemma LinksAre()
    ensures Links(LeftRole()) == Ok([Link("source-fanout", FanoutKey())])
    ensures Links(RightRole()) == Ok([Link("source-fanout", FanoutKey())])
    ensures Links(JoinRole()) == Ok([Link("left-to-join", LeftKey()), Link("right-to-join", RightKey())])
  {
    hide ReferenceKey;
    SingleLink(FANOUT, "/Source");
    SingleLink(LEFT, "/Left");
    SingleLink(RIGHT, "/Right");
    hide EdgeLinks;
    assert "left-to-join"[0] != "right-to-join"[0];
    var inputs := [LEFT, RIGHT];
    assert inputs[1..] == [RIGHT] && [RIGHT][1..] == [] && [FANOUT][1..] == [];
    assert LinksFrom([FANOUT], []) == Ok([]) && LinksFrom(inputs, []) == Ok([]);
    assert FirstEdge([RIGHT], "right-to-join") == Some(RIGHT);
    assert SelectInput(inputs, "left-to-join") == Some(LEFT) && SelectInput(inputs, "right-to-join") == Some(RIGHT);
    assert LinksFrom(inputs, [RIGHT]) == Ok([Link("right-to-join", RightKey())] + []);
    assert LinksFrom(inputs, inputs) == Ok([Link("left-to-join", LeftKey())] + ([Link("right-to-join", RightKey())] + []));
    assert [Link("left-to-join", LeftKey())] + ([Link("right-to-join", RightKey())] + [])
        == [Link("left-to-join", LeftKey()), Link("right-to-join", RightKey())];
    assert LinksFrom([FANOUT], [FANOUT]) == Ok([Link("source-fanout", FanoutKey())] + []);
  }

  lemma WaitsAre(x: Tensor, key: RefKey)
    ensures !WaitsOn(SourceRole(x), key)
    ensures WaitsOn(LeftRole(), key) <==> key == FanoutKey()
    ensures WaitsOn(RightRole(), key) <==> key == FanoutKey()
    ensures WaitsOn(JoinRole(), key) <==> key == LeftKey() || key == RightKey()
  {
    hide ReferenceKey; hide Links;
    LinksAre();
    var left, right := Link("left-to-join", LeftKey()), Link("right-to-join", RightKey());
    assert left in [left, right] && right in [left, right];
    assert Link("source-fanout", FanoutKey()) in [Link("source-fanout", FanoutKey())];
  }

  // ----- what the bundles carry -----

  lemma AllAvailable(keys: set<string>, names: seq<string>)
    requires forall n :: n in names ==> n != "" && n in keys
    ensures Requested(names) == names && Resolvable(keys, names) == names
  {
    hide Resolve;
    if names != [] {
      assert names == [names[0]] + names[1..];
      forall n | n in names[1..] ensures n in names {}
      assert names[0] in names;
      AllAvailable(keys, names[1..]);
    }
  }

  lemma AvailableAre()
    ensures Available({"a", "b"}, FANOUT.tensors) == ["a", "b"]
    ensures Available({"left"}, LEFT.tensors) == ["left"] && Available({"right"}, RIGHT.tensors) == ["right"]
  {
    AllAvailable({"a", "b"}, ["a", "b"]);
    AllAvailable({"left"}, ["left"]);
    AllAvailable({"right"}, ["right"]);
  }

  lemma CarriedAre(x: Tensor)
    ensures Carried(SourceRole(x), 0) == {"a", "b"}
    ensures Carried(LeftRole(), 0) == {"left"} && Carried(RightRole(), 0) == {"right"}
    ensures Publishable({"a", "b"}, FANOUT) && Publishable({"left"}, LEFT) && Publishable({"right"}, RIGHT)
  {
    AvailableAre();
    hide Available; hide Resolve;
    assert SelectNames({"a", "b"}, ["a", "b"]) == {"a", "b"};
    assert SelectNames({"left"}, ["left"]) == {"left"};
    assert SelectNames({"right"}, ["right"]) == {"right"};
  }

  // ----- the hypotheses of the theorems -----

  lemma NamesDiffer()
    ensures "a" != "b" && "a" != "left" && "a" != "right" && "a" != "y" && "a" != "x"
    ensures "b" != "left" && "b" != "right" && "b" != "y" && "b" != "x"
    ensures "left" != "right" && "left" != "y" && "right" != "y" && "x" != "y" && "x" != "left" && "x" != "right"
    ensures "/Source" != "/Left" && "/Source" != "/Right" && "/Source" != "/Join"
    ensures "/Left" != "/Right" && "/Left" != "/Join" && "/Right" != "/Join"
  {
    assert "a"[0] != "b"[0] && "a"[0] != "y"[0] && "a"[0] != "x"[0] && "b"[0] != "y"[0] && "b"[0] != "x"[0] && "x"[0] != "y"[0];
    assert "/Left"[1] != "/Join"[1];
  }

  lemma PlanIsDistinct(x: Tensor)
    ensures DistinctKeys(ThePlan(x))
  {
    hide OutKeys; hide FanoutKey; hide LeftKey; hide RightKey;
    NamesDiffer();
    KeysDiffer();
    OutKeysAre(x);
  }

  lemma PlanIsHonest(x: Tensor)
    ensures HonestChunks(ThePlan(x)) && SingleProducer(ThePlan(x), map["x" := x])
  {
    NamesDiffer();
    hide Shift; hide Scale; hide Add; hide Named;
  }

  /** Only the role that produces the name delivers it. */
  lemma FedByProducer(x: Tensor, m: string, n: string, f: string)
    requires m in ThePlan(x) && n in ThePlan(x) && f in ThePlan(x)[m].produces && Delivers(ThePlan(x), m, 0, n, f)
    requires forall p, i: nat :: p in ThePlan(x) && Delivers(ThePlan(x), p, i, n, f) ==> f in ThePlan(x)[p].produces
    ensures exists s :: FedFrom(ThePlan(x), n, map["x" := x], f, s)
  {
    hide ThePlan; hide Delivers;
    FedPlainly(ThePlan(x), n, map["x" := x], f);
  }

  lemma PlanIsFed(x: Tensor, n: string)
    requires n in ThePlan(x)
    ensures FedByName(ThePlan(x), n, map["x" := x])
  {
    hide OutKeys; hide FanoutKey; hide LeftKey; hide RightKey; hide WaitsOn; hide Carried; hide FedFrom; hide StandsFor;
    NamesDiffer();
    KeysDiffer();
    OutKeysAre(x);
    CarriedAre(x);
    forall key { WaitsAre(x, key); }
    if n == "/Source" {
      assert Resolve({"x"}, "x") == Some("x");
      assert StandsFor(ThePlan(x), map["x" := x], "x", "x") by { ItsOwn(x, "x"); }
    } else if n == "/Left" {
      FedByProducer(x, "/Source", n, "a");
    } else if n == "/Right" {
      FedByProducer(x, "/Source", n, "b");
    } else {
      FedByProducer(x, "/Left", n, "left");
      FedByProducer(x, "/Right", n, "right");
    }
  }

  lemma ItsOwn(x: Tensor, f: string)
    ensures StandsFor(ThePlan(x), map["x" := x], f, f)
  {
    hide ThePlan;
  }

  lemma PlanIsLegal(x: Tensor)
    ensures Legal(ThePlan(x), LEFT_FIRST) && Legal(ThePlan(x), RIGHT_FIRST)
  {
    NamesDiffer();
    BranchesLegal(x, "/Left", "/Right");
    BranchesLegal(x, "/Right", "/Left");
  }

  /** Each role of an order waits only on what the roles before it publish. */
  lemma LegalAt(x: Tensor, n: string, before: seq<string>, key: RefKey)
    requires n in ThePlan(x) && WaitsOn(ThePlan(x)[n], key)
    requires n == "/Left" || n == "/Right" ==> "/Source" in before
    requires n == "/Join" ==> "/Left" in before && "/Right" in before
    ensures Publishes(ThePlan(x), before, key)
  {
    hide FanoutKey; hide LeftKey; hide RightKey; hide WaitsOn; hide Publishes; hide ThePlan;
    hide SourceRole; hide LeftRole; hide RightRole; hide JoinRole;
    RolesAre(x);
    PublishedAfter(x, before);
    WaitsAre(x, key);
  }

  /** The source, the two branches either way round, and the join. */
  lemma BranchesLegal(x: Tensor, first: string, second: string)
    requires (first == "/Left" && second == "/Right") || (first == "/Right" && second == "/Left")
    ensures Legal(ThePlan(x), ["/Source", first, second, "/Join"])
  {
    hide ThePlan; hide WaitsOn; hide Publishes;
    var plan, order := ThePlan(x), ["/Source", first, second, "/Join"];
    NamesDiffer();
    RolesAre(x);
    hide SourceRole; hide LeftRole; hide RightRole; hide JoinRole;
    assert "/Source" in order[..1] && "/Source" in order[..2] && first in order[..3] && second in order[..3] by {
      assert order[..1][0] == "/Source" && order[..2][0] == "/Source" && order[..3][1] == first && order[..3][2] == second;
    }
    forall p, key | 0 <= p < 4 && WaitsOn(plan[order[p]], key) ensures Publishes(plan, order[..p], key) {
      LegalAt(x, order[p], order[..p], key);
    }
  }

  lemma RolesAre(x: Tensor)
    ensures ThePlan(x).Keys == {"/Source", "/Left", "/Right", "/Join"}
    ensures ThePlan(x)["/Source"] == SourceRole(x) && ThePlan(x)["/Left"] == LeftRole()
    ensures ThePlan(x)["/Right"] == RightRole() && ThePlan(x)["/Join"] == JoinRole()
  {
    NamesDiffer();
    hide SourceRole; hide LeftRole; hide RightRole; hide JoinRole;
  }

  lemma PublishedAfter(x: Tensor, order: seq<string>)
    ensures "/Source" in order ==> Publishes(ThePlan(x), order, FanoutKey())
    ensures "/Left" in order ==> Publishes(ThePlan(x), order, LeftKey())
    ensures "/Right" in order ==> Publishes(ThePlan(x), order, RightKey())
  {
    hide FanoutKey; hide LeftKey; hide RightKey; hide OutKeys;
    NamesDiffer();
    OutKeysAre(x);
  }

  // ----- the run -----

  function FanoutNames(): NameBoard {
    map[FanoutKey() := {"a", "b"}]
  }

  function BranchNames(): NameBoard {
    FanoutNames()[LeftKey() := {"left"}][RightKey() := {"right"}]
  }

  lemma OneBundle(nb: NameBoard, role: Role, key: RefKey, edge: Edge)
    requires role.initial.None? && role.inputs == [edge] && Links(role) == Ok([Link(edge.keyScope, key)])
    requires key in nb && edge.tensors != [] && forall n :: n in edge.tensors ==> n != "" && n in nb[key]
    ensures GatherNames(nb, role) == Some(nb[key])
  {
    hide Resolve; hide Links;
    AllAvailable(nb[key], edge.tensors);
    assert LastEdge([edge], edge.keyScope) == Some(edge);
    assert [Link(edge.keyScope, key)][1..] == [];
    assert MergeNames(nb, [edge], [], {} + nb[key]) == Some({} + nb[key]);
    assert {} + nb[key] == nb[key];
    CoveredOne(nb[key], edge);
  }

  lemma CoveredOne(keys: set<string>, edge: Edge)
    requires forall n :: n in edge.tensors ==> n != "" && n in keys
    ensures Covered(keys, [edge])
  {
    AllAvailable(keys, edge.tensors);
  }

  lemma SourceStep(x: Tensor)
    ensures StepNames(map[], SourceRole(x)) == Some(FanoutNames())
  {
    hide Publishable; hide Carried; hide FanoutKey; hide OutKeys;
    OutKeysAre(x);
    CarriedAre(x);
    var none: NameBoard := map[];
    assert Feedable({"x"}, ["x"]);
    var v: Values := map["x" := x];
    assert v.Keys == {"x"};
    assert PublishNames(none, SourceRole(x), [FanoutKey()], 0) == none;
    assert PublishNames(none, SourceRole(x), [FanoutKey()], 1) == FanoutNames();
  }

  lemma LeftStep(x: Tensor)
    ensures StepNames(FanoutNames(), LeftRole()) == Some(FanoutNames()[LeftKey() := {"left"}])
  {
    hide Publishable; hide Carried; hide FanoutKey; hide LeftKey; hide OutKeys; hide GatherNames;
    OutKeysAre(x);
    CarriedAre(x);
    LinksAre();
    OneBundle(FanoutNames(), LeftRole(), FanoutKey(), FANOUT);
    assert Feedable({"a", "b"}, ["a"]);
    assert PublishNames(FanoutNames(), LeftRole(), [LeftKey()], 0) == FanoutNames();
    assert PublishNames(FanoutNames(), LeftRole(), [LeftKey()], 1) == FanoutNames()[LeftKey() := {"left"}];
  }

  lemma RightStep(x: Tensor)
    ensures StepNames(FanoutNames()[LeftKey() := {"left"}], RightRole()) == Some(BranchNames())
  {
    hide Publishable; hide Carried; hide FanoutKey; hide LeftKey; hide RightKey; hide OutKeys; hide GatherNames;
    KeysDiffer();
    OutKeysAre(x);
    CarriedAre(x);
    LinksAre();
    var nb := FanoutNames()[LeftKey() := {"left"}];
    OneBundle(nb, RightRole(), FanoutKey(), FANOUT);
    assert Feedable({"a", "b"}, ["b"]);
    assert PublishNames(nb, RightRole(), [RightKey()], 0) == nb;
    assert PublishNames(nb, RightRole(), [RightKey()], 1) == BranchNames();
  }

  lemma JoinGathers()
    ensures GatherNames(BranchNames(), JoinRole()) == Some({"left", "right"})
  {
    hide FanoutKey; hide LeftKey; hide RightKey; hide Links; hide Available; hide Resolve;
    KeysDiffer();
    LinksAre();
    AvailableAre();
    assert "left-to-join"[0] != "right-to-join"[0];
    var inputs := [LEFT, RIGHT];
    assert inputs[..1] == [LEFT];
    assert LastEdge([LEFT], "left-to-join") == Some(LEFT);
    assert LastEdge(inputs, "left-to-join") == Some(LEFT) && LastEdge(inputs, "right-to-join") == Some(RIGHT);
    var nb := BranchNames();
    var l, r := Link("left-to-join", LeftKey()), Link("right-to-join", RightKey());
    assert [l, r][1..] == [r] && [r][1..] == [];
    assert nb[LeftKey()] == {"left"} && nb[RightKey()] == {"right"};
    assert {} + {"left"} == {"left"} && {"left"} + {"right"} == {"left", "right"};
    assert MergeNames(nb, inputs, [], {"left"} + {"right"}) == Some({"left", "right"});
    assert MergeNames(nb, inputs, [r], {"left"}) == MergeNames(nb, inputs, [], {"left"} + {"right"});
    assert MergeNames(nb, inputs, [l, r], {}) == MergeNames(nb, inputs, [r], {} + {"left"});
    AllAvailable({"left", "right"}, ["left"]);
    AllAvailable({"left", "right"}, ["right"]);
    assert Covered({"left", "right"}, inputs);
  }

  lemma JoinStep(x: Tensor)
    ensures StepNames(BranchNames(), JoinRole()) == Some(BranchNames())
  {
    hide GatherNames; hide BranchNames; hide OutKeys;
    OutKeysAre(x);
    JoinGathers();
    assert Feedable({"left", "right"}, ["left", "right"]);
  }

  lemma PlanCompletes(x: Tensor)
    ensures RunOrder(ThePlan(x), LEFT_FIRST).Ok?
  {
    hide StepNames; hide FanoutNames; hide BranchNames; hide LeftKey; hide RunOrder;
    NamesDiffer();
    var plan, order := ThePlan(x), LEFT_FIRST;
    assert order[..3][..2] == order[..2] && order[..2][..1] == order[..1] && order[..1][..0] == [];
    SourceStep(x);
    LeftStep(x);
    RightStep(x);
    JoinStep(x);
    assert CheckOrder(plan, []) == Some(map[]);
    assert CheckOrder(plan, order[..1]) == Some(FanoutNames());
    assert CheckOrder(plan, order[..2]) == Some(FanoutNames()[LeftKey() := {"left"}]);
    assert CheckOrder(plan, order[..3]) == Some(BranchNames());
    PlanIsHonest(x);
    CompletesExactlyWhenChecked(plan, order);
  }

  // ----- the result -----

  /** What the undivided model computes. */
  function Expected(x: Tensor): Tensor {
    Add(Scale(Shift(x, 1.0), 3.0), Shift(Scale(x, 2.0), 5.0))
  }

  lemma FeedNamed(values: Values, feeds: seq<string>)
    requires forall f :: f in feeds ==> f in values
    ensures Feedable(values.Keys, feeds)
    ensures forall f :: f in feeds ==> f in Feed(values, feeds) && Feed(values, feeds)[f] == values[f]
  {
  }

  /** One role of the undivided model. */
  lemma WholeStep(plan: Plan, order: seq<string>, inputs: Values, env: Values, n: string)
    requires (forall m :: m in order ==> m in plan) && n in plan
    requires WholeModel(plan, order, inputs) == Some(env) && forall f :: f in plan[n].feeds ==> f in env
    ensures WholeModel(plan, order + [n], inputs) == Some(env + plan[n].chunk(Feed(env, plan[n].feeds)))
    ensures forall f :: f in plan[n].feeds ==> f in Feed(env, plan[n].feeds) && Feed(env, plan[n].feeds)[f] == env[f]
  {
    FeedNamed(env, plan[n].feeds);
    assert (order + [n])[..|order|] == order;
  }

  lemma OneFeed(values: Values, f: string)
    requires f in values
    ensures Feedable(values.Keys, [f]) && Feed(values, [f]) == map[f := values[f]]
  {
    FeedNamed(values, [f]);
  }

  function Inputs(x: Tensor): Values {
    map["x" := x]
  }

  /** What the undivided model holds after the source, and after each branch. */
  function AfterSource(x: Tensor): Values {
    map["x" := x, "a" := Shift(x, 1.0), "b" := Scale(x, 2.0)]
  }

  function AfterLeft(x: Tensor): Values {
    AfterSource(x)["left" := Scale(Shift(x, 1.0), 3.0)]
  }

  function AfterRight(x: Tensor): Values {
    AfterLeft(x)["right" := Shift(Scale(x, 2.0), 5.0)]
  }

  lemma SourceHolds(x: Tensor)
    ensures WholeModel(ThePlan(x), [] + ["/Source"], Inputs(x)) == Some(AfterSource(x))
  {
    hide Shift; hide Scale; hide Feed; hide WholeModel; hide ThePlan; hide Resolve;
    NamesDiffer();
    RolesAre(x);
    WholeNone(ThePlan(x), Inputs(x));
    OneFeed(Inputs(x), "x");
    WholeStep(ThePlan(x), [], Inputs(x), Inputs(x), "/Source");
    assert Inputs(x) + SourceChunk(map["x" := x]) == AfterSource(x);
  }

  lemma LeftHolds(x: Tensor)
    ensures WholeModel(ThePlan(x), [] + ["/Source"] + ["/Left"], Inputs(x)) == Some(AfterLeft(x))
  {
    hide Shift; hide Scale; hide Feed; hide WholeModel; hide ThePlan; hide Resolve; hide Inputs;
    NamesDiffer();
    RolesAre(x);
    SourceHolds(x);
    OneFeed(AfterSource(x), "a");
    WholeStep(ThePlan(x), [] + ["/Source"], Inputs(x), AfterSource(x), "/Left");
    assert AfterSource(x) + LeftChunk(map["a" := Shift(x, 1.0)]) == AfterLeft(x);
  }

  lemma RightHolds(x: Tensor)
    ensures WholeModel(ThePlan(x), [] + ["/Source"] + ["/Left"] + ["/Right"], Inputs(x)) == Some(AfterRight(x))
  {
    hide Shift; hide Scale; hide Feed; hide WholeModel; hide ThePlan; hide Resolve; hide Inputs;
    NamesDiffer();
    RolesAre(x);
    LeftHolds(x);
    OneFeed(AfterLeft(x), "b");
    WholeStep(ThePlan(x), [] + ["/Source"] + ["/Left"], Inputs(x), AfterLeft(x), "/Right");
    assert AfterLeft(x) + RightChunk(map["b" := Scale(x, 2.0)]) == AfterRight(x);
  }

  lemma WholeModelIs(x: Tensor)
    ensures WholeModel(ThePlan(x), LEFT_FIRST, map["x" := x]).Some?
    ensures var env := WholeModel(ThePlan(x), LEFT_FIRST, map["x" := x]).value; "y" in env && env["y"] == Expected(x)
  {
    hide Shift; hide Scale; hide Add; hide Feed; hide WholeModel; hide ThePlan;
    NamesDiffer();
    RolesAre(x);
    RightHolds(x);
    WholeStep(ThePlan(x), [] + ["/Source"] + ["/Left"] + ["/Right"], Inputs(x), AfterRight(x), "/Join");
    assert LEFT_FIRST == [] + ["/Source"] + ["/Left"] + ["/Right"] + ["/Join"];
  }

  lemma WholeNone(plan: Plan, inputs: Values)
    ensures WholeModel(plan, [], inputs) == Some(inputs)
  {
  }

  /** Both orders of the branches complete, leave the same outputs and the same board, and give the
      joined tensor of the undivided model, for every input. */
  lemma BothOrdersCompute(x: Tensor)
    ensures var plan := ThePlan(x);
      && RunOrder(plan, LEFT_FIRST).Ok? && RunOrder(plan, RIGHT_FIRST) == RunOrder(plan, LEFT_FIRST)
      && var outs := RunOrder(plan, LEFT_FIRST).value.outs;
         "/Join" in outs && "y" in outs["/Join"] && outs["/Join"]["y"] == Expected(x)
  {
    hide DistinctKeys; hide HonestChunks; hide SingleProducer; hide FedByName; hide Legal; hide RunOrder; hide WholeModel; hide Expected;
    NamesDiffer();
    var plan := ThePlan(x);
    PlanIsDistinct(x);
    PlanIsHonest(x);
    PlanIsLegal(x);
    PlanCompletes(x);
    ScheduleIndependence(plan, LEFT_FIRST, RIGHT_FIRST);
    forall n | n in LEFT_FIRST ensures n in plan && FedByName(plan, n, map["x" := x]) {
      PlanIsFed(x, n);
    }
    MeaningPreserved(plan, LEFT_FIRST, map["x" := x]);
    WholeModelIs(x);
    assert "/Join" in LEFT_FIRST by { assert LEFT_FIRST[3] == "/Join"; }
    assert "y" in plan["/Join"].produces;
  }
}
