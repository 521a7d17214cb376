/** Splitting a model into roles preserves its meaning.

The reference is the undivided model: one environment of tensors, every chunk reading the
names it feeds on and adding the names it produces. It knows no edges, keys or bundles. */
module DataflowMeaning {
  import opened Outcomes
  import opened DataflowBoard
  import opened DataflowRun

  function WholeModel(plan: Plan, order: seq<string>, inputs: Values): Option<Values>
    requires forall n :: n in order ==> n in plan
  {
    if order == [] then Some(inputs)
    else
      var role := plan[order[|order| - 1]];
      match WholeModel(plan, order[..|order| - 1], inputs)
      case None => None
      case Some(env) =>
        if Feedable(env.Keys, role.feeds) then Some(env + role.chunk(Feed(env, role.feeds))) else None
  }

  /** Every chunk yields exactly its declared outputs. */
  ghost predicate HonestChunks(plan: Plan) {
    forall n, v: Values :: n in plan ==> plan[n].chunk(v).Keys == plan[n].produces
  }

  /** Tensor names identify one producer: no two roles, and no model input, share a name. */
  ghost predicate SingleProducer(plan: Plan, inputs: Values) {
    && (forall n :: n in plan ==> plan[n].produces !! inputs.Keys)
    && (forall m, n :: m in plan && n in plan && m != n ==> plan[m].produces !! plan[n].produces)
  }

  /** The names in the bundle a role publishes over its i-th output edge. */
  function Carried(role: Role, i: nat): set<string>
    requires i < |role.outputs|
  {
    SelectNames(role.produces, Available(role.produces, role.outputs[i].tensors))
  }

  /** m's i-th publication reaches n and carries the name f. */
  ghost predicate Delivers(plan: Plan, m: string, i: nat, n: string, f: string)
    requires m in plan && n in plan
  {
    i < |plan[m].outputs| && WaitsOn(plan[n], OutKeys(plan[m])[i]) && f in Carried(plan[m], i)
  }

  /** No role produces the name and no model input has it. */
  ghost predicate Unused(plan: Plan, inputs: Values, f: string) {
    f !in inputs && forall m :: m in plan ==> f !in plan[m].produces
  }

  /** The name stands for that tensor: its own, or, when no tensor has the name, that of its base. */
  ghost predicate StandsFor(plan: Plan, inputs: Values, f: string, s: string) {
    f == s || (Resolve({s}, f) == Some(s) && Unused(plan, inputs, f))
  }

  ghost predicate Delivered(plan: Plan, n: string, f: string)
    requires n in plan
  {
    exists m, i: nat :: m in plan && Delivers(plan, m, i, n, f)
  }

  /** The name reaches n, and whoever delivers it took it from that tensor. */
  ghost predicate Reaches(plan: Plan, n: string, f: string, s: string)
    requires n in plan
  {
    && Delivered(plan, n, f)
    && (forall m, i: nat :: m in plan && Delivers(plan, m, i, n, f) ==> Resolve(plan[m].produces, f) == Some(s))
  }

  /** The feed stands for that tensor, which reaches n under the feed's name or, failing that, its own. */
  ghost predicate FedFrom(plan: Plan, n: string, inputs: Values, f: string, s: string)
    requires n in plan
  {
    && StandsFor(plan, inputs, f, s)
    && (Reaches(plan, n, f, s) || (f != s && !Delivered(plan, n, f) && Reaches(plan, n, s, s)))
  }

  /** Each name a role feeds on resolves, in what reaches the role, to the tensor it stands for.
      Bundles may carry any other names besides. */
  ghost predicate FedByName(plan: Plan, n: string, inputs: Values)
    requires n in plan
  {
    match plan[n].initial
    case Some(v) =>
      forall f :: f in plan[n].feeds ==> exists g, s ::
        Resolve(v.Keys, f) == Some(g) && s in inputs && StandsFor(plan, inputs, f, s) && v[g] == inputs[s]
    case None => forall f :: f in plan[n].feeds ==> exists s :: FedFrom(plan, n, inputs, f, s)
  }

  /** In particular, a feed may reach n under the very name its producer gave it. */
  lemma FedPlainly(plan: Plan, n: string, inputs: Values, f: string)
    requires n in plan && Delivered(plan, n, f)
    requires forall m, i: nat :: m in plan && Delivers(plan, m, i, n, f) ==> f in plan[m].produces
    ensures FedFrom(plan, n, inputs, f, f)
  {
    hide Delivers;
  }

  // ----- bundles -----

  lemma {:induction false} BundlesAt(outputs: Values, edges: seq<Edge>, i: nat)
    requires i < |edges|
    ensures Bundles(outputs, edges)[i] == Bundle(outputs, edges[i])
  {
    if i > 0 {
      BundlesAt(outputs, edges[1..], i - 1);
    }
  }

  lemma BundleContent(outputs: Values, edge: Edge)
    requires Bundle(outputs, edge).Some?
    ensures var bundle := Bundle(outputs, edge).value;
      && bundle.Keys == SelectNames(outputs.Keys, Available(outputs.Keys, edge.tensors))
      && forall f :: f in bundle ==> Resolve(outputs.Keys, f).Some? && bundle[f] == outputs[Resolve(outputs.Keys, f).value]
  {
    ResolvableResolves(outputs.Keys, Requested(edge.tensors));
  }

  /** A merged value is the value every contributing bundle agrees on. */
  lemma {:induction false} MergeValue(board: Board, inputs: seq<Edge>, links: seq<Link>, values: Values, f: string, x: Tensor)
    requires Merge(board, inputs, links, values).Ok?
    requires forall l :: l in links && l.key in board && f in board[l.key] ==> board[l.key][f] == x
    requires f in values ==> values[f] == x
    requires f in values || exists l :: l in links && l.key in board && f in board[l.key]
    ensures f in Merge(board, inputs, links, values).value
    ensures Merge(board, inputs, links, values).value[f] == x
    decreases |links|
  {
    if links != [] {
      MergeValue(board, inputs, links[1..], values + board[links[0].key], f, x);
    }
  }

  lemma {:induction false} MergeKeys(board: Board, inputs: seq<Edge>, links: seq<Link>, values: Values, f: string)
    requires Merge(board, inputs, links, values).Ok? && f in Merge(board, inputs, links, values).value
    ensures f in values || exists l :: l in links && l.key in board && f in board[l.key]
    decreases |links|
  {
    if links != [] {
      MergeKeys(board, inputs, links[1..], values + board[links[0].key], f);
    }
  }

  // ----- meaning preservation -----

  /** Outputs and environment agree on every tensor the roles of `order` produced. */
  ghost predicate Matches(plan: Plan, order: seq<string>, outs: map<string, Values>, inputs: Values, env: Values)
    requires forall n :: n in order ==> n in plan
  {
    && (forall f :: f in inputs ==> f in env && env[f] == inputs[f])
    && (forall n :: n in order ==> n in outs && outs[n].Keys == plan[n].produces)
    && (forall n, f :: n in order && f in plan[n].produces ==> f in env && env[f] == outs[n][f])
  }

  /** What lies under a settled role's i-th key: the carried names, with the role's values. */
  lemma HeldBundle(board: Board, role: Role, outputs: Values, i: nat)
    requires i < |role.outputs| && outputs.Keys == role.produces
    requires Holds(board, OutKeys(role), Bundles(outputs, role.outputs))
    ensures OutKeys(role)[i] in board
    ensures var bundle := board[OutKeys(role)[i]];
      && bundle.Keys == Carried(role, i)
      && forall f :: f in bundle ==> Resolve(outputs.Keys, f).Some? && bundle[f] == outputs[Resolve(outputs.Keys, f).value]
  {
    BundlesAt(outputs, role.outputs, i);
    BundleContent(outputs, role.outputs[i]);
  }

  ghost predicate AllHeld(plan: Plan, order: seq<string>, run: Run)
    requires forall n :: n in order ==> n in plan
  {
    && (forall key :: key in run.board <==> Publishes(plan, order, key))
    && (forall n :: n in order ==> n in run.outs && Holds(run.board, OutKeys(plan[n]), Bundles(run.outs[n], plan[n].outputs)))
  }

  /** A bundle on the board that n waits on was delivered to it by a role that has run. */
  lemma BundleDelivers(plan: Plan, order: seq<string>, run: Run, inputs: Values, env: Values, n: string, f: string, key: RefKey)
    returns (m: string, i: nat)
    requires forall p :: p in order ==> p in plan
    requires n in plan && AllHeld(plan, order, run) && Matches(plan, order, run.outs, inputs, env)
    requires WaitsOn(plan[n], key) && key in run.board && f in run.board[key]
    ensures m in order && m in plan && Delivers(plan, m, i, n, f)
    ensures Resolve(plan[m].produces, f).Some? && m in run.outs && run.outs[m].Keys == plan[m].produces
    ensures run.board[key][f] == run.outs[m][Resolve(plan[m].produces, f).value]
  {
    hide WaitsOn; hide OutKeys; hide Holds; hide Carried; hide Bundles; hide Resolve;
    assert Publishes(plan, order, key);
    m :| m in order && m in plan && key in OutKeys(plan[m]);
    i :| 0 <= i < |plan[m].outputs| && OutKeys(plan[m])[i] == key;
    HeldBundle(run.board, plan[m], run.outs[m], i);
  }

  /** A bundle on the board that carries a name reaching n carries the environment's value. */
  lemma BundleOnBoard(plan: Plan, order: seq<string>, run: Run, inputs: Values, env: Values,
                      n: string, f: string, s: string, key: RefKey)
    requires forall p :: p in order ==> p in plan
    requires n in plan && Reaches(plan, n, f, s)
    requires AllHeld(plan, order, run) && Matches(plan, order, run.outs, inputs, env)
    requires WaitsOn(plan[n], key) && key in run.board && f in run.board[key]
    ensures s in env && run.board[key][f] == env[s]
  {
    hide AllHeld; hide Matches; hide Reaches; hide Delivers; hide WaitsOn; hide Resolve;
    var m, i := BundleDelivers(plan, order, run, inputs, env, n, f, key);
    ReachesFrom(plan, n, f, s, m, i);
    MatchesAt(plan, order, run.outs, inputs, env, m, s);
  }

  lemma ReachesFrom(plan: Plan, n: string, f: string, s: string, m: string, i: nat)
    requires n in plan && m in plan && Reaches(plan, n, f, s) && Delivers(plan, m, i, n, f)
    ensures Resolve(plan[m].produces, f) == Some(s) && s in plan[m].produces
  {
    hide Delivers; hide Resolve;
  }

  lemma MatchesAt(plan: Plan, order: seq<string>, outs: map<string, Values>, inputs: Values, env: Values, m: string, s: string)
    requires forall p :: p in order ==> p in plan
    requires Matches(plan, order, outs, inputs, env) && m in order && s in plan[m].produces
    ensures m in outs && s in outs[m] && s in env && env[s] == outs[m][s]
  {
  }

  /** The bundle that delivers a feed is on the board and carries it. */
  lemma DeliveredBundle(plan: Plan, order: seq<string>, run: Run, m: string, i: nat, n: string, f: string)
    requires forall p :: p in order ==> p in plan
    requires m in plan && n in plan && DistinctKeys(plan) && Delivers(plan, m, i, n, f)
    requires AllHeld(plan, order, run) && forall p :: p in order ==> run.outs[p].Keys == plan[p].produces
    requires forall key :: WaitsOn(plan[n], key) ==> key in run.board
    ensures f in run.board[OutKeys(plan[m])[i]]
  {
    hide WaitsOn; hide OutKeys; hide Holds; hide Carried;
    var key := OutKeys(plan[m])[i];
    assert Publishes(plan, order, key);
    var p :| p in order && p in plan && key in OutKeys(plan[p]);
    assert key in OutKeys(plan[m]);
    assert p == m;
    HeldBundle(run.board, plan[m], run.outs[m], i);
  }

  /** A name that reaches n is gathered with the environment's value of the tensor it was taken from. */
  lemma GatheredName(plan: Plan, order: seq<string>, run: Run, inputs: Values, env: Values, n: string, f: string, s: string)
    requires forall p :: p in order ==> p in plan
    requires n in plan && plan[n].initial.None? && DistinctKeys(plan) && Reaches(plan, n, f, s)
    requires AllHeld(plan, order, run) && Matches(plan, order, run.outs, inputs, env)
    requires forall key :: WaitsOn(plan[n], key) ==> key in run.board
    requires Gather(run.board, plan[n]).Ok?
    ensures f in Gather(run.board, plan[n]).value && s in env && Gather(run.board, plan[n]).value[f] == env[s]
  {
    hide DistinctKeys; hide AllHeld; hide OutKeys; hide Links; hide Covered; hide Matches; hide Resolve;
    var role := plan[n];
    var links := Links(role).value;
    forall l | l in links && f in run.board[l.key]
      ensures s in env && run.board[l.key][f] == env[s]
    {
      assert WaitsOn(role, l.key);
      BundleOnBoard(plan, order, run, inputs, env, n, f, s, l.key);
    }
    var m, i: nat :| m in plan && Delivers(plan, m, i, n, f);
    var key := OutKeys(plan[m])[i];
    MatchesKeys(plan, order, run, inputs, env);
    DeliveredBundle(plan, order, run, m, i, n, f);
    var l :| l in links && l.key == key;
    assert s in env && run.board[key][f] == env[s];
    MergeValue(run.board, role.inputs, links, map[], f, env[s]);
  }

  /** Nothing is gathered that was not delivered. */
  lemma GatheredDelivered(plan: Plan, order: seq<string>, run: Run, inputs: Values, env: Values, n: string, f: string)
    requires forall p :: p in order ==> p in plan
    requires n in plan && plan[n].initial.None?
    requires AllHeld(plan, order, run) && Matches(plan, order, run.outs, inputs, env)
    requires Gather(run.board, plan[n]).Ok? && f in Gather(run.board, plan[n]).value
    ensures Delivered(plan, n, f)
  {
    hide AllHeld; hide OutKeys; hide Links; hide Covered; hide Matches; hide Carried; hide Resolve;
    var links := Links(plan[n]).value;
    MergeKeys(run.board, plan[n].inputs, links, map[], f);
    var l :| l in links && l.key in run.board && f in run.board[l.key];
    assert WaitsOn(plan[n], l.key);
    var m, i := BundleDelivers(plan, order, run, inputs, env, n, f, l.key);
  }

  /** The undivided model adds no names but those the roles produce. */
  lemma {:induction false} WholeNames(plan: Plan, order: seq<string>, inputs: Values, f: string)
    requires HonestChunks(plan) && (forall p :: p in order ==> p in plan) && Unused(plan, inputs, f)
    requires WholeModel(plan, order, inputs).Some?
    ensures f !in WholeModel(plan, order, inputs).value
  {
    if order != [] {
      hide Feedable; hide Feed;
      WholeNames(plan, order[..|order| - 1], inputs, f);
    }
  }

  lemma BaseResolves(keys: set<string>, f: string, s: string)
    requires f !in keys && s in keys && Resolve({s}, f) == Some(s)
    ensures Resolve(keys, f) == Some(s)
  {
  }

  /** A feed resolves among what is gathered, and in the environment, to the same value. */
  ghost predicate SameValue(values: Values, env: Values, f: string) {
    var g, s := Resolve(values.Keys, f), Resolve(env.Keys, f);
    g.Some? && s.Some? && values[g.value] == env[s.value]
  }

  lemma StandsInWhole(plan: Plan, order: seq<string>, inputs: Values, f: string, s: string)
    requires HonestChunks(plan) && (forall p :: p in order ==> p in plan) && StandsFor(plan, inputs, f, s)
    requires WholeModel(plan, order, inputs).Some? && s in WholeModel(plan, order, inputs).value
    ensures Resolve(WholeModel(plan, order, inputs).value.Keys, f) == Some(s)
  {
    var env := WholeModel(plan, order, inputs).value;
    if f != s {
      WholeNames(plan, order, inputs, f);
      hide WholeModel;
      BaseResolves(env.Keys, f, s);
    }
  }

  lemma GatheredFeed(plan: Plan, order: seq<string>, run: Run, inputs: Values, n: string, f: string)
    requires forall p :: p in order ==> p in plan
    requires n in plan && f in plan[n].feeds
    requires HonestChunks(plan) && DistinctKeys(plan) && FedByName(plan, n, inputs) && WholeModel(plan, order, inputs).Some?
    requires AllHeld(plan, order, run) && Matches(plan, order, run.outs, inputs, WholeModel(plan, order, inputs).value)
    requires forall key :: WaitsOn(plan[n], key) ==> key in run.board
    requires Gather(run.board, plan[n]).Ok?
    ensures SameValue(Gather(run.board, plan[n]).value, WholeModel(plan, order, inputs).value, f)
  {
    hide DistinctKeys; hide AllHeld; hide OutKeys; hide Links; hide Covered; hide Matches; hide WholeModel; hide HonestChunks; hide Reaches;
    hide Delivered; hide Resolve;
    var env := WholeModel(plan, order, inputs).value;
    if plan[n].initial.None? {
      var values := Gather(run.board, plan[n]).value;
      hide Gather;
      var s :| FedFrom(plan, n, inputs, f, s);
      if Reaches(plan, n, f, s) {
        GatheredName(plan, order, run, inputs, env, n, f, s);
      } else {
        GatheredName(plan, order, run, inputs, env, n, s, s);
        if f in values {
          GatheredDelivered(plan, order, run, inputs, env, n, f);
          assert false;
        }
        BaseResolves(values.Keys, f, s);
      }
      StandsInWhole(plan, order, inputs, f, s);
    } else {
      var v := plan[n].initial.value;
      var g, s :| Resolve(v.Keys, f) == Some(g) && s in inputs && StandsFor(plan, inputs, f, s) && v[g] == inputs[s];
      MatchesInputs(plan, order, run, inputs, env, s);
      StandsInWhole(plan, order, inputs, f, s);
    }
  }

  lemma MatchesKeys(plan: Plan, order: seq<string>, run: Run, inputs: Values, env: Values)
    requires forall p :: p in order ==> p in plan
    requires Matches(plan, order, run.outs, inputs, env)
    ensures forall p :: p in order ==> p in run.outs && run.outs[p].Keys == plan[p].produces
  {
  }

  lemma MatchesInputs(plan: Plan, order: seq<string>, run: Run, inputs: Values, env: Values, f: string)
    requires forall p :: p in order ==> p in plan
    requires Matches(plan, order, run.outs, inputs, env) && f in inputs
    ensures f in env && env[f] == inputs[f]
  {
  }

  lemma SameFeed(values: Values, env: Values, feeds: seq<string>)
    requires forall f :: f in feeds ==> SameValue(values, env, f)
    ensures Feedable(env.Keys, feeds) && Feedable(values.Keys, feeds) && Feed(values, feeds) == Feed(env, feeds)
  {
    hide Resolve;
  }

  lemma SameOutputs(plan: Plan, order: seq<string>, run: Run, inputs: Values, n: string)
    requires forall p :: p in order ==> p in plan
    requires n in plan && HonestChunks(plan) && DistinctKeys(plan) && FedByName(plan, n, inputs) && WholeModel(plan, order, inputs).Some?
    requires AllHeld(plan, order, run) && Matches(plan, order, run.outs, inputs, WholeModel(plan, order, inputs).value)
    requires forall key :: WaitsOn(plan[n], key) ==> key in run.board
    requires Gather(run.board, plan[n]).Ok?
    ensures var env := WholeModel(plan, order, inputs).value;
      Feedable(env.Keys, plan[n].feeds) && Outputs(run.board, plan[n]) == Ok(plan[n].chunk(Feed(env, plan[n].feeds)))
  {
    hide Matches; hide AllHeld; hide FedByName; hide DistinctKeys; hide WaitsOn; hide Gather; hide Feed; hide Resolve; hide SameValue;
    hide WholeModel; hide HonestChunks;
    var values := Gather(run.board, plan[n]).value;
    forall f | f in plan[n].feeds ensures SameValue(values, WholeModel(plan, order, inputs).value, f) {
      GatheredFeed(plan, order, run, inputs, n, f);
    }
    SameFeed(values, WholeModel(plan, order, inputs).value, plan[n].feeds);
  }

  /** Every role of a completed run has the tensors the undivided model computes, however the
      roles exchange them and whatever else their bundles carry. */
  lemma {:induction false} MeaningPreserved(plan: Plan, order: seq<string>, inputs: Values)
    requires DistinctKeys(plan) && HonestChunks(plan) && SingleProducer(plan, inputs)
    requires NoDuplicates(order) && forall n :: n in order ==> n in plan && FedByName(plan, n, inputs)
    requires RunOrder(plan, order).Ok?
    ensures WholeModel(plan, order, inputs).Some?
    ensures Matches(plan, order, RunOrder(plan, order).value.outs, inputs, WholeModel(plan, order, inputs).value)
    decreases |order|
  {
    hide Step; hide Outputs; hide Gather; hide Matches; hide AllHeld; hide Complete; hide DistinctKeys; hide SingleProducer;
    hide FedByName; hide WaitsOn; hide Feed;
    if order == [] {
      StartMatches(plan, inputs);
    } else {
      var prefix := order[..|order| - 1];
      var last := order[|order| - 1];
      var run := RunOrder(plan, prefix).value;
      var env := WholeModel(plan, prefix, inputs);
      MeaningPreserved(plan, prefix, inputs);
      RunCompletes(plan, prefix);
      assert AllHeld(plan, prefix, run) by { CompleteHolds(plan, prefix, run); }
      StepFed(run.board, plan[last]);
      SameOutputs(plan, prefix, run, inputs, last);
      StepMatches(plan, prefix, run.outs, inputs, env.value, last, Outputs(run.board, plan[last]).value);
      assert prefix + [last] == order;
    }
  }

  lemma StartMatches(plan: Plan, inputs: Values)
    ensures Matches(plan, [], map[], inputs, inputs)
  {
  }

  lemma StepFed(board: Board, role: Role)
    requires Step(board, role).1.Ok?
    ensures Outputs(board, role) == Step(board, role).1
    ensures Gather(board, role).Ok? && forall key :: WaitsOn(role, key) ==> key in board
  {
    OutputsFindsAll(board, role);
  }

  lemma CompleteHolds(plan: Plan, order: seq<string>, run: Run)
    requires forall n :: n in order ==> n in plan
    requires Complete(plan, order, run)
    ensures AllHeld(plan, order, run)
  {
    hide Outputs; hide WaitsOn; hide OutKeys; hide Bundles; hide Holds;
    forall n | n in order
      ensures n in run.outs && Holds(run.board, OutKeys(plan[n]), Bundles(run.outs[n], plan[n].outputs))
    {
      assert Settled(plan, run, n);
    }
  }

  lemma StepMatches(plan: Plan, order: seq<string>, outs: map<string, Values>, inputs: Values, env: Values,
                    n: string, values: Values)
    requires n in plan && n !in order && forall p :: p in order ==> p in plan
    requires SingleProducer(plan, inputs) && values.Keys == plan[n].produces
    requires Matches(plan, order, outs, inputs, env)
    ensures Matches(plan, order + [n], outs[n := values], inputs, env + values)
  {
    forall m, f | m in order + [n] && f in plan[m].produces
      ensures f in env + values && (env + values)[f] == outs[n := values][m][f]
    {
      if m != n {
        assert m in order && plan[m].produces !! plan[n].produces;
      }
    }
  }

  // ----- when a run completes -----

  type NameBoard = map<RefKey, set<string>>

  function Names(board: Board): NameBoard {
    map key | key in board :: board[key].Keys
  }

  function MergeNames(nb: NameBoard, inputs: seq<Edge>, links: seq<Link>, keys: set<string>): Option<set<string>>
    decreases |links|
  {
    if links == [] then Some(keys)
    else if links[0].key !in nb || !Carries(inputs, links[0].scope, nb[links[0].key]) then None
    else MergeNames(nb, inputs, links[1..], keys + nb[links[0].key])
  }

  function GatherNames(nb: NameBoard, role: Role): Option<set<string>> {
    match role.initial
    case Some(v) => Some(v.Keys)
    case None =>
      if Links(role).Err? then None
      else match MergeNames(nb, role.inputs, Links(role).value, {})
        case None => None
        case Some(keys) => if Covered(keys, role.inputs) then Some(keys) else None
  }

  function PublishNames(nb: NameBoard, role: Role, keys: seq<RefKey>, n: nat): NameBoard
    requires n <= |keys| == |role.outputs|
  {
    if n == 0 then nb else PublishNames(nb, role, keys, n - 1)[keys[n - 1] := Carried(role, n - 1)]
  }

  /** Does the role run, judging by names only; and the names then on the board. */
  function StepNames(nb: NameBoard, role: Role): Option<NameBoard> {
    match GatherNames(nb, role)
    case None => None
    case Some(keys) =>
      if Feedable(keys, role.feeds) && (forall i :: 0 <= i < |role.outputs| ==> Publishable(role.produces, role.outputs[i]))
      then Some(PublishNames(nb, role, OutKeys(role), |role.outputs|))
      else None
  }

  /** A check of the plan that runs nothing: names flow, tensors do not. */
  function CheckOrder(plan: Plan, order: seq<string>): Option<NameBoard>
    requires forall n :: n in order ==> n in plan
  {
    if order == [] then Some(map[])
    else match CheckOrder(plan, order[..|order| - 1])
      case None => None
      case Some(nb) => StepNames(nb, plan[order[|order| - 1]])
  }

  lemma {:induction false} MergeByNames(board: Board, inputs: seq<Edge>, links: seq<Link>, values: Values)
    ensures Merge(board, inputs, links, values).Ok? <==> MergeNames(Names(board), inputs, links, values.Keys).Some?
    ensures Merge(board, inputs, links, values).Ok? ==>
              MergeNames(Names(board), inputs, links, values.Keys).value == Merge(board, inputs, links, values).value.Keys
    decreases |links|
  {
    if links != [] && links[0].key in board {
      var next := values + board[links[0].key];
      assert next.Keys == values.Keys + Names(board)[links[0].key];
      MergeByNames(board, inputs, links[1..], next);
    }
  }

  lemma {:induction false} PublishByNames(board: Board, role: Role, keys: seq<RefKey>, bundles: seq<Option<Values>>, n: nat)
    requires n <= |role.outputs| == |keys| == |bundles|
    requires forall i: nat :: i < n ==> bundles[i].Some? && bundles[i].value.Keys == Carried(role, i)
    ensures PublishFirst(board, keys, bundles, n).1.None?
    ensures Names(PublishFirst(board, keys, bundles, n).0) == PublishNames(Names(board), role, keys, n)
  {
    hide Carried;
    if n > 0 {
      PublishByNames(board, role, keys, bundles, n - 1);
    }
  }

  /** The bundles of honest outputs are decided, and named, without looking at a tensor. */
  lemma BundlesByNames(role: Role, outputs: Values)
    requires outputs.Keys == role.produces
    ensures forall i: nat :: i < |role.outputs| ==>
              var bundle := Bundles(outputs, role.outputs)[i];
              (bundle.Some? <==> Publishable(role.produces, role.outputs[i]))
              && (bundle.Some? ==> bundle.value.Keys == Carried(role, i))
  {
    forall i: nat | i < |role.outputs|
      ensures var bundle := Bundles(outputs, role.outputs)[i];
              (bundle.Some? <==> Publishable(role.produces, role.outputs[i]))
              && (bundle.Some? ==> bundle.value.Keys == Carried(role, i))
    {
      BundlesAt(outputs, role.outputs, i);
      if Bundle(outputs, role.outputs[i]).Some? {
        BundleContent(outputs, role.outputs[i]);
      }
    }
  }

  lemma GatherByNames(board: Board, role: Role)
    ensures Gather(board, role).Ok? <==> GatherNames(Names(board), role).Some?
    ensures Gather(board, role).Ok? ==> GatherNames(Names(board), role).value == Gather(board, role).value.Keys
  {
    hide Links; hide Covered;
    if role.initial.None? && Links(role).Ok? {
      var none: Values := map[];
      assert none.Keys == {};
      MergeByNames(board, role.inputs, Links(role).value, none);
    }
  }

  lemma StepByNames(board: Board, role: Role)
    requires forall v: Values :: role.chunk(v).Keys == role.produces
    ensures Step(board, role).1.Ok? <==> StepNames(Names(board), role).Some?
    ensures Step(board, role).1.Ok? ==> StepNames(Names(board), role).value == Names(Step(board, role).0)
  {
    hide Gather; hide GatherNames; hide Feedable; hide Feed; hide OutKeys; hide Bundles; hide Publishable; hide Carried;
    GatherByNames(board, role);
    if Outputs(board, role).Ok? {
      var outputs := Outputs(board, role).value;
      var bundles := Bundles(outputs, role.outputs);
      BundlesByNames(role, outputs);
      PublishFirstVerdict(board, OutKeys(role), bundles, |role.outputs|);
      if forall i: nat :: i < |role.outputs| ==> bundles[i].Some? {
        PublishByNames(board, role, OutKeys(role), bundles, |role.outputs|);
      }
    }
  }

  /** A run completes exactly when the names-only check of the same order passes. */
  lemma {:induction false} CompletesExactlyWhenChecked(plan: Plan, order: seq<string>)
    requires HonestChunks(plan) && forall n :: n in order ==> n in plan
    ensures RunOrder(plan, order).Ok? <==> CheckOrder(plan, order).Some?
    ensures RunOrder(plan, order).Ok? ==> CheckOrder(plan, order).value == Names(RunOrder(plan, order).value.board)
    decreases |order|
  {
    if order != [] {
      var prefix := order[..|order| - 1];
      CompletesExactlyWhenChecked(plan, prefix);
      if RunOrder(plan, prefix).Ok? {
        StepByNames(RunOrder(plan, prefix).value.board, plan[order[|order| - 1]]);
      }
    }
  }
}
