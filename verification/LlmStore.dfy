/** The dependency store and the interpreter loop, updated in place as the smoke run does. */
module LlmStore {
  import opened Outcomes
  import P = LlmPipeline

  class InMemoryDependencyStore {
    var objects: map<string, P.Stored>
    var published: nat
    var fetched: nat

    constructor ()
      ensures objects == map[] && published == 0 && fetched == 0
    {
      objects, published, fetched := map[], 0, 0;
    }

    /** Names are write-once: a second publication under a name changes nothing. */
    method Publish(name: string, payload: string, edge: P.PlannedDependency) returns (r: Result<(), P.Error>)
      modifies this
      ensures r == (if name in old(objects) then Err(P.DuplicateObject(name)) else Ok(()))
      ensures r.Ok? ==> objects == old(objects)[name := P.Stored(payload, edge)] && published == old(published) + 1
      ensures r.Err? ==> objects == old(objects) && published == old(published)
      ensures fetched == old(fetched)
    {
      if name in objects {
        return Err(P.DuplicateObject(name));
      }
      objects := objects[name := P.Stored(payload, edge)];
      published := published + 1;
      r := Ok(());
    }

    method Fetch(name: string) returns (r: Result<string, P.Error>)
      modifies this`fetched
      ensures r.Ok? <==> name in objects && objects[name].edge.keyScope != [] && objects[name].edge.tensors != []
      ensures r.Ok? ==> r.value == objects[name].payload
      ensures r.Err? ==> r.error == if name in objects then P.IncompleteMetadata(name) else P.MissingObject(name)
      ensures fetched == old(fetched) + (if r.Ok? then 1 else 0)
    {
      if name !in objects {
        return Err(P.MissingObject(name));
      }
      var stored := objects[name];
      if stored.edge.keyScope == [] || stored.edge.tensors == [] {
        return Err(P.IncompleteMetadata(name));
      }
      fetched := fetched + 1;
      r := Ok(stored.payload);
    }
  }

  /** The edge maps keyed by producer and by consumer; a later edge replaces an earlier one. */
  method EdgeMaps(edges: seq<P.PlannedDependency>)
    returns (outgoing: map<string, P.PlannedDependency>, incoming: map<string, P.PlannedDependency>)
    ensures forall role :: P.Outgoing(edges, role) == if role in outgoing then Some(outgoing[role]) else None
    ensures forall role :: P.Incoming(edges, role) == if role in incoming then Some(incoming[role]) else None
  {
    outgoing, incoming := map[], map[];
    for k := 0 to |edges|
      invariant forall role :: P.Outgoing(edges[..k], role) == if role in outgoing then Some(outgoing[role]) else None
      invariant forall role :: P.Incoming(edges[..k], role) == if role in incoming then Some(incoming[role]) else None
    {
      var e := edges[k];
      assert edges[..k + 1][..k] == edges[..k];
      outgoing := outgoing[e.producer := e];
      incoming := incoming[e.consumer := e];
    }
    assert edges[..|edges|] == edges;
  }

  lemma ExecStays(line: seq<P.Slot>, stage: P.StageFunction, prompt: string, k: nat, n: nat)
    requires k <= n <= |line| && !P.Exec(line, stage, prompt, k).Running?
    ensures P.Exec(line, stage, prompt, n) == P.Exec(line, stage, prompt, k)
    decreases n
  {
    if k < n {
      ExecStays(line, stage, prompt, k, n - 1);
    }
  }

  /** Once the loop has stopped, the rest of the list no longer matters. */
  lemma StopsAt(plan: P.Plan, stage: P.StageFunction, prompt: string, k: nat)
    requires k <= |plan.roles| && !P.Exec(P.Line(plan), stage, prompt, k).Running?
    ensures P.Interpret(plan, stage, prompt) == P.Exec(P.Line(plan), stage, prompt, k)
  {
    ExecStays(P.Line(plan), stage, prompt, k, |plan.roles|);
  }

  /** One pass of the loop, as the interpreter's meaning has it. */
  lemma ExecUnfolds(line: seq<P.Slot>, stage: P.StageFunction, prompt: string, k: nat, st: P.State)
    requires k < |line| && P.Exec(line, stage, prompt, k) == P.Running(st)
    ensures P.Exec(line, stage, prompt, k + 1) ==
      match P.TakeInput(line[k], st, k)
      case Err(e) => P.Failed(e)
      case Ok(ready) => P.GiveOutput(line[k], stage, ready, k)
  {
  }

  /** One pass of the loop, read off the edges themselves. */
  function Pass(plan: P.Plan, stage: P.StageFunction, k: nat, st: P.State): P.Progress
    requires k < |plan.roles|
  {
    var role := plan.roles[k];
    var incoming := P.Incoming(plan.edges, role);
    if k > 0 && incoming.None? then P.Failed(P.NoIncoming(role))
    else
      var taken := if k == 0 then Ok(st) else P.Fetch(st, P.DependencyName(plan.session, incoming.value));
      match taken
      case Err(e) => P.Failed(e)
      case Ok(ready) =>
        var order := ready.order + [role];
        var output := stage(role, k, ready.payload);
        match P.Outgoing(plan.edges, role)
        case None => P.Returned(P.Final(role, order, output), ready.(order := order))
        case Some(edge) =>
          if edge.tensors != ["hidden-state"] then P.Failed(P.UnexpectedTensors(edge.tensors))
          else match P.Publish(ready.(order := order), P.DependencyName(plan.session, edge), output, edge)
            case Err(e) => P.Failed(e)
            case Ok(next) => P.Running(next)
  }

  lemma ExecPasses(plan: P.Plan, stage: P.StageFunction, prompt: string, k: nat, st: P.State)
    requires k < |plan.roles| && P.Exec(P.Line(plan), stage, prompt, k) == P.Running(st)
    ensures P.Exec(P.Line(plan), stage, prompt, k + 1) == Pass(plan, stage, k, st)
  {
    hide P.Exec; hide P.DependencyName; hide P.Outgoing; hide P.Incoming;
    assert P.Line(plan)[k] == P.SlotOf(plan, plan.roles[k]);
    ExecUnfolds(P.Line(plan), stage, prompt, k, st);
  }

  lemma ExecBegins(line: seq<P.Slot>, stage: P.StageFunction, prompt: string)
    ensures P.Exec(line, stage, prompt, 0) == P.Running(P.State(map[], 0, 0, [], prompt))
  {
  }

  lemma RunsOff(plan: P.Plan, stage: P.StageFunction, prompt: string)
    requires P.Exec(P.Line(plan), stage, prompt, |plan.roles|).Running?
    ensures P.Interpret(plan, stage, prompt) == P.Failed(P.NoFinalOutput)
  {
  }

  /** The interpreter loop, and the store it leaves behind. */
  method ExecuteFakePipeline(service: P.Service, session: string, prompt: string, stage: P.StageFunction)
    returns (r: Result<P.Final, P.Error>, store: InMemoryDependencyStore)
    ensures r == Err(P.NotSingleEdge) <==>
      exists i :: 0 <= i < |service.dependencies| && !P.SingleEdge(service.dependencies[i])
    ensures r != Err(P.NotSingleEdge) ==>
      match P.Interpret(P.Plan(service.roles, P.Planned(service.dependencies), session), stage, prompt)
      case Returned(final, st) =>
        r == Ok(final) && store.objects == st.objects && store.published == st.published && store.fetched == st.fetched
      case Failed(e) => r == Err(e)
      case Running(_) => false
  {
    hide P.Exec; hide P.Interpret; hide P.DependencyName; hide P.Outgoing; hide P.Incoming; hide P.Line; hide P.Planned;
    hide P.LastOfProducer; hide P.LastOfConsumer;
    store := new InMemoryDependencyStore();
    var planned := P.PlannedDependencies(service);
    if planned.Err? {
      return Err(P.NotSingleEdge), store;
    }
    var edges := planned.value;
    var outgoing, incoming := EdgeMaps(edges);
    ghost var plan := P.Plan(service.roles, edges, session);
    ghost var line := P.Line(plan);
    var order: seq<string>, payload := [], prompt;
    ExecBegins(line, stage, prompt);
    for index := 0 to |service.roles|
      invariant P.Exec(line, stage, prompt, index)
             == P.Running(P.State(store.objects, store.published, store.fetched, order, payload))
    {
      var role := service.roles[index];
      ExecPasses(plan, stage, prompt, index,
                 P.State(store.objects, store.published, store.fetched, order, payload));
      if index > 0 {
        if role !in incoming {
          StopsAt(plan, stage, prompt, index + 1);
          return Err(P.NoIncoming(role)), store;
        }
        var fetched := store.Fetch(P.DependencyName(session, incoming[role]));
        if fetched.Err? {
          StopsAt(plan, stage, prompt, index + 1);
          return Err(fetched.error), store;
        }
        payload := fetched.value;
      }
      order := order + [role];
      var stagePayload := stage(role, index, payload);
      if role in outgoing {
        var edge := outgoing[role];
        if edge.tensors != ["hidden-state"] {
          StopsAt(plan, stage, prompt, index + 1);
          return Err(P.UnexpectedTensors(edge.tensors)), store;
        }
        var published := store.Publish(P.DependencyName(session, edge), stagePayload, edge);
        if published.Err? {
          StopsAt(plan, stage, prompt, index + 1);
          return Err(published.error), store;
        }
      } else {
        StopsAt(plan, stage, prompt, index + 1);
        return Ok(P.Final(role, order, stagePayload)), store;
      }
    }
    RunsOff(plan, stage, prompt);
    r := Err(P.NoFinalOutput);
  }
}
