/** The LLM pipeline interpreter over an arbitrary plan. */
module LlmPipeline {
  import opened Outcomes
  import opened Strings

  datatype RawDependency = RawDependency(producers: seq<string>, consumers: seq<string>,
                                         keyScope: string, tensors: seq<string>)

  datatype PlannedDependency = PlannedDependency(producer: string, consumer: string,
                                                 keyScope: string, tensors: seq<string>)

  /** A native plan's service entry, as far as the interpreter reads it. */
  datatype Service = Service(roles: seq<string>, dependencies: seq<RawDependency>)

  /** What a stage makes of its role, its position and its input. */
  type StageFunction = (string, nat, string) -> string

  datatype Error =
    | NotSingleEdge
    | DuplicateObject(name: string)
    | MissingObject(name: string)
    | IncompleteMetadata(name: string)
    | NoIncoming(role: string)
    | UnexpectedTensors(tensors: seq<string>)
    | NoFinalOutput

  datatype Final = Final(finalRole: string, executionOrder: seq<string>, logits: string)

  // ----- naming -----

  function DependencyName(session: string, edge: PlannedDependency): string {
    "/NDNSF/DI/LLM/" + session + "/" + edge.keyScope + "/" + Mangle(edge.producer, '_') + "/bundle/0"
  }

  /** Within a session two names are equal exactly when scope and mangled producer are,
      whatever slashes the scopes contain. */
  lemma NamesAgreeExactly(session: string, e: PlannedDependency, f: PlannedDependency)
    ensures DependencyName(session, e) == DependencyName(session, f) <==>
            e.keyScope == f.keyScope && Mangle(e.producer, '_') == Mangle(f.producer, '_')
  {
    var a, b := DependencyName(session, e), DependencyName(session, f);
    if a == b {
      var head := "/NDNSF/DI/LLM/" + session + "/";
      var p, q := e.keyScope + "/" + Mangle(e.producer, '_'), f.keyScope + "/" + Mangle(f.producer, '_');
      assert a == head + p + "/bundle/0" && b == head + q + "/bundle/0";
      assert p == a[|head|..|a| - 9] && q == b[|head|..|b| - 9];
      MangleHasNoSlash(e.producer, '_');
      MangleHasNoSlash(f.producer, '_');
      LastComponentUnique(e.keyScope, Mangle(e.producer, '_'), f.keyScope, Mangle(f.producer, '_'));
    }
  }

  lemma NamesIdentifyPlainProducers(session: string, e: PlannedDependency, f: PlannedDependency)
    requires PlainPath(e.producer, '_') && PlainPath(f.producer, '_')
    ensures DependencyName(session, e) == DependencyName(session, f) <==>
            e.keyScope == f.keyScope && e.producer == f.producer
  {
    NamesAgreeExactly(session, e, f);
    if Mangle(e.producer, '_') == Mangle(f.producer, '_') {
      MangleInjective(e.producer, f.producer, '_');
    }
  }

  /** An underscore in a role name is enough to make two producers share a name. */
  lemma UnderscoreCollision(session: string, scope: string, tensors: seq<string>)
    ensures DependencyName(session, PlannedDependency("/a/b", "/c", scope, tensors))
         == DependencyName(session, PlannedDependency("/a_b", "/c", scope, tensors))
  {
    StripPlainPath("/a/b", '-');
    StripPlainPath("/a_b", '-');
    assert Mangle("/a/b", '_') == "a_b" == Mangle("/a_b", '_');
  }

  // ----- the plan's edges -----

  predicate SingleEdge(raw: RawDependency) {
    |raw.producers| == 1 && |raw.consumers| == 1
  }

  function Planned(raws: seq<RawDependency>): seq<PlannedDependency>
    requires forall i :: 0 <= i < |raws| ==> SingleEdge(raws[i])
  {
    seq(|raws|, i requires 0 <= i < |raws| && SingleEdge(raws[i]) =>
      PlannedDependency(raws[i].producers[0], raws[i].consumers[0], raws[i].keyScope, raws[i].tensors))
  }

  method PlannedDependencies(service: Service) returns (r: Result<seq<PlannedDependency>, Error>)
    ensures r.Ok? <==> forall i :: 0 <= i < |service.dependencies| ==> SingleEdge(service.dependencies[i])
    ensures r.Ok? ==> r.value == Planned(service.dependencies)
    ensures r.Err? ==> r.error == NotSingleEdge
  {
    var dependencies: seq<PlannedDependency> := [];
    for i := 0 to |service.dependencies|
      invariant forall k :: 0 <= k < i ==> SingleEdge(service.dependencies[k])
      invariant |dependencies| == i
      invariant forall k :: 0 <= k < i ==>
        var raw := service.dependencies[k];
        dependencies[k] == PlannedDependency(raw.producers[0], raw.consumers[0], raw.keyScope, raw.tensors)
    {
      var raw := service.dependencies[i];
      if |raw.producers| != 1 || |raw.consumers| != 1 {
        return Err(NotSingleEdge);
      }
      dependencies := dependencies +
        [PlannedDependency(raw.producers[0], raw.consumers[0], raw.keyScope, raw.tensors)];
    }
    r := Ok(dependencies);
  }

  /** The edge is the last one listed for the producer. */
  ghost predicate LastOfProducer(edges: seq<PlannedDependency>, edge: PlannedDependency, role: string) {
    exists i :: 0 <= i < |edges| && edges[i] == edge && edge.producer == role
             && forall j :: i < j < |edges| ==> edges[j].producer != role
  }

  /** The edge kept for a producer. */
  function Outgoing(edges: seq<PlannedDependency>, role: string): (edge: Option<PlannedDependency>)
    ensures edge.None? <==> forall e :: e in edges ==> e.producer != role
    ensures edge.Some? ==> LastOfProducer(edges, edge.value, role)
  {
    if edges == [] then None
    else if edges[|edges| - 1].producer == role then Some(edges[|edges| - 1])
    else
      assert edges == edges[..|edges| - 1] + [edges[|edges| - 1]];
      Outgoing(edges[..|edges| - 1], role)
  }

  /** The edge is the last one listed for the consumer. */
  ghost predicate LastOfConsumer(edges: seq<PlannedDependency>, edge: PlannedDependency, role: string) {
    exists i :: 0 <= i < |edges| && edges[i] == edge && edge.consumer == role
             && forall j :: i < j < |edges| ==> edges[j].consumer != role
  }

  /** The edge kept for a consumer. */
  function Incoming(edges: seq<PlannedDependency>, role: string): (edge: Option<PlannedDependency>)
    ensures edge.None? <==> forall e :: e in edges ==> e.consumer != role
    ensures edge.Some? ==> LastOfConsumer(edges, edge.value, role)
  {
    if edges == [] then None
    else if edges[|edges| - 1].consumer == role then Some(edges[|edges| - 1])
    else
      assert edges == edges[..|edges| - 1] + [edges[|edges| - 1]];
      Incoming(edges[..|edges| - 1], role)
  }

  // ----- the interpreter as a function of the plan -----

  datatype Plan = Plan(roles: seq<string>, edges: seq<PlannedDependency>, session: string)

  datatype Handover = Handover(name: string, edge: PlannedDependency)

  /** What the edge maps give one listed role: the name it fetches and what it publishes. */
  datatype Slot = Slot(role: string, fetches: Option<string>, hands: Option<Handover>)

  function SlotOf(plan: Plan, role: string): Slot {
    Slot(role,
         match Incoming(plan.edges, role)
         case None => None
         case Some(e) => Some(DependencyName(plan.session, e)),
         match Outgoing(plan.edges, role)
         case None => None
         case Some(e) => Some(Handover(DependencyName(plan.session, e), e)))
  }

  function Line(plan: Plan): (line: seq<Slot>)
    ensures |line| == |plan.roles|
    ensures forall i :: 0 <= i < |line| ==> line[i] == SlotOf(plan, plan.roles[i])
  {
    seq(|plan.roles|, i requires 0 <= i < |plan.roles| => SlotOf(plan, plan.roles[i]))
  }

  datatype Stored = Stored(payload: string, edge: PlannedDependency)

  datatype State = State(objects: map<string, Stored>, published: nat, fetched: nat,
                         order: seq<string>, payload: string)

  datatype Progress =
    | Running(state: State)
    | Returned(final: Final, state: State)
    | Failed(error: Error)

  function Fetch(st: State, name: string): Result<State, Error> {
    if name !in st.objects then Err(MissingObject(name))
    else if st.objects[name].edge.keyScope == [] || st.objects[name].edge.tensors == [] then Err(IncompleteMetadata(name))
    else Ok(st.(fetched := st.fetched + 1, payload := st.objects[name].payload))
  }

  function Publish(st: State, name: string, payload: string, edge: PlannedDependency): Result<State, Error> {
    if name in st.objects then Err(DuplicateObject(name))
    else Ok(st.(objects := st.objects[name := Stored(payload, edge)], published := st.published + 1))
  }

  /** The one tensor list a pipeline edge may carry. */
  predicate IsHiddenState(tensors: seq<string>) {
    tensors == ["hidden-state"]
  }

  /** The role's input: the prompt for the first, else what its incoming edge names. */
  function TakeInput(slot: Slot, st: State, index: nat): Result<State, Error> {
    if index == 0 then Ok(st)
    else match slot.fetches
      case None => Err(NoIncoming(slot.role))
      case Some(name) => Fetch(st, name)
  }

  function GiveOutput(slot: Slot, stage: StageFunction, st: State, index: nat): Progress {
    var order := st.order + [slot.role];
    var output := stage(slot.role, index, st.payload);
    match slot.hands
    case None => Returned(Final(slot.role, order, output), st.(order := order))
    case Some(h) =>
      if !IsHiddenState(h.edge.tensors) then Failed(UnexpectedTensors(h.edge.tensors))
      else match Publish(st.(order := order), h.name, output, h.edge)
        case Err(e) => Failed(e)
        case Ok(next) => Running(next)
  }

  function Start(prompt: string): State {
    State(map[], 0, 0, [], prompt)
  }

  /** The interpreter after the first k roles of the list. */
  function Exec(line: seq<Slot>, stage: StageFunction, prompt: string, k: nat): Progress
    requires k <= |line|
  {
    if k == 0 then Running(Start(prompt))
    else match Exec(line, stage, prompt, k - 1)
      case Running(st) =>
        (match TakeInput(line[k - 1], st, k - 1)
         case Err(e) => Failed(e)
         case Ok(ready) => GiveOutput(line[k - 1], stage, ready, k - 1))
      case done => done
  }

  /** The whole loop: running off the end of the list is an error. */
  function Interpret(plan: Plan, stage: StageFunction, prompt: string): Progress {
    match Exec(Line(plan), stage, prompt, |plan.roles|)
    case Running(_) => Failed(NoFinalOutput)
    case done => done
  }

  // ----- when it returns, and what -----

  /** The first k roles hand on, under pairwise distinct names. */
  ghost predicate HandsOn(line: seq<Slot>, k: nat)
    requires k <= |line|
  {
    && (forall i :: 0 <= i < k ==> line[i].hands.Some? && IsHiddenState(line[i].hands.value.edge.tensors))
    && (forall i, j :: 0 <= i < j < k ==> line[i].hands.value.name != line[j].hands.value.name)
  }

  /** Slot i fetches what the earlier slot j published, with a key scope. */
  predicate FedBy(line: seq<Slot>, i: nat, j: nat)
    requires j < i < |line|
  {
    && line[j].hands.Some?
    && line[i].fetches == Some(line[j].hands.value.name)
    && line[j].hands.value.edge.keyScope != []
  }

  /** The last position before n that feeds slot i; i itself when there is none. */
  function FeederBefore(line: seq<Slot>, i: nat, n: nat): (j: nat)
    requires n <= i < |line|
    ensures j < n || j == i
    ensures j < n ==> FedBy(line, i, j)
    ensures j == i ==> forall m: nat :: m < n ==> !FedBy(line, i, m)
  {
    if n == 0 then i
    else if FedBy(line, i, n - 1) then n - 1
    else FeederBefore(line, i, n - 1)
  }

  /** The position whose output slot i works on. */
  function Source(line: seq<Slot>, i: nat): nat
    requires i < |line|
  {
    FeederBefore(line, i, i)
  }

  predicate Fed(line: seq<Slot>, i: nat)
    requires i < |line|
  {
    i == 0 || Source(line, i) < i
  }

  predicate AllFed(line: seq<Slot>, k: nat)
    requires k <= |line|
  {
    forall i: nat :: i < k ==> Fed(line, i)
  }

  /** The loop goes on after the first k roles. */
  ghost predicate GoesOn(line: seq<Slot>, k: nat)
    requires k <= |line|
  {
    HandsOn(line, k) && AllFed(line, k)
  }

  /** The loop ends with a result at role k. */
  ghost predicate ReturnsAt(line: seq<Slot>, k: nat) {
    k < |line| && GoesOn(line, k) && Fed(line, k) && line[k].hands.None?
  }

  /** The output of slot i, by following the fetched names back to the prompt. */
  function Value(line: seq<Slot>, stage: StageFunction, prompt: string, i: nat): string
    requires i < |line|
  {
    var j := Source(line, i);
    stage(line[i].role, i, if i == 0 || j >= i then prompt else Value(line, stage, prompt, j))
  }

  /** One object for each of the first k roles, under its own name. */
  ghost predicate Objects(line: seq<Slot>, stage: StageFunction, prompt: string, k: nat, objects: map<string, Stored>)
    requires k <= |line| && HandsOn(line, k)
  {
    && |objects| == k
    && (forall name :: name in objects ==> exists i :: 0 <= i < k && line[i].hands.value.name == name)
    && (forall i: nat :: i < k ==> line[i].hands.value.name in objects)
    && (forall i: nat :: i < k ==>
          objects[line[i].hands.value.name] == Stored(Value(line, stage, prompt, i), line[i].hands.value.edge))
  }

  /** What the loop has built after k roles. */
  ghost predicate Loop(line: seq<Slot>, stage: StageFunction, prompt: string, k: nat, st: State)
    requires k <= |line| && HandsOn(line, k) && AllFed(line, k)
  {
    && |st.order| == k && (forall i :: 0 <= i < k ==> st.order[i] == line[i].role)
    && st.published == k && st.fetched == (if k == 0 then 0 else k - 1)
    && Objects(line, stage, prompt, k, st.objects)
    && (k == 0 ==> st == Start(prompt))
  }

  lemma FedFetches(line: seq<Slot>, stage: StageFunction, prompt: string, k: nat, st: State)
    requires k < |line| && HandsOn(line, k) && AllFed(line, k) && Loop(line, stage, prompt, k, st)
    requires k > 0 && Fed(line, k)
    ensures TakeInput(line[k], st, k) == Ok(st.(fetched := k, payload := Value(line, stage, prompt, Source(line, k))))
  {
    hide Value; hide FeederBefore;
    var j := Source(line, k);
    var h := line[j].hands.value;
    assert st.objects[h.name] == Stored(Value(line, stage, prompt, j), h.edge);
    assert IsHiddenState(h.edge.tensors);
  }

  lemma UnfedFails(line: seq<Slot>, stage: StageFunction, prompt: string, k: nat, st: State)
    requires k < |line| && HandsOn(line, k) && AllFed(line, k) && Loop(line, stage, prompt, k, st)
    requires !Fed(line, k)
    ensures TakeInput(line[k], st, k).Err?
  {
    hide Value;
    if line[k].fetches.Some? && line[k].fetches.value in st.objects {
      var j: nat :| j < k && line[j].hands.value.name == line[k].fetches.value;
      assert st.objects[line[j].hands.value.name].edge == line[j].hands.value.edge;
      assert k == 0 || !FedBy(line, k, j);
    }
  }

  /** A role takes its input exactly when it is fed, and then works on its source's value. */
  lemma TakeInputFollows(line: seq<Slot>, stage: StageFunction, prompt: string, k: nat, st: State)
    requires k < |line| && HandsOn(line, k) && AllFed(line, k) && Loop(line, stage, prompt, k, st)
    ensures TakeInput(line[k], st, k).Ok? <==> Fed(line, k)
    ensures Fed(line, k) ==>
      var ready := TakeInput(line[k], st, k).value;
      && stage(line[k].role, k, ready.payload) == Value(line, stage, prompt, k)
      && ready == st.(fetched := k, payload := ready.payload)
  {
    if !Fed(line, k) {
      UnfedFails(line, stage, prompt, k, st);
    } else if k > 0 {
      FedFetches(line, stage, prompt, k, st);
      hide Loop; hide HandsOn; hide FedBy;
    }
  }

  lemma ObjectsNext(line: seq<Slot>, stage: StageFunction, prompt: string, k: nat, objects: map<string, Stored>)
    requires k < |line| && HandsOn(line, k) && HandsOn(line, k + 1) && Objects(line, stage, prompt, k, objects)
    requires line[k].hands.value.name !in objects
    ensures var h := line[k].hands.value;
      Objects(line, stage, prompt, k + 1, objects[h.name := Stored(Value(line, stage, prompt, k), h.edge)])
  {
    hide Value; hide IsHiddenState;
  }

  lemma PublishFollows(line: seq<Slot>, stage: StageFunction, prompt: string, k: nat, st: State, next: State)
    requires k < |line| && HandsOn(line, k) && AllFed(line, k) && Loop(line, stage, prompt, k, st)
    requires HandsOn(line, k + 1) && AllFed(line, k + 1)
    requires var h := line[k].hands.value;
      && h.name !in st.objects
      && next.objects == st.objects[h.name := Stored(Value(line, stage, prompt, k), h.edge)]
      && next.order == st.order + [line[k].role] && next.published == k + 1 && next.fetched == k
    ensures Loop(line, stage, prompt, k + 1, next)
  {
    hide AllFed; hide Value; hide HandsOn; hide Objects;
    ObjectsNext(line, stage, prompt, k, st.objects);
  }

  lemma HandsOnNext(line: seq<Slot>, stage: StageFunction, prompt: string, k: nat, st: State)
    requires k < |line| && HandsOn(line, k) && AllFed(line, k) && Loop(line, stage, prompt, k, st)
    ensures HandsOn(line, k + 1) <==>
      line[k].hands.Some? && IsHiddenState(line[k].hands.value.edge.tensors) && line[k].hands.value.name !in st.objects
  {
    hide Fed; hide Value; hide IsHiddenState;
    if line[k].hands.Some? && line[k].hands.value.name in st.objects {
      var i :| 0 <= i < k && line[i].hands.value.name == line[k].hands.value.name;
    }
  }

  ghost predicate StepOutcome(line: seq<Slot>, stage: StageFunction, prompt: string, k: nat, done: Progress)
    requires k < |line| && HandsOn(line, k) && AllFed(line, k)
  {
    match done
    case Running(next) => HandsOn(line, k + 1) && AllFed(line, k + 1) && Loop(line, stage, prompt, k + 1, next)
    case Returned(final, end) =>
      && Fed(line, k) && line[k].hands.None?
      && final == Final(line[k].role, end.order, Value(line, stage, prompt, k))
      && |end.order| == k + 1 && (forall i :: 0 <= i <= k ==> end.order[i] == line[i].role)
      && end.published == end.fetched == |end.objects| == k
    case Failed(_) => !(Fed(line, k) && line[k].hands.None?) && !(HandsOn(line, k + 1) && AllFed(line, k + 1))
  }

  /** Publishing goes on exactly when the role hands on under a new name. */
  lemma PublishedOutput(line: seq<Slot>, stage: StageFunction, prompt: string, k: nat, st: State, ready: State)
    requires k < |line| && HandsOn(line, k) && AllFed(line, k) && Loop(line, stage, prompt, k, st)
    requires Fed(line, k) && ready == st.(fetched := k, payload := ready.payload) && HandsOn(line, k + 1)
    requires stage(line[k].role, k, ready.payload) == Value(line, stage, prompt, k)
    ensures StepOutcome(line, stage, prompt, k, GiveOutput(line[k], stage, ready, k))
  {
    hide FedBy; hide Fed; hide Value; hide IsHiddenState; hide Loop; hide HandsOn;
    HandsOnNext(line, stage, prompt, k, st);
    LoopCounts(line, stage, prompt, k, st);
    assert AllFed(line, k + 1);
    hide AllFed;
    var done := GiveOutput(line[k], stage, ready, k);
    PublishFollows(line, stage, prompt, k, st, done.state);
  }

  lemma LastOutput(line: seq<Slot>, stage: StageFunction, prompt: string, k: nat, st: State, ready: State)
    requires k < |line| && HandsOn(line, k) && AllFed(line, k) && Loop(line, stage, prompt, k, st)
    requires Fed(line, k) && ready == st.(fetched := k, payload := ready.payload) && !HandsOn(line, k + 1)
    requires stage(line[k].role, k, ready.payload) == Value(line, stage, prompt, k)
    ensures StepOutcome(line, stage, prompt, k, GiveOutput(line[k], stage, ready, k))
  {
    hide FedBy; hide Fed; hide Value; hide IsHiddenState; hide Loop; hide HandsOn; hide AllFed;
    HandsOnNext(line, stage, prompt, k, st);
    LoopCounts(line, stage, prompt, k, st);
  }

  lemma LoopCounts(line: seq<Slot>, stage: StageFunction, prompt: string, k: nat, st: State)
    requires k <= |line| && HandsOn(line, k) && AllFed(line, k) && Loop(line, stage, prompt, k, st)
    ensures st.published == |st.objects| == |st.order| == k && forall i :: 0 <= i < k ==> st.order[i] == line[i].role
  {
    hide HandsOn; hide Value;
  }

  lemma GiveOutputFollows(line: seq<Slot>, stage: StageFunction, prompt: string, k: nat, st: State, ready: State)
    requires k < |line| && HandsOn(line, k) && AllFed(line, k) && Loop(line, stage, prompt, k, st)
    requires Fed(line, k) && ready == st.(fetched := k, payload := ready.payload)
    requires stage(line[k].role, k, ready.payload) == Value(line, stage, prompt, k)
    ensures StepOutcome(line, stage, prompt, k, GiveOutput(line[k], stage, ready, k))
  {
    hide Loop; hide HandsOn; hide Fed; hide Value; hide GiveOutput; hide StepOutcome;
    if HandsOn(line, k + 1) {
      PublishedOutput(line, stage, prompt, k, st, ready);
    } else {
      LastOutput(line, stage, prompt, k, st, ready);
    }
  }

  lemma RunningStep(line: seq<Slot>, stage: StageFunction, prompt: string, k: nat, st: State)
    requires k < |line| && HandsOn(line, k) && AllFed(line, k) && Loop(line, stage, prompt, k, st)
    requires Exec(line, stage, prompt, k) == Running(st)
    ensures StepOutcome(line, stage, prompt, k, Exec(line, stage, prompt, k + 1))
  {
    hide Loop; hide GiveOutput; hide TakeInput; hide HandsOn; hide Fed; hide Value;
    TakeInputFollows(line, stage, prompt, k, st);
    if Fed(line, k) {
      GiveOutputFollows(line, stage, prompt, k, st, TakeInput(line[k], st, k).value);
      hide StepOutcome;
    }
  }

  lemma EndsOnce(line: seq<Slot>, j: nat, k: nat)
    requires j < k <= |line| && ReturnsAt(line, j)
    ensures !GoesOn(line, k) && !ReturnsAt(line, k)
  {
    assert line[j].hands.None?;
  }

  lemma GoesOnShrinks(line: seq<Slot>, k: nat)
    requires k < |line|
    ensures GoesOn(line, k + 1) || ReturnsAt(line, k) ==> GoesOn(line, k)
  {
    hide Fed; hide IsHiddenState;
  }

  /** What the interpreter did with the first k roles, in terms of the plan alone. */
  ghost predicate Describes(line: seq<Slot>, stage: StageFunction, prompt: string, k: nat, done: Progress)
    requires k <= |line|
  {
    && (GoesOn(line, k) <==> done.Running?)
    && (done.Running? ==> Loop(line, stage, prompt, k, done.state))
    && (forall j: nat :: j < k && ReturnsAt(line, j) ==> done.Returned? && StepOutcome(line, stage, prompt, j, done))
    && (done.Returned? ==> exists j: nat :: j < k && ReturnsAt(line, j))
  }

  lemma DescribesStill(line: seq<Slot>, stage: StageFunction, prompt: string, k: nat, done: Progress)
    requires k < |line| && Describes(line, stage, prompt, k, done) && !GoesOn(line, k)
    ensures Describes(line, stage, prompt, k + 1, done)
  {
    GoesOnShrinks(line, k);
    hide Loop; hide StepOutcome; hide ReturnsAt; hide GoesOn;
  }

  lemma DescribesNext(line: seq<Slot>, stage: StageFunction, prompt: string, k: nat, done: Progress)
    requires k < |line| && GoesOn(line, k)
    requires GoesOn(line, k + 1) <==> done.Running?
    requires done.Running? ==> Loop(line, stage, prompt, k + 1, done.state)
    requires ReturnsAt(line, k) <==> done.Returned?
    requires done.Returned? ==> StepOutcome(line, stage, prompt, k, done)
    ensures Describes(line, stage, prompt, k + 1, done)
  {
    forall j: nat | j < k ensures !ReturnsAt(line, j) {
      if ReturnsAt(line, j) { EndsOnce(line, j, k); }
    }
    hide Loop; hide StepOutcome; hide ReturnsAt; hide GoesOn;
  }

  /** For every plan and every prefix of its roles, malformed plans included: the loop goes on
      exactly when the roles so far hand on and are fed, it has returned exactly when one of
      them is fed and hands nothing on, and otherwise it has failed. */
  lemma {:induction false} ExecMeaning(line: seq<Slot>, stage: StageFunction, prompt: string, k: nat)
    requires k <= |line|
    ensures Describes(line, stage, prompt, k, Exec(line, stage, prompt, k))
  {
    hide Exec; hide Describes;
    if k == 0 {
      ExecStarts(line, stage, prompt);
    } else {
      ExecMeaning(line, stage, prompt, k - 1);
      DescribesStep(line, stage, prompt, k - 1);
    }
  }

  lemma ExecStays(line: seq<Slot>, stage: StageFunction, prompt: string, k: nat)
    requires k < |line| && !Exec(line, stage, prompt, k).Running?
    ensures Exec(line, stage, prompt, k + 1) == Exec(line, stage, prompt, k)
  {
  }

  lemma DescribesStep(line: seq<Slot>, stage: StageFunction, prompt: string, k: nat)
    requires k < |line| && Describes(line, stage, prompt, k, Exec(line, stage, prompt, k))
    ensures Describes(line, stage, prompt, k + 1, Exec(line, stage, prompt, k + 1))
  {
    hide Exec; hide Loop; hide StepOutcome; hide ReturnsAt; hide GoesOn; hide Describes; hide TakeInput; hide GiveOutput;
    var was := Exec(line, stage, prompt, k);
    DescribesState(line, stage, prompt, k, was);
    if was.Running? {
      ExecNext(line, stage, prompt, k);
      DescribesNext(line, stage, prompt, k, Exec(line, stage, prompt, k + 1));
    } else {
      ExecStays(line, stage, prompt, k);
      DescribesStill(line, stage, prompt, k, was);
    }
  }

  lemma ExecStarts(line: seq<Slot>, stage: StageFunction, prompt: string)
    ensures Describes(line, stage, prompt, 0, Exec(line, stage, prompt, 0))
  {
    hide Value; hide Fed; hide ReturnsAt;
  }

  lemma DescribesState(line: seq<Slot>, stage: StageFunction, prompt: string, k: nat, done: Progress)
    requires k <= |line| && Describes(line, stage, prompt, k, done)
    ensures GoesOn(line, k) <==> done.Running?
    ensures done.Running? ==> Loop(line, stage, prompt, k, done.state)
  {
  }

  lemma ExecNext(line: seq<Slot>, stage: StageFunction, prompt: string, k: nat)
    requires k < |line| && GoesOn(line, k)
    requires Exec(line, stage, prompt, k).Running? && Loop(line, stage, prompt, k, Exec(line, stage, prompt, k).state)
    ensures var done := Exec(line, stage, prompt, k + 1);
      && (GoesOn(line, k + 1) <==> done.Running?)
      && (done.Running? ==> Loop(line, stage, prompt, k + 1, done.state))
      && (ReturnsAt(line, k) <==> done.Returned?)
      && (done.Returned? ==> StepOutcome(line, stage, prompt, k, done))
  {
    RunningStep(line, stage, prompt, k, Exec(line, stage, prompt, k).state);
    assert ReturnsAt(line, k) <==> Fed(line, k) && line[k].hands.None?;
    assert HandsOn(line, k + 1) ==> line[k].hands.Some?;
    hide Exec; hide Loop; hide HandsOn; hide Fed; hide Value;
  }
}
