/** Running a whole plan: schedule independence and preservation of the undivided model. */
module DataflowRun {
  import opened Outcomes
  import opened DataflowBoard

  type Plan = map<string, Role>

  datatype Run = Run(board: Board, outs: map<string, Values>)

  /** Execute the named roles one after another, stopping at the first error. */
  function RunOrder(plan: Plan, order: seq<string>): Result<Run, Error>
    requires forall n :: n in order ==> n in plan
  {
    if order == [] then Ok(Run(map[], map[]))
    else
      var last := order[|order| - 1];
      match RunOrder(plan, order[..|order| - 1])
      case Err(e) => Err(e)
      case Ok(run) =>
        var (board, result) := Step(run.board, plan[last]);
        match result
        case Err(e) => Err(e)
        case Ok(values) => Ok(Run(board, run.outs[last := values]))
  }

  // ----- plans -----

  /** Roles are listed under their own name and no two publications share a reference key. */
  ghost predicate DistinctKeys(plan: Plan) {
    && (forall n :: n in plan ==> plan[n].name == n)
    && (forall n :: n in plan ==> DistinctSeq(OutKeys(plan[n])))
    && (forall a, b, key {:trigger key in OutKeys(plan[a]), key in OutKeys(plan[b])} ::
          (a in plan && b in plan && key in OutKeys(plan[a]) && key in OutKeys(plan[b])) ==> a == b)
  }

  predicate NoDuplicates(order: seq<string>) {
    forall i, j :: 0 <= i < j < |order| ==> order[i] != order[j]
  }

  ghost predicate Publishes(plan: Plan, order: seq<string>, key: RefKey) {
    exists n :: n in order && n in plan && key in OutKeys(plan[n])
  }

  /** The keys a role waits on; none when it starts from given values. */
  ghost predicate WaitsOn(role: Role, key: RefKey) {
    role.initial.None? && Links(role).Ok? && exists l :: l in Links(role).value && l.key == key
  }

  /** A topological order: whatever a role waits on is published by a role before it. */
  ghost predicate Legal(plan: Plan, order: seq<string>)
    requires forall n :: n in order ==> n in plan
  {
    NoDuplicates(order) &&
    forall p, key :: 0 <= p < |order| && WaitsOn(plan[order[p]], key) ==> Publishes(plan, order[..p], key)
  }

  // ----- frames -----

  predicate AgreeOn(b1: Board, b2: Board, key: RefKey) {
    (key in b1 <==> key in b2) && (key in b1 ==> b1[key] == b2[key])
  }

  predicate Within(small: Board, big: Board) {
    forall key :: key in small ==> key in big && small[key] == big[key]
  }

  lemma {:induction false} MergeFrame(b1: Board, b2: Board, inputs: seq<Edge>, links: seq<Link>, values: Values)
    requires forall l :: l in links ==> AgreeOn(b1, b2, l.key)
    ensures Merge(b1, inputs, links, values) == Merge(b2, inputs, links, values)
    decreases |links|
  {
    if links != [] {
      assert links[0] in links;
      if links[0].key in b1 {
        MergeFrame(b1, b2, inputs, links[1..], values + b1[links[0].key]);
      }
    }
  }

  lemma {:induction false} MergeFindsAll(board: Board, inputs: seq<Edge>, links: seq<Link>, values: Values)
    requires Merge(board, inputs, links, values).Ok?
    ensures forall l :: l in links ==> l.key in board
    decreases |links|
  {
    if links != [] {
      MergeFindsAll(board, inputs, links[1..], values + board[links[0].key]);
    }
  }

  /** What a role computes depends only on the bundles it waits on. */
  lemma OutputsFrame(b1: Board, b2: Board, role: Role)
    requires forall key :: WaitsOn(role, key) ==> AgreeOn(b1, b2, key)
    ensures Outputs(b1, role) == Outputs(b2, role)
  {
    if role.initial.None? && Links(role).Ok? {
      var links := Links(role).value;
      forall l | l in links ensures AgreeOn(b1, b2, l.key) {
        assert WaitsOn(role, l.key);
      }
      MergeFrame(b1, b2, role.inputs, links, map[]);
    }
  }

  lemma OutputsFindsAll(board: Board, role: Role)
    requires Outputs(board, role).Ok?
    ensures forall key :: WaitsOn(role, key) ==> key in board
  {
    if role.initial.None? {
      MergeFindsAll(board, role.inputs, Links(role).value, map[]);
    }
  }

  ghost predicate DistinctSeq(keys: seq<RefKey>) {
    forall i, j :: 0 <= i < j < |keys| ==> keys[i] != keys[j]
  }

  ghost predicate PublishedOver(board: Board, keys: seq<RefKey>, bundles: seq<Option<Values>>, n: nat, b: Board)
    requires n <= |keys| == |bundles|
  {
    && (forall key :: key in b <==> key in board || key in keys[..n])
    && (forall i :: 0 <= i < n ==> bundles[i].Some? && b[keys[i]] == bundles[i].value)
    && (forall key :: key in board && key !in keys[..n] ==> b[key] == board[key])
  }

  lemma {:induction false} PublishFirstVerdict(board: Board, keys: seq<RefKey>, bundles: seq<Option<Values>>, n: nat)
    requires n <= |keys| == |bundles|
    ensures PublishFirst(board, keys, bundles, n).1.None? <==> forall i :: 0 <= i < n ==> bundles[i].Some?
  {
    if n > 0 {
      PublishFirstVerdict(board, keys, bundles, n - 1);
    }
  }

  lemma PublishedNext(board: Board, keys: seq<RefKey>, bundles: seq<Option<Values>>, n: nat, b: Board)
    requires 0 < n <= |keys| == |bundles| && DistinctSeq(keys) && bundles[n - 1].Some?
    requires PublishedOver(board, keys, bundles, n - 1, b)
    ensures PublishedOver(board, keys, bundles, n, b[keys[n - 1] := bundles[n - 1].value])
  {
    assert keys[..n] == keys[..n - 1] + [keys[n - 1]];
  }

  lemma {:induction false} PublishFirstEffect(board: Board, keys: seq<RefKey>, bundles: seq<Option<Values>>, n: nat)
    requires n <= |keys| == |bundles| && DistinctSeq(keys)
    requires PublishFirst(board, keys, bundles, n).1.None?
    ensures PublishedOver(board, keys, bundles, n, PublishFirst(board, keys, bundles, n).0)
  {
    if n > 0 {
      PublishFirstEffect(board, keys, bundles, n - 1);
      var b := PublishFirst(board, keys, bundles, n - 1).0;
      PublishedNext(board, keys, bundles, n, b);
      hide PublishedOver;
    }
  }

  // ----- what a completed run leaves behind -----

  ghost predicate Holds(board: Board, keys: seq<RefKey>, bundles: seq<Option<Values>>)
    requires |keys| == |bundles|
  {
    forall i :: 0 <= i < |keys| ==> bundles[i].Some? && keys[i] in board && board[keys[i]] == bundles[i].value
  }

  /** Role n's entry in the run satisfies the dataflow equations over the final board. */
  ghost predicate Settled(plan: Plan, run: Run, n: string)
    requires n in plan
  {
    && n in run.outs
    && Outputs(run.board, plan[n]) == Ok(run.outs[n])
    && (forall key :: WaitsOn(plan[n], key) ==> key in run.board)
    && Holds(run.board, OutKeys(plan[n]), Bundles(run.outs[n], plan[n].outputs))
  }

  ghost predicate Complete(plan: Plan, order: seq<string>, run: Run)
    requires forall n :: n in order ==> n in plan
  {
    && (forall n :: n in run.outs <==> n in order)
    && (forall key :: key in run.board <==> Publishes(plan, order, key))
    && (forall n :: n in order ==> Settled(plan, run, n))
  }

  lemma StepFacts(plan: Plan, order: seq<string>, n: string, run: Run)
    requires DistinctKeys(plan) && n in plan && n !in order
    requires forall m :: m in order ==> m in plan
    requires Complete(plan, order, run)
    requires Step(run.board, plan[n]).1.Ok?
    ensures var (board, result) := Step(run.board, plan[n]);
      && Outputs(run.board, plan[n]) == result
      && PublishedOver(run.board, OutKeys(plan[n]), Bundles(result.value, plan[n].outputs), |plan[n].outputs|, board)
      && Within(run.board, board)
  {
    var role := plan[n];
    var bundles := Bundles(Outputs(run.board, role).value, role.outputs);
    PublishFirstEffect(run.board, OutKeys(role), bundles, |role.outputs|);
    assert OutKeys(role)[..|role.outputs|] == OutKeys(role);
    forall key | key in run.board ensures key !in OutKeys(role) {
      assert Publishes(plan, order, key);
    }
  }

  /** Publishing more under fresh keys leaves a settled role settled. */
  lemma SettledStays(plan: Plan, run: Run, n: string, board: Board, outs: map<string, Values>)
    requires n in plan && Settled(plan, run, n)
    requires Within(run.board, board) && n in outs && outs[n] == run.outs[n]
    ensures Settled(plan, Run(board, outs), n)
  {
    OutputsFrame(run.board, board, plan[n]);
    var bundles := Bundles(run.outs[n], plan[n].outputs);
    assert Holds(run.board, OutKeys(plan[n]), bundles);
    assert Holds(board, OutKeys(plan[n]), bundles);
  }

  lemma StepSettles(plan: Plan, order: seq<string>, n: string, run: Run, outs: map<string, Values>)
    requires DistinctKeys(plan) && n in plan && n !in order
    requires forall m :: m in order ==> m in plan
    requires Complete(plan, order, run)
    requires Step(run.board, plan[n]).1.Ok?
    requires outs == run.outs[n := Step(run.board, plan[n]).1.value]
    ensures Settled(plan, Run(Step(run.board, plan[n]).0, outs), n)
  {
    var (board, result) := Step(run.board, plan[n]);
    StepFacts(plan, order, n, run);
    OutputsFindsAll(run.board, plan[n]);
    OutputsFrame(run.board, board, plan[n]);
    var keys := OutKeys(plan[n]);
    assert keys[..|plan[n].outputs|] == keys;
    assert Holds(board, keys, Bundles(result.value, plan[n].outputs));
  }

  lemma StepCompletes(plan: Plan, order: seq<string>, n: string, run: Run)
    requires DistinctKeys(plan) && n in plan && n !in order
    requires forall m :: m in order ==> m in plan
    requires Complete(plan, order, run)
    requires Step(run.board, plan[n]).1.Ok?
    ensures var (board, result) := Step(run.board, plan[n]);
            Complete(plan, order + [n], Run(board, run.outs[n := result.value]))
  {
    var (board, result) := Step(run.board, plan[n]);
    var outs := run.outs[n := result.value];
    StepFacts(plan, order, n, run);
    StepKeys(plan, order, n, run);
    hide DistinctKeys; hide Publishes; hide Settled; hide PublishedOver; hide Outputs; hide Step; hide Within;
    forall m | m in order + [n] ensures Settled(plan, Run(board, outs), m) {
      if m == n { StepSettles(plan, order, n, run, outs); }
      else { SettledStays(plan, run, m, board, outs); }
    }
  }

  lemma StepKeys(plan: Plan, order: seq<string>, n: string, run: Run)
    requires DistinctKeys(plan) && n in plan && n !in order
    requires forall m :: m in order ==> m in plan
    requires Complete(plan, order, run)
    requires Step(run.board, plan[n]).1.Ok?
    ensures forall key :: key in Step(run.board, plan[n]).0 <==> Publishes(plan, order + [n], key)
  {
    StepFacts(plan, order, n, run);
    assert OutKeys(plan[n])[..|plan[n].outputs|] == OutKeys(plan[n]);
    forall key ensures Publishes(plan, order + [n], key) <==> Publishes(plan, order, key) || key in OutKeys(plan[n]) {
      if Publishes(plan, order, key) {
        var m :| m in order && m in plan && key in OutKeys(plan[m]);
        assert m in order + [n];
      } else if key in OutKeys(plan[n]) {
        assert n in order + [n];
      }
    }
  }

  lemma EmptyCompletes(plan: Plan)
    ensures Complete(plan, [], Run(map[], map[]))
  {
  }

  lemma {:induction false} RunCompletes(plan: Plan, order: seq<string>)
    requires DistinctKeys(plan) && NoDuplicates(order)
    requires forall n :: n in order ==> n in plan
    requires RunOrder(plan, order).Ok?
    ensures Complete(plan, order, RunOrder(plan, order).value)
    decreases |order|
  {
    hide Complete; hide Step; hide DistinctKeys;
    if order == [] {
      EmptyCompletes(plan);
    } else {
      var prefix := order[..|order| - 1];
      var last := order[|order| - 1];
      RunCompletes(plan, prefix);
      StepCompletes(plan, prefix, last, RunOrder(plan, prefix).value);
      assert prefix + [last] == order;
    }
  }

  // ----- schedule independence -----

  predicate Retraces(r: Run, run: Run) {
    Within(r.board, run.board) && forall n :: n in r.outs ==> n in run.outs && r.outs[n] == run.outs[n]
  }

  lemma StepSameResult(plan: Plan, r: Run, n: string, run: Run)
    requires n in plan && Settled(plan, run, n) && Within(r.board, run.board)
    requires forall key :: WaitsOn(plan[n], key) ==> key in r.board
    ensures Step(r.board, plan[n]).1 == Ok(run.outs[n])
  {
    OutputsFrame(r.board, run.board, plan[n]);
    var bundles := Bundles(run.outs[n], plan[n].outputs);
    assert Holds(run.board, OutKeys(plan[n]), bundles);
    PublishFirstVerdict(r.board, OutKeys(plan[n]), bundles, |plan[n].outputs|);
  }

  lemma PublishedWithin(small: Board, big: Board, keys: seq<RefKey>, bundles: seq<Option<Values>>, b: Board)
    requires |keys| == |bundles| && Within(small, big) && Holds(big, keys, bundles)
    requires PublishedOver(small, keys, bundles, |keys|, b)
    ensures Within(b, big)
  {
    assert keys[..|keys|] == keys;
    forall key | key in b ensures key in big && b[key] == big[key] {
      if key in keys {
        var i :| 0 <= i < |keys| && keys[i] == key;
      }
    }
  }

  /** One step of a legal order repeats what the completed run computed for that role. */
  lemma StepRetraces(plan: Plan, prefix: seq<string>, r: Run, n: string, done: seq<string>, run: Run)
    requires DistinctKeys(plan) && n in plan && n !in prefix && n in done
    requires forall m :: m in prefix || m in done ==> m in plan
    requires Complete(plan, prefix, r) && Complete(plan, done, run) && Retraces(r, run)
    requires forall key :: WaitsOn(plan[n], key) ==> Publishes(plan, prefix, key)
    ensures var (board, result) := Step(r.board, plan[n]);
            n in run.outs && result == Ok(run.outs[n]) && Within(board, run.board)
  {
    assert Settled(plan, run, n);
    StepSameResult(plan, r, n, run);
    StepFacts(plan, prefix, n, r);
    PublishedWithin(r.board, run.board, OutKeys(plan[n]), Bundles(run.outs[n], plan[n].outputs), Step(r.board, plan[n]).0);
  }

  /** A legal order retraces, role by role, what any completed run computed. */
  lemma {:induction false} LegalOrderFollows(plan: Plan, done: seq<string>, run: Run, order: seq<string>)
    requires DistinctKeys(plan)
    requires forall n :: n in done || n in order ==> n in plan
    requires Complete(plan, done, run)
    requires Legal(plan, order) && (forall n :: n in order ==> n in done)
    ensures RunOrder(plan, order).Ok?
    ensures Retraces(RunOrder(plan, order).value, run)
    decreases |order|
  {
    hide Step; hide Complete; hide DistinctKeys; hide WaitsOn; hide Publishes; hide Retraces;
    if order == [] {
      NothingRetraces(run);
    } else {
      var prefix := order[..|order| - 1];
      var last := order[|order| - 1];
      assert order == prefix + [last];
      LegalPrefix(plan, order, prefix, last);
      LegalOrderFollows(plan, done, run, prefix);
      RunCompletes(plan, prefix);
      StepRetraces(plan, prefix, RunOrder(plan, prefix).value, last, done, run);
      RetracesNext(RunOrder(plan, prefix).value, last, Step(RunOrder(plan, prefix).value.board, plan[last]).0, run);
    }
  }

  lemma NothingRetraces(run: Run)
    ensures Retraces(Run(map[], map[]), run)
  {
  }

  lemma RetracesNext(r: Run, n: string, board: Board, run: Run)
    requires Retraces(r, run) && n in run.outs && Within(board, run.board)
    ensures Retraces(Run(board, r.outs[n := run.outs[n]]), run)
  {
  }

  lemma LegalPrefix(plan: Plan, order: seq<string>, prefix: seq<string>, last: string)
    requires order == prefix + [last] && (forall n :: n in order ==> n in plan) && Legal(plan, order)
    ensures (forall n :: n in prefix ==> n in order) && Legal(plan, prefix) && last !in prefix
    ensures forall key :: WaitsOn(plan[last], key) ==> Publishes(plan, prefix, key)
  {
    hide WaitsOn; hide Publishes;
    assert order[|prefix|] == last && order[..|prefix|] == prefix;
    assert forall p :: 0 <= p < |prefix| ==> prefix[..p] == order[..p];
  }

  /** Any two topological orders of the same roles agree: one completes exactly when the other
      does, every role has the same outputs, and every reference key leads to the same bundle. */
  lemma ScheduleIndependence(plan: Plan, first: seq<string>, second: seq<string>)
    requires DistinctKeys(plan)
    requires forall n :: n in first <==> n in second
    requires forall n :: n in first ==> n in plan
    requires Legal(plan, first) && Legal(plan, second)
    ensures RunOrder(plan, first).Ok? <==> RunOrder(plan, second).Ok?
    ensures RunOrder(plan, first).Ok? ==> RunOrder(plan, first) == RunOrder(plan, second)
  {
    if RunOrder(plan, first).Ok? {
      SecondFollowsFirst(plan, first, second);
    } else if RunOrder(plan, second).Ok? {
      SecondFollowsFirst(plan, second, first);
    }
  }

  lemma SecondFollowsFirst(plan: Plan, first: seq<string>, second: seq<string>)
    requires DistinctKeys(plan)
    requires forall n :: n in first <==> n in second
    requires forall n :: n in first ==> n in plan
    requires Legal(plan, second) && NoDuplicates(first)
    requires RunOrder(plan, first).Ok?
    ensures RunOrder(plan, second) == RunOrder(plan, first)
  {
    hide RunOrder; hide Complete; hide DistinctKeys; hide WaitsOn;
    RunCompletes(plan, first);
    var run := RunOrder(plan, first).value;
    LegalOrderFollows(plan, first, run, second);
    var other := RunOrder(plan, second).value;
    RunCompletes(plan, second);
    CompleteRunsAgree(plan, first, run, second, other);
  }

  lemma CompleteRunsAgree(plan: Plan, first: seq<string>, run: Run, second: seq<string>, other: Run)
    requires forall n :: n in first <==> n in second
    requires forall n :: n in first ==> n in plan
    requires Complete(plan, first, run) && Complete(plan, second, other) && Retraces(other, run)
    ensures other == run
  {
    hide Settled; hide OutKeys;
    forall key ensures Publishes(plan, first, key) <==> Publishes(plan, second, key) {
      if Publishes(plan, first, key) {
        var n :| n in first && n in plan && key in OutKeys(plan[n]);
        assert n in second;
      }
    }
    assert other.board == run.board;
    assert other.outs == run.outs;
  }
}
