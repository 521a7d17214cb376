/** The named large-object store, the prefetcher over it, and the chunk executor, in the
imperative form of the sources. Each method is proved against the board it implements. */
module LargeObjectStore {
  import opened Outcomes
  import opened Strings
  import opened DataflowBoard
  import opened DataflowRole
  import opened DataflowRun

  function LargeName(n: nat): string {
    "/fake/large/" + Decimal(n)
  }

  lemma LargeNameInjective(m: nat, n: nat)
    requires LargeName(m) == LargeName(n)
    ensures m == n
  {
    assert LargeName(m)[12..] == Decimal(m);
    assert LargeName(n)[12..] == Decimal(n);
    DecimalInjective(m, n);
  }

  /** Payload of a reference: the name of the large object it stands for. */
  datatype Reference = Reference(dataName: string)

  class NdnsfContext {
    var largeObjects: map<string, Values>
    var refs: map<RefKey, Reference>
    var nextLarge: nat

    ghost predicate Valid()
      reads this
    {
      && (forall key :: key in refs ==> refs[key].dataName in largeObjects)
      && (forall name :: name in largeObjects ==> exists i: nat :: i < nextLarge && LargeName(i) == name)
    }

    /** What the references lead to. */
    ghost function Published(): Board
      requires Valid()
      reads this
    {
      map key | key in refs :: largeObjects[refs[key].dataName]
    }

    ghost predicate Extends(before: map<string, Values>)
      reads this
    {
      forall name :: name in before ==> name in largeObjects && largeObjects[name] == before[name]
    }

    constructor ()
      ensures Valid() && Published() == map[]
    {
      largeObjects := map[];
      refs := map[];
      nextLarge := 0;
    }

    method PublishLarge(payload: Values) returns (name: string)
      requires Valid()
      modifies this`largeObjects, this`nextLarge
      ensures Valid() && Published() == old(Published())
      ensures name !in old(largeObjects) && largeObjects == old(largeObjects)[name := payload]
      ensures nextLarge == old(nextLarge) + 1 && name == "/fake/large/" + Decimal(old(nextLarge))
    {
      name := LargeName(nextLarge);
      if name in largeObjects {
        ghost var i: nat :| i < nextLarge && LargeName(i) == name;
        LargeNameInjective(i, nextLarge);
      }
      nextLarge := nextLarge + 1;
      largeObjects := largeObjects[name := payload];
      assert forall n :: n in old(largeObjects) ==> exists i: nat :: i < old(nextLarge) && LargeName(i) == n;
      assert LargeName(old(nextLarge)) == name;
    }

    method Publish(key: RefKey, ref: Reference)
      requires Valid() && ref.dataName in largeObjects
      modifies this`refs
      ensures Valid() && refs == old(refs)[key := ref]
      ensures Published() == old(Published())[key := largeObjects[ref.dataName]]
    {
      hide LargeName;
      refs := refs[key := ref];
      assert Published() == old(Published())[key := largeObjects[ref.dataName]];
    }

    /** Publish a payload and the reference to it. No large object is ever overwritten. */
    method PublishLargeReference(key: RefKey, payload: Values) returns (name: string)
      requires Valid()
      modifies this
      ensures Valid() && Published() == old(Published())[key := payload]
      ensures name !in old(largeObjects) && Extends(old(largeObjects))
    {
      name := PublishLarge(payload);
      Publish(key, Reference(name));
    }

    method WaitOne(key: RefKey) returns (ref: Option<Reference>)
      ensures ref == if key in refs then Some(refs[key]) else None
    {
      ref := if key in refs then Some(refs[key]) else None;
    }

    method FetchLarge(name: string) returns (payload: Option<Values>)
      ensures payload == if name in largeObjects then Some(largeObjects[name]) else None
    {
      payload := if name in largeObjects then Some(largeObjects[name]) else None;
    }

    /** The synchronous prefetcher: resolve the reference, then the object behind it. */
    method PrefetchLarge(key: RefKey) returns (future: Option<Values>)
      requires Valid()
      ensures future == if key in Published() then Some(Published()[key]) else None
    {
      var ref := WaitOne(key);
      match ref
      case None => future := None;
      case Some(r) => future := FetchLarge(r.dataName);
    }
  }

  /** Plan one prefetch per producer of an input edge. */
  method PlanEdge(inputs: seq<Edge>, edge: Edge) returns (r: Result<seq<Link>, Error>)
    ensures r == if edge.producers == [] then Ok([])
                 else match SelectInput(inputs, edge.keyScope)
                   case None => Err(NoInputEdge(edge.keyScope))
                   case Some(selected) => Ok(EdgeLinks(selected, edge.producers))
  {
    hide SelectInput; hide ReferenceKey;
    var links: seq<Link> := [];
    var selected := SelectInput(inputs, edge.keyScope);
    var j := 0;
    assert edge.producers[0..] == edge.producers;
    while j < |edge.producers|
      invariant 0 <= j <= |edge.producers|
      invariant j > 0 ==> selected.Some?
      invariant selected.Some? ==>
                  EdgeLinks(selected.value, edge.producers) == links + EdgeLinks(selected.value, edge.producers[j..])
      invariant j == 0 ==> links == []
    {
      if selected.None? {
        return Err(NoInputEdge(edge.keyScope));
      }
      assert edge.producers[j..][1..] == edge.producers[j + 1..];
      links := links + [Link(selected.value.keyScope, ReferenceKey(selected.value, edge.producers[j]))];
      j := j + 1;
    }
    assert edge.producers[j..] == [];
    assert selected.Some? ==> links + EdgeLinks(selected.value, edge.producers[j..]) == links;
    r := Ok(links);
  }

  /** Plan the prefetches of a role: every producer of every input edge, in order. */
  method PlanPrefetches(role: Role) returns (r: Result<seq<Link>, Error>)
    ensures r == Links(role)
    ensures r.Ok? ==> InPlanOrder(role.inputs, r.value, 0)
    ensures r.Ok? <==> forall i: nat :: i < |role.inputs| ==> !Unselected(role.inputs, i)
  {
    LinksExactly(role);
    hide SelectInput; hide EdgeLinks; hide InPlanOrder; hide Unselected;
    var links: seq<Link> := [];
    var i := 0;
    assert role.inputs[0..] == role.inputs;
    assert forall more: seq<Link> :: links + more == more;
    while i < |role.inputs|
      invariant 0 <= i <= |role.inputs|
      invariant Links(role) == match LinksFrom(role.inputs, role.inputs[i..])
                  case Err(e) => Err(e)
                  case Ok(more) => Ok(links + more)
    {
      assert role.inputs[i..][0] == role.inputs[i] && role.inputs[i..][1..] == role.inputs[i + 1..];
      var planned := PlanEdge(role.inputs, role.inputs[i]);
      if planned.Err? {
        return Err(planned.error);
      }
      assert forall more: seq<Link> :: links + (planned.value + more) == links + planned.value + more;
      links := links + planned.value;
      i := i + 1;
    }
    assert links + [] == links;
    r := Ok(links);
  }

  /** Start every planned prefetch. */
  method PrefetchAll(ctx: NdnsfContext, links: seq<Link>) returns (futures: seq<Option<Values>>)
    requires ctx.Valid()
    ensures |futures| == |links|
    ensures forall k :: 0 <= k < |links| ==>
      futures[k] == if links[k].key in ctx.Published() then Some(ctx.Published()[links[k].key]) else None
  {
    hide *;
    futures := [];
    while |futures| < |links|
      invariant |futures| <= |links|
      invariant forall k :: 0 <= k < |futures| ==>
        futures[k] == if links[k].key in ctx.Published() then Some(ctx.Published()[links[k].key]) else None
    {
      var future := ctx.PrefetchLarge(links[|futures|].key);
      futures := futures + [future];
    }
  }

  /** Wait for the prefetches in order and merge the bundles by tensor name. */
  method MergeFutures(inputs: seq<Edge>, links: seq<Link>, futures: seq<Option<Values>>, ghost board: Board)
    returns (r: Result<Values, Error>)
    requires |futures| == |links|
    requires forall k :: 0 <= k < |links| ==>
      futures[k] == if links[k].key in board then Some(board[links[k].key]) else None
    ensures r == Merge(board, inputs, links, map[])
    ensures r.Ok? <==> AllGood(board, inputs, links)
    ensures r.Ok? ==> LastWins(board, links, r.value)
    ensures r.Err? ==> FirstBad(board, inputs, links, r.error)
  {
    MergeExactly(board, inputs, links);
    hide Carries; hide Good; hide LastWins; hide FirstBad;
    var values: Values := map[];
    var i := 0;
    assert links[0..] == links;
    while i < |links|
      invariant 0 <= i <= |links|
      invariant Merge(board, inputs, links, map[]) == Merge(board, inputs, links[i..], values)
    {
      assert links[i..][0] == links[i] && links[i..][1..] == links[i + 1..];
      match futures[i] {
        case None => return Err(MissingReference(links[i].key));
        case Some(bundle) =>
          if !Carries(inputs, links[i].scope, bundle.Keys) {
            return Err(BundleLacksEveryTensor(links[i].scope));
          }
          values := values + bundle;
      }
      i := i + 1;
    }
    assert links[i..] == [];
    r := Ok(values);
  }

  /** Collect and merge the inputs of a role that does not start from given values. */
  method CollectInputs(ctx: NdnsfContext, role: Role) returns (r: Result<Values, Error>)
    requires ctx.Valid() && role.initial.None?
    ensures r == Gather(ctx.Published(), role)
    ensures match Links(role)
            case Err(e) => r == Err(e)
            case Ok(links) => Gathered(ctx.Published(), role, links, r)
  {
    GatherExactly(ctx.Published(), role);
    hide Covered; hide Merge; hide Links; hide Gathered; hide AllGood; hide LastWins; hide FirstBad;
    var planned := PlanPrefetches(role);
    if planned.Err? {
      return Err(planned.error);
    }
    var futures := PrefetchAll(ctx, planned.value);
    var merged := MergeFutures(role.inputs, planned.value, futures, ctx.Published());
    if merged.Err? {
      return Err(merged.error);
    }
    r := if Covered(merged.value.Keys, role.inputs) then Ok(merged.value) else Err(MergedLacksTensor(role.name));
  }

  /** Publish one bundle per output edge, stopping at an edge whose tensors are all missing. */
  method PublishBundles(ctx: NdnsfContext, keys: seq<RefKey>, bundles: seq<Option<Values>>) returns (failed: Option<nat>)
    requires ctx.Valid() && |keys| == |bundles|
    modifies ctx
    ensures ctx.Valid() && ctx.Extends(old(ctx.largeObjects))
    ensures (ctx.Published(), failed) == PublishFirst(old(ctx.Published()), keys, bundles, |keys|)
  {
    ghost var board := ctx.Published();
    var i := 0;
    while i < |keys|
      invariant 0 <= i <= |keys|
      invariant ctx.Valid() && ctx.Extends(old(ctx.largeObjects))
      invariant PublishFirst(board, keys, bundles, i) == (ctx.Published(), None)
    {
      match bundles[i] {
        case None =>
          PublishStops(board, keys, bundles, i, |keys|);
          return Some(i);
        case Some(bundle) =>
          var _ := ctx.PublishLargeReference(keys[i], bundle);
      }
      i := i + 1;
    }
    failed := None;
  }

  /** Run one chunk and publish its declared outputs. */
  method ExecuteRole(ctx: NdnsfContext, role: Role) returns (r: Result<Values, Error>)
    requires ctx.Valid()
    modifies ctx
    ensures ctx.Valid() && (ctx.Published(), r) == Step(old(ctx.Published()), role)
    ensures ctx.Extends(old(ctx.largeObjects))
  {
    hide OutKeys; hide Bundles; hide Feed; hide Feedable; hide Links; hide Merge; hide Covered; hide PublishFirst;
    var gathered: Result<Values, Error>;
    match role.initial {
      case Some(values) => gathered := Ok(values);
      case None => gathered := CollectInputs(ctx, role);
    }
    assert gathered == Gather(ctx.Published(), role);
    hide Gather;
    if gathered.Err? {
      return Err(gathered.error);
    }
    if !Feedable(gathered.value.Keys, role.feeds) {
      return Err(FeedMissing(role.name));
    }
    var outputs := role.chunk(Feed(gathered.value, role.feeds));
    var failed := PublishBundles(ctx, OutKeys(role), Bundles(outputs, role.outputs));
    r := if failed.Some? then Err(OutputLacksEveryTensor(FailedScope(role, failed.value))) else Ok(outputs);
  }

  lemma {:induction false} PublishStops(board: Board, keys: seq<RefKey>, bundles: seq<Option<Values>>, i: nat, n: nat)
    requires i < n <= |keys| == |bundles| && bundles[i].None?
    requires PublishFirst(board, keys, bundles, i).1.None?
    ensures PublishFirst(board, keys, bundles, n) == (PublishFirst(board, keys, bundles, i).0, Some(i))
  {
    if n > i + 1 {
      PublishStops(board, keys, bundles, i, n - 1);
    }
  }

  /** Execute the roles of a plan in the given order over a fresh store. */
  method RunPlan(plan: Plan, order: seq<string>) returns (ctx: NdnsfContext, r: Result<map<string, Values>, Error>)
    requires forall n :: n in order ==> n in plan
    ensures fresh(ctx) && ctx.Valid()
    ensures RunOrder(plan, order) == match r
              case Ok(outs) => Ok(Run(ctx.Published(), outs))
              case Err(e) => Err(e)
  {
    ctx := new NdnsfContext();
    var outs: map<string, Values> := map[];
    var i := 0;
    while i < |order|
      invariant 0 <= i <= |order| && fresh(ctx) && ctx.Valid()
      invariant RunOrder(plan, order[..i]) == Ok(Run(ctx.Published(), outs))
    {
      var result := ExecuteRole(ctx, plan[order[i]]);
      assert order[..i + 1][..i] == order[..i] && order[..i + 1][i] == order[i];
      match result {
        case Err(e) =>
          ErrorEndsRun(plan, order, i + 1, e);
          return ctx, Err(e);
        case Ok(values) => outs := outs[order[i] := values];
      }
      i := i + 1;
    }
    assert order[..i] == order;
    r := Ok(outs);
  }

  lemma {:induction false} ErrorEndsRun(plan: Plan, order: seq<string>, i: nat, e: Error)
    requires i <= |order| && forall n :: n in order ==> n in plan
    requires RunOrder(plan, order[..i]) == Err(e)
    ensures RunOrder(plan, order) == Err(e)
    decreases |order|
  {
    if i == |order| {
      assert order[..i] == order;
    } else {
      var prefix := order[..|order| - 1];
      assert prefix[..i] == order[..i];
      ErrorEndsRun(plan, prefix, i, e);
    }
  }
}
