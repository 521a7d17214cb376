/** What one role gathers, name by name, in terms of its links and the board. */
module DataflowRole {
  import opened Outcomes
  import opened Strings
  import opened DataflowBoard

  // ----- looking a tensor name up -----

  predicate AllDigits(s: string) {
    s != [] && forall i :: 0 <= i < |s| ==> IsDigit(s[i])
  }

  /** The name is the base with a numeric suffix. */
  predicate Suffixed(name: string, base: string) {
    |base| < |name| && name[..|base|] == base && name[|base|] == '.' && AllDigits(name[|base| + 1..])
  }

  lemma {:induction false} LastDotIsLast(name: string, k: nat)
    requires k < |name| && name[k] == '.'
    ensures LastDot(name) >= k
  {
    if name[|name| - 1] != '.' {
      LastDotIsLast(name[..|name| - 1], k);
    }
  }

  lemma DotBeforeDigits(name: string, base: string)
    requires Suffixed(name, base)
    ensures LastDot(name) == |base|
  {
    LastDotIsLast(name, |base|);
    var suffix := name[|base| + 1..];
    forall k | |base| < k < |name| ensures IsDigit(name[k]) {
      assert suffix[k - |base| - 1] == name[k];
    }
  }

  /** A key answers for a name exactly when it is there and is the name, or the name is not there and is
      the key with a numeric suffix. */
  lemma ResolveExactly(keys: set<string>, name: string, key: string)
    ensures Resolve(keys, name) == Some(key) <==>
      key in keys && (name == key || (name !in keys && Suffixed(name, key)))
  {
    var dot := LastDot(name);
    if name !in keys && Resolve(keys, name) == Some(key) {
      assert name[..dot] == key && |key| == dot;
      var suffix := name[dot + 1..];
      forall i | 0 <= i < |suffix| ensures IsDigit(suffix[i]) {
        assert suffix[i] == name[dot + 1 + i];
      }
    }
    if key in keys && name !in keys && Suffixed(name, key) {
      DotBeforeDigits(name, key);
      forall i | dot < i < |name| ensures IsDigit(name[i]) {
        assert name[i] == name[|key| + 1..][i - dot - 1];
      }
    }
  }

  /** Something among the keys answers for the name. */
  ghost predicate Answered(keys: set<string>, name: string) {
    name in keys || exists base :: base in keys && Suffixed(name, base)
  }

  lemma AnsweredExactly(keys: set<string>, name: string)
    ensures Resolve(keys, name).Some? <==> Answered(keys, name)
  {
    if Resolve(keys, name).Some? {
      ResolveExactly(keys, name, Resolve(keys, name).value);
    }
    if base :| base in keys && Suffixed(name, base) && name !in keys {
      ResolveExactly(keys, name, base);
    }
  }

  lemma {:induction false} RequestedMembers(tensors: seq<string>)
    ensures forall n :: n in Requested(tensors) <==> n in tensors && n != []
  {
    if tensors != [] {
      RequestedMembers(tensors[1..]);
      assert tensors == [tensors[0]] + tensors[1..];
    }
  }

  lemma {:induction false} ResolvableMembers(keys: set<string>, names: seq<string>)
    ensures forall n :: n in Resolvable(keys, names) <==> n in names && Resolve(keys, n).Some?
  {
    if names != [] {
      ResolvableMembers(keys, names[1..]);
      assert names == [names[0]] + names[1..];
    }
  }

  // ----- which bundles an edge accepts -----

  /** The last of the edges with that scope. */
  ghost predicate KeptEdge(inputs: seq<Edge>, i: nat, scope: string) {
    i < |inputs| && inputs[i].keyScope == scope && forall j :: i < j < |inputs| ==> inputs[j].keyScope != scope
  }

  /** The edge declares no tensors, or the bundle answers for one of them. */
  ghost predicate Accepts(edge: Edge, keys: set<string>) {
    edge.tensors == [] || exists t :: t in edge.tensors && t != [] && Answered(keys, t)
  }

  ghost predicate AcceptedOver(inputs: seq<Edge>, scope: string, keys: set<string>) {
    exists i: nat :: KeptEdge(inputs, i, scope) && Accepts(inputs[i], keys)
  }

  lemma KeptWithin(inputs: seq<Edge>, n: nat, i: nat, scope: string)
    requires |inputs| == n + 1 && inputs[n].keyScope != scope
    ensures KeptEdge(inputs, i, scope) <==> KeptEdge(inputs[..n], i, scope)
  {
    if KeptEdge(inputs[..n], i, scope) {
      assert forall j :: 0 <= j < n ==> inputs[j] == inputs[..n][j];
    }
  }

  lemma {:induction false} LastEdgeKept(inputs: seq<Edge>, scope: string)
    ensures LastEdge(inputs, scope).Some? ==> exists i: nat :: KeptEdge(inputs, i, scope) && inputs[i] == LastEdge(inputs, scope).value
    ensures LastEdge(inputs, scope).None? ==> forall i: nat :: !KeptEdge(inputs, i, scope)
  {
    if inputs != [] {
      var n := |inputs| - 1;
      if inputs[n].keyScope == scope {
        assert KeptEdge(inputs, n, scope);
      } else {
        LastEdgeKept(inputs[..n], scope);
        forall i: nat ensures KeptEdge(inputs, i, scope) <==> KeptEdge(inputs[..n], i, scope) {
          KeptWithin(inputs, n, i, scope);
        }
        hide KeptEdge;
      }
    }
  }

  lemma AvailableExactly(keys: set<string>, tensors: seq<string>)
    ensures forall t :: t in Available(keys, tensors) <==> t in tensors && t != [] && Answered(keys, t)
  {
    RequestedMembers(tensors);
    ResolvableMembers(keys, Requested(tensors));
    hide Resolve; hide Answered; hide Requested; hide Resolvable;
    forall t ensures Resolve(keys, t).Some? <==> Answered(keys, t) {
      AnsweredExactly(keys, t);
    }
  }

  lemma CarriesExactly(inputs: seq<Edge>, scope: string, keys: set<string>)
    ensures Carries(inputs, scope, keys) <==> AcceptedOver(inputs, scope, keys)
  {
    LastEdgeKept(inputs, scope);
    hide LastEdge; hide Available; hide Answered;
    if LastEdge(inputs, scope).Some? {
      var i: nat :| KeptEdge(inputs, i, scope) && inputs[i] == LastEdge(inputs, scope).value;
      AvailableExactly(keys, inputs[i].tensors);
      if Available(keys, inputs[i].tensors) != [] {
        assert Available(keys, inputs[i].tensors)[0] in Available(keys, inputs[i].tensors);
      }
      forall j: nat | KeptEdge(inputs, j, scope) ensures j == i {}
    }
  }

  // ----- merging -----

  ghost predicate Carrying(board: Board, links: seq<Link>, i: nat, f: string) {
    i < |links| && links[i].key in board && f in board[links[i].key]
  }

  /** The last link whose bundle carries the name. */
  ghost predicate LastCarrying(board: Board, links: seq<Link>, i: nat, f: string) {
    Carrying(board, links, i, f) && forall j: nat :: i < j ==> !Carrying(board, links, j, f)
  }

  /** The names are those that some link's bundle carries, each with the last such bundle's value. */
  ghost predicate LastWins(board: Board, links: seq<Link>, values: Values) {
    && (forall f :: f in values <==> exists i: nat :: Carrying(board, links, i, f))
    && (forall f, i: nat :: LastCarrying(board, links, i, f) ==> f in values && values[f] == board[links[i].key][f])
  }

  ghost predicate Good(board: Board, inputs: seq<Edge>, links: seq<Link>, i: nat)
    requires i < |links|
  {
    links[i].key in board && AcceptedOver(inputs, links[i].scope, board[links[i].key].Keys)
  }

  /** The error of the first link that is not good. */
  ghost predicate FirstBad(board: Board, inputs: seq<Edge>, links: seq<Link>, e: Error) {
    exists i: nat :: i < |links| && (forall j: nat :: j < i ==> Good(board, inputs, links, j)) && !Good(board, inputs, links, i)
                  && e == if links[i].key !in board then MissingReference(links[i].key) else BundleLacksEveryTensor(links[i].scope)
  }

  lemma CarryingNext(board: Board, links: seq<Link>, i: nat, j: nat, f: string)
    requires i < |links| && links[i].key in board
    ensures Carrying(board, links[..i + 1], j, f) <==> (j == i && f in board[links[i].key]) || Carrying(board, links[..i], j, f)
  {
  }

  /** One link more, after those merged so far. */
  lemma LastWinsNext(board: Board, links: seq<Link>, i: nat, values: Values)
    requires i < |links| && links[i].key in board && LastWins(board, links[..i], values)
    ensures LastWins(board, links[..i + 1], values + board[links[i].key])
  {
    var bundle := board[links[i].key];
    var before, after := links[..i], links[..i + 1];
    assert forall j :: 0 <= j < i ==> after[j] == before[j];
    assert after[i] == links[i];
    forall j: nat, f ensures Carrying(board, after, j, f) <==> (j == i && f in bundle) || Carrying(board, before, j, f) {
      CarryingNext(board, links, i, j, f);
    }
    forall f ensures f in values + bundle <==> exists j: nat :: Carrying(board, after, j, f) {
      if f in bundle { assert Carrying(board, after, i, f); }
      if j: nat :| Carrying(board, before, j, f) { assert Carrying(board, after, j, f); }
    }
    forall f, j: nat | LastCarrying(board, after, j, f)
      ensures f in values + bundle && (values + bundle)[f] == board[after[j].key][f]
    {
      LastNext(board, before, after, i, j, f);
      if j == i {
        assert after[j].key == links[i].key && f in bundle;
      } else {
        assert LastCarrying(board, before, j, f) && f !in bundle;
        assert after[j] == before[j];
      }
    }
  }

  lemma LastNext(board: Board, before: seq<Link>, after: seq<Link>, i: nat, j: nat, f: string)
    requires LastCarrying(board, after, j, f) && |before| == i && |after| == i + 1 && after[i].key in board
    requires forall k: nat :: Carrying(board, after, k, f) <==> (k == i && f in board[after[i].key]) || Carrying(board, before, k, f)
    ensures j == i ==> f in board[after[i].key]
    ensures j != i ==> LastCarrying(board, before, j, f) && f !in board[after[i].key] && j < i
  {
    assert Carrying(board, after, i, f) <==> f in board[after[i].key];
  }

  /** Merging from a point in the links on: it succeeds exactly when all that follow are good. */
  lemma {:induction false} MergeFrom(board: Board, inputs: seq<Edge>, links: seq<Link>, i: nat, values: Values)
    requires i <= |links| && LastWins(board, links[..i], values) && forall j: nat :: j < i ==> Good(board, inputs, links, j)
    ensures var r := Merge(board, inputs, links[i..], values);
      && (r.Ok? <==> forall j: nat :: j < |links| ==> Good(board, inputs, links, j))
      && (r.Ok? ==> LastWins(board, links, r.value))
      && (r.Err? ==> FirstBad(board, inputs, links, r.error))
    decreases |links| - i
  {
    if i == |links| {
      assert links[..i] == links && links[i..] == [];
    } else {
      assert links[i..][0] == links[i] && links[i..][1..] == links[i + 1..];
      if links[i].key in board {
        CarriesExactly(inputs, links[i].scope, board[links[i].key].Keys);
        hide LastWins; hide Carries; hide AcceptedOver;
        if Good(board, inputs, links, i) {
          LastWinsNext(board, links, i, values);
          MergeFrom(board, inputs, links, i + 1, values + board[links[i].key]);
        }
      }
      assert Good(board, inputs, links, i) <==> links[i].key in board && Carries(inputs, links[i].scope, board[links[i].key].Keys);
    }
  }

  lemma NothingMerged(board: Board, links: seq<Link>)
    ensures LastWins(board, links[..0], map[])
  {
  }

  /** Merging succeeds exactly when every link's bundle is there and accepted, and gives each name that some
      bundle carries the value of the last that does; otherwise it fails with the first link that is not good. */
  lemma MergeExactly(board: Board, inputs: seq<Edge>, links: seq<Link>)
    ensures var r := Merge(board, inputs, links, map[]);
      && (r.Ok? <==> forall j: nat :: j < |links| ==> Good(board, inputs, links, j))
      && (r.Ok? ==> LastWins(board, links, r.value))
      && (r.Err? ==> FirstBad(board, inputs, links, r.error))
  {
    NothingMerged(board, links);
    assert links[0..] == links;
    hide LastWins; hide Good; hide FirstBad; hide Merge;
    MergeFrom(board, inputs, links, 0, map[]);
  }

  // ----- the links of a role -----

  /** Where an edge's first link stands: after one for each producer of the edges before it. */
  function Offset(edges: seq<Edge>, i: nat): nat
    requires i <= |edges|
  {
    if i == 0 then 0 else Offset(edges, i - 1) + |edges[i - 1].producers|
  }

  /** The edge a scope selects: the first that has it, or the only edge when it is empty. */
  ghost predicate Selected(inputs: seq<Edge>, scope: string, edge: Edge) {
    if scope == [] then inputs == [edge]
    else exists i :: 0 <= i < |inputs| && inputs[i] == edge && edge.keyScope == scope && forall j :: 0 <= j < i ==> inputs[j].keyScope != scope
  }

  lemma {:induction false} FirstEdgeSelected(edges: seq<Edge>, scope: string)
    requires scope != []
    ensures FirstEdge(edges, scope).Some? ==> Selected(edges, scope, FirstEdge(edges, scope).value)
    ensures FirstEdge(edges, scope).None? ==> forall e :: e in edges ==> e.keyScope != scope
  {
    if edges != [] && edges[0].keyScope != scope {
      FirstEdgeSelected(edges[1..], scope);
      if FirstEdge(edges[1..], scope).Some? {
        var i :| 0 <= i < |edges[1..]| && edges[1..][i] == FirstEdge(edges[1..], scope).value && edges[1..][i].keyScope == scope
              && forall j :: 0 <= j < i ==> edges[1..][j].keyScope != scope;
        assert edges[i + 1] == FirstEdge(edges, scope).value;
        forall j | 0 <= j < i + 1 ensures edges[j].keyScope != scope {
          if j > 0 { assert edges[j] == edges[1..][j - 1]; }
        }
      }
      assert edges == [edges[0]] + edges[1..];
    }
  }

  lemma SelectInputExactly(inputs: seq<Edge>, scope: string)
    ensures SelectInput(inputs, scope).Some? ==> Selected(inputs, scope, SelectInput(inputs, scope).value)
    ensures SelectInput(inputs, scope).None? ==> forall e :: !Selected(inputs, scope, e)
  {
    if scope != [] {
      FirstEdgeSelected(inputs, scope);
    } else if |inputs| == 1 {
      assert inputs == [inputs[0]];
    }
  }

  /** The link for an edge's j-th producer: over the edge its scope selects, to that producer's reference. */
  ghost predicate LinkFor(inputs: seq<Edge>, i: nat, j: nat, link: Link)
    requires i < |inputs| && j < |inputs[i].producers|
  {
    exists e :: Selected(inputs, inputs[i].keyScope, e) && link.scope == e.keyScope
             && link.key == (e.keyScope, Topic(e.topicPrefix, "ref/" + RoleToken(inputs[i].producers[j])))
  }

  /** That link stands at the edge's offset, counted from `base`, and the producer's place after it. */
  ghost predicate Placed(inputs: seq<Edge>, links: seq<Link>, base: nat, i: nat, j: nat)
    requires i < |inputs| && j < |inputs[i].producers|
  {
    var at := Offset(inputs, i) + j;
    base <= at < base + |links| && LinkFor(inputs, i, j, links[at - base])
  }

  /** One link for each producer of each edge from one on, in order. */
  ghost predicate InPlanOrder(inputs: seq<Edge>, links: seq<Link>, k: nat)
    requires k <= |inputs|
  {
    && |links| == Offset(inputs, |inputs|) - Offset(inputs, k)
    && forall i: nat, j: nat {:trigger Placed(inputs, links, Offset(inputs, k), i, j)} ::
         k <= i < |inputs| && j < |inputs[i].producers| ==> Placed(inputs, links, Offset(inputs, k), i, j)
  }

  lemma {:induction false} EdgeLinksAt(edge: Edge, producers: seq<string>, j: nat)
    ensures |EdgeLinks(edge, producers)| == |producers|
    ensures j < |producers| ==> EdgeLinks(edge, producers)[j] == Link(edge.keyScope, ReferenceKey(edge, producers[j]))
  {
    if producers != [] {
      EdgeLinksAt(edge, producers[1..], if j > 0 then j - 1 else 0);
    }
  }

  lemma {:induction false} OffsetsGrow(edges: seq<Edge>, i: nat, k: nat)
    requires i <= k <= |edges|
    ensures Offset(edges, i) <= Offset(edges, k)
  {
    if i < k {
      OffsetsGrow(edges, i, k - 1);
    }
  }

  lemma PlacedFirst(inputs: seq<Edge>, k: nat, edge: Edge, more: seq<Link>)
    requires k < |inputs| && Selected(inputs, inputs[k].keyScope, edge) && InPlanOrder(inputs, more, k + 1)
    ensures InPlanOrder(inputs, EdgeLinks(edge, inputs[k].producers) + more, k)
  {
    hide Selected; hide Topic; hide RoleToken;
    var own := EdgeLinks(edge, inputs[k].producers);
    var links, base := own + more, Offset(inputs, k);
    EdgeLinksAt(edge, inputs[k].producers, 0);
    OffsetsGrow(inputs, k + 1, |inputs|);
    forall i: nat, j: nat {:trigger Placed(inputs, links, base, i, j)} | k <= i < |inputs| && j < |inputs[i].producers|
      ensures Placed(inputs, links, base, i, j)
    {
      if i == k {
        EdgeLinksAt(edge, inputs[k].producers, j);
        assert LinkFor(inputs, i, j, own[j]);
      } else {
        OffsetsGrow(inputs, k + 1, i);
        assert Placed(inputs, more, Offset(inputs, k + 1), i, j);
      }
    }
  }

  lemma {:induction false} LinksFromAt(inputs: seq<Edge>, k: nat)
    requires k <= |inputs| && LinksFrom(inputs, inputs[k..]).Ok?
    ensures InPlanOrder(inputs, LinksFrom(inputs, inputs[k..]).value, k)
    decreases |inputs| - k
  {
    if k == |inputs| {
      assert inputs[k..] == [];
    } else {
      assert inputs[k..][0] == inputs[k] && inputs[k..][1..] == inputs[k + 1..];
      LinksFromAt(inputs, k + 1);
      if inputs[k].producers == [] {
        SkipsEdge(inputs, k, LinksFrom(inputs, inputs[k + 1..]).value);
      } else {
        LinksUnfold(inputs, k);
        SelectInputExactly(inputs, inputs[k].keyScope);
        hide InPlanOrder; hide LinksFrom; hide Selected; hide SelectInput;
        PlacedFirst(inputs, k, SelectInput(inputs, inputs[k].keyScope).value, LinksFrom(inputs, inputs[k + 1..]).value);
      }
    }
  }

  lemma SkipsEdge(inputs: seq<Edge>, k: nat, links: seq<Link>)
    requires k < |inputs| && inputs[k].producers == [] && InPlanOrder(inputs, links, k + 1)
    ensures InPlanOrder(inputs, links, k)
  {
    hide LinkFor;
    assert Offset(inputs, k + 1) == Offset(inputs, k);
    forall i: nat, j: nat {:trigger Placed(inputs, links, Offset(inputs, k), i, j)} | k <= i < |inputs| && j < |inputs[i].producers|
      ensures Placed(inputs, links, Offset(inputs, k), i, j)
    {
      assert Placed(inputs, links, Offset(inputs, k + 1), i, j);
    }
  }

  lemma LinksUnfold(inputs: seq<Edge>, k: nat)
    requires k < |inputs| && LinksFrom(inputs, inputs[k..]).Ok? && inputs[k].producers != []
    ensures SelectInput(inputs, inputs[k].keyScope).Some? && LinksFrom(inputs, inputs[k + 1..]).Ok?
    ensures LinksFrom(inputs, inputs[k..]).value
         == EdgeLinks(SelectInput(inputs, inputs[k].keyScope).value, inputs[k].producers) + LinksFrom(inputs, inputs[k + 1..]).value
  {
    assert inputs[k..][0] == inputs[k] && inputs[k..][1..] == inputs[k + 1..];
    hide SelectInput; hide EdgeLinks;
  }

  ghost predicate Unselected(inputs: seq<Edge>, i: nat)
    requires i < |inputs|
  {
    inputs[i].producers != [] && forall e :: !Selected(inputs, inputs[i].keyScope, e)
  }

  /** The first edge from one on that selects none, when there is one. */
  ghost predicate FirstUnselected(inputs: seq<Edge>, k: nat, i: nat) {
    k <= i < |inputs| && Unselected(inputs, i) && forall j: nat :: k <= j < i ==> !Unselected(inputs, j)
  }

  lemma {:induction false} LinksFail(inputs: seq<Edge>, k: nat)
    requires k <= |inputs|
    ensures LinksFrom(inputs, inputs[k..]).Ok? ==> forall i: nat :: k <= i < |inputs| ==> !Unselected(inputs, i)
    ensures LinksFrom(inputs, inputs[k..]).Err? ==>
      exists i: nat :: FirstUnselected(inputs, k, i) && LinksFrom(inputs, inputs[k..]).error == NoInputEdge(inputs[i].keyScope)
    decreases |inputs| - k
  {
    if k == |inputs| {
      assert inputs[k..] == [];
    } else {
      assert inputs[k..][0] == inputs[k] && inputs[k..][1..] == inputs[k + 1..];
      LinksFail(inputs, k + 1);
      SelectInputExactly(inputs, inputs[k].keyScope);
      assert Unselected(inputs, k) <==> inputs[k].producers != [] && SelectInput(inputs, inputs[k].keyScope).None?;
      hide SelectInput; hide EdgeLinks; hide Selected; hide Unselected;
      if Unselected(inputs, k) {
        assert FirstUnselected(inputs, k, k);
      } else if LinksFrom(inputs, inputs[k + 1..]).Err? {
        var i: nat :| FirstUnselected(inputs, k + 1, i) && LinksFrom(inputs, inputs[k + 1..]).error == NoInputEdge(inputs[i].keyScope);
        assert FirstUnselected(inputs, k, i);
      }
    }
  }

  /** The links of a role are one for each producer of each input edge, in order; there are none exactly when
      some edge with a producer selects no edge, and then the first such is named. */
  lemma LinksExactly(role: Role)
    ensures Links(role).Ok? ==> InPlanOrder(role.inputs, Links(role).value, 0)
    ensures Links(role).Ok? <==> forall i: nat :: i < |role.inputs| ==> !Unselected(role.inputs, i)
    ensures Links(role).Err? ==>
      exists i: nat :: FirstUnselected(role.inputs, 0, i) && Links(role).error == NoInputEdge(role.inputs[i].keyScope)
  {
    hide LinksFrom; hide InPlanOrder; hide Unselected;
    assert role.inputs[0..] == role.inputs;
    LinksFail(role.inputs, 0);
    if Links(role).Ok? {
      LinksFromAt(role.inputs, 0);
    }
  }

  // ----- gathering -----

  /** Everything the last edge with tensors of each scope declares is answered for. */
  ghost predicate AllAnswered(inputs: seq<Edge>, keys: set<string>) {
    forall i: nat, t :: LastWithTensors(inputs, i) && t in inputs[i].tensors && t != [] ==> Answered(keys, t)
  }

  ghost predicate LastWithTensors(inputs: seq<Edge>, i: nat) {
    && i < |inputs| && inputs[i].tensors != []
    && forall j: nat :: i < j < |inputs| ==> inputs[j].tensors == [] || inputs[j].keyScope != inputs[i].keyScope
  }

  lemma CoveredExactly(inputs: seq<Edge>, keys: set<string>)
    ensures Covered(keys, inputs) <==> AllAnswered(inputs, keys)
  {
    hide Answered; hide Resolve;
    forall i | 0 <= i < |inputs| ensures CoversEdge(keys, inputs[i]) <==> forall t :: t in inputs[i].tensors && t != [] ==> Answered(keys, t) {
      RequestedMembers(inputs[i].tensors);
      forall t ensures Resolve(keys, t).Some? <==> Answered(keys, t) { AnsweredExactly(keys, t); }
    }
    hide CoversEdge; hide Requested;
  }

  ghost predicate AllGood(board: Board, inputs: seq<Edge>, links: seq<Link>) {
    forall j: nat :: j < |links| ==> Good(board, inputs, links, j)
  }

  /** What a role without given values gathers over its links: the last bundle's value for each name, exactly
      when all the links are good and all its edges' tensors are answered for. */
  ghost predicate Gathered(board: Board, role: Role, links: seq<Link>, r: Result<Values, Error>) {
    if !AllGood(board, role.inputs, links) then r.Err? && FirstBad(board, role.inputs, links, r.error)
    else exists values: Values :: LastWins(board, links, values)
           && r == if AllAnswered(role.inputs, values.Keys) then Ok(values) else Err(MergedLacksTensor(role.name))
  }

  /** At most one set of values is what the last bundles carry. */
  lemma LastWinsUnique(board: Board, links: seq<Link>, v: Values, w: Values)
    requires LastWins(board, links, v) && LastWins(board, links, w)
    ensures v == w
  {
    forall f | f in v ensures f in w && v[f] == w[f] {
      var i: nat :| Carrying(board, links, i, f);
      var k := LastOf(board, links, f, |links|);
      assert LastCarrying(board, links, k, f);
    }
    hide Carrying;
    forall f | f in w ensures f in v {}
  }

  lemma {:induction false} LastOf(board: Board, links: seq<Link>, f: string, n: nat) returns (k: nat)
    requires exists i: nat :: i < n && Carrying(board, links, i, f)
    requires forall j: nat :: n <= j ==> !Carrying(board, links, j, f)
    ensures LastCarrying(board, links, k, f)
  {
    hide Carrying;
    if Carrying(board, links, n - 1, f) {
      k := n - 1;
    } else {
      k := LastOf(board, links, f, n - 1);
    }
  }

  lemma GatherExactly(board: Board, role: Role)
    requires role.initial.None?
    ensures match Links(role)
            case Err(e) => Gather(board, role) == Err(e)
            case Ok(links) => Gathered(board, role, links, Gather(board, role))
  {
    hide Merge; hide Links; hide LastWins; hide Good; hide FirstBad; hide AllAnswered; hide Covered;
    if Links(role).Ok? {
      MergeExactly(board, role.inputs, Links(role).value);
      var merged := Merge(board, role.inputs, Links(role).value, map[]);
      if merged.Ok? {
        CoveredExactly(role.inputs, merged.value.Keys);
      }
    }
  }

  // ----- the names references go by -----

  lemma {:induction false} RStripExactly(s: string, c: char)
    ensures var r := RStrip(s, c);
      && |r| <= |s| && s[..|r|] == r && (forall i :: |r| <= i < |s| ==> s[i] == c) && (r != [] ==> r[|r| - 1] != c)
  {
    if s != [] && s[|s| - 1] == c {
      RStripExactly(s[..|s| - 1], c);
      var r := RStrip(s, c);
      assert s[..|s| - 1][..|r|] == s[..|r|];
      forall i | |r| <= i < |s| ensures s[i] == c {
        if i < |s| - 1 { assert s[i] == s[..|s| - 1][i]; }
      }
    } else {
      assert s[..|s|] == s;
    }
  }

  /** The prefix without the slashes it ends in. */
  ghost predicate Trimmed(prefix: string, base: string) {
    && |base| <= |prefix| && prefix[..|base|] == base && (forall i :: |base| <= i < |prefix| ==> prefix[i] == '/')
    && (base != [] ==> base[|base| - 1] != '/')
  }

  /** A topic is its prefix alone, or the prefix without the slashes it ends in, then the suffix, which brings its own
      slash or gets one. */
  lemma TopicExactly(prefix: string, suffix: string, base: string)
    requires Trimmed(prefix, base)
    ensures Topic(prefix, suffix) ==
      if suffix == [] then prefix else if suffix[0] == '/' then base + suffix else base + "/" + suffix
  {
    RStripExactly(prefix, '/');
    var r := RStrip(prefix, '/');
    assert |r| == |base|;
    assert r == base;
  }

  /** A role's token is "role" when its name is slashes only, and its name without outer slashes otherwise, with the
      dash for those within. */
  lemma TokenExactly(role: string, inner: string)
    requires inner != [] && inner[0] != '/' && inner[|inner| - 1] != '/'
    requires exists m, n :: 0 <= m <= n <= |role| && role[m..n] == inner && forall i :: (0 <= i < m || n <= i < |role|) ==> role[i] == '/'
    ensures |RoleToken(role)| == |inner|
    ensures forall i :: 0 <= i < |inner| ==> RoleToken(role)[i] == if inner[i] == '/' then '-' else inner[i]
  {
    var m, n :| 0 <= m <= n <= |role| && role[m..n] == inner && forall i :: (0 <= i < m || n <= i < |role|) ==> role[i] == '/';
    StripsTo(role, m, n);
  }

  lemma TokenOfSlashes(role: string)
    requires forall i :: 0 <= i < |role| ==> role[i] == '/'
    ensures RoleToken(role) == "role"
  {
    LStripAll(role);
  }

  lemma {:induction false} LStripAll(s: string)
    requires forall i :: 0 <= i < |s| ==> s[i] == '/'
    ensures LStrip(s, '/') == []
  {
    if s != [] { LStripAll(s[1..]); }
  }

  lemma {:induction false} LStripTo(s: string, m: nat)
    requires m < |s| && s[m] != '/' && forall i :: 0 <= i < m ==> s[i] == '/'
    ensures LStrip(s, '/') == s[m..]
  {
    if m > 0 {
      LStripTo(s[1..], m - 1);
      assert s[1..][m - 1..] == s[m..];
    }
  }

  lemma StripsTo(s: string, m: nat, n: nat)
    requires m < n <= |s| && s[m] != '/' && s[n - 1] != '/' && forall i :: (0 <= i < m || n <= i < |s|) ==> s[i] == '/'
    ensures Strip(s, '/') == s[m..n]
  {
    LStripTo(s, m);
    var t := s[m..];
    RStripExactly(t, '/');
    var r := RStrip(t, '/');
    assert t[n - m - 1] != '/';
    forall i | n - m <= i < |t| ensures t[i] == '/' {
      assert t[i] == s[m + i];
    }
    assert |r| == n - m;
    assert t[..n - m] == s[m..n];
  }

  // ----- feeding and publishing -----

  predicate Answers(keys: set<string>, name: string, key: string) {
    key in keys && (name == key || (name !in keys && Suffixed(name, key)))
  }

  /** What a chunk is fed: for each name it feeds on the value under the key that answers for it. */
  ghost predicate FedWith(values: Values, feeds: seq<string>, fed: Values) {
    && (forall f :: f in fed <==> f in feeds)
    && (forall f, key :: f in feeds && Answers(values.Keys, f, key) ==> fed[f] == values[key])
  }

  lemma FeedExactly(values: Values, feeds: seq<string>)
    ensures Feedable(values.Keys, feeds) <==> forall f :: f in feeds ==> Answered(values.Keys, f)
    ensures Feedable(values.Keys, feeds) ==> FedWith(values, feeds, Feed(values, feeds))
  {
    hide Resolve; hide Answered;
    forall f ensures Resolve(values.Keys, f).Some? <==> Answered(values.Keys, f) {
      AnsweredExactly(values.Keys, f);
    }
    forall f, key ensures Resolve(values.Keys, f) == Some(key) <==> Answers(values.Keys, f, key) {
      ResolveExactly(values.Keys, f, key);
    }
  }

  /** The bundle of an edge that declares nothing is everything; otherwise it is what the outputs answer of
      the names declared, under those names. */
  ghost predicate BundleOf(outputs: Values, edge: Edge, bundle: Values) {
    if edge.tensors == [] then bundle == outputs
    else
      && (forall t :: t in bundle <==> t in edge.tensors && t != [] && Answered(outputs.Keys, t))
      && (forall t, key :: t in bundle && Answers(outputs.Keys, t, key) ==> bundle[t] == outputs[key])
  }

  lemma BundleExactly(outputs: Values, edge: Edge)
    ensures Bundle(outputs, edge).Some? <==> Accepts(edge, outputs.Keys)
    ensures Bundle(outputs, edge).Some? ==> BundleOf(outputs, edge, Bundle(outputs, edge).value)
  {
    AvailableExactly(outputs.Keys, edge.tensors);
    hide Available; hide Answered; hide Resolve;
    if edge.tensors == [] {
      assert Available(outputs.Keys, edge.tensors) == [] by { NothingAvailable(outputs.Keys); }
    } else {
      if Available(outputs.Keys, edge.tensors) != [] {
        assert Available(outputs.Keys, edge.tensors)[0] in Available(outputs.Keys, edge.tensors);
      }
      forall t ensures Resolve(outputs.Keys, t).Some? <==> Answered(outputs.Keys, t) {
        AnsweredExactly(outputs.Keys, t);
      }
      forall t, key ensures Resolve(outputs.Keys, t) == Some(key) <==> Answers(outputs.Keys, t, key) {
        ResolveExactly(outputs.Keys, t, key);
      }
    }
  }

  lemma NothingAvailable(keys: set<string>)
    ensures Available(keys, []) == []
  {
  }

  ghost predicate AllAccepted(outputs: Values, edges: seq<Edge>, n: nat)
    requires n <= |edges|
  {
    forall i: nat :: i < n ==> Accepts(edges[i], outputs.Keys)
  }

  ghost predicate LastKeyed(keys: seq<RefKey>, n: nat, i: nat, key: RefKey)
    requires n <= |keys|
  {
    i < n && keys[i] == key && forall j :: i < j < n ==> keys[j] != key
  }

  /** The first n bundles lie under their keys, a later one over an earlier; all else is as before. */
  ghost predicate PublishedOnto(board: Board, outputs: Values, edges: seq<Edge>, keys: seq<RefKey>, n: nat, after: Board)
    requires n <= |edges| == |keys|
  {
    && (forall key :: key in after <==> key in board || key in keys[..n])
    && (forall key :: key in board && key !in keys[..n] ==> after[key] == board[key])
    && (forall i: nat :: i < n && LastKeyed(keys, n, i, keys[i]) ==> BundleOf(outputs, edges[i], after[keys[i]]))
  }

  lemma {:induction false} BundlesOf(outputs: Values, edges: seq<Edge>, i: nat)
    requires i < |edges|
    ensures Bundles(outputs, edges)[i] == Bundle(outputs, edges[i])
  {
    if i > 0 {
      BundlesOf(outputs, edges[1..], i - 1);
    }
  }

  lemma PublishedOnce(board: Board, outputs: Values, edges: seq<Edge>, keys: seq<RefKey>, n: nat, before: Board, bundle: Values)
    requires n < |edges| == |keys| && PublishedOnto(board, outputs, edges, keys, n, before) && BundleOf(outputs, edges[n], bundle)
    ensures PublishedOnto(board, outputs, edges, keys, n + 1, before[keys[n] := bundle])
  {
    hide BundleOf;
    var after := before[keys[n] := bundle];
    assert keys[..n + 1] == keys[..n] + [keys[n]];
    forall i: nat | i < n + 1 && LastKeyed(keys, n + 1, i, keys[i]) ensures BundleOf(outputs, edges[i], after[keys[i]]) {
      if i < n {
        assert keys[n] != keys[i];
        assert LastKeyed(keys, n, i, keys[i]);
      }
    }
  }

  /** Publication goes on exactly as long as the outputs answer for each edge, and leaves the bundles before. */
  lemma {:induction false} PublishExactly(board: Board, outputs: Values, edges: seq<Edge>, keys: seq<RefKey>, n: nat)
    requires n <= |edges| == |keys|
    ensures var (after, failed) := PublishFirst(board, keys, Bundles(outputs, edges), n);
      && (failed.None? <==> AllAccepted(outputs, edges, n))
      && (failed.None? ==> PublishedOnto(board, outputs, edges, keys, n, after))
      && (failed.Some? ==> failed.value < n && AllAccepted(outputs, edges, failed.value) && !Accepts(edges[failed.value], outputs.Keys))
      && (failed.Some? ==> PublishedOnto(board, outputs, edges, keys, failed.value, after))
  {
    hide Accepts; hide PublishedOnto; hide BundleOf; hide Bundle; hide Bundles;
    if n == 0 {
      assert PublishedOnto(board, outputs, edges, keys, 0, board) by { PublishedNone(board, outputs, edges, keys); }
    } else {
      PublishExactly(board, outputs, edges, keys, n - 1);
      BundlesOf(outputs, edges, n - 1);
      BundleExactly(outputs, edges[n - 1]);
      var (before, failed) := PublishFirst(board, keys, Bundles(outputs, edges), n - 1);
      if failed.None? && Bundles(outputs, edges)[n - 1].Some? {
        PublishedOnce(board, outputs, edges, keys, n - 1, before, Bundles(outputs, edges)[n - 1].value);
      }
    }
  }

  lemma PublishedNone(board: Board, outputs: Values, edges: seq<Edge>, keys: seq<RefKey>)
    requires |edges| == |keys|
    ensures PublishedOnto(board, outputs, edges, keys, 0, board)
  {
    assert keys[..0] == [];
  }

  lemma {:induction false} KeysAt(edges: seq<Edge>, producer: string, i: nat)
    requires i < |edges|
    ensures KeysOf(edges, producer)[i] == (edges[i].keyScope, Topic(edges[i].topicPrefix, "ref/" + RoleToken(producer)))
  {
    if i > 0 {
      KeysAt(edges[1..], producer, i - 1);
    }
  }

  /** One execution of a role: what it works on, what its chunk is fed, what is published, and each way it fails. */
  lemma StepExactly(board: Board, role: Role)
    ensures var (after, r) := Step(board, role);
      match Gather(board, role)
      case Err(e) => after == board && r == Err(e)
      case Ok(values) =>
        if exists f :: f in role.feeds && !Answered(values.Keys, f) then after == board && r == Err(FeedMissing(role.name))
        else exists fed: Values :: FedWith(values, role.feeds, fed) && PublishesAs(board, role, role.chunk(fed), after, r)
    ensures role.initial.Some? ==> Gather(board, role) == Ok(role.initial.value)
  {
    hide Answered; hide FedWith; hide PublishedOnto; hide Accepts; hide PublishFirst; hide Bundles; hide Links;
    if Gather(board, role).Ok? {
      var values := Gather(board, role).value;
      hide Gather;
      FeedExactly(values, role.feeds);
      if Feedable(values.Keys, role.feeds) {
        hide Feedable; hide Feed;
        var fed := Feed(values, role.feeds);
        PublishExactly(board, role.chunk(fed), role.outputs, OutKeys(role), |role.outputs|);
        var (after, failed) := PublishFirst(board, OutKeys(role), Bundles(role.chunk(fed), role.outputs), |role.outputs|);
        assert Step(board, role).0 == after;
        if failed.Some? {
          assert Step(board, role).1 == Err(OutputLacksEveryTensor(role.outputs[failed.value].keyScope));
        }
        assert PublishesAs(board, role, role.chunk(fed), after, Step(board, role).1);
      }
    }
  }

  ghost predicate PublishesAs(board: Board, role: Role, outputs: Values, after: Board, r: Result<Values, Error>) {
    if AllAccepted(outputs, role.outputs, |role.outputs|)
    then r == Ok(outputs) && PublishedOnto(board, outputs, role.outputs, OutKeys(role), |role.outputs|, after)
    else exists i: nat :: i < |role.outputs| && AllAccepted(outputs, role.outputs, i) && !Accepts(role.outputs[i], outputs.Keys)
           && r == Err(OutputLacksEveryTensor(role.outputs[i].keyScope))
           && PublishedOnto(board, outputs, role.outputs, OutKeys(role), i, after)
  }
}
