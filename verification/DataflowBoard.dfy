/** What one role of a split model computes, over a board of published tensor bundles.

The board maps a reference key (key scope, reference topic) to the bundle that the
reference leads to. Everything the executor does to its inputs is stated here as
functions of that board; the object store that implements the board is in
LargeObjectStore. */
module DataflowBoard {
  import opened Outcomes
  import opened Strings

  datatype Tensor = Tensor(shape: seq<nat>, data: seq<real>)

  /** Tensors by name: a feed, an output set, or the decoded content of one bundle. */
  type Values = map<string, Tensor>

  datatype Edge = Edge(producers: seq<string>, consumers: seq<string>, keyScope: string,
                       topicPrefix: string, tensors: seq<string>)

  /** A role's view of the plan and its model chunk. `produces` are the output names of the
      chunk's session; `initial` is present for a role that starts from given values. */
  datatype Role = Role(name: string, inputs: seq<Edge>, outputs: seq<Edge>,
                       feeds: seq<string>, produces: set<string>,
                       chunk: Values -> Values, initial: Option<Values>)

  type RefKey = (string, string)
  type Board = map<RefKey, Values>

  datatype Error =
    | NoInputEdge(scope: string)
    | MissingReference(key: RefKey)
    | BundleLacksEveryTensor(scope: string)
    | MergedLacksTensor(scope: string)
    | FeedMissing(name: string)
    | OutputLacksEveryTensor(scope: string)

  // ----- names -----

  function RoleToken(role: string): string {
    var token := Mangle(role, '-');
    if token == [] then "role" else token
  }

  /** Role names with one leading slash, none at the end and no dash have tokens of their own. */
  lemma TokenIdentifiesPlainRole(role: string, other: string)
    requires PlainPath(role, '-') && PlainPath(other, '-')
    ensures RoleToken(role) == RoleToken(other) <==> role == other
  {
    StripPlainPath(role, '-');
    StripPlainPath(other, '-');
    if RoleToken(role) == RoleToken(other) {
      MangleInjective(role, other, '-');
    }
  }

  /** A dash in a role name is enough for two roles to share a token, and so a reference key. */
  lemma DashCollision()
    ensures RoleToken("/A/B") == RoleToken("/A-B")
  {
    StripPlainPath("/A/B", '_');
    StripPlainPath("/A-B", '_');
    assert Mangle("/A/B", '-') == "A-B" == Mangle("/A-B", '-');
  }

  function Topic(prefix: string, suffix: string): string {
    if suffix == [] then prefix
    else if suffix[0] == '/' then RStrip(prefix, '/') + suffix
    else RStrip(prefix, '/') + "/" + suffix
  }

  function ReferenceKey(edge: Edge, producer: string): RefKey {
    (edge.keyScope, Topic(edge.topicPrefix, "ref/" + RoleToken(producer)))
  }

  // ----- looking a tensor name up -----

  function LastDot(name: string): (i: int)
    ensures -1 <= i < |name|
    ensures i >= 0 ==> name[i] == '.'
  {
    if name == [] then -1
    else if name[|name| - 1] == '.' then |name| - 1
    else LastDot(name[..|name| - 1])
  }

  /** The key of `keys` that answers a request for `name`: the name itself, or its base when
      the name is a base followed by a numeric suffix. */
  function Resolve(keys: set<string>, name: string): (key: Option<string>)
    ensures key.Some? ==> key.value in keys
    ensures name in keys ==> key == Some(name)
  {
    if name in keys then Some(name)
    else
      var dot := LastDot(name);
      if dot >= 0 && dot + 1 < |name|
         && (forall i :: dot < i < |name| ==> IsDigit(name[i]))
         && name[..dot] in keys
      then Some(name[..dot])
      else None
  }

  function Requested(tensors: seq<string>): seq<string> {
    if tensors == [] then []
    else (if tensors[0] == [] then [] else [tensors[0]]) + Requested(tensors[1..])
  }

  function Resolvable(keys: set<string>, names: seq<string>): seq<string> {
    if names == [] then []
    else (if Resolve(keys, names[0]).Some? then [names[0]] else []) + Resolvable(keys, names[1..])
  }

  function Available(keys: set<string>, tensors: seq<string>): seq<string> {
    Resolvable(keys, Requested(tensors))
  }

  lemma {:induction false} ResolvableResolves(keys: set<string>, names: seq<string>)
    ensures forall n :: n in Resolvable(keys, names) ==> Resolve(keys, n).Some? && n in names
  {
    if names != [] {
      ResolvableResolves(keys, names[1..]);
    }
  }

  /** The values an edge carries: the requested names that resolve, or everything. */
  function Select(values: Values, names: seq<string>): Values
  {
    if names == [] then values
    else map n | n in names && Resolve(values.Keys, n).Some? :: values[Resolve(values.Keys, n).value]
  }

  function SelectNames(keys: set<string>, names: seq<string>): set<string> {
    if names == [] then keys else set n | n in names && Resolve(keys, n).Some?
  }

  // ----- a role's inputs -----

  function FirstEdge(edges: seq<Edge>, scope: string): Option<Edge> {
    if edges == [] then None
    else if edges[0].keyScope == scope then Some(edges[0])
    else FirstEdge(edges[1..], scope)
  }

  function LastEdge(edges: seq<Edge>, scope: string): Option<Edge> {
    if edges == [] then None
    else if edges[|edges| - 1].keyScope == scope then Some(edges[|edges| - 1])
    else LastEdge(edges[..|edges| - 1], scope)
  }

  /** The view's edge selection: by scope, or the only edge when no scope is given. */
  function SelectInput(edges: seq<Edge>, scope: string): Option<Edge> {
    if scope != [] then FirstEdge(edges, scope)
    else if |edges| == 1 then Some(edges[0])
    else None
  }

  /** One prefetch: the edge scope it was planned for and the key it waits on. */
  datatype Link = Link(scope: string, key: RefKey)

  function EdgeLinks(edge: Edge, producers: seq<string>): seq<Link> {
    if producers == [] then []
    else [Link(edge.keyScope, ReferenceKey(edge, producers[0]))] + EdgeLinks(edge, producers[1..])
  }

  function LinksFrom(inputs: seq<Edge>, rest: seq<Edge>): Result<seq<Link>, Error> {
    if rest == [] then Ok([])
    else if rest[0].producers == [] then LinksFrom(inputs, rest[1..])
    else match SelectInput(inputs, rest[0].keyScope)
      case None => Err(NoInputEdge(rest[0].keyScope))
      case Some(edge) =>
        match LinksFrom(inputs, rest[1..])
        case Err(e) => Err(e)
        case Ok(more) =>
          Ok(EdgeLinks(edge, rest[0].producers) + more)
  }

  /** The prefetches of a role, one per producer of each input edge, in plan order. */
  function Links(role: Role): Result<seq<Link>, Error> {
    LinksFrom(role.inputs, role.inputs)
  }

  /** May a bundle with these names arrive over `scope`? */
  predicate Carries(inputs: seq<Edge>, scope: string, keys: set<string>) {
    match LastEdge(inputs, scope)
    case None => false
    case Some(edge) => edge.tensors == [] || Available(keys, edge.tensors) != []
  }

  /** Merge the bundles of the links in order; a later bundle overwrites an earlier one. */
  function Merge(board: Board, inputs: seq<Edge>, links: seq<Link>, values: Values)
    : Result<Values, Error>
    decreases |links|
  {
    if links == [] then Ok(values)
    else if links[0].key !in board then Err(MissingReference(links[0].key))
    else if !Carries(inputs, links[0].scope, board[links[0].key].Keys)
    then Err(BundleLacksEveryTensor(links[0].scope))
    else Merge(board, inputs, links[1..], values + board[links[0].key])
  }

  predicate CoversEdge(keys: set<string>, edge: Edge) {
    forall n :: n in Requested(edge.tensors) ==> Resolve(keys, n).Some?
  }

  /** Is edges[i] the one kept for its scope among the edges that declare tensors? */
  predicate KeptForScope(edges: seq<Edge>, i: nat)
    requires i < |edges|
  {
    edges[i].tensors != [] &&
    forall j :: i < j < |edges| ==> edges[j].tensors == [] || edges[j].keyScope != edges[i].keyScope
  }

  predicate Covered(keys: set<string>, inputs: seq<Edge>) {
    forall i | 0 <= i < |inputs| && KeptForScope(inputs, i) :: CoversEdge(keys, inputs[i])
  }

  /** The values a role works on. */
  function Gather(board: Board, role: Role): Result<Values, Error> {
    match role.initial
    case Some(values) => Ok(values)
    case None =>
      match Links(role)
      case Err(e) => Err(e)
      case Ok(links) =>
        match Merge(board, role.inputs, links, map[])
        case Err(e) => Err(e)
        case Ok(values) =>
          if Covered(values.Keys, role.inputs) then Ok(values) else Err(MergedLacksTensor(role.name))
  }

  predicate Feedable(keys: set<string>, feeds: seq<string>) {
    forall f :: f in feeds ==> Resolve(keys, f).Some?
  }

  function Feed(values: Values, feeds: seq<string>): Values
    requires Feedable(values.Keys, feeds)
  {
    map f | f in feeds :: values[Resolve(values.Keys, f).value]
  }

  /** The role's outputs, given the board it sees. */
  function Outputs(board: Board, role: Role): Result<Values, Error> {
    match Gather(board, role)
    case Err(e) => Err(e)
    case Ok(values) =>
      if Feedable(values.Keys, role.feeds) then Ok(role.chunk(Feed(values, role.feeds)))
      else Err(FeedMissing(role.name))
  }

  // ----- a role's publications -----

  predicate Publishable(keys: set<string>, edge: Edge) {
    edge.tensors == [] || Available(keys, edge.tensors) != []
  }

  /** The bundle published for an edge; none when the outputs hold no tensor it declares. */
  function Bundle(outputs: Values, edge: Edge): Option<Values> {
    if Publishable(outputs.Keys, edge) then Some(Select(outputs, Available(outputs.Keys, edge.tensors)))
    else None
  }

  function Bundles(outputs: Values, edges: seq<Edge>): (bundles: seq<Option<Values>>)
    ensures |bundles| == |edges|
  {
    if edges == [] then [] else [Bundle(outputs, edges[0])] + Bundles(outputs, edges[1..])
  }

  function KeysOf(edges: seq<Edge>, producer: string): (keys: seq<RefKey>)
    ensures |keys| == |edges|
  {
    if edges == [] then [] else [ReferenceKey(edges[0], producer)] + KeysOf(edges[1..], producer)
  }

  /** The reference keys a role publishes under, one per output edge. */
  function OutKeys(role: Role): (keys: seq<RefKey>)
    ensures |keys| == |role.outputs|
  {
    KeysOf(role.outputs, role.name)
  }

  /** Board after publishing the first n bundles, and the position of the bundle that was
      missing, if one was: publication stops there. */
  function PublishFirst(board: Board, keys: seq<RefKey>, bundles: seq<Option<Values>>, n: nat)
    : (Board, Option<nat>)
    requires n <= |keys| == |bundles|
    decreases n
  {
    if n == 0 then (board, None)
    else
      var (b, failed) := PublishFirst(board, keys, bundles, n - 1);
      if failed.Some? then (b, failed)
      else match bundles[n - 1]
        case None => (b, Some(n - 1))
        case Some(bundle) => (b[keys[n - 1] := bundle], None)
  }

  lemma {:induction false} FailureIsAPosition(board: Board, keys: seq<RefKey>, bundles: seq<Option<Values>>, n: nat)
    requires n <= |keys| == |bundles|
    ensures var failed := PublishFirst(board, keys, bundles, n).1;
            failed.Some? ==> failed.value < n && bundles[failed.value].None?
  {
    if n > 0 {
      FailureIsAPosition(board, keys, bundles, n - 1);
    }
  }

  function FailedScope(role: Role, i: nat): string {
    if i < |role.outputs| then role.outputs[i].keyScope else []
  }

  /** One execution of a role: the new board, and its outputs or the error raised. */
  function Step(board: Board, role: Role): (Board, Result<Values, Error>) {
    match Outputs(board, role)
    case Err(e) => (board, Err(e))
    case Ok(outputs) =>
      var (b, failed) := PublishFirst(board, OutKeys(role), Bundles(outputs, role.outputs), |role.outputs|);
      (b, if failed.Some? then Err(OutputLacksEveryTensor(FailedScope(role, failed.value))) else Ok(outputs))
  }
}
