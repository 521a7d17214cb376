/** The conflict-admission coordinator's state and operations, as functions on values. */
module Admission {
  import opened Outcomes
  import opened Requests

  datatype Key = Key(provider: string, boot: string, resourceClass: string, resourceId: string,
                     domain: string, unit: string, version: string)
  {
    /** Two keys with the same physical identity name the same device. */
    function Physical(): (string, string, string, string) {
      (provider, boot, domain, resourceId)
    }
  }

  datatype Declaration = Declaration(key: Key, capacity: nat, exclusive: bool, sequence: nat)

  datatype Claim = Claim(key: Key, quantity: nat, exclusive: bool)

  datatype Request = Request(identity: Identity, deadline: int, claims: seq<Claim>, capability: string)

  /** What the request constructor refuses to build without. */
  predicate WellFormed(request: Request) {
    && request.identity.attempt > 0 && request.deadline > 0 && request.claims != []
    && (forall i :: 0 <= i < |request.claims| ==> request.claims[i].quantity > 0)
    && (forall i, j :: 0 <= i < j < |request.claims| ==> request.claims[i].key != request.claims[j].key)
  }

  const CAPABILITY := "DIConflictAdmissionV1"

  datatype Authority = Authority(scope: string, identity: string, epoch: nat, boot: string)

  datatype Cause = LeaseExpired | Called

  datatype Standing = Granted | Active | Released(at: int, cause: Cause)

  datatype Permit = Permit(id: nat, request: Request, issuedAt: int, expiresAt: int,
                           standing: Standing, activatedAt: Option<int>)
  {
    predicate Live() {
      !standing.Released?
    }
  }

  /** A queued request and its submission number, which its permit will be identified by. */
  datatype Entry = Entry(id: nat, request: Request)

  datatype Coordinator = Coordinator(authority: Authority, maxPermit: nat, available: bool, cleanupOnly: bool,
                                     declarations: map<Key, Declaration>, queued: seq<Entry>,
                                     permits: seq<Permit>, submissions: nat)

  datatype Error =
    | AliasedResource
    | StaleDeclaration
    | LiveResource
    | CapabilityMismatch
    | UnknownResource
    | ExceedsCapacity
    | WeakensExclusivity
    | ConflictingDuplicate
    | CompetingAuthority
    | Unavailable
    | BadLease
    | NotActivatable
    | ExpiredBeforeActivation
    | PartialReservation
    | BadBinding
    | BlankReason

  function Fresh(authority: Authority, maxPermit: nat): Coordinator {
    Coordinator(authority, maxPermit, true, false, map[], [], [], 0)
  }

  // ----- declarations -----

  predicate Claims(request: Request, key: Key) {
    exists i :: 0 <= i < |request.claims| && request.claims[i].key == key
  }

  predicate ClaimLive(c: Coordinator, key: Key) {
    exists i :: 0 <= i < |c.permits| && c.permits[i].Live() && Claims(c.permits[i].request, key)
  }

  predicate Aliased(c: Coordinator, key: Key) {
    exists other :: other in c.declarations && other != key && other.Physical() == key.Physical()
  }

  function RegisterOne(c: Coordinator, d: Declaration): Result<Coordinator, Error> {
    if Aliased(c, d.key) then Err(AliasedResource)
    else if d.key in c.declarations && c.declarations[d.key] == d then Ok(c)
    else if d.key in c.declarations && d.sequence <= c.declarations[d.key].sequence then Err(StaleDeclaration)
    else if d.key in c.declarations && ClaimLive(c, d.key) then Err(LiveResource)
    else Ok(c.(declarations := c.declarations[d.key := d]))
  }

  datatype Registered = Registered(state: Coordinator, error: Option<Error>)

  /** Declarations before the one refused stay registered. */
  function Register(c: Coordinator, declarations: seq<Declaration>): Registered {
    if declarations == [] then Registered(c, None)
    else
      var before := Register(c, declarations[..|declarations| - 1]);
      if before.error.Some? then before
      else match RegisterOne(before.state, declarations[|declarations| - 1])
        case Ok(next) => Registered(next, None)
        case Err(e) => Registered(before.state, Some(e))
  }

  // ----- submission -----

  datatype Answer = DeadlineExpired | Queued | Permitted(standing: Standing)

  datatype Submitted = Submitted(state: Coordinator, answer: Result<Answer, Error>)

  /** The first claim the declarations refuse, if any. */
  function ClaimError(c: Coordinator, claims: seq<Claim>): Option<Error> {
    if claims == [] then None
    else
      var claim := claims[0];
      if claim.key !in c.declarations then Some(UnknownResource)
      else if claim.quantity > c.declarations[claim.key].capacity then Some(ExceedsCapacity)
      else if c.declarations[claim.key].exclusive && !claim.exclusive then Some(WeakensExclusivity)
      else ClaimError(c, claims[1..])
  }

  function PermitOf(permits: seq<Permit>, identity: Identity): (found: Option<Permit>)
    ensures found.Some? ==> found.value in permits && found.value.request.identity == identity
    ensures found.None? ==> forall p :: p in permits ==> p.request.identity != identity
  {
    if permits == [] then None
    else if permits[|permits| - 1].request.identity == identity then Some(permits[|permits| - 1])
    else
      assert permits == permits[..|permits| - 1] + [permits[|permits| - 1]];
      PermitOf(permits[..|permits| - 1], identity)
  }

  function EntryOf(queued: seq<Entry>, identity: Identity): (found: Option<Entry>)
    ensures found.Some? ==> found.value in queued && found.value.request.identity == identity
    ensures found.None? ==> forall e :: e in queued ==> e.request.identity != identity
  {
    if queued == [] then None
    else if queued[|queued| - 1].request.identity == identity then Some(queued[|queued| - 1])
    else
      assert queued == queued[..|queued| - 1] + [queued[|queued| - 1]];
      EntryOf(queued[..|queued| - 1], identity)
  }

  function Submit(c: Coordinator, request: Request, now: int): Submitted {
    if request.capability != CAPABILITY then Submitted(c, Err(CapabilityMismatch))
    else if ClaimError(c, request.claims).Some? then Submitted(c, Err(ClaimError(c, request.claims).value))
    else if now >= request.deadline then Submitted(c, Ok(DeadlineExpired))
    else match PermitOf(c.permits, request.identity)
      case Some(p) =>
        Submitted(c, if p.request != request then Err(ConflictingDuplicate) else Ok(Permitted(p.standing)))
      case None =>
        match EntryOf(c.queued, request.identity)
        case Some(e) => Submitted(c, if e.request != request then Err(ConflictingDuplicate) else Ok(Queued))
        case None =>
          Submitted(c.(submissions := c.submissions + 1, queued := c.queued + [Entry(c.submissions + 1, request)]),
                    Ok(Queued))
  }

  // ----- conflicts and grants -----

  predicate ClaimsConflict(left: Claim, right: Claim, d: Declaration) {
    left.key == right.key && (d.exclusive || left.exclusive || right.exclusive || left.quantity + right.quantity > d.capacity)
  }

  predicate RequestsConflict(left: Request, right: Request, declarations: map<Key, Declaration>) {
    exists i, j :: 0 <= i < |left.claims| && 0 <= j < |right.claims| && left.claims[i].key in declarations
                && ClaimsConflict(left.claims[i], right.claims[j], declarations[left.claims[i].key])
  }

  function ExpireOne(p: Permit, now: int): Permit {
    if p.Live() && now >= p.expiresAt then p.(standing := Released(now, LeaseExpired)) else p
  }

  function ExpireAll(permits: seq<Permit>, now: int): (r: seq<Permit>)
    ensures |r| == |permits|
  {
    seq(|permits|, i requires 0 <= i < |permits| => ExpireOne(permits[i], now))
  }

  function Expire(c: Coordinator, now: int): Coordinator {
    c.(permits := ExpireAll(c.permits, now))
  }

  predicate BlockedByPermit(request: Request, permits: seq<Permit>, declarations: map<Key, Declaration>) {
    exists k :: 0 <= k < |permits| && permits[k].Live() && RequestsConflict(request, permits[k].request, declarations)
  }

  predicate BlockedByEntry(request: Request, entries: seq<Entry>, declarations: map<Key, Declaration>) {
    exists k :: 0 <= k < |entries| && RequestsConflict(request, entries[k].request, declarations)
  }

  datatype Scan = Scan(selected: seq<Entry>, waiting: seq<Entry>)

  /** One pass over the queue in submission order; past-deadline entries drop out. */
  function ScanQueue(queued: seq<Entry>, permits: seq<Permit>, declarations: map<Key, Declaration>, now: int): Scan {
    if queued == [] then Scan([], [])
    else
      var before := ScanQueue(queued[..|queued| - 1], permits, declarations, now);
      var e := queued[|queued| - 1];
      if now >= e.request.deadline then before
      else if BlockedByPermit(e.request, permits, declarations)
           || BlockedByEntry(e.request, before.selected, declarations) then before.(waiting := before.waiting + [e])
      else before.(selected := before.selected + [e])
  }

  function Min(a: int, b: int): int {
    if a <= b then a else b
  }

  function PermitFor(e: Entry, now: int, lease: int): Permit {
    Permit(e.id, e.request, now, Min(e.request.deadline, now + lease), Granted, None)
  }

  function Issue(entries: seq<Entry>, now: int, lease: int): (r: seq<Permit>)
    ensures |r| == |entries|
  {
    seq(|entries|, i requires 0 <= i < |entries| => PermitFor(entries[i], now, lease))
  }

  datatype Grant = Grant(state: Coordinator, granted: Result<seq<Permit>, Error>)

  function GrantNext(c: Coordinator, authority: Authority, now: int, permitMs: int): Grant {
    if authority != c.authority then Grant(c, Err(CompetingAuthority))
    else if !c.available || c.cleanupOnly then Grant(c, Err(Unavailable))
    else if permitMs <= 0 then Grant(c, Err(BadLease))
    else
      var permits := ExpireAll(c.permits, now);
      var scan := ScanQueue(c.queued, permits, c.declarations, now);
      var issued := Issue(scan.selected, now, Min(permitMs, c.maxPermit));
      Grant(c.(queued := scan.waiting, permits := permits + issued), Ok(issued))
  }

  // ----- activation, release and the rest -----

  function IndexOf(permits: seq<Permit>, id: nat): (i: nat)
    ensures i <= |permits|
    ensures i < |permits| ==> permits[i].id == id
    ensures i == |permits| ==> forall k :: 0 <= k < |permits| ==> permits[k].id != id
  {
    if permits == [] then 0
    else if permits[0].id == id then 0
    else IndexOf(permits[1..], id) + 1
  }

  /** The ASCII characters that stripping removes: tab to carriage return, the four separators, and the space. */
  predicate IsSpace(c: char) {
    9 <= c as int <= 13 || 28 <= c as int <= 32
  }

  predicate Blank(s: string) {
    forall i :: 0 <= i < |s| ==> IsSpace(s[i])
  }

  datatype Binding = Binding(identity: Identity, boot: string, live: bool, quantity: int, reservation: string)

  function BindingError(request: Request, bindings: map<Key, Binding>, k: nat): Option<Error>
    requires k <= |request.claims|
    decreases |request.claims| - k
  {
    if k == |request.claims| then None
    else
      var claim := request.claims[k];
      if claim.key !in bindings then Some(PartialReservation)
      else
        var b := bindings[claim.key];
        if b.identity != request.identity || b.boot != claim.key.boot || !b.live || b.quantity < claim.quantity
           || Blank(b.reservation) then Some(BadBinding)
        else BindingError(request, bindings, k + 1)
  }

  datatype Activated = Activated(state: Coordinator, permit: Result<Permit, Error>)

  function Activate(c: Coordinator, id: nat, bindings: map<Key, Binding>, now: int): Activated {
    var i := IndexOf(c.permits, id);
    if i == |c.permits| || !c.permits[i].Live() then Activated(c, Err(NotActivatable))
    else
      var p := c.permits[i];
      if p.standing.Active? then Activated(c, Ok(p))
      else if now >= p.expiresAt then Activated(Expire(c, now), Err(ExpiredBeforeActivation))
      else match BindingError(p.request, bindings, 0)
        case Some(e) => Activated(c, Err(e))
        case None =>
          var active := p.(standing := Active, activatedAt := Some(now));
          Activated(c.(permits := c.permits[i := active]), Ok(active))
  }

  datatype ReleaseDone = ReleaseDone(state: Coordinator, changed: Result<bool, Error>)

  /** A blank reason is refused only after the permit has been marked released. */
  function Release(c: Coordinator, id: nat, now: int, reason: string): ReleaseDone {
    var i := IndexOf(c.permits, id);
    if i == |c.permits| || !c.permits[i].Live() then ReleaseDone(c, Ok(false))
    else
      var next := c.(permits := c.permits[i := c.permits[i].(standing := Released(now, Called))]);
      ReleaseDone(next, if Blank(reason) then Err(BlankReason) else Ok(true))
  }

  function Rotate(c: Coordinator, authority: Authority): Result<Coordinator, Error> {
    if authority.scope != c.authority.scope || authority.epoch <= c.authority.epoch
       || (exists i :: 0 <= i < |c.permits| && c.permits[i].Live()) then Err(CompetingAuthority)
    else Ok(c.(authority := authority))
  }

  // ----- runs -----

  datatype Op =
    | RegisterOp(declarations: seq<Declaration>)
    | SubmitOp(request: Request, now: int)
    | GrantOp(authority: Authority, now: int, permitMs: int)
    | ActivateOp(id: nat, bindings: map<Key, Binding>, now: int)
    | ReleaseOp(id: nat, now: int, reason: string)
    | ExpireOp(now: int)
    | ModeOp(available: bool, cleanupOnly: bool)
    | RotateOp(next: Authority)

  function Apply(c: Coordinator, op: Op): Coordinator {
    match op
    case RegisterOp(ds) => Register(c, ds).state
    case SubmitOp(request, now) => if WellFormed(request) then Submit(c, request, now).state else c
    case GrantOp(authority, now, ms) => GrantNext(c, authority, now, ms).state
    case ActivateOp(id, bindings, now) => Activate(c, id, bindings, now).state
    case ReleaseOp(id, now, reason) => Release(c, id, now, reason).state
    case ExpireOp(now) => Expire(c, now)
    case ModeOp(available, cleanupOnly) => c.(available := available, cleanupOnly := cleanupOnly)
    case RotateOp(next) =>
      (match Rotate(c, next)
       case Ok(rotated) => rotated
       case Err(_) => c)
  }

  function Run(c: Coordinator, ops: seq<Op>): Coordinator {
    if ops == [] then c else Apply(Run(c, ops[..|ops| - 1]), ops[|ops| - 1])
  }
}
