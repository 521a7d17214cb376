/** Permits over time: final once released, granted at most once, and apart when they clash. */
module AdmissionTime {
  import opened Outcomes
  import opened Requests
  import opened Admission
  import opened AdmissionInvariant

  // ----- permits persist, and a released one never changes -----

  ghost predicate Persists(before: seq<Permit>, after: seq<Permit>) {
    && |before| <= |after|
    && forall i :: 0 <= i < |before| ==>
         && after[i].id == before[i].id && after[i].request == before[i].request
         && after[i].issuedAt == before[i].issuedAt && after[i].expiresAt == before[i].expiresAt
         && (!before[i].Live() ==> after[i] == before[i])
  }

  lemma {:induction false} RegisterLeavesPermits(c: Coordinator, ds: seq<Declaration>)
    ensures Register(c, ds).state.permits == c.permits && Register(c, ds).state.queued == c.queued
  {
    hide Aliased; hide ClaimLive;
    if ds != [] {
      RegisterLeavesPermits(c, ds[..|ds| - 1]);
    }
  }

  lemma ApplyPersists(c: Coordinator, op: Op)
    ensures Persists(c.permits, Apply(c, op).permits)
  {
    hide ScanQueue; hide IndexOf; hide BindingError; hide PermitOf; hide EntryOf; hide ClaimError; hide Blank; hide WellFormed;
    match op {
      case RegisterOp(ds) => RegisterLeavesPermits(c, ds);
      case _ =>
    }
  }

  lemma {:induction false} RunPersists(c: Coordinator, ops: seq<Op>)
    ensures Persists(c.permits, Run(c, ops).permits)
  {
    hide Apply;
    if ops != [] {
      RunPersists(c, ops[..|ops| - 1]);
      ApplyPersists(Run(c, ops[..|ops| - 1]), ops[|ops| - 1]);
    }
  }

  lemma {:induction false} RunInv(c: Coordinator, ops: seq<Op>)
    requires Inv(c)
    ensures Inv(Run(c, ops))
  {
    hide Apply; hide Inv;
    if ops != [] {
      RunInv(c, ops[..|ops| - 1]);
      ApplyKeeps(Run(c, ops[..|ops| - 1]), ops[|ops| - 1]);
    }
  }

  lemma PermitOfUnique(c: Coordinator, i: nat)
    requires Inv(c) && i < |c.permits|
    ensures PermitOf(c.permits, c.permits[i].request.identity) == Some(c.permits[i])
  {
    hide AllDeclared; hide Exclusive; hide Unaliased; hide Tidy;
    assert c.permits[i] in c.permits;
    var found := PermitOf(c.permits, c.permits[i].request.identity);
    var j :| 0 <= j < |c.permits| && c.permits[j] == found.value;
  }

  /** Once a request's permit has been released, no continuation of the run grants that request
      anything again: it holds that one ended permit, and submitting it again says so. */
  lemma ReleasedIsFinal(c: Coordinator, i: nat, ops: seq<Op>, now: int)
    requires Inv(c) && i < |c.permits| && !c.permits[i].Live()
    ensures var later := Run(c, ops);
      && PermitOf(later.permits, c.permits[i].request.identity) == Some(c.permits[i])
      && (forall p :: p in later.permits && p.request.identity == c.permits[i].request.identity ==> p == c.permits[i])
      && Submit(later, c.permits[i].request, now).state == later
      && (ClaimError(later, c.permits[i].request.claims).None? && c.permits[i].request.capability == CAPABILITY
          && now < c.permits[i].request.deadline ==>
            Submit(later, c.permits[i].request, now).answer == Ok(Permitted(c.permits[i].standing)))
  {
    hide ClaimError; hide Inv; hide Run; hide PermitOf; hide EntryOf;
    RunPersists(c, ops);
    RunInv(c, ops);
    var later := Run(c, ops);
    PermitOfUnique(later, i);
    SolePermit(later, i);
  }

  lemma SolePermit(c: Coordinator, i: nat)
    requires Inv(c) && i < |c.permits|
    ensures forall p :: p in c.permits && p.request.identity == c.permits[i].request.identity ==> p == c.permits[i]
  {
    hide AllDeclared; hide Exclusive; hide Unaliased; hide Tidy;
    forall p | p in c.permits && p.request.identity == c.permits[i].request.identity ensures p == c.permits[i] {
      var j :| 0 <= j < |c.permits| && c.permits[j] == p;
    }
  }

  // ----- repeated calls -----

  /** A request submitted again is queued, granted or ended as before, and nothing moves;
      a different request under its identity is refused while its claims are acceptable. */
  lemma SubmitTwice(c: Coordinator, request: Request, other: Request, now: int, again: int)
    requires Submit(c, request, now).answer.Ok? && !Submit(c, request, now).answer.value.DeadlineExpired?
    requires again < request.deadline
    ensures Submit(Submit(c, request, now).state, request, again) == Submitted(Submit(c, request, now).state, Submit(c, request, now).answer)
    ensures other.identity == request.identity && other != request && again < other.deadline ==>
      Submit(Submit(c, request, now).state, other, again).answer.Err?
  {
    hide PermitOf; hide EntryOf; hide ClaimError;
    var next := Submit(c, request, now).state;
    ClaimErrorSame(c, next, request.claims);
    NewEntryFound(c.queued, Entry(c.submissions + 1, request));
  }

  lemma NewEntryFound(queued: seq<Entry>, e: Entry)
    ensures EntryOf(queued + [e], e.request.identity) == Some(e)
  {
  }

  lemma {:induction false} ClaimErrorSame(c: Coordinator, d: Coordinator, claims: seq<Claim>)
    requires c.declarations == d.declarations
    ensures ClaimError(c, claims) == ClaimError(d, claims)
  {
    if claims != [] {
      ClaimErrorSame(c, d, claims[1..]);
    }
  }

  lemma {:induction false} IndexOfSettled(before: seq<Permit>, after: seq<Permit>, id: nat)
    requires |before| == |after| && forall i :: 0 <= i < |before| ==> before[i].id == after[i].id
    ensures IndexOf(before, id) == IndexOf(after, id)
  {
    if before != [] && before[0].id != id {
      IndexOfSettled(before[1..], after[1..], id);
    }
  }

  /** Releasing changes state at most once, whatever time and reason are given. */
  lemma ReleaseTwice(c: Coordinator, id: nat, now: int, reason: string, later: int, again: string)
    ensures var once := Release(c, id, now, reason).state;
      Release(once, id, later, again) == ReleaseDone(once, Ok(false))
  {
    hide Blank;
    var once := Release(c, id, now, reason).state;
    IndexOfSettled(c.permits, once.permits, id);
    hide IndexOf;
  }

  // ----- a grant leaves nobody waiting who could run -----

  /** After a grant every queued request is within its deadline and conflicts with a live permit,
      and every request the grant took out of the queue has a live permit or is past its deadline. */
  lemma GrantIsMaximal(c: Coordinator, now: int, permitMs: int)
    requires Inv(c) && c.available && !c.cleanupOnly && permitMs > 0
    ensures var next := GrantNext(c, c.authority, now, permitMs).state;
      && (forall e :: e in next.queued ==> now < e.request.deadline && BlockedByPermit(e.request, next.permits, next.declarations))
      && (forall e :: e in c.queued && e !in next.queued ==>
            now >= e.request.deadline || exists p :: p in next.permits && p.id == e.id && p.request == e.request && p.Live())
  {
    hide ExpireAll; hide ScanQueue; hide RequestsConflict; hide Inv;
    var permits := ExpireAll(c.permits, now);
    ScanMembers(c.queued, permits, c.declarations, now);
    ScanMaximal(c.queued, permits, c.declarations, now);
    var scan := ScanQueue(c.queued, permits, c.declarations, now);
    var issued := Issue(scan.selected, now, Min(permitMs, c.maxPermit));
    var next := GrantNext(c, c.authority, now, permitMs).state;
    forall e | e in scan.waiting ensures BlockedByPermit(e.request, next.permits, c.declarations) {
      if BlockedByPermit(e.request, permits, c.declarations) {
        var k :| 0 <= k < |permits| && permits[k].Live() && RequestsConflict(e.request, permits[k].request, c.declarations);
        assert next.permits[k] == permits[k];
      } else {
        var k :| 0 <= k < |scan.selected| && RequestsConflict(e.request, scan.selected[k].request, c.declarations);
        assert next.permits[|permits| + k] == issued[k];
      }
    }
    forall e | e in scan.selected ensures exists p :: p in next.permits && p.id == e.id && p.request == e.request && p.Live() {
      var k :| 0 <= k < |scan.selected| && scan.selected[k] == e;
      assert issued[k] in issued;
    }
  }

  // ----- time -----

  function Time(op: Op): Option<int> {
    match op
    case SubmitOp(_, now) => Some(now)
    case GrantOp(_, now, _) => Some(now)
    case ActivateOp(_, _, now) => Some(now)
    case ReleaseOp(_, now, _) => Some(now)
    case ExpireOp(now) => Some(now)
    case _ => None
  }

  /** The clock never runs backwards from one operation to the next, starting at `from`. */
  predicate Monotone(ops: seq<Op>, from: int) {
    ops == [] || (
      && Monotone(ops[..|ops| - 1], from)
      && (Time(ops[|ops| - 1]).Some? ==> Clock(ops[..|ops| - 1], from) <= Time(ops[|ops| - 1]).value))
  }

  /** The time of the last timed operation. */
  function Clock(ops: seq<Op>, from: int): int {
    if ops == [] then from
    else if Time(ops[|ops| - 1]).Some? then Time(ops[|ops| - 1]).value
    else Clock(ops[..|ops| - 1], from)
  }

  /** The requests name a common device and one of them wants it for itself. */
  predicate Clash(left: Request, right: Request) {
    exists i, j :: 0 <= i < |left.claims| && 0 <= j < |right.claims| && left.claims[i].key == right.claims[j].key
                && (left.claims[i].exclusive || right.claims[j].exclusive)
  }

  lemma ClashConflicts(left: Request, right: Request, declarations: map<Key, Declaration>)
    requires Clash(left, right) && Declared(left, declarations)
    ensures RequestsConflict(left, right, declarations)
  {
    var i, j :| 0 <= i < |left.claims| && 0 <= j < |right.claims| && left.claims[i].key == right.claims[j].key
             && (left.claims[i].exclusive || right.claims[j].exclusive);
    assert ClaimsConflict(left.claims[i], right.claims[j], declarations[left.claims[i].key]);
  }

  ghost predicate Dated(p: Permit, clock: int) {
    && p.issuedAt <= clock
    && (p.standing.Released? ==> p.issuedAt <= p.standing.at <= clock)
    && (p.standing.Released? && p.standing.cause.LeaseExpired? ==> p.expiresAt <= p.standing.at)
    && (p.activatedAt.Some? ==> p.issuedAt <= p.activatedAt.value < p.expiresAt)
  }

  /** The earlier permit had ended when the later one was issued. */
  predicate EndedBefore(left: Permit, right: Permit) {
    left.standing.Released? && left.standing.at <= right.issuedAt
  }

  ghost predicate Spaced(permits: seq<Permit>) {
    forall i, j :: 0 <= i < j < |permits| && Clash(permits[i].request, permits[j].request) ==> EndedBefore(permits[i], permits[j])
  }

  ghost predicate Timely(c: Coordinator, clock: int) {
    && (forall i :: 0 <= i < |c.permits| ==> Dated(c.permits[i], clock))
    && Spaced(c.permits)
  }

  /** A permit that changed only in standing, at the given time. */
  ghost predicate Moved(before: Permit, after: Permit, now: int) {
    || after == before
    || (&& after.request == before.request && after.issuedAt == before.issuedAt && after.expiresAt == before.expiresAt
        && before.Live()
        && (|| (after.standing == Released(now, Called) && after.activatedAt == before.activatedAt)
            || (after.standing == Released(now, LeaseExpired) && now >= before.expiresAt && after.activatedAt == before.activatedAt)
            || (after.standing == Active && now < before.expiresAt && after.activatedAt == Some(now))))
  }

  lemma MovedTimely(c: Coordinator, permits: seq<Permit>, clock: int, now: int)
    requires Timely(c, clock) && clock <= now && |permits| == |c.permits|
    requires forall i :: 0 <= i < |permits| ==> Moved(c.permits[i], permits[i], now)
    ensures Timely(c.(permits := permits), now)
  {
    hide Clash;
    forall i, j | 0 <= i < j < |permits| && Clash(permits[i].request, permits[j].request)
      ensures EndedBefore(permits[i], permits[j])
    {
      assert Clash(c.permits[i].request, c.permits[j].request);
    }
  }

  lemma GrantTimely(c: Coordinator, permits: seq<Permit>, entries: seq<Entry>, now: int, lease: int)
    requires Timely(c.(permits := permits), now) && Exclusive(permits + Issue(entries, now, lease), c.declarations)
    requires forall p :: p in permits ==> Declared(p.request, c.declarations)
    requires forall e :: e in entries ==> Declared(e.request, c.declarations)
    ensures Timely(c.(permits := permits + Issue(entries, now, lease)), now)
  {
    hide Clash; hide RequestsConflict; hide Declared;
    var issued := Issue(entries, now, lease);
    var all := permits + issued;
    forall k | 0 <= k < |issued| ensures issued[k].Live() && issued[k].issuedAt == now && Declared(issued[k].request, c.declarations)
    {
      assert entries[k] in entries;
    }
    forall k | 0 <= k < |all| ensures Declared(all[k].request, c.declarations) {
      if k < |permits| { assert permits[k] in permits; } else { assert all[k] == issued[k - |permits|]; }
    }
    forall i, j | 0 <= i < j < |all| && Clash(all[i].request, all[j].request)
      ensures EndedBefore(all[i], all[j])
    {
      if j >= |permits| {
        assert all[j] == issued[j - |permits|];
        ClashConflicts(all[i].request, all[j].request, c.declarations);
      }
    }
    hide Spaced;
    assert Spaced(all);
  }

  lemma ApplyTimely(c: Coordinator, op: Op, clock: int)
    requires Inv(c) && Timely(c, clock) && (Time(op).Some? ==> clock <= Time(op).value)
    ensures Timely(Apply(c, op), if Time(op).Some? then Time(op).value else clock)
  {
    hide Timely; hide Inv; hide ScanQueue; hide IndexOf; hide BindingError; hide Blank; hide WellFormed; hide Issue;
    match op {
      case RegisterOp(ds) => RegisterLeavesPermits(c, ds); hide Register; SamePermits(c, Apply(c, op), clock, clock);
      case SubmitOp(request, now) => hide PermitOf; hide EntryOf; hide ClaimError; SamePermits(c, Apply(c, op), clock, now);
      case GrantOp(authority, now, ms) => hide ExpireAll; GrantOpTimely(c, authority, now, ms, clock);
      case ActivateOp(id, bindings, now) => MovedTimely(c, Apply(c, op).permits, clock, now); SamePermits(c.(permits := Apply(c, op).permits), Apply(c, op), now, now);
      case ReleaseOp(id, now, reason) => MovedTimely(c, Apply(c, op).permits, clock, now); SamePermits(c.(permits := Apply(c, op).permits), Apply(c, op), now, now);
      case ExpireOp(now) => MovedTimely(c, Apply(c, op).permits, clock, now);
      case ModeOp(_, _) => SamePermits(c, Apply(c, op), clock, clock);
      case RotateOp(_) => SamePermits(c, Apply(c, op), clock, clock);
    }
  }

  lemma SamePermits(c: Coordinator, next: Coordinator, clock: int, now: int)
    requires Timely(c, clock) && next.permits == c.permits && clock <= now
    ensures Timely(next, now)
  {
    hide Spaced;
  }

  lemma GrantOpTimely(c: Coordinator, authority: Authority, now: int, permitMs: int, clock: int)
    requires Inv(c) && Timely(c, clock) && clock <= now
    ensures Timely(GrantNext(c, authority, now, permitMs).state, now)
  {
    hide Timely; hide ScanQueue; hide Issue; hide Exclusive; hide Unique; hide Unaliased; hide Declared; hide BlockedByPermit;
    if GrantNext(c, authority, now, permitMs).granted.Ok? {
      var permits := ExpireAll(c.permits, now);
      MovedTimely(c, permits, clock, now);
      var scan := ScanQueue(c.queued, permits, c.declarations, now);
      var lease := Min(permitMs, c.maxPermit);
      ScanMembers(c.queued, permits, c.declarations, now);
      ExpireSettles(c.permits, now);
      SettledKeeps(c, permits);
      GrantExclusive(c.(permits := permits), permits, scan, now, lease);
      hide ExpireAll;
      assert AllDeclared(c.(permits := permits));
      GrantTimely(c, permits, scan.selected, now, lease);
      SamePermits(c.(permits := permits + Issue(scan.selected, now, lease)), GrantNext(c, authority, now, permitMs).state, now, now);
    } else {
      SamePermits(c, c, clock, now);
    }
  }

  lemma {:induction false} RunTimely(authority: Authority, maxPermit: nat, ops: seq<Op>, from: int)
    requires Monotone(ops, from)
    ensures Timely(Run(Fresh(authority, maxPermit), ops), Clock(ops, from))
  {
    hide Apply;
    if ops != [] {
      RunTimely(authority, maxPermit, ops[..|ops| - 1], from);
      RunKeeps(authority, maxPermit, ops[..|ops| - 1]);
      hide Timely; hide Inv;
      ApplyTimely(Run(Fresh(authority, maxPermit), ops[..|ops| - 1]), ops[|ops| - 1], Clock(ops[..|ops| - 1], from));
    }
  }

  /** While the clock never runs backwards, the validity windows of two clashing permits can
      overlap only when the earlier one was released by a call before its window had run out. */
  lemma WindowsOverlapOnlyAfterRelease(authority: Authority, maxPermit: nat, ops: seq<Op>, from: int, i: nat, j: nat)
    requires Monotone(ops, from)
    requires var permits := Run(Fresh(authority, maxPermit), ops).permits;
      i < j < |permits| && Clash(permits[i].request, permits[j].request)
    ensures var permits := Run(Fresh(authority, maxPermit), ops).permits;
      && EndedBefore(permits[i], permits[j])
      && (permits[j].issuedAt < permits[i].expiresAt ==>
            permits[i].standing.cause.Called? && permits[i].standing.at < permits[i].expiresAt)
  {
    RunTimely(authority, maxPermit, ops, from);
    hide Run; hide Clash;
  }

  // ----- how long a permit lasts, and what activates it -----

  /** A permit is issued before its request's deadline, for no longer than the authority allows. */
  ghost predicate Bounded(p: Permit, maxPermit: nat) {
    p.issuedAt < p.expiresAt <= p.request.deadline && p.expiresAt - p.issuedAt <= maxPermit
  }

  ghost predicate AllBounded(c: Coordinator) {
    forall p :: p in c.permits ==> Bounded(p, c.maxPermit)
  }

  lemma PersistingBounded(before: seq<Permit>, after: seq<Permit>, maxPermit: nat)
    requires Persists(before, after) && |after| == |before| && forall p :: p in before ==> Bounded(p, maxPermit)
    ensures forall p :: p in after ==> Bounded(p, maxPermit)
  {
    forall p | p in after ensures Bounded(p, maxPermit) {
      var i :| 0 <= i < |after| && after[i] == p;
      assert before[i] in before;
    }
  }

  lemma GrantBounded(c: Coordinator, authority: Authority, now: int, permitMs: int)
    requires AllBounded(c) && c.maxPermit > 0
    ensures AllBounded(GrantNext(c, authority, now, permitMs).state)
  {
    hide ScanQueue; hide ExpireAll;
    if GrantNext(c, authority, now, permitMs).granted.Ok? {
      var permits := ExpireAll(c.permits, now);
      ApplyPersists(c, ExpireOp(now));
      PersistingBounded(c.permits, permits, c.maxPermit);
      ScanMembers(c.queued, permits, c.declarations, now);
      var scan := ScanQueue(c.queued, permits, c.declarations, now);
      var issued := Issue(scan.selected, now, Min(permitMs, c.maxPermit));
      hide BlockedByPermit; hide Persists;
      forall p | p in issued ensures Bounded(p, c.maxPermit) {
        var k :| 0 <= k < |issued| && issued[k] == p;
        assert scan.selected[k] in scan.selected;
      }
    }
  }

  lemma ApplyBounded(c: Coordinator, op: Op)
    requires AllBounded(c) && c.maxPermit > 0
    ensures AllBounded(Apply(c, op)) && Apply(c, op).maxPermit == c.maxPermit
  {
    ApplyPersists(c, op);
    hide Bounded; hide Persists;
    SameMaxPermit(c, op);
    if op.GrantOp? {
      hide GrantNext;
      GrantBounded(c, op.authority, op.now, op.permitMs);
    } else {
      SamePermitCount(c, op);
      hide Apply;
      PersistingBounded(c.permits, Apply(c, op).permits, c.maxPermit);
    }
  }

  lemma SameMaxPermit(c: Coordinator, op: Op)
    ensures Apply(c, op).maxPermit == c.maxPermit
  {
    hide ScanQueue; hide IndexOf; hide BindingError; hide PermitOf; hide EntryOf; hide ClaimError; hide WellFormed; hide ExpireAll; hide Issue;
    if op.RegisterOp? { RegisterSame(c, op.declarations); }
  }

  lemma {:induction false} RegisterSame(c: Coordinator, ds: seq<Declaration>)
    ensures Register(c, ds).state.maxPermit == c.maxPermit
  {
    hide Aliased; hide ClaimLive;
    if ds != [] {
      RegisterSame(c, ds[..|ds| - 1]);
    }
  }

  lemma SamePermitCount(c: Coordinator, op: Op)
    requires !op.GrantOp?
    ensures |Apply(c, op).permits| == |c.permits|
  {
    hide IndexOf; hide BindingError; hide PermitOf; hide EntryOf; hide ClaimError; hide WellFormed;
    if op.RegisterOp? { RegisterLeavesPermits(c, op.declarations); }
  }

  /** In every run each permit lasts a positive time, no longer than the authority's limit, and never
      beyond its request's deadline. */
  lemma {:induction false} PermitsBounded(authority: Authority, maxPermit: nat, ops: seq<Op>)
    requires maxPermit > 0
    ensures AllBounded(Run(Fresh(authority, maxPermit), ops)) && Run(Fresh(authority, maxPermit), ops).maxPermit == maxPermit
  {
    hide Apply;
    if ops != [] {
      PermitsBounded(authority, maxPermit, ops[..|ops| - 1]);
      hide AllBounded;
      ApplyBounded(Run(Fresh(authority, maxPermit), ops[..|ops| - 1]), ops[|ops| - 1]);
    }
  }

  /** A live reservation of the request itself, at the claimed boot and for the claimed quantity. */
  predicate Binds(b: Binding, request: Request, claim: Claim) {
    b.identity == request.identity && b.boot == claim.key.boot && b.live && b.quantity >= claim.quantity && !Blank(b.reservation)
  }

  lemma {:induction false} BindingsComplete(request: Request, bindings: map<Key, Binding>, k: nat)
    requires k <= |request.claims|
    ensures BindingError(request, bindings, k).None? <==>
      forall j :: k <= j < |request.claims| ==>
        request.claims[j].key in bindings && Binds(bindings[request.claims[j].key], request, request.claims[j])
    decreases |request.claims| - k
  {
    hide Blank;
    if k < |request.claims| {
      BindingsComplete(request, bindings, k + 1);
    }
  }

  /** A granted permit within its window is activated exactly when every one of its claims is bound by
      a live reservation of that request: a partial reservation set never executes. */
  lemma ActivatesExactly(c: Coordinator, id: nat, bindings: map<Key, Binding>, now: int)
    requires IndexOf(c.permits, id) < |c.permits|
    requires var p := c.permits[IndexOf(c.permits, id)]; p.standing.Granted? && now < p.expiresAt
    ensures var request := c.permits[IndexOf(c.permits, id)].request;
      Activate(c, id, bindings, now).permit.Ok? <==>
        forall j :: 0 <= j < |request.claims| ==>
          request.claims[j].key in bindings && Binds(bindings[request.claims[j].key], request, request.claims[j])
  {
    hide IndexOf; hide BindingError; hide Binds;
    BindingsComplete(c.permits[IndexOf(c.permits, id)].request, bindings, 0);
  }

  // ----- the ownership audit -----

  /** The end of an activated permit's ownership interval. */
  function OwnedUntil(p: Permit): int {
    if p.standing.Released? then p.standing.at else p.expiresAt
  }

  predicate SharesKey(left: Request, right: Request) {
    exists i, j :: 0 <= i < |left.claims| && 0 <= j < |right.claims| && left.claims[i].key == right.claims[j].key
  }

  /** The audit: no two activated permits on one device overlap, whoever may share it. */
  ghost predicate AuditPasses(permits: seq<Permit>) {
    forall i, j ::
      0 <= i < j < |permits| && permits[i].activatedAt.Some? && permits[j].activatedAt.Some? ==>
        SharesKey(permits[i].request, permits[j].request) ==> Intervals(permits[i], permits[j])
  }

  predicate Intervals(left: Permit, right: Permit)
    requires left.activatedAt.Some? && right.activatedAt.Some?
  {
    var start := if left.activatedAt.value >= right.activatedAt.value then left.activatedAt.value else right.activatedAt.value;
    start >= Min(OwnedUntil(left), OwnedUntil(right))
  }

  ghost predicate AllExclusive(permits: seq<Permit>) {
    forall p, k :: p in permits && 0 <= k < |p.request.claims| ==> p.request.claims[k].exclusive
  }

  /** When every claim is exclusive the audit passes after every monotone run. */
  lemma AuditPassesWhenExclusive(authority: Authority, maxPermit: nat, ops: seq<Op>, from: int)
    requires Monotone(ops, from) && AllExclusive(Run(Fresh(authority, maxPermit), ops).permits)
    ensures AuditPasses(Run(Fresh(authority, maxPermit), ops).permits)
  {
    RunTimely(authority, maxPermit, ops, from);
    var permits := Run(Fresh(authority, maxPermit), ops).permits;
    hide Run;
    forall i, j | 0 <= i < j < |permits| && permits[i].activatedAt.Some? && permits[j].activatedAt.Some?
               && SharesKey(permits[i].request, permits[j].request)
      ensures Intervals(permits[i], permits[j])
    {
      var a, b :| 0 <= a < |permits[i].request.claims| && 0 <= b < |permits[j].request.claims|
               && permits[i].request.claims[a].key == permits[j].request.claims[b].key;
      assert permits[i] in permits;
      assert Clash(permits[i].request, permits[j].request);
      hide Clash;
      assert EndedBefore(permits[i], permits[j]);
      assert Dated(permits[j], Clock(ops, from));
    }
  }
}
