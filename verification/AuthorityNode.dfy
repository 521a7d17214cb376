/** The authority's request handler: what it answers, what it counts, and what retries get. */
module AuthorityNode {
  import opened Outcomes
  import opened Requests
  import opened Admission
  import opened AdmissionInvariant
  import T = AdmissionTime
  import W = AdmissionAnswers
  import C = AdmissionCoordinator

  datatype Call =
    | AcquireCall(request: Request, permitMs: int)
    | ReleaseCall(id: nat, reason: string)
    | GarbledCall

  datatype Reply =
    | ReleaseReply(changed: bool)
    | AdmittedReply(permit: Permit)
    | QueuedReply
    | ErrorReply

  datatype Counters = Counters(requests: nat, grants: nat, releases: nat, rejections: nat)

  datatype Node = Node(coordinator: Coordinator, counters: Counters)

  datatype Served = Served(node: Node, reply: Reply)

  /** The first live permit of the identity, if any. */
  function FirstLive(permits: seq<Permit>, identity: Identity): (found: Option<Permit>)
    ensures found.Some? ==> found.value in permits && found.value.Live() && found.value.request.identity == identity
    ensures found.None? ==> forall p :: p in permits && p.Live() ==> p.request.identity != identity
  {
    if permits == [] then None
    else if permits[0].request.identity == identity && permits[0].Live() then Some(permits[0])
    else
      assert permits == [permits[0]] + permits[1..];
      FirstLive(permits[1..], identity)
  }

  datatype Acquired = Acquired(coordinator: Coordinator, reply: Reply)

  function Acquire(c: Coordinator, request: Request, permitMs: int, now: int): Acquired {
    if !WellFormed(request) then Acquired(c, ErrorReply)
    else
      var submitted := Submit(c, request, now);
      if submitted.answer.Err? then Acquired(submitted.state, ErrorReply)
      else match FirstLive(submitted.state.permits, request.identity)
        case Some(p) => Acquired(submitted.state, AdmittedReply(p))
        case None =>
          var grant := GrantNext(submitted.state, submitted.state.authority, now, permitMs);
          match grant.granted
          case Err(_) => Acquired(grant.state, ErrorReply)
          case Ok(granted) =>
            match FirstLive(granted, request.identity)
            case Some(p) => Acquired(grant.state, AdmittedReply(p))
            case None => Acquired(grant.state, QueuedReply)
  }

  function Count(counters: Counters, reply: Reply): Counters {
    match reply
    case ReleaseReply(changed) => counters.(releases := counters.releases + if changed then 1 else 0)
    case AdmittedReply(_) => counters.(grants := counters.grants + 1)
    case _ => counters.(rejections := counters.rejections + 1)
  }

  function Serve(node: Node, call: Call, now: int): Served {
    var counted := node.counters.(requests := node.counters.requests + 1);
    match call
    case GarbledCall => Served(node.(counters := Count(counted, ErrorReply)), ErrorReply)
    case ReleaseCall(id, reason) =>
      var done := Release(node.coordinator, id, now, reason);
      var reply := match done.changed case Ok(changed) => ReleaseReply(changed) case Err(_) => ErrorReply;
      Served(Node(done.state, Count(counted, reply)), reply)
    case AcquireCall(request, permitMs) =>
      var acquired := Acquire(node.coordinator, request, permitMs, now);
      Served(Node(acquired.coordinator, Count(counted, acquired.reply)), acquired.reply)
  }

  // ----- runs of the handler -----

  datatype Arrival = Arrival(call: Call, now: int)

  datatype History = History(node: Node, replies: seq<Reply>)

  function ServeAll(node: Node, arrivals: seq<Arrival>): (h: History)
    ensures |h.replies| == |arrivals|
  {
    if arrivals == [] then History(node, [])
    else
      var before := ServeAll(node, arrivals[..|arrivals| - 1]);
      var last := arrivals[|arrivals| - 1];
      var served := Serve(before.node, last.call, last.now);
      History(served.node, before.replies + [served.reply])
  }

  function Start(authority: Authority, maxPermit: nat, declarations: seq<Declaration>): Node {
    Node(Register(Fresh(authority, maxPermit), declarations).state, Counters(0, 0, 0, 0))
  }

  // ----- each call as coordinator operations -----

  lemma AcquireOps(c: Coordinator, request: Request, permitMs: int, now: int)
    ensures var next := Acquire(c, request, permitMs, now).coordinator;
      || next == c
      || next == Run(c, [SubmitOp(request, now)])
      || next == Run(c, [SubmitOp(request, now), GrantOp(c.authority, now, permitMs)])
  {
    hide Submit; hide GrantNext; hide FirstLive; hide WellFormed;
    var one, two := [SubmitOp(request, now)], [SubmitOp(request, now), GrantOp(c.authority, now, permitMs)];
    assert one[..0] == [] && two[..1] == one;
    assert Run(c, []) == c;
    SubmitAuthority(c, request, now);
  }

  lemma SubmitAuthority(c: Coordinator, request: Request, now: int)
    ensures Submit(c, request, now).state.authority == c.authority
    ensures Submit(c, request, now).state.permits == c.permits
    ensures Submit(c, request, now).state.declarations == c.declarations
  {
    hide ClaimError; hide PermitOf; hide EntryOf;
  }

  lemma ServeKeeps(node: Node, call: Call, now: int)
    requires Inv(node.coordinator)
    ensures Inv(Serve(node, call, now).node.coordinator)
    ensures T.Persists(node.coordinator.permits, Serve(node, call, now).node.coordinator.permits)
  {
    hide Inv; hide T.Persists; hide Acquire; hide Run;
    var c := node.coordinator;
    match call {
      case GarbledCall => T.RunPersists(c, []); assert Run(c, []) == c by { RunNone(c); }
      case ReleaseCall(id, reason) =>
        hide Release;
        ApplyKeeps(c, ReleaseOp(id, now, reason));
        T.ApplyPersists(c, ReleaseOp(id, now, reason));
      case AcquireCall(request, permitMs) =>
        AcquireOps(c, request, permitMs, now);
        RunNone(c);
        var one, two := [SubmitOp(request, now)], [SubmitOp(request, now), GrantOp(c.authority, now, permitMs)];
        T.RunInv(c, one); T.RunInv(c, two);
        T.RunPersists(c, one); T.RunPersists(c, two); T.RunPersists(c, []);
    }
  }

  lemma RunNone(c: Coordinator)
    ensures Run(c, []) == c
  {
  }

  lemma {:induction false} ServeAllKeeps(node: Node, arrivals: seq<Arrival>)
    requires Inv(node.coordinator)
    ensures Inv(ServeAll(node, arrivals).node.coordinator)
  {
    hide Serve; hide Inv;
    if arrivals != [] {
      ServeAllKeeps(node, arrivals[..|arrivals| - 1]);
      ServeKeeps(ServeAll(node, arrivals[..|arrivals| - 1]).node, arrivals[|arrivals| - 1].call, arrivals[|arrivals| - 1].now);
    }
  }

  // ----- retries -----

  /** A request that holds a live permit is answered with that permit, and nothing moves. */
  lemma RetryGetsHeldPermit(c: Coordinator, i: nat, permitMs: int, now: int)
    requires Inv(c) && i < |c.permits| && c.permits[i].Live()
    requires c.permits[i].request.capability == CAPABILITY && ClaimError(c, c.permits[i].request.claims).None?
    ensures Acquire(c, c.permits[i].request, permitMs, now) == Acquired(c, AdmittedReply(c.permits[i]))
  {
    hide ClaimError; hide Exclusive; hide Unaliased; hide Tidy;
    T.PermitOfUnique(c, i);
    hide PermitOf;
    var p := c.permits[i];
    assert p in c.permits;
    assert WellFormed(p.request);
    hide WellFormed;
    var found := FirstLive(c.permits, p.request.identity);
    assert found.Some?;
    var j :| 0 <= j < |c.permits| && c.permits[j] == found.value;
    assert j == i;
  }

  /** Whatever is answered, the permit delivered is the one live permit of that very request. */
  lemma AdmittedIsTheRequests(c: Coordinator, request: Request, permitMs: int, now: int)
    requires Inv(c) && Acquire(c, request, permitMs, now).reply.AdmittedReply?
    ensures var acquired := Acquire(c, request, permitMs, now);
      && acquired.reply.permit in acquired.coordinator.permits && acquired.reply.permit.Live()
      && acquired.reply.permit.request.identity == request.identity
      && (forall p :: p in acquired.coordinator.permits && p.request.identity == request.identity ==> p == acquired.reply.permit)
  {
    var acquired := Acquire(c, request, permitMs, now);
    hide ClaimError; hide WellFormed; hide ScanQueue; hide ExpireAll; hide Issue; hide PermitOf; hide EntryOf;
    ServeKeeps(Node(c, Counters(0, 0, 0, 0)), AcquireCall(request, permitMs), now);
    hide Acquire; hide AllDeclared; hide Exclusive; hide Unaliased; hide Tidy;
    AdmittedListed(c, request, permitMs, now);
    forall p | p in acquired.coordinator.permits && p.request.identity == request.identity ensures p == acquired.reply.permit {
      var i :| 0 <= i < |acquired.coordinator.permits| && acquired.coordinator.permits[i] == p;
      var j :| 0 <= j < |acquired.coordinator.permits| && acquired.coordinator.permits[j] == acquired.reply.permit;
    }
  }

  lemma AdmittedListed(c: Coordinator, request: Request, permitMs: int, now: int)
    requires Acquire(c, request, permitMs, now).reply.AdmittedReply?
    ensures var acquired := Acquire(c, request, permitMs, now);
      && acquired.reply.permit in acquired.coordinator.permits && acquired.reply.permit.Live()
      && acquired.reply.permit.request.identity == request.identity
  {
    hide Submit; hide WellFormed; hide ScanQueue; hide ExpireAll; hide Issue;
  }

  // ----- the three replies -----

  ghost predicate HoldsLive(c: Coordinator, identity: Identity, p: Permit) {
    p in c.permits && p.Live() && p.request.identity == identity
  }

  /** The request is malformed, not of the capability, claims what the declarations refuse, or is another request
      under a known identity while in time. */
  ghost predicate Refused(c: Coordinator, request: Request, now: int) {
    || W.Malformed(request) || request.capability != CAPABILITY || !W.AllAcceptable(c, request)
    || (now < request.deadline && exists p :: p in c.permits && p.request.identity == request.identity && p.request != request)
    || (now < request.deadline && exists e :: e in c.queued && e.request.identity == request.identity && e.request != request)
  }

  /** The coordinator with the request at the end of its queue, when it is in time and not yet known. */
  ghost function Joined(c: Coordinator, request: Request, now: int): Coordinator {
    if now < request.deadline && !W.Known(c, request.identity)
    then c.(submissions := c.submissions + 1, queued := c.queued + [Entry(c.submissions + 1, request)])
    else c
  }

  lemma RefusedExactly(c: Coordinator, request: Request, now: int)
    requires Inv(c) && !W.Malformed(request)
    ensures Submit(c, request, now).answer.Err? <==> Refused(c, request, now)
    ensures Submit(c, request, now).answer.Err? ==> Submit(c, request, now).state == c
    ensures Submit(c, request, now).answer.Ok? ==> Submit(c, request, now).state == Joined(c, request, now)
  {
    W.SubmitExactly(c, request, now);
    hide WellFormed; hide Inv;
    if request.capability == CAPABILITY && W.AllAcceptable(c, request) && now < request.deadline {
      W.SubmitKnown(c, request, now);
    }
    hide Submit; hide W.AllAcceptable;
  }

  /** The reply to a request that is not refused, and the coordinator then, from where it has joined the queue. */
  ghost predicate Replied(c: Coordinator, request: Request, permitMs: int, now: int, a: Acquired) {
    if exists p :: HoldsLive(c, request.identity, p) then
      a.coordinator == c && a.reply.AdmittedReply? && HoldsLive(c, request.identity, a.reply.permit)
    else if !c.available || c.cleanupOnly || permitMs <= 0 then a == Acquired(c, ErrorReply)
    else
      var g := GrantNext(c, c.authority, now, permitMs);
      && g.granted.Ok? && a.coordinator == g.state
      && (if exists p :: p in g.granted.value && p.request.identity == request.identity
          then a.reply.AdmittedReply? && a.reply.permit in g.granted.value && a.reply.permit.request.identity == request.identity
          else a.reply == QueuedReply)
  }

  /** A request that is refused, or that finds the authority closed and no live permit of its own, is answered with
      an error; one that has a live permit, or is granted one now, with that permit; any other is queued. */
  lemma AcquireExactly(c: Coordinator, request: Request, permitMs: int, now: int)
    requires Inv(c)
    ensures if Refused(c, request, now) then Acquire(c, request, permitMs, now) == Acquired(c, ErrorReply)
            else Replied(Joined(c, request, now), request, permitMs, now, Acquire(c, request, permitMs, now))
  {
    W.MalformedExactly(request);
    if WellFormed(request) {
      RefusedExactly(c, request, now);
      var s := Submit(c, request, now).state;
      W.GrantExactly(s, s.authority, now, permitMs);
      GrantedLive(s, now, permitMs);
      hide Inv; hide Submit; hide WellFormed; hide W.Malformed; hide GrantNext; hide Refused; hide Joined;
      var existing := FirstLive(s.permits, request.identity);
      if existing.Some? { assert HoldsLive(s, request.identity, existing.value); }
    }
  }

  lemma GrantedLive(c: Coordinator, now: int, permitMs: int)
    ensures var g := GrantNext(c, c.authority, now, permitMs);
      g.granted.Ok? ==> forall p :: p in g.granted.value ==> p.Live()
  {
    hide ScanQueue; hide ExpireAll;
  }

  // ----- accounting -----

  function Admissions(replies: seq<Reply>): nat {
    if replies == [] then 0
    else Admissions(replies[..|replies| - 1]) + if replies[|replies| - 1].AdmittedReply? then 1 else 0
  }

  function ReleaseAnswers(replies: seq<Reply>): nat {
    if replies == [] then 0
    else ReleaseAnswers(replies[..|replies| - 1]) + if replies[|replies| - 1].ReleaseReply? then 1 else 0
  }

  /** Permits ended by a release call. */
  function CalledCount(permits: seq<Permit>): nat {
    if permits == [] then 0
    else
      var last := permits[|permits| - 1];
      CalledCount(permits[..|permits| - 1]) + if last.standing.Released? && last.standing.cause.Called? then 1 else 0
  }

  /** Release calls that ended a permit and were still answered with an error. */
  function Unreported(arrivals: seq<Arrival>, replies: seq<Reply>): nat
    requires |arrivals| == |replies|
  {
    if arrivals == [] then 0
    else
      var n := |arrivals| - 1;
      Unreported(arrivals[..n], replies[..n]) + if arrivals[n].call.ReleaseCall? && replies[n].ErrorReply? then 1 else 0
  }

  /** The permits delivered in admissions, by number. */
  function Delivered(replies: seq<Reply>): set<nat> {
    set r | r in replies && r.AdmittedReply? :: r.permit.id
  }

  ghost predicate Balanced(h: History, arrivals: seq<Arrival>)
    requires |h.replies| == |arrivals|
  {
    var k := h.node.counters;
    && k.requests == |arrivals|
    && k.grants == Admissions(h.replies)
    && k.requests == k.grants + k.rejections + ReleaseAnswers(h.replies)
    && CalledCount(h.node.coordinator.permits) == k.releases + Unreported(arrivals, h.replies)
    && |Delivered(h.replies)| <= k.grants
  }

  lemma {:induction false} CalledCountPointwise(before: seq<Permit>, after: seq<Permit>)
    requires |before| <= |after|
    requires forall i :: 0 <= i < |before| ==>
      ((before[i].standing.Released? && before[i].standing.cause.Called?) <==> (after[i].standing.Released? && after[i].standing.cause.Called?))
    requires forall i :: |before| <= i < |after| ==> after[i].Live()
    ensures CalledCount(before) == CalledCount(after)
  {
    if |after| > |before| {
      CalledCountPointwise(before, after[..|after| - 1]);
    } else if before != [] {
      CalledCountPointwise(before[..|before| - 1], after[..|after| - 1]);
    }
  }

  lemma {:induction false} CalledCountUpdate(permits: seq<Permit>, i: nat, p: Permit)
    requires i < |permits| && permits[i].Live() && p.standing.Released? && p.standing.cause.Called?
    ensures CalledCount(permits[i := p]) == CalledCount(permits) + 1
  {
    var n := |permits| - 1;
    if i == n {
      assert permits[i := p][..n] == permits[..n];
    } else {
      CalledCountUpdate(permits[..n], i, p);
      assert permits[i := p][..n] == permits[..n][i := p];
    }
  }

  lemma AcquireCountsNoRelease(c: Coordinator, request: Request, permitMs: int, now: int)
    ensures CalledCount(Acquire(c, request, permitMs, now).coordinator.permits) == CalledCount(c.permits)
    ensures !Acquire(c, request, permitMs, now).reply.ReleaseReply?
  {
    hide CalledCount; hide FirstLive; hide WellFormed; hide ScanQueue; hide Submit;
    SubmitAuthority(c, request, now);
    var next := Acquire(c, request, permitMs, now).coordinator;
    CalledCountPointwise(c.permits, next.permits);
  }

  lemma ReleaseCounts(c: Coordinator, id: nat, now: int, reason: string)
    ensures var done := Release(c, id, now, reason);
      CalledCount(done.state.permits) == CalledCount(c.permits) + if done.changed == Ok(false) then 0 else 1
  {
    hide IndexOf; hide Blank;
    var i := IndexOf(c.permits, id);
    if i < |c.permits| && c.permits[i].Live() {
      CalledCountUpdate(c.permits, i, c.permits[i].(standing := Released(now, Called)));
    }
  }

  lemma DeliveredStep(replies: seq<Reply>, reply: Reply)
    ensures Delivered(replies + [reply]) == if reply.AdmittedReply? then Delivered(replies) + {reply.permit.id} else Delivered(replies)
  {
  }

  /** Over every run: requests are grants, rejections and answered release calls; the release
      counter is the number of permits ended by a call, less those ended by a call that then
      failed; and grants are at least the distinct permits delivered. */
  lemma {:induction false} Accounting(node: Node, arrivals: seq<Arrival>)
    requires node.counters == Counters(0, 0, 0, 0) && node.coordinator.permits == []
    ensures Balanced(ServeAll(node, arrivals), arrivals)
  {
    hide Serve; hide Balanced; hide Delivered; hide CalledCount; hide Admissions; hide ReleaseAnswers; hide Unreported;
    if arrivals == [] {
      BalancedStart(node);
    } else {
      var n := |arrivals| - 1;
      Accounting(node, arrivals[..n]);
      var before := ServeAll(node, arrivals[..n]);
      AccountingStep(before.node, arrivals[n]);
      BalancedNext(before, Serve(before.node, arrivals[n].call, arrivals[n].now), arrivals[..n], arrivals[n]);
      assert arrivals[..n] + [arrivals[n]] == arrivals;
    }
  }

  lemma BalancedStart(node: Node)
    requires node.counters == Counters(0, 0, 0, 0) && node.coordinator.permits == []
    ensures Balanced(History(node, []), [])
  {
    assert Delivered([]) == {};
  }

  /** One more answered call keeps the books balanced. */
  lemma BalancedNext(before: History, served: Served, arrivals: seq<Arrival>, arrival: Arrival)
    requires |before.replies| == |arrivals| && Balanced(before, arrivals)
    requires var was, k := before.node.counters, served.node.counters;
      && k.requests == was.requests + 1
      && k.grants == was.grants + (if served.reply.AdmittedReply? then 1 else 0)
      && k.rejections == was.rejections + (if served.reply.AdmittedReply? || served.reply.ReleaseReply? then 0 else 1)
      && CalledCount(served.node.coordinator.permits) - k.releases == CalledCount(before.node.coordinator.permits) - was.releases
           + (if arrival.call.ReleaseCall? && served.reply.ErrorReply? then 1 else 0)
    ensures Balanced(History(served.node, before.replies + [served.reply]), arrivals + [arrival])
  {
    var replies, all := before.replies + [served.reply], arrivals + [arrival];
    assert replies[..|before.replies|] == before.replies && all[..|arrivals|] == arrivals;
    DeliveredStep(before.replies, served.reply);
    hide Delivered; hide CalledCount;
  }

  lemma AccountingStep(node: Node, arrival: Arrival)
    ensures var served := Serve(node, arrival.call, arrival.now);
      var was, k := node.counters, served.node.counters;
      && k.requests == was.requests + 1
      && k.grants == was.grants + (if served.reply.AdmittedReply? then 1 else 0)
      && k.rejections == was.rejections + (if served.reply.AdmittedReply? || served.reply.ReleaseReply? then 0 else 1)
      && CalledCount(served.node.coordinator.permits) - k.releases == CalledCount(node.coordinator.permits) - was.releases
           + (if arrival.call.ReleaseCall? && served.reply.ErrorReply? then 1 else 0)
  {
    hide Acquire; hide Release; hide CalledCount;
    match arrival.call {
      case GarbledCall =>
      case ReleaseCall(id, reason) => ReleaseCounts(node.coordinator, id, arrival.now, reason);
      case AcquireCall(request, permitMs) => AcquireCountsNoRelease(node.coordinator, request, permitMs, arrival.now);
    }
  }

  /** A release call goes unreported exactly when it names a live permit with a blank reason:
      the permit has already ended when the blank is noticed. */
  lemma UnreportedExactly(node: Node, id: nat, reason: string, now: int)
    ensures var served := Serve(node, ReleaseCall(id, reason), now);
      var i := IndexOf(node.coordinator.permits, id);
      && (served.reply.ErrorReply? <==> i < |node.coordinator.permits| && node.coordinator.permits[i].Live() && Blank(reason))
      && (served.reply.ErrorReply? ==> !served.node.coordinator.permits[i].Live() && served.node.counters.releases == node.counters.releases)
  {
    hide IndexOf; hide Blank;
  }

  // ----- the handler in place -----

  class Handler {
    const coordinator: C.ConflictAdmissionCoordinator
    var counters: Counters

    function View(): Node
      reads this, coordinator
    {
      Node(coordinator.State(), counters)
    }

    constructor (authority: Authority, maxPermit: nat, declarations: seq<Declaration>)
      ensures View() == Start(authority, maxPermit, declarations) && Inv(coordinator.State())
      ensures fresh(coordinator)
    {
      var c := new C.ConflictAdmissionCoordinator(authority, maxPermit);
      var _ := c.RegisterDeclarations(declarations);
      coordinator := c;
      counters := Counters(0, 0, 0, 0);
    }

    method Handle(call: Call, now: int) returns (reply: Reply)
      requires Inv(coordinator.State())
      modifies this, coordinator
      ensures Served(View(), reply) == Serve(old(View()), call, now)
      ensures Inv(coordinator.State())
    {
      hide Inv; hide Submit; hide GrantNext; hide Release; hide FirstLive;
      counters := counters.(requests := counters.requests + 1);
      match call {
        case GarbledCall =>
          reply := ErrorReply;
        case ReleaseCall(id, reason) =>
          var changed := coordinator.Release(id, now, reason);
          reply := if changed.Ok? then ReleaseReply(changed.value) else ErrorReply;
        case AcquireCall(request, permitMs) =>
          reply := Acquiring(request, permitMs, now);
      }
      counters := Count(counters, reply);
    }

    method Acquiring(request: Request, permitMs: int, now: int) returns (reply: Reply)
      requires Inv(coordinator.State())
      modifies coordinator
      ensures Acquired(coordinator.State(), reply) == Acquire(old(coordinator.State()), request, permitMs, now)
      ensures Inv(coordinator.State())
    {
      hide Inv; hide Submit; hide GrantNext; hide WellFormed;
      if !WellFormed(request) { return ErrorReply; }
      var answer := coordinator.Submit(request, now);
      if answer.Err? { return ErrorReply; }
      var existing := FirstLive(coordinator.permits, request.identity);
      if existing.None? {
        var granted := coordinator.GrantNext(coordinator.authority, now, permitMs);
        if granted.Err? { return ErrorReply; }
        existing := FirstLive(granted.value, request.identity);
      }
      if existing.None? { return QueuedReply; }
      reply := AdmittedReply(existing.value);
    }
  }
}
