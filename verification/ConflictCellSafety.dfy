/** What every run of a conflict cell keeps. */
module ConflictCellSafety {
  import opened Outcomes
  import opened Requests
  import opened ConflictCell
  import A = Admission
  import AI = AdmissionInvariant
  import AT = AdmissionTime
  import N = AuthorityNode
  import R = Reservations
  import RL = ReservationLedger
  import RH = ReservationHistory
  import T = ReservationTime

  // ----- the invariant -----

  /** The envelope is what the coordinator's permit of that number says, under the expected authority. */
  ghost predicate Backed(permits: seq<A.Permit>, expected: A.Authority, e: Envelope) {
    var i := A.IndexOf(permits, e.permitId);
    i < |permits| && e == Issue(permits[i], expected, ExpectedKey)
  }

  ghost predicate SlotClaim(claim: A.Claim) {
    exists id :: claim == A.Claim(ResourceKey(id, FIRST_BOOT), 1, true)
  }

  ghost predicate OnSlots(request: A.Request) {
    forall k :: 0 <= k < |request.claims| ==> SlotClaim(request.claims[k])
  }

  ghost predicate AllOnSlots(c: A.Coordinator) {
    && (forall e :: e in c.queued ==> OnSlots(e.request))
    && (forall p :: p in c.permits ==> OnSlots(p.request))
  }

  ghost predicate AuthorityOk(cell: Cell) {
    var c := cell.authority.coordinator;
    && AI.Inv(c) && c.authority == cell.expected && AT.Timely(c, cell.authorityClock) && AllOnSlots(c)
    && forall e :: e in cell.envelopes && e.signer.ExpectedKey? ==> Backed(c.permits, cell.expected, e)
  }

  ghost predicate AdmittedOk(cell: Cell) {
    cell.centralized ==>
      forall a :: a in cell.admitted ==> a.envelope.Some? && Traced(cell, a)
  }

  /** The admission was gated by a permit of the expected authority. */
  ghost predicate Traced(cell: Cell, a: Admitted)
    requires a.envelope.Some?
  {
    && Backed(cell.authority.coordinator.permits, cell.expected, a.envelope.value)
    && Admits(a.envelope.value, cell.expected, a.identity, a.key, a.at)
  }

  ghost predicate AdmittedBy(admitted: seq<Admitted>, key: A.Key, identity: Identity, until: int) {
    exists a :: a in admitted && a.key == key && a.identity == identity && a.at <= until
  }

  ghost predicate ProviderOk(p: Provider, admitted: seq<Admitted>) {
    && RL.Inv(p.book) && RH.Accounted(p.book) && p.book.limits == T.CELL_LIMITS && T.Leased(p.book, p.clock)
    && (forall item :: item in p.book.items ==> AdmittedBy(admitted, p.Key(), item.identity, p.clock))
    && (forall w :: w in p.waiting && w.negotiated ==> AdmittedBy(admitted, p.Key(), w.identity, p.clock))
  }

  ghost predicate ProvidersOk(cell: Cell) {
    forall name :: name in cell.providers ==> cell.providers[name].id == name && ProviderOk(cell.providers[name], cell.admitted)
  }

  ghost predicate ExecutedOk(cell: Cell) {
    forall x :: x in cell.executed && x.negotiated ==> AdmittedBy(cell.admitted, x.key, x.identity, x.at)
  }

  ghost predicate CellInv(cell: Cell) {
    AuthorityOk(cell) && AdmittedOk(cell) && ProvidersOk(cell) && ExecutedOk(cell)
  }

  // ----- the authority's steps -----

  lemma {:induction false} IndexPersists(before: seq<A.Permit>, after: seq<A.Permit>, id: nat)
    requires AT.Persists(before, after) && A.IndexOf(before, id) < |before|
    ensures A.IndexOf(after, id) == A.IndexOf(before, id)
  {
    if before[0].id != id {
      assert AT.Persists(before[1..], after[1..]);
      IndexPersists(before[1..], after[1..], id);
    }
  }

  lemma BackedPersists(before: seq<A.Permit>, after: seq<A.Permit>, expected: A.Authority, e: Envelope)
    requires AT.Persists(before, after) && Backed(before, expected, e)
    ensures Backed(after, expected, e)
  {
    hide A.IndexOf;
    IndexPersists(before, after, e.permitId);
  }

  lemma ClaimsOnSlots(providers: seq<string>)
    ensures forall k :: 0 <= k < |ClaimsOn(providers)| ==> SlotClaim(ClaimsOn(providers)[k])
  {
    forall k | 0 <= k < |providers| ensures SlotClaim(ClaimsOn(providers)[k]) {
      assert ClaimsOn(providers)[k] == A.Claim(ResourceKey(providers[k], FIRST_BOOT), 1, true);
    }
  }

  lemma SubmitOnSlots(c: A.Coordinator, request: A.Request, now: int)
    requires AllOnSlots(c) && OnSlots(request)
    ensures AllOnSlots(A.Submit(c, request, now).state)
  {
    hide A.ClaimError; hide A.PermitOf; hide A.EntryOf; hide OnSlots;
  }

  lemma GrantOnSlots(c: A.Coordinator, authority: A.Authority, now: int, permitMs: int)
    requires AllOnSlots(c)
    ensures AllOnSlots(A.GrantNext(c, authority, now, permitMs).state)
  {
    hide OnSlots; hide A.ScanQueue; hide A.BlockedByPermit;
    if A.GrantNext(c, authority, now, permitMs).granted.Ok? {
      var permits := A.ExpireAll(c.permits, now);
      AI.ScanMembers(c.queued, permits, c.declarations, now);
      var scan := A.ScanQueue(c.queued, permits, c.declarations, now);
      var issued := A.Issue(scan.selected, now, A.Min(permitMs, c.maxPermit));
      forall p | p in issued ensures OnSlots(p.request) {
        var k :| 0 <= k < |issued| && issued[k] == p;
        assert scan.selected[k] in scan.selected;
      }
      forall p | p in permits ensures OnSlots(p.request) {
        var k :| 0 <= k < |permits| && permits[k] == p;
        assert c.permits[k] in c.permits;
      }
    }
  }

  lemma ReleaseOnSlots(c: A.Coordinator, id: nat, now: int, reason: string)
    requires AllOnSlots(c)
    ensures AllOnSlots(A.Release(c, id, now, reason).state)
  {
    hide OnSlots; hide A.IndexOf; hide A.Blank;
    var next := A.Release(c, id, now, reason).state;
    forall p | p in next.permits ensures OnSlots(p.request) {
      var k :| 0 <= k < |next.permits| && next.permits[k] == p;
      assert c.permits[k] in c.permits;
    }
  }

  /** One call to the authority, in all that a cell needs of it. */
  lemma ServeFacts(node: N.Node, message: Message, now: int, clock: int)
    requires AI.Inv(node.coordinator) && AllOnSlots(node.coordinator) && AT.Timely(node.coordinator, clock) && clock <= now
    ensures var served := N.Serve(node, CallOf(message), now);
      && AI.Inv(served.node.coordinator) && AllOnSlots(served.node.coordinator)
      && AT.Timely(served.node.coordinator, now)
      && served.node.coordinator.authority == node.coordinator.authority
      && AT.Persists(node.coordinator.permits, served.node.coordinator.permits)
  {
    hide AI.Inv; hide AT.Timely; hide AllOnSlots; hide AT.Persists; hide N.Acquire; hide A.Release;
    var c := node.coordinator;
    N.ServeKeeps(node, CallOf(message), now);
    match message {
      case GarbledMessage => AT.SamePermits(c, c, clock, now);
      case ReleaseMessage(id, reason) =>
        ReleaseOnSlots(c, id, now, reason);
        AT.ApplyTimely(c, A.ReleaseOp(id, now, reason), clock);
        ReleaseAuthority(c, id, now, reason);
      case AcquireMessage(identity, deadline, providers, permitMs) =>
        ClaimsOnSlots(providers);
        hide ClaimsOn; hide SlotClaim;
        AcquireFacts(c, A.Request(identity, deadline, ClaimsOn(providers), A.CAPABILITY), permitMs, now, clock);
    }
  }

  lemma ReleaseAuthority(c: A.Coordinator, id: nat, now: int, reason: string)
    ensures A.Release(c, id, now, reason).state.authority == c.authority
  {
    hide A.IndexOf; hide A.Blank;
  }

  lemma AcquireFacts(c: A.Coordinator, request: A.Request, permitMs: int, now: int, clock: int)
    requires AI.Inv(c) && AllOnSlots(c) && AT.Timely(c, clock) && clock <= now && OnSlots(request)
    ensures var next := N.Acquire(c, request, permitMs, now).coordinator;
      AllOnSlots(next) && AT.Timely(next, now) && next.authority == c.authority
  {
    hide AI.Inv; hide AT.Timely; hide AllOnSlots; hide A.Submit; hide A.GrantNext; hide N.FirstLive; hide A.WellFormed; hide OnSlots;
    AT.SamePermits(c, c, clock, now);
    if A.WellFormed(request) {
      var submitted := A.Submit(c, request, now).state;
      AT.ApplyTimely(c, A.SubmitOp(request, now), clock);
      SubmitOnSlots(c, request, now);
      N.SubmitAuthority(c, request, now);
      AI.SubmitKeeps(c, request, now);
      AT.ApplyTimely(submitted, A.GrantOp(submitted.authority, now, permitMs), now);
      GrantOnSlots(submitted, submitted.authority, now, permitMs);
      GrantAuthority(submitted, submitted.authority, now, permitMs);
    }
  }

  lemma GrantAuthority(c: A.Coordinator, authority: A.Authority, now: int, permitMs: int)
    ensures A.GrantNext(c, authority, now, permitMs).state.authority == c.authority
  {
    hide A.ScanQueue; hide A.ExpireAll; hide A.Issue;
  }

  /** The envelope sent is backed by the coordinator it comes from. */
  lemma SentBacked(node: N.Node, message: Message, now: int, expected: A.Authority)
    requires AI.Inv(node.coordinator)
    ensures var served := N.Serve(node, CallOf(message), now);
      forall e :: e in Sent(served.reply, expected, ExpectedKey) ==> Backed(served.node.coordinator.permits, expected, e)
  {
    hide AI.Inv; hide N.Acquire; hide A.Release; hide ClaimsOn;
    var served := N.Serve(node, CallOf(message), now);
    N.ServeKeeps(node, CallOf(message), now);
    if served.reply.AdmittedReply? {
      var m := message;
      N.AdmittedListed(node.coordinator, A.Request(m.identity, m.deadline, ClaimsOn(m.providers), A.CAPABILITY), m.permitMs, now);
      OwnIndex(served.node.coordinator, served.reply.permit);
    }
  }

  lemma OwnIndex(c: A.Coordinator, p: A.Permit)
    requires AI.Inv(c) && p in c.permits
    ensures A.IndexOf(c.permits, p.id) < |c.permits| && c.permits[A.IndexOf(c.permits, p.id)] == p
  {
    hide A.IndexOf; hide AI.AllDeclared; hide AI.Exclusive; hide AI.Unaliased; hide AI.Tidy;
    var i := A.IndexOf(c.permits, p.id);
    var j :| 0 <= j < |c.permits| && c.permits[j] == p;
  }

  lemma AuthorityStepKeeps(cell: Cell, message: Message, now: int)
    requires CellInv(cell) && Enabled(cell, AuthorityStep(message, now))
    ensures CellInv(Next(cell, AuthorityStep(message, now)))
  {
    var node := cell.authority;
    var served := N.Serve(node, CallOf(message), now);
    hide AI.Inv; hide AT.Timely; hide AllOnSlots; hide AT.Persists; hide N.Serve; hide Backed; hide ProviderOk; hide Admits; hide CallOf; hide AdmittedBy;
    ServeFacts(node, message, now, cell.authorityClock);
    SentBacked(node, message, now, cell.expected);
    var next := Next(cell, AuthorityStep(message, now));
    forall e | Backed(node.coordinator.permits, cell.expected, e) ensures Backed(next.authority.coordinator.permits, cell.expected, e) {
      BackedPersists(node.coordinator.permits, served.node.coordinator.permits, cell.expected, e);
    }
    hide Sent;
  }

  lemma RivalStepKeeps(cell: Cell, message: Message, now: int)
    requires CellInv(cell)
    ensures CellInv(Next(cell, RivalStep(message, now)))
  {
    hide AI.Inv; hide AT.Timely; hide AllOnSlots; hide N.Serve; hide Backed; hide ProviderOk; hide Admits; hide AdmittedBy;
  }

  // ----- the providers' steps -----

  lemma AdmittedByMore(admitted: seq<Admitted>, more: seq<Admitted>, key: A.Key, identity: Identity, until: int, later: int)
    requires AdmittedBy(admitted, key, identity, until) && until <= later
    ensures AdmittedBy(admitted + more, key, identity, later)
  {
  }

  lemma ProviderOkMore(p: Provider, admitted: seq<Admitted>, more: seq<Admitted>)
    requires ProviderOk(p, admitted)
    ensures ProviderOk(p, admitted + more)
  {
    hide RL.Inv; hide RH.Accounted; hide T.Leased; hide AdmittedBy;
    forall identity | AdmittedBy(admitted, p.Key(), identity, p.clock) ensures AdmittedBy(admitted + more, p.Key(), identity, p.clock) {
      AdmittedByMore(admitted, more, p.Key(), identity, p.clock, p.clock);
    }
  }

  /** A book changed by one operation, at the provider's own time, adding no identity but `extra`. */
  lemma BookStepKeeps(p: Provider, op: R.Op, now: int, admitted: seq<Admitted>)
    requires ProviderOk(p, admitted) && p.clock <= now && (T.Time(op).Some? ==> T.Time(op).value == now)
    requires forall item :: item in R.Apply(p.book, op).items ==>
      AdmittedBy(admitted, p.Key(), item.identity, now)
    ensures ProviderOk(p.(clock := now, book := R.Apply(p.book, op)), admitted)
  {
    hide RL.Inv; hide RH.Accounted; hide T.Leased; hide AdmittedBy; hide R.Apply;
    RL.ApplyKeeps(p.book, op);
    RH.ApplyAccounted(p.book, op);
    T.ApplyLeased(p.book, op, p.clock);
    LeasedLater(R.Apply(p.book, op), if T.Time(op).Some? then now else p.clock, now);
    forall w | w in p.waiting && w.negotiated ensures AdmittedBy(admitted, p.Key(), w.identity, now) {
      AdmittedByMore(admitted, [], p.Key(), w.identity, p.clock, now);
      assert admitted + [] == admitted;
    }
  }

  lemma LeasedLater(book: R.Book, clock: int, now: int)
    requires T.Leased(book, clock) && clock <= now
    ensures T.Leased(book, now)
  {
  }

  /** Operations other than reserving put no new identity in the book. */
  lemma SameIdentities(book: R.Book, op: R.Op)
    requires op.CommitOp? || op.ReleaseOp? || op.ExpireOp?
    ensures forall item :: item in R.Apply(book, op).items ==> exists was :: was in book.items && was.identity == item.identity
  {
    hide R.IndexOf; hide R.ExpireTo;
    var next := R.Apply(book, op);
    forall item | item in next.items ensures exists was :: was in book.items && was.identity == item.identity {
      var k :| 0 <= k < |next.items| && next.items[k] == item;
      assert book.items[k] in book.items;
    }
  }

  lemma QuietOpKeeps(p: Provider, op: R.Op, now: int, admitted: seq<Admitted>)
    requires ProviderOk(p, admitted) && p.clock <= now && (T.Time(op).Some? ==> T.Time(op).value == now)
    requires op.CommitOp? || op.ReleaseOp? || op.ExpireOp?
    ensures ProviderOk(p.(clock := now, book := R.Apply(p.book, op)), admitted)
  {
    hide RL.Inv; hide RH.Accounted; hide T.Leased; hide AdmittedBy; hide R.Apply;
    SameIdentities(p.book, op);
    forall item | item in R.Apply(p.book, op).items ensures AdmittedBy(admitted, p.Key(), item.identity, now) {
      var was :| was in p.book.items && was.identity == item.identity;
      AdmittedByMore(admitted, [], p.Key(), was.identity, p.clock, now);
      assert admitted + [] == admitted;
    }
    BookStepKeeps(p, op, now, admitted);
  }

  lemma IdleKeeps(p: Provider, now: int, admitted: seq<Admitted>)
    requires ProviderOk(p, admitted) && p.clock <= now
    ensures ProviderOk(p.(clock := now), admitted)
  {
    hide RL.Inv; hide RH.Accounted; hide T.Leased; hide AdmittedBy;
    LeasedLater(p.book, p.clock, now);
    assert admitted + [] == admitted;
    forall identity | AdmittedBy(admitted, p.Key(), identity, p.clock) ensures AdmittedBy(admitted, p.Key(), identity, now) {
      AdmittedByMore(admitted, [], p.Key(), identity, p.clock, now);
    }
  }

  lemma WaitingKeeps(p: Provider, waiting: set<Waiting>, accepted: map<Identity, (T.Verdict, string)>, admitted: seq<Admitted>)
    requires ProviderOk(p, admitted)
    requires forall w :: w in waiting && w.negotiated ==> w in p.waiting || AdmittedBy(admitted, p.Key(), w.identity, p.clock)
    ensures ProviderOk(p.(waiting := waiting, accepted := accepted), admitted)
  {
    hide RL.Inv; hide RH.Accounted; hide T.Leased; hide AdmittedBy;
  }

  lemma SelectingKeeps(p: Provider, identity: Identity, decision: Option<T.Decision>, now: int, admitted: seq<Admitted>)
    requires ProviderOk(p, admitted) && p.clock <= now && (decision.Some? ==> decision.value.identity == identity)
    ensures var (next, more) := Selecting(p, identity, decision, now);
      && ProviderOk(next, admitted) && next.id == p.id && next.Key() == p.Key()
      && forall x :: x in more ==>
           x.key == p.Key() && x.identity == identity && x.at == now && (x.negotiated ==> Waiting(identity, true) in p.waiting)
  {
    hide ProviderOk; hide ResourceKey; hide R.CommitItem; hide R.ReleaseItem;
    var (next, more) := Selecting(p, identity, decision, now);
    IdleKeeps(p, now, admitted);
    WaitingKeeps(p.(clock := now), next.waiting, next.accepted, admitted);
    if decision.Some? {
      QuietOpKeeps(p, R.CommitOp(identity, now), now, admitted);
      QuietOpKeeps(p, R.ReleaseOp(identity, "NOT_SELECTED", 0), now, admitted);
      WaitingKeeps(p.(clock := now, book := R.Apply(p.book, R.CommitOp(identity, now))), next.waiting, next.accepted, admitted);
      WaitingKeeps(p.(clock := now, book := R.Apply(p.book, R.ReleaseOp(identity, "NOT_SELECTED", 0))), next.waiting, next.accepted, admitted);
    }
  }

  /** A reservation puts at most the asking identity in the book, and only when it succeeds. */
  lemma ReserveIdentities(book: R.Book, ask: R.Ask, now: int)
    ensures var reserved := R.Reserve(book, ask, now);
      forall item :: item in reserved.book.items ==>
        (exists was :: was in book.items && was.identity == item.identity) || (reserved.item.Ok? && item.identity == ask.identity)
  {
    hide R.IndexOf; hide R.ExpireTo; hide R.Fits; hide R.ValidAsk;
    var reserved := R.Reserve(book, ask, now);
    var swept := R.ExpireDue(book, now);
    forall item | item in reserved.book.items
      ensures (exists was :: was in book.items && was.identity == item.identity) || (reserved.item.Ok? && item.identity == ask.identity)
    {
      var k :| 0 <= k < |reserved.book.items| && reserved.book.items[k] == item;
      if k < |book.items| {
        assert book.items[k] in book.items;
      }
    }
  }

  function ReserveAsk(p: Provider, ask: Ask): R.Ask {
    R.Ask(ask.identity, SERVICE, 1, LEASE_MS, Permitted(p, ask), "provider-reservation-signature", p.Key().resourceId, 1)
  }

  lemma AskingShape(cell: Cell, p: Provider, ask: Ask, now: int)
    ensures var (next, more) := Asking(cell, p, ask, now);
      var reserved := R.Reserve(p.book, ReserveAsk(p, ask), now);
      && next == p.(clock := now, book := next.book, waiting := next.waiting)
      && (next.book == p.book || next.book == reserved.book)
      && (more != [] ==> more == [Admitted(p.Key(), ask.identity, ask.envelope, now)])
      && (next.book == reserved.book && next.book != p.book && reserved.item.Ok? ==> more != [])
      && (forall w :: w in next.waiting && w.negotiated ==> w in p.waiting || (more != [] && w.identity == ask.identity))
      && (more != [] && cell.centralized ==>
            ask.envelope.Some? && Admits(ask.envelope.value, cell.expected, ask.identity, p.Key(), now))
  {
    hide R.Reserve; hide Permitted; hide ResourceKey; hide Admits;
  }

  lemma AskingKeeps(cell: Cell, p: Provider, ask: Ask, now: int, admitted: seq<Admitted>)
    requires ProviderOk(p, admitted) && p.clock <= now
    ensures var (next, more) := Asking(cell, p, ask, now); ProviderOk(next, admitted + more) && next.id == p.id
  {
    var (next, more) := Asking(cell, p, ask, now);
    var all := admitted + more;
    AskingShape(cell, p, ask, now);
    ProviderOkMore(p, admitted, more);
    hide Asking; hide RL.Inv; hide RH.Accounted; hide T.Leased; hide AdmittedBy; hide R.Reserve; hide ResourceKey; hide Permitted;
    ReserveIdentities(p.book, ReserveAsk(p, ask), now);
    IdleKeeps(p, now, all);
    var op := R.ReserveOp(ReserveAsk(p, ask), now);
    if more != [] {
      NewlyAdmitted(admitted, Admitted(p.Key(), ask.identity, ask.envelope, now));
    }
    if next.book != p.book {
      forall item | item in R.Apply(p.book, op).items ensures AdmittedBy(all, p.Key(), item.identity, now) {
        if was :| was in p.book.items && was.identity == item.identity {
          assert AdmittedBy(all, p.(clock := now).Key(), was.identity, now);
        }
      }
      BookStepKeeps(p, op, now, all);
    }
    WaitingKeeps(p.(clock := now, book := next.book), next.waiting, p.accepted, all);
  }

  lemma NewlyAdmitted(admitted: seq<Admitted>, a: Admitted)
    ensures AdmittedBy(admitted + [a], a.key, a.identity, a.at)
  {
    assert a in admitted + [a];
  }

  lemma RestartKeeps(p: Provider, boot: string, now: int, admitted: seq<Admitted>)
    requires ProviderOk(p, admitted) && p.clock <= now
    ensures ProviderOk(Restarted(p, boot, now), admitted)
  {
    hide RL.Inv; hide RH.Accounted; hide AdmittedBy; hide ResourceKey; hide R.ExpireTo;
    if boot == p.boot {
      hide T.Leased;
      QuietOpKeeps(p, R.ExpireOp(now), now, admitted);
      WaitingKeeps(p.(clock := now, book := R.ExpireDue(p.book, now)), {}, map[], admitted);
    } else {
      RL.EmptyInv(T.CELL_LIMITS);
      EmptyAccounted();
    }
  }

  // ----- whole steps -----

  lemma OthersKeep(cell: Cell, name: string, p: Provider, more: seq<Admitted>)
    requires ProvidersOk(cell) && p.id == name && ProviderOk(p, cell.admitted + more)
    ensures ProvidersOk(cell.(providers := cell.providers[name := p], admitted := cell.admitted + more))
  {
    hide ProviderOk;
    forall other | other in cell.providers && other != name ensures ProviderOk(cell.providers[other], cell.admitted + more) {
      ProviderOkMore(cell.providers[other], cell.admitted, more);
    }
  }

  lemma AskStepKeeps(cell: Cell, name: string, ask: Ask, now: int)
    requires CellInv(cell) && Enabled(cell, AskStep(name, ask, now))
    ensures CellInv(Next(cell, AskStep(name, ask, now)))
  {
    hide AI.Inv; hide AT.Timely; hide AllOnSlots; hide Backed; hide ProviderOk; hide Asking; hide AdmittedBy;
    var p := cell.providers[name];
    var (next, more) := Asking(cell, p, ask, now);
    AskingKeeps(cell, p, ask, now, cell.admitted);
    OthersKeep(cell, name, next, more);
    AskingShape(cell, p, ask, now);
    hide ProvidersOk; hide R.Reserve; hide Admits;
    forall x | x in cell.executed && x.negotiated ensures AdmittedBy(cell.admitted + more, x.key, x.identity, x.at) {
      AdmittedByMore(cell.admitted, more, x.key, x.identity, x.at, x.at);
    }
    var after := Next(cell, AskStep(name, ask, now));
    forall a | a in after.admitted && cell.centralized ensures a.envelope.Some? && Traced(after, a) {
      if a in cell.admitted {
        assert Traced(cell, a);
      } else {
        assert a in more;
      }
    }
  }

  lemma SelectingExecutes(p: Provider, identity: Identity, decision: Option<T.Decision>, now: int, admitted: seq<Admitted>)
    requires ProviderOk(p, admitted) && p.clock <= now && (decision.Some? ==> decision.value.identity == identity)
    ensures forall x :: x in Selecting(p, identity, decision, now).1 && x.negotiated ==> AdmittedBy(admitted, x.key, x.identity, x.at)
  {
    hide RL.Inv; hide RH.Accounted; hide T.Leased; hide AdmittedBy; hide Selecting; hide ResourceKey;
    SelectingKeeps(p, identity, decision, now, admitted);
    assert admitted + [] == admitted;
    if Waiting(identity, true) in p.waiting {
      AdmittedByMore(admitted, [], p.Key(), identity, p.clock, now);
    }
  }

  lemma SelectStepKeeps(cell: Cell, name: string, identity: Identity, decision: Option<T.Decision>, now: int)
    requires CellInv(cell) && Enabled(cell, SelectStep(name, identity, decision, now))
    ensures CellInv(Next(cell, SelectStep(name, identity, decision, now)))
  {
    hide AuthorityOk; hide Selecting; hide AdmittedBy; hide ProviderOk; hide Traced;
    var p := cell.providers[name];
    var (next, more) := Selecting(p, identity, decision, now);
    SelectingKeeps(p, identity, decision, now, cell.admitted);
    SelectingExecutes(p, identity, decision, now, cell.admitted);
    assert cell.admitted + [] == cell.admitted;
    OthersKeep(cell, name, next, []);
    hide ProvidersOk;
    var after := Next(cell, SelectStep(name, identity, decision, now));
    AuthoritySame(cell, after);
  }

  lemma AuthoritySame(cell: Cell, after: Cell)
    requires AuthorityOk(cell) && AdmittedOk(cell) && after.authority == cell.authority && after.envelopes == cell.envelopes
    requires after.expected == cell.expected && after.authorityClock == cell.authorityClock
    requires after.centralized == cell.centralized && after.admitted == cell.admitted
    ensures AuthorityOk(after) && AdmittedOk(after)
  {
    hide AI.Inv; hide AT.Timely; hide AllOnSlots; hide Backed; hide Admits;
    forall a | a in after.admitted && after.centralized ensures a.envelope.Some? && Traced(after, a) {
      assert Traced(cell, a);
    }
  }

  lemma ProviderOnlyKeeps(cell: Cell, name: string, p: Provider)
    requires CellInv(cell) && p.id == name && ProviderOk(p, cell.admitted)
    ensures CellInv(cell.(providers := cell.providers[name := p]))
  {
    hide AI.Inv; hide AT.Timely; hide AllOnSlots; hide Backed; hide AdmittedBy; hide Admits; hide ProviderOk;
    assert cell.admitted + [] == cell.admitted;
    OthersKeep(cell, name, p, []);
    hide ProvidersOk;
  }

  lemma NextKeeps(cell: Cell, step: Step)
    requires CellInv(cell)
    ensures CellInv(Next(cell, step))
  {
    if Enabled(cell, step) {
      hide AuthorityOk; hide AdmittedOk; hide ExecutedOk; hide ProviderOk; hide N.Serve; hide Sent; hide Asking; hide Selecting;
      hide R.Apply; hide R.ReleaseItem; hide R.ExpireDue; hide Restarted;
      match step {
        case AuthorityStep(message, now) => hide CellInv; AuthorityStepKeeps(cell, message, now);
        case RivalStep(message, now) => hide CellInv; RivalStepKeeps(cell, message, now);
        case AskStep(name, ask, now) => hide CellInv; AskStepKeeps(cell, name, ask, now);
        case SelectStep(name, identity, decision, now) => hide CellInv; SelectStepKeeps(cell, name, identity, decision, now);
        case TerminalStep(name, identity, cause, now) =>
          TerminalStepKeeps(cell, name, identity, cause, now);
        case TickStep(name, now) => TickStepKeeps(cell, name, now);
        case RestartStep(name, boot, now) =>
          RestartKeeps(cell.providers[name], boot, now, cell.admitted);
          RestartedId(cell.providers[name], boot, now);
          ProviderOnlyKeeps(cell, name, Restarted(cell.providers[name], boot, now));
      }
    }
  }

  lemma RestartedId(p: Provider, boot: string, now: int)
    ensures Restarted(p, boot, now).id == p.id
  {
  }

  lemma TerminalStepKeeps(cell: Cell, name: string, identity: Identity, cause: string, now: int)
    requires CellInv(cell) && Enabled(cell, TerminalStep(name, identity, cause, now))
    ensures CellInv(Next(cell, TerminalStep(name, identity, cause, now)))
  {
    hide AuthorityOk; hide AdmittedOk; hide ExecutedOk; hide ProviderOk; hide R.ReleaseItem;
    var p := cell.providers[name];
    QuietOpKeeps(p, R.ReleaseOp(identity, cause, now), now, cell.admitted);
    ProviderOnlyKeeps(cell, name, p.(clock := now, book := R.ReleaseItem(p.book, identity, cause, now).book));
  }

  lemma TickStepKeeps(cell: Cell, name: string, now: int)
    requires CellInv(cell) && Enabled(cell, TickStep(name, now))
    ensures CellInv(Next(cell, TickStep(name, now)))
  {
    hide AuthorityOk; hide AdmittedOk; hide ExecutedOk; hide ProviderOk; hide R.ExpireDue;
    var p := cell.providers[name];
    TickApplies(p.book, now);
    QuietOpKeeps(p, R.ExpireOp(now), now, cell.admitted);
    ProviderOnlyKeeps(cell, name, p.(clock := now, book := R.ExpireDue(p.book, now)));
  }

  lemma TickApplies(book: R.Book, now: int)
    ensures R.Apply(book, R.ExpireOp(now)) == R.ExpireDue(book, now)
  {
  }

  // ----- every run -----

  lemma StartProviderOk(id: string)
    ensures ProviderOk(StartProvider(id), []) && StartProvider(id).id == id
  {
    hide RL.Inv; hide RH.Accounted;
    RL.EmptyInv(T.CELL_LIMITS);
    EmptyAccounted();
  }

  lemma EmptyAccounted()
    ensures RH.Accounted(R.EmptyBook(T.CELL_LIMITS))
  {
  }

  lemma StartKeeps(centralized: bool)
    ensures CellInv(Start(centralized))
  {
    hide ProviderOk; hide AI.Inv; hide A.Register; hide Declarations;
    AI.RunKeeps(EXPECTED, 5000, []);
    assert A.Run(A.Fresh(EXPECTED, 5000), []) == A.Fresh(EXPECTED, 5000);
    AI.RegisterKeeps(A.Fresh(EXPECTED, 5000), Declarations());
    AT.RegisterLeavesPermits(A.Fresh(EXPECTED, 5000), Declarations());
    RegisterAuthority(A.Fresh(EXPECTED, 5000), Declarations());
    forall id | id in PROVIDERS ensures ProviderOk(StartProvider(id), []) && StartProvider(id).id == id {
      StartProviderOk(id);
    }
    hide StartProvider;
  }

  lemma {:induction false} RegisterAuthority(c: A.Coordinator, ds: seq<A.Declaration>)
    ensures A.Register(c, ds).state.authority == c.authority
  {
    hide A.Aliased; hide A.ClaimLive;
    if ds != [] {
      RegisterAuthority(c, ds[..|ds| - 1]);
    }
  }

  lemma {:induction false} RunKeeps(centralized: bool, steps: seq<Step>)
    ensures CellInv(Run(Start(centralized), steps))
  {
    hide CellInv; hide Next; hide Start;
    if steps == [] {
      StartKeeps(centralized);
    } else {
      RunKeeps(centralized, steps[..|steps| - 1]);
      NextKeeps(Run(Start(centralized), steps[..|steps| - 1]), steps[|steps| - 1]);
    }
  }
}
