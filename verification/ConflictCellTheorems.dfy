/** Gated execution, exclusion and draining, for every run of a conflict cell. */
module ConflictCellTheorems {
  import opened Outcomes
  import opened Requests
  import opened ConflictCell
  import opened ConflictCellSafety
  import A = Admission
  import AI = AdmissionInvariant
  import AT = AdmissionTime
  import N = AuthorityNode
  import R = Reservations
  import RL = ReservationLedger
  import RH = ReservationHistory
  import T = ReservationTime

  // ----- gated execution -----

  /** The permit an admission was gated by: the request's own, from the expected authority, for
      that very device, and within its window at the time of the gate. */
  ghost predicate GatedBy(p: A.Permit, a: Admitted) {
    && p.request.identity == a.identity
    && A.Claims(p.request, a.key)
    && p.issuedAt <= a.at < p.expiresAt
    && a.envelope == Some(Issue(p, EXPECTED, ExpectedKey))
  }

  lemma TracedGives(cell: Cell, a: Admitted)
    requires cell.expected == EXPECTED && a.envelope.Some? && Traced(cell, a)
    ensures var permits := cell.authority.coordinator.permits;
      var i := A.IndexOf(permits, a.envelope.value.permitId);
      i < |permits| && GatedBy(permits[i], a)
  {
    hide A.IndexOf; hide ResourceKey;
    var e := a.envelope.value;
    var permits := cell.authority.coordinator.permits;
    var p := permits[A.IndexOf(permits, e.permitId)];
    var k :| 0 <= k < |e.claims| && e.claims[k].key == a.key;
    assert p.request.claims[k].key == a.key;
  }

  lemma {:induction false} ExpectedStays(centralized: bool, steps: seq<Step>)
    ensures Run(Start(centralized), steps).expected == EXPECTED && Run(Start(centralized), steps).centralized == centralized
  {
    hide Next;
    if steps != [] {
      ExpectedStays(centralized, steps[..|steps| - 1]);
      NextExpected(Run(Start(centralized), steps[..|steps| - 1]), steps[|steps| - 1]);
    }
  }

  lemma NextExpected(cell: Cell, step: Step)
    ensures Next(cell, step).expected == cell.expected && Next(cell, step).centralized == cell.centralized
  {
    hide Enabled; hide Asking; hide Selecting; hide Sent; hide Restarted; hide R.ReleaseItem; hide R.ExpireDue;
  }

  /** In centralized mode, in every run, each reservation handed out was gated by a permit of the
      expected authority for that same request and that same device. */
  lemma EveryAdmissionGated(steps: seq<Step>, a: Admitted)
    requires a in Run(Start(true), steps).admitted
    ensures exists p :: p in Run(Start(true), steps).authority.coordinator.permits && GatedBy(p, a)
  {
    var cell := Run(Start(true), steps);
    RunKeeps(true, steps);
    ExpectedStays(true, steps);
    hide Run; hide AuthorityOk; hide ProvidersOk; hide ExecutedOk; hide GatedBy; hide Traced;
    TracedGives(cell, a);
  }

  lemma ResourceKeyInjective(id: string, boot: string, other: string, otherBoot: string)
    requires ResourceKey(id, boot) == ResourceKey(other, otherBoot)
    ensures id == other && boot == otherBoot
  {
    var p := "/spec130/provider/";
    assert (p + id)[|p|..] == id && (p + other)[|p|..] == other;
    var b := "boot-" + id + "-";
    assert (b + boot)[|b|..] == boot && (b + otherBoot)[|b|..] == otherBoot;
  }

  /** Hence only a provider still running its first boot is ever reserved or executes a request
      that negotiated a reservation: permits name no other boot. */
  lemma LaterBootsNeverAdmit(steps: seq<Step>, id: string, boot: string)
    requires boot != FIRST_BOOT
    ensures forall a :: a in Run(Start(true), steps).admitted ==> a.key != ResourceKey(id, boot)
    ensures forall x :: x in Run(Start(true), steps).executed && x.negotiated ==> x.key != ResourceKey(id, boot)
  {
    var cell := Run(Start(true), steps);
    RunKeeps(true, steps);
    hide Run; hide ProvidersOk; hide ResourceKey;
    forall a | a in cell.admitted ensures a.key != ResourceKey(id, boot) {
      EveryAdmissionGated(steps, a);
      var p :| p in cell.authority.coordinator.permits && GatedBy(p, a);
      var k :| 0 <= k < |p.request.claims| && p.request.claims[k].key == a.key;
      assert OnSlots(p.request);
      assert SlotClaim(p.request.claims[k]);
      var slot :| p.request.claims[k] == A.Claim(ResourceKey(slot, FIRST_BOOT), 1, true);
      if a.key == ResourceKey(id, boot) {
        ResourceKeyInjective(id, boot, slot, FIRST_BOOT);
      }
    }
  }

  /** The execution follows a gated reservation of that request, at that provider boot. */
  ghost predicate GatedExecution(cell: Cell, x: Executed) {
    exists a, p :: a in cell.admitted && p in cell.authority.coordinator.permits
                && a.key == x.key && a.identity == x.identity && a.at <= x.at && GatedBy(p, a)
  }

  lemma NegotiatedGated(steps: seq<Step>, x: Executed)
    requires x in Run(Start(true), steps).executed && x.negotiated
    ensures GatedExecution(Run(Start(true), steps), x)
  {
    var cell := Run(Start(true), steps);
    RunKeeps(true, steps);
    hide Run; hide AuthorityOk; hide ProvidersOk; hide AdmittedOk; hide GatedBy;
    assert AdmittedBy(cell.admitted, x.key, x.identity, x.at);
    var a :| a in cell.admitted && a.key == x.key && a.identity == x.identity && a.at <= x.at;
    EveryAdmissionGated(steps, a);
    var p :| p in cell.authority.coordinator.permits && GatedBy(p, a);
  }

  /** In any run an execution is gated exactly when that provider boot had by then handed the request a
      reservation, whatever its own ask negotiated. */
  lemma GatedExactly(steps: seq<Step>, x: Executed)
    ensures var cell := Run(Start(true), steps);
      GatedExecution(cell, x) <==> AdmittedBy(cell.admitted, x.key, x.identity, x.at)
  {
    var cell := Run(Start(true), steps);
    hide Run; hide GatedBy;
    if AdmittedBy(cell.admitted, x.key, x.identity, x.at) {
      var a :| a in cell.admitted && a.key == x.key && a.identity == x.identity && a.at <= x.at;
      EveryAdmissionGated(steps, a);
      var p :| p in cell.authority.coordinator.permits && GatedBy(p, a);
    }
  }

  /** Nobody asks for the request without the reservation capability. */
  ghost predicate Negotiates(steps: seq<Step>, identity: Identity) {
    forall step :: step in steps && step.AskStep? && step.ask.identity == identity ==> step.ask.negotiation.reservation
  }

  ghost predicate OnlyNegotiated(cell: Cell, identity: Identity) {
    && (forall name :: name in cell.providers ==> Waiting(identity, false) !in cell.providers[name].waiting)
    && (forall x :: x in cell.executed && x.identity == identity ==> x.negotiated)
  }

  lemma AskOnlyNegotiated(cell: Cell, p: Provider, ask: Ask, now: int, identity: Identity)
    requires Waiting(identity, false) !in p.waiting && (ask.identity == identity ==> ask.negotiation.reservation)
    ensures Waiting(identity, false) !in Asking(cell, p, ask, now).0.waiting
  {
    hide R.Reserve; hide Admits; hide ResourceKey; hide Permitted;
  }

  lemma SelectOnlyNegotiated(p: Provider, id: Identity, decision: Option<T.Decision>, now: int, identity: Identity)
    requires Waiting(identity, false) !in p.waiting
    ensures var (next, more) := Selecting(p, id, decision, now);
      && Waiting(identity, false) !in next.waiting
      && forall x :: x in more && x.identity == identity ==> x.negotiated
  {
    hide T.Decide; hide ResourceKey;
  }

  lemma NextOnlyNegotiated(cell: Cell, step: Step, identity: Identity)
    requires OnlyNegotiated(cell, identity) && Negotiates([step], identity)
    ensures OnlyNegotiated(Next(cell, step), identity)
  {
    hide Asking; hide Selecting; hide R.ReleaseItem; hide R.ExpireDue; hide CallOf; hide Sent; hide ResourceKey;
    if Enabled(cell, step) {
      assert step in [step];
      if step.AskStep? {
        AskOnlyNegotiated(cell, cell.providers[step.provider], step.ask, step.now, identity);
      } else if step.SelectStep? {
        SelectOnlyNegotiated(cell.providers[step.provider], step.identity, step.decision, step.now, identity);
      }
    }
  }

  lemma {:induction false} RunOnlyNegotiated(centralized: bool, steps: seq<Step>, identity: Identity)
    requires Negotiates(steps, identity)
    ensures OnlyNegotiated(Run(Start(centralized), steps), identity)
  {
    hide Next;
    if steps == [] {
      hide ResourceKey;
    } else {
      var front, last := steps[..|steps| - 1], steps[|steps| - 1];
      assert last in steps && forall step :: step in front ==> step in steps;
      RunOnlyNegotiated(centralized, front, identity);
      hide OnlyNegotiated;
      NextOnlyNegotiated(Run(Start(centralized), front), last, identity);
    }
  }

  /** A request asked for without the reservation capability, then selected. */
  function PlainRun(identity: Identity): seq<Step> {
    [AskStep("A", Ask(identity, [], Negotiation(false, false), None), 0), SelectStep("A", identity, None, 0)]
  }

  lemma PlainRunExecutes(identity: Identity)
    ensures var cell := Run(Start(true), PlainRun(identity));
      cell.admitted == [] && cell.executed == [Executed(ResourceKey("A", FIRST_BOOT), identity, false, 0)]
  {
    hide ResourceKey; hide N.Start; hide Declarations;
    var steps := PlainRun(identity);
    assert steps[..1][..0] == [] && steps[..1] == [steps[0]];
    assert Run(Start(true), steps[..1]) == Next(Start(true), steps[0]);
    assert "A" in PROVIDERS;
  }

  /** In centralized mode the gate guards every execution of a request exactly when the request is
      never asked for without the reservation capability: such an ask is acknowledged before the gate
      is looked at, and its selection runs with nothing reserved and no permit. */
  lemma EveryExecutionGated(identity: Identity, negotiates: bool)
    ensures (forall steps, x :: (negotiates ==> Negotiates(steps, identity)) && x in Run(Start(true), steps).executed && x.identity == identity ==>
               GatedExecution(Run(Start(true), steps), x))
            <==> negotiates
  {
    hide Run; hide GatedExecution; hide Negotiates; hide ResourceKey; hide Start;
    if negotiates {
      forall steps, x | Negotiates(steps, identity) && x in Run(Start(true), steps).executed && x.identity == identity
        ensures GatedExecution(Run(Start(true), steps), x)
      {
        RunOnlyNegotiated(true, steps, identity);
        NegotiatedGated(steps, x);
      }
    } else {
      PlainRunExecutes(identity);
      var cell := Run(Start(true), PlainRun(identity));
      var x := Executed(ResourceKey("A", FIRST_BOOT), identity, false, 0);
      assert x in cell.executed;
      assert !GatedExecution(cell, x) by { NothingAdmitted(cell, x); }
    }
  }

  lemma NothingAdmitted(cell: Cell, x: Executed)
    requires cell.admitted == []
    ensures !GatedExecution(cell, x)
  {
  }

  // ----- exclusion -----

  /** Live permits never share a device: each holds its whole claim set to itself. */
  lemma LivePermitsDisjoint(centralized: bool, steps: seq<Step>, i: nat, j: nat, key: A.Key)
    requires var permits := Run(Start(centralized), steps).authority.coordinator.permits;
      i < |permits| && j < |permits| && permits[i].Live() && permits[j].Live()
      && A.Claims(permits[i].request, key) && A.Claims(permits[j].request, key)
    ensures i == j
  {
    RunKeeps(centralized, steps);
    var c := Run(Start(centralized), steps).authority.coordinator;
    hide Run; hide ProvidersOk; hide AdmittedOk; hide ExecutedOk; hide ResourceKey; hide AI.Unique; hide AI.Unaliased;
    if i != j {
      SharedSlotsClash(c, i, j, key);
      AT.ClashConflicts(c.permits[i].request, c.permits[j].request, c.declarations);
    }
  }

  lemma SharedSlotsClash(c: A.Coordinator, i: nat, j: nat, key: A.Key)
    requires AI.AllDeclared(c) && AllOnSlots(c) && i < |c.permits| && j < |c.permits|
    requires A.Claims(c.permits[i].request, key) && A.Claims(c.permits[j].request, key)
    ensures AT.Clash(c.permits[i].request, c.permits[j].request) && AI.Declared(c.permits[i].request, c.declarations)
  {
    hide ResourceKey; hide A.WellFormed;
    var left, right := c.permits[i].request, c.permits[j].request;
    assert c.permits[i] in c.permits && c.permits[j] in c.permits;
    var a :| 0 <= a < |left.claims| && left.claims[a].key == key;
    var b :| 0 <= b < |right.claims| && right.claims[b].key == key;
    assert SlotClaim(left.claims[a]);
  }

  /** A provider boot holds at most one live reservation, and the ownership intervals its ledger
      tells follow one another without overlap. */
  lemma ProviderHoldsOne(centralized: bool, steps: seq<Step>, name: string)
    requires name in Run(Start(centralized), steps).providers
    ensures var book := Run(Start(centralized), steps).providers[name].book;
      && (forall i, j :: 0 <= i < |book.items| && 0 <= j < |book.items| && book.items[i].Live() && book.items[j].Live() ==> i == j)
      && RH.InTurn(RH.Intervals(book.ledger))
  {
    RunKeeps(centralized, steps);
    var book := Run(Start(centralized), steps).providers[name].book;
    hide Run; hide AuthorityOk; hide AdmittedOk; hide ExecutedOk; hide AdmittedBy; hide T.Leased;
    SoleHolder(book);
  }

  lemma SoleHolder(book: R.Book)
    requires RL.Inv(book) && RH.Accounted(book) && book.limits == T.CELL_LIMITS
    ensures forall i, j :: 0 <= i < |book.items| && 0 <= j < |book.items| && book.items[i].Live() && book.items[j].Live() ==> i == j
    ensures RH.InTurn(RH.Intervals(book.ledger))
  {
    hide RL.Replay; hide RL.PrefixesFit; hide R.Units; hide RH.PhaseOf; hide RH.Derive; hide RH.Balanced;
    forall i, j | 0 <= i < |book.items| && 0 <= j < |book.items| && book.items[i].Live() && book.items[j].Live() ensures i == j {
      assert book.items[i].identity == book.items[j].identity;
    }
    RH.HandoverInTurn(book.ledger);
  }

  /** Two reservations of one device for different requests were gated by permits whose windows lie
      apart, unless the earlier permit was released by a call before the later one was issued. */
  lemma AdmissionsAlternate(steps: seq<Step>, a: Admitted, b: Admitted)
    requires a in Run(Start(true), steps).admitted && b in Run(Start(true), steps).admitted
    requires a.key == b.key && a.identity != b.identity
    ensures var permits := Run(Start(true), steps).authority.coordinator.permits;
      exists p, q :: p in permits && q in permits && GatedBy(p, a) && GatedBy(q, b) && (Apart(p, q) || Apart(q, p))
  {
    RunKeeps(true, steps);
    EveryAdmissionGated(steps, a);
    EveryAdmissionGated(steps, b);
    var cell := Run(Start(true), steps);
    hide Run; hide CellInv; hide GatedBy;
    var p :| p in cell.authority.coordinator.permits && GatedBy(p, a);
    var q :| q in cell.authority.coordinator.permits && GatedBy(q, b);
    GatedApart(cell, p, a, q, b);
    hide Apart;
  }

  lemma GatedApart(cell: Cell, p: A.Permit, a: Admitted, q: A.Permit, b: Admitted)
    requires CellInv(cell) && p in cell.authority.coordinator.permits && q in cell.authority.coordinator.permits
    requires GatedBy(p, a) && GatedBy(q, b) && a.key == b.key && a.identity != b.identity
    ensures Apart(p, q) || Apart(q, p)
  {
    hide CellInv; hide ResourceKey; hide A.Claims; hide Apart;
    var permits := cell.authority.coordinator.permits;
    var i :| 0 <= i < |permits| && permits[i] == p;
    var j :| 0 <= j < |permits| && permits[j] == q;
    if i < j {
      PermitsApart(cell, i, j, a.key);
    } else {
      PermitsApart(cell, j, i, a.key);
    }
  }

  lemma PermitsApart(cell: Cell, i: nat, j: nat, key: A.Key)
    requires CellInv(cell)
    requires var permits := cell.authority.coordinator.permits;
      i < j < |permits| && A.Claims(permits[i].request, key) && A.Claims(permits[j].request, key)
    ensures Apart(cell.authority.coordinator.permits[i], cell.authority.coordinator.permits[j])
  {
    var c := cell.authority.coordinator;
    hide ProvidersOk; hide AdmittedOk; hide ExecutedOk; hide ResourceKey; hide AI.Unique; hide AI.Unaliased; hide AI.Exclusive;
    SharedSlotsClash(c, i, j, key);
    hide AT.Clash; hide A.Claims;
    assert AT.EndedBefore(c.permits[i], c.permits[j]);
    assert AT.Dated(c.permits[i], cell.authorityClock);
  }

  /** The first permit's window ended before the second's began, or a call released it by then. */
  ghost predicate Apart(first: A.Permit, second: A.Permit) {
    first.standing.Released? && first.standing.at <= second.issuedAt
    && (first.expiresAt <= second.issuedAt || first.standing.cause.Called?)
  }

  // ----- draining -----

  const LONGEST_HOLD_MS := 2500

  /** From every reachable state, on every claim graph and whatever became of the requesters: 1200 ms
      after a provider's last event no tentative hold outlives a tick of its expiry loop, and after
      2500 ms no hold at all does. */
  lemma EveryHoldDrains(centralized: bool, steps: seq<Step>, name: string, now: int)
    requires name in Run(Start(centralized), steps).providers
    ensures var p := Run(Start(centralized), steps).providers[name];
      && (now >= p.clock + LEASE_MS ==> T.NoTentative(R.ExpireDue(p.book, now).items))
      && (now >= p.clock + LONGEST_HOLD_MS ==> T.Quiet(R.ExpireDue(p.book, now).items))
  {
    RunKeeps(centralized, steps);
    hide Run; hide AuthorityOk; hide AdmittedOk; hide ExecutedOk; hide AdmittedBy; hide RL.Inv; hide RH.Accounted; hide R.ExpireTo;
  }

  lemma {:induction false} QuietUnits(items: seq<R.Item>, scope: R.Scope)
    requires T.Quiet(items)
    ensures R.Units(items, scope) == 0
  {
    if items != [] {
      QuietUnits(items[..|items| - 1], scope);
    }
  }

  lemma QuietBookAccepts(book: R.Book, ask: R.Ask, now: int)
    requires book.limits == T.CELL_LIMITS && ask.authorized && R.ValidAsk(ask) && ask.units == 1
    requires ask.resource != "" && ask.resourceSequence > 0
    requires T.Quiet(R.ExpireDue(book, now).items)
    ensures R.Reserve(book, ask, now).item.Ok?
  {
    hide R.IndexOf; hide R.ExpireTo;
    var swept := R.ExpireDue(book, now);
    QuietUnits(swept.items, R.Everything);
    QuietUnits(swept.items, R.OfRequester(ask.identity.requester));
    QuietUnits(swept.items, R.OfService(ask.service));
  }

  /** No hold keeps others waiting for good: once a provider has been quiet for 2500 ms it leases
      to whoever asks next, given a permit that passes the gate where one is required. */
  lemma QuietProviderLeases(centralized: bool, steps: seq<Step>, name: string, ask: Ask, now: int)
    requires name in Run(Start(centralized), steps).providers
    requires var p := Run(Start(centralized), steps).providers[name];
      && now >= p.clock + LONGEST_HOLD_MS && Permitted(p, ask)
      && ask.identity.requestId != "" && ask.identity.attempt > 0
      && ask.negotiation == Negotiation(true, centralized)
      && (centralized ==> ask.envelope.Some? && Admits(ask.envelope.value, EXPECTED, ask.identity, p.Key(), now))
    ensures var cell := Run(Start(centralized), steps);
      Acknowledge(centralized, cell.expected, cell.providers[name], ask, now).answer.LeasedAck?
  {
    RunKeeps(centralized, steps);
    ExpectedStays(centralized, steps);
    EveryHoldDrains(centralized, steps, name, now);
    var p := Run(Start(centralized), steps).providers[name];
    hide Run; hide AuthorityOk; hide AdmittedOk; hide ExecutedOk; hide AdmittedBy; hide RL.Inv; hide RH.Accounted; hide R.ExpireTo; hide Admits;
    QuietBookAccepts(p.book, ReserveAsk(p, ask), now);
    hide R.Reserve;
  }

  // ----- claim graphs -----

  /** What each requester claims on each claim graph; none for a pair the graph does not have. */
  function GraphClaims(graph: string, requester: string): Option<seq<string>> {
    if graph == "disjoint" && requester == "A" then Some(["A"])
    else if graph == "disjoint" && requester == "B" then Some(["C"])
    else if graph == "identical" && requester == "A" then Some(["A", "B"])
    else if graph == "identical" && requester == "B" then Some(["A", "B"])
    else if graph == "nested" && requester == "A" then Some(["A"])
    else if graph == "nested" && requester == "B" then Some(["A", "B"])
    else if graph == "partial" && requester == "A" then Some(["A", "B"])
    else if graph == "partial" && requester == "B" then Some(["B", "C"])
    else if graph == "cycle" && requester == "A" then Some(["A", "B"])
    else if graph == "cycle" && requester == "B" then Some(["B", "C"])
    else if graph == "cycle" && requester == "C" then Some(["C", "A"])
    else None
  }

  function ActiveRequesters(graph: string): seq<string> {
    if graph == "cycle" then ["A", "B", "C"] else ["A", "B"]
  }

  const GRAPHS := ["disjoint", "identical", "nested", "partial", "cycle"]

  ghost predicate ShareProvider(left: seq<string>, right: seq<string>) {
    exists p :: p in left && p in right
  }

  /** Two requests on providers clash exactly when they share one. */
  lemma ClashExactlyWhenShared(left: Identity, leftOn: seq<string>, right: Identity, rightOn: seq<string>, deadline: int)
    ensures AT.Clash(A.Request(left, deadline, ClaimsOn(leftOn), A.CAPABILITY), A.Request(right, deadline, ClaimsOn(rightOn), A.CAPABILITY))
            <==> ShareProvider(leftOn, rightOn)
  {
    var l, r := A.Request(left, deadline, ClaimsOn(leftOn), A.CAPABILITY), A.Request(right, deadline, ClaimsOn(rightOn), A.CAPABILITY);
    if AT.Clash(l, r) {
      var i, j :| 0 <= i < |l.claims| && 0 <= j < |r.claims| && l.claims[i].key == r.claims[j].key
               && (l.claims[i].exclusive || r.claims[j].exclusive);
      ResourceKeyInjective(leftOn[i], FIRST_BOOT, rightOn[j], FIRST_BOOT);
      assert leftOn[i] in rightOn;
    }
    if ShareProvider(leftOn, rightOn) {
      var p :| p in leftOn && p in rightOn;
      var i :| 0 <= i < |leftOn| && leftOn[i] == p;
      var j :| 0 <= j < |rightOn| && rightOn[j] == p;
      assert l.claims[i].key == r.claims[j].key && l.claims[i].exclusive;
    }
  }

  /** Two requesters of one graph contend exactly when the graph is not the disjoint one. */
  lemma GraphsContend(graph: string, r: string, s: string)
    requires GraphClaims(graph, r).Some? && GraphClaims(graph, s).Some? && r != s
    ensures ShareProvider(GraphClaims(graph, r).value, GraphClaims(graph, s).value) <==> graph != "disjoint"
  {
    var left, right := GraphClaims(graph, r).value, GraphClaims(graph, s).value;
    if graph == "disjoint" {
      assert "A"[0] != "C"[0];
    } else if graph == "identical" || graph == "nested" {
      assert "A" in left && "A" in right;
    } else if graph == "partial" || !(r == "A" || s == "A") || !(r == "C" || s == "C") {
      assert graph == "partial" ==> "B" in left && "B" in right;
      assert ("A" in left && "A" in right) || ("B" in left && "B" in right) || ("C" in left && "C" in right);
    } else {
      assert "A" in left && "A" in right;
    }
  }
}
