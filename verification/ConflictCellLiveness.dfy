/** From every reachable state of a conflict cell every claim set can be had in full. */
module ConflictCellLiveness {
  import opened Outcomes
  import opened Requests
  import opened ConflictCell
  import opened ConflictCellSafety
  import opened ConflictCellTheorems
  import A = Admission
  import AI = AdmissionInvariant
  import N = AuthorityNode
  import R = Reservations
  import RL = ReservationLedger
  import RH = ReservationHistory
  import T = ReservationTime

  // ----- what no step changes -----

  ghost predicate Declares(declarations: map<A.Key, A.Declaration>, id: string) {
    ResourceKey(id, FIRST_BOOT) in declarations
    && declarations[ResourceKey(id, FIRST_BOOT)] == A.Declaration(ResourceKey(id, FIRST_BOOT), 1, true, 1)
  }

  /** The authority is open for grants and knows every provider. */
  ghost predicate Serving(c: A.Coordinator) {
    c.available && !c.cleanupOnly && c.maxPermit == 5000 && forall id :: id in PROVIDERS ==> Declares(c.declarations, id)
  }

  lemma ServeServing(node: N.Node, call: N.Call, now: int)
    requires Serving(node.coordinator)
    ensures Serving(N.Serve(node, call, now).node.coordinator)
  {
    hide A.ClaimError; hide A.PermitOf; hide A.EntryOf; hide A.ScanQueue; hide A.ExpireAll; hide A.Issue; hide A.IndexOf;
    hide A.Blank; hide N.FirstLive; hide A.WellFormed; hide Declares;
  }

  lemma KeysApart(id: string, other: string)
    requires id != other
    ensures ResourceKey(id, FIRST_BOOT) != ResourceKey(other, FIRST_BOOT)
    ensures ResourceKey(id, FIRST_BOOT).Physical() != ResourceKey(other, FIRST_BOOT).Physical()
  {
    var p := "/spec130/provider/";
    assert (p + id)[|p|..] == id && (p + other)[|p|..] == other;
  }

  /** One more provider's declaration is accepted when no other shares its device. */
  lemma RegistersNext(c: A.Coordinator, ds: seq<A.Declaration>, id: string)
    requires A.Register(c, ds).error.None? && A.Register(c, ds).state.permits == []
    requires forall key :: key in A.Register(c, ds).state.declarations ==>
      exists other :: other != id && key == ResourceKey(other, FIRST_BOOT)
    ensures var d := A.Declaration(ResourceKey(id, FIRST_BOOT), 1, true, 1);
      var before := A.Register(c, ds).state;
      A.Register(c, ds + [d]) == A.Registered(before.(declarations := before.declarations[d.key := d]), None)
  {
    var d := A.Declaration(ResourceKey(id, FIRST_BOOT), 1, true, 1);
    var before := A.Register(c, ds).state;
    assert (ds + [d])[..|ds|] == ds;
    forall key | key in before.declarations ensures key != d.key && key.Physical() != d.key.Physical() {
      var other :| other != id && key == ResourceKey(other, FIRST_BOOT);
      KeysApart(id, other);
    }
    hide ResourceKey;
  }

  lemma RegistersAll(c: A.Coordinator)
    requires c.declarations == map[] && c.permits == []
    ensures forall id :: id in PROVIDERS ==> Declares(A.Register(c, Declarations()).state.declarations, id)
    ensures A.Register(c, Declarations()).state == c.(declarations := A.Register(c, Declarations()).state.declarations)
  {
    hide ResourceKey; hide A.Register;
    assert "A"[0] != "B"[0] && "A"[0] != "C"[0] && "B"[0] != "C"[0];
    KeysApart("A", "B");
    KeysApart("A", "C");
    KeysApart("B", "C");
    var ds := Declarations();
    var one := [] + [ds[0]];
    assert A.Register(c, []) == A.Registered(c, None) by { RegistersNone(c); }
    RegistersNext(c, [], "A");
    RegistersNext(c, one, "B");
    RegistersNext(c, one + [ds[1]], "C");
    assert ds == one + [ds[1]] + [ds[2]];
  }

  lemma RegistersNone(c: A.Coordinator)
    ensures A.Register(c, []) == A.Registered(c, None)
  {
  }

  lemma {:induction false} RunServing(centralized: bool, steps: seq<Step>)
    ensures var cell := Run(Start(centralized), steps);
      Serving(cell.authority.coordinator) && forall id :: id in PROVIDERS ==> id in cell.providers
  {
    if steps == [] {
      RegistersAll(A.Fresh(EXPECTED, 5000));
      hide A.Register; hide Declares;
    } else {
      RunServing(centralized, steps[..|steps| - 1]);
      var cell := Run(Start(centralized), steps[..|steps| - 1]);
      var step := steps[|steps| - 1];
      if step.AuthorityStep? { ServeServing(cell.authority, CallOf(step.message), step.now); }
      hide Serving; hide N.Serve; hide Asking; hide Selecting; hide R.ReleaseItem; hide R.ExpireDue; hide CallOf; hide Sent; hide Restarted; hide Start;
    }
  }

  // ----- the authority grants -----

  predicate DistinctNames(providers: seq<string>) {
    forall i, j :: 0 <= i < j < |providers| ==> providers[i] != providers[j]
  }

  /** Everything the authority has issued or queued is past its time. */
  ghost predicate Stale(c: A.Coordinator, now: int) {
    && (forall i :: 0 <= i < |c.permits| ==> c.permits[i].expiresAt <= now)
    && (forall i :: 0 <= i < |c.queued| ==> c.queued[i].request.deadline <= now)
  }

  ghost predicate Unknown(c: A.Coordinator, identity: Identity) {
    (forall p :: p in c.permits ==> p.request.identity != identity) && (forall e :: e in c.queued ==> e.request.identity != identity)
  }

  function RequestFor(identity: Identity, providers: seq<string>, now: int): A.Request {
    A.Request(identity, now + 3000, ClaimsOn(providers), A.CAPABILITY)
  }

  lemma {:induction false} ClaimsAccepted(c: A.Coordinator, providers: seq<string>)
    requires forall p :: p in providers ==> Declares(c.declarations, p)
    ensures A.ClaimError(c, ClaimsOn(providers)).None?
  {
    hide ResourceKey;
    if providers != [] {
      assert providers[0] in providers;
      ClaimsAccepted(c, providers[1..]);
      assert ClaimsOn(providers)[1..] == ClaimsOn(providers[1..]);
    }
  }

  lemma RequestWellFormed(identity: Identity, providers: seq<string>, now: int)
    requires identity.attempt > 0 && providers != [] && DistinctNames(providers) && now >= 0
    ensures A.WellFormed(RequestFor(identity, providers, now))
  {
    forall i, j | 0 <= i < j < |providers|
      ensures ResourceKey(providers[i], FIRST_BOOT) != ResourceKey(providers[j], FIRST_BOOT)
    {
      KeysApart(providers[i], providers[j]);
    }
    hide ResourceKey;
  }

  lemma {:induction false} StaleQueueEmpties(queued: seq<A.Entry>, permits: seq<A.Permit>, declarations: map<A.Key, A.Declaration>, now: int)
    requires forall i :: 0 <= i < |queued| ==> queued[i].request.deadline <= now
    ensures A.ScanQueue(queued, permits, declarations, now) == A.Scan([], [])
  {
    if queued != [] {
      StaleQueueEmpties(queued[..|queued| - 1], permits, declarations, now);
    }
  }

  lemma ScansTheOne(queued: seq<A.Entry>, e: A.Entry, permits: seq<A.Permit>, declarations: map<A.Key, A.Declaration>, now: int)
    requires forall i :: 0 <= i < |queued| ==> queued[i].request.deadline <= now
    requires now < e.request.deadline && forall i :: 0 <= i < |permits| ==> !permits[i].Live()
    ensures A.ScanQueue(queued + [e], permits, declarations, now) == A.Scan([e], [])
  {
    StaleQueueEmpties(queued, permits, declarations, now);
    assert (queued + [e])[..|queued|] == queued;
    assert !A.BlockedByPermit(e.request, permits, declarations);
    assert !A.BlockedByEntry(e.request, [], declarations);
  }

  lemma SubmitsUnknown(c: A.Coordinator, request: A.Request, now: int)
    requires request.capability == A.CAPABILITY && A.ClaimError(c, request.claims).None? && now < request.deadline
    requires Unknown(c, request.identity)
    ensures A.Submit(c, request, now)
         == A.Submitted(c.(submissions := c.submissions + 1, queued := c.queued + [A.Entry(c.submissions + 1, request)]), Ok(A.Queued))
  {
    hide A.ClaimError; hide A.PermitOf; hide A.EntryOf;
    assert A.PermitOf(c.permits, request.identity).None? && A.EntryOf(c.queued, request.identity).None?;
  }

  lemma GrantsTheOne(c: A.Coordinator, queued: seq<A.Entry>, e: A.Entry, now: int)
    requires c.available && !c.cleanupOnly && c.maxPermit == 5000 && c.queued == queued + [e] && now + 3000 == e.request.deadline
    requires forall i :: 0 <= i < |queued| ==> queued[i].request.deadline <= now
    requires forall i :: 0 <= i < |c.permits| ==> c.permits[i].expiresAt <= now
    ensures A.GrantNext(c, c.authority, now, 3000).granted == Ok([A.Permit(e.id, e.request, now, now + 3000, A.Granted, None)])
  {
    var permits := A.ExpireAll(c.permits, now);
    ScansTheOne(queued, e, permits, c.declarations, now);
    hide A.ScanQueue; hide A.ExpireAll;
    assert A.Issue([e], now, 3000) == [A.PermitFor(e, now, 3000)];
  }

  /** With everything earlier past its time a new request is granted at once, for 3000 ms. */
  lemma FreshRequestGranted(c: A.Coordinator, identity: Identity, providers: seq<string>, now: int)
    requires Serving(c) && Stale(c, now) && Unknown(c, identity) && now >= 0
    requires identity.attempt > 0 && providers != [] && DistinctNames(providers) && forall p :: p in providers ==> p in PROVIDERS
    ensures var request := RequestFor(identity, providers, now);
      N.Acquire(c, request, 3000, now).reply
      == N.AdmittedReply(A.Permit(c.submissions + 1, request, now, now + 3000, A.Granted, None))
  {
    var request := RequestFor(identity, providers, now);
    var e := A.Entry(c.submissions + 1, request);
    RequestWellFormed(identity, providers, now);
    ClaimsAccepted(c, providers);
    hide A.WellFormed; hide A.ClaimError; hide ClaimsOn; hide Declares; hide DistinctNames;
    SubmitsUnknown(c, request, now);
    var submitted := A.Submit(c, request, now).state;
    hide A.Submit;
    assert N.FirstLive(submitted.permits, identity).None?;
    GrantsTheOne(submitted, c.queued, e, now);
    hide A.GrantNext;
    assert A.Permit(e.id, request, now, now + 3000, A.Granted, None).Live();
  }

  /** The permit passes the gate of every provider it names. */
  lemma GrantAdmits(identity: Identity, providers: seq<string>, now: int, id: nat, name: string)
    requires name in providers && DistinctNames(providers)
    ensures Admits(Issue(A.Permit(id, RequestFor(identity, providers, now), now, now + 3000, A.Granted, None), EXPECTED, ExpectedKey),
                   EXPECTED, identity, ResourceKey(name, FIRST_BOOT), now)
  {
    var e := Issue(A.Permit(id, RequestFor(identity, providers, now), now, now + 3000, A.Granted, None), EXPECTED, ExpectedKey);
    var i :| 0 <= i < |providers| && providers[i] == name;
    forall j | 0 <= j < |providers| && ResourceKey(providers[j], FIRST_BOOT) == ResourceKey(name, FIRST_BOOT) ensures j == i {
      if providers[j] != name { KeysApart(providers[j], name); }
    }
    hide ResourceKey;
    assert e.claims[i].key == ResourceKey(name, FIRST_BOOT);
    assert NamesOnce(e.claims, ResourceKey(name, FIRST_BOOT));
  }

  // ----- the providers lease -----

  ghost predicate Holding(p: Provider, identity: Identity) {
    exists item :: item in p.book.items && item.identity == identity && item.Live() && p.clock < item.Deadline()
  }

  lemma ReservedHeld(book: R.Book, ask: R.Ask, now: int)
    requires book.limits == T.CELL_LIMITS && R.Reserve(book, ask, now).item.Ok?
    ensures exists item :: item in R.Reserve(book, ask, now).book.items && item.identity == ask.identity && item.Live() && now < item.Deadline()
  {
    hide R.ExpireTo; hide R.Fits; hide R.IndexOf;
    var r := R.Reserve(book, ask, now);
    var i := R.IndexOf(book.items, ask.identity);
    if i < |book.items| && book.items[i] == r.item.value && r.book == book {
      assert r.item.value in r.book.items;
    } else {
      var items := R.ExpireDue(book, now).items;
      assert R.Put(items, r.item.value)[R.IndexOf(items, ask.identity)] == r.item.value;
      assert r.item.value in r.book.items;
    }
  }

  function AskFor(identity: Identity, providers: seq<string>, envelope: Option<Envelope>): Ask {
    Ask(identity, providers, Negotiation(true, envelope.Some?), envelope)
  }

  /** A provider is ready for the ask: reachable by it, quiet for long enough, and the permit good. */
  ghost predicate Ready(cell: Cell, name: string, identity: Identity, providers: seq<string>, envelope: Option<Envelope>, now: int) {
    && name in cell.providers && name in providers
    && now >= cell.providers[name].clock + LONGEST_HOLD_MS
    && (envelope.Some? ==> envelope.value in cell.envelopes && Admits(envelope.value, EXPECTED, identity, cell.providers[name].Key(), now))
  }

  lemma ProviderKept(centralized: bool, steps: seq<Step>, name: string)
    requires name in Run(Start(centralized), steps).providers
    ensures var p := Run(Start(centralized), steps).providers[name];
      p.id == name && p.book.limits == T.CELL_LIMITS
  {
    RunKeeps(centralized, steps);
    hide Run; hide AuthorityOk; hide AdmittedOk; hide ExecutedOk; hide AdmittedBy; hide RL.Inv; hide RH.Accounted; hide T.Leased;
  }

  lemma ReadyLeases(centralized: bool, steps: seq<Step>, name: string, identity: Identity, providers: seq<string>, envelope: Option<Envelope>, now: int)
    requires Ready(Run(Start(centralized), steps), name, identity, providers, envelope, now) && envelope.Some? == centralized
    requires StartsWith(identity.requester, "/spec130/requester/") && identity.requestId != "" && identity.attempt > 0
    ensures var cell := Run(Start(centralized), steps);
      var next := Run(Start(centralized), steps + [AskStep(name, AskFor(identity, providers, envelope), now)]);
      && next.providers.Keys == cell.providers.Keys && next.envelopes == cell.envelopes
      && (forall other :: other in cell.providers && other != name ==> next.providers[other] == cell.providers[other])
      && Holding(next.providers[name], identity)
  {
    var cell := Run(Start(centralized), steps);
    var ask := AskFor(identity, providers, envelope);
    var step := AskStep(name, ask, now);
    var p := cell.providers[name];
    assert (steps + [step])[..|steps|] == steps;
    assert Run(Start(centralized), steps + [step]) == Next(cell, step);
    ProviderKept(centralized, steps, name);
    ExpectedStays(centralized, steps);
    hide Run; hide Admits; hide ResourceKey; hide StartsWith; hide Start; hide R.Reserve;
    QuietProviderLeases(centralized, steps, name, ask, now);
    ReservedHeld(p.book, ReserveAsk(p, ask), now);
  }

  /** The same ask sent to the first so many providers in turn, all at one time. */
  function Asks(identity: Identity, providers: seq<string>, envelope: Option<Envelope>, now: int, k: nat): seq<Step>
    requires k <= |providers|
  {
    if k == 0 then []
    else Asks(identity, providers, envelope, now, k - 1) + [AskStep(providers[k - 1], AskFor(identity, providers, envelope), now)]
  }

  lemma StillReady(cell: Cell, next: Cell, name: string, identity: Identity, providers: seq<string>, envelope: Option<Envelope>, now: int)
    requires Ready(cell, name, identity, providers, envelope, now)
    requires name in next.providers && next.providers[name] == cell.providers[name] && next.envelopes == cell.envelopes
    ensures Ready(next, name, identity, providers, envelope, now)
  {
    hide Admits; hide ResourceKey;
  }

  lemma ReadyThere(cell: Cell, name: string, identity: Identity, providers: seq<string>, envelope: Option<Envelope>, now: int)
    requires Ready(cell, name, identity, providers, envelope, now)
    ensures name in cell.providers
  {
  }

  /** The first so many providers hold a reservation for the request, and the others are ready. */
  ghost predicate HeldUpTo(cell: Cell, identity: Identity, providers: seq<string>, envelope: Option<Envelope>, now: int, k: nat) {
    && (forall i :: 0 <= i < |providers| && i < k ==> providers[i] in cell.providers && Holding(cell.providers[providers[i]], identity))
    && (forall i :: k <= i < |providers| ==> Ready(cell, providers[i], identity, providers, envelope, now))
  }

  lemma OneMoreHeld(cell: Cell, next: Cell, identity: Identity, providers: seq<string>, envelope: Option<Envelope>, now: int, k: nat)
    requires k < |providers| && DistinctNames(providers) && HeldUpTo(cell, identity, providers, envelope, now, k)
    requires next.providers.Keys == cell.providers.Keys && next.envelopes == cell.envelopes
    requires forall other :: other in cell.providers && other != providers[k] ==> next.providers[other] == cell.providers[other]
    requires providers[k] in next.providers && Holding(next.providers[providers[k]], identity)
    ensures HeldUpTo(next, identity, providers, envelope, now, k + 1)
  {
    hide Ready; hide Holding;
    forall i | k + 1 <= i < |providers| ensures Ready(next, providers[i], identity, providers, envelope, now) {
      ReadyThere(cell, providers[i], identity, providers, envelope, now);
      StillReady(cell, next, providers[i], identity, providers, envelope, now);
    }
  }

  lemma {:induction false} AsksLease(centralized: bool, steps: seq<Step>, identity: Identity, providers: seq<string>, envelope: Option<Envelope>,
                                     now: int, k: nat)
    requires k <= |providers| && DistinctNames(providers) && envelope.Some? == centralized
    requires HeldUpTo(Run(Start(centralized), steps), identity, providers, envelope, now, 0)
    requires StartsWith(identity.requester, "/spec130/requester/") && identity.requestId != "" && identity.attempt > 0
    ensures HeldUpTo(Run(Start(centralized), steps + Asks(identity, providers, envelope, now, k)), identity, providers, envelope, now, k)
  {
    hide Run; hide StartsWith; hide DistinctNames; hide Start;
    if k == 0 {
      assert steps + Asks(identity, providers, envelope, now, 0) == steps;
    } else {
      AsksLease(centralized, steps, identity, providers, envelope, now, k - 1);
      var before := steps + Asks(identity, providers, envelope, now, k - 1);
      var last := AskStep(providers[k - 1], AskFor(identity, providers, envelope), now);
      assert Ready(Run(Start(centralized), before), providers[k - 1], identity, providers, envelope, now);
      hide HeldUpTo; hide Ready; hide Holding;
      ReadyThere(Run(Start(centralized), before), providers[k - 1], identity, providers, envelope, now);
      ReadyLeases(centralized, before, providers[k - 1], identity, providers, envelope, now);
      assert before + [last] == steps + Asks(identity, providers, envelope, now, k);
      hide Asks;
      OneMoreHeld(Run(Start(centralized), before), Run(Start(centralized), before + [last]), identity, providers, envelope, now, k - 1);
    }
  }

  // ----- claim sets -----

  function Latest(times: seq<int>): (t: int)
    ensures t >= 0 && forall x :: x in times ==> x <= t
  {
    if times == [] then 0
    else
      var rest := Latest(times[1..]);
      assert times == [times[0]] + times[1..];
      if times[0] > rest then times[0] else rest
  }

  ghost function Settled(cell: Cell, providers: seq<string>): int
    requires forall p :: p in providers ==> p in cell.providers
  {
    var c := cell.authority.coordinator;
    Latest([cell.authorityClock]
           + seq(|c.permits|, i requires 0 <= i < |c.permits| => c.permits[i].expiresAt)
           + seq(|c.queued|, i requires 0 <= i < |c.queued| => c.queued[i].request.deadline)
           + seq(|providers|, i requires 0 <= i < |providers| => cell.providers[providers[i]].clock)) + LONGEST_HOLD_MS
  }

  lemma SettledIsLate(cell: Cell, providers: seq<string>)
    requires forall p :: p in providers ==> p in cell.providers
    ensures var t := Settled(cell, providers);
      && t >= 0 && cell.authorityClock <= t && Stale(cell.authority.coordinator, t)
      && forall p :: p in providers ==> t >= cell.providers[p].clock + LONGEST_HOLD_MS
  {
    var c := cell.authority.coordinator;
    var xs := seq(|c.permits|, i requires 0 <= i < |c.permits| => c.permits[i].expiresAt);
    var ys := seq(|c.queued|, i requires 0 <= i < |c.queued| => c.queued[i].request.deadline);
    var zs := seq(|providers|, i requires 0 <= i < |providers| => cell.providers[providers[i]].clock);
    var all := [cell.authorityClock] + xs + ys + zs;
    assert cell.authorityClock in all;
    forall i | 0 <= i < |c.permits| ensures c.permits[i].expiresAt <= Latest(all) { assert xs[i] in all; }
    forall i | 0 <= i < |c.queued| ensures c.queued[i].request.deadline <= Latest(all) { assert ys[i] in all; }
    forall p | p in providers ensures cell.providers[p].clock <= Latest(all) {
      var i :| 0 <= i < |providers| && providers[i] == p;
      assert zs[i] in all;
    }
  }

  lemma GrantReadies(steps: seq<Step>, identity: Identity, providers: seq<string>, now: int) returns (e: Envelope)
    requires var cell := Run(Start(true), steps);
      && Unknown(cell.authority.coordinator, identity) && Stale(cell.authority.coordinator, now) && cell.authorityClock <= now && now >= 0
      && (forall p :: p in providers ==> p in PROVIDERS && p in cell.providers && cell.providers[p].boot == FIRST_BOOT)
      && (forall p :: p in providers ==> now >= cell.providers[p].clock + LONGEST_HOLD_MS)
    requires identity.attempt > 0 && providers != [] && DistinctNames(providers)
    ensures var next := Run(Start(true), steps + [AuthorityStep(AcquireMessage(identity, now + 3000, providers, 3000), now)]);
      forall i :: 0 <= i < |providers| ==> Ready(next, providers[i], identity, providers, Some(e), now)
  {
    var cell := Run(Start(true), steps);
    var step := AuthorityStep(AcquireMessage(identity, now + 3000, providers, 3000), now);
    var c := cell.authority.coordinator;
    RunServing(true, steps);
    ExpectedStays(true, steps);
    FreshRequestGranted(c, identity, providers, now);
    var permit := A.Permit(c.submissions + 1, RequestFor(identity, providers, now), now, now + 3000, A.Granted, None);
    e := Issue(permit, EXPECTED, ExpectedKey);
    assert (steps + [step])[..|steps|] == steps;
    assert Run(Start(true), steps + [step]) == Next(cell, step);
    hide Run; hide N.Acquire; hide ResourceKey; hide Serving; hide Admits; hide Issue; hide Stale; hide Unknown;
    var served := N.Serve(cell.authority, CallOf(step.message), now);
    assert served.reply == N.AdmittedReply(permit);
    var next := Next(cell, step);
    assert e in next.envelopes && next.providers == cell.providers;
    forall i | 0 <= i < |providers| ensures Ready(next, providers[i], identity, providers, Some(e), now) {
      var name := providers[i];
      GrantAdmits(identity, providers, now, permit.id, name);
      assert cell.providers[name].id == name by { ProviderKept(true, steps, name); }
    }
  }

  /** All the providers hold a reservation for the request, none of them run out. */
  ghost predicate HeldInFull(cell: Cell, identity: Identity, providers: seq<string>) {
    forall p :: p in providers ==> p in cell.providers && Holding(cell.providers[p], identity)
  }

  /** From every reachable state, whatever is held, queued or permitted and whoever has vanished, a
      requester new to the authority can still get any set of providers in full: some continuation
      ends with every one of them holding a live reservation for its request, in centralized mode
      under one permit, provided each still runs its first boot, which is all that permits name. */
  lemma EveryClaimSetCanBeHad(centralized: bool, steps: seq<Step>, identity: Identity, providers: seq<string>)
    requires StartsWith(identity.requester, "/spec130/requester/") && identity.requestId != "" && identity.attempt > 0
    requires providers != [] && DistinctNames(providers) && forall p :: p in providers ==> p in PROVIDERS
    requires var cell := Run(Start(centralized), steps);
      centralized ==>
        && Unknown(cell.authority.coordinator, identity)
        && forall p :: p in providers && p in cell.providers ==> cell.providers[p].boot == FIRST_BOOT
    ensures exists more :: HeldInFull(Run(Start(centralized), steps + more), identity, providers)
  {
    RunServing(centralized, steps);
    var cell := Run(Start(centralized), steps);
    hide Run; hide Start; hide Serving; hide StartsWith; hide Admits; hide Stale; hide Unknown; hide Settled; hide ResourceKey; hide Holding;
    SettledIsLate(cell, providers);
    var now := Settled(cell, providers);
    var first, envelope := [], None;
    if centralized {
      var e := GrantReadies(steps, identity, providers, now);
      first, envelope := [AuthorityStep(AcquireMessage(identity, now + 3000, providers, 3000), now)], Some(e);
    } else {
      assert steps + first == steps;
    }
    AsksLease(centralized, steps + first, identity, providers, envelope, now, |providers|);
    var asks := Asks(identity, providers, envelope, now, |providers|);
    assert steps + first + asks == steps + (first + asks);
    assert HeldInFull(Run(Start(centralized), steps + (first + asks)), identity, providers);
  }
}
