/** Who is handed a reservation in a conflict cell. */
module ConflictCellGate {
  import opened Outcomes
  import opened Requests
  import opened ConflictCell
  import opened ConflictCellSafety
  import A = Admission
  import N = AuthorityNode
  import R = Reservations
  import RA = ReservationAnswers
  import RL = ReservationLedger
  import T = ReservationTime

  /** A requester of the cell, whose claims name the provider. */
  ghost predicate Entitled(p: Provider, ask: Ask) {
    && (exists rest :: ask.identity.requester == "/spec130/requester/" + rest)
    && exists i :: 0 <= i < |ask.claimProviders| && ask.claimProviders[i] == p.id
  }

  lemma EntitledExactly(p: Provider, ask: Ask)
    ensures Permitted(p, ask) <==> Entitled(p, ask)
  {
    var prefix := "/spec130/requester/";
    if Permitted(p, ask) {
      assert ask.identity.requester == prefix + ask.identity.requester[|prefix|..];
    }
  }

  /** The envelope carries the expected key's signature over the expected authority, that request, a window
      that now lies in, and exactly one claim of the device, for something of it. */
  ghost predicate Passes(e: Envelope, expected: A.Authority, identity: Identity, key: A.Key, now: int) {
    && e.signer == ExpectedKey && e.authority == expected && e.identity == identity && e.issuedAt <= now && now < e.expiresAt
    && (exists i :: 0 <= i < |e.claims| && e.claims[i].key == key && e.claims[i].quantity > 0)
    && (forall i, j :: 0 <= i < j < |e.claims| ==> e.claims[i].key != key || e.claims[j].key != key)
  }

  lemma PassesExactly(e: Envelope, expected: A.Authority, identity: Identity, key: A.Key, now: int)
    ensures Admits(e, expected, identity, key, now) <==> Passes(e, expected, identity, key, now)
  {
    if forall a, b :: 0 <= a < b < |e.claims| ==> e.claims[a].key != key || e.claims[b].key != key {
      forall i, j | 0 <= i < |e.claims| && 0 <= j < |e.claims| && e.claims[i].key == key && e.claims[j].key == key ensures j == i {
        assert !(i < j) && !(j < i);
      }
    }
  }

  /** The request passes the gate: its capability is the mode's, and in centralized mode its permit passes. */
  ghost predicate Gated(centralized: bool, expected: A.Authority, p: Provider, ask: Ask, now: int) {
    ask.negotiation.conflict == centralized
    && (centralized ==> ask.envelope.Some? && Passes(ask.envelope.value, expected, ask.identity, p.Key(), now))
  }

  /** The reservation the provider makes of the ask: one unit of its own device for the tentative lease. */
  ghost predicate AskedOf(p: Provider, ask: Ask, reserve: R.Ask) {
    && reserve.identity == ask.identity && reserve.units == 1 && reserve.lease == 1200 && reserve.service == "/DI/Work"
    && reserve.resource == p.Key().resourceId && reserve.resourceSequence == 1 && (reserve.authorized <==> Entitled(p, ask))
  }

  /** A reservation is handed out exactly to an entitled requester whose ask negotiates it, passes the gate, is
      complete, and holds one that still runs or finds the device free; a refused gate leaves the book alone. */
  lemma AcknowledgeExactly(centralized: bool, expected: A.Authority, p: Provider, ask: Ask, now: int)
    requires RL.Distinct(p.book.items)
    ensures var ack := Acknowledge(centralized, expected, p, ask, now);
      && (ack.answer.PlainAck? <==> !ask.negotiation.reservation)
      && (ack.answer.LeasedAck? <==>
            && ask.negotiation.reservation && Gated(centralized, expected, p, ask, now) && Entitled(p, ask)
            && ask.identity.requestId != "" && ask.identity.attempt > 0
            && (RA.Running(p.book, ask.identity, now) || RA.Room(p.book, ReserveAsk(p, ask), now)))
      && (ack.answer.ReservationUnauthorized? <==> ask.negotiation.reservation && Gated(centralized, expected, p, ask, now) && !Entitled(p, ask))
      && (ack.answer.ConflictAdmissionRequired? <==> ask.negotiation.reservation && centralized && !ask.negotiation.conflict)
      && (ack.answer.ConflictAdmissionUnavailable? <==> ask.negotiation.reservation && !centralized && ask.negotiation.conflict)
      && (!ask.negotiation.reservation || !Gated(centralized, expected, p, ask, now) ==> ack.book == p.book)
      && (ask.negotiation.reservation && Gated(centralized, expected, p, ask, now) ==>
            AskedOf(p, ask, ReserveAsk(p, ask)) && ack.book == R.Reserve(p.book, ReserveAsk(p, ask), now).book)
  {
    EntitledExactly(p, ask);
    if ask.envelope.Some? { PassesExactly(ask.envelope.value, expected, ask.identity, p.Key(), now); }
    hide Admits; hide Passes; hide Permitted; hide Entitled;
    RA.ReserveExactly(p.book, ReserveAsk(p, ask), now);
    assert p.Key().resourceId == "slot-" + p.id;
    hide R.Reserve; hide ResourceKey; hide RA.Running; hide RA.Room;
  }

  /** The step asked that provider boot, by an entitled requester, for that very request. */
  ghost predicate AskedAt(cell: Cell, step: Step, a: Admitted) {
    && step.AskStep? && step.provider in cell.providers
    && a.key == cell.providers[step.provider].Key() && a.identity == step.ask.identity && a.envelope == step.ask.envelope && a.at == step.now
    && step.ask.negotiation.reservation && Entitled(cell.providers[step.provider], step.ask)
  }

  lemma NextEntitled(cell: Cell, step: Step, a: Admitted)
    requires forall name :: name in cell.providers ==> RL.Distinct(cell.providers[name].book.items)
    requires a in Next(cell, step).admitted && a !in cell.admitted
    ensures AskedAt(cell, step, a)
  {
    hide Selecting; hide R.ReleaseItem; hide R.ExpireDue; hide R.Reserve; hide CallOf; hide Sent; hide ResourceKey; hide Restarted; hide Entitled;
    if step.AskStep? && Enabled(cell, step) {
      var p := cell.providers[step.provider];
      AcknowledgeExactly(cell.centralized, cell.expected, p, step.ask, step.now);
      hide Acknowledge; hide Gated;
    }
  }

  lemma BooksDistinct(centralized: bool, steps: seq<Step>)
    ensures forall name :: name in Run(Start(centralized), steps).providers ==>
      RL.Distinct(Run(Start(centralized), steps).providers[name].book.items)
  {
    RunKeeps(centralized, steps);
    hide Run; hide AuthorityOk; hide AdmittedOk; hide ExecutedOk; hide AdmittedBy; hide RL.Replay; hide RL.PrefixesFit; hide RL.WithinQuota;
  }

  /** In every run, in either mode, each reservation handed out answers an ask in that run, at that provider boot
      and time, by a requester of the cell whose claims name the provider. */
  lemma {:induction false} EveryAdmissionEntitled(centralized: bool, steps: seq<Step>, a: Admitted)
    requires a in Run(Start(centralized), steps).admitted
    ensures exists n :: 0 <= n < |steps| && AskedAt(Run(Start(centralized), steps[..n]), steps[n], a)
  {
    if steps != [] {
      var front, last := steps[..|steps| - 1], steps[|steps| - 1];
      BooksDistinct(centralized, front);
      hide Next; hide Start; hide AskedAt;
      if a in Run(Start(centralized), front).admitted {
        EveryAdmissionEntitled(centralized, front, a);
        var n :| 0 <= n < |front| && AskedAt(Run(Start(centralized), front[..n]), front[n], a);
        assert front[..n] == steps[..n];
      } else {
        NextEntitled(Run(Start(centralized), front), last, a);
      }
    }
  }

  // ----- selections, endings and restarts -----

  /** A waiting request, the one that negotiated a reservation before the one that did not. */
  ghost predicate TakesUp(p: Provider, identity: Identity, negotiated: bool) {
    Waiting(identity, negotiated) in p.waiting && (!negotiated ==> Waiting(identity, true) !in p.waiting)
  }

  /** What the decision a selection carries comes to: none, or the receipt for it. */
  ghost function Receipt(p: Provider, decision: Option<T.Decision>, now: int): Result<T.Verdict, T.Refusal> {
    if decision.None? then Ok(T.Selected) else T.Decide(T.Authority(p.book, p.accepted), decision.value, now, true).receipt
  }

  /** A selection executes exactly a request that waits, when it carries no decision or one that is accepted and
      selects it. A request that is executed or refused waits no more; one whose decision is not accepted
      waits on; and only a decision touches the book. */
  lemma SelectExactly(p: Provider, identity: Identity, decision: Option<T.Decision>, now: int)
    ensures var (next, ran) := Selecting(p, identity, decision, now);
      && (ran != [] <==> (exists negotiated :: TakesUp(p, identity, negotiated)) && Receipt(p, decision, now) == Ok(T.Selected))
      && (forall negotiated :: TakesUp(p, identity, negotiated) ==>
            && (Receipt(p, decision, now) == Ok(T.Selected) ==> ran == [Executed(p.Key(), identity, negotiated, now)])
            && next.waiting == (if Receipt(p, decision, now).Ok? then p.waiting - {Waiting(identity, negotiated)} else p.waiting)
            && (decision.Some? ==> T.Authority(next.book, next.accepted) == T.Decide(T.Authority(p.book, p.accepted), decision.value, now, true).authority))
      && ((forall negotiated :: !TakesUp(p, identity, negotiated)) ==> next == p.(clock := now))
      && (decision.None? ==> next.book == p.book && next.accepted == p.accepted)
      && next.id == p.id && next.boot == p.boot && next.clock == now
  {
    hide T.Decide; hide ResourceKey;
    assert TakesUp(p, identity, true) <==> Waiting(identity, true) in p.waiting;
    assert TakesUp(p, identity, false) <==> Waiting(identity, false) in p.waiting && Waiting(identity, true) !in p.waiting;
  }

  /** The other events at a provider, whenever its clock has come that far: the end of a request releases its item
      under the cause given, a tick expires what is due, and a restart drops what waits and was decided and keeps
      the book, expired, only under the same boot. Nothing else in the cell changes. */
  lemma ProviderStepsExactly(cell: Cell, step: Step)
    requires step.TerminalStep? || step.TickStep? || step.RestartStep?
    requires step.provider in cell.providers && cell.providers[step.provider].clock <= step.now
    ensures var p, next := cell.providers[step.provider], Next(cell, step);
      && step.provider in next.providers && next == cell.(providers := cell.providers[step.provider := next.providers[step.provider]])
      && var q := next.providers[step.provider];
      && q.id == p.id && q.clock == step.now
      && match step
         case TerminalStep(_, identity, cause, now) => q == p.(clock := now, book := R.ReleaseItem(p.book, identity, cause, now).book)
         case TickStep(_, now) => q == p.(clock := now, book := R.ExpireDue(p.book, now))
         case RestartStep(_, boot, now) =>
           q.boot == boot && q.accepted == map[] && q.waiting == {}
           && (boot == p.boot ==> q.book == R.ExpireDue(p.book, now))
           && (boot != p.boot ==> q.book.items == [] && q.book.ledger == [] && q.book.limits == p.book.limits)
         case _ => false
  {
    hide R.ReleaseItem; hide R.ExpireDue;
  }

  /** An ask or a selection takes effect at a provider whose clock has come that far: an ask whenever a permit it
      carries under the expected key is one that was sent. */
  lemma ProviderAskExactly(cell: Cell, name: string, ask: Ask, now: int)
    requires name in cell.providers && cell.providers[name].clock <= now
    requires ask.envelope.Some? && ask.envelope.value.signer == ExpectedKey ==> ask.envelope.value in cell.envelopes
    ensures var (p, next) := (cell.providers[name], Next(cell, AskStep(name, ask, now)));
      var ack := Acknowledge(cell.centralized, cell.expected, p, ask, now);
      && name in next.providers
      && next == cell.(providers := cell.providers[name := next.providers[name]], admitted := next.admitted)
      && next.admitted == cell.admitted + (if ack.answer.LeasedAck? then [Admitted(p.Key(), ask.identity, ask.envelope, now)] else [])
      && next.providers[name] == p.(clock := now, book := ack.book,
           waiting := p.waiting + (if ack.answer.LeasedAck? then {Waiting(ask.identity, true)}
                                   else if ack.answer.PlainAck? then {Waiting(ask.identity, false)} else {}))
  {
    hide Acknowledge; hide ResourceKey;
    var p := cell.providers[name];
    assert p.waiting + {} == p.waiting;
    assert cell.admitted + [] == cell.admitted;
  }

  lemma ProviderSelectExactly(cell: Cell, name: string, identity: Identity, decision: Option<T.Decision>, now: int)
    requires name in cell.providers && cell.providers[name].clock <= now && (decision.Some? ==> decision.value.identity == identity)
    ensures var (q, ran) := Selecting(cell.providers[name], identity, decision, now);
      Next(cell, SelectStep(name, identity, decision, now)) == cell.(providers := cell.providers[name := q], executed := cell.executed + ran)
  {
    hide Selecting;
  }

  /** Both authorities answer every message whenever it comes, the expected one while its clock does not run back;
      a permit they admit with is sent under the key of each. */
  lemma AuthorityStepsExactly(cell: Cell, message: Message, now: int)
    ensures var served := N.Serve(cell.authority, CallOf(message), now);
      cell.authorityClock <= now ==>
        Next(cell, AuthorityStep(message, now))
        == cell.(authority := served.node, authorityClock := now,
                 envelopes := cell.envelopes + (if served.reply.AdmittedReply? then {Issue(served.reply.permit, cell.expected, ExpectedKey)} else {}))
    ensures var served := N.Serve(cell.rival, CallOf(message), now);
      Next(cell, RivalStep(message, now))
      == cell.(rival := served.node,
               envelopes := cell.envelopes + (if served.reply.AdmittedReply? then {Issue(served.reply.permit, cell.rival.coordinator.authority, OtherKey)} else {}))
  {
    hide N.Serve; hide CallOf; hide Issue;
  }
}
