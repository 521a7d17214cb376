/** A conflict cell as a protocol: two authorities, restarting providers, and messages that may be
lost, delayed, repeated or replayed by anyone.

A message once issued may be used at any later step, any number of times or never, so loss,
duplication and reordering need no steps of their own; requesters have no state here and may
vanish at any point. */
module ConflictCell {
  import opened Outcomes
  import opened Requests
  import A = Admission
  import N = AuthorityNode
  import R = Reservations
  import T = ReservationTime

  // ----- names -----

  /** A provider's exclusive slot under one of its boots. */
  function ResourceKey(id: string, boot: string): A.Key {
    A.Key("/spec130/provider/" + id, "boot-" + id + "-" + boot, "accelerator", "slot-" + id,
          "exclusive-accelerator", "slot", "v1")
  }

  /** The boot the authority takes every provider to be running. */
  const FIRST_BOOT := "1"

  // ----- permits on the wire -----

  datatype Signer = ExpectedKey | OtherKey

  datatype EnvelopeClaim = EnvelopeClaim(key: A.Key, quantity: nat)

  datatype Envelope = Envelope(permitId: nat, authority: A.Authority, identity: Identity, issuedAt: int, expiresAt: int,
                               claims: seq<EnvelopeClaim>, signer: Signer)

  function Issue(p: A.Permit, authority: A.Authority, signer: Signer): Envelope {
    Envelope(p.id, authority, p.request.identity, p.issuedAt, p.expiresAt,
             seq(|p.request.claims|, i requires 0 <= i < |p.request.claims| =>
               EnvelopeClaim(p.request.claims[i].key, p.request.claims[i].quantity)),
             signer)
  }

  predicate NamesOnce(claims: seq<EnvelopeClaim>, key: A.Key) {
    exists i :: 0 <= i < |claims| && claims[i].key == key && claims[i].quantity > 0
             && forall j :: 0 <= j < |claims| && claims[j].key == key ==> j == i
  }

  /** The permit check: signature, authority, request, window and the one exact claim. */
  predicate Admits(e: Envelope, expected: A.Authority, identity: Identity, key: A.Key, now: int) {
    && e.signer.ExpectedKey? && e.authority == expected && e.identity == identity
    && e.issuedAt <= now < e.expiresAt && NamesOnce(e.claims, key)
  }

  // ----- what requesters send -----

  datatype Message =
    | AcquireMessage(identity: Identity, deadline: int, providers: seq<string>, permitMs: int)
    | ReleaseMessage(permitId: nat, reason: string)
    | GarbledMessage

  function ClaimsOn(providers: seq<string>): seq<A.Claim> {
    seq(|providers|, i requires 0 <= i < |providers| => A.Claim(ResourceKey(providers[i], FIRST_BOOT), 1, true))
  }

  function CallOf(message: Message): N.Call {
    match message
    case AcquireMessage(identity, deadline, providers, permitMs) =>
      N.AcquireCall(A.Request(identity, deadline, ClaimsOn(providers), A.CAPABILITY), permitMs)
    case ReleaseMessage(permitId, reason) => N.ReleaseCall(permitId, reason)
    case GarbledMessage => N.GarbledCall
  }

  datatype Negotiation = Negotiation(reservation: bool, conflict: bool)

  datatype Ask = Ask(identity: Identity, claimProviders: seq<string>, negotiation: Negotiation, envelope: Option<Envelope>)

  // ----- providers -----

  const LEASE_MS := 1200
  const SERVICE := "/DI/Work"

  /** A request acknowledged and waiting to be selected. */
  datatype Waiting = Waiting(identity: Identity, negotiated: bool)

  datatype Provider = Provider(id: string, boot: string, clock: int, book: R.Book,
                               accepted: map<Identity, (T.Verdict, string)>, waiting: set<Waiting>)
  {
    function Key(): A.Key {
      ResourceKey(id, boot)
    }
  }

  predicate StartsWith(s: string, prefix: string) {
    |prefix| <= |s| && s[..|prefix|] == prefix
  }

  predicate Permitted(provider: Provider, ask: Ask) {
    StartsWith(ask.identity.requester, "/spec130/requester/") && provider.id in ask.claimProviders
  }

  datatype Answer =
    | PlainAck
    | LeasedAck(item: R.Item)
    | ConflictAdmissionRequired
    | ConflictAdmissionUnavailable
    | ConflictAdmissionRejected
    | ReservationUnauthorized
    | ReservationRejected(error: R.Error)

  datatype Acknowledged = Acknowledged(book: R.Book, answer: Answer)

  /** The acknowledgement gate. A request that negotiates no reservation is acknowledged as it
      is; a gate that fails leaves the book untouched. */
  function Acknowledge(centralized: bool, expected: A.Authority, p: Provider, ask: Ask, now: int): Acknowledged {
    if !ask.negotiation.reservation then Acknowledged(p.book, PlainAck)
    else if centralized && !ask.negotiation.conflict then Acknowledged(p.book, ConflictAdmissionRequired)
    else if ask.negotiation.conflict && !centralized then Acknowledged(p.book, ConflictAdmissionUnavailable)
    else if ask.negotiation.conflict
            && (ask.envelope.None? || !Admits(ask.envelope.value, expected, ask.identity, p.Key(), now)) then
      Acknowledged(p.book, ConflictAdmissionRejected)
    else
      var reserve := R.Ask(ask.identity, SERVICE, 1, LEASE_MS, Permitted(p, ask), "provider-reservation-signature", p.Key().resourceId, 1);
      var reserved := R.Reserve(p.book, reserve, now);
      match reserved.item
      case Ok(item) => Acknowledged(reserved.book, LeasedAck(item))
      case Err(Unauthorized) => Acknowledged(reserved.book, ReservationUnauthorized)
      case Err(e) => Acknowledged(reserved.book, ReservationRejected(e))
  }

  // ----- the cell -----

  /** A reservation handed out, with the permit it was asked for under, and an execution. */
  datatype Admitted = Admitted(key: A.Key, identity: Identity, envelope: Option<Envelope>, at: int)
  datatype Executed = Executed(key: A.Key, identity: Identity, negotiated: bool, at: int)

  datatype Cell = Cell(centralized: bool, expected: A.Authority, authority: N.Node, authorityClock: int, rival: N.Node,
                       envelopes: set<Envelope>, providers: map<string, Provider>,
                       admitted: seq<Admitted>, executed: seq<Executed>)

  datatype Step =
    | AuthorityStep(message: Message, now: int)
    | RivalStep(message: Message, now: int)
    | AskStep(provider: string, ask: Ask, now: int)
    | SelectStep(provider: string, identity: Identity, decision: Option<T.Decision>, now: int)
    | TerminalStep(provider: string, identity: Identity, cause: string, now: int)
    | TickStep(provider: string, now: int)
    | RestartStep(provider: string, boot: string, now: int)

  /** Clocks do not run backwards, and nobody can sign with the expected key but its authority. */
  predicate Enabled(cell: Cell, step: Step) {
    match step
    case AuthorityStep(_, now) => cell.authorityClock <= now
    case RivalStep(_, _) => true
    case AskStep(p, ask, now) =>
      && p in cell.providers && cell.providers[p].clock <= now
      && (ask.envelope.Some? && ask.envelope.value.signer.ExpectedKey? ==> ask.envelope.value in cell.envelopes)
    case SelectStep(p, identity, decision, now) =>
      && p in cell.providers && cell.providers[p].clock <= now
      && (decision.Some? ==> decision.value.identity == identity)
    case TerminalStep(p, _, _, now) => p in cell.providers && cell.providers[p].clock <= now
    case TickStep(p, now) => p in cell.providers && cell.providers[p].clock <= now
    case RestartStep(p, _, now) => p in cell.providers && cell.providers[p].clock <= now
  }

  function Sent(reply: N.Reply, authority: A.Authority, signer: Signer): set<Envelope> {
    if reply.AdmittedReply? then {Issue(reply.permit, authority, signer)} else {}
  }

  /** A selection takes effect on a waiting request, once; a decision it carries must be accepted first. */
  function Selecting(p: Provider, identity: Identity, decision: Option<T.Decision>, now: int): (Provider, seq<Executed>) {
    var entry := if Waiting(identity, true) in p.waiting then Waiting(identity, true) else Waiting(identity, false);
    if entry !in p.waiting then (p.(clock := now), [])
    else
      var ran := Executed(p.Key(), identity, entry.negotiated, now);
      match decision
      case None => (p.(clock := now, waiting := p.waiting - {entry}), [ran])
      case Some(d) =>
        var outcome := T.Decide(T.Authority(p.book, p.accepted), d, now, true);
        var next := p.(clock := now, book := outcome.authority.book, accepted := outcome.authority.accepted);
        match outcome.receipt
        case Err(_) => (next, [])
        case Ok(Selected) => (next.(waiting := p.waiting - {entry}), [ran])
        case Ok(NotSelected) => (next.(waiting := p.waiting - {entry}), [])
  }

  function Asking(cell: Cell, p: Provider, ask: Ask, now: int): (Provider, seq<Admitted>) {
    var ack := Acknowledge(cell.centralized, cell.expected, p, ask, now);
    var next := p.(clock := now, book := ack.book);
    match ack.answer
    case PlainAck => (next.(waiting := p.waiting + {Waiting(ask.identity, false)}), [])
    case LeasedAck(_) =>
      (next.(waiting := p.waiting + {Waiting(ask.identity, true)}), [Admitted(p.Key(), ask.identity, ask.envelope, now)])
    case _ => (next, [])
  }

  /** A new process keeps the journalled book only under the same boot. */
  function Restarted(p: Provider, boot: string, now: int): Provider {
    Provider(p.id, boot, now, if boot == p.boot then R.ExpireDue(p.book, now) else R.EmptyBook(p.book.limits), map[], {})
  }

  function Next(cell: Cell, step: Step): Cell {
    if !Enabled(cell, step) then cell
    else match step
      case AuthorityStep(message, now) =>
        var served := N.Serve(cell.authority, CallOf(message), now);
        cell.(authority := served.node, authorityClock := now,
              envelopes := cell.envelopes + Sent(served.reply, cell.expected, ExpectedKey))
      case RivalStep(message, now) =>
        var served := N.Serve(cell.rival, CallOf(message), now);
        cell.(rival := served.node,
              envelopes := cell.envelopes + Sent(served.reply, cell.rival.coordinator.authority, OtherKey))
      case AskStep(name, ask, now) =>
        var (p, more) := Asking(cell, cell.providers[name], ask, now);
        cell.(providers := cell.providers[name := p], admitted := cell.admitted + more)
      case SelectStep(name, identity, decision, now) =>
        var (p, more) := Selecting(cell.providers[name], identity, decision, now);
        cell.(providers := cell.providers[name := p], executed := cell.executed + more)
      case TerminalStep(name, identity, cause, now) =>
        var p := cell.providers[name];
        cell.(providers := cell.providers[name := p.(clock := now, book := R.ReleaseItem(p.book, identity, cause, now).book)])
      case TickStep(name, now) =>
        var p := cell.providers[name];
        cell.(providers := cell.providers[name := p.(clock := now, book := R.ExpireDue(p.book, now))])
      case RestartStep(name, boot, now) =>
        cell.(providers := cell.providers[name := Restarted(cell.providers[name], boot, now)])
  }

  function Run(cell: Cell, steps: seq<Step>): Cell {
    if steps == [] then cell else Next(Run(cell, steps[..|steps| - 1]), steps[|steps| - 1])
  }

  // ----- the start -----

  const EXPECTED := A.Authority("/spec130/conflicts", "/spec130/authority-a", 1, "authority-boot-a")
  const RIVAL := A.Authority("/spec130/conflicts", "/spec130/authority-b", 1, "authority-boot-b")
  const PROVIDERS := ["A", "B", "C"]

  function Declarations(): seq<A.Declaration> {
    seq(|PROVIDERS|, i requires 0 <= i < |PROVIDERS| => A.Declaration(ResourceKey(PROVIDERS[i], FIRST_BOOT), 1, true, 1))
  }

  function StartProvider(id: string): Provider {
    Provider(id, FIRST_BOOT, 0, R.EmptyBook(T.CELL_LIMITS), map[], {})
  }

  function Start(centralized: bool): Cell {
    Cell(centralized, EXPECTED, N.Start(EXPECTED, 5000, Declarations()), 0, N.Start(RIVAL, 5000, Declarations()), {},
         map id | id in PROVIDERS :: StartProvider(id), [], [])
  }
}
