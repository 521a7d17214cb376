/** Requesters that choose their providers from the acknowledgements they received. */
module ConflictCellRequesters {
  import opened Outcomes
  import opened Requests
  import opened ConflictCell
  import opened ConflictCellSafety
  import opened ConflictCellTheorems
  import A = Admission
  import AI = AdmissionInvariant
  import R = Reservations
  import T = ReservationTime

  // ----- the choice -----

  datatype Candidate = Candidate(provider: string, status: bool)

  /** All required providers when every one of them acknowledged, else none. */
  function SelectProviders(required: seq<string>, candidates: seq<Candidate>): seq<string> {
    if forall r :: r in required ==> Candidate(r, true) in candidates then required else []
  }

  // ----- a cell and its requesters -----

  /** An acknowledgement a provider has sent; `leased` when it came with a reservation. */
  datatype Ack = Ack(identity: Identity, provider: string, leased: bool, key: A.Key)

  /** The cell's steps so far, the acknowledgements sent, and what each requester has chosen. */
  datatype World = World(steps: seq<Step>, acks: set<Ack>, chosen: map<Identity, seq<string>>)

  datatype Move =
    | CellMove(step: Step)
    | ChooseMove(identity: Identity, candidates: seq<Candidate>)

  predicate Received(acks: set<Ack>, identity: Identity, provider: string) {
    exists ack :: ack in acks && ack.identity == identity && ack.provider == provider
  }

  predicate Selects(decision: Option<T.Decision>) {
    decision.None? || decision.value.verdict != Some(T.NotSelected)
  }

  /** A requester chooses once, from acknowledgements that were sent to it, any of which it may have
      missed; and its request is selected only at providers it chose. Requests of anyone not listed
      are selected anywhere at any time. */
  predicate Allowed(required: map<Identity, seq<string>>, w: World, move: Move) {
    match move
    case CellMove(SelectStep(provider, identity, decision, _)) =>
      identity in required && Selects(decision) ==> identity in w.chosen && provider in w.chosen[identity]
    case CellMove(_) => true
    case ChooseMove(identity, candidates) =>
      && identity in required && identity !in w.chosen
      && forall c :: c in candidates && c.status ==> Received(w.acks, identity, c.provider)
  }

  function Acks(cell: Cell, step: Step): set<Ack> {
    if !step.AskStep? || !Enabled(cell, step) then {}
    else
      var p := cell.providers[step.provider];
      match Acknowledge(cell.centralized, cell.expected, p, step.ask, step.now).answer
      case PlainAck => {Ack(step.ask.identity, step.provider, false, p.Key())}
      case LeasedAck(_) => {Ack(step.ask.identity, step.provider, true, p.Key())}
      case _ => {}
  }

  function Moved(centralized: bool, required: map<Identity, seq<string>>, w: World, move: Move): World {
    if !Allowed(required, w, move) then w
    else match move
      case CellMove(step) => w.(steps := w.steps + [step], acks := w.acks + Acks(Run(Start(centralized), w.steps), step))
      case ChooseMove(identity, candidates) =>
        w.(chosen := w.chosen[identity := SelectProviders(required[identity], candidates)])
  }

  function Moves(centralized: bool, required: map<Identity, seq<string>>, moves: seq<Move>): World {
    if moves == [] then World([], {}, map[])
    else Moved(centralized, required, Moves(centralized, required, moves[..|moves| - 1]), moves[|moves| - 1])
  }

  /** A requester that has not chosen chooses, from acknowledgements it was sent, all it requires when each of them
      acknowledged with success, and nothing otherwise; any other choice is none. */
  lemma ChoosesExactly(centralized: bool, required: map<Identity, seq<string>>, w: World, identity: Identity, candidates: seq<Candidate>)
    ensures var next := Moved(centralized, required, w, ChooseMove(identity, candidates));
      if && identity in required && identity !in w.chosen
         && (forall c :: c in candidates && c.status ==> exists ack :: ack in w.acks && ack.identity == identity && ack.provider == c.provider)
      then next == w.(chosen := w.chosen[identity :=
             if forall r :: r in required[identity] ==> exists c :: c in candidates && c.provider == r && c.status then required[identity] else []])
      else next == w
  {
    forall r ensures Candidate(r, true) in candidates <==> exists c :: c in candidates && c.provider == r && c.status {
      if c :| c in candidates && c.provider == r && c.status {
        assert c == Candidate(r, true);
      }
    }
  }

  /** Every step of the cell is taken, with the acknowledgement it sends, but a selection of a requester's own request
      at a provider it has not chosen, by which it is meant to run. */
  lemma StepsExactly(centralized: bool, required: map<Identity, seq<string>>, w: World, step: Step)
    ensures var next := Moved(centralized, required, w, CellMove(step));
      if && step.SelectStep? && step.identity in required
         && (step.decision.Some? ==> step.decision.value.verdict != Some(T.NotSelected))
         && (step.identity in w.chosen ==> step.provider !in w.chosen[step.identity])
      then next == w
      else next.steps == w.steps + [step] && next.chosen == w.chosen && next.acks == w.acks + Acks(Run(Start(centralized), w.steps), step)
  {
    hide Acks; hide Run; hide Start;
  }

  // ----- what every run keeps -----

  ghost predicate AtChosen(chosen: seq<string>, key: A.Key) {
    exists provider, boot :: provider in chosen && key == ResourceKey(provider, boot)
  }

  ghost predicate ExecutedWhereChosen(required: map<Identity, seq<string>>, w: World, executed: seq<Executed>) {
    forall x :: x in executed && x.identity in required ==> x.identity in w.chosen && AtChosen(w.chosen[x.identity], x.key)
  }

  ghost predicate ChosenInFull(required: map<Identity, seq<string>>, w: World) {
    forall id :: id in w.chosen ==>
      && id in required
      && (w.chosen[id] == [] || w.chosen[id] == required[id])
      && forall r :: r in w.chosen[id] ==> Received(w.acks, id, r)
  }

  ghost predicate AckKept(w: World, admitted: seq<Admitted>, ack: Ack) {
    && (exists boot :: ack.key == ResourceKey(ack.provider, boot))
    && (ack.leased ==> exists a :: a in admitted && a.identity == ack.identity && a.key == ack.key)
    && (Negotiates(w.steps, ack.identity) ==> ack.leased)
  }

  ghost predicate WorldInv(centralized: bool, required: map<Identity, seq<string>>, w: World) {
    var cell := Run(Start(centralized), w.steps);
    ExecutedWhereChosen(required, w, cell.executed) && ChosenInFull(required, w) && forall ack :: ack in w.acks ==> AckKept(w, cell.admitted, ack)
  }

  lemma SelectingExecutes(p: Provider, identity: Identity, decision: Option<T.Decision>, now: int)
    ensures forall x :: x in Selecting(p, identity, decision, now).1 ==> x.identity == identity && x.key == p.Key() && Selects(decision)
  {
    hide R.CommitItem; hide R.ReleaseItem; hide ResourceKey;
  }

  lemma NextExecutes(cell: Cell, step: Step)
    requires forall name :: name in cell.providers ==> cell.providers[name].id == name
    ensures forall x :: x in Next(cell, step).executed && x !in cell.executed ==>
      && step.SelectStep? && x.identity == step.identity && Selects(step.decision)
      && exists boot :: x.key == ResourceKey(step.provider, boot)
  {
    hide Asking; hide Selecting; hide R.ReleaseItem; hide R.ExpireDue; hide CallOf; hide Sent; hide ResourceKey; hide Selects;
    if step.SelectStep? && Enabled(cell, step) {
      SelectingExecutes(cell.providers[step.provider], step.identity, step.decision, step.now);
    }
  }

  lemma NextAdmits(cell: Cell, step: Step)
    ensures forall a :: a in cell.admitted ==> a in Next(cell, step).admitted
    ensures forall ack :: ack in Acks(cell, step) ==>
      && step.AskStep? && ack.identity == step.ask.identity && step.provider in cell.providers && ack.provider == step.provider
      && ack.key == cell.providers[step.provider].Key()
      && (ack.leased ==> exists a :: a in Next(cell, step).admitted && a.identity == ack.identity && a.key == ack.key)
      && (step.ask.negotiation.reservation ==> ack.leased)
  {
    hide Selecting; hide R.ReleaseItem; hide R.ExpireDue; hide R.Reserve; hide CallOf; hide Sent; hide ResourceKey; hide Admits; hide Permitted;
    if step.AskStep? && Enabled(cell, step) {
      var p := cell.providers[step.provider];
      var ack := Acknowledge(cell.centralized, cell.expected, p, step.ask, step.now);
      if ack.answer.LeasedAck? {
        var a := Admitted(p.Key(), step.ask.identity, step.ask.envelope, step.now);
        assert a in Next(cell, step).admitted;
      }
    }
  }

  lemma OwnNames(centralized: bool, steps: seq<Step>)
    ensures forall name :: name in Run(Start(centralized), steps).providers ==> Run(Start(centralized), steps).providers[name].id == name
  {
    RunKeeps(centralized, steps);
    hide Run; hide AuthorityOk; hide AdmittedOk; hide ExecutedOk; hide ProviderOk;
  }

  lemma ReceivedMore(acks: set<Ack>, more: set<Ack>)
    ensures forall id, r :: Received(acks, id, r) ==> Received(acks + more, id, r)
  {
  }

  lemma StepAcks(w: World, t: World, cell: Cell, step: Step)
    requires (forall ack :: ack in w.acks ==> AckKept(w, cell.admitted, ack))
    requires forall name :: name in cell.providers ==> cell.providers[name].id == name
    requires t.steps == w.steps + [step] && t.acks == w.acks + Acks(cell, step)
    ensures forall ack :: ack in t.acks ==> AckKept(t, Next(cell, step).admitted, ack)
  {
    NextAdmits(cell, step);
    hide Next; hide Acks; hide ResourceKey;
    assert forall s :: s in w.steps ==> s in t.steps;
    assert step in t.steps;
    forall ack | ack in t.acks ensures AckKept(t, Next(cell, step).admitted, ack) {
      if ack in w.acks {
        assert AckKept(w, cell.admitted, ack);
      }
    }
  }

  lemma StepInv(centralized: bool, required: map<Identity, seq<string>>, w: World, step: Step)
    requires WorldInv(centralized, required, w) && Allowed(required, w, CellMove(step))
    ensures WorldInv(centralized, required, Moved(centralized, required, w, CellMove(step)))
  {
    var cell := Run(Start(centralized), w.steps);
    var t := Moved(centralized, required, w, CellMove(step));
    assert t.steps[..|t.steps| - 1] == w.steps;
    assert Run(Start(centralized), t.steps) == Next(cell, step);
    OwnNames(centralized, w.steps);
    NextExecutes(cell, step);
    hide Run; hide Next; hide Acks; hide ResourceKey; hide Start; hide Selects; hide AckKept;
    StepAcks(w, t, cell, step);
    ReceivedMore(w.acks, Acks(cell, step));
    hide Received;
    forall x | x in Next(cell, step).executed && x.identity in required ensures x.identity in t.chosen && AtChosen(t.chosen[x.identity], x.key) {
      if x in cell.executed {
        assert AtChosen(w.chosen[x.identity], x.key);
      }
    }
  }

  lemma ChooseInv(centralized: bool, required: map<Identity, seq<string>>, w: World, identity: Identity, candidates: seq<Candidate>)
    requires WorldInv(centralized, required, w) && Allowed(required, w, ChooseMove(identity, candidates))
    ensures WorldInv(centralized, required, Moved(centralized, required, w, ChooseMove(identity, candidates)))
  {
    hide Run; hide Start; hide Received; hide AckKept; hide AtChosen;
    var t := Moved(centralized, required, w, ChooseMove(identity, candidates));
    forall ack | ack in t.acks ensures AckKept(t, Run(Start(centralized), t.steps).admitted, ack) {
      AckElsewhere(w, t, Run(Start(centralized), t.steps).admitted, ack);
    }
    forall r | r in t.chosen[identity] ensures Received(t.acks, identity, r) {
      assert Candidate(r, true) in candidates;
    }
  }

  lemma AckElsewhere(w: World, t: World, admitted: seq<Admitted>, ack: Ack)
    requires AckKept(w, admitted, ack) && t.steps == w.steps
    ensures AckKept(t, admitted, ack)
  {
  }

  lemma {:induction false} MovesKeep(centralized: bool, required: map<Identity, seq<string>>, moves: seq<Move>)
    ensures WorldInv(centralized, required, Moves(centralized, required, moves))
  {
    if moves == [] {
      StartsUnexecuted(centralized);
      hide Start;
    } else {
      MovesKeep(centralized, required, moves[..|moves| - 1]);
      var w := Moves(centralized, required, moves[..|moves| - 1]);
      hide WorldInv; hide Moves;
      if Allowed(required, w, moves[|moves| - 1]) {
        match moves[|moves| - 1] {
          case CellMove(step) => StepInv(centralized, required, w, step);
          case ChooseMove(identity, candidates) => ChooseInv(centralized, required, w, identity, candidates);
        }
      }
    }
  }

  lemma StartsUnexecuted(centralized: bool)
    ensures Start(centralized).executed == [] && Run(Start(centralized), []) == Start(centralized)
  {
    hide Declarations; hide ResourceKey;
  }

  /** In every run, an execution of such a requester's request is at a provider the request requires,
      and then every provider it requires had acknowledged it: never at some of them only because the
      others refused. */
  lemma AllAcknowledgedOrNone(centralized: bool, required: map<Identity, seq<string>>, moves: seq<Move>, x: Executed)
    requires var w := Moves(centralized, required, moves);
      x in Run(Start(centralized), w.steps).executed && x.identity in required
    ensures var w := Moves(centralized, required, moves);
      && AtChosen(required[x.identity], x.key)
      && forall r :: r in required[x.identity] ==> Received(w.acks, x.identity, r)
  {
    MovesKeep(centralized, required, moves);
    hide Run; hide Moves; hide Received; hide AckKept; hide ResourceKey;
  }

  /** The provider was reserved for the request, gated by that permit. */
  ghost predicate ReservedUnder(cell: Cell, p: A.Permit, identity: Identity, provider: string) {
    exists a :: a in cell.admitted && a.identity == identity && a.key == ResourceKey(provider, FIRST_BOOT) && GatedBy(p, a)
  }

  /** In centralized mode such a request, always asked for with the reservation capability, executes
      anywhere only when one and the same permit of the expected authority gated its reservations at
      every provider it requires. */
  lemma OnePermitForAll(required: map<Identity, seq<string>>, moves: seq<Move>, x: Executed)
    requires var w := Moves(true, required, moves);
      x in Run(Start(true), w.steps).executed && x.identity in required && Negotiates(w.steps, x.identity)
    ensures var cell := Run(Start(true), Moves(true, required, moves).steps);
      exists p :: p in cell.authority.coordinator.permits && p.request.identity == x.identity
               && forall r :: r in required[x.identity] ==> ReservedUnder(cell, p, x.identity, r)
  {
    var w := Moves(true, required, moves);
    var cell := Run(Start(true), w.steps);
    MovesKeep(true, required, moves);
    AllAcknowledgedOrNone(true, required, moves, x);
    hide WorldInv; hide Moves; hide Run; hide ReservedUnder; hide Received; hide AtChosen;
    assert required[x.identity] != [] by { SomewhereChosen(required[x.identity], x.key); }
    var p := PermitAt(required, w, x.identity, required[x.identity][0]);
    forall r | r in required[x.identity] ensures ReservedUnder(cell, p, x.identity, r) {
      var q := PermitAt(required, w, x.identity, r);
      OnePermitPerRequest(w.steps, p, q);
    }
  }

  lemma SomewhereChosen(chosen: seq<string>, key: A.Key)
    requires AtChosen(chosen, key)
    ensures chosen != []
  {
  }

  lemma PermitAt(required: map<Identity, seq<string>>, w: World, identity: Identity, provider: string) returns (p: A.Permit)
    requires WorldInv(true, required, w) && Received(w.acks, identity, provider) && Negotiates(w.steps, identity)
    ensures p in Run(Start(true), w.steps).authority.coordinator.permits && p.request.identity == identity
    ensures ReservedUnder(Run(Start(true), w.steps), p, identity, provider)
  {
    var cell := Run(Start(true), w.steps);
    var ack :| ack in w.acks && ack.identity == identity && ack.provider == provider;
    hide Run; hide ResourceKey; hide ExecutedWhereChosen; hide ChosenInFull; hide Negotiates;
    assert AckKept(w, cell.admitted, ack);
    var a :| a in cell.admitted && a.identity == identity && a.key == ack.key;
    var boot :| ack.key == ResourceKey(provider, boot);
    EveryAdmissionGated(w.steps, a);
    p :| p in cell.authority.coordinator.permits && GatedBy(p, a);
    if boot != FIRST_BOOT {
      LaterBootsNeverAdmit(w.steps, provider, boot);
      assert false;
    }
  }

  lemma OnePermitPerRequest(steps: seq<Step>, p: A.Permit, q: A.Permit)
    requires var permits := Run(Start(true), steps).authority.coordinator.permits; p in permits && q in permits
    requires p.request.identity == q.request.identity
    ensures p == q
  {
    RunKeeps(true, steps);
    var c := Run(Start(true), steps).authority.coordinator;
    hide Run; hide ProvidersOk; hide AdmittedOk; hide ExecutedOk; hide AI.AllDeclared; hide AI.Exclusive; hide AI.Unaliased; hide AI.Tidy;
    var i :| 0 <= i < |c.permits| && c.permits[i] == p;
    var j :| 0 <= j < |c.permits| && c.permits[j] == q;
  }
}
