/** When a decision receipt, first or repeated, tells the truth about the reservation. */
module ReservationReceipts {
  import opened Outcomes
  import opened Requests
  import opened Reservations
  import L = ReservationLedger
  import opened ReservationTime

  // ----- what the ledger says of one request -----

  /** The kind of the last ledger event of the request, if it has any. */
  function LastKind(ledger: seq<Event>, identity: Identity): Option<Kind> {
    if ledger == [] then None
    else if ledger[|ledger| - 1].identity == identity then Some(ledger[|ledger| - 1].kind)
    else LastKind(ledger[..|ledger| - 1], identity)
  }

  ghost predicate Listed(items: seq<Item>, identity: Identity) {
    exists i :: 0 <= i < |items| && items[i].identity == identity
  }

  predicate StatusTold(item: Item, ledger: seq<Event>) {
    && (item.status.Tentative? <==> LastKind(ledger, item.identity) == Some(Acquire))
    && (item.status.Committed? <==> LastKind(ledger, item.identity) == Some(Commit))
  }

  /** The ledger tells each item's status, and of no request that the book does not list. */
  ghost predicate Told(book: Book) {
    && (forall i :: 0 <= i < |book.items| ==> StatusTold(book.items[i], book.ledger))
    && (forall identity :: LastKind(book.ledger, identity).Some? ==> Listed(book.items, identity))
  }

  lemma LastAppended(ledger: seq<Event>, event: Event)
    ensures forall identity ::
      LastKind(ledger + [event], identity) == if identity == event.identity then Some(event.kind) else LastKind(ledger, identity)
  {
    assert (ledger + [event])[..|ledger|] == ledger;
  }

  /** One item changed, and one event that says so. */
  lemma ChangeTold(book: Book, i: nat, item: Item, event: Event)
    requires Told(book) && L.Distinct(book.items) && i < |book.items|
    requires item.identity == book.items[i].identity == event.identity
    requires (item.status.Tentative? <==> event.kind.Acquire?) && (item.status.Committed? <==> event.kind.Commit?)
    ensures Told(book.(items := book.items[i := item], ledger := book.ledger + [event]))
  {
    LastAppended(book.ledger, event);
    hide LastKind;
    var items := book.items[i := item];
    forall identity | Listed(book.items, identity) ensures Listed(items, identity) {
      var k :| 0 <= k < |book.items| && book.items[k].identity == identity;
      assert items[k].identity == identity;
    }
    assert items[i].identity == event.identity;
    forall k | 0 <= k < |items| ensures StatusTold(items[k], book.ledger + [event]) {
      if k != i {
        assert StatusTold(book.items[k], book.ledger);
      }
    }
  }

  lemma AddedTold(book: Book, item: Item, event: Event)
    requires Told(book) && !Listed(book.items, item.identity)
    requires item.identity == event.identity && item.status.Tentative? && event.kind.Acquire?
    ensures Told(book.(items := book.items + [item], ledger := book.ledger + [event]))
  {
    LastAppended(book.ledger, event);
    hide LastKind;
    var items := book.items + [item];
    forall identity | Listed(book.items, identity) ensures Listed(items, identity) {
      var k :| 0 <= k < |book.items| && book.items[k].identity == identity;
      assert items[k].identity == identity;
    }
    assert items[|book.items|].identity == event.identity;
    forall k | 0 <= k < |items| ensures StatusTold(items[k], book.ledger + [event]) {
      if k < |book.items| {
        assert StatusTold(book.items[k], book.ledger);
      }
    }
  }

  lemma EndTold(book: Book, i: nat, kind: Kind, reason: string, at: int)
    requires Told(book) && L.Inv(book) && i < |book.items| && (kind.Release? || kind.Expire?)
    ensures Told(EndAt(book, i, kind, reason, at))
  {
    hide Told; hide L.Replay; hide L.PrefixesFit; hide Units;
    ChangeTold(book, i, Ended(book.items[i], reason, at), Logged(kind, book.items[i], at));
  }

  lemma {:induction false} ExpireTold(book: Book, now: int, k: nat)
    requires Told(book) && L.Inv(book) && k <= |book.items|
    ensures Told(ExpireTo(book, now, k))
  {
    hide Told; hide L.Inv; hide EndAt;
    if k > 0 {
      ExpireTold(book, now, k - 1);
      L.ExpireKeeps(book, now, k - 1);
      if Due(book.items[k - 1], now) {
        EndTold(ExpireTo(book, now, k - 1), k - 1, Expire, "LEASE_EXPIRED", now);
      }
    }
  }

  lemma ReleaseTold(book: Book, identity: Identity, reason: string, now: int)
    requires Told(book) && L.Inv(book)
    ensures Told(ReleaseItem(book, identity, reason, now).book)
  {
    hide Told; hide L.Inv; hide IndexOf; hide EndAt;
    if ReleaseItem(book, identity, reason, now).ok {
      EndTold(book, IndexOf(book.items, identity), Release, reason, now);
    }
  }

  lemma {:induction false} ShutdownTold(book: Book, k: nat)
    requires Told(book) && L.Inv(book) && k <= |book.items|
    ensures Told(ShutdownTo(book, k))
  {
    hide Told; hide L.Inv; hide ReleaseItem;
    if k > 0 {
      ShutdownTold(book, k - 1);
      L.ShutdownKeeps(book, k - 1);
      ReleaseTold(ShutdownTo(book, k - 1), book.items[k - 1].identity, "PROVIDER_SHUTDOWN", 0);
    }
  }

  lemma CommitTold(book: Book, identity: Identity, now: int)
    requires Told(book) && L.Inv(book)
    ensures Told(CommitItem(book, identity, now).book)
  {
    hide Told; hide L.Replay; hide L.PrefixesFit; hide Units; hide IndexOf;
    if CommitItem(book, identity, now).ok {
      var i := IndexOf(book.items, identity);
      var item := book.items[i].(status := Committed, committedUntil := now + book.limits.committedLease);
      ChangeTold(book, i, item, Logged(Commit, item, now));
    }
  }

  lemma PutTold(book: Book, item: Item, at: int)
    requires Told(book) && L.Inv(book) && item.status.Tentative?
    ensures Told(book.(items := Put(book.items, item), ledger := book.ledger + [Logged(Acquire, item, at)]))
  {
    hide Told; hide L.Replay; hide L.PrefixesFit; hide Units; hide IndexOf;
    var i := IndexOf(book.items, item.identity);
    if i < |book.items| {
      ChangeTold(book, i, item, Logged(Acquire, item, at));
    } else {
      AddedTold(book, item, Logged(Acquire, item, at));
    }
  }

  lemma ReserveTold(book: Book, ask: Ask, now: int)
    requires Told(book) && L.Inv(book)
    ensures Told(Reserve(book, ask, now).book)
  {
    hide Told; hide L.Inv; hide IndexOf; hide ExpireTo; hide Fits; hide Put;
    ExpireTold(book, now, |book.items|);
    L.ExpireKeeps(book, now, |book.items|);
    if ValidAsk(ask) {
      PutTold(ExpireDue(book, now), NewItem(book, ask, now), now);
    }
  }

  lemma ApplyTold(book: Book, op: Op)
    requires Told(book) && L.Inv(book)
    ensures Told(Apply(book, op)) && L.Inv(Apply(book, op))
  {
    hide Told; hide L.Inv; hide Reserve; hide CommitItem; hide ReleaseItem; hide ExpireTo; hide ShutdownTo;
    L.ApplyKeeps(book, op);
    match op {
      case ReserveOp(ask, now) => ReserveTold(book, ask, now);
      case CommitOp(identity, now) => CommitTold(book, identity, now);
      case ReleaseOp(identity, reason, now) => ReleaseTold(book, identity, reason, now);
      case ExpireOp(now) => ExpireTold(book, now, |book.items|);
      case ShutdownOp => ShutdownTold(book, |book.items|);
    }
  }

  /** A decision does to the book what a commit or a release does, or nothing. */
  lemma DecideTold(a: Authority, d: Decision, now: int, valid: bool)
    requires Told(a.book) && L.Inv(a.book)
    ensures Told(Decide(a, d, now, valid).authority.book) && L.Inv(Decide(a, d, now, valid).authority.book)
  {
    hide Told; hide L.Inv; hide CommitItem; hide ReleaseItem;
    ApplyTold(a.book, CommitOp(d.identity, now));
    ApplyTold(a.book, ReleaseOp(d.identity, "NOT_SELECTED", 0));
  }

  const NOBODY: map<Identity, (Verdict, string)> := map[]

  lemma {:induction false} RunTold(limits: Limits, steps: seq<Step>)
    requires ValidLimits(limits)
    ensures var book := TakeAll(Authority(EmptyBook(limits), NOBODY), steps).book; Told(book) && L.Inv(book)
  {
    if steps == [] {
      L.EmptyInv(limits);
    } else {
      var front, last := steps[..|steps| - 1], steps[|steps| - 1];
      RunTold(limits, front);
      var a := TakeAll(Authority(EmptyBook(limits), NOBODY), front);
      hide Told; hide L.Inv; hide Decide; hide Apply;
      match last {
        case BookStep(op) => ApplyTold(a.book, op);
        case DecideStep(d, now, valid) => DecideTold(a, d, now, valid);
      }
    }
  }

  // ----- receipts -----

  lemma TruthfulAsTold(book: Book, identity: Identity, verdict: Verdict)
    requires Told(book)
    ensures Truthful(book, identity, verdict) <==>
      match verdict
      case Selected => LastKind(book.ledger, identity) == Some(Commit)
      case NotSelected => LastKind(book.ledger, identity) !in {Some(Acquire), Some(Commit)}
  {
    hide LastKind;
    if Listed(book.items, identity) {
      var i :| 0 <= i < |book.items| && book.items[i].identity == identity;
      assert StatusTold(book.items[i], book.ledger);
    }
  }

  /** In every run, a receipt tells the truth exactly when the decision is the first on its request; or
      it selects, and the last the ledger has of the request is its commit: no release, no expiry and
      no new reservation since; or it refuses, and the last the ledger has of it is no reservation. */
  lemma ReceiptTruthfulExactly(limits: Limits, steps: seq<Step>, d: Decision, now: int, valid: bool)
    requires ValidLimits(limits)
    requires Decide(TakeAll(Authority(EmptyBook(limits), NOBODY), steps), d, now, valid).receipt.Ok?
    ensures var a := TakeAll(Authority(EmptyBook(limits), NOBODY), steps);
      Truthful(Decide(a, d, now, valid).authority.book, d.identity, d.verdict.value) <==>
        || d.identity !in a.accepted
        || (d.verdict == Some(Selected) && LastKind(a.book.ledger, d.identity) == Some(Commit))
        || (d.verdict == Some(NotSelected) && LastKind(a.book.ledger, d.identity) !in {Some(Acquire), Some(Commit)})
  {
    RunTold(limits, steps);
    var a := TakeAll(Authority(EmptyBook(limits), NOBODY), steps);
    hide TakeAll; hide Told; hide Truthful; hide LastKind;
    if d.identity !in a.accepted {
      hide L.Replay; hide L.PrefixesFit; hide Units;
      FirstReceiptTruthful(a, d, now, valid);
    } else {
      TruthfulAsTold(a.book, d.identity, d.verdict.value);
    }
  }

  /** A request once refused is never selected again, however often it is reserved afterwards. */
  lemma RefusedForGood(a: Authority, later: seq<Step>, identity: Identity, digest: string, now: int, valid: bool)
    requires identity in a.accepted && a.accepted[identity].0 == NotSelected
    ensures var b := TakeAll(a, later);
      Decide(b, Decision(identity, Some(Selected), digest), now, valid) == Outcome(b, Err(if valid then Conflicting else BadSignature))
  {
    hide TakeAll;
    FirstDecisionFinal(a, later, Decision(identity, Some(Selected), digest), now, valid);
  }

  // A reservation refused and then made again under the same identity.

  function RefusedThenReserved(digest: string): seq<Step> {
    [BookStep(ReserveOp(FirstAsk(), 0))] + [DecideStep(Decision(SOMEONE, Some(NotSelected), digest), 0, true)]
    + [BookStep(ReserveOp(FirstAsk(), 0))]
  }

  lemma RefusesOne(book: Book)
    requires book.items == [Tentatively()] && book.limits == CELL_LIMITS
    ensures ReleaseItem(book, SOMEONE, "NOT_SELECTED", 0).book.items == [Ended(Tentatively(), "NOT_SELECTED", 0)]
    ensures ReleaseItem(book, SOMEONE, "NOT_SELECTED", 0).book.limits == CELL_LIMITS
  {
    assert IndexOf(book.items, SOMEONE) == 0;
  }

  lemma ReservesAgain(book: Book)
    requires book.items == [Ended(Tentatively(), "NOT_SELECTED", 0)] && book.limits == CELL_LIMITS
    ensures Reserve(book, FirstAsk(), 0).book.items == [Tentatively()]
  {
    assert IndexOf(book.items, SOMEONE) == 0;
    assert ExpireTo(book, 0, 0) == book;
    assert ExpireDue(book, 0) == book;
    assert book.items[..0] == [];
    forall scope ensures Units(book.items, scope) == 0 {
      assert Units(book.items[..0], scope) == 0;
    }
    hide Units; hide ExpireTo;
  }

  /** The refusal repeated is answered as released although the new reservation is live, and no decision
      can ever select that one. */
  lemma RepeatedRefusalMisleads(digest: string, later: seq<Step>, other: string, now: int)
    ensures var a := TakeAll(Authority(EmptyBook(CELL_LIMITS), NOBODY), RefusedThenReserved(digest));
      && Decide(a, Decision(SOMEONE, Some(NotSelected), digest), 0, true) == Outcome(a, Ok(NotSelected))
      && !Truthful(a.book, SOMEONE, NotSelected)
      && Decide(TakeAll(a, later), Decision(SOMEONE, Some(Selected), other), now, true).receipt == Err(Conflicting)
  {
    hide Reserve; hide ReleaseItem; hide TakeAll;
    var start := Authority(EmptyBook(CELL_LIMITS), NOBODY);
    var refusal := DecideStep(Decision(SOMEONE, Some(NotSelected), digest), 0, true);
    var one := [BookStep(ReserveOp(FirstAsk(), 0))];
    TakeNothing(start);
    TakeStep(start, [], BookStep(ReserveOp(FirstAsk(), 0)));
    assert [] + one == one;
    TakeStep(start, one, refusal);
    TakeStep(start, one + [refusal], BookStep(ReserveOp(FirstAsk(), 0)));
    ReservesOne();
    RefusesOne(TakeAll(start, one).book);
    ReservesAgain(TakeAll(start, one + [refusal]).book);
    var a := TakeAll(start, RefusedThenReserved(digest));
    assert a.book.items[0] == Tentatively();
    RefusedForGood(a, later, SOMEONE, other, now, true);
  }
}
