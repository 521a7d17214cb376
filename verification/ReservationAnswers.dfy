/** When each call to a reservation book succeeds, and what it then changes. */
module ReservationAnswers {
  import opened Outcomes
  import opened Requests
  import opened Reservations
  import L = ReservationLedger
  import T = ReservationTime

  // ----- room -----

  /** What an item takes of a quota once expiry has been looked at. */
  ghost function StillTaken(item: Item, now: int, scope: Scope): nat {
    if !item.status.Released? && now < item.Deadline()
       && (match scope
           case Everything => true
           case OfRequester(requester) => item.identity.requester == requester
           case OfService(service) => item.service == service)
    then item.units else 0
  }

  ghost function Taken(items: seq<Item>, now: int, scope: Scope): nat {
    if items == [] then 0 else Taken(items[..|items| - 1], now, scope) + StillTaken(items[|items| - 1], now, scope)
  }

  /** Capacity, the requester's share and the service's share all have room beside what is still held. */
  ghost predicate Room(book: Book, ask: Ask, now: int) {
    && Taken(book.items, now, Everything) + ask.units <= book.limits.capacity
    && Taken(book.items, now, OfRequester(ask.identity.requester)) + ask.units <= book.limits.perRequester
    && Taken(book.items, now, OfService(ask.service)) + ask.units <= book.limits.perService
  }

  lemma {:induction false} UnitsTaken(items: seq<Item>, swept: seq<Item>, now: int, scope: Scope)
    requires |swept| == |items|
    requires forall i :: 0 <= i < |items| ==>
      swept[i] == if !items[i].status.Released? && now >= items[i].Deadline() then Ended(items[i], "LEASE_EXPIRED", now) else items[i]
    ensures Units(swept, scope) == Taken(items, now, scope)
  {
    if items != [] {
      var n := |items| - 1;
      UnitsTaken(items[..n], swept[..n], now, scope);
    }
  }

  lemma FitsExactly(book: Book, ask: Ask, now: int)
    ensures Fits(ExpireDue(book, now), ask) <==> Room(book, ask, now)
  {
    var swept := ExpireDue(book, now);
    UnitsTaken(book.items, swept.items, now, Everything);
    UnitsTaken(book.items, swept.items, now, OfRequester(ask.identity.requester));
    UnitsTaken(book.items, swept.items, now, OfService(ask.service));
    hide ExpireTo; hide Units; hide Taken;
  }

  // ----- reserving -----

  /** The ask is signed, names a requester, a service and a request, and asks for units and time. */
  predicate Complete(ask: Ask) {
    && ask.identity.requester != "" && ask.service != "" && ask.identity.requestId != "" && ask.identity.attempt > 0
    && ask.units > 0 && ask.lease > 0 && ask.signature != ""
  }

  /** It is authorized and complete, and gives a resource and its sequence together or not at all. */
  predicate WellAsked(ask: Ask) {
    ask.authorized && Complete(ask) && (ask.resource != "" <==> ask.resourceSequence > 0)
  }

  /** A tentative item of the request that still runs. */
  predicate RunningFor(item: Item, identity: Identity, now: int) {
    item.identity == identity && item.status.Tentative? && now < item.tentativeUntil
  }

  ghost predicate Running(book: Book, identity: Identity, now: int) {
    exists i :: 0 <= i < |book.items| && RunningFor(book.items[i], identity, now)
  }

  /** A reservation is had exactly by a well-formed, authorized ask whose request holds one that still runs, or
      for which there is room; an ask that is not well-formed or authorized leaves the book alone. */
  lemma ReserveExactly(book: Book, ask: Ask, now: int)
    requires L.Distinct(book.items)
    ensures var r := Reserve(book, ask, now);
      && (r.item.Ok? <==> WellAsked(ask) && (Running(book, ask.identity, now) || Room(book, ask, now)))
      && (!WellAsked(ask) ==> r.book == book)
      && (r.item == Err(Unauthorized) <==> !ask.authorized)
      && (r.item == Err(QuotaExhausted) <==> WellAsked(ask) && !Running(book, ask.identity, now) && !Room(book, ask, now))
      && (r.item == Err(QuotaExhausted) ==> r.book == ExpireDue(book, now))
      && (r.item == Err(Invalid) <==> ask.authorized && !Complete(ask))
  {
    FitsExactly(book, ask, now);
    hide ExpireTo; hide Fits; hide Room; hide IndexOf;
    var i := IndexOf(book.items, ask.identity);
    if k :| 0 <= k < |book.items| && RunningFor(book.items[k], ask.identity, now) {
      assert k == i;
    }
  }

  /** The new item as it was asked for, for no longer than the book allows. */
  ghost predicate MadeFor(item: Item, ask: Ask, now: int, limits: Limits) {
    && item.identity == ask.identity && item.service == ask.service && item.units == ask.units
    && item.status.Tentative? && item.createdAt == now && item.resource == ask.resource && item.resourceSequence == ask.resourceSequence
    && item.tentativeUntil <= now + ask.lease && item.tentativeUntil <= now + limits.maxLease
    && (item.tentativeUntil == now + ask.lease || item.tentativeUntil == now + limits.maxLease)
  }

  /** One that still runs is handed out again and nothing changes. A new one takes the place of the request's
      earlier item, or the next free place, beside what expiry leaves, with one ledger event. */
  lemma ReservedExactly(book: Book, ask: Ask, now: int)
    requires L.Distinct(book.items) && Reserve(book, ask, now).item.Ok?
    ensures var r := Reserve(book, ask, now);
      var swept := ExpireDue(book, now);
      && (Running(book, ask.identity, now) ==> r.book == book && RunningFor(r.item.value, ask.identity, now) && r.item.value in book.items)
      && (!Running(book, ask.identity, now) ==>
            && MadeFor(r.item.value, ask, now, book.limits)
            && r.book.ledger == swept.ledger + [Event(Acquire, ask.identity, ask.resource, r.item.value.units, now)]
            && r.book.limits == book.limits
            && |r.book.items| >= |book.items|
            && (forall i :: 0 <= i < |book.items| ==>
                  r.book.items[i] == if book.items[i].identity == ask.identity then r.item.value else swept.items[i])
            && ((exists i :: 0 <= i < |book.items| && book.items[i].identity == ask.identity) ==> |r.book.items| == |book.items|)
            && ((forall i :: 0 <= i < |book.items| ==> book.items[i].identity != ask.identity) ==> r.book.items == swept.items + [r.item.value]))
  {
    hide Fits; hide IndexOf;
    var i := IndexOf(book.items, ask.identity);
    var swept := ExpireDue(book, now);
    assert |swept.items| == |book.items| && swept.limits == book.limits;
    assert forall k :: 0 <= k < |book.items| ==> swept.items[k].identity == book.items[k].identity;
    hide ExpireTo;
    if i < |book.items| && RunningFor(book.items[i], ask.identity, now) {
      assert book.items[i] in book.items;
    }
    if k :| 0 <= k < |book.items| && RunningFor(book.items[k], ask.identity, now) {
      assert k == i;
    }
  }

  // ----- committing and releasing -----

  /** A commit goes through exactly for a tentative item that still runs, which is then committed for the
      committed lease; nothing else changes. */
  lemma CommitExactly(book: Book, identity: Identity, now: int)
    requires L.Distinct(book.items)
    ensures var done := CommitItem(book, identity, now);
      && (done.ok <==> Running(book, identity, now))
      && (!done.ok ==> done.book == book)
      && (done.ok ==>
            && done.book.limits == book.limits && |done.book.items| == |book.items|
            && (forall i :: 0 <= i < |book.items| ==>
                  done.book.items[i] == if book.items[i].identity == identity
                                        then book.items[i].(status := Committed, committedUntil := now + book.limits.committedLease)
                                        else book.items[i])
            && |done.book.ledger| == |book.ledger| + 1 && done.book.ledger[..|book.ledger|] == book.ledger
            && done.book.ledger[|book.ledger|].kind.Commit? && done.book.ledger[|book.ledger|].identity == identity
            && done.book.ledger[|book.ledger|].time == now)
  {
    hide IndexOf;
    var i := IndexOf(book.items, identity);
    if i < |book.items| && book.items[i].status.Tentative? && now < book.items[i].tentativeUntil {
      assert RunningFor(book.items[i], identity, now);
    }
    if k :| 0 <= k < |book.items| && RunningFor(book.items[k], identity, now) {
      assert k == i;
    }
  }

  /** A release ends the request's item, exactly when it is live, with the reason and time given. */
  lemma ReleaseExactly(book: Book, identity: Identity, reason: string, now: int)
    requires L.Distinct(book.items)
    ensures var done := ReleaseItem(book, identity, reason, now);
      && (done.ok <==> exists i :: 0 <= i < |book.items| && book.items[i].identity == identity && !book.items[i].status.Released?)
      && (!done.ok ==> done.book == book)
      && (done.ok ==>
            && done.book.limits == book.limits && |done.book.items| == |book.items|
            && (forall i :: 0 <= i < |book.items| ==>
                  done.book.items[i] == if book.items[i].identity == identity
                                        then book.items[i].(status := Released, reason := reason, releasedAt := now) else book.items[i])
            && |done.book.ledger| == |book.ledger| + 1 && done.book.ledger[..|book.ledger|] == book.ledger
            && done.book.ledger[|book.ledger|].kind.Release? && done.book.ledger[|book.ledger|].identity == identity
            && done.book.ledger[|book.ledger|].time == now)
  {
    hide IndexOf;
  }

  // ----- deciding -----

  /** A decision is accepted exactly when it is signed, says one of the two values, repeats what was accepted of
      its request if anything was, and, selecting anew, finds a tentative item that still runs. */
  lemma DecideExactly(a: T.Authority, d: T.Decision, now: int, valid: bool)
    requires L.Distinct(a.book.items)
    ensures var o := T.Decide(a, d, now, valid);
      && (o.receipt.Ok? <==>
            && valid && d.verdict.Some?
            && (d.identity in a.accepted ==> a.accepted[d.identity] == (d.verdict.value, d.digest))
            && (d.identity !in a.accepted && d.verdict.value.Selected? ==> Running(a.book, d.identity, now)))
      && (o.receipt.Ok? ==> o.receipt.value == d.verdict.value)
      && (o.receipt.Err? || d.identity in a.accepted ==> o.authority == a)
      && (o.receipt.Ok? && d.identity !in a.accepted ==>
            && o.authority.accepted == a.accepted[d.identity := (d.verdict.value, d.digest)]
            && o.authority.book == if d.verdict.value.Selected? then CommitItem(a.book, d.identity, now).book
                                   else ReleaseItem(a.book, d.identity, "NOT_SELECTED", 0).book)
  {
    CommitExactly(a.book, d.identity, now);
    hide CommitItem; hide ReleaseItem;
  }
}
