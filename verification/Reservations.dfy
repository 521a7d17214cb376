/** A provider's reservation book and its ledger, as functions on values. */
module Reservations {
  import opened Outcomes
  import opened Requests

  datatype Limits = Limits(capacity: nat, perRequester: nat, perService: nat, maxLease: nat, committedLease: nat)

  /** What the book's constructor refuses to build without. */
  predicate ValidLimits(l: Limits) {
    l.capacity > 0 && l.perRequester > 0 && l.perService > 0 && l.maxLease > 0 && l.committedLease > 0
  }

  datatype Status = Tentative | Committed | Released

  datatype Item = Item(identity: Identity, service: string, units: nat, createdAt: int, tentativeUntil: int,
                       status: Status, committedUntil: int, resource: string, resourceSequence: int,
                       reason: string, releasedAt: int)
  {
    predicate Live() {
      !status.Released?
    }

    function Deadline(): int {
      if status.Committed? then committedUntil else tentativeUntil
    }
  }

  datatype Kind = Acquire | Commit | Release | Expire

  /** A ledger event; its sequence number is its position plus one. */
  datatype Event = Event(kind: Kind, identity: Identity, resource: string, units: nat, time: int)

  /** Items are listed in the order their identities were first reserved. The reservation number
      is a digest of provider, boot and identity, so within a book the identity stands for it. */
  datatype Book = Book(limits: Limits, items: seq<Item>, ledger: seq<Event>)

  datatype Error = Unauthorized | Invalid | Unpaired | QuotaExhausted | CannotCommit

  function EmptyBook(limits: Limits): Book {
    Book(limits, [], [])
  }

  function Logged(kind: Kind, item: Item, time: int): Event {
    Event(kind, item.identity, item.resource, item.units, time)
  }

  function IndexOf(items: seq<Item>, identity: Identity): (i: nat)
    ensures i <= |items|
    ensures i < |items| ==> items[i].identity == identity
    ensures i == |items| ==> forall k :: 0 <= k < |items| ==> items[k].identity != identity
  {
    if items == [] then 0
    else if items[0].identity == identity then 0
    else IndexOf(items[1..], identity) + 1
  }

  // ----- expiry -----

  predicate Due(item: Item, now: int) {
    item.Live() && now >= item.Deadline()
  }

  function Ended(item: Item, reason: string, at: int): Item {
    item.(status := Released, reason := reason, releasedAt := at)
  }

  /** The book after the first k items have been looked at. */
  function ExpireTo(book: Book, now: int, k: nat): (r: Book)
    requires k <= |book.items|
    ensures |r.items| == |book.items| && r.limits == book.limits
    ensures forall i :: k <= i < |r.items| ==> r.items[i] == book.items[i]
    ensures forall i :: 0 <= i < k ==>
      r.items[i] == if Due(book.items[i], now) then Ended(book.items[i], "LEASE_EXPIRED", now) else book.items[i]
  {
    if k == 0 then book
    else
      var before := ExpireTo(book, now, k - 1);
      var item := book.items[k - 1];
      if Due(item, now) then EndAt(before, k - 1, Expire, "LEASE_EXPIRED", now) else before
  }

  function ExpireDue(book: Book, now: int): Book {
    ExpireTo(book, now, |book.items|)
  }

  // ----- reserving -----

  datatype Ask = Ask(identity: Identity, service: string, units: int, lease: int, authorized: bool, signature: string,
                     resource: string, resourceSequence: int)

  /** What a quota counts: everything live, one requester's share, or one service's. */
  datatype Scope = Everything | OfRequester(requester: string) | OfService(service: string)

  predicate Counted(item: Item, scope: Scope) {
    item.Live() && match scope
                   case Everything => true
                   case OfRequester(requester) => item.identity.requester == requester
                   case OfService(service) => item.service == service
  }

  function Units(items: seq<Item>, scope: Scope): nat {
    if items == [] then 0
    else
      var last := items[|items| - 1];
      Units(items[..|items| - 1], scope) + if Counted(last, scope) then last.units else 0
  }

  function Quota(limits: Limits, scope: Scope): nat {
    match scope
    case Everything => limits.capacity
    case OfRequester(_) => limits.perRequester
    case OfService(_) => limits.perService
  }

  function Min(a: int, b: int): int {
    if a <= b then a else b
  }

  predicate ValidAsk(ask: Ask) {
    && ask.identity.requester != "" && ask.service != "" && ask.identity.requestId != "" && ask.identity.attempt > 0
    && ask.units > 0 && ask.lease > 0 && ask.signature != ""
  }

  function NewItem(book: Book, ask: Ask, now: int): Item
    requires ask.units > 0
  {
    Item(ask.identity, ask.service, ask.units, now, now + Min(ask.lease, book.limits.maxLease), Tentative, 0,
         ask.resource, ask.resourceSequence, "", 0)
  }

  /** The item takes its identity's place, or the next free one. */
  function Put(items: seq<Item>, item: Item): seq<Item> {
    var i := IndexOf(items, item.identity);
    if i < |items| then items[i := item] else items + [item]
  }

  predicate FitsIn(book: Book, ask: Ask, scope: Scope) {
    Units(book.items, scope) + ask.units <= Quota(book.limits, scope)
  }

  predicate Fits(book: Book, ask: Ask) {
    FitsIn(book, ask, Everything) && FitsIn(book, ask, OfRequester(ask.identity.requester))
    && FitsIn(book, ask, OfService(ask.service))
  }

  datatype Reserved = Reserved(book: Book, item: Result<Item, Error>)

  /** A tentative reservation still running is handed out again; otherwise, after expiry, the
      ask must fit beside everything live, and takes its identity's place in the book. */
  function Reserve(book: Book, ask: Ask, now: int): Reserved {
    if !ask.authorized then Reserved(book, Err(Unauthorized))
    else if !ValidAsk(ask) then Reserved(book, Err(Invalid))
    else if (ask.resource != "") != (ask.resourceSequence > 0) then Reserved(book, Err(Unpaired))
    else
      var i := IndexOf(book.items, ask.identity);
      if i < |book.items| && book.items[i].status.Tentative? && now < book.items[i].tentativeUntil then
        Reserved(book, Ok(book.items[i]))
      else
        var swept := ExpireDue(book, now);
        if !Fits(swept, ask) then Reserved(swept, Err(QuotaExhausted))
        else
          var item := NewItem(book, ask, now);
          Reserved(swept.(items := Put(swept.items, item), ledger := swept.ledger + [Logged(Acquire, item, now)]), Ok(item))
  }

  // ----- deciding -----

  /** The book once the item at i has ended. */
  function EndAt(book: Book, i: nat, kind: Kind, reason: string, at: int): Book
    requires i < |book.items|
  {
    book.(items := book.items[i := Ended(book.items[i], reason, at)],
          ledger := book.ledger + [Logged(kind, book.items[i], at)])
  }

  datatype Decided = Decided(book: Book, ok: bool)

  function CommitItem(book: Book, identity: Identity, now: int): Decided {
    var i := IndexOf(book.items, identity);
    if i == |book.items| || !book.items[i].status.Tentative? || now >= book.items[i].tentativeUntil then Decided(book, false)
    else
      var item := book.items[i].(status := Committed, committedUntil := now + book.limits.committedLease);
      Decided(book.(items := book.items[i := item], ledger := book.ledger + [Logged(Commit, item, now)]), true)
  }

  function ReleaseItem(book: Book, identity: Identity, reason: string, now: int): Decided {
    var i := IndexOf(book.items, identity);
    if i == |book.items| || !book.items[i].Live() then Decided(book, false)
    else Decided(EndAt(book, i, Release, reason, now), true)
  }

  /** Releases every live item in turn, at time zero as the source does. */
  function ShutdownTo(book: Book, k: nat): (r: Book)
    requires k <= |book.items|
    ensures |r.items| == |book.items|
  {
    if k == 0 then book
    else
      var before := ShutdownTo(book, k - 1);
      if book.items[k - 1].Live() then ReleaseItem(before, book.items[k - 1].identity, "PROVIDER_SHUTDOWN", 0).book
      else before
  }

  function Shutdown(book: Book): Book {
    ShutdownTo(book, |book.items|)
  }

  // ----- runs -----

  datatype Op =
    | ReserveOp(ask: Ask, now: int)
    | CommitOp(identity: Identity, now: int)
    | ReleaseOp(identity: Identity, reason: string, now: int)
    | ExpireOp(now: int)
    | ShutdownOp

  function Apply(book: Book, op: Op): Book {
    match op
    case ReserveOp(ask, now) => Reserve(book, ask, now).book
    case CommitOp(identity, now) => CommitItem(book, identity, now).book
    case ReleaseOp(identity, reason, now) => ReleaseItem(book, identity, reason, now).book
    case ExpireOp(now) => ExpireDue(book, now)
    case ShutdownOp => Shutdown(book)
  }

  function Run(book: Book, ops: seq<Op>): Book {
    if ops == [] then book else Apply(Run(book, ops[..|ops| - 1]), ops[|ops| - 1])
  }
}
