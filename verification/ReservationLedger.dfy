/** What every run of a reservation book keeps: quotas, and a ledger that tells what is held. */
module ReservationLedger {
  import opened Outcomes
  import opened Requests
  import opened Reservations

  // ----- reading the ledger -----

  datatype Slot = Slot(identity: Identity, units: nat, open: bool)

  function SlotIndex(slots: seq<Slot>, identity: Identity): (i: nat)
    ensures i <= |slots|
    ensures i < |slots| ==> slots[i].identity == identity
  {
    if slots == [] then 0
    else if slots[0].identity == identity then 0
    else SlotIndex(slots[1..], identity) + 1
  }

  function ReplayOne(slots: seq<Slot>, event: Event): seq<Slot> {
    var i := SlotIndex(slots, event.identity);
    match event.kind
    case Acquire =>
      if i < |slots| then slots[i := Slot(event.identity, event.units, true)]
      else slots + [Slot(event.identity, event.units, true)]
    case Commit => slots
    case Release => if i < |slots| then slots[i := slots[i].(open := false)] else slots
    case Expire => if i < |slots| then slots[i := slots[i].(open := false)] else slots
  }

  /** Who holds what, read off the ledger alone. */
  function Replay(ledger: seq<Event>): seq<Slot> {
    if ledger == [] then [] else ReplayOne(Replay(ledger[..|ledger| - 1]), ledger[|ledger| - 1])
  }

  function Project(items: seq<Item>): (slots: seq<Slot>)
    ensures |slots| == |items|
    ensures forall i :: 0 <= i < |items| ==> slots[i] == Slot(items[i].identity, items[i].units, items[i].Live())
  {
    seq(|items|, i requires 0 <= i < |items| => Slot(items[i].identity, items[i].units, items[i].Live()))
  }

  function OpenUnits(slots: seq<Slot>): nat {
    if slots == [] then 0
    else
      var last := slots[|slots| - 1];
      OpenUnits(slots[..|slots| - 1]) + if last.open then last.units else 0
  }

  lemma {:induction false} SlotIndexAgrees(items: seq<Item>, identity: Identity)
    ensures SlotIndex(Project(items), identity) == IndexOf(items, identity)
  {
    if items != [] && items[0].identity != identity {
      SlotIndexAgrees(items[1..], identity);
      assert Project(items)[1..] == Project(items[1..]);
    }
  }

  lemma {:induction false} OpenUnitsAgree(items: seq<Item>)
    ensures OpenUnits(Project(items)) == Units(items, Everything)
  {
    if items != [] {
      OpenUnitsAgree(items[..|items| - 1]);
      assert Project(items)[..|items| - 1] == Project(items[..|items| - 1]);
    }
  }

  // ----- the invariant -----

  ghost predicate Distinct(items: seq<Item>) {
    forall i, j :: 0 <= i < j < |items| ==> items[i].identity != items[j].identity
  }

  ghost predicate Positive(items: seq<Item>) {
    forall i :: 0 <= i < |items| ==> items[i].units > 0
  }

  ghost predicate WithinQuota(book: Book) {
    forall scope: Scope :: Units(book.items, scope) <= Quota(book.limits, scope)
  }

  /** At no point of the ledger was more than the capacity held. */
  ghost predicate PrefixesFit(ledger: seq<Event>, capacity: nat) {
    forall k :: 0 <= k <= |ledger| ==> OpenUnits(Replay(ledger[..k])) <= capacity
  }

  ghost predicate Inv(book: Book) {
    && ValidLimits(book.limits) && Distinct(book.items) && Positive(book.items)
    && WithinQuota(book)
    && Replay(book.ledger) == Project(book.items)
    && PrefixesFit(book.ledger, book.limits.capacity)
  }

  lemma {:induction false} UnitsUpdate(items: seq<Item>, i: nat, item: Item, scope: Scope)
    requires i < |items|
    ensures Units(items[i := item], scope) + (if Counted(items[i], scope) then items[i].units else 0)
         == Units(items, scope) + (if Counted(item, scope) then item.units else 0)
  {
    hide Counted;
    var n := |items| - 1;
    if i == n {
      assert items[i := item][..n] == items[..n];
    } else {
      UnitsUpdate(items[..n], i, item, scope);
      assert items[i := item][..n] == items[..n][i := item];
    }
  }

  lemma UnitsPut(items: seq<Item>, item: Item, scope: Scope)
    ensures Units(Put(items, item), scope) <= Units(items, scope) + (if Counted(item, scope) then item.units else 0)
  {
    hide Counted; hide IndexOf;
    var i := IndexOf(items, item.identity);
    if i < |items| {
      UnitsUpdate(items, i, item, scope);
    } else {
      assert (items + [item])[..|items|] == items;
    }
  }

  lemma PrefixesGrow(ledger: seq<Event>, event: Event, capacity: nat)
    requires PrefixesFit(ledger, capacity) && OpenUnits(Replay(ledger + [event])) <= capacity
    ensures PrefixesFit(ledger + [event], capacity)
  {
    hide Replay; hide OpenUnits;
    forall k | 0 <= k <= |ledger| + 1 ensures OpenUnits(Replay((ledger + [event])[..k])) <= capacity {
      if k <= |ledger| {
        assert (ledger + [event])[..k] == ledger[..k];
      } else {
        assert (ledger + [event])[..k] == ledger + [event];
      }
    }
  }

  lemma ReplayAppend(ledger: seq<Event>, event: Event)
    ensures Replay(ledger + [event]) == ReplayOne(Replay(ledger), event)
  {
    assert (ledger + [event])[..|ledger|] == ledger;
  }

  /** A step that logs one event and leaves items the event accounts for. */
  lemma StepKeeps(book: Book, items: seq<Item>, event: Event)
    requires Inv(book) && Distinct(items) && Positive(items)
    requires forall scope: Scope :: Units(items, scope) <= Quota(book.limits, scope)
    requires ReplayOne(Project(book.items), event) == Project(items)
    ensures Inv(book.(items := items, ledger := book.ledger + [event]))
  {
    hide ReplayOne; hide Distinct; hide Positive; hide ValidLimits; hide Project;
    ReplayAppend(book.ledger, event);
    OpenUnitsAgree(items);
    assert Units(items, Everything) <= Quota(book.limits, Everything);
    hide Replay; hide Units; hide OpenUnits;
    PrefixesGrow(book.ledger, event, book.limits.capacity);
    hide PrefixesFit;
  }

  lemma IndexIsOwn(items: seq<Item>, i: nat)
    requires Distinct(items) && i < |items|
    ensures IndexOf(items, items[i].identity) == i
  {
    hide IndexOf;
    var j := IndexOf(items, items[i].identity);
  }

  lemma EndKeeps(book: Book, i: nat, kind: Kind, reason: string, at: int)
    requires Inv(book) && i < |book.items| && (kind.Release? || kind.Expire?)
    ensures Inv(EndAt(book, i, kind, reason, at))
  {
    hide PrefixesFit; hide ValidLimits; hide Replay; hide IndexOf; hide SlotIndex; hide Units;
    var items := book.items[i := Ended(book.items[i], reason, at)];
    IndexIsOwn(book.items, i);
    SlotIndexAgrees(book.items, book.items[i].identity);
    forall scope: Scope ensures Units(items, scope) <= Quota(book.limits, scope) {
      UnitsUpdate(book.items, i, Ended(book.items[i], reason, at), scope);
    }
    assert ReplayOne(Project(book.items), Logged(kind, book.items[i], at)) == Project(items);
    StepKeeps(book, items, Logged(kind, book.items[i], at));
  }

  lemma {:induction false} ExpireKeeps(book: Book, now: int, k: nat)
    requires Inv(book) && k <= |book.items|
    ensures Inv(ExpireTo(book, now, k))
  {
    hide Inv; hide EndAt;
    if k > 0 {
      ExpireKeeps(book, now, k - 1);
      if Due(book.items[k - 1], now) {
        EndKeeps(ExpireTo(book, now, k - 1), k - 1, Expire, "LEASE_EXPIRED", now);
      }
    }
  }

  lemma {:induction false} ShutdownKeeps(book: Book, k: nat)
    requires Inv(book) && k <= |book.items|
    ensures Inv(ShutdownTo(book, k))
  {
    hide Inv; hide EndAt; hide IndexOf;
    if k > 0 {
      ShutdownKeeps(book, k - 1);
      var before := ShutdownTo(book, k - 1);
      var i := IndexOf(before.items, book.items[k - 1].identity);
      if i < |before.items| {
        EndKeeps(before, i, Release, "PROVIDER_SHUTDOWN", 0);
      }
    }
  }

  lemma CommitKeeps(book: Book, identity: Identity, now: int)
    requires Inv(book)
    ensures Inv(CommitItem(book, identity, now).book)
  {
    hide PrefixesFit; hide ValidLimits; hide Replay; hide IndexOf; hide SlotIndex; hide Units;
    if CommitItem(book, identity, now).ok {
      var i := IndexOf(book.items, identity);
      var item := book.items[i].(status := Committed, committedUntil := now + book.limits.committedLease);
      forall scope: Scope ensures Units(book.items[i := item], scope) <= Quota(book.limits, scope) {
        UnitsUpdate(book.items, i, item, scope);
      }
      assert Project(book.items[i := item]) == Project(book.items);
      StepKeeps(book, book.items[i := item], Logged(Commit, item, now));
    }
  }

  lemma PutProjects(items: seq<Item>, item: Item, event: Event)
    requires item.Live() && event.kind.Acquire? && event.identity == item.identity && event.units == item.units
    ensures ReplayOne(Project(items), event) == Project(Put(items, item))
  {
    hide IndexOf; hide SlotIndex;
    SlotIndexAgrees(items, item.identity);
  }

  lemma AcquireKeeps(book: Book, ask: Ask, now: int)
    requires Inv(book) && ValidAsk(ask) && Fits(book, ask)
    ensures Inv(book.(items := Put(book.items, NewItem(book, ask, now)),
                      ledger := book.ledger + [Logged(Acquire, NewItem(book, ask, now), now)]))
  {
    hide PrefixesFit; hide ValidLimits; hide Replay; hide IndexOf; hide Units; hide ReplayOne;
    var item := NewItem(book, ask, now);
    var items := Put(book.items, item);
    forall scope: Scope ensures Units(items, scope) <= Quota(book.limits, scope) {
      UnitsPut(book.items, item, scope);
    }
    PutProjects(book.items, item, Logged(Acquire, item, now));
    StepKeeps(book, items, Logged(Acquire, item, now));
  }

  lemma ReserveKeeps(book: Book, ask: Ask, now: int)
    requires Inv(book)
    ensures Inv(Reserve(book, ask, now).book)
  {
    hide Inv; hide Fits; hide Put; hide IndexOf; hide ExpireTo; hide ValidAsk;
    ExpireKeeps(book, now, |book.items|);
    var swept := ExpireDue(book, now);
    if ValidAsk(ask) && Fits(swept, ask) {
      ValidUnits(ask);
      AcquireKeeps(swept, ask, now);
    }
  }

  lemma ValidUnits(ask: Ask)
    requires ValidAsk(ask)
    ensures ask.units > 0
  {
  }

  lemma ApplyKeeps(book: Book, op: Op)
    requires Inv(book)
    ensures Inv(Apply(book, op))
    ensures Apply(book, op).limits == book.limits
  {
    hide Inv; hide Reserve; hide CommitItem; hide ExpireTo; hide ShutdownTo; hide EndAt; hide IndexOf;
    match op {
      case ReserveOp(ask, now) => ReserveKeeps(book, ask, now);
      case CommitOp(identity, now) => CommitKeeps(book, identity, now);
      case ReleaseOp(identity, reason, now) =>
        var i := IndexOf(book.items, identity);
        if i < |book.items| { EndKeeps(book, i, Release, reason, now); }
      case ExpireOp(now) => ExpireKeeps(book, now, |book.items|);
      case ShutdownOp => ShutdownKeeps(book, |book.items|);
    }
    LimitsStay(book, op);
  }

  lemma LimitsStay(book: Book, op: Op)
    ensures Apply(book, op).limits == book.limits
  {
    hide Fits; hide Put; hide NewItem; hide IndexOf; hide ValidAsk;
    if op.ShutdownOp? { ShutdownLimits(book, |book.items|); }
  }

  lemma {:induction false} ShutdownLimits(book: Book, k: nat)
    requires k <= |book.items|
    ensures ShutdownTo(book, k).limits == book.limits
  {
    hide IndexOf;
    if k > 0 { ShutdownLimits(book, k - 1); }
  }

  lemma EmptyInv(limits: Limits)
    requires ValidLimits(limits)
    ensures Inv(EmptyBook(limits))
  {
    assert forall k :: 0 <= k <= 0 ==> EmptyBook(limits).ledger[..k] == [];
  }

  /** In every run, whatever the clock does: every quota holds, the ledger read back gives
      exactly what is held, and at no point of the ledger was the capacity exceeded. */
  lemma {:induction false} RunKeeps(limits: Limits, ops: seq<Op>)
    requires ValidLimits(limits)
    ensures Inv(Run(EmptyBook(limits), ops)) && Run(EmptyBook(limits), ops).limits == limits
  {
    if ops == [] {
      EmptyInv(limits);
    } else {
      RunKeeps(limits, ops[..|ops| - 1]);
      hide Apply; hide Inv;
      ApplyKeeps(Run(EmptyBook(limits), ops[..|ops| - 1]), ops[|ops| - 1]);
    }
  }
}
