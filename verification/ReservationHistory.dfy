/** Reservations over a whole ledger: conservation, one holder at a time, and ownership intervals. */
module ReservationHistory {
  import opened Outcomes
  import opened Requests
  import opened Reservations
  import opened ReservationLedger

  // ----- counting -----

  function EventCount(ledger: seq<Event>, kind: Kind): nat {
    if ledger == [] then 0
    else EventCount(ledger[..|ledger| - 1], kind) + if ledger[|ledger| - 1].kind == kind then 1 else 0
  }

  function LiveCount(items: seq<Item>): nat {
    if items == [] then 0
    else LiveCount(items[..|items| - 1]) + if items[|items| - 1].Live() then 1 else 0
  }

  /** Every acquisition has been released, has expired, or is still held. */
  predicate Balanced(book: Book) {
    EventCount(book.ledger, Acquire)
    == EventCount(book.ledger, Release) + EventCount(book.ledger, Expire) + LiveCount(book.items)
  }

  // ----- one holder at a time -----

  datatype Phase = Free | Held(identity: Identity) | Broken

  function NextPhase(phase: Phase, event: Event): Phase {
    match event.kind
    case Acquire => if phase.Free? then Held(event.identity) else Broken
    case Commit => if phase == Held(event.identity) then phase else Broken
    case Release => if phase == Held(event.identity) then Free else Broken
    case Expire => if phase == Held(event.identity) then Free else Broken
  }

  /** Whether the ledger, read in order, hands the device from one holder to the next. */
  function PhaseOf(ledger: seq<Event>): Phase {
    if ledger == [] then Free else NextPhase(PhaseOf(ledger[..|ledger| - 1]), ledger[|ledger| - 1])
  }

  ghost predicate PhaseAgrees(phase: Phase, items: seq<Item>) {
    match phase
    case Free => forall i :: 0 <= i < |items| ==> !items[i].Live()
    case Held(identity) =>
      && (exists i :: 0 <= i < |items| && items[i].Live())
      && (forall i :: 0 <= i < |items| && items[i].Live() ==> items[i].identity == identity)
    case Broken => false
  }

  /** A single unit in all, or for each requester, is there to be had. */
  predicate Sole(limits: Limits) {
    limits.capacity == 1 || limits.perRequester == 1
  }

  ghost predicate Accounted(book: Book) {
    && (Sole(book.limits) ==> Balanced(book))
    && (book.limits.capacity == 1 ==> PhaseAgrees(PhaseOf(book.ledger), book.items))
  }

  // ----- steps -----

  lemma {:induction false} UnitsAtLeast(items: seq<Item>, i: nat, scope: Scope)
    requires i < |items| && Counted(items[i], scope)
    ensures Units(items, scope) >= items[i].units
  {
    if i < |items| - 1 {
      UnitsAtLeast(items[..|items| - 1], i, scope);
    }
  }

  lemma {:induction false} LiveCountUpdate(items: seq<Item>, i: nat, item: Item)
    requires i < |items|
    ensures LiveCount(items[i := item]) + (if items[i].Live() then 1 else 0) == LiveCount(items) + (if item.Live() then 1 else 0)
  {
    var n := |items| - 1;
    if i == n {
      assert items[i := item][..n] == items[..n];
    } else {
      LiveCountUpdate(items[..n], i, item);
      assert items[i := item][..n] == items[..n][i := item];
    }
  }

  lemma CountAppend(ledger: seq<Event>, event: Event)
    ensures forall kind: Kind :: EventCount(ledger + [event], kind) == EventCount(ledger, kind) + if event.kind == kind then 1 else 0
    ensures PhaseOf(ledger + [event]) == NextPhase(PhaseOf(ledger), event)
  {
    assert (ledger + [event])[..|ledger|] == ledger;
  }

  lemma EndAccounted(book: Book, i: nat, kind: Kind, reason: string, at: int)
    requires Inv(book) && Accounted(book) && i < |book.items| && book.items[i].Live() && (kind.Release? || kind.Expire?)
    ensures Accounted(EndAt(book, i, kind, reason, at))
  {
    CountAppend(book.ledger, Logged(kind, book.items[i], at));
    LiveCountUpdate(book.items, i, Ended(book.items[i], reason, at));
    hide EventCount; hide LiveCount; hide PhaseOf; hide Replay; hide Units; hide PrefixesFit;
    var next := EndAt(book, i, kind, reason, at);
    forall j | book.limits.capacity == 1 && 0 <= j < |next.items| ensures !next.items[j].Live() {
      if j != i {
        assert book.items[j].identity != book.items[i].identity;
      }
    }
  }

  lemma CommitAccounted(book: Book, identity: Identity, now: int)
    requires Inv(book) && Accounted(book)
    ensures Accounted(CommitItem(book, identity, now).book)
  {
    hide IndexOf;
    if CommitItem(book, identity, now).ok {
      var i := IndexOf(book.items, identity);
      var item := book.items[i].(status := Committed, committedUntil := now + book.limits.committedLease);
      CountAppend(book.ledger, Logged(Commit, item, now));
      LiveCountUpdate(book.items, i, item);
      hide EventCount; hide LiveCount; hide PhaseOf; hide Inv; hide PhaseAgrees;
      if book.limits.capacity == 1 {
        SamePhase(PhaseOf(book.ledger), book.items, i, item);
      }
    }
  }

  /** Who holds the one unit is not changed by an item that stays live. */
  lemma SamePhase(phase: Phase, items: seq<Item>, i: nat, item: Item)
    requires i < |items| && items[i].Live() && item.Live() && item.identity == items[i].identity
    requires PhaseAgrees(phase, items)
    ensures PhaseAgrees(phase, items[i := item]) && phase == Held(item.identity)
  {
    assert items[i := item][i].Live();
  }

  /** Where a single unit is to be had, nobody acquires over a live item of their own. */
  lemma AcquireFindsEnded(book: Book, ask: Ask)
    requires Inv(book) && ValidAsk(ask) && Fits(book, ask)
    ensures Sole(book.limits) ==>
      forall i :: 0 <= i < |book.items| && book.items[i].Live() ==> book.items[i].identity != ask.identity
    ensures book.limits.capacity == 1 ==> forall i :: 0 <= i < |book.items| ==> !book.items[i].Live()
  {
    hide Units; hide Replay; hide PrefixesFit;
    forall i | 0 <= i < |book.items| && book.items[i].Live()
      ensures Sole(book.limits) ==> book.items[i].identity != ask.identity
      ensures book.limits.capacity != 1
    {
      UnitsAtLeast(book.items, i, Everything);
      if book.items[i].identity == ask.identity {
        UnitsAtLeast(book.items, i, OfRequester(ask.identity.requester));
      }
    }
  }

  lemma AcquireAccounted(book: Book, ask: Ask, now: int)
    requires Inv(book) && Accounted(book) && ValidAsk(ask) && Fits(book, ask)
    ensures Accounted(book.(items := Put(book.items, NewItem(book, ask, now)),
                            ledger := book.ledger + [Logged(Acquire, NewItem(book, ask, now), now)]))
  {
    var item := NewItem(book, ask, now);
    AcquireFindsEnded(book, ask);
    CountAppend(book.ledger, Logged(Acquire, item, now));
    if Sole(book.limits) { PutLiveCount(book.items, item); }
    PutPhase(book.items, item);
    hide IndexOf; hide Inv; hide Fits; hide ValidAsk; hide EventCount; hide LiveCount; hide PhaseOf; hide Put; hide PhaseAgrees;
    if book.limits.capacity == 1 {
      QuietPhase(PhaseOf(book.ledger), book.items);
    }
  }

  lemma PutLiveCount(items: seq<Item>, item: Item)
    requires item.Live() && forall i :: 0 <= i < |items| && items[i].Live() ==> items[i].identity != item.identity
    ensures LiveCount(Put(items, item)) == LiveCount(items) + 1
  {
    hide IndexOf;
    var i := IndexOf(items, item.identity);
    if i < |items| {
      LiveCountUpdate(items, i, item);
    } else {
      assert (items + [item])[..|items|] == items;
    }
  }

  /** Put into a quiet book, an item is the one live item. */
  lemma PutPhase(items: seq<Item>, item: Item)
    requires item.Live()
    ensures (forall i :: 0 <= i < |items| ==> !items[i].Live()) ==> PhaseAgrees(Held(item.identity), Put(items, item))
  {
    hide IndexOf;
    var i := IndexOf(items, item.identity);
    assert Put(items, item)[i] == item;
  }

  lemma QuietPhase(phase: Phase, items: seq<Item>)
    requires PhaseAgrees(phase, items) && forall i :: 0 <= i < |items| ==> !items[i].Live()
    ensures phase.Free?
  {
  }

  lemma {:induction false} ExpireAccounted(book: Book, now: int, k: nat)
    requires Inv(book) && Accounted(book) && k <= |book.items|
    ensures Accounted(ExpireTo(book, now, k))
  {
    hide Inv; hide EndAt; hide Accounted;
    if k > 0 {
      ExpireAccounted(book, now, k - 1);
      ExpireKeeps(book, now, k - 1);
      if Due(book.items[k - 1], now) {
        EndAccounted(ExpireTo(book, now, k - 1), k - 1, Expire, "LEASE_EXPIRED", now);
      }
    }
  }

  lemma {:induction false} ShutdownAccounted(book: Book, k: nat)
    requires Inv(book) && Accounted(book) && k <= |book.items|
    ensures Accounted(ShutdownTo(book, k))
  {
    hide Inv; hide EndAt; hide IndexOf; hide Accounted;
    if k > 0 {
      ShutdownAccounted(book, k - 1);
      ShutdownKeeps(book, k - 1);
      var before := ShutdownTo(book, k - 1);
      var i := IndexOf(before.items, book.items[k - 1].identity);
      if i < |before.items| && before.items[i].Live() {
        EndAccounted(before, i, Release, "PROVIDER_SHUTDOWN", 0);
      }
    }
  }

  /** A shutdown ends everything live, and only ends things. */
  lemma {:induction false} ShutdownEndsAll(book: Book, k: nat)
    requires Inv(book) && k <= |book.items|
    ensures forall i :: 0 <= i < |book.items| ==>
      var next := ShutdownTo(book, k).items[i];
      next.identity == book.items[i].identity && (i < k ==> !next.Live()) && (i >= k ==> next == book.items[i])
  {
    if k > 0 {
      ShutdownEndsAll(book, k - 1);
      ShutdownKeeps(book, k - 1);
      var before := ShutdownTo(book, k - 1);
      IndexIsOwn(before.items, k - 1);
      hide IndexOf; hide Inv;
    }
  }

  lemma ReserveAccounted(book: Book, ask: Ask, now: int)
    requires Inv(book) && Accounted(book)
    ensures Accounted(Reserve(book, ask, now).book)
  {
    hide Inv; hide Fits; hide Put; hide IndexOf; hide ExpireTo; hide ValidAsk; hide Accounted;
    ExpireKeeps(book, now, |book.items|);
    ExpireAccounted(book, now, |book.items|);
    var swept := ExpireDue(book, now);
    if ValidAsk(ask) && Fits(swept, ask) {
      ValidUnits(ask);
      AcquireAccounted(swept, ask, now);
    }
  }

  lemma ApplyAccounted(book: Book, op: Op)
    requires Inv(book) && Accounted(book)
    ensures Accounted(Apply(book, op))
  {
    hide Inv; hide Accounted; hide Reserve; hide CommitItem; hide ExpireTo; hide ShutdownTo; hide EndAt; hide IndexOf;
    match op {
      case ReserveOp(ask, now) => ReserveAccounted(book, ask, now);
      case CommitOp(identity, now) => CommitAccounted(book, identity, now);
      case ReleaseOp(identity, reason, now) =>
        var i := IndexOf(book.items, identity);
        if i < |book.items| && book.items[i].Live() { EndAccounted(book, i, Release, reason, now); }
      case ExpireOp(now) => ExpireAccounted(book, now, |book.items|);
      case ShutdownOp => ShutdownAccounted(book, |book.items|);
    }
  }

  lemma {:induction false} RunAccounted(limits: Limits, ops: seq<Op>)
    requires ValidLimits(limits)
    ensures Accounted(Run(EmptyBook(limits), ops))
  {
    if ops != [] {
      hide Apply; hide Inv; hide Accounted;
      RunAccounted(limits, ops[..|ops| - 1]);
      RunKeeps(limits, ops[..|ops| - 1]);
      ApplyAccounted(Run(EmptyBook(limits), ops[..|ops| - 1]), ops[|ops| - 1]);
    }
  }

  // ----- when acquisitions are conserved -----

  function AskOf(service: string): Ask {
    Ask(Identity("/r", "q", 1), service, 1, 1, true, "sig", "", 0)
  }

  /** Acquire, commit, and acquire again under the same identity: the committed item is overwritten. */
  function Overwrite(): seq<Op> {
    [ReserveOp(AskOf("s"), 0)] + [CommitOp(Identity("/r", "q", 1), 0)] + [ReserveOp(AskOf("t"), 0)]
  }

  lemma RunStep(book: Book, ops: seq<Op>, op: Op)
    ensures Run(book, ops + [op]) == Apply(Run(book, ops), op)
  {
    assert (ops + [op])[..|ops|] == ops;
  }

  lemma ReservesFirst(limits: Limits)
    requires ValidLimits(limits)
    ensures var item := NewItem(EmptyBook(limits), AskOf("s"), 0);
      Apply(EmptyBook(limits), ReserveOp(AskOf("s"), 0)) == Book(limits, [item], [Logged(Acquire, item, 0)])
  {
  }

  lemma OverwriteUnbalanced(limits: Limits)
    requires ValidLimits(limits) && !Sole(limits)
    ensures !Balanced(Run(EmptyBook(limits), Overwrite()))
  {
    var empty := EmptyBook(limits);
    var identity := Identity("/r", "q", 1);
    var item := NewItem(empty, AskOf("s"), 0);
    var first := Book(limits, [item], [Logged(Acquire, item, 0)]);
    ReservesFirst(limits);
    assert IndexOf([item], identity) == 0;
    var held := item.(status := Committed, committedUntil := limits.committedLease);
    var second := Book(limits, [held], [Logged(Acquire, item, 0), Logged(Commit, held, 0)]);
    assert CommitItem(first, identity, 0).book == second;
    OverwriteAgain(limits, held, second);
    RunThree(limits, first, second);
  }

  lemma RunThree(limits: Limits, first: Book, second: Book)
    requires first == Apply(EmptyBook(limits), ReserveOp(AskOf("s"), 0))
    requires second == Apply(first, CommitOp(Identity("/r", "q", 1), 0))
    ensures Run(EmptyBook(limits), Overwrite()) == Apply(second, ReserveOp(AskOf("t"), 0))
  {
    hide Apply; hide Run;
    var empty := EmptyBook(limits);
    RunNone(empty);
    RunStep(empty, [], ReserveOp(AskOf("s"), 0));
    assert [] + [ReserveOp(AskOf("s"), 0)] == [ReserveOp(AskOf("s"), 0)];
    RunStep(empty, [ReserveOp(AskOf("s"), 0)], CommitOp(Identity("/r", "q", 1), 0));
    RunStep(empty, [ReserveOp(AskOf("s"), 0)] + [CommitOp(Identity("/r", "q", 1), 0)], ReserveOp(AskOf("t"), 0));
  }

  lemma RunNone(book: Book)
    ensures Run(book, []) == book
  {
  }

  lemma UnitsOfOne(item: Item, scope: Scope)
    ensures Units([item], scope) == if Counted(item, scope) then item.units else 0
  {
    hide Counted;
    assert [item][..0] == [];
    assert Units([item][..0], scope) == 0;
  }

  lemma OverwriteAgain(limits: Limits, held: Item, book: Book)
    requires ValidLimits(limits) && !Sole(limits)
    requires book.limits == limits && book.items == [held] && held.identity == Identity("/r", "q", 1) && held.service == "s"
    requires held.status.Committed? && held.units == 1 && held.committedUntil > 0
    requires |book.ledger| == 2 && book.ledger[0].kind.Acquire? && book.ledger[1].kind.Commit?
    ensures !Balanced(Apply(book, ReserveOp(AskOf("t"), 0)))
  {
    var ask := AskOf("t");
    var item := NewItem(book, ask, 0);
    ReservesOver(limits, held, book);
    hide Reserve; hide Sole;
    assert [item][..0] == [];
    assert LiveCount([item]) == LiveCount([]) + 1;
    var none: seq<Event> := [];
    CountAppend(none, book.ledger[0]);
    CountAppend(none + [book.ledger[0]], book.ledger[1]);
    CountAppend(book.ledger, Logged(Acquire, item, 0));
    hide LiveCount;
    assert book.ledger == none + [book.ledger[0]] + [book.ledger[1]];
  }

  lemma ReservesOver(limits: Limits, held: Item, book: Book)
    requires ValidLimits(limits) && !Sole(limits)
    requires book.limits == limits && book.items == [held] && held.identity == Identity("/r", "q", 1) && held.service == "s"
    requires held.status.Committed? && held.units == 1 && held.committedUntil > 0
    ensures var item := NewItem(book, AskOf("t"), 0);
      Reserve(book, AskOf("t"), 0).book == Book(limits, [item], book.ledger + [Logged(Acquire, item, 0)])
  {
    var ask := AskOf("t");
    assert IndexOf([held], ask.identity) == 0;
    assert ExpireTo(book, 0, 0) == book;
    assert ExpireDue(book, 0) == book;
    assert "s"[0] != "t"[0];
    UnitsOfOne(held, Everything);
    UnitsOfOne(held, OfRequester("/r"));
    UnitsOfOne(held, OfService("t"));
    hide Units; hide ExpireTo; hide IndexOf;
  }

  /** Acquisitions are conserved in every run exactly when a requester can hold but one unit:
      with more to be had, reserving again over a committed reservation drops it from the books. */
  lemma ConservedExactly(limits: Limits)
    requires ValidLimits(limits)
    ensures (forall ops :: Balanced(Run(EmptyBook(limits), ops))) <==> Sole(limits)
  {
    hide Balanced; hide Run; hide Accounted;
    if Sole(limits) {
      forall ops ensures Balanced(Run(EmptyBook(limits), ops)) {
        SoleBalanced(limits, ops);
      }
    } else {
      OverwriteUnbalanced(limits);
    }
  }

  lemma SoleBalanced(limits: Limits, ops: seq<Op>)
    requires ValidLimits(limits) && Sole(limits)
    ensures Balanced(Run(EmptyBook(limits), ops))
  {
    hide Balanced; hide Run;
    RunAccounted(limits, ops);
    RunKeeps(limits, ops);
  }

  // ----- ownership intervals -----

  /** From the sequence number that acquired to the one that gave up, if any yet. */
  datatype Interval = Interval(identity: Identity, start: nat, end: Option<nat>, startTime: int, endTime: Option<int>)

  datatype Derived = Derived(open: seq<Interval>, closed: seq<Interval>)

  function OpenIndex(open: seq<Interval>, identity: Identity): (i: nat)
    ensures i <= |open|
    ensures i < |open| ==> open[i].identity == identity
  {
    if open == [] then 0 else if open[0].identity == identity then 0 else OpenIndex(open[1..], identity) + 1
  }

  /** The ledger folded into closed intervals and those still open. */
  function Derive(ledger: seq<Event>): Derived {
    if ledger == [] then Derived([], [])
    else
      var before, event := Derive(ledger[..|ledger| - 1]), ledger[|ledger| - 1];
      var i := OpenIndex(before.open, event.identity);
      match event.kind
      case Acquire =>
        var begun := Interval(event.identity, |ledger|, None, event.time, None);
        before.(open := if i < |before.open| then before.open[i := begun] else before.open + [begun])
      case Commit => before
      case _ =>
        if i == |before.open| then before
        else
          var ended := before.open[i].(end := Some(|ledger|), endTime := Some(event.time));
          Derived(before.open[..i] + before.open[i + 1..], before.closed + [ended])
  }

  function Intervals(ledger: seq<Event>): seq<Interval> {
    Derive(ledger).closed + Derive(ledger).open
  }

  /** Each interval ends before the next one starts; only the last may be open. */
  predicate InTurn(intervals: seq<Interval>) {
    forall i, j :: 0 <= i < j < |intervals| ==>
      intervals[i].end.Some? && intervals[i].start < intervals[i].end.value < intervals[j].start
  }

  /** Closed intervals in turn, all before sequence number `before`. */
  predicate ClosedBefore(closed: seq<Interval>, before: nat) {
    && (forall k :: 0 <= k < |closed| ==> closed[k].end.Some? && closed[k].start < closed[k].end.value < before)
    && InTurn(closed)
  }

  ghost predicate DeriveAgrees(ledger: seq<Event>) {
    var d := Derive(ledger);
    match PhaseOf(ledger)
    case Free => d.open == [] && ClosedBefore(d.closed, |ledger| + 1)
    case Held(identity) =>
      && |d.open| == 1 && d.open[0].identity == identity && d.open[0].end.None? && d.open[0].start <= |ledger|
      && ClosedBefore(d.closed, d.open[0].start)
    case Broken => false
  }

  lemma AppendInTurn(closed: seq<Interval>, next: Interval)
    requires ClosedBefore(closed, next.start)
    ensures InTurn(closed + [next])
    ensures next.end.Some? && next.start < next.end.value ==> ClosedBefore(closed + [next], next.end.value + 1)
  {
  }

  lemma {:induction false} HandoverIntervals(ledger: seq<Event>)
    requires !PhaseOf(ledger).Broken?
    ensures DeriveAgrees(ledger)
  {
    if ledger != [] {
      HandoverIntervals(ledger[..|ledger| - 1]);
      HandoverStep(ledger);
    }
  }

  lemma {:induction false} HandoverStep(ledger: seq<Event>)
    requires ledger != [] && !PhaseOf(ledger).Broken? && DeriveAgrees(ledger[..|ledger| - 1])
    ensures DeriveAgrees(ledger)
  {
    var before, event := Derive(ledger[..|ledger| - 1]), ledger[|ledger| - 1];
    if event.kind.Release? || event.kind.Expire? {
      assert OpenIndex(before.open, event.identity) == 0;
      var ended := before.open[0].(end := Some(|ledger|), endTime := Some(event.time));
      AppendInTurn(before.closed, ended);
      assert before.open[..0] + before.open[1..] == [];
    }
    hide InTurn;
  }

  lemma HandoverInTurn(ledger: seq<Event>)
    requires !PhaseOf(ledger).Broken?
    ensures InTurn(Intervals(ledger))
  {
    hide Derive; hide PhaseOf;
    HandoverIntervals(ledger);
    var d := Derive(ledger);
    if d.open != [] {
      AppendInTurn(d.closed, d.open[0]);
      assert d.closed + d.open == d.closed + [d.open[0]];
    } else {
      assert d.closed + d.open == d.closed;
    }
  }

  /** With a capacity of one unit the ownership intervals of a provider boot follow one another:
      by ledger sequence they never overlap, in any run and whatever the clock does. */
  lemma OwnershipInTurn(limits: Limits, ops: seq<Op>)
    requires ValidLimits(limits) && limits.capacity == 1
    ensures InTurn(Intervals(Run(EmptyBook(limits), ops).ledger))
  {
    hide Run; hide PhaseOf; hide Derive; hide Inv;
    RunAccounted(limits, ops);
    RunKeeps(limits, ops);
    HandoverInTurn(Run(EmptyBook(limits), ops).ledger);
  }
}
