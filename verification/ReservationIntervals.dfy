/** Ownership intervals by the times stamped on them. */
module ReservationIntervals {
  import opened Outcomes
  import opened Requests
  import opened Reservations
  import RL = ReservationLedger
  import opened ReservationHistory
  import T = ReservationTime

  /** No interval ends before it starts, and each ends by the time the next one starts. */
  ghost predicate InTurnByTime(intervals: seq<Interval>) {
    && (forall i :: 0 <= i < |intervals| && intervals[i].endTime.Some? ==> intervals[i].startTime <= intervals[i].endTime.value)
    && (forall i, j :: 0 <= i < j < |intervals| ==>
          intervals[i].endTime.Some? && intervals[i].endTime.value <= intervals[j].startTime)
  }

  /** The stamp of the last event that took or gave up the device. */
  function LastStamp(ledger: seq<Event>): Option<int> {
    if ledger == [] then None
    else if !ledger[|ledger| - 1].kind.Commit? then Some(ledger[|ledger| - 1].time)
    else LastStamp(ledger[..|ledger| - 1])
  }

  predicate NoEarlier(ledger: seq<Event>, t: int) {
    LastStamp(ledger).Some? ==> LastStamp(ledger).value <= t
  }

  /** Each acquisition, release and expiry is stamped no earlier than the one before it. */
  predicate Stamped(ledger: seq<Event>) {
    ledger == []
    || (Stamped(ledger[..|ledger| - 1]) && (ledger[|ledger| - 1].kind.Commit? || NoEarlier(ledger[..|ledger| - 1], ledger[|ledger| - 1].time)))
  }

  // ----- which intervals a ledger has, request by request -----

  /** Where the request last took the device, unless it has given it up since. */
  function Held(ledger: seq<Event>, identity: Identity): (at: Option<nat>)
    ensures at.Some? ==> at.value < |ledger|
  {
    if ledger == [] then None
    else
      var last := ledger[|ledger| - 1];
      if last.identity != identity || last.kind.Commit? then Held(ledger[..|ledger| - 1], identity)
      else if last.kind.Acquire? then Some(|ledger| - 1)
      else None
  }

  /** One open interval for each request that holds the device, from where it last took it. */
  ghost predicate OpenAgrees(ledger: seq<Event>) {
    var open := Derive(ledger).open;
    && (forall i, j :: 0 <= i < j < |open| ==> open[i].identity != open[j].identity)
    && (forall i :: 0 <= i < |open| ==> StillOpen(ledger, open[i]))
    && (forall identity :: Held(ledger, identity).Some? ==> Lists(open, identity))
  }

  ghost predicate StillOpen(ledger: seq<Event>, interval: Interval) {
    Held(ledger, interval.identity).Some? && interval == Begun(ledger, interval.identity)
  }

  ghost predicate Lists(open: seq<Interval>, identity: Identity) {
    exists i :: 0 <= i < |open| && open[i].identity == identity
  }

  function Begun(ledger: seq<Event>, identity: Identity): Interval
    requires Held(ledger, identity).Some?
  {
    var at := Held(ledger, identity).value;
    Interval(identity, at + 1, None, ledger[at].time, None)
  }

  lemma {:induction false} OpenIndexFirst(open: seq<Interval>, identity: Identity)
    ensures OpenIndex(open, identity) == |open| ==> forall i :: 0 <= i < |open| ==> open[i].identity != identity
  {
    if open != [] && open[0].identity != identity {
      OpenIndexFirst(open[1..], identity);
      assert forall i :: 0 < i < |open| ==> open[i] == open[1..][i - 1];
    }
  }

  lemma HeldNext(ledger: seq<Event>, event: Event, identity: Identity)
    ensures Held(ledger + [event], identity) ==
      if identity != event.identity || event.kind.Commit? then Held(ledger, identity)
      else if event.kind.Acquire? then Some(|ledger|) else None
    ensures Held(ledger + [event], identity).Some? && Held(ledger + [event], identity) == Held(ledger, identity) ==>
      Begun(ledger + [event], identity) == Begun(ledger, identity)
  {
    assert (ledger + [event])[..|ledger|] == ledger;
  }

  /** An event that gives up what its request holds closes the interval since it took it; no other event closes one,
      whatever the other requests do. */
  lemma {:induction false} IntervalsExactly(ledger: seq<Event>, event: Event)
    ensures OpenAgrees(ledger)
    ensures Derive(ledger + [event]).closed == Derive(ledger).closed +
      if (event.kind.Release? || event.kind.Expire?) && Held(ledger, event.identity).Some?
      then [Begun(ledger, event.identity).(end := Some(|ledger| + 1), endTime := Some(event.time))] else []
    decreases |ledger|
  {
    if ledger != [] {
      var front, last := ledger[..|ledger| - 1], ledger[|ledger| - 1];
      assert ledger == front + [last];
      IntervalsExactly(front, last);
      OpenNext(front, last);
    }
    ClosesNext(ledger, event);
  }

  lemma ClosesNext(ledger: seq<Event>, event: Event)
    requires OpenAgrees(ledger)
    ensures Derive(ledger + [event]).closed == Derive(ledger).closed +
      if (event.kind.Release? || event.kind.Expire?) && Held(ledger, event.identity).Some?
      then [Begun(ledger, event.identity).(end := Some(|ledger| + 1), endTime := Some(event.time))] else []
  {
    assert (ledger + [event])[..|ledger|] == ledger;
    var d := Derive(ledger);
    OpenIndexFirst(d.open, event.identity);
    hide OpenIndex; hide Held;
    assert d.closed + [] == d.closed;
  }

  /** What another request holds open stays so. */
  lemma StaysOpen(ledger: seq<Event>, event: Event, interval: Interval)
    requires event.kind.Commit? || interval.identity != event.identity
    ensures StillOpen(ledger + [event], interval) <==> StillOpen(ledger, interval)
  {
    HeldNext(ledger, event, interval.identity);
    hide Held;
  }

  lemma TakeOpens(ledger: seq<Event>, event: Event, open: seq<Interval>, next: seq<Interval>, i: nat)
    requires event.kind.Acquire? && i <= |open|
    requires next == if i < |open| then open[i := Begins(ledger, event)] else open + [Begins(ledger, event)]
    requires i < |open| ==> open[i].identity == event.identity
    requires i == |open| ==> !Lists(open, event.identity)
    requires forall a, b :: 0 <= a < b < |open| ==> open[a].identity != open[b].identity
    requires forall k :: 0 <= k < |open| ==> StillOpen(ledger, open[k])
    ensures forall a, b :: 0 <= a < b < |next| ==> next[a].identity != next[b].identity
    ensures forall k :: 0 <= k < |next| ==> StillOpen(ledger + [event], next[k])
    ensures forall identity :: identity == event.identity || Lists(open, identity) ==> Lists(next, identity)
  {
    HeldNext(ledger, event, event.identity);
    forall k | 0 <= k < |open| && open[k].identity != event.identity ensures StillOpen(ledger + [event], open[k]) {
      StaysOpen(ledger, event, open[k]);
    }
    assert StillOpen(ledger + [event], Begins(ledger, event));
    hide Held; hide StillOpen;
    assert next[i].identity == event.identity;
    forall identity | Lists(open, identity) ensures Lists(next, identity) {
      var k :| 0 <= k < |open| && open[k].identity == identity;
      assert next[k].identity == identity;
    }
  }

  function Begins(ledger: seq<Event>, event: Event): Interval {
    Interval(event.identity, |ledger| + 1, None, event.time, None)
  }

  lemma GiveUpCloses(ledger: seq<Event>, event: Event, open: seq<Interval>, i: nat)
    requires (event.kind.Release? || event.kind.Expire?) && i < |open| && open[i].identity == event.identity
    requires forall a, b :: 0 <= a < b < |open| ==> open[a].identity != open[b].identity
    requires forall k :: 0 <= k < |open| ==> StillOpen(ledger, open[k])
    ensures var next := open[..i] + open[i + 1..];
      && (forall a, b :: 0 <= a < b < |next| ==> next[a].identity != next[b].identity)
      && (forall k :: 0 <= k < |next| ==> StillOpen(ledger + [event], next[k]))
      && (forall identity :: identity != event.identity && Lists(open, identity) ==> Lists(next, identity))
  {
    var next := open[..i] + open[i + 1..];
    forall k | 0 <= k < |next| ensures next[k] == open[if k < i then k else k + 1] {}
    forall k | 0 <= k < |open| && k != i ensures StillOpen(ledger + [event], open[k]) {
      assert open[k].identity != event.identity by { assert k < i || i < k; }
      StaysOpen(ledger, event, open[k]);
    }
    hide StillOpen;
    forall identity | identity != event.identity && Lists(open, identity) ensures Lists(next, identity) {
      var k :| 0 <= k < |open| && open[k].identity == identity;
      assert next[if k < i then k else k - 1] == open[k];
    }
  }

  lemma OpenNext(ledger: seq<Event>, event: Event)
    requires OpenAgrees(ledger)
    ensures OpenAgrees(ledger + [event])
  {
    assert (ledger + [event])[..|ledger|] == ledger;
    var open, next := Derive(ledger).open, Derive(ledger + [event]).open;
    OpenIndexFirst(open, event.identity);
    var i := OpenIndex(open, event.identity);
    forall identity
      ensures Held(ledger + [event], identity) ==
        if identity != event.identity || event.kind.Commit? then Held(ledger, identity)
        else if event.kind.Acquire? then Some(|ledger|) else None
    {
      HeldNext(ledger, event, identity);
    }
    if event.kind.Acquire? {
      assert next == if i < |open| then open[i := Begins(ledger, event)] else open + [Begins(ledger, event)];
      hide Derive; hide OpenIndex; hide Held;
      TakeOpens(ledger, event, open, next, i);
    } else if event.kind.Commit? || i == |open| {
      assert next == open;
      hide Derive; hide OpenIndex; hide Held;
      forall k | 0 <= k < |open| ensures StillOpen(ledger + [event], open[k]) {
        StaysOpen(ledger, event, open[k]);
      }
    } else {
      assert next == open[..i] + open[i + 1..];
      hide Derive; hide OpenIndex; hide Held;
      GiveUpCloses(ledger, event, open, i);
    }
    hide StillOpen; hide Lists;
  }

  // ----- what the intervals of a handed-over device say -----

  ghost predicate StampsAgree(ledger: seq<Event>) {
    var d := Derive(ledger);
    && (forall k :: 0 <= k < |d.closed| ==> d.closed[k].endTime.Some?)
    && (if d.open == [] then
          (d.closed == [] && LastStamp(ledger).None?)
          || (d.closed != [] && LastStamp(ledger) == d.closed[|d.closed| - 1].endTime)
        else |d.open| == 1 && d.open[0].endTime.None? && LastStamp(ledger) == Some(d.open[0].startTime))
    && (InTurnByTime(d.closed + d.open) <==> Stamped(ledger))
  }

  lemma BeginByTime(closed: seq<Interval>, begun: Interval)
    requires (forall k :: 0 <= k < |closed| ==> closed[k].endTime.Some?) && begun.endTime.None?
    ensures InTurnByTime(closed + [begun]) <==>
      InTurnByTime(closed) && (closed != [] ==> closed[|closed| - 1].endTime.value <= begun.startTime)
  {
    var all := closed + [begun];
    if InTurnByTime(all) {
      forall i | 0 <= i < |closed| ensures all[i] == closed[i] {}
      assert closed != [] ==> all[|closed| - 1].endTime.value <= all[|closed|].startTime;
      assert InTurnByTime(closed);
    }
    if InTurnByTime(closed) && (closed != [] ==> closed[|closed| - 1].endTime.value <= begun.startTime) {
      forall i | 0 <= i < |closed| ensures closed[i].endTime.value <= begun.startTime {
        if i < |closed| - 1 {
          assert closed[i].endTime.value <= closed[|closed| - 1].startTime <= closed[|closed| - 1].endTime.value;
        }
      }
    }
  }

  lemma EndByTime(closed: seq<Interval>, begun: Interval, end: nat, at: int)
    requires begun.endTime.None?
    ensures var ended := begun.(end := Some(end), endTime := Some(at));
      InTurnByTime(closed + [ended]) <==> InTurnByTime(closed + [begun]) && begun.startTime <= at
  {
    var ended := begun.(end := Some(end), endTime := Some(at));
    var was, now := closed + [begun], closed + [ended];
    forall i | 0 <= i < |closed| ensures was[i] == closed[i] == now[i] {}
    assert was[|closed|] == begun && now[|closed|] == ended;
    forall i, j | 0 <= i < j <= |closed| ensures was[i] == now[i] && was[j].startTime == now[j].startTime {}
    if InTurnByTime(now) {
      assert now[|closed|].startTime <= now[|closed|].endTime.value;
      assert InTurnByTime(was);
    }
  }

  lemma {:induction false} HandoverStamps(ledger: seq<Event>)
    requires !PhaseOf(ledger).Broken?
    ensures StampsAgree(ledger)
  {
    if ledger != [] {
      var front, event := ledger[..|ledger| - 1], ledger[|ledger| - 1];
      HandoverStamps(front);
      HandoverIntervals(front);
      StampStep(ledger);
    }
  }

  lemma {:induction false} StampStep(ledger: seq<Event>)
    requires ledger != [] && !PhaseOf(ledger).Broken?
    requires StampsAgree(ledger[..|ledger| - 1]) && DeriveAgrees(ledger[..|ledger| - 1])
    ensures StampsAgree(ledger)
  {
    var front, event := ledger[..|ledger| - 1], ledger[|ledger| - 1];
    if event.kind.Acquire? {
      AcquireStamps(ledger);
    } else if !event.kind.Commit? {
      assert Derive(front).open != [];
      EndStamps(ledger);
    } else {
      hide InTurnByTime;
    }
  }

  lemma AcquireStamps(ledger: seq<Event>)
    requires ledger != [] && ledger[|ledger| - 1].kind.Acquire?
    requires StampsAgree(ledger[..|ledger| - 1]) && Derive(ledger[..|ledger| - 1]).open == []
    ensures StampsAgree(ledger)
  {
    var front, event := ledger[..|ledger| - 1], ledger[|ledger| - 1];
    var before, d := Derive(front), Derive(ledger);
    hide InTurnByTime;
    assert before.closed + before.open == before.closed;
    assert d.open == [Interval(event.identity, |ledger|, None, event.time, None)];
    BeginByTime(before.closed, d.open[0]);
  }

  lemma EndStamps(ledger: seq<Event>)
    requires ledger != [] && (ledger[|ledger| - 1].kind.Release? || ledger[|ledger| - 1].kind.Expire?)
    requires StampsAgree(ledger[..|ledger| - 1])
    requires |Derive(ledger[..|ledger| - 1]).open| == 1 && Derive(ledger[..|ledger| - 1]).open[0].identity == ledger[|ledger| - 1].identity
    ensures StampsAgree(ledger)
  {
    var front, event := ledger[..|ledger| - 1], ledger[|ledger| - 1];
    var before, d := Derive(front), Derive(ledger);
    hide InTurnByTime;
    assert OpenIndex(before.open, event.identity) == 0;
    assert before.open == [before.open[0]] && before.open[..0] + before.open[1..] == [];
    EndByTime(before.closed, before.open[0], |ledger|, event.time);
    assert d.closed + d.open == d.closed;
  }

  /** With a capacity of one unit, in every run, the ownership intervals follow one another by time
      exactly when no acquisition, release or expiry is stamped earlier than the one before it. */
  lemma InTurnByTimeExactly(limits: Limits, ops: seq<Op>)
    requires ValidLimits(limits) && limits.capacity == 1
    ensures InTurnByTime(Intervals(Run(EmptyBook(limits), ops).ledger)) <==> Stamped(Run(EmptyBook(limits), ops).ledger)
  {
    hide Run; hide PhaseOf; hide Derive; hide RL.Inv; hide InTurnByTime; hide Stamped;
    RunAccounted(limits, ops);
    RL.RunKeeps(limits, ops);
    HandoverStamps(Run(EmptyBook(limits), ops).ledger);
  }

  // ----- clocks -----

  /** The stamp an operation puts on its events: a shutdown's is zero. */
  function StampOf(op: Op): int {
    match op
    case ReserveOp(_, now) => now
    case CommitOp(_, now) => now
    case ReleaseOp(_, _, now) => now
    case ExpireOp(now) => now
    case ShutdownOp => 0
  }

  /** No operation is stamped before the one it follows, releases and shutdowns included. */
  predicate Steady(ops: seq<Op>) {
    forall i, j :: 0 <= i < j < |ops| ==> StampOf(ops[i]) <= StampOf(ops[j])
  }

  ghost predicate StampedUpTo(ledger: seq<Event>, t: int) {
    Stamped(ledger) && NoEarlier(ledger, t)
  }

  lemma AppendStamped(ledger: seq<Event>, event: Event)
    requires StampedUpTo(ledger, event.time)
    ensures StampedUpTo(ledger + [event], event.time)
  {
    assert (ledger + [event])[..|ledger|] == ledger;
  }

  lemma {:induction false} ExpireStamped(book: Book, now: int, k: nat)
    requires StampedUpTo(book.ledger, now) && k <= |book.items|
    ensures StampedUpTo(ExpireTo(book, now, k).ledger, now)
  {
    if k > 0 {
      ExpireStamped(book, now, k - 1);
      AppendStamped(ExpireTo(book, now, k - 1).ledger, Logged(Expire, book.items[k - 1], now));
      hide StampedUpTo;
    }
  }

  lemma {:induction false} ShutdownStamped(book: Book, k: nat)
    requires StampedUpTo(book.ledger, 0) && k <= |book.items|
    ensures StampedUpTo(ShutdownTo(book, k).ledger, 0)
  {
    if k > 0 {
      ShutdownStamped(book, k - 1);
      hide StampedUpTo;
      ReleaseStamped(ShutdownTo(book, k - 1), book.items[k - 1].identity, "PROVIDER_SHUTDOWN", 0);
      hide ReleaseItem;
    }
  }

  lemma ReleaseStamped(book: Book, identity: Identity, reason: string, now: int)
    requires StampedUpTo(book.ledger, now)
    ensures StampedUpTo(ReleaseItem(book, identity, reason, now).book.ledger, now)
  {
    hide IndexOf; hide StampedUpTo;
    if ReleaseItem(book, identity, reason, now).ok {
      AppendStamped(book.ledger, Logged(Release, book.items[IndexOf(book.items, identity)], now));
    }
  }

  lemma ApplyStamped(book: Book, op: Op)
    requires StampedUpTo(book.ledger, StampOf(op))
    ensures StampedUpTo(Apply(book, op).ledger, StampOf(op))
  {
    hide IndexOf; hide StampedUpTo; hide ExpireTo; hide ShutdownTo; hide ReleaseItem; hide Fits;
    match op {
      case ReserveOp(ask, now) =>
        ExpireStamped(book, now, |book.items|);
        if ValidAsk(ask) {
          AppendStamped(ExpireDue(book, now).ledger, Logged(Acquire, NewItem(book, ask, now), now));
        }
      case CommitOp(identity, now) =>
        if CommitItem(book, identity, now).ok {
          var item := book.items[IndexOf(book.items, identity)].(status := Committed, committedUntil := now + book.limits.committedLease);
          AppendStamped(book.ledger, Logged(Commit, item, now));
        }
      case ReleaseOp(identity, reason, now) => ReleaseStamped(book, identity, reason, now);
      case ExpireOp(now) => ExpireStamped(book, now, |book.items|);
      case ShutdownOp => ShutdownStamped(book, |book.items|);
    }
  }

  lemma LaterStamp(ledger: seq<Event>, t: int, later: int)
    requires StampedUpTo(ledger, t) && t <= later
    ensures StampedUpTo(ledger, later)
  {
  }

  lemma {:induction false} SteadyStamped(limits: Limits, ops: seq<Op>, t: int)
    requires Steady(ops) && (ops != [] ==> StampOf(ops[|ops| - 1]) <= t)
    ensures StampedUpTo(Run(EmptyBook(limits), ops).ledger, t)
  {
    if ops != [] {
      var front, last := ops[..|ops| - 1], ops[|ops| - 1];
      assert Steady(front);
      SteadyStamped(limits, front, StampOf(last));
      hide StampedUpTo; hide Apply;
      ApplyStamped(Run(EmptyBook(limits), front), last);
      LaterStamp(Run(EmptyBook(limits), ops).ledger, StampOf(last), t);
    }
  }

  /** So they do whenever the clock behind every stamp is steady, releases and shutdowns included. */
  lemma SteadyInTurnByTime(limits: Limits, ops: seq<Op>)
    requires ValidLimits(limits) && limits.capacity == 1 && Steady(ops)
    ensures InTurnByTime(Intervals(Run(EmptyBook(limits), ops).ledger))
  {
    hide Run; hide Stamped; hide InTurnByTime;
    SteadyStamped(limits, ops, if ops == [] then 0 else StampOf(ops[|ops| - 1]));
    InTurnByTimeExactly(limits, ops);
  }

  // ----- exactly, over operations -----

  /** The operation takes or gives up the device: something is reserved, released or expires. */
  predicate Hands(book: Book, op: Op) {
    !op.CommitOp? && Apply(book, op).ledger != book.ledger
  }

  /** The stamp of the last operation that did. */
  function LastHandover(limits: Limits, ops: seq<Op>): Option<int> {
    if ops == [] then None
    else if Hands(Run(EmptyBook(limits), ops[..|ops| - 1]), ops[|ops| - 1]) then Some(StampOf(ops[|ops| - 1]))
    else LastHandover(limits, ops[..|ops| - 1])
  }

  /** No operation that takes or gives up the device is stamped before an earlier one that did. */
  predicate HandoversInOrder(limits: Limits, ops: seq<Op>) {
    ops == []
    || (HandoversInOrder(limits, ops[..|ops| - 1])
        && (Hands(Run(EmptyBook(limits), ops[..|ops| - 1]), ops[|ops| - 1]) && LastHandover(limits, ops[..|ops| - 1]).Some? ==>
              LastHandover(limits, ops[..|ops| - 1]).value <= StampOf(ops[|ops| - 1])))
  }

  /** Events are only added, all with one stamp, and commits only or none. */
  ghost predicate Appends(before: seq<Event>, after: seq<Event>, t: int, commits: bool) {
    && |before| <= |after| && after[..|before|] == before
    && forall k :: |before| <= k < |after| ==> after[k].time == t && (after[k].kind.Commit? <==> commits)
  }

  lemma AppendsOne(before: seq<Event>, after: seq<Event>, t: int, commits: bool, event: Event)
    requires Appends(before, after, t, commits) && event.time == t && (event.kind.Commit? <==> commits)
    ensures Appends(before, after + [event], t, commits)
  {
  }

  lemma {:induction false} ExpireAppends(book: Book, now: int, k: nat)
    requires k <= |book.items|
    ensures Appends(book.ledger, ExpireTo(book, now, k).ledger, now, false)
  {
    if k > 0 {
      ExpireAppends(book, now, k - 1);
      hide Appends;
      AppendsOne(book.ledger, ExpireTo(book, now, k - 1).ledger, now, false, Logged(Expire, book.items[k - 1], now));
    }
  }

  lemma {:induction false} ShutdownAppends(book: Book, k: nat)
    requires k <= |book.items|
    ensures Appends(book.ledger, ShutdownTo(book, k).ledger, 0, false)
  {
    if k > 0 {
      ShutdownAppends(book, k - 1);
      hide Appends; hide IndexOf;
      var before := ShutdownTo(book, k - 1);
      var i := IndexOf(before.items, book.items[k - 1].identity);
      if i < |before.items| {
        AppendsOne(book.ledger, before.ledger, 0, false, Logged(Release, before.items[i], 0));
      }
    }
  }

  lemma {:induction false} ApplyAppends(book: Book, op: Op)
    ensures Appends(book.ledger, Apply(book, op).ledger, StampOf(op), op.CommitOp?)
  {
    hide IndexOf; hide ExpireTo; hide ShutdownTo; hide Fits;
    match op {
      case ReserveOp(ask, now) =>
        ExpireAppends(book, now, |book.items|);
        if ValidAsk(ask) {
          AppendsOne(book.ledger, ExpireDue(book, now).ledger, now, false, Logged(Acquire, NewItem(book, ask, now), now));
        }
      case ExpireOp(now) => ExpireAppends(book, now, |book.items|);
      case ShutdownOp => ShutdownAppends(book, |book.items|);
      case _ =>
    }
  }

  lemma {:induction false} AppendedStamps(before: seq<Event>, after: seq<Event>, t: int, commits: bool)
    requires Appends(before, after, t, commits)
    ensures commits || after == before ==> LastStamp(after) == LastStamp(before) && (Stamped(after) <==> Stamped(before))
    ensures !commits && after != before ==> LastStamp(after) == Some(t) && (Stamped(after) <==> Stamped(before) && NoEarlier(before, t))
    decreases |after|
  {
    if |after| == |before| {
      assert after == before;
    } else {
      var front := after[..|after| - 1];
      assert Appends(before, front, t, commits);
      AppendedStamps(before, front, t, commits);
    }
  }

  lemma {:induction false} StampsOfOps(limits: Limits, ops: seq<Op>)
    ensures LastStamp(Run(EmptyBook(limits), ops).ledger) == LastHandover(limits, ops)
    ensures Stamped(Run(EmptyBook(limits), ops).ledger) <==> HandoversInOrder(limits, ops)
  {
    if ops != [] {
      var front, last := ops[..|ops| - 1], ops[|ops| - 1];
      StampsOfOps(limits, front);
      hide Apply; hide Stamped; hide LastStamp;
      var book := Run(EmptyBook(limits), front);
      ApplyAppends(book, last);
      AppendedStamps(book.ledger, Apply(book, last).ledger, StampOf(last), last.CommitOp?);
    }
  }

  /** With a capacity of one unit, in every run, ownership intervals follow one another by time exactly when no
      operation that takes or gives up the device is stamped before an earlier one that did. */
  lemma InTurnExactlyWhenInOrder(limits: Limits, ops: seq<Op>)
    requires ValidLimits(limits) && limits.capacity == 1
    ensures InTurnByTime(Intervals(Run(EmptyBook(limits), ops).ledger)) <==> HandoversInOrder(limits, ops)
  {
    hide Run; hide Stamped; hide InTurnByTime; hide HandoversInOrder;
    InTurnByTimeExactly(limits, ops);
    StampsOfOps(limits, ops);
  }

  // ----- a release stamped zero -----

  const FIRST := Identity("/r", "a", 1)
  const SECOND := Identity("/r", "b", 1)

  function AskBy(identity: Identity): Ask {
    Ask(identity, "s", 1, 1200, true, "sig", "", 0)
  }

  /** The first reservation runs out, the second is made and then given up by a decision. */
  const GivenUp: seq<Op> :=
    [ReserveOp(AskBy(FIRST), 10)] + [ReserveOp(AskBy(SECOND), 1400)] + [ReleaseOp(SECOND, "NOT_SELECTED", 0)]

  function ItemBy(identity: Identity, at: int): Item {
    Item(identity, "s", 1, at, at + 1200, Tentative, 0, "", 0, "", 0)
  }

  lemma FirstReserved()
    ensures Reserve(EmptyBook(T.CELL_LIMITS), AskBy(FIRST), 10).book
         == Book(T.CELL_LIMITS, [ItemBy(FIRST, 10)], [Event(Acquire, FIRST, "", 1, 10)])
  {
  }

  lemma SecondReserved(book: Book)
    requires book == Book(T.CELL_LIMITS, [ItemBy(FIRST, 10)], [Event(Acquire, FIRST, "", 1, 10)])
    ensures Reserve(book, AskBy(SECOND), 1400).book
         == Book(T.CELL_LIMITS, [Ended(ItemBy(FIRST, 10), "LEASE_EXPIRED", 1400), ItemBy(SECOND, 1400)],
                 [Event(Acquire, FIRST, "", 1, 10), Event(Expire, FIRST, "", 1, 1400), Event(Acquire, SECOND, "", 1, 1400)])
  {
    assert "a"[0] != "b"[0];
    assert ExpireTo(book, 1400, 0) == book;
    var swept := ExpireDue(book, 1400);
    assert swept == EndAt(book, 0, Expire, "LEASE_EXPIRED", 1400);
    hide ExpireTo;
    assert swept.items == [Ended(ItemBy(FIRST, 10), "LEASE_EXPIRED", 1400)];
    UnitsOfOne(swept.items[0], Everything);
    UnitsOfOne(swept.items[0], OfRequester("/r"));
    UnitsOfOne(swept.items[0], OfService("s"));
    assert IndexOf(swept.items[1..], SECOND) == 0;
    hide Units;
  }

  lemma GivenUpLedger()
    ensures Run(EmptyBook(T.CELL_LIMITS), GivenUp).ledger
         == [Event(Acquire, FIRST, "", 1, 10), Event(Expire, FIRST, "", 1, 1400), Event(Acquire, SECOND, "", 1, 1400), Event(Release, SECOND, "", 1, 0)]
  {
    assert "a"[0] != "b"[0];
    var start := EmptyBook(T.CELL_LIMITS);
    var one := [ReserveOp(AskBy(FIRST), 10)];
    var two := one + [ReserveOp(AskBy(SECOND), 1400)];
    assert [] + one == one;
    hide Run; hide Reserve;
    RunNone(start);
    RunStep(start, [], ReserveOp(AskBy(FIRST), 10));
    RunStep(start, one, ReserveOp(AskBy(SECOND), 1400));
    RunStep(start, two, ReleaseOp(SECOND, "NOT_SELECTED", 0));
    FirstReserved();
    var book := Run(start, one);
    SecondReserved(book);
    var next := Run(start, two);
    assert IndexOf(next.items[1..], SECOND) == 0;
    assert IndexOf(next.items, SECOND) == 1;
  }

  const FIRST_OWNED := Interval(FIRST, 1, Some(2), 10, Some(1400))
  const SECOND_OWNED := Interval(SECOND, 3, Some(4), 1400, Some(0))

  lemma {:induction false} DerivesTwo(ledger: seq<Event>)
    requires ledger == [Event(Acquire, FIRST, "", 1, 10), Event(Expire, FIRST, "", 1, 1400)]
    ensures Derive(ledger) == Derived([], [FIRST_OWNED])
  {
    assert ledger[..1][..0] == [];
    assert Derive(ledger[..1]) == Derived([Interval(FIRST, 1, None, 10, None)], []);
  }

  lemma {:induction false} DerivesFour(ledger: seq<Event>)
    requires ledger == [Event(Acquire, FIRST, "", 1, 10), Event(Expire, FIRST, "", 1, 1400), Event(Acquire, SECOND, "", 1, 1400), Event(Release, SECOND, "", 1, 0)]
    ensures Derive(ledger) == Derived([], [FIRST_OWNED, SECOND_OWNED])
  {
    DerivesTwo(ledger[..2]);
    assert ledger[..3][..2] == ledger[..2];
    assert Derive(ledger[..3]) == Derived([Interval(SECOND, 3, None, 1400, None)], [FIRST_OWNED]);
  }

  /** A clock that never runs back does not help against releases stamped zero, which is how decisions and
      shutdowns stamp them: the second interval then ends, by its stamps, before it starts and before
      the first one does, and the first lies wholly between its stamps. */
  lemma ZeroStampDisorders()
    ensures T.Monotone(GivenUp, 0)
    ensures var intervals := Intervals(Run(EmptyBook(T.CELL_LIMITS), GivenUp).ledger);
      && intervals == [Interval(FIRST, 1, Some(2), 10, Some(1400)), Interval(SECOND, 3, Some(4), 1400, Some(0))]
      && InTurn(intervals) && !InTurnByTime(intervals)
  {
    GivenUpLedger();
    var ledger := Run(EmptyBook(T.CELL_LIMITS), GivenUp).ledger;
    hide Run; hide Derive;
    DerivesFour(ledger);
    var intervals := Intervals(ledger);
    assert intervals == [FIRST_OWNED, SECOND_OWNED];
    assert intervals[1].startTime > intervals[1].endTime.value;
    GivenUpMonotone();
  }

  lemma GivenUpMonotone()
    ensures T.Monotone(GivenUp, 0)
  {
    assert GivenUp[..2][..1] == GivenUp[..1] && GivenUp[..1][..0] == [];
    assert T.Monotone([], 0) && T.Clock([], 0) == 0;
    assert T.Monotone(GivenUp[..1], 0) && T.Clock(GivenUp[..1], 0) == 10;
    assert T.Monotone(GivenUp[..2], 0);
  }
}
