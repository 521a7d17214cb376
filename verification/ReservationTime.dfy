/** Reservations over time: every hold ends, and a decided reservation is decided once. */
module ReservationTime {
  import opened Outcomes
  import opened Requests
  import opened Reservations
  import opened ReservationLedger

  // ----- draining -----

  /** The clock reading of an operation; a release may be stamped with any time at all. */
  function Time(op: Op): Option<int> {
    match op
    case ReserveOp(_, now) => Some(now)
    case CommitOp(_, now) => Some(now)
    case ExpireOp(now) => Some(now)
    case ReleaseOp(_, _, _) => None
    case ShutdownOp => None
  }

  function Clock(ops: seq<Op>, from: int): int {
    if ops == [] then from
    else if Time(ops[|ops| - 1]).Some? then Time(ops[|ops| - 1]).value
    else Clock(ops[..|ops| - 1], from)
  }

  predicate Monotone(ops: seq<Op>, from: int) {
    ops == [] || (
      && Monotone(ops[..|ops| - 1], from)
      && (Time(ops[|ops| - 1]).Some? ==> Clock(ops[..|ops| - 1], from) <= Time(ops[|ops| - 1]).value))
  }

  predicate LeasedItem(item: Item, limits: Limits, clock: int) {
    match item.status
    case Tentative => item.tentativeUntil <= clock + limits.maxLease
    case Committed => item.committedUntil <= clock + limits.committedLease
    case Released => true
  }

  /** Every live hold ends within its lease from the clock's reading. */
  ghost predicate Leased(book: Book, clock: int) {
    forall i :: 0 <= i < |book.items| ==> LeasedItem(book.items[i], book.limits, clock)
  }

  lemma {:induction false} ShutdownReleases(book: Book, k: nat, limits: Limits, clock: int)
    requires k <= |book.items| && book.limits == limits && Leased(book, clock)
    ensures ShutdownTo(book, k).limits == limits && Leased(ShutdownTo(book, k), clock)
  {
    hide IndexOf;
    if k > 0 {
      ShutdownReleases(book, k - 1, limits, clock);
    }
  }

  lemma ReserveLeased(book: Book, ask: Ask, now: int, clock: int)
    requires Leased(book, clock) && clock <= now
    ensures Leased(Reserve(book, ask, now).book, now)
  {
    hide IndexOf; hide ExpireTo; hide Fits;
    var swept := ExpireDue(book, now);
    assert Leased(swept, now);
    if ValidAsk(ask) && Fits(swept, ask) {
      var item := NewItem(book, ask, now);
      var items := Put(swept.items, item);
      forall i | 0 <= i < |items| ensures LeasedItem(items[i], book.limits, now) {
        if items[i] != item {
          assert LeasedItem(swept.items[i], book.limits, now);
        }
      }
    }
  }

  lemma ApplyLeased(book: Book, op: Op, clock: int)
    requires Leased(book, clock) && (Time(op).Some? ==> clock <= Time(op).value)
    ensures Leased(Apply(book, op), if Time(op).Some? then Time(op).value else clock)
    ensures Apply(book, op).limits == book.limits
  {
    hide IndexOf; hide ShutdownTo; hide ExpireTo; hide Reserve; hide Leased;
    LimitsStay(book, op);
    match op {
      case ReserveOp(ask, now) => ReserveLeased(book, ask, now, clock);
      case ShutdownOp => ShutdownReleases(book, |book.items|, book.limits, clock);
      case _ => PointwiseLeased(book, op, clock);
    }
  }

  lemma PointwiseLeased(book: Book, op: Op, clock: int)
    requires Leased(book, clock) && (Time(op).Some? ==> clock <= Time(op).value)
    requires op.CommitOp? || op.ReleaseOp? || op.ExpireOp?
    ensures Leased(Apply(book, op), if Time(op).Some? then Time(op).value else clock)
  {
    hide IndexOf; hide ExpireTo;
  }

  lemma {:induction false} RunLeased(limits: Limits, ops: seq<Op>, from: int)
    requires Monotone(ops, from)
    ensures Leased(Run(EmptyBook(limits), ops), Clock(ops, from))
    ensures Run(EmptyBook(limits), ops).limits == limits
  {
    if ops != [] {
      hide Apply; hide Leased;
      RunLeased(limits, ops[..|ops| - 1], from);
      ApplyLeased(Run(EmptyBook(limits), ops[..|ops| - 1]), ops[|ops| - 1], Clock(ops[..|ops| - 1], from));
    }
  }

  ghost predicate Quiet(items: seq<Item>) {
    forall i :: 0 <= i < |items| ==> !items[i].Live()
  }

  ghost predicate NoTentative(items: seq<Item>) {
    forall i :: 0 <= i < |items| ==> !items[i].status.Tentative?
  }

  /** From every state a monotone run reaches, once nothing more is asked, the expiry loop alone
      ends every tentative hold within the tentative lease and every hold within the longer lease. */
  lemma HoldsDrain(limits: Limits, ops: seq<Op>, from: int, now: int)
    requires Monotone(ops, from)
    ensures now >= Clock(ops, from) + limits.maxLease ==>
      NoTentative(ExpireDue(Run(EmptyBook(limits), ops), now).items)
    ensures now >= Clock(ops, from) + limits.maxLease && now >= Clock(ops, from) + limits.committedLease ==>
      Quiet(ExpireDue(Run(EmptyBook(limits), ops), now).items)
  {
    hide Run; hide ExpireTo;
    RunLeased(limits, ops, from);
  }

  /** Expiry ends exactly the holds whose lease has run out. */
  lemma ExpiryIsExact(book: Book, now: int, i: nat)
    requires i < |book.items|
    ensures ExpireDue(book, now).items[i].Live() <==> book.items[i].Live() && now < book.items[i].Deadline()
    ensures !Due(book.items[i], now) ==> ExpireDue(book, now).items[i] == book.items[i]
  {
    hide ExpireTo;
  }

  /** The limits of a provider in the cell. */
  const CELL_LIMITS := Limits(1, 1, 1, 1200, 2500)
  const SETTLE_MS := 1400

  /** In a cell the settle time outlasts every tentative hold, and 2500 ms outlast every hold. */
  lemma CellSettles(ops: seq<Op>, from: int)
    requires Monotone(ops, from)
    ensures NoTentative(ExpireDue(Run(EmptyBook(CELL_LIMITS), ops), Clock(ops, from) + SETTLE_MS).items)
    ensures Quiet(ExpireDue(Run(EmptyBook(CELL_LIMITS), ops), Clock(ops, from) + 2500).items)
  {
    hide Run; hide ExpireTo;
    HoldsDrain(CELL_LIMITS, ops, from, Clock(ops, from) + SETTLE_MS);
    HoldsDrain(CELL_LIMITS, ops, from, Clock(ops, from) + 2500);
  }

  // ----- the longest a reservation can last -----

  /** A live item ends at the latest when both leases have run out since it was made. */
  ghost predicate Spanned(item: Item, limits: Limits) {
    && (item.status.Tentative? ==> item.tentativeUntil <= item.createdAt + limits.maxLease)
    && (item.status.Committed? ==> item.committedUntil < item.createdAt + limits.maxLease + limits.committedLease)
  }

  ghost predicate AllSpanned(book: Book) {
    forall i :: 0 <= i < |book.items| ==> Spanned(book.items[i], book.limits)
  }

  lemma {:induction false} ShutdownSpanned(book: Book, k: nat)
    requires k <= |book.items| && AllSpanned(book)
    ensures AllSpanned(ShutdownTo(book, k))
  {
    hide IndexOf;
    if k > 0 {
      ShutdownSpanned(book, k - 1);
    }
  }

  lemma ReserveSpanned(book: Book, ask: Ask, now: int)
    requires AllSpanned(book)
    ensures AllSpanned(Reserve(book, ask, now).book)
  {
    hide IndexOf; hide ExpireTo; hide Fits;
    var swept := ExpireDue(book, now);
    assert AllSpanned(swept);
    if ValidAsk(ask) && Fits(swept, ask) {
      var item := NewItem(book, ask, now);
      var items := Put(swept.items, item);
      forall i | 0 <= i < |items| ensures Spanned(items[i], book.limits) {
        if items[i] != item {
          assert Spanned(swept.items[i], book.limits);
        }
      }
    }
  }

  lemma ApplySpanned(book: Book, op: Op)
    requires AllSpanned(book)
    ensures AllSpanned(Apply(book, op))
  {
    hide IndexOf; hide ExpireTo;
    match op {
      case ReserveOp(ask, now) => hide AllSpanned; hide Reserve; ReserveSpanned(book, ask, now);
      case ShutdownOp => hide AllSpanned; hide ShutdownTo; ShutdownSpanned(book, |book.items|);
      case _ =>
    }
  }

  /** In every run, whatever the clock does: no live reservation lasts beyond the sum of the two leases
      from the time it was made, since only a reservation still tentative can be committed. */
  lemma {:induction false} HoldsBounded(limits: Limits, ops: seq<Op>)
    ensures AllSpanned(Run(EmptyBook(limits), ops))
  {
    hide Apply;
    if ops != [] {
      HoldsBounded(limits, ops[..|ops| - 1]);
      hide AllSpanned;
      ApplySpanned(Run(EmptyBook(limits), ops[..|ops| - 1]), ops[|ops| - 1]);
    }
  }

  // ----- selection decisions -----

  datatype Verdict = Selected | NotSelected

  /** A decision on one reservation; `verdict` is absent when the text is neither value. */
  datatype Decision = Decision(identity: Identity, verdict: Option<Verdict>, digest: string)

  datatype Refusal = BadSignature | Malformed | Conflicting | NotCommittable

  datatype Authority = Authority(book: Book, accepted: map<Identity, (Verdict, string)>)

  datatype Outcome = Outcome(authority: Authority, receipt: Result<Verdict, Refusal>)

  /** A receipt carries COMMITTED for a selection and RELEASED otherwise. */
  function Decide(a: Authority, d: Decision, now: int, signatureValid: bool): Outcome {
    if !signatureValid then Outcome(a, Err(BadSignature))
    else if d.verdict.None? then Outcome(a, Err(Malformed))
    else
      var mark := (d.verdict.value, d.digest);
      if d.identity in a.accepted then
        Outcome(a, if a.accepted[d.identity] != mark then Err(Conflicting) else Ok(d.verdict.value))
      else match d.verdict.value
        case Selected =>
          var done := CommitItem(a.book, d.identity, now);
          if !done.ok then Outcome(a, Err(NotCommittable))
          else Outcome(Authority(done.book, a.accepted[d.identity := mark]), Ok(Selected))
        case NotSelected =>
          Outcome(Authority(ReleaseItem(a.book, d.identity, "NOT_SELECTED", 0).book, a.accepted[d.identity := mark]), Ok(NotSelected))
  }

  /** What a receipt asserts of the book. */
  ghost predicate Truthful(book: Book, identity: Identity, verdict: Verdict) {
    match verdict
    case Selected => exists i :: 0 <= i < |book.items| && book.items[i].identity == identity && book.items[i].status.Committed?
    case NotSelected => forall i :: 0 <= i < |book.items| && book.items[i].identity == identity ==> !book.items[i].Live()
  }

  datatype Step =
    | BookStep(op: Op)
    | DecideStep(decision: Decision, now: int, signatureValid: bool)

  function Take(a: Authority, step: Step): Authority {
    match step
    case BookStep(op) => a.(book := Apply(a.book, op))
    case DecideStep(d, now, valid) => Decide(a, d, now, valid).authority
  }

  function TakeAll(a: Authority, steps: seq<Step>): Authority {
    if steps == [] then a else Take(TakeAll(a, steps[..|steps| - 1]), steps[|steps| - 1])
  }

  /** The first decision on a reservation is final: whatever follows, it stays the accepted one,
      every other decision on it is refused, and no decision on it touches the book again. */
  lemma {:induction false} FirstDecisionFinal(a: Authority, steps: seq<Step>, d: Decision, now: int, valid: bool)
    requires d.identity in a.accepted
    ensures var later := TakeAll(a, steps);
      && d.identity in later.accepted && later.accepted[d.identity] == a.accepted[d.identity]
      && Decide(later, d, now, valid).authority == later
      && (Decide(later, d, now, valid).receipt.Ok? <==>
            valid && d.verdict.Some? && a.accepted[d.identity] == (d.verdict.value, d.digest))
  {
    hide Apply; hide CommitItem; hide ReleaseItem;
    if steps != [] {
      FirstDecisionFinal(a, steps[..|steps| - 1], d, now, valid);
    }
  }

  /** A receipt tells the truth when the decision is first taken. */
  lemma FirstReceiptTruthful(a: Authority, d: Decision, now: int, valid: bool)
    requires Distinct(a.book.items) && d.identity !in a.accepted
    requires Decide(a, d, now, valid).receipt.Ok?
    ensures Truthful(Decide(a, d, now, valid).authority.book, d.identity, d.verdict.value)
  {
    hide IndexOf;
    var i := IndexOf(a.book.items, d.identity);
    var next := Decide(a, d, now, valid).authority.book;
    if i < |a.book.items| {
      assert next.items[i].identity == d.identity;
    }
  }

  // A reservation made at 0, selected at 0 and expired at 2500.

  const SOMEONE := Identity("/r", "q", 1)

  function FirstAsk(): Ask {
    Ask(SOMEONE, "s", 1, 1200, true, "sig", "", 0)
  }

  function Tentatively(): Item {
    Item(SOMEONE, "s", 1, 0, 1200, Tentative, 0, "", 0, "", 0)
  }

  function SelectedThenExpired(digest: string): seq<Step> {
    [BookStep(ReserveOp(FirstAsk(), 0))] + [DecideStep(Decision(SOMEONE, Some(Selected), digest), 0, true)]
    + [BookStep(ExpireOp(2500))]
  }

  lemma ReservesOne()
    ensures Reserve(EmptyBook(CELL_LIMITS), FirstAsk(), 0).book.items == [Tentatively()]
    ensures Reserve(EmptyBook(CELL_LIMITS), FirstAsk(), 0).book.limits == CELL_LIMITS
  {
  }

  lemma CommitsOne(book: Book)
    requires book.items == [Tentatively()] && book.limits == CELL_LIMITS
    ensures CommitItem(book, SOMEONE, 0).ok
    ensures CommitItem(book, SOMEONE, 0).book.items == [Tentatively().(status := Committed, committedUntil := 2500)]
  {
    assert IndexOf(book.items, SOMEONE) == 0;
  }

  lemma ExpiresOne(book: Book)
    requires book.items == [Tentatively().(status := Committed, committedUntil := 2500)]
    ensures forall i :: 0 <= i < |ExpireDue(book, 2500).items| ==> !ExpireDue(book, 2500).items[i].Live()
  {
    hide ExpireTo;
    ExpiryIsExact(book, 2500, 0);
  }

  lemma TakeStep(a: Authority, steps: seq<Step>, step: Step)
    ensures TakeAll(a, steps + [step]) == Take(TakeAll(a, steps), step)
  {
    assert (steps + [step])[..|steps|] == steps;
  }

  /** A repeated decision is answered from memory: once the committed lease has run out the
      receipt still says committed, although nothing is held. */
  lemma ReplayedReceiptMisleads(digest: string)
    ensures var a := TakeAll(Authority(EmptyBook(CELL_LIMITS), map[]), SelectedThenExpired(digest));
      var d := Decision(SOMEONE, Some(Selected), digest);
      && Decide(a, d, 2501, true) == Outcome(a, Ok(Selected))
      && !Truthful(a.book, SOMEONE, Selected)
  {
    hide Reserve; hide CommitItem; hide ExpireTo; hide TakeAll;
    var start := Authority(EmptyBook(CELL_LIMITS), map[]);
    var d := Decision(SOMEONE, Some(Selected), digest);
    var one := [BookStep(ReserveOp(FirstAsk(), 0))];
    var two := one + [DecideStep(d, 0, true)];
    TakeNothing(start);
    TakeStep(start, [], BookStep(ReserveOp(FirstAsk(), 0)));
    assert [] + one == one;
    TakeStep(start, one, DecideStep(d, 0, true));
    TakeStep(start, two, BookStep(ExpireOp(2500)));
    ReservesOne();
    CommitsOne(TakeAll(start, one).book);
    ExpiresOne(TakeAll(start, two).book);
  }

  lemma TakeNothing(a: Authority)
    ensures TakeAll(a, []) == a
  {
  }
}
