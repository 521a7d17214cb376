/** The provider's reservation book as an object updated in place. */
module ReservationBook {
  import opened Outcomes
  import opened Requests
  import R = Reservations
  import L = ReservationLedger
  import H = ReservationHistory

  class AtomicReservationBook {
    const limits: R.Limits
    var items: seq<R.Item>
    var ledger: seq<R.Event>

    function State(): R.Book
      reads this
    {
      R.Book(limits, items, ledger)
    }

    constructor (limits: R.Limits)
      requires R.ValidLimits(limits)
      ensures State() == R.EmptyBook(limits) && L.Inv(State())
    {
      this.limits := limits;
      items, ledger := [], [];
      new;
      L.EmptyInv(limits);
    }

    method Expire(now: int) returns (expired: nat)
      requires L.Inv(State())
      modifies this
      ensures State() == R.ExpireDue(old(State()), now) && L.Inv(State())
      ensures expired == H.LiveCount(old(items)) - H.LiveCount(items)
      ensures |ledger| == |old(ledger)| + expired
    {
      ghost var start := State();
      hide L.Inv; hide R.EndAt; hide H.LiveCount;
      L.ExpireKeeps(start, now, |items|);
      expired := 0;
      for k := 0 to |items|
        invariant |items| == |start.items|
        invariant State() == R.ExpireTo(start, now, k)
        invariant expired == H.LiveCount(start.items) - H.LiveCount(items)
        invariant |ledger| == |start.ledger| + expired
      {
        var item := items[k];
        if item.Live() && now >= item.Deadline() {
          H.LiveCountUpdate(items, k, R.Ended(item, "LEASE_EXPIRED", now));
          EndAtFields(State(), k, R.Expire, "LEASE_EXPIRED", now);
          items := items[k := R.Ended(item, "LEASE_EXPIRED", now)];
          ledger := ledger + [R.Logged(R.Expire, item, now)];
          expired := expired + 1;
        }
      }
    }

    method Reserve(ask: R.Ask, now: int) returns (item: Result<R.Item, R.Error>)
      requires L.Inv(State())
      modifies this
      ensures R.Reserved(State(), item) == R.Reserve(old(State()), ask, now) && L.Inv(State())
    {
      hide L.Inv; hide R.ExpireTo; hide R.IndexOf; hide R.Units;
      L.ReserveKeeps(State(), ask, now);
      if !ask.authorized { return Err(R.Unauthorized); }
      if !R.ValidAsk(ask) { return Err(R.Invalid); }
      if (ask.resource != "") != (ask.resourceSequence > 0) { return Err(R.Unpaired); }
      var i := R.IndexOf(items, ask.identity);
      if i < |items| && items[i].status.Tentative? && now < items[i].tentativeUntil { return Ok(items[i]); }
      var _ := Expire(now);
      if R.Units(items, R.Everything) + ask.units > limits.capacity
         || R.Units(items, R.OfRequester(ask.identity.requester)) + ask.units > limits.perRequester
         || R.Units(items, R.OfService(ask.service)) + ask.units > limits.perService {
        return Err(R.QuotaExhausted);
      }
      var made := R.NewItem(State(), ask, now);
      items := R.Put(items, made);
      ledger := ledger + [R.Logged(R.Acquire, made, now)];
      item := Ok(made);
    }

    method Commit(identity: Identity, now: int) returns (ok: bool)
      requires L.Inv(State())
      modifies this
      ensures R.Decided(State(), ok) == R.CommitItem(old(State()), identity, now) && L.Inv(State())
    {
      hide L.Inv; hide R.IndexOf;
      L.CommitKeeps(State(), identity, now);
      var i := R.IndexOf(items, identity);
      if i == |items| || !items[i].status.Tentative? || now >= items[i].tentativeUntil { return false; }
      var item := items[i].(status := R.Committed, committedUntil := now + limits.committedLease);
      items := items[i := item];
      ledger := ledger + [R.Logged(R.Commit, item, now)];
      ok := true;
    }

    method Release(identity: Identity, reason: string, now: int) returns (changed: bool)
      requires L.Inv(State())
      modifies this
      ensures R.Decided(State(), changed) == R.ReleaseItem(old(State()), identity, reason, now) && L.Inv(State())
    {
      L.ApplyKeeps(State(), R.ReleaseOp(identity, reason, now));
      hide L.Inv; hide R.IndexOf;
      var i := R.IndexOf(items, identity);
      if i == |items| || !items[i].Live() { return false; }
      var item := items[i];
      items := items[i := R.Ended(item, reason, now)];
      ledger := ledger + [R.Logged(R.Release, item, now)];
      changed := true;
    }

    method Shutdown() returns (released: nat)
      requires L.Inv(State())
      modifies this
      ensures State() == R.Shutdown(old(State())) && L.Inv(State())
      ensures released == H.LiveCount(old(items))
      ensures forall i :: 0 <= i < |items| ==> !items[i].Live()
    {
      ghost var start := State();
      H.ShutdownEndsAll(start, |items|);
      hide L.Inv; hide R.ReleaseItem;
      var live := items;
      released := 0;
      for k := 0 to |live|
        invariant L.Inv(State()) && State() == R.ShutdownTo(start, k)
        invariant released == H.LiveCount(live[..k])
      {
        assert live[..k + 1][..k] == live[..k];
        if live[k].Live() {
          var changed := Release(live[k].identity, "PROVIDER_SHUTDOWN", 0);
          released := released + 1;
        }
      }
      assert live[..|live|] == live;
    }

    method LiveUnits(now: int) returns (units: nat)
      requires L.Inv(State())
      modifies this
      ensures State() == R.ExpireDue(old(State()), now) && L.Inv(State())
      ensures units == R.Units(items, R.Everything) <= limits.capacity
    {
      var _ := Expire(now);
      units := R.Units(items, R.Everything);
      assert units <= R.Quota(limits, R.Everything);
    }

    /** The intervals read off the ledger event by event. */
    method OwnershipIntervals() returns (intervals: seq<H.Interval>)
      ensures intervals == H.Intervals(ledger)
    {
      var open: seq<H.Interval>, closed: seq<H.Interval> := [], [];
      for n := 0 to |ledger|
        invariant H.Derived(open, closed) == H.Derive(ledger[..n])
      {
        assert ledger[..n + 1][..n] == ledger[..n];
        var event := ledger[n];
        var i := H.OpenIndex(open, event.identity);
        match event.kind {
          case Acquire =>
            var interval := H.Interval(event.identity, n + 1, None, event.time, None);
            open := if i < |open| then open[i := interval] else open + [interval];
          case Commit =>
          case _ =>
            if i < |open| {
              closed := closed + [open[i].(end := Some(n + 1), endTime := Some(event.time))];
              open := open[..i] + open[i + 1..];
            }
        }
      }
      assert ledger[..|ledger|] == ledger;
      intervals := closed + open;
    }
  }

  lemma EndAtFields(book: R.Book, i: nat, kind: R.Kind, reason: string, at: int)
    requires i < |book.items|
    ensures R.EndAt(book, i, kind, reason, at)
         == R.Book(book.limits, book.items[i := R.Ended(book.items[i], reason, at)],
                   book.ledger + [R.Logged(kind, book.items[i], at)])
  {
  }
}
