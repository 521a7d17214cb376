/** What the coordinator's permits mean over whole runs: exclusion, capacity, finality, time. */
module AdmissionHistory {
  import opened Outcomes
  import opened Requests
  import opened Admission
  import opened AdmissionInvariant

  // ----- exclusion -----

  /** In every run at most one live permit claims a device declared exclusive or of capacity one. */
  lemma MutualExclusion(authority: Authority, maxPermit: nat, ops: seq<Op>, key: Key, i: nat, j: nat)
    requires var c := Run(Fresh(authority, maxPermit), ops);
      && key in c.declarations && (c.declarations[key].exclusive || c.declarations[key].capacity <= 1)
      && i < |c.permits| && j < |c.permits| && c.permits[i].Live() && c.permits[j].Live()
      && Claims(c.permits[i].request, key) && Claims(c.permits[j].request, key)
    ensures i == j
  {
    RunKeeps(authority, maxPermit, ops);
    hide Run;
    HoldersAgree(Run(Fresh(authority, maxPermit), ops), key, i, j);
  }

  lemma HoldersAgree(c: Coordinator, key: Key, i: nat, j: nat)
    requires Inv(c)
    requires key in c.declarations && (c.declarations[key].exclusive || c.declarations[key].capacity <= 1)
    requires i < |c.permits| && j < |c.permits| && c.permits[i].Live() && c.permits[j].Live()
    requires Claims(c.permits[i].request, key) && Claims(c.permits[j].request, key)
    ensures i == j
  {
    var left, right := c.permits[i].request, c.permits[j].request;
    var a :| 0 <= a < |left.claims| && left.claims[a].key == key;
    var b :| 0 <= b < |right.claims| && right.claims[b].key == key;
    assert WellFormed(left) && WellFormed(right) by {
      assert c.permits[i] in c.permits && c.permits[j] in c.permits;
    }
    assert c.declarations[key].key == key;
    assert ClaimsConflict(left.claims[a], right.claims[b], c.declarations[key]);
  }

  // ----- capacity -----

  /** What the request claims of the key. */
  function Quantity(claims: seq<Claim>, key: Key): nat {
    if claims == [] then 0
    else if claims[0].key == key then claims[0].quantity
    else Quantity(claims[1..], key)
  }

  /** What all live permits together hold of the key. */
  function LiveQuantity(permits: seq<Permit>, key: Key): nat {
    if permits == [] then 0
    else
      var last := permits[|permits| - 1];
      LiveQuantity(permits[..|permits| - 1], key) + if last.Live() then Quantity(last.request.claims, key) else 0
  }

  /** The run never declares the key otherwise. */
  ghost predicate Fixed(ops: seq<Op>, d: Declaration) {
    forall op :: op in ops && op.RegisterOp? ==>
      forall e :: e in op.declarations && e.key == d.key ==> e == d
  }

  ghost predicate Fits(c: Coordinator, d: Declaration) {
    && (d.key in c.declarations ==> c.declarations[d.key] == d)
    && (forall e :: e in c.queued ==> Quantity(e.request.claims, d.key) <= d.capacity)
    && (forall p :: p in c.permits ==> Quantity(p.request.claims, d.key) <= d.capacity)
  }

  lemma {:induction false} QuantityClaimed(claims: seq<Claim>, key: Key)
    ensures Quantity(claims, key) > 0 ==> exists k :: 0 <= k < |claims| && claims[k].key == key && claims[k].quantity == Quantity(claims, key)
  {
    if claims != [] && claims[0].key != key {
      QuantityClaimed(claims[1..], key);
      if Quantity(claims, key) > 0 {
        var k :| 0 <= k < |claims[1..]| && claims[1..][k].key == key && claims[1..][k].quantity == Quantity(claims, key);
        assert claims[k + 1] == claims[1..][k];
      }
    }
  }

  lemma {:induction false} RegisterFits(c: Coordinator, ds: seq<Declaration>, d: Declaration)
    requires Fits(c, d) && forall e :: e in ds && e.key == d.key ==> e == d
    ensures Fits(Register(c, ds).state, d)
    ensures Register(c, ds).state.queued == c.queued && Register(c, ds).state.permits == c.permits
  {
    hide Aliased; hide ClaimLive; hide Quantity;
    if ds != [] {
      RegisterFits(c, ds[..|ds| - 1], d);
    }
  }

  lemma SubmitFits(c: Coordinator, request: Request, now: int, d: Declaration)
    requires Fits(c, d)
    ensures Fits(Submit(c, request, now).state, d)
  {
    hide Quantity;
    if Submit(c, request, now).state != c {
      QuantityClaimed(request.claims, d.key);
      if Quantity(request.claims, d.key) > 0 {
        var k :| 0 <= k < |request.claims| && request.claims[k].key == d.key && request.claims[k].quantity == Quantity(request.claims, d.key);
        NoClaimError(c, request.claims, k);
      }
    }
  }

  lemma SettledFits(c: Coordinator, permits: seq<Permit>, d: Declaration)
    requires Fits(c, d) && Settled(c.permits, permits)
    ensures Fits(c.(permits := permits), d)
  {
    hide Quantity;
    forall p | p in permits ensures Quantity(p.request.claims, d.key) <= d.capacity {
      var i :| 0 <= i < |permits| && permits[i] == p;
      assert c.permits[i] in c.permits;
    }
  }

  lemma GrantFits(c: Coordinator, authority: Authority, now: int, permitMs: int, d: Declaration)
    requires Fits(c, d)
    ensures Fits(GrantNext(c, authority, now, permitMs).state, d)
  {
    hide Quantity; hide ScanQueue; hide ExpireAll;
    if GrantNext(c, authority, now, permitMs).granted.Ok? {
      var permits := ExpireAll(c.permits, now);
      ExpireSettles(c.permits, now);
      SettledFits(c, permits, d);
      ScanMembers(c.queued, permits, c.declarations, now);
      var scan := ScanQueue(c.queued, permits, c.declarations, now);
      var issued := Issue(scan.selected, now, Min(permitMs, c.maxPermit));
      forall p | p in issued ensures Quantity(p.request.claims, d.key) <= d.capacity {
        var k :| 0 <= k < |issued| && issued[k] == p;
        assert scan.selected[k] in scan.selected;
      }
    }
  }

  lemma ApplyFits(c: Coordinator, op: Op, d: Declaration)
    requires Fits(c, d) && (op.RegisterOp? ==> forall e :: e in op.declarations && e.key == d.key ==> e == d)
    ensures Fits(Apply(c, op), d)
  {
    hide Register; hide Submit; hide GrantNext; hide Activate; hide Release; hide Settled; hide ExpireAll; hide Quantity;
    match op {
      case RegisterOp(ds) => RegisterFits(c, ds, d);
      case SubmitOp(request, now) => SubmitFits(c, request, now, d);
      case GrantOp(authority, now, ms) => GrantFits(c, authority, now, ms, d);
      case ActivateOp(id, bindings, now) =>
        ActivateSettles(c, id, bindings, now);
        SettledFits(c, Activate(c, id, bindings, now).state.permits, d);
      case ReleaseOp(id, now, reason) =>
        ReleaseSettles(c, id, now, reason);
        SettledFits(c, Release(c, id, now, reason).state.permits, d);
      case ExpireOp(now) =>
        ExpireSettles(c.permits, now);
        SettledFits(c, ExpireAll(c.permits, now), d);
      case ModeOp(_, _) =>
      case RotateOp(_) =>
    }
  }

  lemma {:induction false} RunFits(authority: Authority, maxPermit: nat, ops: seq<Op>, d: Declaration)
    requires Fixed(ops, d)
    ensures Fits(Run(Fresh(authority, maxPermit), ops), d)
  {
    hide Apply;
    if ops != [] {
      var front := ops[..|ops| - 1];
      assert forall op :: op in front ==> op in ops;
      RunFits(authority, maxPermit, front, d);
      assert ops[|ops| - 1] in ops;
      hide Fits;
      ApplyFits(Run(Fresh(authority, maxPermit), front), ops[|ops| - 1], d);
    }
  }

  /** With at most one holder the total is that holder's quantity. */
  lemma {:induction false} OneHolderTotal(permits: seq<Permit>, key: Key, capacity: nat)
    requires forall i, j :: 0 <= i < j < |permits| && permits[i].Live() && permits[j].Live() ==>
      Quantity(permits[i].request.claims, key) == 0 || Quantity(permits[j].request.claims, key) == 0
    requires forall i :: 0 <= i < |permits| && permits[i].Live() ==> Quantity(permits[i].request.claims, key) <= capacity
    ensures LiveQuantity(permits, key) <= capacity
    ensures LiveQuantity(permits, key) > 0 ==>
      exists i :: 0 <= i < |permits| && permits[i].Live() && Quantity(permits[i].request.claims, key) > 0
  {
    hide Quantity;
    if permits != [] {
      OneHolderTotal(permits[..|permits| - 1], key, capacity);
    }
  }

  lemma QuantityHoldersAgree(c: Coordinator, d: Declaration, i: nat, j: nat)
    requires Inv(c) && Fits(c, d) && (d.exclusive || d.capacity <= 1)
    requires i < |c.permits| && j < |c.permits| && c.permits[i].Live() && c.permits[j].Live()
    requires Quantity(c.permits[i].request.claims, d.key) > 0 && Quantity(c.permits[j].request.claims, d.key) > 0
    ensures i == j
  {
    hide Exclusive; hide Unique; hide Unaliased; hide Quantity; hide WellFormed;
    QuantityClaimed(c.permits[i].request.claims, d.key);
    QuantityClaimed(c.permits[j].request.claims, d.key);
    assert c.permits[i] in c.permits;
    HoldersAgree(c, d.key, i, j);
  }

  lemma CapacityHeld(authority: Authority, maxPermit: nat, ops: seq<Op>, d: Declaration)
    requires Fixed(ops, d) && (d.exclusive || d.capacity <= 1)
    ensures LiveQuantity(Run(Fresh(authority, maxPermit), ops).permits, d.key) <= d.capacity
  {
    RunKeeps(authority, maxPermit, ops);
    RunFits(authority, maxPermit, ops, d);
    var c := Run(Fresh(authority, maxPermit), ops);
    hide Run; hide Exclusive; hide Unique; hide Unaliased; hide Quantity; hide RequestsConflict; hide WellFormed;
    forall i, j | 0 <= i < j < |c.permits| && c.permits[i].Live() && c.permits[j].Live()
      ensures Quantity(c.permits[i].request.claims, d.key) == 0 || Quantity(c.permits[j].request.claims, d.key) == 0
    {
      if Quantity(c.permits[i].request.claims, d.key) != 0 && Quantity(c.permits[j].request.claims, d.key) != 0 {
        QuantityHoldersAgree(c, d, i, j);
      }
    }
    OneHolderTotal(c.permits, d.key, d.capacity);
  }

  // Three requests that fit pairwise but not together.

  function Third(d: Declaration, id: string, quantity: nat): Request {
    Request(Identity("/r", id, 1), 100, [Claim(d.key, quantity, false)], CAPABILITY)
  }

  function Overcommit(authority: Authority, d: Declaration): seq<Op> {
    [RegisterOp([d]),
     SubmitOp(Third(d, "a", d.capacity - d.capacity / 2), 0),
     SubmitOp(Third(d, "b", d.capacity / 2), 0),
     SubmitOp(Third(d, "c", d.capacity / 2), 0),
     GrantOp(authority, 0, 10)]
  }

  lemma SubmitsThird(c: Coordinator, d: Declaration, id: string, quantity: nat)
    requires c.permits == [] && d.key in c.declarations && c.declarations[d.key] == d && !d.exclusive
    requires 0 < quantity <= d.capacity
    requires forall e :: e in c.queued ==> e.request.identity.requestId != id
    ensures Apply(c, SubmitOp(Third(d, id, quantity), 0))
         == c.(submissions := c.submissions + 1, queued := c.queued + [Entry(c.submissions + 1, Third(d, id, quantity))])
  {
    var request := Third(d, id, quantity);
    assert ClaimError(c, request.claims[1..]) == None;
    assert ClaimError(c, request.claims) == None;
  }

  lemma PairsFit(d: Declaration, entries: seq<Entry>, e: Entry)
    requires d.capacity >= 2 && !d.exclusive
    requires |e.request.claims| == 1 && !e.request.claims[0].exclusive
    requires forall f :: f in entries ==>
      && |f.request.claims| == 1 && !f.request.claims[0].exclusive
      && f.request.claims[0].quantity + e.request.claims[0].quantity <= d.capacity
    requires e.request.claims[0].key == d.key
    ensures !BlockedByEntry(e.request, entries, map[d.key := d])
  {
  }

  lemma ScansAll(d: Declaration, a: Entry, b: Entry, e: Entry)
    requires d.capacity >= 2 && !d.exclusive
    requires a == Entry(1, Third(d, "a", d.capacity - d.capacity / 2))
    requires b == Entry(2, Third(d, "b", d.capacity / 2)) && e == Entry(3, Third(d, "c", d.capacity / 2))
    ensures ScanQueue([a, b, e], [], map[d.key := d], 0) == Scan([a, b, e], [])
  {
    var ds := map[d.key := d];
    PairsFit(d, [], a);
    PairsFit(d, [a], b);
    PairsFit(d, [a, b], e);
    hide BlockedByEntry;
    assert [a, b, e][..2] == [a, b] && [a, b][..1] == [a] && [a][..0] == [];
    assert ScanQueue([a], [], ds, 0) == Scan([] + [a], []);
    assert ScanQueue([a, b], [], ds, 0) == Scan([a] + [b], []);
    assert ScanQueue([a, b, e], [], ds, 0) == Scan([a, b] + [e], []);
  }

  lemma OvercommitTotal(d: Declaration, permits: seq<Permit>)
    requires d.capacity >= 2
    requires |permits| == 3 && forall i :: 0 <= i < 3 ==> permits[i].Live()
    requires permits[0].request.claims == [Claim(d.key, d.capacity - d.capacity / 2, false)]
    requires permits[1].request.claims == permits[2].request.claims == [Claim(d.key, d.capacity / 2, false)]
    ensures LiveQuantity(permits, d.key) == d.capacity + d.capacity / 2
  {
    assert permits[..2][..1] == permits[..1] && permits[..1][..0] == [];
    assert LiveQuantity(permits[..1], d.key) == d.capacity - d.capacity / 2;
    assert LiveQuantity(permits[..2], d.key) == LiveQuantity(permits[..1], d.key) + d.capacity / 2;
  }

  lemma RegistersOnly(authority: Authority, d: Declaration)
    ensures Apply(Fresh(authority, 10), RegisterOp([d])) == Fresh(authority, 10).(declarations := map[d.key := d])
  {
    var c := Fresh(authority, 10);
    assert [d][..0] == [];
    assert Register(c, [d][..0]) == Registered(c, None);
  }

  lemma GrantsThree(c: Coordinator, entries: seq<Entry>)
    requires c.permits == [] && c.available && !c.cleanupOnly && c.maxPermit == 10
    requires ScanQueue(c.queued, [], c.declarations, 0) == Scan(entries, [])
    ensures Apply(c, GrantOp(c.authority, 0, 10)).permits == Issue(entries, 0, 10)
  {
    hide ScanQueue;
    assert ExpireAll([], 0) == [];
    assert [] + Issue(entries, 0, 10) == Issue(entries, 0, 10);
  }

  lemma OvercommitRuns(authority: Authority, d: Declaration)
    requires d.capacity >= 2 && !d.exclusive
    ensures LiveQuantity(Run(Fresh(authority, 10), Overcommit(authority, d)).permits, d.key) > d.capacity
  {
    hide Apply; hide ScanQueue; hide Run; hide LiveQuantity;
    var ops := Overcommit(authority, d);
    var c0 := Fresh(authority, 10);
    RegistersOnly(authority, d);
    var c1 := c0.(declarations := map[d.key := d]);
    var a := Entry(1, Third(d, "a", d.capacity - d.capacity / 2));
    var b := Entry(2, Third(d, "b", d.capacity / 2));
    var e := Entry(3, Third(d, "c", d.capacity / 2));
    OvercommitQueues(c1, d, d.capacity - d.capacity / 2, d.capacity / 2);
    ScansAll(d, a, b, e);
    GrantsThree(c1.(submissions := 3, queued := [a, b, e]), [a, b, e]);
    OvercommitTotal(d, Issue([a, b, e], 0, 10));
    OvercommitUnfolds(c0, ops, c1, c1.(submissions := 1, queued := [a]), c1.(submissions := 2, queued := [a, b]),
                      c1.(submissions := 3, queued := [a, b, e]));
  }

  lemma OvercommitQueues(c: Coordinator, d: Declaration, more: nat, half: nat)
    requires c.permits == [] && c.queued == [] && c.submissions == 0 && c.declarations == map[d.key := d]
    requires 0 < half <= more <= d.capacity && !d.exclusive
    ensures var a, b, e := Entry(1, Third(d, "a", more)), Entry(2, Third(d, "b", half)), Entry(3, Third(d, "c", half));
      && Apply(c, SubmitOp(a.request, 0)) == c.(submissions := 1, queued := [a])
      && Apply(c.(submissions := 1, queued := [a]), SubmitOp(b.request, 0)) == c.(submissions := 2, queued := [a, b])
      && Apply(c.(submissions := 2, queued := [a, b]), SubmitOp(e.request, 0)) == c.(submissions := 3, queued := [a, b, e])
  {
    hide Apply; hide Fresh;
    var a, b := Entry(1, Third(d, "a", more)), Entry(2, Third(d, "b", half));
    var e := Entry(3, Third(d, "c", half));
    assert "a"[0] != "b"[0] && "a"[0] != "c"[0] && "b"[0] != "c"[0];
    SubmitsThird(c, d, "a", more);
    SubmitsThird(c.(submissions := 1, queued := [a]), d, "b", half);
    SubmitsThird(c.(submissions := 2, queued := [a, b]), d, "c", half);
    assert [] + [a] == [a] && [a] + [b] == [a, b] && [a, b] + [e] == [a, b, e];
  }

  lemma OvercommitUnfolds(c0: Coordinator, ops: seq<Op>, c1: Coordinator, c2: Coordinator, c3: Coordinator, c4: Coordinator)
    requires |ops| == 5
    requires c1 == Apply(c0, ops[0]) && c2 == Apply(c1, ops[1]) && c3 == Apply(c2, ops[2]) && c4 == Apply(c3, ops[3])
    ensures Run(c0, ops) == Apply(c4, ops[4])
  {
    hide Apply;
    assert ops[..4][..3] == ops[..3] && ops[..3][..2] == ops[..2] && ops[..2][..1] == ops[..1] && ops[..1][..0] == [];
    assert Run(c0, ops[..1]) == c1;
    assert Run(c0, ops[..2]) == c2;
    assert Run(c0, ops[..3]) == c3;
    assert Run(c0, ops[..4]) == c4;
  }

  /** The pairwise check keeps every run within a device's capacity exactly when the device is
      exclusive or has capacity one: with more, three requests can fit in pairs yet not together. */
  lemma CapacityHeldExactly(d: Declaration)
    ensures (forall authority, maxPermit: nat, ops :: Fixed(ops, d) ==>
               LiveQuantity(Run(Fresh(authority, maxPermit), ops).permits, d.key) <= d.capacity)
            <==> d.exclusive || d.capacity <= 1
  {
    if d.exclusive || d.capacity <= 1 {
      forall authority, maxPermit: nat, ops | Fixed(ops, d)
        ensures LiveQuantity(Run(Fresh(authority, maxPermit), ops).permits, d.key) <= d.capacity
      {
        CapacityHeld(authority, maxPermit, ops, d);
      }
    } else {
      var authority := Authority("/s", "/a", 1, "b");
      OvercommitRuns(authority, d);
      assert Fixed(Overcommit(authority, d), d);
    }
  }
}
