/** Concrete runs that mark where the coordinator's guarantees stop. */
module AdmissionBoundaries {
  import opened Outcomes
  import opened Requests
  import opened Admission
  import opened AdmissionTime
  import H = AdmissionHistory

  const LEASE: nat := 10

  function Sole(d: Declaration, id: string, quantity: nat, exclusive: bool): Request {
    Request(Identity("/r", id, 1), 100, [Claim(d.key, quantity, exclusive)], CAPABILITY)
  }

  lemma RunStep(c: Coordinator, ops: seq<Op>, op: Op)
    ensures Run(c, ops + [op]) == Apply(Run(c, ops), op)
  {
    assert (ops + [op])[..|ops|] == ops;
  }

  lemma Registers(c: Coordinator, d: Declaration)
    requires !Aliased(c, d.key) && c.permits == [] && (d.key in c.declarations ==> d.sequence > c.declarations[d.key].sequence)
    ensures Apply(c, RegisterOp([d])) == c.(declarations := c.declarations[d.key := d])
  {
    assert [d][..0] == [];
    assert Register(c, [d][..0]) == Registered(c, None);
  }

  lemma Submits(c: Coordinator, d: Declaration, request: Request, now: int)
    requires |request.claims| == 1 && request.claims[0].key == d.key && WellFormed(request) && request.capability == CAPABILITY
    requires d.key in c.declarations && c.declarations[d.key] == d && request.claims[0].quantity <= d.capacity
    requires d.exclusive ==> request.claims[0].exclusive
    requires now < request.deadline
    requires forall e :: e in c.queued ==> e.request.identity != request.identity
    requires forall p :: p in c.permits ==> p.request.identity != request.identity
    ensures Apply(c, SubmitOp(request, now))
         == c.(submissions := c.submissions + 1, queued := c.queued + [Entry(c.submissions + 1, request)])
  {
    assert ClaimError(c, request.claims[1..]) == None;
    assert ClaimError(c, request.claims) == None;
  }

  lemma GrantsSole(c: Coordinator, e: Entry, now: int)
    requires c.queued == [e] && now < e.request.deadline && c.available && !c.cleanupOnly && c.maxPermit == LEASE
    requires forall i :: 0 <= i < |c.permits| ==> !c.permits[i].Live()
    ensures Apply(c, GrantOp(c.authority, now, LEASE))
         == c.(queued := [], permits := c.permits + [PermitFor(e, now, LEASE)])
  {
    assert ExpireAll(c.permits, now) == c.permits;
    assert [e][..0] == [];
    assert ScanQueue([e], c.permits, c.declarations, now) == Scan([] + [e], []);
    assert Issue([e], now, LEASE) == [PermitFor(e, now, LEASE)];
  }

  // ----- two clashing permits, one after the other -----

  /** One request is granted at 0, ended by `middle`, and a clashing one granted at `second`. */
  function TwoGrants(authority: Authority, d: Declaration, middle: Op, second: int): seq<Op> {
    [RegisterOp([d])] + [SubmitOp(Sole(d, "a", 1, true), 0)] + [GrantOp(authority, 0, LEASE)] + [middle]
    + [SubmitOp(Sole(d, "b", 1, true), 0)] + [GrantOp(authority, second, LEASE)]
  }

  lemma TwoGrantsRun(authority: Authority, d: Declaration, middle: Op, second: int, ended: Standing)
    requires d.capacity > 0 && second < 100 && ended.Released?
    requires var a := PermitFor(Entry(1, Sole(d, "a", 1, true)), 0, LEASE);
      forall c: Coordinator :: c.permits == [a] ==> Apply(c, middle) == c.(permits := [a.(standing := ended)])
    ensures Run(Fresh(authority, LEASE), TwoGrants(authority, d, middle, second)).permits
         == [PermitFor(Entry(1, Sole(d, "a", 1, true)), 0, LEASE).(standing := ended),
             PermitFor(Entry(2, Sole(d, "b", 1, true)), second, LEASE)]
  {
    hide Apply; hide Run;
    var c0 := Fresh(authority, LEASE);
    var ra, rb := Sole(d, "a", 1, true), Sole(d, "b", 1, true);
    var a := PermitFor(Entry(1, ra), 0, LEASE);
    var o1 := [RegisterOp([d])];
    var o2 := o1 + [SubmitOp(ra, 0)];
    var o3 := o2 + [GrantOp(authority, 0, LEASE)];
    var o4 := o3 + [middle];
    var o5 := o4 + [SubmitOp(rb, 0)];
    RunStep(c0, [], RegisterOp([d]));
    assert Run(c0, []) == c0 by { RunNothing(c0); }
    assert [] + [RegisterOp([d])] == o1;
    Registers(c0, d);
    var c1 := Run(c0, o1);
    RunStep(c0, o1, SubmitOp(ra, 0));
    Submits(c1, d, ra, 0);
    var c2 := Run(c0, o2);
    RunStep(c0, o2, GrantOp(authority, 0, LEASE));
    assert c2.queued == [Entry(1, ra)];
    GrantsSole(c2, Entry(1, ra), 0);
    var c3 := Run(c0, o3);
    assert c3.permits == [a];
    RunStep(c0, o3, middle);
    var c4 := Run(c0, o4);
    RunStep(c0, o4, SubmitOp(rb, 0));
    Submits(c4, d, rb, 0);
    var c5 := Run(c0, o5);
    assert c5.queued == [Entry(2, rb)];
    RunStep(c0, o5, GrantOp(authority, second, LEASE));
    GrantsSole(c5, Entry(2, rb), second);
  }

  lemma RunNothing(c: Coordinator)
    ensures Run(c, []) == c
  {
  }

  /** Two permits for one device whose validity windows share an instant. */
  ghost predicate WindowsMeet(permits: seq<Permit>) {
    exists i, j :: 0 <= i < j < |permits| && Clash(permits[i].request, permits[j].request)
                && permits[i].issuedAt <= permits[j].issuedAt < permits[i].expiresAt
  }

  /** An early release lets a clashing permit be issued inside the first one's window. */
  lemma EarlyReleaseLetsWindowsMeet(authority: Authority, d: Declaration)
    requires d.capacity > 0
    ensures Monotone(TwoGrants(authority, d, ReleaseOp(1, 0, "done"), 2), 0)
    ensures WindowsMeet(Run(Fresh(authority, LEASE), TwoGrants(authority, d, ReleaseOp(1, 0, "done"), 2)).permits)
  {
    TwoGrantsRun(authority, d, ReleaseOp(1, 0, "done"), 2, Released(0, Called));
    var permits := Run(Fresh(authority, LEASE), TwoGrants(authority, d, ReleaseOp(1, 0, "done"), 2)).permits;
    hide Run;
    assert Clash(permits[0].request, permits[1].request);
    TwoGrantsMonotone(authority, d, ReleaseOp(1, 0, "done"), 2);
  }

  lemma TwoGrantsMonotone(authority: Authority, d: Declaration, middle: Op, second: int)
    requires Time(middle) == Some(0) && second >= 0
    ensures Monotone(TwoGrants(authority, d, middle, second), 0)
  {
    var ops := TwoGrants(authority, d, middle, second);
    assert ops[..5][..4] == ops[..4] && ops[..4][..3] == ops[..3] && ops[..3][..2] == ops[..2] && ops[..2][..1] == ops[..1] && ops[..1][..0] == [];
    assert ops[0] == RegisterOp([d]) && Time(ops[0]) == None;
    assert Monotone([], 0) && Clock([], 0) == 0;
    assert Monotone(ops[..1], 0) && Clock(ops[..1], 0) == 0;
    assert Monotone(ops[..2], 0) && Clock(ops[..2], 0) == 0;
    assert Monotone(ops[..3], 0) && Clock(ops[..3], 0) == 0;
    assert Monotone(ops[..4], 0) && Clock(ops[..4], 0) == 0;
    assert Monotone(ops[..5], 0) && Clock(ops[..5], 0) == 0;
  }

  /** With a clock that steps back after an expiry the windows meet although nothing was released by call. */
  lemma ClockSteppingBackLetsWindowsMeet(authority: Authority, d: Declaration)
    requires d.capacity > 0
    ensures var permits := Run(Fresh(authority, LEASE), TwoGrants(authority, d, ExpireOp(10), 5)).permits;
      && WindowsMeet(permits)
      && permits[0].standing == Released(10, LeaseExpired)
  {
    var a := PermitFor(Entry(1, Sole(d, "a", 1, true)), 0, LEASE);
    forall c: Coordinator | c.permits == [a]
      ensures Apply(c, ExpireOp(10)) == c.(permits := [a.(standing := Released(10, LeaseExpired))])
    {
      assert ExpireAll([a], 10) == [a.(standing := Released(10, LeaseExpired))];
    }
    TwoGrantsRun(authority, d, ExpireOp(10), 5, Released(10, LeaseExpired));
    var permits := Run(Fresh(authority, LEASE), TwoGrants(authority, d, ExpireOp(10), 5)).permits;
    hide Run; hide Apply;
    assert Clash(permits[0].request, permits[1].request);
  }

  // ----- a declaration changed while a request waits -----

  /** A queued request is not looked at again when its device is declared anew: it is granted
      although it claims more than the device now has. */
  lemma RedeclaredWhileQueued(authority: Authority, key: Key)
    ensures var ops := [RegisterOp([Declaration(key, 2, true, 1)])] + [SubmitOp(Sole(Declaration(key, 2, true, 1), "a", 2, true), 0)]
                     + [RegisterOp([Declaration(key, 1, true, 2)])] + [GrantOp(authority, 0, LEASE)];
      var c := Run(Fresh(authority, LEASE), ops);
      key in c.declarations && H.LiveQuantity(c.permits, key) > c.declarations[key].capacity
  {
    hide Apply; hide Run;
    var c0 := Fresh(authority, LEASE);
    var d1, d2 := Declaration(key, 2, true, 1), Declaration(key, 1, true, 2);
    var r := Sole(d1, "a", 2, true);
    var o1 := [RegisterOp([d1])];
    var o2 := o1 + [SubmitOp(r, 0)];
    var o3 := o2 + [RegisterOp([d2])];
    RunStep(c0, [], RegisterOp([d1]));
    assert Run(c0, []) == c0 by { RunNothing(c0); }
    assert [] + [RegisterOp([d1])] == o1;
    Registers(c0, d1);
    var c1 := Run(c0, o1);
    RunStep(c0, o1, SubmitOp(r, 0));
    Submits(c1, d1, r, 0);
    var c2 := Run(c0, o2);
    RunStep(c0, o2, RegisterOp([d2]));
    Registers(c2, d2);
    var c3 := Run(c0, o3);
    RunStep(c0, o3, GrantOp(authority, 0, LEASE));
    assert c3.queued == [Entry(1, r)];
    GrantsSole(c3, Entry(1, r), 0);
    var p := PermitFor(Entry(1, r), 0, LEASE);
    assert [p][..0] == [];
    assert H.LiveQuantity([p], key) == H.LiveQuantity([], key) + 2;
  }
}
