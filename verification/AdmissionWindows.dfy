/** When the validity windows of clashing permits stay apart. */
module AdmissionWindows {
  import opened Outcomes
  import opened Requests
  import opened Admission
  import opened AdmissionInvariant
  import opened AdmissionTime
  import R = AdmissionRedeclared

  /** Of two clashing permits the earlier one's window ends by the time the later one is issued. */
  ghost predicate WindowsApart(permits: seq<Permit>) {
    forall i, j :: 0 <= i < j < |permits| && Clash(permits[i].request, permits[j].request) ==> permits[i].expiresAt <= permits[j].issuedAt
  }

  /** The permit was ended by a call, and its window is still running. */
  predicate Cut(p: Permit, clock: int) {
    p.standing.Released? && p.standing.cause.Called? && clock < p.expiresAt
  }

  ghost predicate NoneCut(permits: seq<Permit>, clock: int) {
    forall i :: 0 <= i < |permits| ==> !Cut(permits[i], clock)
  }

  /** Some live permit claims the key for at least as long as that. */
  ghost predicate Covered(permits: seq<Permit>, key: Key, until: int) {
    exists q :: 0 <= q < |permits| && permits[q].Live() && Claims(permits[q].request, key) && permits[q].expiresAt >= until
  }

  /** Whatever a cut permit claims is held by a live permit until its window ends. */
  ghost predicate CutsCovered(permits: seq<Permit>, clock: int) {
    forall i, key :: 0 <= i < |permits| && Cut(permits[i], clock) && Claims(permits[i].request, key) ==>
      Covered(permits, key, permits[i].expiresAt)
  }

  /** The call ends a live permit before its window has run out. */
  ghost predicate Early(c: Coordinator, op: Op) {
    op.ReleaseOp? && exists i :: 0 <= i < |c.permits| && c.permits[i].id == op.id && c.permits[i].Live() && op.now < c.permits[i].expiresAt
  }

  ghost predicate NoEarlyRelease(c: Coordinator, ops: seq<Op>) {
    forall n :: 0 <= n < |ops| ==> !Early(Run(c, ops[..n]), ops[n])
  }

  // ----- covered windows stay apart -----

  predicate IssuedBy(p: Permit, op: Op) {
    op.GrantOp? && p.Live() && p.issuedAt == op.now
  }

  /** One operation, in all that the windows depend on. */
  ghost predicate Evolved(c: Coordinator, op: Op) {
    var next := Apply(c, op);
    && Persists(c.permits, next.permits)
    && (forall i :: 0 <= i < |c.permits| && c.permits[i].Live() && next.permits[i].standing.Released? && next.permits[i].standing.cause.Called? ==>
          op.ReleaseOp? && op.id == c.permits[i].id && next.permits[i].standing.at == op.now)
    && (forall i :: |c.permits| <= i < |next.permits| ==> IssuedBy(next.permits[i], op))
  }

  lemma {:induction false} OnlyCallsCut(c: Coordinator, op: Op, i: nat)
    requires i < |c.permits| && c.permits[i].Live() && i < |Apply(c, op).permits|
    requires Apply(c, op).permits[i].standing.Released? && Apply(c, op).permits[i].standing.cause.Called?
    ensures op.ReleaseOp? && op.id == c.permits[i].id && Apply(c, op).permits[i].standing.at == op.now
  {
    hide ScanQueue; hide BindingError; hide PermitOf; hide EntryOf; hide ClaimError; hide Blank; hide WellFormed;
    if op.RegisterOp? {
      RegisterLeavesPermits(c, op.declarations);
      hide Register;
    }
  }

  lemma {:induction false} OnlyGrantsIssue(c: Coordinator, op: Op, i: nat)
    requires |c.permits| <= i < |Apply(c, op).permits|
    ensures IssuedBy(Apply(c, op).permits[i], op)
  {
    hide ScanQueue; hide BindingError; hide PermitOf; hide EntryOf; hide ClaimError; hide Blank; hide WellFormed; hide IndexOf;
    if !op.GrantOp? {
      SamePermitCount(c, op);
    }
  }

  lemma {:induction false} Evolves(c: Coordinator, op: Op)
    ensures Evolved(c, op)
  {
    var next := Apply(c, op);
    ApplyPersists(c, op);
    assert |c.permits| <= |next.permits|;
    hide Apply;
    forall i | 0 <= i < |c.permits| && c.permits[i].Live() && next.permits[i].standing.Released? && next.permits[i].standing.cause.Called?
      ensures op.ReleaseOp? && op.id == c.permits[i].id && next.permits[i].standing.at == op.now
    {
      OnlyCallsCut(c, op, i);
    }
    forall i | |c.permits| <= i < |next.permits| ensures IssuedBy(next.permits[i], op) {
      OnlyGrantsIssue(c, op, i);
    }
  }

  /** A live permit that outlasts the clock is still live after an operation that is no early release. */
  lemma StaysLive(c: Coordinator, op: Op, clock: int, q: nat)
    requires Evolved(c, op) && Timely(Apply(c, op), clock) && !Early(c, op)
    requires op.ReleaseOp? ==> op.now <= clock
    requires q < |c.permits| && c.permits[q].Live() && clock < c.permits[q].expiresAt
    ensures Apply(c, op).permits[q].Live()
  {
    hide Spaced;
    var next := Apply(c, op);
    hide Apply;
    assert Dated(next.permits[q], clock);
  }

  lemma StillCovered(c: Coordinator, op: Op, clock: int, key: Key, until: int)
    requires Evolved(c, op) && Timely(Apply(c, op), clock) && !Early(c, op) && (op.ReleaseOp? ==> op.now <= clock)
    requires Covered(c.permits, key, until) && clock < until
    ensures Covered(Apply(c, op).permits, key, until)
  {
    var q :| 0 <= q < |c.permits| && c.permits[q].Live() && Claims(c.permits[q].request, key) && c.permits[q].expiresAt >= until;
    StaysLive(c, op, clock, q);
    hide Apply;
    assert Claims(Apply(c, op).permits[q].request, key);
  }

  lemma CutsStayCovered(c: Coordinator, op: Op, clock: int, later: int)
    requires Evolved(c, op) && Timely(Apply(c, op), later) && !Early(c, op) && (op.ReleaseOp? ==> op.now == later) && clock <= later
    requires CutsCovered(c.permits, clock)
    ensures CutsCovered(Apply(c, op).permits, later)
  {
    var next := Apply(c, op);
    hide Apply; hide Timely; hide Claims; hide Covered;
    forall i, key | 0 <= i < |next.permits| && Cut(next.permits[i], later) && Claims(next.permits[i].request, key)
      ensures Covered(next.permits, key, next.permits[i].expiresAt)
    {
      assert i < |c.permits|;
      assert c.permits[i].Live() ==> Early(c, op);
      assert Cut(c.permits[i], clock);
      StillCovered(c, op, later, key, c.permits[i].expiresAt);
    }
  }

  /** A cut permit's device is covered only where it shares it. */
  lemma CoverShares(permits: seq<Permit>, i: nat, q: nat, a: nat, clock: int)
    requires WindowsApart(permits) && i < |permits| && q < |permits| && Cut(permits[i], clock) && permits[q].Live()
    requires permits[i].issuedAt <= clock && permits[q].issuedAt <= clock && permits[q].expiresAt >= permits[i].expiresAt
    requires a < |permits[i].request.claims| && Claims(permits[q].request, permits[i].request.claims[a].key)
    ensures !permits[i].request.claims[a].exclusive
  {
    if permits[i].request.claims[a].exclusive {
      var b :| 0 <= b < |permits[q].request.claims| && permits[q].request.claims[b].key == permits[i].request.claims[a].key;
      assert Clash(permits[i].request, permits[q].request) && Clash(permits[q].request, permits[i].request);
    }
  }

  lemma SharedKeyConflicts(left: Request, right: Request, key: Key, b: nat, declarations: map<Key, Declaration>)
    requires Claims(left, key) && b < |right.claims| && right.claims[b].key == key && right.claims[b].exclusive && Declared(left, declarations)
    ensures RequestsConflict(left, right, declarations)
  {
    var a :| 0 <= a < |left.claims| && left.claims[a].key == key;
    assert Clash(left, right);
    ClashConflicts(left, right, declarations);
  }

  /** Where a cut permit is covered, one issued beside it does not clash with it. */
  lemma CoverBlocks(c: Coordinator, next: Coordinator, clock: int, i: nat, q: nat, j: nat, a: nat, b: nat)
    requires Inv(next) && Timely(c, clock) && WindowsApart(c.permits) && Persists(c.permits, next.permits)
    requires i < |c.permits| && q < |c.permits| <= j < |next.permits| && next.permits[j].Live()
    requires Cut(c.permits[i], clock) && c.permits[q].Live() && next.permits[q].Live() && c.permits[q].expiresAt >= c.permits[i].expiresAt
    requires a < |c.permits[i].request.claims| && b < |next.permits[j].request.claims|
    requires c.permits[i].request.claims[a].key == next.permits[j].request.claims[b].key
    requires Claims(c.permits[q].request, c.permits[i].request.claims[a].key)
    ensures !c.permits[i].request.claims[a].exclusive && !next.permits[j].request.claims[b].exclusive
  {
    hide Unique; hide Unaliased; hide RequestsConflict; hide WellFormed; hide Spaced; hide WindowsApart; hide Claims;
    assert Dated(c.permits[i], clock) && Dated(c.permits[q], clock);
    CoverShares(c.permits, i, q, a, clock);
    if next.permits[j].request.claims[b].exclusive {
      assert next.permits[q] in next.permits;
      SharedKeyConflicts(next.permits[q].request, next.permits[j].request, c.permits[i].request.claims[a].key, b, next.declarations);
    }
  }

  lemma NewPermitApart(c: Coordinator, op: Op, clock: int, i: nat, j: nat)
    requires op.GrantOp? && clock <= op.now && Evolved(c, op)
    requires var next := Apply(c, op);
      && Inv(next) && Timely(c, clock) && Timely(next, op.now) && WindowsApart(c.permits) && CutsCovered(c.permits, clock)
      && i < j < |next.permits| && |c.permits| <= j && Clash(next.permits[i].request, next.permits[j].request)
    ensures Apply(c, op).permits[i].expiresAt <= op.now
  {
    var next := Apply(c, op);
    var p, n := next.permits[i], next.permits[j];
    assert Persists(c.permits, next.permits) && next.permits[j].Live();
    assert i >= |c.permits| ==> p.Live();
    if p.Live() {
      NotBothLive(next, i, j);
    } else if op.now < p.expiresAt {
      assert Dated(p, op.now) by { hide Spaced; }
      assert c.permits[i].Live() ==> op.ReleaseOp?;
      var a, b :| 0 <= a < |p.request.claims| && 0 <= b < |n.request.claims| && p.request.claims[a].key == n.request.claims[b].key
               && (p.request.claims[a].exclusive || n.request.claims[b].exclusive);
      hide Apply; hide Timely; hide Inv; hide WindowsApart; hide Clash;
      assert p == c.permits[i] && Cut(p, clock);
      var key := p.request.claims[a].key;
      assert Claims(p.request, key);
      var q :| 0 <= q < |c.permits| && c.permits[q].Live() && Claims(c.permits[q].request, key) && c.permits[q].expiresAt >= p.expiresAt;
      StaysLive(c, op, op.now, q);
      CoverBlocks(c, next, clock, i, q, j, a, b);
    }
  }

  lemma NotBothLive(c: Coordinator, i: nat, j: nat)
    requires Inv(c) && i < j < |c.permits| && c.permits[i].Live() && c.permits[j].Live()
    ensures !Clash(c.permits[i].request, c.permits[j].request)
  {
    hide Unique; hide Unaliased; hide RequestsConflict; hide WellFormed; hide Clash;
    assert c.permits[i] in c.permits;
    if Clash(c.permits[i].request, c.permits[j].request) {
      ClashConflicts(c.permits[i].request, c.permits[j].request, c.declarations);
    }
  }

  /** The windows are apart, and every cut one is covered. */
  ghost predicate Sealed(c: Coordinator, clock: int) {
    WindowsApart(c.permits) && CutsCovered(c.permits, clock)
  }

  function Later(op: Op, clock: int): int {
    if Time(op).Some? then Time(op).value else clock
  }

  lemma ApplySealed(c: Coordinator, op: Op, clock: int)
    requires Inv(c) && Timely(c, clock) && Sealed(c, clock) && clock <= Later(op, clock) && !Early(c, op)
    ensures Sealed(Apply(c, op), Later(op, clock))
  {
    ApplyKeeps(c, op);
    ApplyTimely(c, op, clock);
    Evolves(c, op);
    var next := Apply(c, op);
    hide Inv; hide Timely; hide Apply; hide Early;
    CutsStayCovered(c, op, clock, Later(op, clock));
    hide CutsCovered; hide Clash;
    forall i, j | 0 <= i < j < |next.permits| && Clash(next.permits[i].request, next.permits[j].request)
      ensures next.permits[i].expiresAt <= next.permits[j].issuedAt
    {
      if j < |c.permits| {
        assert Clash(c.permits[i].request, c.permits[j].request);
      } else {
        NewPermitApart(c, op, clock, i, j);
      }
    }
  }

  lemma {:induction false} RunSealed(c: Coordinator, ops: seq<Op>, clock: int)
    requires Inv(c) && Timely(c, clock) && Sealed(c, clock) && Monotone(ops, clock) && NoEarlyRelease(c, ops)
    ensures Sealed(Run(c, ops), Clock(ops, clock)) && Timely(Run(c, ops), Clock(ops, clock)) && Inv(Run(c, ops))
  {
    hide Apply; hide Sealed; hide Timely; hide Inv;
    if ops != [] {
      var front, last := ops[..|ops| - 1], ops[|ops| - 1];
      forall n | 0 <= n < |front| ensures !Early(Run(c, front[..n]), front[n]) {
        assert front[..n] == ops[..n];
        assert !Early(Run(c, ops[..n]), ops[n]);
      }
      RunSealed(c, front, clock);
      assert !Early(Run(c, ops[..|front|]), ops[|front|]);
      hide Early;
      ApplySealed(Run(c, front), last, Clock(front, clock));
      ApplyTimely(Run(c, front), last, Clock(front, clock));
      ApplyKeeps(Run(c, front), last);
    }
  }

  // ----- a cut window that nothing covers -----

  function Above(permits: seq<Permit>, queued: seq<Entry>): (n: nat)
    ensures n > 0
    ensures forall p :: p in permits ==> p.request.identity.attempt < n
    ensures forall e :: e in queued ==> e.request.identity.attempt < n
    decreases |permits| + |queued|
  {
    if permits != [] then
      var rest := Above(permits[1..], queued);
      assert permits == [permits[0]] + permits[1..];
      if permits[0].request.identity.attempt < rest then rest else permits[0].request.identity.attempt + 1
    else if queued != [] then
      var rest := Above([], queued[1..]);
      assert queued == [queued[0]] + queued[1..];
      if queued[0].request.identity.attempt < rest then rest else queued[0].request.identity.attempt + 1
    else 1
  }

  /** A new request for the device alone, good for the instant only. */
  function Newcomer(c: Coordinator, key: Key, now: int): Request {
    Request(Identity("/r", "q", Above(c.permits, c.queued)), (if now >= 0 then now else 0) + 1, [Claim(key, 1, true)], CAPABILITY)
  }

  /** Expire what is due, declare the device anew, ask for it and grant. */
  function Intrusion(c: Coordinator, key: Key, now: int): seq<Op>
    requires key in c.declarations
  {
    [ModeOp(true, false)] + [ExpireOp(now)] + [RegisterOp([Declaration(key, 1, true, c.declarations[key].sequence + 1)])]
    + [SubmitOp(Newcomer(c, key, now), now)] + [GrantOp(c.authority, now, 1)]
  }

  lemma IntrusionMonotone(c: Coordinator, key: Key, now: int, clock: int)
    requires key in c.declarations && clock <= now
    ensures Monotone(Intrusion(c, key, now), clock) && NoEarlyRelease(c, Intrusion(c, key, now))
  {
    var ops := Intrusion(c, key, now);
    hide Run;
    assert ops[..4][..3] == ops[..3] && ops[..3][..2] == ops[..2] && ops[..2][..1] == ops[..1] && ops[..1][..0] == [];
    assert Monotone([], clock) && Clock([], clock) == clock;
    assert Monotone(ops[..1], clock) && Clock(ops[..1], clock) == clock;
    assert Monotone(ops[..2], clock) && Clock(ops[..2], clock) == now;
    assert Monotone(ops[..3], clock) && Clock(ops[..3], clock) == now;
    assert Monotone(ops[..4], clock) && Clock(ops[..4], clock) == now;
  }

  ghost predicate NotLiveAt(permits: seq<Permit>, key: Key) {
    forall i :: 0 <= i < |permits| && permits[i].Live() ==> !Claims(permits[i].request, key)
  }

  /** The coordinator open, expired and with the device declared anew. */
  function Prepared(c: Coordinator, key: Key, now: int): Coordinator
    requires key in c.declarations
  {
    c.(available := true, cleanupOnly := false, permits := ExpireAll(c.permits, now),
       declarations := c.declarations[key := Declaration(key, 1, true, c.declarations[key].sequence + 1)])
  }

  lemma RegistersAnew(c: Coordinator, key: Key)
    requires Inv(c) && key in c.declarations && NotLiveAt(c.permits, key)
    ensures var d := Declaration(key, 1, true, c.declarations[key].sequence + 1);
      Apply(c, RegisterOp([d])) == c.(declarations := c.declarations[key := d])
  {
    hide Unique; hide Exclusive; hide WellFormed; hide Claims;
    var d := Declaration(key, 1, true, c.declarations[key].sequence + 1);
    assert [d][..0] == [];
    assert Register(c, [d][..0]) == Registered(c, None);
    assert !Aliased(c, key) && !ClaimLive(c, key);
  }

  lemma NewcomerQueues(c: Coordinator, key: Key, now: int)
    requires key in c.declarations
    ensures var p := Prepared(c, key, now);
      var r := Newcomer(c, key, now);
      Apply(p, SubmitOp(r, now)) == p.(submissions := c.submissions + 1, queued := c.queued + [Entry(c.submissions + 1, r)])
  {
    var p, r := Prepared(c, key, now), Newcomer(c, key, now);
    assert ClaimError(p, r.claims[1..]) == None;
    assert ClaimError(p, r.claims) == None;
    forall x | x in p.permits ensures x.request.identity != r.identity {
      var i :| 0 <= i < |p.permits| && p.permits[i] == x;
      assert c.permits[i] in c.permits;
    }
    hide Above;
  }

  lemma {:induction false} RunsTwo(c: Coordinator, now: int)
    ensures Run(c, [ModeOp(true, false)] + [ExpireOp(now)])
         == c.(available := true, cleanupOnly := false, permits := ExpireAll(c.permits, now))
  {
    var o1 := [ModeOp(true, false)];
    R.RunNone(c);
    assert [] + o1 == o1;
    hide Run; hide Apply;
    R.RunAppend(c, [], ModeOp(true, false));
    R.RunAppend(c, o1, ExpireOp(now));
    OpensAndSweeps(c, now);
  }

  lemma {:induction false} Prepares(c: Coordinator, swept: Coordinator, key: Key, now: int)
    requires key in c.declarations && Inv(swept) && NotLiveAt(swept.permits, key)
    requires swept == c.(available := true, cleanupOnly := false, permits := ExpireAll(c.permits, now))
    ensures Apply(swept, RegisterOp([Declaration(key, 1, true, c.declarations[key].sequence + 1)])) == Prepared(c, key, now)
  {
    hide Apply; hide ExpireAll; hide Inv; hide NotLiveAt;
    RegistersAnew(swept, key);
  }

  lemma {:induction false} RunsThree(c: Coordinator, key: Key, now: int)
    requires Inv(c) && key in c.declarations && NotLiveAt(ExpireAll(c.permits, now), key)
    ensures var d := Declaration(key, 1, true, c.declarations[key].sequence + 1);
      Run(c, [ModeOp(true, false)] + [ExpireOp(now)] + [RegisterOp([d])]) == Prepared(c, key, now)
  {
    hide Run; hide Apply; hide ExpireAll; hide Inv; hide NotLiveAt; hide Prepared;
    var o2 := [ModeOp(true, false)] + [ExpireOp(now)];
    RunsTwo(c, now);
    RunInv(c, o2);
    R.RunAppend(c, o2, RegisterOp([Declaration(key, 1, true, c.declarations[key].sequence + 1)]));
    Prepares(c, Run(c, o2), key, now);
  }

  lemma OpensAndSweeps(c: Coordinator, now: int)
    ensures Apply(Apply(c, ModeOp(true, false)), ExpireOp(now))
         == c.(available := true, cleanupOnly := false, permits := ExpireAll(c.permits, now))
  {
    hide ExpireAll;
  }

  /** The last state of the intrusion. */
  lemma IntrusionRuns(c: Coordinator, key: Key, now: int)
    requires Inv(c) && key in c.declarations && NotLiveAt(ExpireAll(c.permits, now), key)
    ensures var p := Prepared(c, key, now);
      Run(c, Intrusion(c, key, now))
      == GrantNext(p.(submissions := c.submissions + 1, queued := c.queued + [Entry(c.submissions + 1, Newcomer(c, key, now))]),
                   c.authority, now, 1).state
  {
    var d := Declaration(key, 1, true, c.declarations[key].sequence + 1);
    var o3 := [ModeOp(true, false)] + [ExpireOp(now)] + [RegisterOp([d])];
    var o4 := o3 + [SubmitOp(Newcomer(c, key, now), now)];
    assert Intrusion(c, key, now) == o4 + [GrantOp(c.authority, now, 1)];
    RunsThree(c, key, now);
    hide Run; hide Newcomer; hide GrantNext; hide Prepared; hide Inv; hide NotLiveAt; hide Intrusion;
    R.RunAppend(c, o3, SubmitOp(Newcomer(c, key, now), now));
    R.RunAppend(c, o4, GrantOp(c.authority, now, 1));
    NewcomerQueues(c, key, now);
    hide Submit; hide WellFormed;
  }

  /** Someone waiting who claims the device is granted when no live permit claims it and a request for it
      alone is queued. */
  lemma SomeoneGranted(queued: seq<Entry>, e: Entry, permits: seq<Permit>, declarations: map<Key, Declaration>, now: int, key: Key) returns (k: nat)
    requires NotLiveAt(permits, key) && now < e.request.deadline && e.request.claims == [Claim(key, 1, true)]
    ensures var selected := ScanQueue(queued + [e], permits, declarations, now).selected;
      k < |selected| && Claims(selected[k].request, key) && selected[k] in queued + [e]
  {
    ScanMembers(queued + [e], permits, declarations, now);
    ScanMaximal(queued + [e], permits, declarations, now);
    var scan := ScanQueue(queued + [e], permits, declarations, now);
    hide ScanQueue;
    assert e in queued + [e];
    if e in scan.selected {
      k :| 0 <= k < |scan.selected| && scan.selected[k] == e;
      assert e.request.claims[0].key == key;
    } else {
      assert !BlockedByPermit(e.request, permits, declarations) by { OnlyItsKey(e.request, permits, declarations, key); }
      hide BlockedByPermit; hide RequestsConflict;
      k :| 0 <= k < |scan.selected| && RequestsConflict(e.request, scan.selected[k].request, declarations);
      ConflictNamesKey(e.request, scan.selected[k].request, declarations, key);
    }
    assert scan.selected[k] in scan.selected;
  }

  lemma ConflictNamesKey(r: Request, other: Request, declarations: map<Key, Declaration>, key: Key)
    requires r.claims == [Claim(key, 1, true)] && RequestsConflict(r, other, declarations)
    ensures Claims(other, key)
  {
  }

  lemma OnlyItsKey(r: Request, permits: seq<Permit>, declarations: map<Key, Declaration>, key: Key)
    requires r.claims == [Claim(key, 1, true)] && NotLiveAt(permits, key)
    ensures !BlockedByPermit(r, permits, declarations)
  {
    hide RequestsConflict;
    forall k | 0 <= k < |permits| && RequestsConflict(r, permits[k].request, declarations) ensures Claims(permits[k].request, key) {
      ConflictNamesKey(r, permits[k].request, declarations, key);
    }
  }

  /** Every queued request that names a cut permit's device clashes with it there. */
  ghost predicate QueueClashes(c: Coordinator, clock: int) {
    forall i, e, key :: 0 <= i < |c.permits| && Cut(c.permits[i], clock) && e in c.queued && Claims(c.permits[i].request, key) && Claims(e.request, key) ==>
      Clash(c.permits[i].request, e.request)
  }

  /** The grant issues a permit that clashes with the cut one inside its window. */
  lemma GrantMeets(c: Coordinator, i: nat, e: Entry, queued: seq<Entry>, now: int, key: Key)
    requires c.available && !c.cleanupOnly && c.queued == queued + [e] && NotLiveAt(c.permits, key)
    requires i < |c.permits| && now < c.permits[i].expiresAt && Claims(c.permits[i].request, key)
    requires now < e.request.deadline && e.request.claims == [Claim(key, 1, true)]
    requires forall f :: f in queued && Claims(f.request, key) ==> Clash(c.permits[i].request, f.request)
    ensures !WindowsApart(GrantNext(c, c.authority, now, 1).state.permits)
  {
    var again := ExpireAll(c.permits, now);
    StillNotLive(c.permits, now, key);
    assert again[i].request == c.permits[i].request && again[i].expiresAt == c.permits[i].expiresAt;
    NewcomerClashes(c.permits[i].request, e.request, key);
    hide NotLiveAt; hide ExpireAll;
    var k := SomeoneGranted(queued, e, again, c.declarations, now, key);
    hide ScanQueue; hide Clash; hide Claims;
    var last := GrantNext(c, c.authority, now, 1).state.permits;
    assert last[i] == again[i];
    assert last[|again| + k].issuedAt == now && Clash(last[i].request, last[|again| + k].request);
  }

  lemma IntrusionMeets(c: Coordinator, clock: int, i: nat, key: Key)
    requires Inv(c) && Timely(c, clock) && QueueClashes(c, clock)
    requires i < |c.permits| && Cut(c.permits[i], clock) && Claims(c.permits[i].request, key) && !Covered(c.permits, key, c.permits[i].expiresAt)
    ensures key in c.declarations
    ensures var now := c.permits[i].expiresAt - 1;
      clock <= now && !WindowsApart(Run(c, Intrusion(c, key, now)).permits)
  {
    var now := c.permits[i].expiresAt - 1;
    ClaimedDeclared(c, i, key);
    UncoveredEnds(c.permits, key, c.permits[i].expiresAt);
    IntrusionRuns(c, key, now);
    var e := Entry(c.submissions + 1, Newcomer(c, key, now));
    var ready := Prepared(c, key, now).(submissions := c.submissions + 1, queued := c.queued + [e]);
    assert ready.permits[i].request == c.permits[i].request && ready.permits[i].expiresAt == c.permits[i].expiresAt;
    hide Run; hide GrantNext; hide Inv; hide Timely; hide Clash; hide Claims; hide NotLiveAt; hide WindowsApart; hide Above; hide ExpireAll;
    GrantMeets(ready, i, e, c.queued, now, key);
  }

  lemma NewcomerClashes(p: Request, r: Request, key: Key)
    requires Claims(p, key) && r.claims == [Claim(key, 1, true)]
    ensures Clash(p, r)
  {
    var a :| 0 <= a < |p.claims| && p.claims[a].key == key;
    assert r.claims[0].key == key;
  }

  lemma ClaimedDeclared(c: Coordinator, i: nat, key: Key)
    requires Inv(c) && i < |c.permits| && Claims(c.permits[i].request, key)
    ensures key in c.declarations
  {
    hide Unique; hide Exclusive; hide Unaliased; hide WellFormed;
    assert c.permits[i] in c.permits;
  }

  lemma UncoveredEnds(permits: seq<Permit>, key: Key, until: int)
    requires !Covered(permits, key, until)
    ensures NotLiveAt(ExpireAll(permits, until - 1), key)
  {
    hide Claims;
  }

  lemma StillNotLive(permits: seq<Permit>, now: int, key: Key)
    requires NotLiveAt(permits, key)
    ensures NotLiveAt(ExpireAll(permits, now), key)
  {
    hide Claims;
  }

  // ----- exactly -----

  ghost predicate StaysApart(c: Coordinator, clock: int) {
    forall more :: Monotone(more, clock) && NoEarlyRelease(c, more) ==> WindowsApart(Run(c, more).permits)
  }

  lemma SealedStaysApart(c: Coordinator, clock: int)
    requires Inv(c) && Timely(c, clock) && Sealed(c, clock)
    ensures StaysApart(c, clock)
  {
    forall more | Monotone(more, clock) && NoEarlyRelease(c, more) ensures WindowsApart(Run(c, more).permits) {
      RunSealed(c, more, clock);
      hide Run; hide Inv; hide Timely; hide CutsCovered; hide WindowsApart;
    }
  }

  lemma FindsUncovered(c: Coordinator, clock: int) returns (i: nat, key: Key)
    requires !CutsCovered(c.permits, clock)
    ensures i < |c.permits| && Cut(c.permits[i], clock) && Claims(c.permits[i].request, key)
    ensures !Covered(c.permits, key, c.permits[i].expiresAt)
  {
    hide Claims; hide Covered;
    i, key :| 0 <= i < |c.permits| && Cut(c.permits[i], clock) && Claims(c.permits[i].request, key)
           && !Covered(c.permits, key, c.permits[i].expiresAt);
  }

  lemma {:induction false} UnsealedMeets(c: Coordinator, clock: int)
    requires Inv(c) && Timely(c, clock) && QueueClashes(c, clock) && !Sealed(c, clock)
    ensures !StaysApart(c, clock)
  {
    hide Inv; hide Timely; hide QueueClashes; hide Run; hide Claims; hide Covered; hide WindowsApart; hide CutsCovered; hide Intrusion; hide Early;
    if !WindowsApart(c.permits) {
      R.RunNone(c);
      assert Monotone([], clock) && NoEarlyRelease(c, []) && !WindowsApart(Run(c, []).permits);
    } else {
      var i, key := FindsUncovered(c, clock);
      IntrusionMeets(c, clock, i, key);
      IntrusionMonotone(c, key, c.permits[i].expiresAt - 1, clock);
      hide NoEarlyRelease;
    }
  }

  /** From every state of a monotone run: whatever follows, the windows of clashing permits stay apart as long
      as nothing is released early, exactly when they are apart now and every permit ended by a call
      whose window still runs is covered until its end by live permits. */
  lemma StaysApartExactly(authority: Authority, maxPermit: nat, ops: seq<Op>, from: int)
    requires Monotone(ops, from) && QueueClashes(Run(Fresh(authority, maxPermit), ops), Clock(ops, from))
    ensures StaysApart(Run(Fresh(authority, maxPermit), ops), Clock(ops, from)) <==>
      Sealed(Run(Fresh(authority, maxPermit), ops), Clock(ops, from))
  {
    hide Run; hide StaysApart; hide Sealed; hide Timely; hide Inv; hide QueueClashes;
    RunTimely(authority, maxPermit, ops, from);
    RunKeeps(authority, maxPermit, ops);
    var c := Run(Fresh(authority, maxPermit), ops);
    if Sealed(c, Clock(ops, from)) {
      SealedStaysApart(c, Clock(ops, from));
    } else {
      UnsealedMeets(c, Clock(ops, from));
    }
  }

  ghost predicate AllExclusive(permits: seq<Permit>) {
    forall i, a :: 0 <= i < |permits| && 0 <= a < |permits[i].request.claims| ==> permits[i].request.claims[a].exclusive
  }

  lemma ExclusiveSealed(c: Coordinator, clock: int)
    requires Inv(c) && Timely(c, clock) && AllExclusive(c.permits) && WindowsApart(c.permits)
    ensures QueueClashes(c, clock)
    ensures CutsCovered(c.permits, clock) <==> NoneCut(c.permits, clock)
  {
    hide Unique; hide Exclusive; hide Unaliased; hide Spaced;
    forall i | CutsCovered(c.permits, clock) && 0 <= i < |c.permits| ensures !Cut(c.permits[i], clock) {
      assert c.permits[i] in c.permits;
      if Cut(c.permits[i], clock) {
        var key := c.permits[i].request.claims[0].key;
        assert Claims(c.permits[i].request, key);
        var q :| 0 <= q < |c.permits| && c.permits[q].Live() && Claims(c.permits[q].request, key) && c.permits[q].expiresAt >= c.permits[i].expiresAt;
        assert Dated(c.permits[q], clock) && Dated(c.permits[i], clock);
        CoverShares(c.permits, i, q, 0, clock);
      }
    }
    hide CutsCovered; hide Covered;
  }

  /** Where every permit claims its devices for itself: exactly when the windows are apart now and no permit
      ended by a call has a window still running. */
  lemma ExclusiveStayApartExactly(authority: Authority, maxPermit: nat, ops: seq<Op>, from: int)
    requires Monotone(ops, from) && AllExclusive(Run(Fresh(authority, maxPermit), ops).permits)
    ensures var permits := Run(Fresh(authority, maxPermit), ops).permits;
      StaysApart(Run(Fresh(authority, maxPermit), ops), Clock(ops, from)) <==>
        WindowsApart(permits) && NoneCut(permits, Clock(ops, from))
  {
    RunTimely(authority, maxPermit, ops, from);
    RunKeeps(authority, maxPermit, ops);
    var c := Run(Fresh(authority, maxPermit), ops);
    hide Run; hide Timely; hide Inv; hide QueueClashes; hide AllExclusive; hide CutsCovered; hide NoneCut;
    if WindowsApart(c.permits) {
      ExclusiveSealed(c, Clock(ops, from));
      hide StaysApart; hide WindowsApart;
      StaysApartExactly(authority, maxPermit, ops, from);
    } else {
      R.RunNone(c);
      assert Monotone([], Clock(ops, from)) && NoEarlyRelease(c, []) && !WindowsApart(Run(c, []).permits);
    }
  }
}
