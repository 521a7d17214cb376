/** When each call to the coordinator succeeds, what it then changes, and that a rotated-out authority is
fenced for good. */
module AdmissionAnswers {
  import opened Outcomes
  import opened Requests
  import opened Admission
  import opened AdmissionInvariant
  import T = AdmissionTime

  // ----- registering -----

  /** A declaration is taken exactly when no other key names its device and it is new, or known as it is, or
      newer than the known one of a device that no live permit claims. */
  lemma RegisterOneExactly(c: Coordinator, d: Declaration)
    ensures RegisterOne(c, d).Ok? <==>
      && (forall other :: other in c.declarations && other.Physical() == d.key.Physical() ==> other == d.key)
      && (d.key in c.declarations ==>
            || c.declarations[d.key] == d
            || (d.sequence > c.declarations[d.key].sequence
                && forall i, k :: 0 <= i < |c.permits| && c.permits[i].Live() && 0 <= k < |c.permits[i].request.claims| ==>
                     c.permits[i].request.claims[k].key != d.key))
    ensures RegisterOne(c, d).Ok? ==> RegisterOne(c, d).value == c.(declarations := c.declarations[d.key := d])
    ensures RegisterOne(c, d).Err? ==>
      match RegisterOne(c, d).error
      case AliasedResource => exists other :: other in c.declarations && other != d.key && other.Physical() == d.key.Physical()
      case StaleDeclaration => d.key in c.declarations && d.sequence <= c.declarations[d.key].sequence
      case LiveResource => d.key in c.declarations && d.sequence > c.declarations[d.key].sequence
      case _ => false
  {
    if d.key in c.declarations && ClaimLive(c, d.key) {
      var i :| 0 <= i < |c.permits| && c.permits[i].Live() && Claims(c.permits[i].request, d.key);
      var k :| 0 <= k < |c.permits[i].request.claims| && c.permits[i].request.claims[k].key == d.key;
    }
    if i, k :| 0 <= i < |c.permits| && c.permits[i].Live() && 0 <= k < |c.permits[i].request.claims| && c.permits[i].request.claims[k].key == d.key {
      assert Claims(c.permits[i].request, d.key);
      assert ClaimLive(c, d.key);
    }
  }

  /** Declarations are taken in order up to the first that is refused: those before it stay, none after it is looked at. */
  lemma {:induction false} RegisterExactly(c: Coordinator, ds: seq<Declaration>, k: nat)
    requires k < |ds| && Register(c, ds[..k]).error.None?
    ensures RegisterOne(Register(c, ds[..k]).state, ds[k]).Ok? ==>
      Register(c, ds[..k + 1]) == Registered(RegisterOne(Register(c, ds[..k]).state, ds[k]).value, None)
    ensures RegisterOne(Register(c, ds[..k]).state, ds[k]).Err? ==>
      Register(c, ds) == Registered(Register(c, ds[..k]).state, Some(RegisterOne(Register(c, ds[..k]).state, ds[k]).error))
    ensures Register(c, []) == Registered(c, None)
    decreases |ds| - k
  {
    hide RegisterOne;
    assert ds[..k + 1][..k] == ds[..k] && ds[..k + 1][k] == ds[k];
    RefusedStays(c, ds, k + 1);
  }

  lemma {:induction false} RefusedStays(c: Coordinator, ds: seq<Declaration>, k: nat)
    requires k <= |ds|
    ensures Register(c, ds[..k]).error.Some? ==> Register(c, ds) == Register(c, ds[..k])
    decreases |ds| - k
  {
    hide RegisterOne;
    if k < |ds| {
      assert ds[..k + 1][..k] == ds[..k];
      RefusedStays(c, ds, k + 1);
    } else {
      assert ds[..k] == ds;
    }
  }

  // ----- submitting -----

  /** A request that has no attempt number, no deadline or no claims, claims nothing of a key, or claims one twice. */
  ghost predicate Malformed(request: Request) {
    || request.identity.attempt == 0 || request.deadline <= 0 || |request.claims| == 0
    || (exists i :: 0 <= i < |request.claims| && request.claims[i].quantity == 0)
    || (exists i, j :: 0 <= i < |request.claims| && 0 <= j < |request.claims| && i != j && request.claims[i].key == request.claims[j].key)
  }

  lemma MalformedExactly(request: Request)
    ensures Malformed(request) <==> !WellFormed(request)
  {
    if i, j :| 0 <= i < |request.claims| && 0 <= j < |request.claims| && i != j && request.claims[i].key == request.claims[j].key {
      assert i < j || j < i;
    }
  }

  predicate Acceptable(declarations: map<Key, Declaration>, claim: Claim) {
    && claim.key in declarations && claim.quantity <= declarations[claim.key].capacity
    && (declarations[claim.key].exclusive ==> claim.exclusive)
  }

  function Refusal(declarations: map<Key, Declaration>, claim: Claim): Error {
    if claim.key !in declarations then UnknownResource
    else if claim.quantity > declarations[claim.key].capacity then ExceedsCapacity
    else WeakensExclusivity
  }

  /** Claims are refused at the first that is not acceptable. */
  lemma {:induction false} ClaimErrorExactly(c: Coordinator, claims: seq<Claim>)
    ensures ClaimError(c, claims).None? <==> forall k :: 0 <= k < |claims| ==> Acceptable(c.declarations, claims[k])
    ensures ClaimError(c, claims).Some? ==>
      exists k :: 0 <= k < |claims| && !Acceptable(c.declarations, claims[k]) && ClaimError(c, claims).value == Refusal(c.declarations, claims[k])
               && forall j :: 0 <= j < k ==> Acceptable(c.declarations, claims[j])
  {
    if claims != [] && Acceptable(c.declarations, claims[0]) {
      ClaimErrorExactly(c, claims[1..]);
      assert forall k :: 0 < k < |claims| ==> claims[k] == claims[1..][k - 1];
      if ClaimError(c, claims[1..]).Some? {
        var k :| 0 <= k < |claims[1..]| && !Acceptable(c.declarations, claims[1..][k])
              && ClaimError(c, claims[1..]).value == Refusal(c.declarations, claims[1..][k])
              && forall j :: 0 <= j < k ==> Acceptable(c.declarations, claims[1..][j]);
        assert claims[k + 1] == claims[1..][k];
        forall j | 0 <= j < k + 1 ensures Acceptable(c.declarations, claims[j]) {
          if j > 0 { assert claims[j] == claims[1..][j - 1]; }
        }
      }
    }
  }

  ghost predicate Known(c: Coordinator, identity: Identity) {
    (exists p :: p in c.permits && p.request.identity == identity) || (exists e :: e in c.queued && e.request.identity == identity)
  }

  ghost predicate AllAcceptable(c: Coordinator, request: Request) {
    forall k :: 0 <= k < |request.claims| ==> Acceptable(c.declarations, request.claims[k])
  }

  /** A submission joins the end of the queue exactly when its capability and claims are acceptable, it is in
      time, and its identity is known neither as a permit nor in the queue; otherwise nothing changes. */
  lemma SubmitExactly(c: Coordinator, request: Request, now: int)
    ensures var s := Submit(c, request, now);
      if request.capability == CAPABILITY && AllAcceptable(c, request) && now < request.deadline && !Known(c, request.identity)
      then s.answer == Ok(Queued)
        && s.state == c.(submissions := c.submissions + 1, queued := c.queued + [Entry(c.submissions + 1, request)])
      else s.state == c
    ensures var answer := Submit(c, request, now).answer;
      && (answer == Err(CapabilityMismatch) <==> request.capability != CAPABILITY)
      && (answer == Ok(DeadlineExpired) <==> request.capability == CAPABILITY && AllAcceptable(c, request) && now >= request.deadline)
      && (request.capability == CAPABILITY && !AllAcceptable(c, request) ==>
            exists k :: 0 <= k < |request.claims| && !Acceptable(c.declarations, request.claims[k])
                     && answer == Err(Refusal(c.declarations, request.claims[k]))
                     && forall j :: 0 <= j < k ==> Acceptable(c.declarations, request.claims[j]))
  {
    ClaimErrorExactly(c, request.claims);
    hide ClaimError; hide PermitOf; hide EntryOf;
  }

  /** A known identity is answered with how its own request stands, and refused for another request. */
  lemma SubmitKnown(c: Coordinator, request: Request, now: int)
    requires Inv(c) && request.capability == CAPABILITY && AllAcceptable(c, request) && now < request.deadline
    ensures forall p :: p in c.permits && p.request.identity == request.identity ==>
      Submit(c, request, now).answer == if p.request == request then Ok(Permitted(p.standing)) else Err(ConflictingDuplicate)
    ensures forall e :: e in c.queued && e.request.identity == request.identity ==>
      Submit(c, request, now).answer == if e.request == request then Ok(Queued) else Err(ConflictingDuplicate)
  {
    ClaimErrorExactly(c, request.claims);
    hide ClaimError; hide PermitOf; hide EntryOf; hide AllDeclared; hide Exclusive; hide Unaliased;
    forall p | p in c.permits && p.request.identity == request.identity ensures PermitOf(c.permits, request.identity) == Some(p) {
      var i :| 0 <= i < |c.permits| && c.permits[i] == p;
      var found := PermitOf(c.permits, request.identity);
      var j :| 0 <= j < |c.permits| && c.permits[j] == found.value;
    }
    hide Increasing;
  }

  // ----- granting -----

  /** A queued request is chosen when it is in time and conflicts neither with a live permit nor with one chosen
      before it. */
  ghost predicate Chosen(queued: seq<Entry>, permits: seq<Permit>, declarations: map<Key, Declaration>, now: int, i: nat)
    requires i < |queued|
    decreases i
  {
    && now < queued[i].request.deadline
    && (forall k :: 0 <= k < |permits| && permits[k].Live() ==> !RequestsConflict(queued[i].request, permits[k].request, declarations))
    && (forall j: nat :: j < i && Chosen(queued, permits, declarations, now, j) ==>
          !RequestsConflict(queued[i].request, queued[j].request, declarations))
  }

  /** The chosen and the passed over, each in queue order. */
  ghost predicate Splits(queued: seq<Entry>, permits: seq<Permit>, declarations: map<Key, Declaration>, now: int, scan: Scan) {
    && (forall e :: e in scan.selected <==> exists i: nat :: i < |queued| && queued[i] == e && Chosen(queued, permits, declarations, now, i))
    && (forall e :: e in scan.waiting <==>
          exists i: nat :: i < |queued| && queued[i] == e && now < e.request.deadline && !Chosen(queued, permits, declarations, now, i))
    && Increasing(scan.selected) && Increasing(scan.waiting)
  }

  lemma {:induction false} ChosenInFront(queued: seq<Entry>, permits: seq<Permit>, declarations: map<Key, Declaration>, now: int, i: nat)
    requires i < |queued| - 1
    ensures Chosen(queued[..|queued| - 1], permits, declarations, now, i) <==> Chosen(queued, permits, declarations, now, i)
    decreases i
  {
    hide RequestsConflict;
    forall j: nat | j < i ensures Chosen(queued[..|queued| - 1], permits, declarations, now, j) <==> Chosen(queued, permits, declarations, now, j) {
      ChosenInFront(queued, permits, declarations, now, j);
    }
  }

  lemma ChosenLast(queued: seq<Entry>, permits: seq<Permit>, declarations: map<Key, Declaration>, now: int, selected: seq<Entry>)
    requires queued != []
    requires forall e :: e in selected <==>
      exists i: nat :: i < |queued| - 1 && queued[i] == e && Chosen(queued, permits, declarations, now, i)
    ensures var e := queued[|queued| - 1];
      Chosen(queued, permits, declarations, now, |queued| - 1) <==>
        now < e.request.deadline && !BlockedByPermit(e.request, permits, declarations) && !BlockedByEntry(e.request, selected, declarations)
  {
    hide RequestsConflict;
    var n, e := |queued| - 1, queued[|queued| - 1];
    if BlockedByEntry(e.request, selected, declarations) {
      var k :| 0 <= k < |selected| && RequestsConflict(e.request, selected[k].request, declarations);
      assert selected[k] in selected;
      var j: nat :| j < n && queued[j] == selected[k] && Chosen(queued, permits, declarations, now, j);
    }
    if j: nat :| j < n && Chosen(queued, permits, declarations, now, j) && RequestsConflict(e.request, queued[j].request, declarations) {
      assert queued[j] in selected;
      var k :| 0 <= k < |selected| && selected[k] == queued[j];
    }
  }

  /** The chosen, or the passed over, among the first n. */
  ghost predicate Among(queued: seq<Entry>, permits: seq<Permit>, declarations: map<Key, Declaration>, now: int, n: nat, chosen: bool, e: Entry)
    requires n <= |queued|
  {
    exists i: nat :: i < n && queued[i] == e && now < e.request.deadline && Chosen(queued, permits, declarations, now, i) == chosen
  }

  lemma AmongFront(queued: seq<Entry>, permits: seq<Permit>, declarations: map<Key, Declaration>, now: int, chosen: bool, e: Entry)
    requires queued != []
    ensures var n := |queued| - 1;
      Among(queued[..n], permits, declarations, now, n, chosen, e) <==> Among(queued, permits, declarations, now, n, chosen, e)
  {
    var n, front := |queued| - 1, queued[..|queued| - 1];
    forall i: nat | i < n ensures queued[i] == front[i] && (Chosen(front, permits, declarations, now, i) <==> Chosen(queued, permits, declarations, now, i)) {
      ChosenInFront(queued, permits, declarations, now, i);
    }
    hide Chosen;
    if i: nat :| i < n && front[i] == e && now < e.request.deadline && Chosen(front, permits, declarations, now, i) == chosen {
      assert queued[i] == e;
    }
    if i: nat :| i < n && queued[i] == e && now < e.request.deadline && Chosen(queued, permits, declarations, now, i) == chosen {
      assert front[i] == e;
    }
  }

  lemma AmongNext(queued: seq<Entry>, permits: seq<Permit>, declarations: map<Key, Declaration>, now: int, chosen: bool, e: Entry)
    requires queued != []
    ensures var n := |queued| - 1;
      Among(queued, permits, declarations, now, n + 1, chosen, e) <==>
        Among(queued, permits, declarations, now, n, chosen, e)
        || (e == queued[n] && now < e.request.deadline && Chosen(queued, permits, declarations, now, n) == chosen)
  {
    hide Chosen;
  }

  lemma ScanLast(queued: seq<Entry>, permits: seq<Permit>, declarations: map<Key, Declaration>, now: int)
    requires queued != []
    requires var n := |queued| - 1;
      forall e :: e in ScanQueue(queued[..n], permits, declarations, now).selected <==> Among(queued, permits, declarations, now, n, true, e)
    ensures var n, last := |queued| - 1, queued[|queued| - 1];
      var before := ScanQueue(queued[..n], permits, declarations, now);
      ScanQueue(queued, permits, declarations, now) ==
        if now >= last.request.deadline then before
        else if Chosen(queued, permits, declarations, now, n) then before.(selected := before.selected + [last])
        else before.(waiting := before.waiting + [last])
  {
    var n := |queued| - 1;
    var before := ScanQueue(queued[..n], permits, declarations, now);
    forall e ensures e in before.selected <==> exists i: nat :: i < n && queued[i] == e && Chosen(queued, permits, declarations, now, i) {
      assert e in before.selected <==> Among(queued, permits, declarations, now, n, true, e);
      hide ScanQueue; hide RequestsConflict;
    }
    ChosenLast(queued, permits, declarations, now, before.selected);
    hide Chosen; hide BlockedByPermit; hide BlockedByEntry; hide Among;
  }

  lemma {:induction false} ScanAmong(queued: seq<Entry>, permits: seq<Permit>, declarations: map<Key, Declaration>, now: int)
    ensures var scan := ScanQueue(queued, permits, declarations, now);
      && (forall e :: e in scan.selected <==> Among(queued, permits, declarations, now, |queued|, true, e))
      && (forall e :: e in scan.waiting <==> Among(queued, permits, declarations, now, |queued|, false, e))
  {
    if queued == [] {
      assert ScanQueue(queued, permits, declarations, now) == Scan([], []);
    } else {
      hide ScanQueue; hide Among; hide Chosen;
      var n, front, last := |queued| - 1, queued[..|queued| - 1], queued[|queued| - 1];
      ScanAmong(front, permits, declarations, now);
      var before, scan := ScanQueue(front, permits, declarations, now), ScanQueue(queued, permits, declarations, now);
      forall e, chosen ensures Among(front, permits, declarations, now, n, chosen, e) <==> Among(queued, permits, declarations, now, n, chosen, e) {
        AmongFront(queued, permits, declarations, now, chosen, e);
      }
      ScanLast(queued, permits, declarations, now);
      forall e
        ensures e in scan.selected <==> Among(queued, permits, declarations, now, n + 1, true, e)
        ensures e in scan.waiting <==> Among(queued, permits, declarations, now, n + 1, false, e)
      {
        AmongNext(queued, permits, declarations, now, true, e);
        AmongNext(queued, permits, declarations, now, false, e);
      }
    }
  }

  lemma ScanExactly(queued: seq<Entry>, permits: seq<Permit>, declarations: map<Key, Declaration>, now: int)
    requires Increasing(queued)
    ensures Splits(queued, permits, declarations, now, ScanQueue(queued, permits, declarations, now))
  {
    ScanOrdered(queued, permits, declarations, now);
    ScanAmong(queued, permits, declarations, now);
    var scan := ScanQueue(queued, permits, declarations, now);
    hide ScanQueue; hide Increasing; hide RequestsConflict;
    forall e ensures Among(queued, permits, declarations, now, |queued|, true, e) <==>
      exists i: nat :: i < |queued| && queued[i] == e && Chosen(queued, permits, declarations, now, i)
    {}
  }

  /** A grant goes through exactly when the authority that asks is the coordinator's own, the coordinator is
      open for admission and the lease is positive; otherwise nothing changes. */
  lemma GrantExactly(c: Coordinator, authority: Authority, now: int, permitMs: int)
    ensures var g := GrantNext(c, authority, now, permitMs);
      && (g.granted.Ok? <==> authority == c.authority && c.available && !c.cleanupOnly && permitMs > 0)
      && (g.granted.Err? ==> g.state == c)
      && (g.granted == Err(CompetingAuthority) <==> authority != c.authority)
      && (g.granted == Err(Unavailable) <==> authority == c.authority && (!c.available || c.cleanupOnly))
  {
    hide ScanQueue; hide ExpireAll; hide Issue;
  }

  /** What an expiry leaves of a permit. */
  ghost predicate Swept(before: Permit, after: Permit, now: int) {
    after == if !before.standing.Released? && now >= before.expiresAt then before.(standing := Released(now, LeaseExpired)) else before
  }

  ghost predicate IssuedFor(e: Entry, p: Permit, now: int, permitMs: int, maxPermit: int) {
    && p.id == e.id && p.request == e.request && p.issuedAt == now && p.standing.Granted? && p.activatedAt.None?
    && p.expiresAt <= e.request.deadline && p.expiresAt <= now + permitMs && p.expiresAt <= now + maxPermit
    && (p.expiresAt == e.request.deadline || p.expiresAt == now + permitMs || p.expiresAt == now + maxPermit)
  }

  /** A grant that goes through sweeps the permits, issues one permit for each chosen request, in order, for as
      long as deadline, lease and limit allow, and leaves the others queued but those past their deadline. */
  lemma GrantsChosen(c: Coordinator, authority: Authority, now: int, permitMs: int)
    requires Increasing(c.queued) && GrantNext(c, authority, now, permitMs).granted.Ok?
    ensures var g := GrantNext(c, authority, now, permitMs);
      exists swept: seq<Permit>, scan: Scan ::
        && |swept| == |c.permits| && (forall i :: 0 <= i < |swept| ==> Swept(c.permits[i], swept[i], now))
        && Splits(c.queued, swept, c.declarations, now, scan)
        && |g.granted.value| == |scan.selected|
        && (forall k :: 0 <= k < |scan.selected| ==> IssuedFor(scan.selected[k], g.granted.value[k], now, permitMs, c.maxPermit))
        && g.state == c.(queued := scan.waiting, permits := swept + g.granted.value)
  {
    var swept := ExpireAll(c.permits, now);
    var scan := ScanQueue(c.queued, swept, c.declarations, now);
    ScanExactly(c.queued, swept, c.declarations, now);
    forall i | 0 <= i < |swept| ensures Swept(c.permits[i], swept[i], now) {}
    hide ScanQueue; hide ExpireAll; hide Splits;
    var granted := GrantNext(c, authority, now, permitMs).granted.value;
    forall k | 0 <= k < |scan.selected| ensures IssuedFor(scan.selected[k], granted[k], now, permitMs, c.maxPermit) {}
    hide Issue; hide Swept; hide IssuedFor;
  }

  // ----- releasing and expiring -----

  const SPACES := {9, 10, 11, 12, 13, 28, 29, 30, 31, 32}

  /** A text is blank exactly when it has no other character than white space, and so when it is empty. */
  lemma BlankExactly(s: string)
    ensures Blank(s) <==> forall c :: c in s ==> c as int in SPACES
  {
    if forall c :: c in s ==> c as int in SPACES {
      forall i | 0 <= i < |s| ensures IsSpace(s[i]) {
        assert s[i] in s;
      }
    }
  }

  /** A release ends the permit of that number, exactly when it is live, and no other. */
  lemma ReleaseExactly(c: Coordinator, id: nat, now: int, reason: string)
    requires Inv(c)
    ensures var done := Release(c, id, now, reason);
      && |done.state.permits| == |c.permits| && done.state == c.(permits := done.state.permits)
      && (forall i :: 0 <= i < |c.permits| ==>
            done.state.permits[i] == if c.permits[i].id == id && !c.permits[i].standing.Released?
                                     then c.permits[i].(standing := Released(now, Called)) else c.permits[i])
      && (done.changed == Ok(false) <==> forall i :: 0 <= i < |c.permits| && c.permits[i].id == id ==> c.permits[i].standing.Released?)
      && (done.changed == Err(BlankReason) <==> Blank(reason) && exists i :: 0 <= i < |c.permits| && c.permits[i].id == id && c.permits[i].Live())
  {
    hide IndexOf; hide Blank; hide AllDeclared; hide Exclusive; hide Unaliased; hide Tidy;
  }

  lemma ExpireExactly(c: Coordinator, now: int)
    ensures var next := Expire(c, now);
      && |next.permits| == |c.permits| && next == c.(permits := next.permits)
      && forall i :: 0 <= i < |c.permits| ==> Swept(c.permits[i], next.permits[i], now)
  {
  }

  /** Activation of a granted permit in its window with every claim bound makes that permit active and leaves all
      else; an active one is answered as it is; any other is refused, and past its window all that is due expires. */
  lemma ActivateChanges(c: Coordinator, id: nat, bindings: map<Key, Binding>, now: int)
    requires Inv(c)
    ensures var done := Activate(c, id, bindings, now);
      && (forall i :: 0 <= i < |c.permits| && c.permits[i].id == id && c.permits[i].standing.Granted? && now < c.permits[i].expiresAt && done.permit.Ok? ==>
            done.permit.value == c.permits[i].(standing := Active, activatedAt := Some(now)) && done.state == c.(permits := c.permits[i := done.permit.value]))
      && (forall i :: 0 <= i < |c.permits| && c.permits[i].id == id && c.permits[i].standing.Active? ==> done == Activated(c, Ok(c.permits[i])))
      && (forall i :: 0 <= i < |c.permits| && c.permits[i].id == id && c.permits[i].standing.Granted? && now >= c.permits[i].expiresAt ==>
            done == Activated(Expire(c, now), Err(ExpiredBeforeActivation)))
      && ((forall i :: 0 <= i < |c.permits| && c.permits[i].id == id ==> c.permits[i].standing.Released?) ==> done == Activated(c, Err(NotActivatable)))
      && (forall i :: 0 <= i < |c.permits| && c.permits[i].id == id && c.permits[i].standing.Granted? && now < c.permits[i].expiresAt && done.permit.Err? ==>
            done.state == c)
  {
    hide IndexOf; hide BindingError; hide ExpireAll; hide AllDeclared; hide Exclusive; hide Unaliased; hide Tidy;
  }

  // ----- rotating -----

  /** An authority gives way exactly to one of its scope with a later epoch while no permit is live. */
  lemma RotateExactly(c: Coordinator, next: Authority)
    ensures Rotate(c, next).Ok? <==>
      && next.scope == c.authority.scope && next.epoch > c.authority.epoch
      && forall i :: 0 <= i < |c.permits| ==> c.permits[i].standing.Released?
    ensures Rotate(c, next).Ok? ==> Rotate(c, next).value == c.(authority := next)
  {
  }

  lemma AuthorityStays(c: Coordinator, op: Op)
    ensures op.RotateOp? || Apply(c, op).authority == c.authority
    ensures Apply(c, op).authority == c.authority || Apply(c, op).authority.epoch > c.authority.epoch
  {
    hide ScanQueue; hide IndexOf; hide BindingError; hide PermitOf; hide EntryOf; hide ClaimError; hide WellFormed; hide ExpireAll; hide Issue; hide Blank;
    if op.RegisterOp? { RegisterStays(c, op.declarations); hide Register; }
  }

  lemma {:induction false} RegisterStays(c: Coordinator, ds: seq<Declaration>)
    ensures Register(c, ds).state == c.(declarations := Register(c, ds).state.declarations)
  {
    hide Aliased; hide ClaimLive;
    if ds != [] {
      RegisterStays(c, ds[..|ds| - 1]);
    }
  }

  /** Along a run the authority stays or its epoch rises. */
  lemma {:induction false} EpochsRise(c: Coordinator, ops: seq<Op>)
    ensures Run(c, ops).authority == c.authority || Run(c, ops).authority.epoch > c.authority.epoch
  {
    if ops != [] {
      hide Apply;
      EpochsRise(c, ops[..|ops| - 1]);
      AuthorityStays(Run(c, ops[..|ops| - 1]), ops[|ops| - 1]);
    }
  }

  /** Once an authority has been rotated out, no later grant it asks for issues a permit or changes anything,
      whatever happens in between and however often the authority rotates again. */
  lemma RotatedOutFenced(c: Coordinator, next: Authority, later: seq<Op>, now: int, permitMs: int)
    requires Rotate(c, next).Ok?
    ensures var after := Run(Apply(c, RotateOp(next)), later);
      GrantNext(after, c.authority, now, permitMs) == Grant(after, Err(CompetingAuthority))
  {
    hide Run; hide GrantNext;
    EpochsRise(Apply(c, RotateOp(next)), later);
    GrantExactly(Run(Apply(c, RotateOp(next)), later), c.authority, now, permitMs);
  }
}
