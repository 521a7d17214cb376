/** What every run of the conflict-admission coordinator keeps. */
module AdmissionInvariant {
  import opened Outcomes
  import opened Requests
  import opened Admission

  // ----- the invariant -----

  ghost predicate Increasing(entries: seq<Entry>) {
    forall i, j :: 0 <= i < j < |entries| ==> entries[i].id < entries[j].id
  }

  /** Queue entries in submission order, one per request identity. */
  ghost predicate Tidy(queued: seq<Entry>) {
    && Increasing(queued)
    && (forall e, f :: e in queued && f in queued && e.request.identity == f.request.identity ==> e == f)
  }

  /** One permit per identity and per number, and none for a queued request. */
  ghost predicate Unique(c: Coordinator) {
    && Tidy(c.queued)
    && (forall e :: e in c.queued ==> 0 < e.id <= c.submissions)
    && (forall p :: p in c.permits ==> 0 < p.id <= c.submissions)
    && (forall i, j :: 0 <= i < j < |c.permits| ==> c.permits[i].id != c.permits[j].id)
    && (forall i, j :: 0 <= i < j < |c.permits| ==> c.permits[i].request.identity != c.permits[j].request.identity)
    && (forall e, p :: e in c.queued && p in c.permits ==> e.id != p.id && e.request.identity != p.request.identity)
  }

  ghost predicate Declared(request: Request, declarations: map<Key, Declaration>) {
    WellFormed(request) && forall k :: 0 <= k < |request.claims| ==> request.claims[k].key in declarations
  }

  ghost predicate AllDeclared(c: Coordinator) {
    && (forall e :: e in c.queued ==> Declared(e.request, c.declarations))
    && (forall p :: p in c.permits ==> Declared(p.request, c.declarations))
    && (forall key :: key in c.declarations ==> c.declarations[key].key == key)
  }

  /** No two keys of the declarations name one device. */
  ghost predicate Unaliased(declarations: map<Key, Declaration>) {
    forall k, l :: k in declarations && l in declarations && k.Physical() == l.Physical() ==> k == l
  }

  ghost predicate Exclusive(permits: seq<Permit>, declarations: map<Key, Declaration>) {
    forall i, j :: 0 <= i < |permits| && 0 <= j < |permits| && i != j && permits[i].Live() && permits[j].Live() ==>
      !RequestsConflict(permits[i].request, permits[j].request, declarations)
  }

  ghost predicate Inv(c: Coordinator) {
    Unique(c) && AllDeclared(c) && Unaliased(c.declarations) && Exclusive(c.permits, c.declarations)
  }

  lemma ConflictSymmetric(left: Request, right: Request, declarations: map<Key, Declaration>)
    requires RequestsConflict(left, right, declarations)
    ensures RequestsConflict(right, left, declarations)
  {
    var i, j :| 0 <= i < |left.claims| && 0 <= j < |right.claims| && left.claims[i].key in declarations
             && ClaimsConflict(left.claims[i], right.claims[j], declarations[left.claims[i].key]);
    assert ClaimsConflict(right.claims[j], left.claims[i], declarations[right.claims[j].key]);
  }

  // ----- registering declarations -----

  lemma UnclaimedKeyIrrelevant(left: Request, right: Request, declarations: map<Key, Declaration>, d: Declaration)
    requires RequestsConflict(left, right, declarations[d.key := d])
    requires !Claims(left, d.key)
    ensures RequestsConflict(left, right, declarations)
  {
  }

  lemma RegisterOneKeeps(c: Coordinator, d: Declaration)
    requires Inv(c) && RegisterOne(c, d).Ok?
    ensures Inv(RegisterOne(c, d).value)
  {
    var next := RegisterOne(c, d).value;
    hide Claims; hide RequestsConflict; hide WellFormed;
    if d.key !in c.declarations {
      forall p | p in c.permits ensures !Claims(p.request, d.key) {
        NotClaimed(p.request, d.key, c.declarations);
      }
    }
    forall i, j | 0 <= i < |c.permits| && 0 <= j < |c.permits| && i != j && c.permits[i].Live() && c.permits[j].Live()
      ensures !RequestsConflict(c.permits[i].request, c.permits[j].request, next.declarations)
    {
      if RequestsConflict(c.permits[i].request, c.permits[j].request, next.declarations) && next != c {
        assert !Claims(c.permits[i].request, d.key);
        UnclaimedKeyIrrelevant(c.permits[i].request, c.permits[j].request, c.declarations, d);
      }
    }
  }

  lemma NotClaimed(request: Request, key: Key, declarations: map<Key, Declaration>)
    requires Declared(request, declarations) && key !in declarations
    ensures !Claims(request, key)
  {
  }

  lemma {:induction false} RegisterKeeps(c: Coordinator, declarations: seq<Declaration>)
    requires Inv(c)
    ensures Inv(Register(c, declarations).state)
  {
    hide Inv; hide RegisterOne;
    if declarations != [] {
      RegisterKeeps(c, declarations[..|declarations| - 1]);
      var before := Register(c, declarations[..|declarations| - 1]);
      if RegisterOne(before.state, declarations[|declarations| - 1]).Ok? {
        RegisterOneKeeps(before.state, declarations[|declarations| - 1]);
      }
    }
  }

  // ----- submission -----

  lemma {:induction false} NoClaimError(c: Coordinator, claims: seq<Claim>, k: nat)
    requires ClaimError(c, claims).None? && k < |claims|
    ensures claims[k].key in c.declarations
    ensures claims[k].quantity <= c.declarations[claims[k].key].capacity
    ensures c.declarations[claims[k].key].exclusive ==> claims[k].exclusive
  {
    if k > 0 {
      NoClaimError(c, claims[1..], k - 1);
    }
  }

  lemma SubmitKeeps(c: Coordinator, request: Request, now: int)
    requires Inv(c) && WellFormed(request)
    ensures Inv(Submit(c, request, now).state)
  {
    hide WellFormed; hide Exclusive; hide Unaliased;
    var next := Submit(c, request, now).state;
    if next != c {
      forall k: nat | k < |request.claims| ensures request.claims[k].key in c.declarations {
        NoClaimError(c, request.claims, k);
      }
      assert Declared(request, c.declarations);
      assert next.queued == c.queued + [Entry(c.submissions + 1, request)];
      hide Submit; hide Declared;
    }
  }

  // ----- expiry, release, activation: permits change only in standing -----

  /** The same permits with some of them ended or activated. */
  ghost predicate Settled(before: seq<Permit>, after: seq<Permit>) {
    && |after| == |before|
    && forall i :: 0 <= i < |before| ==>
         && after[i].id == before[i].id && after[i].request == before[i].request
         && after[i].issuedAt == before[i].issuedAt && after[i].expiresAt == before[i].expiresAt
         && (after[i].Live() ==> before[i].Live())
  }

  lemma SettledKeeps(c: Coordinator, permits: seq<Permit>)
    requires Inv(c) && Settled(c.permits, permits)
    ensures Inv(c.(permits := permits))
  {
    hide RequestsConflict; hide WellFormed; hide Tidy; hide Declared; hide Unaliased;
    var next := c.(permits := permits);
    forall p | p in permits
      ensures exists q :: q in c.permits && q.id == p.id && q.request == p.request
    {
      var i :| 0 <= i < |permits| && permits[i] == p;
      assert c.permits[i] in c.permits;
    }
    assert Unique(next);
    assert AllDeclared(next);
  }

  lemma ExpireSettles(permits: seq<Permit>, now: int)
    ensures Settled(permits, ExpireAll(permits, now))
    ensures forall i :: 0 <= i < |permits| && ExpireAll(permits, now)[i].Live() ==> now < permits[i].expiresAt
  {
  }

  lemma ActivateSettles(c: Coordinator, id: nat, bindings: map<Key, Binding>, now: int)
    ensures Activate(c, id, bindings, now).state == c.(permits := Activate(c, id, bindings, now).state.permits)
    ensures Settled(c.permits, Activate(c, id, bindings, now).state.permits)
  {
    hide BindingError; hide IndexOf;
    ExpireSettles(c.permits, now);
  }

  lemma ReleaseSettles(c: Coordinator, id: nat, now: int, reason: string)
    ensures Release(c, id, now, reason).state == c.(permits := Release(c, id, now, reason).state.permits)
    ensures Settled(c.permits, Release(c, id, now, reason).state.permits)
  {
    hide Blank; hide IndexOf;
  }

  // ----- granting -----

  ghost predicate Compatible(entries: seq<Entry>, declarations: map<Key, Declaration>) {
    forall i, j :: 0 <= i < |entries| && 0 <= j < |entries| && i != j ==>
      !RequestsConflict(entries[i].request, entries[j].request, declarations)
  }

  lemma {:induction false} ScanMembers(queued: seq<Entry>, permits: seq<Permit>, declarations: map<Key, Declaration>, now: int)
    ensures var scan := ScanQueue(queued, permits, declarations, now);
      && (forall e :: e in scan.selected ==> e in queued && now < e.request.deadline && !BlockedByPermit(e.request, permits, declarations))
      && (forall e :: e in scan.waiting ==> e in queued && now < e.request.deadline)
      && (forall e :: e in queued && now < e.request.deadline ==> e in scan.selected || e in scan.waiting)
  {
    hide BlockedByPermit; hide BlockedByEntry;
    if queued != [] {
      var front, last := queued[..|queued| - 1], queued[|queued| - 1];
      ScanMembers(front, permits, declarations, now);
      assert queued == front + [last];
    }
  }

  ghost predicate Apart(entries: seq<Entry>, others: seq<Entry>) {
    forall e, f :: e in entries && f in others ==> e.id != f.id
  }

  lemma AppendIncreasing(entries: seq<Entry>, e: Entry)
    requires Increasing(entries) && forall f :: f in entries ==> f.id < e.id
    ensures Increasing(entries + [e])
  {
  }

  /** Each entry is dropped, left waiting or selected. */
  lemma ScanStep(queued: seq<Entry>, permits: seq<Permit>, declarations: map<Key, Declaration>, now: int)
    requires queued != []
    ensures var scan := ScanQueue(queued, permits, declarations, now);
      var before := ScanQueue(queued[..|queued| - 1], permits, declarations, now);
      var last := queued[|queued| - 1];
      || scan == before
      || scan == before.(waiting := before.waiting + [last])
      || scan == before.(selected := before.selected + [last])
  {
    hide BlockedByPermit; hide BlockedByEntry;
  }

  lemma {:induction false} ScanOrdered(queued: seq<Entry>, permits: seq<Permit>, declarations: map<Key, Declaration>, now: int)
    requires Increasing(queued)
    ensures var scan := ScanQueue(queued, permits, declarations, now);
      Increasing(scan.selected) && Increasing(scan.waiting) && Apart(scan.selected, scan.waiting)
  {
    if queued != [] {
      hide ScanQueue; hide BlockedByPermit;
      var front, last := queued[..|queued| - 1], queued[|queued| - 1];
      assert forall e :: e in front ==> e.id < last.id;
      ScanOrdered(front, permits, declarations, now);
      ScanMembers(front, permits, declarations, now);
      ScanStep(queued, permits, declarations, now);
      hide Increasing;
      var before := ScanQueue(front, permits, declarations, now);
      AppendIncreasing(before.selected, last);
      AppendIncreasing(before.waiting, last);
    }
  }

  lemma {:induction false} ScanCompatible(queued: seq<Entry>, permits: seq<Permit>, declarations: map<Key, Declaration>, now: int)
    ensures Compatible(ScanQueue(queued, permits, declarations, now).selected, declarations)
  {
    hide BlockedByPermit; hide RequestsConflict;
    if queued != [] {
      var before := ScanQueue(queued[..|queued| - 1], permits, declarations, now);
      var last := queued[|queued| - 1];
      ScanCompatible(queued[..|queued| - 1], permits, declarations, now);
      forall k | 0 <= k < |before.selected| && !BlockedByEntry(last.request, before.selected, declarations)
        ensures !RequestsConflict(before.selected[k].request, last.request, declarations)
        ensures !RequestsConflict(last.request, before.selected[k].request, declarations)
      {
        if RequestsConflict(before.selected[k].request, last.request, declarations) {
          ConflictSymmetric(before.selected[k].request, last.request, declarations);
        }
      }
    }
  }

  /** Whoever is left waiting conflicts with a live permit or with a request just selected. */
  lemma {:induction false} ScanMaximal(queued: seq<Entry>, permits: seq<Permit>, declarations: map<Key, Declaration>, now: int)
    ensures var scan := ScanQueue(queued, permits, declarations, now);
      forall e :: e in scan.waiting ==>
        BlockedByPermit(e.request, permits, declarations) || BlockedByEntry(e.request, scan.selected, declarations)
  {
    hide BlockedByPermit; hide RequestsConflict;
    if queued != [] {
      var before := ScanQueue(queued[..|queued| - 1], permits, declarations, now);
      var scan := ScanQueue(queued, permits, declarations, now);
      ScanMaximal(queued[..|queued| - 1], permits, declarations, now);
      forall e | e in before.waiting && BlockedByEntry(e.request, before.selected, declarations)
        ensures BlockedByEntry(e.request, scan.selected, declarations)
      {
        var k :| 0 <= k < |before.selected| && RequestsConflict(e.request, before.selected[k].request, declarations);
        assert scan.selected[k] == before.selected[k];
      }
    }
  }

  /** Permits issued for entries that leave the queue: one each, and none for those that wait. */
  ghost predicate IssuedFrom(queued: seq<Entry>, waiting: seq<Entry>, issued: seq<Permit>) {
    && (forall e :: e in waiting ==> e in queued)
    && (forall p :: p in issued ==> exists e :: e in queued && e !in waiting && e.id == p.id && e.request == p.request)
    && (forall i, j :: 0 <= i < j < |issued| ==> issued[i].id != issued[j].id && issued[i].request.identity != issued[j].request.identity)
  }

  lemma ScanIssues(c: Coordinator, permits: seq<Permit>, scan: Scan, now: int, lease: int)
    requires Tidy(c.queued) && scan == ScanQueue(c.queued, permits, c.declarations, now)
    ensures IssuedFrom(c.queued, scan.waiting, Issue(scan.selected, now, lease)) && Tidy(scan.waiting)
  {
    hide ScanQueue; hide BlockedByPermit;
    ScanMembers(c.queued, permits, c.declarations, now);
    ScanOrdered(c.queued, permits, c.declarations, now);
    var issued := Issue(scan.selected, now, lease);
    forall k | 0 <= k < |issued|
      ensures issued[k].id == scan.selected[k].id && issued[k].request == scan.selected[k].request
      ensures scan.selected[k] in scan.selected
    {}
    hide Issue;
    forall p | p in issued ensures exists e :: e in c.queued && e !in scan.waiting && e.id == p.id && e.request == p.request {
      var k :| 0 <= k < |issued| && issued[k] == p;
      assert scan.selected[k] in c.queued;
    }
  }

  lemma UniqueAppend(c: Coordinator, waiting: seq<Entry>, issued: seq<Permit>)
    requires Unique(c) && Tidy(waiting) && IssuedFrom(c.queued, waiting, issued)
    ensures Unique(c.(queued := waiting, permits := c.permits + issued))
  {
    hide Increasing;
    var next := c.(queued := waiting, permits := c.permits + issued);
    forall p, q | p in c.permits && q in issued ensures p.id != q.id && p.request.identity != q.request.identity {
      var e :| e in c.queued && e !in waiting && e.id == q.id && e.request == q.request;
    }
    forall e, q | e in waiting && q in issued ensures e.id != q.id && e.request.identity != q.request.identity {
      var f :| f in c.queued && f !in waiting && f.id == q.id && f.request == q.request;
      assert e in c.queued;
      DistinctIds(c.queued, e, f);
    }
    forall i, j | 0 <= i < j < |next.permits|
      ensures next.permits[i].id != next.permits[j].id && next.permits[i].request.identity != next.permits[j].request.identity
    {
      if i < |c.permits| <= j {
        assert next.permits[i] in c.permits && next.permits[j] in issued;
      }
    }
    hide IssuedFrom; hide Tidy;
  }

  lemma DistinctIds(queued: seq<Entry>, e: Entry, f: Entry)
    requires Tidy(queued) && e in queued && f in queued && e != f
    ensures e.id != f.id && e.request.identity != f.request.identity
  {
    var i :| 0 <= i < |queued| && queued[i] == e;
    var j :| 0 <= j < |queued| && queued[j] == f;
    assert i < j || j < i;
  }

  lemma GrantUnique(c: Coordinator, permits: seq<Permit>, scan: Scan, now: int, lease: int)
    requires Unique(c) && c.permits == permits && scan == ScanQueue(c.queued, permits, c.declarations, now)
    ensures Unique(c.(queued := scan.waiting, permits := permits + Issue(scan.selected, now, lease)))
  {
    hide ScanQueue; hide Tidy; hide IssuedFrom; hide Issue;
    ScanIssues(c, permits, scan, now, lease);
    hide Unique;
    UniqueAppend(c, scan.waiting, Issue(scan.selected, now, lease));
  }

  lemma GrantExclusive(c: Coordinator, permits: seq<Permit>, scan: Scan, now: int, lease: int)
    requires Exclusive(permits, c.declarations) && scan == ScanQueue(c.queued, permits, c.declarations, now)
    ensures Exclusive(permits + Issue(scan.selected, now, lease), c.declarations)
  {
    hide ScanQueue; hide RequestsConflict;
    ScanMembers(c.queued, permits, c.declarations, now);
    ScanCompatible(c.queued, permits, c.declarations, now);
    var issued := Issue(scan.selected, now, lease);
    forall i, k | 0 <= i < |permits| && permits[i].Live() && 0 <= k < |scan.selected|
      ensures !RequestsConflict(permits[i].request, scan.selected[k].request, c.declarations)
      ensures !RequestsConflict(scan.selected[k].request, permits[i].request, c.declarations)
    {
      assert scan.selected[k] in scan.selected;
      if RequestsConflict(permits[i].request, scan.selected[k].request, c.declarations) {
        ConflictSymmetric(permits[i].request, scan.selected[k].request, c.declarations);
      }
    }
    forall k | 0 <= k < |issued| ensures issued[k].request == scan.selected[k].request {}
    hide Issue; hide BlockedByPermit;
  }

  lemma GrantDeclared(c: Coordinator, permits: seq<Permit>, scan: Scan, now: int, lease: int)
    requires AllDeclared(c) && c.permits == permits && scan == ScanQueue(c.queued, permits, c.declarations, now)
    ensures AllDeclared(c.(queued := scan.waiting, permits := permits + Issue(scan.selected, now, lease)))
  {
    hide ScanQueue; hide Declared; hide BlockedByPermit;
    ScanMembers(c.queued, permits, c.declarations, now);
    var issued := Issue(scan.selected, now, lease);
    forall p | p in issued ensures exists e :: e in c.queued && e.request == p.request {
      var k :| 0 <= k < |issued| && issued[k] == p;
      assert scan.selected[k] in scan.selected;
    }
  }

  lemma GrantKeeps(c: Coordinator, authority: Authority, now: int, permitMs: int)
    requires Inv(c)
    ensures Inv(GrantNext(c, authority, now, permitMs).state)
  {
    hide Unique; hide Exclusive; hide AllDeclared; hide Unaliased; hide ExpireAll; hide ScanQueue; hide Issue;
    if GrantNext(c, authority, now, permitMs).granted.Ok? {
      var permits := ExpireAll(c.permits, now);
      ExpireSettles(c.permits, now);
      SettledKeeps(c, permits);
      var d := c.(permits := permits);
      var scan := ScanQueue(c.queued, permits, c.declarations, now);
      var lease := Min(permitMs, c.maxPermit);
      GrantUnique(d, permits, scan, now, lease);
      GrantExclusive(d, permits, scan, now, lease);
      GrantDeclared(d, permits, scan, now, lease);
    }
  }

  // ----- every run -----

  lemma ApplyKeeps(c: Coordinator, op: Op)
    requires Inv(c)
    ensures Inv(Apply(c, op))
  {
    hide Register; hide Submit; hide GrantNext; hide Activate; hide Release; hide Settled; hide ExpireAll;
    match op {
      case RegisterOp(ds) => RegisterKeeps(c, ds);
      case SubmitOp(request, now) => if WellFormed(request) { SubmitKeeps(c, request, now); }
      case GrantOp(authority, now, ms) => GrantKeeps(c, authority, now, ms);
      case ActivateOp(id, bindings, now) =>
        ActivateSettles(c, id, bindings, now);
        SettledKeeps(c, Activate(c, id, bindings, now).state.permits);
      case ReleaseOp(id, now, reason) =>
        ReleaseSettles(c, id, now, reason);
        SettledKeeps(c, Release(c, id, now, reason).state.permits);
      case ExpireOp(now) =>
        ExpireSettles(c.permits, now);
        SettledKeeps(c, ExpireAll(c.permits, now));
      case ModeOp(_, _) => ModeKeeps(c, Apply(c, op));
      case RotateOp(_) => ModeKeeps(c, Apply(c, op));
    }
  }

  lemma ModeKeeps(c: Coordinator, next: Coordinator)
    requires Inv(c) && next.declarations == c.declarations && next.queued == c.queued
    requires next.permits == c.permits && next.submissions == c.submissions
    ensures Inv(next)
  {
    hide RequestsConflict; hide WellFormed; hide Tidy;
  }

  lemma {:induction false} RunKeeps(authority: Authority, maxPermit: nat, ops: seq<Op>)
    ensures Inv(Run(Fresh(authority, maxPermit), ops))
  {
    hide Apply;
    if ops != [] {
      RunKeeps(authority, maxPermit, ops[..|ops| - 1]);
      hide Inv;
      ApplyKeeps(Run(Fresh(authority, maxPermit), ops[..|ops| - 1]), ops[|ops| - 1]);
    }
  }
}
