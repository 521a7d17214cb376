/** The coordinator as an object updated in place. */
module AdmissionCoordinator {
  import opened Outcomes
  import opened Requests
  import A = Admission
  import I = AdmissionInvariant
  import T = AdmissionTime

  /** The number of live permits. */
  function LiveCount(permits: seq<A.Permit>): nat {
    if permits == [] then 0
    else LiveCount(permits[..|permits| - 1]) + if permits[|permits| - 1].Live() then 1 else 0
  }

  /** The list with the first i permits expired where due. */
  function Swept(permits: seq<A.Permit>, now: int, i: nat): (r: seq<A.Permit>)
    requires i <= |permits|
    ensures |r| == |permits|
  {
    A.ExpireAll(permits[..i], now) + permits[i..]
  }

  lemma SweptStep(permits: seq<A.Permit>, now: int, i: nat)
    requires i < |permits|
    ensures Swept(permits, now, i)[i] == permits[i]
    ensures Swept(permits, now, i + 1) == Swept(permits, now, i)[i := A.ExpireOne(permits[i], now)]
    ensures LiveCount(Swept(permits, now, i + 1)[..i + 1])
         == LiveCount(Swept(permits, now, i)[..i]) + if A.ExpireOne(permits[i], now).Live() then 1 else 0
    ensures LiveCount(permits[..i + 1]) == LiveCount(permits[..i]) + if permits[i].Live() then 1 else 0
  {
    var was, next := Swept(permits, now, i), Swept(permits, now, i + 1);
    assert next[..i + 1][..i] == was[..i] && next[..i + 1][i] == A.ExpireOne(permits[i], now);
    assert permits[..i + 1][..i] == permits[..i];
  }

  lemma SweptEnds(permits: seq<A.Permit>, now: int)
    ensures Swept(permits, now, 0) == permits && Swept(permits, now, |permits|) == A.ExpireAll(permits, now)
    ensures LiveCount(permits[..0]) == 0
  {
    assert permits[..|permits|] == permits;
  }

  lemma IssueStep(entries: seq<A.Entry>, now: int, lease: int, i: nat)
    requires i < |entries|
    ensures A.Issue(entries[..i + 1], now, lease) == A.Issue(entries[..i], now, lease) + [A.PermitFor(entries[i], now, lease)]
  {
  }

  class ConflictAdmissionCoordinator {
    var authority: A.Authority
    const maxPermit: nat
    var available: bool
    var cleanupOnly: bool
    var declarations: map<A.Key, A.Declaration>
    var queued: seq<A.Entry>
    var permits: seq<A.Permit>
    var submissions: nat

    function State(): A.Coordinator
      reads this
    {
      A.Coordinator(authority, maxPermit, available, cleanupOnly, declarations, queued, permits, submissions)
    }

    constructor (authority: A.Authority, maxPermit: nat)
      ensures State() == A.Fresh(authority, maxPermit)
      ensures I.Inv(State())
    {
      this.authority, this.maxPermit := authority, maxPermit;
      available, cleanupOnly := true, false;
      declarations, queued, permits, submissions := map[], [], [], 0;
    }

    method RegisterDeclarations(added: seq<A.Declaration>) returns (error: Option<A.Error>)
      requires I.Inv(State())
      modifies this
      ensures A.Registered(State(), error) == A.Register(old(State()), added)
      ensures I.Inv(State())
    {
      hide I.Inv; hide A.RegisterOne;
      ghost var start := State();
      assert added[..0] == [];
      for i := 0 to |added|
        invariant A.Register(start, added[..i]) == A.Registered(State(), None)
      {
        assert added[..i + 1][..i] == added[..i];
        match A.RegisterOne(State(), added[i])
        case Ok(next) =>
          RegisteredOnly(State(), added[i]);
          declarations := next.declarations;
        case Err(e) =>
          RegisterStops(start, added, i + 1);
          I.RegisterKeeps(start, added);
          return Some(e);
      }
      assert added[..|added|] == added;
      I.RegisterKeeps(start, added);
      error := None;
    }

    method Submit(request: A.Request, now: int) returns (answer: Result<A.Answer, A.Error>)
      requires I.Inv(State()) && A.WellFormed(request)
      modifies this
      ensures A.Submitted(State(), answer) == A.Submit(old(State()), request, now)
      ensures I.Inv(State())
    {
      hide I.Inv; hide A.ClaimError; hide A.PermitOf; hide A.EntryOf; hide A.WellFormed;
      I.SubmitKeeps(State(), request, now);
      if request.capability != A.CAPABILITY { return Err(A.CapabilityMismatch); }
      var refused := A.ClaimError(State(), request.claims);
      if refused.Some? { return Err(refused.value); }
      if now >= request.deadline { return Ok(A.DeadlineExpired); }
      match A.PermitOf(permits, request.identity)
      case Some(p) =>
        return if p.request != request then Err(A.ConflictingDuplicate) else Ok(A.Permitted(p.standing));
      case None =>
        match A.EntryOf(queued, request.identity)
        case Some(e) =>
          return if e.request != request then Err(A.ConflictingDuplicate) else Ok(A.Queued);
        case None =>
          submissions := submissions + 1;
          queued := queued + [A.Entry(submissions, request)];
          return Ok(A.Queued);
    }

    method Expire(now: int) returns (expired: nat)
      requires I.Inv(State())
      modifies this`permits
      ensures State() == A.Expire(old(State()), now)
      ensures expired == LiveCount(old(permits)) - LiveCount(permits)
      ensures I.Inv(State())
    {
      hide I.Inv;
      ghost var start := State();
      hide A.ExpireAll; hide Swept; hide LiveCount;
      SweptEnds(permits, now);
      expired := 0;
      for i := 0 to |permits|
        modifies this`permits
        invariant |permits| == |start.permits|
        invariant permits == Swept(start.permits, now, i)
        invariant expired == LiveCount(start.permits[..i]) - LiveCount(permits[..i])
      {
        SweptStep(start.permits, now, i);
        if permits[i].Live() && now >= permits[i].expiresAt {
          permits := permits[i := permits[i].(standing := A.Released(now, A.LeaseExpired))];
          expired := expired + 1;
        }
      }
      assert start.permits[..|permits|] == start.permits && permits[..|permits|] == permits;
      I.ExpireSettles(start.permits, now);
      I.SettledKeeps(start, permits);
    }

    method GrantNext(asking: A.Authority, now: int, permitMs: int) returns (granted: Result<seq<A.Permit>, A.Error>)
      requires I.Inv(State())
      modifies this
      ensures A.Grant(State(), granted) == A.GrantNext(old(State()), asking, now, permitMs)
      ensures I.Inv(State())
    {
      hide I.Inv; hide A.ExpireAll; hide A.RequestsConflict; hide A.BlockedByPermit; hide A.BlockedByEntry;
      I.GrantKeeps(State(), asking, now, permitMs);
      if asking != authority { return Err(A.CompetingAuthority); }
      if !available || cleanupOnly { return Err(A.Unavailable); }
      if permitMs <= 0 { return Err(A.BadLease); }
      var _ := Expire(now);
      ghost var live := permits;
      var selected: seq<A.Entry>, waiting: seq<A.Entry> := [], [];
      for i := 0 to |queued|
        invariant A.Scan(selected, waiting) == A.ScanQueue(queued[..i], permits, declarations, now)
      {
        assert queued[..i + 1][..i] == queued[..i];
        var e := queued[i];
        if now < e.request.deadline {
          if A.BlockedByPermit(e.request, permits, declarations) || A.BlockedByEntry(e.request, selected, declarations) {
            waiting := waiting + [e];
          } else {
            selected := selected + [e];
          }
        }
      }
      assert queued[..|queued|] == queued;
      queued := waiting;
      var lease := A.Min(permitMs, maxPermit);
      var result: seq<A.Permit> := [];
      for k := 0 to |selected|
        modifies this`permits
        invariant result == A.Issue(selected[..k], now, lease)
        invariant permits == live + result
      {
        var p := A.PermitFor(selected[k], now, lease);
        IssueStep(selected, now, lease, k);
        permits := permits + [p];
        result := result + [p];
      }
      assert selected[..|selected|] == selected;
      granted := Ok(result);
    }

    method Activate(id: nat, bindings: map<A.Key, A.Binding>, now: int) returns (permit: Result<A.Permit, A.Error>)
      requires I.Inv(State())
      modifies this`permits
      ensures A.Activated(State(), permit) == A.Activate(old(State()), id, bindings, now)
      ensures I.Inv(State())
    {
      hide I.Inv; hide A.ExpireAll; hide A.IndexOf;
      I.ActivateSettles(State(), id, bindings, now);
      I.SettledKeeps(State(), A.Activate(State(), id, bindings, now).state.permits);
      hide I.Settled;
      var i := A.IndexOf(permits, id);
      if i == |permits| || !permits[i].Live() { return Err(A.NotActivatable); }
      var p := permits[i];
      if p.standing.Active? { return Ok(p); }
      if now >= p.expiresAt {
        var _ := Expire(now);
        return Err(A.ExpiredBeforeActivation);
      }
      var refused := A.BindingError(p.request, bindings, 0);
      if refused.Some? { return Err(refused.value); }
      var active := p.(standing := A.Active, activatedAt := Some(now));
      permits := permits[i := active];
      permit := Ok(active);
    }

    method Release(id: nat, now: int, reason: string) returns (changed: Result<bool, A.Error>)
      requires I.Inv(State())
      modifies this`permits
      ensures A.ReleaseDone(State(), changed) == A.Release(old(State()), id, now, reason)
      ensures I.Inv(State())
    {
      hide I.Inv; hide A.IndexOf; hide A.Blank;
      I.ReleaseSettles(State(), id, now, reason);
      I.SettledKeeps(State(), A.Release(State(), id, now, reason).state.permits);
      var i := A.IndexOf(permits, id);
      if i == |permits| || !permits[i].Live() { return Ok(false); }
      permits := permits[i := permits[i].(standing := A.Released(now, A.Called))];
      if A.Blank(reason) { return Err(A.BlankReason); }
      changed := Ok(true);
    }

    method SetAvailable(available: bool, cleanupOnly: bool)
      requires I.Inv(State())
      modifies this`available, this`cleanupOnly
      ensures State() == old(State()).(available := available, cleanupOnly := cleanupOnly)
      ensures I.Inv(State())
    {
      I.ModeKeeps(State(), State().(available := available, cleanupOnly := cleanupOnly));
      this.available, this.cleanupOnly := available, cleanupOnly;
    }

    method RotateAuthority(next: A.Authority) returns (error: Option<A.Error>)
      requires I.Inv(State())
      modifies this`authority
      ensures A.Rotate(old(State()), next) == (match error case None => Ok(State()) case Some(e) => Err(e))
      ensures error.Some? ==> State() == old(State())
      ensures I.Inv(State())
    {
      I.ModeKeeps(State(), State().(authority := next));
      if next.scope != authority.scope || next.epoch <= authority.epoch { return Some(A.CompetingAuthority); }
      if exists i :: 0 <= i < |permits| && permits[i].Live() { return Some(A.CompetingAuthority); }
      authority := next;
      error := None;
    }
  }

  lemma RegisteredOnly(c: A.Coordinator, d: A.Declaration)
    requires A.RegisterOne(c, d).Ok?
    ensures A.RegisterOne(c, d).value == c.(declarations := A.RegisterOne(c, d).value.declarations)
  {
  }

  /** A refused declaration ends the registration there. */
  lemma {:induction false} RegisterStops(c: A.Coordinator, ds: seq<A.Declaration>, k: nat)
    requires k <= |ds| && A.Register(c, ds[..k]).error.Some?
    ensures A.Register(c, ds) == A.Register(c, ds[..k])
    decreases |ds| - k
  {
    hide A.RegisterOne;
    if k < |ds| {
      assert ds[..k + 1][..k] == ds[..k];
      RegisterStops(c, ds, k + 1);
    } else {
      assert ds[..k] == ds;
    }
  }
}
