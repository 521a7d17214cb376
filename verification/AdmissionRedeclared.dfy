/** What the coordinator's capacity guarantee asks of registrations while requests wait. */
module AdmissionRedeclared {
  import opened Outcomes
  import opened Requests
  import opened Admission
  import opened AdmissionInvariant
  import opened AdmissionHistory
  import T = AdmissionTime

  // ----- one device, as it is declared now -----

  predicate SoleUse(d: Declaration) {
    d.exclusive || d.capacity <= 1
  }

  ghost predicate Sole(c: Coordinator, key: Key) {
    key in c.declarations ==> SoleUse(c.declarations[key])
  }

  /** The live permits hold no more of the device than it is now declared to have. */
  ghost predicate Held(c: Coordinator, key: Key) {
    key in c.declarations ==> LiveQuantity(c.permits, key) <= c.declarations[key].capacity
  }

  /** No request waiting claims more of the device than it is now declared to have. */
  ghost predicate QueueFits(c: Coordinator, key: Key) {
    key in c.declarations ==> forall e :: e in c.queued ==> Quantity(e.request.claims, key) <= c.declarations[key].capacity
  }

  ghost predicate LiveFits(c: Coordinator, key: Key) {
    key in c.declarations ==> forall i :: 0 <= i < |c.permits| && c.permits[i].Live() ==>
      Quantity(c.permits[i].request.claims, key) <= c.declarations[key].capacity
  }

  ghost predicate SameDeclaration(c: Coordinator, next: Coordinator, key: Key) {
    (key in next.declarations <==> key in c.declarations) && (key in c.declarations ==> next.declarations[key] == c.declarations[key])
  }

  /** The operations leave the declaration of the key as it is. */
  ghost predicate Leaves(ops: seq<Op>, c: Coordinator, key: Key) {
    forall op :: op in ops && op.RegisterOp? ==>
      forall e :: e in op.declarations && e.key == key ==> key in c.declarations && e == c.declarations[key]
  }

  lemma {:induction false} HolderCounts(permits: seq<Permit>, key: Key, i: nat)
    requires i < |permits| && permits[i].Live()
    ensures LiveQuantity(permits, key) >= Quantity(permits[i].request.claims, key)
  {
    hide Quantity;
    if i < |permits| - 1 {
      HolderCounts(permits[..|permits| - 1], key, i);
    }
  }

  lemma HeldFits(c: Coordinator, key: Key)
    requires Held(c, key)
    ensures LiveFits(c, key)
  {
    hide LiveQuantity; hide Quantity;
    forall i | 0 <= i < |c.permits| && c.permits[i].Live()
      ensures LiveQuantity(c.permits, key) >= Quantity(c.permits[i].request.claims, key)
    {
      HolderCounts(c.permits, key, i);
    }
  }

  lemma FitsHeld(c: Coordinator, key: Key)
    requires Inv(c) && Sole(c, key) && LiveFits(c, key)
    ensures Held(c, key)
  {
    hide Inv; hide LiveQuantity; hide Quantity;
    if key in c.declarations {
      forall i, j | 0 <= i < j < |c.permits| && c.permits[i].Live() && c.permits[j].Live()
        ensures Quantity(c.permits[i].request.claims, key) == 0 || Quantity(c.permits[j].request.claims, key) == 0
      {
        QuantityClaimed(c.permits[i].request.claims, key);
        QuantityClaimed(c.permits[j].request.claims, key);
        if Quantity(c.permits[i].request.claims, key) != 0 && Quantity(c.permits[j].request.claims, key) != 0 {
          HoldersAgree(c, key, i, j);
          assert false;
        }
      }
      OneHolderTotal(c.permits, key, c.declarations[key].capacity);
    }
  }

  // ----- operations that leave the declaration alone -----

  lemma {:induction false} RegisterLeaves(c: Coordinator, ds: seq<Declaration>, key: Key)
    requires forall e :: e in ds && e.key == key ==> key in c.declarations && e == c.declarations[key]
    ensures SameDeclaration(c, Register(c, ds).state, key)
    ensures Register(c, ds).state.queued == c.queued && Register(c, ds).state.permits == c.permits
  {
    hide Aliased; hide ClaimLive;
    if ds != [] {
      RegisterLeaves(c, ds[..|ds| - 1], key);
    }
  }

  lemma SubmitQueueFits(c: Coordinator, request: Request, now: int, key: Key)
    requires QueueFits(c, key)
    ensures QueueFits(Submit(c, request, now).state, key)
    ensures Submit(c, request, now).state.declarations == c.declarations && Submit(c, request, now).state.permits == c.permits
  {
    hide Quantity; hide ClaimError; hide PermitOf; hide EntryOf;
    if Submit(c, request, now).state != c {
      QuantityClaimed(request.claims, key);
      if Quantity(request.claims, key) > 0 {
        var k :| 0 <= k < |request.claims| && request.claims[k].key == key && request.claims[k].quantity == Quantity(request.claims, key);
        NoClaimError(c, request.claims, k);
      }
    }
  }

  lemma SettledLiveFits(c: Coordinator, permits: seq<Permit>, key: Key)
    requires LiveFits(c, key) && Settled(c.permits, permits)
    ensures LiveFits(c.(permits := permits), key)
  {
    hide Quantity;
  }

  lemma GrantStaysFit(c: Coordinator, authority: Authority, now: int, permitMs: int, key: Key)
    requires LiveFits(c, key) && QueueFits(c, key)
    ensures var next := GrantNext(c, authority, now, permitMs).state;
      LiveFits(next, key) && QueueFits(next, key) && next.declarations == c.declarations
  {
    hide Quantity; hide ScanQueue; hide ExpireAll;
    if GrantNext(c, authority, now, permitMs).granted.Ok? {
      var permits := ExpireAll(c.permits, now);
      ExpireSettles(c.permits, now);
      SettledLiveFits(c, permits, key);
      ScanMembers(c.queued, permits, c.declarations, now);
      var scan := ScanQueue(c.queued, permits, c.declarations, now);
      forall k | 0 <= k < |scan.selected| ensures scan.selected[k] in c.queued {
        assert scan.selected[k] in scan.selected;
      }
    }
  }

  lemma ApplyStaysFit(c: Coordinator, op: Op, key: Key)
    requires LiveFits(c, key) && QueueFits(c, key) && Leaves([op], c, key)
    ensures LiveFits(Apply(c, op), key) && QueueFits(Apply(c, op), key) && SameDeclaration(c, Apply(c, op), key)
  {
    hide Register; hide Submit; hide GrantNext; hide Activate; hide Release; hide Settled; hide ExpireAll; hide Quantity;
    match op {
      case RegisterOp(ds) =>
        assert op in [op];
        RegisterLeaves(c, ds, key);
      case SubmitOp(request, now) => SubmitQueueFits(c, request, now, key);
      case GrantOp(authority, now, ms) => GrantStaysFit(c, authority, now, ms, key);
      case ActivateOp(id, bindings, now) =>
        ActivateSettles(c, id, bindings, now);
        SettledLiveFits(c, Activate(c, id, bindings, now).state.permits, key);
      case ReleaseOp(id, now, reason) =>
        ReleaseSettles(c, id, now, reason);
        SettledLiveFits(c, Release(c, id, now, reason).state.permits, key);
      case ExpireOp(now) =>
        ExpireSettles(c.permits, now);
        SettledLiveFits(c, ExpireAll(c.permits, now), key);
      case ModeOp(_, _) =>
      case RotateOp(_) =>
    }
  }

  lemma {:induction false} RunStaysFit(c: Coordinator, ops: seq<Op>, key: Key)
    requires LiveFits(c, key) && QueueFits(c, key) && Leaves(ops, c, key)
    ensures LiveFits(Run(c, ops), key) && QueueFits(Run(c, ops), key) && SameDeclaration(c, Run(c, ops), key)
  {
    if ops != [] {
      var front, last := ops[..|ops| - 1], ops[|ops| - 1];
      assert last in ops && forall op :: op in front ==> op in ops;
      RunStaysFit(c, front, key);
      hide LiveFits; hide QueueFits;
      ApplyStaysFit(Run(c, front), last, key);
      hide Apply;
    }
  }

  // ----- a waiting request that claims too much is granted in the end -----

  ghost predicate Overclaims(c: Coordinator, e: Entry, key: Key) {
    e in c.queued && key in c.declarations && Quantity(e.request.claims, key) > c.declarations[key].capacity
  }

  ghost predicate NoneLive(permits: seq<Permit>) {
    forall i :: 0 <= i < |permits| ==> !permits[i].Live()
  }

  function LastExpiry(permits: seq<Permit>): (t: int)
    ensures forall i :: 0 <= i < |permits| ==> permits[i].expiresAt <= t
  {
    if permits == [] then 0
    else
      var before := LastExpiry(permits[..|permits| - 1]);
      if permits[|permits| - 1].expiresAt > before then permits[|permits| - 1].expiresAt else before
  }

  /** Every permit expired and the queue granted from. */
  function Round(c: Coordinator): seq<Op> {
    [ModeOp(true, false)] + [ExpireOp(LastExpiry(c.permits))] + [GrantOp(c.authority, 0, 1)]
  }

  lemma RunAppend(c: Coordinator, ops: seq<Op>, op: Op)
    ensures Run(c, ops + [op]) == Apply(Run(c, ops), op)
  {
    assert (ops + [op])[..|ops|] == ops;
  }

  lemma {:induction false} RunJoins(c: Coordinator, ops: seq<Op>, more: seq<Op>)
    ensures Run(Run(c, ops), more) == Run(c, ops + more)
  {
    if more == [] {
      assert ops + more == ops;
    } else {
      RunJoins(c, ops, more[..|more| - 1]);
      assert (ops + more)[..|ops + more| - 1] == ops + more[..|more| - 1];
      hide Apply;
    }
  }

  lemma {:induction false} ScanShrinks(queued: seq<Entry>, permits: seq<Permit>, declarations: map<Key, Declaration>, now: int)
    requires queued != [] && NoneLive(permits)
    ensures |ScanQueue(queued, permits, declarations, now).waiting| < |queued|
  {
    hide RequestsConflict;
    if |queued| == 1 {
      assert queued[..0] == [];
    } else {
      ScanShrinks(queued[..|queued| - 1], permits, declarations, now);
      hide BlockedByPermit; hide BlockedByEntry;
    }
  }

  lemma GrantSelects(c: Coordinator, e: Entry, key: Key, now: int)
    requires c.available && !c.cleanupOnly && NoneLive(c.permits) && Overclaims(c, e, key) && now < e.request.deadline
    ensures var next := GrantNext(c, c.authority, now, 1).state;
      && next.declarations == c.declarations && next.authority == c.authority
      && (!Held(next, key) || (Overclaims(next, e, key) && |next.queued| < |c.queued|))
  {
    var again := ExpireAll(c.permits, now);
    assert NoneLive(again);
    hide ExpireAll;
    ScanMembers(c.queued, again, c.declarations, now);
    ScanShrinks(c.queued, again, c.declarations, now);
    hide ScanQueue; hide Quantity; hide LiveQuantity;
    var next := GrantNext(c, c.authority, now, 1).state;
    var scan := ScanQueue(c.queued, again, c.declarations, now);
    if e in scan.selected {
      var k :| 0 <= k < |scan.selected| && scan.selected[k] == e;
      assert next.permits[|again| + k] == PermitFor(e, now, Min(1, c.maxPermit));
      HolderCounts(next.permits, key, |again| + k);
    }
  }

  lemma DeadlinePositive(c: Coordinator, e: Entry)
    requires Inv(c) && e in c.queued
    ensures 0 < e.request.deadline
  {
    hide Unique; hide Exclusive; hide Unaliased;
    assert Declared(e.request, c.declarations);
  }

  lemma RoundGrants(c: Coordinator, e: Entry, key: Key)
    requires Inv(c) && Overclaims(c, e, key)
    ensures var next := Run(c, Round(c));
      && Inv(next) && next.declarations == c.declarations && next.authority == c.authority
      && (!Held(next, key) || (Overclaims(next, e, key) && |next.queued| < |c.queued|))
  {
    T.RunInv(c, Round(c));
    RoundUnfolds(c);
    DeadlinePositive(c, e);
    var permits := ExpireAll(c.permits, LastExpiry(c.permits));
    assert NoneLive(permits);
    hide Run; hide Round; hide Inv; hide Held; hide Quantity; hide GrantNext; hide ExpireAll;
    GrantSelects(c.(available := true, cleanupOnly := false, permits := permits), e, key, 0);
  }

  lemma RoundUnfolds(c: Coordinator)
    ensures Run(c, Round(c))
         == GrantNext(c.(available := true, cleanupOnly := false, permits := ExpireAll(c.permits, LastExpiry(c.permits))), c.authority, 0, 1).state
  {
    hide GrantNext; hide ExpireAll; hide Run;
    assert Run(c, []) == c by { RunNone(c); }
    assert [] + [ModeOp(true, false)] == [ModeOp(true, false)];
    RunAppend(c, [], ModeOp(true, false));
    RunAppend(c, [ModeOp(true, false)], ExpireOp(LastExpiry(c.permits)));
    RunAppend(c, [ModeOp(true, false)] + [ExpireOp(LastExpiry(c.permits))], GrantOp(c.authority, 0, 1));
  }

  lemma RunNone(c: Coordinator)
    ensures Run(c, []) == c
  {
  }

  lemma {:induction false} OverclaimGranted(c: Coordinator, e: Entry, key: Key) returns (more: seq<Op>)
    requires Inv(c) && Overclaims(c, e, key)
    ensures (forall op :: op in more ==> !op.RegisterOp?) && !Held(Run(c, more), key)
    decreases |c.queued|
  {
    RoundGrants(c, e, key);
    var next := Run(c, Round(c));
    hide Inv; hide Overclaims; hide Held; hide Run;
    if !Held(next, key) {
      more := Round(c);
    } else {
      var rest := OverclaimGranted(next, e, key);
      more := Round(c) + rest;
      RunJoins(c, Round(c), rest);
    }
  }

  /** As long as an exclusive device, or one of capacity at most one, is not declared anew, the live
      permits stay within its capacity whatever happens, exactly when they are within it now and no
      waiting request claims more of it. */
  lemma StaysWithinExactly(c: Coordinator, key: Key)
    requires Inv(c) && Sole(c, key)
    ensures (forall more :: Leaves(more, c, key) ==> Held(Run(c, more), key)) <==> Held(c, key) && QueueFits(c, key)
  {
    hide Inv; hide Held; hide LiveFits; hide Sole;
    if Held(c, key) && QueueFits(c, key) {
      HeldFits(c, key);
      hide QueueFits;
      forall more | Leaves(more, c, key) ensures Held(Run(c, more), key) {
        RunStaysFit(c, more, key);
        T.RunInv(c, more);
        assert Sole(Run(c, more), key) by { SoleKept(c, Run(c, more), key); }
        FitsHeld(Run(c, more), key);
      }
    } else if !Held(c, key) {
      RunNone(c);
      assert Leaves([], c, key) && !Held(Run(c, []), key);
    } else {
      var e :| e in c.queued && Quantity(e.request.claims, key) > c.declarations[key].capacity;
      var more := OverclaimGranted(c, e, key);
      assert Leaves(more, c, key) && !Held(Run(c, more), key);
    }
  }

  lemma SoleKept(c: Coordinator, next: Coordinator, key: Key)
    requires Sole(c, key) && SameDeclaration(c, next, key)
    ensures Sole(next, key)
  {
  }

  // ----- runs that declare the device anew -----

  /** Every declaration of the key is of an exclusive device or one of capacity at most one. */
  ghost predicate SoleThroughout(ops: seq<Op>, key: Key) {
    forall op :: op in ops && op.RegisterOp? ==> forall e :: e in op.declarations && e.key == key ==> SoleUse(e)
  }

  /** No registration leaves a request waiting that claims more of the device than it then has. */
  ghost predicate Careful(c: Coordinator, ops: seq<Op>, key: Key) {
    forall n :: 0 < n <= |ops| && ops[n - 1].RegisterOp? ==> QueueFits(Run(c, ops[..n]), key)
  }

  lemma {:induction false} RegisterSpares(c: Coordinator, ds: seq<Declaration>, key: Key)
    requires Sole(c, key) && forall e :: e in ds && e.key == key ==> SoleUse(e)
    ensures var next := Register(c, ds).state;
      && next.queued == c.queued && next.permits == c.permits && Sole(next, key)
      && (key in c.declarations ==> SameDeclaration(c, next, key) || !ClaimLive(c, key))
  {
    hide Aliased; hide ClaimLive;
    if ds != [] {
      RegisterSpares(c, ds[..|ds| - 1], key);
      var before := Register(c, ds[..|ds| - 1]).state;
      assert ClaimLive(before, key) == ClaimLive(c, key) by { SameLive(c, before, key); }
    }
  }

  lemma SameLive(c: Coordinator, next: Coordinator, key: Key)
    requires next.permits == c.permits
    ensures ClaimLive(next, key) == ClaimLive(c, key)
  {
  }

  lemma QuantityClaims(request: Request, key: Key)
    ensures Quantity(request.claims, key) > 0 ==> Claims(request, key)
  {
    QuantityClaimed(request.claims, key);
  }

  /** A registration never takes from a live permit: a device in use is not declared anew. */
  lemma RegisterLiveFits(c: Coordinator, ds: seq<Declaration>, key: Key)
    requires Inv(c) && Sole(c, key) && LiveFits(c, key) && forall e :: e in ds && e.key == key ==> SoleUse(e)
    ensures LiveFits(Register(c, ds).state, key) && Sole(Register(c, ds).state, key)
  {
    RegisterSpares(c, ds, key);
    var next := Register(c, ds).state;
    hide Register; hide Quantity; hide Unique; hide Exclusive; hide Unaliased; hide WellFormed;
    if !SameDeclaration(c, next, key) {
      forall i | 0 <= i < |c.permits| && c.permits[i].Live() ensures Quantity(c.permits[i].request.claims, key) == 0 {
        QuantityClaims(c.permits[i].request, key);
        assert c.permits[i] in c.permits;
      }
    }
  }

  lemma {:induction false} CarefulFits(c: Coordinator, ops: seq<Op>, key: Key)
    requires Inv(c) && Sole(c, key) && LiveFits(c, key) && QueueFits(c, key)
    requires SoleThroughout(ops, key) && Careful(c, ops, key)
    ensures var next := Run(c, ops); Inv(next) && Sole(next, key) && LiveFits(next, key) && QueueFits(next, key)
  {
    T.RunInv(c, ops);
    hide Inv;
    if ops != [] {
      var front, last := ops[..|ops| - 1], ops[|ops| - 1];
      assert last in ops && forall op :: op in front ==> op in ops;
      forall n | 0 < n <= |front| ensures front[..n] == ops[..n] {}
      assert ops[..|ops|] == ops;
      CarefulFits(c, front, key);
      var before := Run(c, front);
      hide LiveFits; hide QueueFits; hide Sole;
      if last.RegisterOp? {
        RegisterLiveFits(before, last.declarations, key);
        hide Register;
      } else {
        assert Leaves([last], before, key);
        ApplyStaysFit(before, last, key);
        hide Apply;
        SoleKept(before, Apply(before, last), key);
      }
    }
  }

  lemma FreshFits(authority: Authority, maxPermit: nat, key: Key)
    ensures var c := Fresh(authority, maxPermit);
      Inv(c) && Sole(c, key) && LiveFits(c, key) && QueueFits(c, key)
  {
  }

  lemma PrefixCareful(c: Coordinator, ops: seq<Op>, key: Key, n: nat)
    requires Careful(c, ops, key) && SoleThroughout(ops, key) && n <= |ops|
    ensures Careful(c, ops[..n], key) && SoleThroughout(ops[..n], key)
  {
    forall m | 0 <= m <= n ensures ops[..n][..m] == ops[..m] {}
    assert forall op :: op in ops[..n] ==> op in ops;
    hide QueueFits; hide Run;
  }

  /** From every state a run reaches, the live permits stay within the device's declared capacity until
      it is declared anew, exactly when no registration of the run leaves a request waiting that claims
      more of it than it then has: live permits are guarded by the coordinator, waiting requests are not. */
  lemma RedeclarationExactly(authority: Authority, maxPermit: nat, ops: seq<Op>, key: Key)
    requires SoleThroughout(ops, key)
    ensures (forall n: nat, more :: n <= |ops| && Leaves(more, Run(Fresh(authority, maxPermit), ops[..n]), key) ==>
               Held(Run(Run(Fresh(authority, maxPermit), ops[..n]), more), key))
            <==> Careful(Fresh(authority, maxPermit), ops, key)
  {
    var c := Fresh(authority, maxPermit);
    FreshFits(authority, maxPermit, key);
    hide Fresh; hide Inv; hide Held; hide LiveFits; hide QueueFits; hide Sole; hide Run; hide Leaves;
    if Careful(c, ops, key) {
      forall n: nat, more | n <= |ops| && Leaves(more, Run(c, ops[..n]), key) ensures Held(Run(Run(c, ops[..n]), more), key) {
        PrefixCareful(c, ops, key, n);
        CarefulFits(c, ops[..n], key);
        FitsHeld(Run(c, ops[..n]), key);
        StaysWithinExactly(Run(c, ops[..n]), key);
      }
    } else {
      var n :| 0 < n <= |ops| && ops[n - 1].RegisterOp? && !QueueFits(Run(c, ops[..n]), key);
      T.RunInv(c, ops[..n]);
      RunSole(c, ops[..n], key);
      StaysWithinExactly(Run(c, ops[..n]), key);
    }
  }

  lemma {:induction false} RunSole(c: Coordinator, ops: seq<Op>, key: Key)
    requires Sole(c, key) && SoleThroughout(ops, key)
    ensures Sole(Run(c, ops), key)
  {
    if ops != [] {
      var front, last := ops[..|ops| - 1], ops[|ops| - 1];
      assert last in ops && forall op :: op in front ==> op in ops;
      RunSole(c, front, key);
      if last.RegisterOp? {
        RegisterSpares(Run(c, front), last.declarations, key);
      } else {
        OtherwiseSame(Run(c, front), last);
      }
      hide Apply;
    }
  }

  lemma OtherwiseSame(c: Coordinator, op: Op)
    requires !op.RegisterOp?
    ensures Apply(c, op).declarations == c.declarations
  {
    hide ClaimError; hide PermitOf; hide EntryOf; hide ScanQueue; hide ExpireAll; hide Issue; hide IndexOf; hide Blank; hide WellFormed; hide BindingError;
  }

  /** So over every careful run the live permits are within the current capacity. */
  lemma CapacityHeldAcrossRedeclarations(authority: Authority, maxPermit: nat, ops: seq<Op>, key: Key)
    requires SoleThroughout(ops, key) && Careful(Fresh(authority, maxPermit), ops, key)
    ensures Held(Run(Fresh(authority, maxPermit), ops), key)
  {
    FreshFits(authority, maxPermit, key);
    CarefulFits(Fresh(authority, maxPermit), ops, key);
    hide Run; hide Fresh; hide Inv; hide Held; hide LiveFits; hide QueueFits; hide Sole;
    FitsHeld(Run(Fresh(authority, maxPermit), ops), key);
  }
}
