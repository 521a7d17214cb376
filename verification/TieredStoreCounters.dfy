/** What the tiered store counts: every cached entry is accounted for, and every get. */
module TieredStoreCounters {
  import opened Outcomes
  import opened TieredStore
  import opened TieredStoreRefinement

  /** Since the last start, what was admitted is cached still, was evicted or was invalidated; what
      missed was read from the authority. */
  ghost predicate Balanced(t: Tier) {
    && t.counters.admissions == |t.lru| + t.counters.evictions + t.counters.invalidations
    && t.counters.misses == t.counters.backingReads
  }

  lemma {:induction false} WithoutShorter(lru: seq<string>, name: string)
    requires name in lru
    ensures |Without(lru, name)| == |lru| - 1
  {
    if lru[0] != name {
      WithoutShorter(lru[1..], name);
    }
  }

  lemma InvalidateBalanced(t: Tier, name: string)
    requires Balanced(t) && Listed(t)
    ensures Balanced(Invalidate(t, name)) && Invalidate(t, name).counters.hits == t.counters.hits
    ensures Invalidate(t, name).counters.misses == t.counters.misses
  {
    hide Without;
    if name in t.cache {
      WithoutShorter(t.lru, name);
    }
  }

  lemma {:induction false} EvictBalanced(t: Tier, limit: int)
    requires Balanced(t)
    ensures Balanced(EvictTo(t, limit)) && EvictTo(t, limit).counters.hits == t.counters.hits
    ensures EvictTo(t, limit).counters.misses == t.counters.misses
    decreases |t.lru|
  {
    if t.lru != [] && t.used > limit {
      var name := t.lru[0];
      var freed := if name in t.cache && t.cache[name].charge <= t.used then t.cache[name].charge else 0;
      EvictBalanced(t.(used := t.used - freed, cache := t.cache - {name}, lru := t.lru[1..],
                       counters := t.counters.(evictions := t.counters.evictions + 1)), limit);
    }
  }

  lemma AdmitBalanced(t: Tier, o: Object)
    requires Balanced(t) && Listed(t)
    ensures Balanced(Admit(t, o)) && Admit(t, o).counters.hits == t.counters.hits
    ensures Admit(t, o).counters.misses == t.counters.misses
  {
    hide Invalidate; hide EvictTo; hide Charge; hide Encode; hide Listed;
    InvalidateBalanced(t, o.manifest.name);
    EvictBalanced(Invalidate(t, o.manifest.name), t.budget - Charge(t, o));
  }

  lemma InvListed(t: Tier)
    requires Inv(t)
    ensures Listed(t)
  {
    hide Coherent; hide Listed;
  }

  function IsGet(op: Op): nat {
    if op.GetOp? then 1 else 0
  }

  lemma PerformBalanced(t: Tier, op: Op)
    requires Balanced(t) && Inv(t)
    ensures Balanced(Perform(t, op).0)
    ensures !op.RestartOp? ==>
      Perform(t, op).0.counters.hits + Perform(t, op).0.counters.misses == t.counters.hits + t.counters.misses + IsGet(op)
  {
    InvListed(t);
    hide Inv; hide Invalidate; hide Admit; hide Write; hide Read;
    match op {
      case PutOp(m, payload, fails) => PutBalanced(t, m, payload, fails);
      case PutManifestOp(m, fails) => PutBalanced(t, m, [], fails);
      case GetOp(name) => GetBalanced(t, name);
      case EraseOp(name, fails) =>
        var u := t.(rows := t.rows - {name}, counters := t.counters.(backingWrites := t.counters.backingWrites + 1));
        assert Listed(u);
        InvalidateBalanced(u, name);
      case HasOp(name) =>
      case RestartOp =>
    }
  }

  lemma GetBalanced(t: Tier, name: string)
    requires Balanced(t) && Listed(t)
    ensures var next := Get(t, name).0;
      Balanced(next) && next.counters.hits + next.counters.misses == t.counters.hits + t.counters.misses + 1
  {
    hide Admit; hide Read; hide Without;
    if name in t.cache {
      WithoutShorter(t.lru, name);
    } else if Read(t.rows, name).Ok? {
      var missed := t.(counters := t.counters.(misses := t.counters.misses + 1, backingReads := t.counters.backingReads + 1));
      assert Listed(missed);
      AdmitBalanced(missed, Read(t.rows, name).value);
    }
  }

  lemma PutBalanced(t: Tier, m: Manifest, payload: Bytes, fails: bool)
    requires Balanced(t) && Inv(t)
    ensures var next := Put(t, m, payload, fails).0;
      Balanced(next) && next.counters.hits == t.counters.hits && next.counters.misses == t.counters.misses
  {
    hide Inv; hide Invalidate; hide Admit; hide Write;
    if Write(t.rows, m, payload, fails).Ok? {
      var u := t.(rows := Write(t.rows, m, payload, fails).value, counters := t.counters.(backingWrites := t.counters.backingWrites + 1));
      BoundedOf(t, u);
      InvalidateBounded(u, m.name);
      InvalidateBalanced(u, m.name);
      AdmitBalanced(Invalidate(u, m.name), Object(m, payload));
    }
  }

  /** The gets since the last restart. */
  function GetsSince(ops: seq<Op>): nat {
    if ops == [] || ops[|ops| - 1].RestartOp? then 0 else GetsSince(ops[..|ops| - 1]) + IsGet(ops[|ops| - 1])
  }

  /** In every run, since the last restart: admissions are the cached entries, the evictions and the
      invalidations together; hits and misses are the gets; misses are the reads of the authority. */
  lemma {:induction false} CountersBalance(budget: nat, jsonSize: Manifest -> nat, ops: seq<Op>)
    ensures var t := Run(Fresh(budget, jsonSize), ops).state;
      Balanced(t) && t.counters.hits + t.counters.misses == GetsSince(ops)
  {
    hide Perform; hide Inv; hide Balanced;
    if ops == [] {
      StartBalanced(budget, jsonSize);
    } else {
      CountersBalance(budget, jsonSize, ops[..|ops| - 1]);
      RunKeeps(budget, jsonSize, ops[..|ops| - 1]);
      var t := Run(Fresh(budget, jsonSize), ops[..|ops| - 1]).state;
      PerformBalanced(t, ops[|ops| - 1]);
      RestartCounts(t);
    }
  }

  lemma StartBalanced(budget: nat, jsonSize: Manifest -> nat)
    ensures Balanced(Fresh(budget, jsonSize))
  {
  }

  lemma RestartCounts(t: Tier)
    ensures Perform(t, RestartOp).0.counters.hits + Perform(t, RestartOp).0.counters.misses == 0
  {
  }
}
