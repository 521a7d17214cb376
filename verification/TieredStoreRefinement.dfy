/** The tiered store answers as its authority alone would, within its byte budget. */
module TieredStoreRefinement {
  import opened Outcomes
  import opened TieredStore

  // ----- written out and read back -----

  lemma CanonicalExactly(m: Manifest)
    ensures Canonical(m) <==> RoundTrip(m) == Some(m)
  {
    assert Upper("ALL") == "ALL";
  }

  /** What has been read back reads back the same ever after. */
  lemma DecodedCanonical(m: Manifest)
    requires RoundTrip(m).Some?
    ensures Canonical(RoundTrip(m).value)
  {
    assert Upper("ALL") == "ALL";
  }

  // ----- the invariant -----

  ghost predicate NoDuplicates(lru: seq<string>) {
    forall i, j :: 0 <= i < j < |lru| ==> lru[i] != lru[j]
  }

  function Charges(cache: map<string, Entry>, lru: seq<string>): nat
    requires forall n :: n in lru ==> n in cache
  {
    if lru == [] then 0 else cache[lru[0]].charge + Charges(cache, lru[1..])
  }

  /** A cached object is the stored one, up to what writing out and reading back fills in. */
  ghost predicate Agrees(t: Tier, name: string)
    requires name in t.cache
  {
    var o := t.cache[name].stored;
    && name in t.rows && o.manifest.name == name && o.payload == t.rows[name].payload
    && Encode(o.manifest).Some? && RoundTrip(o.manifest) == Decode(t.rows[name].manifest)
    && t.cache[name].charge == Charge(t, o)
  }

  ghost predicate Listed(t: Tier) {
    NoDuplicates(t.lru) && forall n :: n in t.lru <==> n in t.cache
  }

  ghost predicate Bounded(t: Tier) {
    Listed(t) && t.used == Charges(t.cache, t.lru) && t.used <= t.budget
  }

  ghost predicate Coherent(t: Tier) {
    && (forall n :: n in t.cache ==> Agrees(t, n))
    && (forall n :: n in t.rows ==> t.rows[n].manifest.acks != 0 && t.rows[n].manifest.name == n)
    && (t.budget == 0 ==> t.cache == map[])
  }

  ghost predicate Inv(t: Tier) {
    Bounded(t) && Coherent(t)
  }

  // ----- the list and the byte count -----

  lemma {:induction false} WithoutRemoves(lru: seq<string>, name: string)
    requires NoDuplicates(lru)
    ensures NoDuplicates(Without(lru, name))
    ensures forall n :: n in Without(lru, name) <==> n in lru && n != name
  {
    if lru != [] && lru[0] != name {
      WithoutRemoves(lru[1..], name);
      assert forall n :: n in lru <==> n == lru[0] || n in lru[1..];
      assert lru[0] !in lru[1..];
      var rest := Without(lru[1..], name);
      assert lru[0] !in rest;
      assert forall i, j :: 0 <= i < j < |rest| ==> rest[i] != rest[j];
    }
  }

  lemma {:induction false} ChargesFrame(cache: map<string, Entry>, other: map<string, Entry>, lru: seq<string>)
    requires forall n :: n in lru ==> n in cache && n in other && cache[n].charge == other[n].charge
    ensures Charges(cache, lru) == Charges(other, lru)
  {
    if lru != [] {
      ChargesFrame(cache, other, lru[1..]);
    }
  }

  lemma {:induction false} ChargesAppend(cache: map<string, Entry>, lru: seq<string>, name: string)
    requires name in cache && forall n :: n in lru ==> n in cache
    ensures Charges(cache, lru + [name]) == Charges(cache, lru) + cache[name].charge
  {
    if lru == [] {
      assert [name][1..] == [];
      assert Charges(cache, [name]) == cache[name].charge + Charges(cache, [name][1..]);
      assert lru + [name] == [name];
    } else {
      ChargesAppend(cache, lru[1..], name);
      assert (lru + [name])[1..] == lru[1..] + [name];
    }
  }

  lemma {:induction false} ChargesWithout(cache: map<string, Entry>, lru: seq<string>, name: string)
    requires NoDuplicates(lru) && name in lru && forall n :: n in lru ==> n in cache
    ensures forall n :: n in Without(lru, name) ==> n in cache
    ensures Charges(cache, lru) == Charges(cache, Without(lru, name)) + cache[name].charge
  {
    WithoutRemoves(lru, name);
    if lru[0] != name {
      ChargesWithout(cache, lru[1..], name);
      var rest := Without(lru, name);
      assert rest[0] == lru[0] && rest[1..] == Without(lru[1..], name);
    }
  }

  lemma WithoutListed(t: Tier, name: string)
    requires Listed(t) && name in t.cache
    ensures NoDuplicates(Without(t.lru, name))
    ensures forall n :: n in Without(t.lru, name) <==> n in t.cache - {name}
    ensures Charges(t.cache, t.lru) == Charges(t.cache - {name}, Without(t.lru, name)) + t.cache[name].charge
  {
    ChargesWithout(t.cache, t.lru, name);
    WithoutRemoves(t.lru, name);
    hide Without; hide NoDuplicates;
    ChargesFrame(t.cache, t.cache - {name}, Without(t.lru, name));
  }

  lemma InvalidateBounded(t: Tier, name: string)
    requires Bounded(t)
    ensures Bounded(Invalidate(t, name))
    ensures Invalidate(t, name).cache == t.cache - {name}
    ensures Invalidate(t, name).used <= t.used
  {
    if name in t.cache {
      WithoutListed(t, name);
      hide Without; hide Charges; hide NoDuplicates;
    } else {
      assert t.cache - {name} == t.cache;
    }
  }

  /** The tier once its least recently used entry is dropped. */
  function DropOldest(t: Tier): Tier
    requires t.lru != [] && t.lru[0] in t.cache && t.cache[t.lru[0]].charge <= t.used
  {
    t.(used := t.used - t.cache[t.lru[0]].charge, cache := t.cache - {t.lru[0]}, lru := t.lru[1..],
       counters := t.counters.(evictions := t.counters.evictions + 1))
  }

  lemma EvictStep(t: Tier, limit: int)
    requires Bounded(t) && t.lru != [] && t.used > limit
    ensures t.lru[0] in t.cache && t.cache[t.lru[0]].charge <= t.used
    ensures Bounded(DropOldest(t)) && EvictTo(t, limit) == EvictTo(DropOldest(t), limit)
  {
    assert t.lru[0] in t.lru;
    OldestBounded(t);
    hide Bounded;
  }

  lemma OldestBounded(t: Tier)
    requires Bounded(t) && t.lru != []
    ensures t.lru[0] in t.cache && t.cache[t.lru[0]].charge <= t.used && Bounded(DropOldest(t))
  {
    assert t.lru[0] in t.lru;
    ChargesFrame(t.cache, t.cache - {t.lru[0]}, t.lru[1..]);
    assert forall n :: n in t.lru <==> n == t.lru[0] || n in t.lru[1..];
  }

  lemma {:induction false} EvictBounded(t: Tier, limit: int)
    requires Bounded(t)
    ensures var e := EvictTo(t, limit);
      && Bounded(e) && e.used <= t.used && (e.used <= limit || e.lru == [])
      && e.rows == t.rows && e.budget == t.budget && e.jsonSize == t.jsonSize
      && (forall n :: n in e.cache ==> n in t.cache && e.cache[n] == t.cache[n])
    decreases |t.lru|
  {
    if t.lru != [] && t.used > limit {
      EvictStep(t, limit);
      hide Bounded;
      EvictBounded(DropOldest(t), limit);
      hide EvictTo;
    }
  }

  /** From t to e only least recently used names were dropped, and without the last of them the
      limit would have been passed. */
  ghost predicate OldestDropped(t: Tier, e: Tier, limit: int) {
    && |e.lru| <= |t.lru| && e.lru == t.lru[|t.lru| - |e.lru|..]
    && (e.lru != t.lru ==>
          var last := t.lru[|t.lru| - |e.lru| - 1];
          last in t.cache && e.used + t.cache[last].charge > limit)
  }

  lemma OldestDroppedNext(t: Tier, e: Tier, limit: int)
    requires t.lru != [] && t.lru[0] in t.cache && t.cache[t.lru[0]].charge <= t.used && t.used > limit
    requires OldestDropped(DropOldest(t), e, limit) && (e.lru == t.lru[1..] ==> e == DropOldest(t))
    ensures OldestDropped(t, e, limit)
  {
    var next := DropOldest(t);
    assert e.lru == t.lru[|t.lru| - |e.lru|..];
    if e.lru != next.lru {
      assert next.lru[|next.lru| - |e.lru| - 1] == t.lru[|t.lru| - |e.lru| - 1];
    }
  }

  /** Eviction drops the least recently used names and not one more than it must. */
  lemma {:induction false} EvictsOldestOnly(t: Tier, limit: int)
    requires Bounded(t)
    ensures OldestDropped(t, EvictTo(t, limit), limit)
    decreases |t.lru|
  {
    if t.lru != [] && t.used > limit {
      hide Bounded; hide EvictTo; hide OldestDropped;
      EvictStep(t, limit);
      var next := DropOldest(t);
      EvictsOldestOnly(next, limit);
      if EvictTo(next, limit).lru == next.lru {
        EvictStops(next, limit);
      }
      OldestDroppedNext(t, EvictTo(next, limit), limit);
    } else {
      hide Bounded;
      assert t.lru[0..] == t.lru;
    }
  }

  /** Nothing is dropped exactly when it already fits, or nothing is there. */
  lemma {:induction false} EvictStops(t: Tier, limit: int)
    requires EvictTo(t, limit).lru == t.lru
    ensures EvictTo(t, limit) == t
  {
    if t.lru != [] && t.used > limit {
      var name := t.lru[0];
      var freed := if name in t.cache && t.cache[name].charge <= t.used then t.cache[name].charge else 0;
      EvictShrinks(t.(used := t.used - freed, cache := t.cache - {name}, lru := t.lru[1..],
                      counters := t.counters.(evictions := t.counters.evictions + 1)), limit);
    }
  }

  lemma {:induction false} EvictShrinks(t: Tier, limit: int)
    ensures |EvictTo(t, limit).lru| <= |t.lru|
    decreases |t.lru|
  {
    if t.lru != [] && t.used > limit {
      var name := t.lru[0];
      var freed := if name in t.cache && t.cache[name].charge <= t.used then t.cache[name].charge else 0;
      EvictShrinks(t.(used := t.used - freed, cache := t.cache - {name}, lru := t.lru[1..],
                      counters := t.counters.(evictions := t.counters.evictions + 1)), limit);
    }
  }

  lemma InsertBounded(t: Tier, o: Object)
    requires Bounded(t) && o.manifest.name !in t.cache && t.used + Charge(t, o) <= t.budget
    ensures Bounded(Insert(t, o))
  {
    var name := o.manifest.name;
    var next := Insert(t, o);
    assert name !in t.lru;
    ChargesFrame(t.cache, next.cache, t.lru);
    ChargesAppend(next.cache, t.lru, name);
    hide Charges; hide Charge;
  }

  // ----- admission -----

  /** Admitting an object keeps the cache bounded and changes no other row's entry, save by dropping it. */
  lemma AdmitFacts(t: Tier, o: Object)
    requires Bounded(t) && (t.budget == 0 ==> t.cache == map[])
    ensures var a := Admit(t, o);
      && Bounded(a) && a.rows == t.rows && a.budget == t.budget && a.jsonSize == t.jsonSize
      && (forall n :: n in a.cache && n != o.manifest.name ==> n in t.cache && a.cache[n] == t.cache[n])
      && (o.manifest.name in a.cache ==>
            a.cache[o.manifest.name] == Entry(o, Charge(t, o))
            || (o.manifest.name in t.cache && a.cache[o.manifest.name] == t.cache[o.manifest.name]))
      && (t.budget == 0 ==> a.cache == map[])
      && (Encode(o.manifest).None? ==> a == t)
  {
    hide EvictTo; hide Invalidate; hide Encode; hide Bounded; hide Charge;
    if t.budget != 0 && Encode(o.manifest).Some? && Charge(t, o) <= t.budget {
      var i := Invalidate(t, o.manifest.name);
      InvalidateBounded(t, o.manifest.name);
      InvalidateKeeps(t, o.manifest.name);
      EvictBounded(i, t.budget - Charge(t, o));
      var e := EvictTo(i, t.budget - Charge(t, o));
      EmptyUses(e);
      ChargeSame(t, e, o);
      InsertBounded(e, o);
    } else {
      BoundedSame(t, Admit(t, o));
    }
  }

  lemma BoundedSame(t: Tier, a: Tier)
    requires Bounded(t) && a.cache == t.cache && a.lru == t.lru && a.used == t.used && a.budget == t.budget
    ensures Bounded(a)
  {
  }

  lemma EmptyUses(t: Tier)
    requires Bounded(t)
    ensures t.lru == [] ==> t.used == 0
  {
  }

  lemma ChargeSame(t: Tier, u: Tier, o: Object)
    requires t.jsonSize == u.jsonSize
    ensures Charge(t, o) == Charge(u, o)
  {
  }

  lemma InvalidateKeeps(t: Tier, name: string)
    ensures var i := Invalidate(t, name); i.rows == t.rows && i.budget == t.budget && i.jsonSize == t.jsonSize
  {
    hide Without;
  }

  /** The object is what the authority holds under its name. */
  ghost predicate Holds(t: Tier, o: Object) {
    var name := o.manifest.name;
    name in t.rows && o.payload == t.rows[name].payload && RoundTrip(o.manifest) == Decode(t.rows[name].manifest)
  }

  /** Coherent but for the entry of one name. */
  ghost predicate CoherentBut(t: Tier, name: string) {
    && (forall n :: n in t.cache && n != name ==> Agrees(t, n))
    && (forall n :: n in t.rows ==> t.rows[n].manifest.acks != 0 && t.rows[n].manifest.name == n)
    && (t.budget == 0 ==> t.cache == map[])
  }

  lemma AdmitCoherent(t: Tier, o: Object)
    requires Bounded(t) && CoherentBut(t, o.manifest.name) && Holds(t, o)
    requires o.manifest.name in t.cache ==> Agrees(t, o.manifest.name)
    ensures Inv(Admit(t, o))
  {
    hide Bounded; hide Admit; hide Encode; hide RoundTrip; hide Decode;
    AdmitFacts(t, o);
    var a := Admit(t, o);
    forall n | n in a.cache ensures Agrees(a, n) {
      if n != o.manifest.name {
        assert Agrees(t, n);
      }
      ChargeSame(t, a, a.cache[n].stored);
    }
    hide Charge;
  }

  // ----- operations -----

  lemma InvalidateCoherentBut(t: Tier, rows: Rows, name: string)
    requires Inv(t) && (forall n :: n != name ==> (n in rows <==> n in t.rows) && (n in rows ==> rows[n] == t.rows[n]))
    requires name in rows ==> rows[name].manifest.acks != 0 && rows[name].manifest.name == name
    ensures var i := Invalidate(t.(rows := rows, counters := t.counters.(backingWrites := t.counters.backingWrites + 1)), name);
      Bounded(i) && CoherentBut(i, name) && name !in i.cache && i.rows == rows
  {
    hide Invalidate; hide Bounded; hide Encode; hide RoundTrip; hide Decode;
    var u := t.(rows := rows, counters := t.counters.(backingWrites := t.counters.backingWrites + 1));
    BoundedSame(t, u);
    InvalidateBounded(u, name);
    InvalidateKeeps(u, name);
    var i := Invalidate(u, name);
    forall n | n in i.cache && n != name ensures Agrees(i, n) {
      assert Agrees(t, n);
      ChargeSame(t, i, i.cache[n].stored);
    }
    hide Charge;
    assert t.budget == 0 ==> i.cache == map[];
  }

  lemma WriteRow(rows: Rows, m: Manifest, payload: Bytes, fails: bool)
    requires Write(rows, m, payload, fails).Ok?
    ensures var next := Write(rows, m, payload, fails).value;
      && m.name in next && next == rows[m.name := next[m.name]] && next[m.name].payload == payload
      && next[m.name].manifest.acks != 0 && next[m.name].manifest.name == m.name
      && RoundTrip(m) == Decode(next[m.name].manifest)
  {
    hide Decode; hide ParseConsistency;
  }

  lemma PutKeeps(t: Tier, m: Manifest, payload: Bytes, fails: bool)
    requires Inv(t)
    ensures Inv(Put(t, m, payload, fails).0)
  {
    hide Inv; hide Write; hide Admit; hide Invalidate;
    if Write(t.rows, m, payload, fails).Ok? {
      var rows := Write(t.rows, m, payload, fails).value;
      WriteRow(t.rows, m, payload, fails);
      InvalidateCoherentBut(t, rows, m.name);
      hide RoundTrip; hide Decode; hide CoherentBut; hide Bounded;
      AdmitCoherent(Invalidate(t.(rows := rows, counters := t.counters.(backingWrites := t.counters.backingWrites + 1)), m.name), Object(m, payload));
    }
  }

  lemma TouchBounded(t: Tier, name: string)
    requires Bounded(t) && name in t.cache
    ensures Bounded(Touch(t, name))
  {
    WithoutRemoves(t.lru, name);
    ChargesWithout(t.cache, t.lru, name);
    ChargesAppend(t.cache, Without(t.lru, name), name);
    hide Without;
    assert NoDuplicates(Without(t.lru, name) + [name]);
    hide NoDuplicates;
  }

  lemma TouchKeeps(t: Tier, name: string)
    requires Inv(t) && name in t.cache
    ensures Inv(Touch(t, name))
  {
    TouchBounded(t, name);
    hide Bounded; hide Charge; hide Encode; hide RoundTrip; hide Decode; hide Without;
    var next := Touch(t, name);
    forall n | n in next.cache ensures Agrees(next, n) {
      assert Agrees(t, n);
      ChargeSame(t, next, next.cache[n].stored);
    }
    hide Agrees;
  }

  lemma ReadHolds(t: Tier, name: string)
    requires Inv(t) && Read(t.rows, name).Ok?
    ensures Read(t.rows, name).value.manifest.name == name && Holds(t, Read(t.rows, name).value)
  {
    hide ParseConsistency; hide Bounded;
    var j := t.rows[name].manifest;
    assert Upper("ALL") == "ALL";
  }

  lemma GetKeeps(t: Tier, name: string)
    requires Inv(t)
    ensures Inv(Get(t, name).0)
  {
    hide Admit; hide Touch; hide Read; hide Holds;
    if name in t.cache {
      hide Inv;
      TouchKeeps(t, name);
    } else {
      var missed := t.(counters := t.counters.(misses := t.counters.misses + 1, backingReads := t.counters.backingReads + 1));
      SameButCounters(t, missed);
      if Read(t.rows, name).Ok? {
        ReadHolds(missed, name);
        hide Bounded; hide Agrees;
        AdmitCoherent(missed, Read(t.rows, name).value);
      }
    }
  }

  lemma SameButCounters(t: Tier, u: Tier)
    requires Inv(t) && u == t.(counters := u.counters)
    ensures Inv(u)
  {
    hide Encode; hide RoundTrip; hide Decode;
    forall n | n in u.cache ensures Agrees(u, n) {
      assert Agrees(t, n);
      ChargeSame(t, u, u.cache[n].stored);
    }
    hide Charge;
  }

  lemma EraseKeeps(t: Tier, name: string, fails: bool)
    requires Inv(t)
    ensures Inv(Erase(t, name, fails).0)
  {
    hide Invalidate; hide Inv;
    if !fails && name in t.rows {
      InvalidateCoherentBut(t, t.rows - {name}, name);
      ButIsWhole(Erase(t, name, fails).0, name);
    }
  }

  lemma ButIsWhole(t: Tier, name: string)
    requires Bounded(t) && CoherentBut(t, name) && name !in t.cache
    ensures Inv(t)
  {
  }

  lemma PerformKeeps(t: Tier, op: Op)
    requires Inv(t)
    ensures Inv(Perform(t, op).0)
  {
    hide Put; hide Get; hide Erase;
    match op {
      case PutOp(m, payload, fails) => hide Inv; PutKeeps(t, m, payload, fails);
      case PutManifestOp(m, fails) => hide Inv; PutKeeps(t, m, [], fails);
      case GetOp(name) => hide Inv; GetKeeps(t, name);
      case EraseOp(name, fails) => hide Inv; EraseKeeps(t, name, fails);
      case HasOp(name) =>
      case RestartOp =>
    }
  }

  lemma {:induction false} RunKeeps(budget: nat, jsonSize: Manifest -> nat, ops: seq<Op>)
    ensures Inv(Run(Fresh(budget, jsonSize), ops).state)
  {
    if ops != [] {
      hide Perform; hide Inv;
      RunKeeps(budget, jsonSize, ops[..|ops| - 1]);
      PerformKeeps(Run(Fresh(budget, jsonSize), ops[..|ops| - 1]).state, ops[|ops| - 1]);
    }
  }

  // ----- the tiered store and its authority -----

  /** A get is answered as the authority would answer it exactly when it misses the cache or the
      cached manifest is one that reads back unchanged. */
  lemma GetAnswersExactly(t: Tier, name: string)
    requires Inv(t)
    ensures Get(t, name).1 == PerformPlain(t.rows, GetOp(name)).1 <==>
            (name in t.cache ==> Canonical(t.cache[name].stored.manifest))
  {
    hide Admit; hide Touch; hide Charge; hide Bounded; hide ParseConsistency;
    if name in t.cache {
      assert Agrees(t, name);
      CanonicalExactly(t.cache[name].stored.manifest);
      hide Encode; hide Decode; hide Canonical;
    }
  }

  ghost predicate CanonicalOps(ops: seq<Op>) {
    forall op :: op in ops ==> (op.PutOp? || op.PutManifestOp? ==> Canonical(op.manifest))
  }

  ghost predicate CanonicalCache(t: Tier) {
    forall n :: n in t.cache ==> Canonical(t.cache[n].stored.manifest)
  }

  lemma PerformCanonical(t: Tier, op: Op)
    requires Inv(t) && CanonicalCache(t) && (op.PutOp? || op.PutManifestOp? ==> Canonical(op.manifest))
    ensures CanonicalCache(Perform(t, op).0)
  {
    hide Admit; hide Canonical; hide Charge; hide Encode; hide Decode; hide Without; hide Invalidate; hide Read;
    match op {
      case PutOp(m, payload, fails) => PutCanonical(t, m, payload, fails);
      case PutManifestOp(m, fails) => PutCanonical(t, m, [], fails);
      case GetOp(name) =>
        if name !in t.cache && Read(t.rows, name).Ok? {
          var missed := t.(counters := t.counters.(misses := t.counters.misses + 1, backingReads := t.counters.backingReads + 1));
          SameButCounters(t, missed);
          AdmitFacts(missed, Read(t.rows, name).value);
          ReadCanonical(t, name);
        }
      case EraseOp(name, fails) =>
        if !fails && name in t.rows {
          InvalidateCoherentBut(t, t.rows - {name}, name);
          InvalidateBounded(t.(rows := t.rows - {name}, counters := t.counters.(backingWrites := t.counters.backingWrites + 1)), name);
        }
      case HasOp(name) =>
      case RestartOp =>
    }
  }

  lemma ReadCanonical(t: Tier, name: string)
    requires Inv(t) && Read(t.rows, name).Ok?
    ensures Canonical(Read(t.rows, name).value.manifest)
  {
    hide ParseConsistency; hide Bounded;
    assert Upper("ALL") == "ALL";
  }

  lemma PutCanonical(t: Tier, m: Manifest, payload: Bytes, fails: bool)
    requires Inv(t) && CanonicalCache(t) && Canonical(m)
    ensures CanonicalCache(Put(t, m, payload, fails).0)
  {
    hide Admit; hide Canonical; hide Charge; hide Write; hide Invalidate; hide Inv;
    if Write(t.rows, m, payload, fails).Ok? {
      var rows := Write(t.rows, m, payload, fails).value;
      WriteRow(t.rows, m, payload, fails);
      InvalidateCoherentBut(t, rows, m.name);
      var u := t.(rows := rows, counters := t.counters.(backingWrites := t.counters.backingWrites + 1));
      BoundedOf(t, u);
      InvalidateBounded(u, m.name);
      AdmitFacts(Invalidate(u, m.name), Object(m, payload));
    }
  }

  lemma BoundedOf(t: Tier, u: Tier)
    requires Inv(t) && u == t.(rows := u.rows, counters := u.counters)
    ensures Bounded(u)
  {
    hide Coherent;
  }

  lemma SameRowsAndReply(t: Tier, op: Op)
    requires Inv(t) && CanonicalCache(t)
    ensures Perform(t, op).0.rows == PerformPlain(t.rows, op).0
    ensures Perform(t, op).1 == PerformPlain(t.rows, op).1
    ensures Perform(t, op).0.budget == t.budget
  {
    hide Admit; hide Write; hide Read; hide Invalidate; hide Touch;
    match op {
      case PutOp(m, payload, fails) => PutRows(t, m, payload, fails);
      case PutManifestOp(m, fails) => PutRows(t, m, [], fails);
      case GetOp(name) =>
        hide Inv;
        GetAnswersExactly(t, name);
        hide CanonicalCache;
        GetRows(t, name);
      case EraseOp(name, fails) =>
        InvalidateKeeps(t.(rows := t.rows - {name}, counters := t.counters.(backingWrites := t.counters.backingWrites + 1)), name);
        if name !in t.rows { assert t.rows - {name} == t.rows; }
      case HasOp(name) =>
      case RestartOp =>
    }
  }

  lemma GetRows(t: Tier, name: string)
    requires Inv(t)
    ensures Get(t, name).0.rows == t.rows && Get(t, name).0.budget == t.budget
  {
    hide Admit; hide Read; hide Inv;
    var missed := t.(counters := t.counters.(misses := t.counters.misses + 1, backingReads := t.counters.backingReads + 1));
    SameButCounters(t, missed);
    if name !in t.cache && Read(t.rows, name).Ok? {
      InvGives(missed);
      AdmitFacts(missed, Read(t.rows, name).value);
    }
  }

  lemma InvGives(t: Tier)
    requires Inv(t)
    ensures Bounded(t) && (t.budget == 0 ==> t.cache == map[])
  {
  }

  lemma PutRows(t: Tier, m: Manifest, payload: Bytes, fails: bool)
    requires Inv(t)
    ensures Put(t, m, payload, fails).0.rows == (match Write(t.rows, m, payload, fails) case Ok(rows) => rows case Err(_) => t.rows)
    ensures Put(t, m, payload, fails).0.budget == t.budget
    ensures Put(t, m, payload, fails).1 == (match Write(t.rows, m, payload, fails) case Ok(_) => Done case Err(e) => Failed(e))
  {
    hide Admit; hide Write; hide Invalidate; hide Inv;
    if Write(t.rows, m, payload, fails).Ok? {
      var rows := Write(t.rows, m, payload, fails).value;
      WriteRow(t.rows, m, payload, fails);
      InvalidateCoherentBut(t, rows, m.name);
      var u := t.(rows := rows, counters := t.counters.(backingWrites := t.counters.backingWrites + 1));
      InvalidateKeeps(u, m.name);
      hide CoherentBut; hide Bounded;
      ButGives(Invalidate(u, m.name), m.name);
      AdmitFacts(Invalidate(u, m.name), Object(m, payload));
    }
  }

  lemma ButGives(t: Tier, name: string)
    requires CoherentBut(t, name)
    ensures t.budget == 0 ==> t.cache == map[]
  {
  }

  /** For every sequence of operations, restarts and failed transactions included, on manifests
      that read back unchanged, the tiered store gives the replies the authority alone would, and
      ends with the same rows. */
  lemma {:induction false} RefinesAuthority(budget: nat, jsonSize: Manifest -> nat, ops: seq<Op>)
    requires CanonicalOps(ops)
    ensures var h := Run(Fresh(budget, jsonSize), ops);
      h.replies == RunPlain(map[], ops).replies && h.state.rows == RunPlain(map[], ops).state && CanonicalCache(h.state)
  {
    if ops != [] {
      var front := ops[..|ops| - 1];
      var last := ops[|ops| - 1];
      assert forall op :: op in front ==> op in ops;
      assert last in ops;
      hide Canonical; hide CanonicalCache;
      RefinesAuthority(budget, jsonSize, front);
      RunKeeps(budget, jsonSize, front);
      hide Perform; hide PerformPlain; hide Inv;
      var t := Run(Fresh(budget, jsonSize), front).state;
      SameRowsAndReply(t, last);
      PerformCanonical(t, last);
    } else {
      hide Canonical;
    }
  }

  /** Hence no budget, and in particular a budget of zero, can be told from another by its replies. */
  lemma BudgetUnobservable(budget: nat, other: nat, jsonSize: Manifest -> nat, ops: seq<Op>)
    requires CanonicalOps(ops)
    ensures Run(Fresh(budget, jsonSize), ops).replies == Run(Fresh(other, jsonSize), ops).replies
  {
    hide Run; hide RunPlain; hide CanonicalOps; hide CanonicalCache;
    RefinesAuthority(budget, jsonSize, ops);
    RefinesAuthority(other, jsonSize, ops);
  }

  /** In every run the bytes used are the sum of the cached charges and stay within the budget,
      and every cached object agrees with its row. */
  lemma CacheBounded(budget: nat, jsonSize: Manifest -> nat, ops: seq<Op>)
    ensures var t := Run(Fresh(budget, jsonSize), ops).state;
      Listed(t) && t.used == Charges(t.cache, t.lru) <= t.budget && forall n :: n in t.cache ==> Agrees(t, n)
  {
    RunKeeps(budget, jsonSize, ops);
    hide Run; hide Agrees;
  }

  // ----- why the manifests must read back unchanged -----

  /** With an unsupported consistency but acknowledgements given, a write succeeds and is served
      from the cache, while the authority cannot read it back. */
  lemma CacheHidesUnreadableRow(jsonSize: Manifest -> nat, payload: Bytes)
    requires forall m :: jsonSize(m) + |payload| + 1 <= 1000
    ensures var m := Manifest("o", 1, "some", 1, [], [], "COMMITTED", "");
      var ops := [PutOp(m, payload, false)] + [GetOp("o")];
      Run(Fresh(1000, jsonSize), ops).replies == [Done, Found(Object(m, payload))]
      && RunPlain(map[], ops).replies == [Done, Failed(Unreadable)]
  {
    var m := Manifest("o", 1, "some", 1, [], [], "COMMITTED", "");
    var put, get := PutOp(m, payload, false), GetOp("o");
    var ops := [put] + [get];
    var t := Fresh(1000, jsonSize);
    assert ops[..1] == [put] && [put][..0] == [];
    assert Upper("some") == "SOME";
    assert "SOME" != "ONE" && "SOME" != "QUORUM" && "SOME" != "ALL";
    assert "SOME"[0] != "QUORUM"[0];
    assert ParseConsistency("some") == None;
    var rows: Rows := map["o" := Object(m, payload)];
    assert Write(map[], m, payload, false) == Ok(rows);
    var first := Put(t, m, payload, false).0;
    assert jsonSize(m) + |payload| + 1 <= 1000;
    assert first.cache == map["o" := Entry(Object(m, payload), Charge(t, Object(m, payload)))];
    assert Run(t, [put]) == History(first, [Done]);
    assert RunPlain(map[], [put]) == History(rows, [Done]);
    assert Read(rows, "o") == Err(Unreadable);
  }
}
