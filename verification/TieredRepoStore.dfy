/** The tiered store as an object updated in place, and reads that overlap with writes. */
module TieredRepoStore {
  import opened Outcomes
  import S = TieredStore
  import F = TieredStoreRefinement

  class TieredRepoStore {
    const budget: nat
    const jsonSize: S.Manifest -> nat
    var rows: S.Rows
    var cache: map<string, S.Entry>
    var lru: seq<string>
    var used: nat
    var counters: S.Counters

    function State(): S.Tier
      reads this
    {
      S.Tier(budget, jsonSize, rows, cache, lru, used, counters)
    }

    constructor (budget: nat, jsonSize: S.Manifest -> nat)
      ensures State() == S.Fresh(budget, jsonSize) && F.Inv(State())
    {
      this.budget, this.jsonSize := budget, jsonSize;
      rows, cache, lru, used, counters := map[], map[], [], 0, S.NO_COUNTS;
    }

    method Invalidate(name: string)
      requires F.Bounded(State())
      modifies this
      ensures State() == S.Invalidate(old(State()), name)
      ensures F.Bounded(State())
    {
      F.InvalidateBounded(State(), name);
      if name in cache {
        UsedCovers(State(), name);
        used := used - cache[name].charge;
        lru := S.Without(lru, name);
        cache := cache - {name};
        counters := counters.(invalidations := counters.invalidations + 1);
      }
    }

    method Admit(o: S.Object)
      requires F.Bounded(State()) && (budget == 0 ==> cache == map[])
      modifies this
      ensures State() == S.Admit(old(State()), o)
      ensures F.Bounded(State())
    {
      ghost var start := State();
      hide F.Bounded; hide S.Encode; hide S.Charge; hide S.Invalidate; hide S.EvictTo;
      F.AdmitFacts(start, o);
      if budget == 0 || S.Encode(o.manifest).None? { return; }
      var charge := S.Charge(State(), o);
      if charge > budget {
        counters := counters.(oversized := counters.oversized + 1);
        return;
      }
      Invalidate(o.manifest.name);
      F.InvalidateKeeps(start, o.manifest.name);
      ghost var evicted := S.EvictTo(State(), budget - charge);
      while lru != [] && used > budget - charge
        invariant F.Bounded(State()) && S.EvictTo(State(), budget - charge) == evicted && rows == start.rows
        decreases |lru|
      {
        F.EvictStep(State(), budget - charge);
        var victim := lru[0];
        used := used - cache[victim].charge;
        cache := cache - {victim};
        lru := lru[1..];
        counters := counters.(evictions := counters.evictions + 1);
      }
      Evicted(State(), budget - charge);
      F.ChargeSame(start, State(), o);
      cache := cache[o.manifest.name := S.Entry(o, charge)];
      lru := lru + [o.manifest.name];
      used := used + charge;
      counters := counters.(admissions := counters.admissions + 1);
    }

    /** The authority's write comes first; only then is the cache touched. */
    method Put(m: S.Manifest, payload: S.Bytes, fails: bool) returns (reply: S.Reply)
      requires F.Inv(State())
      modifies this
      ensures (State(), reply) == S.Put(old(State()), m, payload, fails)
      ensures F.Inv(State())
    {
      hide F.Inv; hide S.Write; hide S.Admit; hide S.Invalidate; hide F.Bounded; hide F.CoherentBut;
      F.PutKeeps(State(), m, payload, fails);
      match S.Write(rows, m, payload, fails)
      case Err(e) => return S.Failed(e);
      case Ok(next) =>
        F.WriteRow(rows, m, payload, fails);
        F.InvalidateCoherentBut(State(), next, m.name);
        F.BoundedOf(State(), State().(rows := next, counters := counters.(backingWrites := counters.backingWrites + 1)));
        rows := next;
        counters := counters.(backingWrites := counters.backingWrites + 1);
        Invalidate(m.name);
        F.ButGives(State(), m.name);
        Admit(S.Object(m, payload));
        return S.Done;
    }

    method Get(name: string) returns (reply: S.Reply)
      requires F.Inv(State())
      modifies this
      ensures (State(), reply) == S.Get(old(State()), name)
      ensures F.Inv(State())
    {
      hide F.Inv; hide S.Read; hide S.Admit; hide F.Bounded;
      F.GetKeeps(State(), name);
      if name in cache {
        lru := S.Without(lru, name) + [name];
        counters := counters.(hits := counters.hits + 1);
        return S.Found(cache[name].stored);
      }
      F.SameButCounters(State(), State().(counters := counters.(misses := counters.misses + 1, backingReads := counters.backingReads + 1)));
      counters := counters.(misses := counters.misses + 1, backingReads := counters.backingReads + 1);
      F.InvGives(State());
      match S.Read(rows, name)
      case Err(e) => return S.Failed(e);
      case Ok(o) =>
        Admit(o);
        return S.Found(o);
    }

    method Erase(name: string, fails: bool) returns (reply: S.Reply)
      requires F.Inv(State())
      modifies this
      ensures (State(), reply) == S.Erase(old(State()), name, fails)
      ensures F.Inv(State())
    {
      hide F.Inv; hide S.Invalidate; hide F.Bounded;
      F.EraseKeeps(State(), name, fails);
      if fails { return S.Failed(S.TransactionFailed); }
      if name !in rows { return S.Flag(false); }
      F.BoundedOf(State(), State().(rows := rows - {name}, counters := counters.(backingWrites := counters.backingWrites + 1)));
      rows := rows - {name};
      counters := counters.(backingWrites := counters.backingWrites + 1);
      Invalidate(name);
      reply := S.Flag(true);
    }
  }

  lemma UsedCovers(t: S.Tier, name: string)
    requires F.Bounded(t) && name in t.cache
    ensures t.used >= t.cache[name].charge
  {
    F.ChargesWithout(t.cache, t.lru, name);
  }

  lemma Evicted(t: S.Tier, limit: int)
    requires t.lru == [] || t.used <= limit
    ensures S.EvictTo(t, limit) == t
  {
  }

  // ----- reads that overlap with writes -----

  /** A read that missed the cache, holding what it read from the authority until it admits it.
      `version` counts the writes to the name so far. */
  datatype Pending = Pending(found: S.Object, version: nat)

  datatype Overlap = Overlap(tier: S.Tier, pending: seq<Pending>, versions: map<string, nat>)

  datatype Move =
    | WriteMove(manifest: S.Manifest, payload: S.Bytes)
    | EraseMove(name: string)
    | ReadMove(name: string)
    | AdmitMove(index: nat)

  function Version(o: Overlap, name: string): nat {
    if name in o.versions then o.versions[name] else 0
  }

  /** Writes and erases happen at once; a read is two moves, its miss and its admission. */
  function Make(o: Overlap, move: Move): Overlap {
    match move
    case WriteMove(m, payload) =>
      var (tier, reply) := S.Put(o.tier, m, payload, false);
      if reply.Done? then o.(tier := tier, versions := o.versions[m.name := Version(o, m.name) + 1]) else o
    case EraseMove(name) =>
      var (tier, reply) := S.Erase(o.tier, name, false);
      o.(tier := tier, versions := if reply == S.Flag(true) then o.versions[name := Version(o, name) + 1] else o.versions)
    case ReadMove(name) =>
      if name in o.tier.cache || S.Read(o.tier.rows, name).Err? then o
      else o.(pending := o.pending + [Pending(S.Read(o.tier.rows, name).value, Version(o, name))])
    case AdmitMove(index) =>
      if index >= |o.pending| then o
      else o.(tier := S.Admit(o.tier, o.pending[index].found))
  }

  /** A pending read of the row as it still is. */
  ghost predicate Current(o: Overlap, p: Pending) {
    p.version == Version(o, p.found.manifest.name) ==> F.Holds(o.tier, p.found)
  }

  ghost predicate OverlapInv(o: Overlap) {
    && F.Inv(o.tier)
    && (forall k :: 0 <= k < |o.pending| ==> Current(o, o.pending[k]))
    && (forall k :: 0 <= k < |o.pending| ==> o.pending[k].version <= Version(o, o.pending[k].found.manifest.name))
  }

  /** The move does not admit a read that a write or an erase of that name has overtaken. */
  predicate NotOvertaken(o: Overlap, move: Move) {
    match move
    case AdmitMove(index) =>
      index < |o.pending| ==> o.pending[index].version == Version(o, o.pending[index].found.manifest.name)
    case _ => true
  }

  /** A move counts a version of a name exactly when it writes or erases its row; a write that is refused and a read
      that hits or finds nothing change nothing, and only a read that misses becomes pending. */
  lemma MakesExactly(o: Overlap, move: Move, n: string)
    ensures Version(Make(o, move), n) == Version(o, n) +
      (match move
       case WriteMove(m, payload) => if n == m.name && S.Write(o.tier.rows, m, payload, false).Ok? then 1 else 0
       case EraseMove(name) => if n == name && name in o.tier.rows then 1 else 0
       case _ => 0)
    ensures Make(o, move).pending == o.pending +
      (match move
       case ReadMove(name) =>
         if name !in o.tier.cache && S.Read(o.tier.rows, name).Ok? then [Pending(S.Read(o.tier.rows, name).value, Version(o, name))] else []
       case _ => [])
    ensures Make(o, move).tier ==
      (match move
       case WriteMove(m, payload) => S.Put(o.tier, m, payload, false).0
       case EraseMove(name) => S.Erase(o.tier, name, false).0
       case ReadMove(_) => o.tier
       case AdmitMove(index) => if index < |o.pending| then S.Admit(o.tier, o.pending[index].found) else o.tier)
  {
    hide S.Write; hide S.Read; hide S.Admit; hide S.Recache; hide S.Invalidate;
    assert o.pending + [] == o.pending;
  }

  lemma PutOthers(t: S.Tier, m: S.Manifest, payload: S.Bytes)
    requires F.Inv(t)
    ensures forall n :: n != m.name ==> (n in S.Put(t, m, payload, false).0.rows <==> n in t.rows)
    ensures forall n :: n != m.name && n in t.rows ==> S.Put(t, m, payload, false).0.rows[n] == t.rows[n]
  {
    hide S.Put; hide F.Inv;
    F.PutRows(t, m, payload, false);
    if S.Write(t.rows, m, payload, false).Ok? {
      F.WriteRow(t.rows, m, payload, false);
    }
    hide S.Write;
  }

  lemma StaysCurrent(o: Overlap, next: Overlap, p: Pending, name: string)
    requires Current(o, p) && p.version <= Version(o, p.found.manifest.name)
    requires next.versions == o.versions[name := Version(o, name) + 1]
    requires forall n :: n != name ==> (n in next.tier.rows <==> n in o.tier.rows) && (n in o.tier.rows ==> next.tier.rows[n] == o.tier.rows[n])
    ensures Current(next, p) && p.version <= Version(next, p.found.manifest.name)
  {
    hide S.RoundTrip; hide S.Decode;
  }

  lemma SameRowsCurrent(o: Overlap, next: Overlap, p: Pending)
    requires Current(o, p) && next.versions == o.versions && next.tier.rows == o.tier.rows
    ensures Current(next, p)
  {
    hide S.RoundTrip; hide S.Decode;
  }

  /** As long as no admission has been overtaken, overlapping reads leave the cache in agreement
      with the authority, move after move. */
  lemma OverlapKeeps(o: Overlap, move: Move)
    requires OverlapInv(o) && NotOvertaken(o, move)
    ensures OverlapInv(Make(o, move))
  {
    hide F.Inv; hide S.Put; hide S.Erase; hide S.Read; hide S.Admit; hide Current; hide F.Holds; hide Version;
    var next := Make(o, move);
    match move {
      case WriteMove(m, payload) =>
        F.PutKeeps(o.tier, m, payload, false);
        PutOthers(o.tier, m, payload);
        if next != o {
          forall k | 0 <= k < |o.pending|
            ensures Current(next, o.pending[k]) && o.pending[k].version <= Version(next, o.pending[k].found.manifest.name)
          {
            StaysCurrent(o, next, o.pending[k], m.name);
          }
        }
      case EraseMove(name) =>
        F.EraseKeeps(o.tier, name, false);
        EraseOthers(o.tier, name);
        forall k | 0 <= k < |o.pending|
          ensures Current(next, o.pending[k]) && o.pending[k].version <= Version(next, o.pending[k].found.manifest.name)
        {
          if S.Erase(o.tier, name, false).1 == S.Flag(true) {
            StaysCurrent(o, next, o.pending[k], name);
          } else {
            SameRowsCurrent(o, next, o.pending[k]);
            SameVersions(o, next);
          }
        }
      case ReadMove(name) =>
        if next != o {
          ReadCurrent(o, name);
          forall k | 0 <= k < |next.pending|
            ensures Current(next, next.pending[k]) && next.pending[k].version <= Version(next, next.pending[k].found.manifest.name)
          {
            SameRowsCurrent(o, next, next.pending[k]);
            SameVersions(o, next);
          }
        }
      case AdmitMove(index) =>
        if index < |o.pending| {
          AdmitCurrent(o, index);
          forall k | 0 <= k < |o.pending|
            ensures Current(next, o.pending[k]) && o.pending[k].version <= Version(next, o.pending[k].found.manifest.name)
          {
            SameRowsCurrent(o, next, o.pending[k]);
            SameVersions(o, next);
          }
        }
    }
  }

  lemma SameVersions(o: Overlap, next: Overlap)
    requires next.versions == o.versions
    ensures forall n :: Version(next, n) == Version(o, n)
  {
  }

  lemma EraseOthers(t: S.Tier, name: string)
    requires F.Inv(t)
    ensures var (next, reply) := S.Erase(t, name, false);
      && (forall n :: n != name ==> (n in next.rows <==> n in t.rows) && (n in t.rows ==> next.rows[n] == t.rows[n]))
      && (reply != S.Flag(true) ==> next.rows == t.rows)
  {
    hide F.Inv;
    F.InvalidateKeeps(t.(rows := t.rows - {name}, counters := t.counters.(backingWrites := t.counters.backingWrites + 1)), name);
    hide S.Invalidate;
  }

  lemma ReadCurrent(o: Overlap, name: string)
    requires F.Inv(o.tier) && S.Read(o.tier.rows, name).Ok?
    ensures var p := Pending(S.Read(o.tier.rows, name).value, Version(o, name));
      Current(o, p) && p.version <= Version(o, p.found.manifest.name)
  {
    hide F.Inv; hide S.Read; hide F.Holds;
    F.ReadHolds(o.tier, name);
  }

  lemma AdmitCurrent(o: Overlap, index: nat)
    requires OverlapInv(o) && index < |o.pending|
    requires o.pending[index].version == Version(o, o.pending[index].found.manifest.name)
    ensures F.Inv(S.Admit(o.tier, o.pending[index].found))
    ensures S.Admit(o.tier, o.pending[index].found).rows == o.tier.rows
  {
    var found := o.pending[index].found;
    assert Current(o, o.pending[index]);
    hide F.Agrees; hide F.Bounded; hide S.Admit; hide F.Holds;
    F.AdmitCoherent(o.tier, found);
    F.AdmitFacts(o.tier, found);
  }

  function MakeAll(o: Overlap, moves: seq<Move>): Overlap {
    if moves == [] then o else Make(MakeAll(o, moves[..|moves| - 1]), moves[|moves| - 1])
  }

  ghost predicate NeverOvertaken(o: Overlap, moves: seq<Move>) {
    forall k :: 0 <= k < |moves| ==> NotOvertaken(MakeAll(o, moves[..k]), moves[k])
  }

  function Idle(budget: nat, jsonSize: S.Manifest -> nat): Overlap {
    Overlap(S.Fresh(budget, jsonSize), [], map[])
  }

  /** Over whole runs: no overtaken admission, no disagreement. */
  lemma {:induction false} OverlapsAgree(budget: nat, jsonSize: S.Manifest -> nat, moves: seq<Move>)
    requires NeverOvertaken(Idle(budget, jsonSize), moves)
    ensures OverlapInv(MakeAll(Idle(budget, jsonSize), moves))
  {
    var o := Idle(budget, jsonSize);
    if moves != [] {
      var front := moves[..|moves| - 1];
      forall k | 0 <= k < |front| ensures NotOvertaken(MakeAll(o, front[..k]), front[k]) {
        assert front[..k] == moves[..k];
        assert NotOvertaken(MakeAll(o, moves[..k]), moves[k]);
      }
      OverlapsAgree(budget, jsonSize, front);
      assert NotOvertaken(MakeAll(o, moves[..|front|]), moves[|front|]);
      hide OverlapInv; hide NotOvertaken; hide Make;
      OverlapKeeps(MakeAll(o, front), moves[|moves| - 1]);
    }
  }

  /** An overtaken admission that fits is served from then on: the next get returns the object as
      it was before the write, whatever the authority now holds. */
  lemma OvertakenIsServed(o: Overlap, index: nat)
    requires F.Inv(o.tier) && index < |o.pending|
    requires var found := o.pending[index].found;
      o.tier.budget > 0 && S.Encode(found.manifest).Some? && S.Charge(o.tier, found) <= o.tier.budget
    ensures var found := o.pending[index].found;
      && S.Get(Make(o, AdmitMove(index)).tier, found.manifest.name).1 == S.Found(found)
      && (F.Holds(o.tier, found) <==> F.Inv(Make(o, AdmitMove(index)).tier))
  {
    var found := o.pending[index].found;
    var name := found.manifest.name;
    var i := S.Invalidate(o.tier, name);
    hide S.Encode; hide S.Charge; hide S.RoundTrip; hide S.Decode; hide S.EvictTo; hide S.Invalidate;
    F.InvGives(o.tier);
    F.InvalidateBounded(o.tier, name);
    F.InvalidateKeeps(o.tier, name);
    F.EvictBounded(i, o.tier.budget - S.Charge(o.tier, found));
    F.AdmitFacts(o.tier, found);
    var next := Make(o, AdmitMove(index)).tier;
    assert next.cache[name].stored == found;
    hide F.Bounded;
    if F.Holds(o.tier, found) {
      F.AdmitCoherent(o.tier, found);
    }
    if F.Inv(next) {
      assert F.Agrees(next, name);
    }
  }

  // A budget that holds one object: a second one pushes the first out, which is then read, written
  // again, and admitted as it was read.

  function OneFits(): Overlap {
    Idle(3, _ => 0)
  }

  function Small(name: string, byte: bv8): S.Object {
    S.Object(S.Manifest(name, 1, "ALL", 1, ["r"], ["r"], "COMMITTED", ""), [byte])
  }

  function WriteOf(o: S.Object): Move {
    WriteMove(o.manifest, o.payload)
  }

  const OVERTAKEN: seq<Move> :=
    [WriteOf(Small("x", 1)), WriteOf(Small("y", 1)), ReadMove("x"), WriteOf(Small("x", 2)), AdmitMove(0)]

  /** The tier caches that object at most, and has room for one. */
  ghost predicate CachesOnly(t: S.Tier, o: S.Object) {
    && t.budget == 3 && t.jsonSize == OneFits().tier.jsonSize
    && ((t.cache == map[] && t.lru == [] && t.used == 0)
        || (t.cache == map[o.manifest.name := S.Entry(o, 2)] && t.lru == [o.manifest.name] && t.used == 2))
  }

  lemma SmallReadsBack(name: string, byte: bv8)
    ensures S.Encode(Small(name, byte).manifest) == Some(Small(name, byte).manifest)
    ensures S.Decode(Small(name, byte).manifest) == Some(Small(name, byte).manifest)
  {
    assert S.Upper("ALL") == "ALL";
    assert "ALL"[0] != "ONE"[0] && "ALL"[0] != "QUORUM"[0];
  }

  lemma EvictsOnly(t: S.Tier, o: S.Object)
    requires CachesOnly(t, o)
    ensures var e := S.EvictTo(t, 1);
      e.cache == map[] && e.lru == [] && e.used == 0 && e.rows == t.rows && e.budget == t.budget && e.jsonSize == t.jsonSize
  {
    if t.lru != [] {
      var name := t.lru[0];
      var next := t.(used := 0, cache := t.cache - {name}, lru := t.lru[1..],
                     counters := t.counters.(evictions := t.counters.evictions + 1));
      assert next.cache == map[] && next.lru == [];
      Evicted(next, 1);
      assert S.EvictTo(t, 1) == S.EvictTo(next, 1);
    } else {
      Evicted(t, 1);
    }
  }

  lemma InvalidatesOnly(t: S.Tier, o: S.Object, name: string)
    requires CachesOnly(t, o)
    ensures CachesOnly(S.Invalidate(t, name), o) && S.Invalidate(t, name).rows == t.rows
  {
    if name in t.cache {
      assert t.cache - {name} == map[];
      assert S.Without(t.lru, name) == [];
    }
  }

  lemma AdmitReplaces(t: S.Tier, before: S.Object, name: string, byte: bv8)
    requires CachesOnly(t, before) && |name| == 1
    ensures var next := S.Admit(t, Small(name, byte));
      CachesOnly(next, Small(name, byte)) && name in next.cache && next.rows == t.rows
  {
    SmallReadsBack(name, byte);
    SmallParts(name, byte);
    var o := Small(name, byte);
    hide S.Encode; hide Small; hide S.Invalidate; hide S.EvictTo;
    assert S.Charge(t, o) == 2;
    InvalidatesOnly(t, before, name);
    EvictsOnly(S.Invalidate(t, name), before);
  }

  lemma SmallParts(name: string, byte: bv8)
    ensures Small(name, byte).manifest.name == name && |Small(name, byte).payload| == 1
  {
  }

  lemma WriteReplaces(o: Overlap, before: S.Object, name: string, byte: bv8)
    requires CachesOnly(o.tier, before) && |name| == 1
    ensures var next := Make(o, WriteOf(Small(name, byte)));
      && CachesOnly(next.tier, Small(name, byte)) && name in next.tier.cache
      && next.tier.rows == o.tier.rows[name := Small(name, byte)] && next.pending == o.pending
  {
    SmallReadsBack(name, byte);
    SmallParts(name, byte);
    var stored := Small(name, byte);
    hide S.Encode; hide Small; hide S.Admit;
    var t := o.tier.(rows := o.tier.rows[name := stored], counters := o.tier.counters.(backingWrites := o.tier.counters.backingWrites + 1));
    var i := S.Invalidate(t, name);
    assert CachesOnly(i, before) by {
      if name in t.cache {
        assert t.cache - {name} == map[];
      }
    }
    AdmitReplaces(i, before, name, byte);
  }

  lemma MakeNext(o: Overlap, moves: seq<Move>, k: nat)
    requires k < |moves|
    ensures MakeAll(o, moves[..k + 1]) == Make(MakeAll(o, moves[..k]), moves[k])
  {
    assert moves[..k + 1][..k] == moves[..k];
  }

  lemma MissedRead(o: Overlap, stored: S.Object, name: string, byte: bv8)
    requires name !in o.tier.cache && name in o.tier.rows && o.tier.rows[name] == Small(name, byte)
    ensures Make(o, ReadMove(name)) == o.(pending := o.pending + [Pending(Small(name, byte), Version(o, name))])
    ensures S.Read(o.tier.rows, name) == Ok(Small(name, byte))
  {
    SmallReadsBack(name, byte);
    hide S.Decode;
  }

  lemma ServesStale(t: S.Tier)
    requires CachesOnly(t, Small("x", 1)) && "x" in t.cache && "x" in t.rows && t.rows["x"] == Small("x", 2)
    ensures S.Get(t, "x").1 == S.Found(Small("x", 1)) && !F.Inv(t)
  {
    DifferentBytes();
    assert !F.Agrees(t, "x");
    hide F.Bounded;
  }

  /** The read of the first object misses, the second having pushed it out. */
  lemma PushedOutAndRead(o: Overlap)
    requires o == OneFits()
    ensures var next := MakeAll(o, OVERTAKEN[..3]);
      && CachesOnly(next.tier, Small("y", 1)) && |next.pending| == 1 && next.pending[0].found == Small("x", 1)
  {
    var x1, y := Small("x", 1), Small("y", 1);
    assert CachesOnly(o.tier, x1) && o.pending == [];
    assert "x"[0] != "y"[0];
    SmallParts("x", 1);
    SmallParts("y", 1);
    hide Small; hide OneFits; hide S.Admit; hide S.Read; hide MakeAll; hide Make;
    MakeNone(o);
    MakeNext(o, OVERTAKEN, 0);
    MakeNext(o, OVERTAKEN, 1);
    MakeNext(o, OVERTAKEN, 2);
    var o1 := Make(o, WriteOf(x1));
    var o2 := Make(o1, WriteOf(y));
    WriteReplaces(o, x1, "x", 1);
    WriteReplaces(o1, x1, "y", 1);
    MissedRead(o2, x1, "x", 1);
    hide WriteOf;
  }

  lemma OverwrittenAndAdmitted(o: Overlap)
    requires CachesOnly(o.tier, Small("y", 1)) && |o.pending| == 1 && o.pending[0].found == Small("x", 1)
    ensures var next := Make(Make(o, WriteOf(Small("x", 2))), AdmitMove(0));
      && S.Get(next.tier, "x").1 == S.Found(Small("x", 1)) && S.Read(next.tier.rows, "x") == Ok(Small("x", 2))
      && !F.Inv(next.tier)
  {
    hide Small; hide S.Read; hide S.Get; hide CachesOnly; hide F.Inv; hide Make; hide WriteOf;
    WriteReplaces(o, Small("y", 1), "x", 2);
    var between := Make(o, WriteOf(Small("x", 2)));
    MakesAdmit(between);
    AdmitReplaces(between.tier, Small("x", 2), "x", 1);
    ServesStale(S.Admit(between.tier, Small("x", 1)));
    ReadsBack(between.tier.rows, "x", 2);
  }

  lemma MakesAdmit(o: Overlap)
    requires |o.pending| > 0
    ensures Make(o, AdmitMove(0)) == o.(tier := S.Admit(o.tier, o.pending[0].found))
  {
  }

  /** From an idle store, a read that misses, is overtaken by a write and is then admitted leaves the
      object as it was before the write to be served, although the authority holds the new one. */
  lemma OvertakenRunServesStale()
    ensures var o := MakeAll(OneFits(), OVERTAKEN);
      && S.Get(o.tier, "x").1 == S.Found(Small("x", 1)) && S.Read(o.tier.rows, "x") == Ok(Small("x", 2))
      && !F.Inv(o.tier)
  {
    var o0 := OneFits();
    PushedOutAndRead(o0);
    var o3 := MakeAll(o0, OVERTAKEN[..3]);
    OverwrittenAndAdmitted(o3);
    MakeNext(o0, OVERTAKEN, 3);
    MakeNext(o0, OVERTAKEN, 4);
    assert OVERTAKEN[..5] == OVERTAKEN;
    hide Small; hide OneFits; hide S.Read; hide S.Get; hide MakeAll; hide CachesOnly; hide F.Inv; hide Make; hide WriteOf;
  }

  lemma MakeNone(o: Overlap)
    ensures MakeAll(o, []) == o
    ensures forall moves: seq<Move> :: moves[..0] == []
  {
  }

  lemma ReadsBack(rows: S.Rows, name: string, byte: bv8)
    requires name in rows && rows[name] == Small(name, byte)
    ensures S.Read(rows, name) == Ok(Small(name, byte))
  {
    SmallReadsBack(name, byte);
    hide S.Decode;
  }

  lemma DifferentBytes()
    ensures Small("x", 1).payload[0] != Small("x", 2).payload[0]
  {
  }

  /** An admission that is not cached, or whose object the authority still holds. */
  ghost predicate Harmless(o: Overlap, move: Move) {
    match move
    case AdmitMove(index) =>
      index < |o.pending| ==>
        var found := o.pending[index].found;
        F.Holds(o.tier, found) || o.tier.budget == 0 || S.Encode(found.manifest).None? || S.Charge(o.tier, found) > o.tier.budget
    case _ => true
  }

  lemma UncachedKeeps(o: Overlap, index: nat)
    requires F.Inv(o.tier) && index < |o.pending|
    requires var found := o.pending[index].found;
      o.tier.budget == 0 || S.Encode(found.manifest).None? || S.Charge(o.tier, found) > o.tier.budget
    ensures F.Inv(Make(o, AdmitMove(index)).tier)
  {
    hide S.Encode; hide F.Bounded; hide S.RoundTrip; hide S.Decode;
    F.BoundedOf(o.tier, Make(o, AdmitMove(index)).tier);
  }

  /** A move keeps the agreement exactly when it is no admission, or a harmless one. */
  lemma MoveAgreesExactly(o: Overlap, move: Move)
    requires F.Inv(o.tier)
    ensures F.Inv(Make(o, move).tier) <==> Harmless(o, move)
  {
    hide F.Inv; hide F.Holds; hide S.Put; hide S.Erase; hide S.Read; hide S.Admit; hide S.Encode; hide S.Charge; hide S.Get;
    match move {
      case WriteMove(m, payload) => F.PutKeeps(o.tier, m, payload, false);
      case EraseMove(name) => F.EraseKeeps(o.tier, name, false);
      case ReadMove(name) =>
      case AdmitMove(index) =>
        if index < |o.pending| {
          var found := o.pending[index].found;
          if o.tier.budget == 0 || S.Encode(found.manifest).None? || S.Charge(o.tier, found) > o.tier.budget {
            UncachedKeeps(o, index);
          } else {
            OvertakenIsServed(o, index);
          }
        }
    }
  }

  ghost predicate AgreesAt(o: Overlap, moves: seq<Move>, k: nat)
    requires k <= |moves|
  {
    F.Inv(MakeAll(o, moves[..k]).tier)
  }

  ghost predicate HarmlessAt(o: Overlap, moves: seq<Move>, k: nat)
    requires k < |moves|
  {
    Harmless(MakeAll(o, moves[..k]), moves[k])
  }

  lemma AgreesNext(o: Overlap, moves: seq<Move>, k: nat)
    requires k < |moves| && AgreesAt(o, moves, k)
    ensures AgreesAt(o, moves, k + 1) <==> HarmlessAt(o, moves, k)
  {
    hide F.Inv; hide Harmless; hide Make; hide MakeAll;
    MakeNext(o, moves, k);
    MoveAgreesExactly(MakeAll(o, moves[..k]), moves[k]);
  }

  lemma {:induction false} AgreesFrom(o: Overlap, moves: seq<Move>, n: nat)
    requires n <= |moves| && AgreesAt(o, moves, 0)
    ensures (forall k :: 0 <= k <= n ==> AgreesAt(o, moves, k)) <==> forall k :: 0 <= k < n ==> HarmlessAt(o, moves, k)
  {
    hide AgreesAt; hide HarmlessAt;
    if n > 0 {
      AgreesFrom(o, moves, n - 1);
      if AgreesAt(o, moves, n - 1) {
        AgreesNext(o, moves, n - 1);
      }
    }
  }

  /** A run leaves the cache in agreement with the authority throughout exactly when each of its admissions,
      overtaken or not, is of an object that is not cached or that the authority still holds. */
  lemma AgreesExactly(budget: nat, jsonSize: S.Manifest -> nat, moves: seq<Move>)
    ensures (forall k :: 0 <= k <= |moves| ==> AgreesAt(Idle(budget, jsonSize), moves, k))
            <==> forall k :: 0 <= k < |moves| ==> HarmlessAt(Idle(budget, jsonSize), moves, k)
  {
    var o := Idle(budget, jsonSize);
    MakeNone(o);
    assert AgreesAt(o, moves, 0);
    hide AgreesAt; hide HarmlessAt; hide Idle;
    AgreesFrom(o, moves, |moves|);
  }
}
