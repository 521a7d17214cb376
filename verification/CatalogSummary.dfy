/** What a repository reports of one object from the entries its sources hold, and what it repairs. */
module CatalogSummary {
  import opened Outcomes
  import opened Sets
  import opened CatalogMerge

  /** One source's entry, with what the summary reads besides. `stale` is whether its source has
      not been heard of for too long. */
  datatype Row = Row(source: string, entry: Entry, stale: bool, ttl: nat, minFactor: nat, repairAllowed: bool)

  /** A repository that might take a copy. */
  datatype Member = Member(repo: string, persistent: bool, acceptsBackup: bool, stale: bool)

  datatype Verdict = CONFLICT | DELETED | EXPIRED | STAGED | UNDER_REPLICATED | AVAILABLE

  datatype Action = Action(source: string, target: string, digest: string)

  datatype Summary = Summary(verdict: Verdict, candidates: seq<Row>, missing: nat, actions: seq<Action>)

  predicate Expired(row: Row, now: int) {
    row.entry.state.Available? && row.ttl > 0 && row.entry.updatedAt > 0 && now - row.entry.updatedAt > row.ttl
  }

  function Max(a: int, b: int): int {
    if a >= b then a else b
  }

  /** The time of the newest tombstone; zero when there is none. */
  function Cutoff(rows: seq<Row>): (t: int)
    ensures t >= 0
    ensures forall r :: r in rows && r.entry.state.Deleted? ==> r.entry.updatedAt <= t
    ensures t > 0 ==> exists r :: r in rows && r.entry.state.Deleted? && r.entry.updatedAt == t
  {
    if rows == [] then 0
    else
      var rest := Cutoff(rows[1..]);
      if rows[0].entry.state.Deleted? then Max(rows[0].entry.updatedAt, rest) else rest
  }

  predicate Shadowed(row: Row, cutoff: int) {
    row.entry.state.Available? && cutoff > 0 && row.entry.updatedAt <= cutoff
  }

  /** The row counts as a live replica. */
  predicate Counts(row: Row, cutoff: int, now: int) {
    row.entry.state.Available? && !row.stale && !Expired(row, now) && !Shadowed(row, cutoff)
  }

  function LiveRows(rows: seq<Row>, cutoff: int, now: int): (live: seq<Row>)
    ensures forall r :: r in live <==> r in rows && Counts(r, cutoff, now)
  {
    if rows == [] then []
    else (if Counts(rows[0], cutoff, now) then [rows[0]] else []) + LiveRows(rows[1..], cutoff, now)
  }

  function TopGeneration(rows: seq<Row>): (g: nat)
    ensures forall r :: r in rows ==> r.entry.generation <= g
    ensures g > 0 ==> exists r :: r in rows && r.entry.generation == g
  {
    if rows == [] then 0
    else
      var rest := TopGeneration(rows[1..]);
      if rows[0].entry.generation >= rest then rows[0].entry.generation else rest
  }

  /** The distinct digests named by the live rows of the top generation. */
  function Digests(live: seq<Row>): set<string> {
    set r | r in live && r.entry.generation == TopGeneration(live) && r.entry.digest != "" :: r.entry.digest
  }

  /** The greatest factor of any row; a row that gives none requires one. */
  function MinRequired(rows: seq<Row>): (n: nat)
    ensures n >= 1
    ensures forall r :: r in rows ==> n >= r.minFactor
    ensures n == 1 || exists r :: r in rows && r.minFactor == n
  {
    if rows == [] then 1
    else
      var own := if rows[0].minFactor == 0 then 1 else rows[0].minFactor;
      Max(own, MinRequired(rows[1..]))
  }

  function Sources(rows: seq<Row>): set<string> {
    set r | r in rows :: r.source
  }

  function Targets(members: seq<Member>, sources: set<string>): (targets: seq<string>)
    ensures forall t :: t in targets ==> t !in sources && exists m :: m in members && m.repo == t && m.persistent && m.acceptsBackup && !m.stale
  {
    if members == [] then []
    else
      var m := members[0];
      (if m.repo !in sources && m.persistent && m.acceptsBackup && !m.stale then [m.repo] else [])
      + Targets(members[1..], sources)
  }

  predicate AnyState(rows: seq<Row>, state: State) {
    exists r :: r in rows && r.entry.state == state
  }

  function Actions(from: Row, targets: seq<string>, missing: nat): (actions: seq<Action>)
    ensures |actions| == if missing <= |targets| then missing else |targets|
    ensures forall i :: 0 <= i < |actions| ==> actions[i] == Action(from.source, targets[i], from.entry.digest)
  {
    seq(if missing <= |targets| then missing else |targets|,
        i requires 0 <= i < |targets| => Action(from.source, targets[i], from.entry.digest))
  }

  function Summarize(rows: seq<Row>, members: seq<Member>, now: int): Summary
    requires rows != []
  {
    var cutoff := Cutoff(rows);
    var live := LiveRows(rows, cutoff, now);
    var conflicted := |Digests(live)| > 1;
    var deleted := AnyState(rows, Deleted) && live == [];
    var expired := (exists r :: r in rows && Expired(r, now)) && live == [];
    var stagedOnly := (exists r :: r in rows && r.entry.state.Staged? && !r.stale) && live == [];
    var repairAllowed := exists r :: r in rows && r.repairAllowed;
    var eligible := repairAllowed && !expired && !deleted && !conflicted && !stagedOnly;
    var missing := if !eligible || MinRequired(rows) <= |live| then 0 else MinRequired(rows) - |live|;
    var actions := if live == [] || live[0].source == "" then [] else Actions(live[0], Targets(members, Sources(rows)), missing);
    var verdict :=
      if conflicted then CONFLICT else if deleted then DELETED else if expired then EXPIRED
      else if stagedOnly then STAGED else if missing > 0 then UNDER_REPLICATED else AVAILABLE;
    Summary(verdict, live, missing, actions)
  }

  datatype Error = UnknownObject

  /** An object no source has an entry of is unknown, and has no summary. */
  function ObjectSummary(rows: seq<Row>, members: seq<Member>, now: int): (r: Result<Summary, Error>)
    ensures r.Err? <==> rows == []
  {
    if rows == [] then Err(UnknownObject) else Ok(Summarize(rows, members, now))
  }

  // ----- what the summary reads off the rows -----

  /** A row counts as live exactly when it is available, its source is fresh, its time to live, if it has one and
      a stamp, has not passed, and no stamped tombstone is as new as it. */
  lemma LiveExactly(rows: seq<Row>, now: int, r: Row)
    ensures Counts(r, Cutoff(rows), now) <==>
      && r.entry.state == Available && !r.stale
      && (r.ttl == 0 || r.entry.updatedAt <= 0 || now <= r.entry.updatedAt + r.ttl)
      && forall t :: t in rows && t.entry.state == Deleted && t.entry.updatedAt > 0 ==> r.entry.updatedAt > t.entry.updatedAt
  {
    hide Cutoff;
  }

  /** The live rows stand in the order of the rows. */
  lemma {:induction false} LiveInOrder(rows: seq<Row>, r: Row, cutoff: int, now: int)
    ensures LiveRows(rows + [r], cutoff, now) == LiveRows(rows, cutoff, now) + Kept(r, cutoff, now)
  {
    hide *;
    if rows == [] {
      assert rows + [r] == [r] && [r][1..] == [];
      LiveFirst([r], cutoff, now);
      NoneLive(cutoff, now);
    } else {
      LiveInOrder(rows[1..], r, cutoff, now);
      assert (rows + [r])[1..] == rows[1..] + [r] && (rows + [r])[0] == rows[0];
      LiveFirst(rows, cutoff, now);
      LiveFirst(rows + [r], cutoff, now);
      Joined(Kept(rows[0], cutoff, now), LiveRows(rows[1..], cutoff, now), Kept(r, cutoff, now));
    }
  }

  lemma Joined<T>(a: seq<T>, b: seq<T>, c: seq<T>)
    ensures a + (b + c) == a + b + c
  {
  }

  lemma NoneLive(cutoff: int, now: int)
    ensures LiveRows([], cutoff, now) == []
  {
  }

  function Kept(r: Row, cutoff: int, now: int): seq<Row> {
    if Counts(r, cutoff, now) then [r] else []
  }

  lemma LiveFirst(rows: seq<Row>, cutoff: int, now: int)
    requires rows != []
    ensures LiveRows(rows, cutoff, now) == Kept(rows[0], cutoff, now) + LiveRows(rows[1..], cutoff, now)
  {
    hide Counts;
  }

  predicate Willing(m: Member, sources: set<string>) {
    m.persistent && m.acceptsBackup && !m.stale && m.repo !in sources
  }

  function Taker(m: Member, sources: set<string>): seq<string> {
    if Willing(m, sources) then [m.repo] else []
  }

  lemma TargetsFirst(members: seq<Member>, sources: set<string>)
    ensures Targets([], sources) == []
    ensures members != [] ==> Targets(members, sources) == Taker(members[0], sources) + Targets(members[1..], sources)
  {
  }

  /** Targets are the members that hold nothing, are persistent, accept copies and are fresh, in their order. */
  lemma {:induction false} TargetsInOrder(members: seq<Member>, m: Member, sources: set<string>)
    ensures Targets(members + [m], sources) == Targets(members, sources) + Taker(m, sources)
  {
    hide *;
    TargetsFirst(members, sources);
    TargetsFirst(members + [m], sources);
    if members == [] {
      assert members + [m] == [m] && [m][1..] == [];
    } else {
      TargetsInOrder(members[1..], m, sources);
      assert (members + [m])[1..] == members[1..] + [m] && (members + [m])[0] == members[0];
      Joined(Taker(members[0], sources), Targets(members[1..], sources), Taker(m, sources));
    }
  }

  /** Past its time to live, for an available row that has one and a stamp. */
  predicate Outlived(r: Row, now: int) {
    r.entry.state == Available && r.ttl != 0 && r.entry.updatedAt >= 1 && now > r.entry.updatedAt + r.ttl
  }

  /** What is reported when no row is live: deleted if there is a tombstone; else expired if a row has outlived its
      time; else staged if a fresh row is; else under-replicated if some row allows repair; else available. */
  lemma NoneLiveExactly(rows: seq<Row>, members: seq<Member>, now: int)
    requires rows != [] && Summarize(rows, members, now).candidates == []
    ensures var s := Summarize(rows, members, now);
      && s.actions == []
      && s.verdict == (if exists r :: r in rows && r.entry.state == Deleted then DELETED
                       else if exists r :: r in rows && Outlived(r, now) then EXPIRED
                       else if exists r :: r in rows && r.entry.state == Staged && !r.stale then STAGED
                       else if exists r :: r in rows && r.repairAllowed then UNDER_REPLICATED else AVAILABLE)
      && s.missing == if s.verdict == UNDER_REPLICATED then MinRequired(rows) else 0
  {
    hide Cutoff; hide LiveRows; hide MinRequired; hide Targets;
    assert Digests([]) == {};
    hide Digests;
  }

  /** What is reported when some row is live: a conflict if the newest generation has two contents; else
      under-replicated if some row allows repair and fewer are live than required, by as many as are
      wanting; else available. Repairs go from the first live row, if it names its source, to the
      first so many targets. */
  lemma SomeLiveExactly(rows: seq<Row>, members: seq<Member>, now: int)
    requires rows != [] && Summarize(rows, members, now).candidates != []
    ensures var s := Summarize(rows, members, now);
      var wanting := MinRequired(rows) - |s.candidates|;
      var targets := Targets(members, Sources(rows));
      && s.verdict == (if Disagree(s.candidates) then CONFLICT
                       else if (exists r :: r in rows && r.repairAllowed) && wanting > 0 then UNDER_REPLICATED else AVAILABLE)
      && s.missing == (if s.verdict == UNDER_REPLICATED then wanting else 0)
      && |s.actions| == (if s.candidates[0].source == "" then 0 else if s.missing <= |targets| then s.missing else |targets|)
      && forall k :: 0 <= k < |s.actions| ==>
           s.actions[k] == Action(s.candidates[0].source, targets[k], s.candidates[0].entry.digest)
  {
    ConflictExactly(rows, members, now);
    hide Cutoff; hide LiveRows; hide MinRequired; hide Targets; hide Disagree; hide Digests;
  }

  // ----- conflicts -----

  /** Two live rows of the top generation name different digests. */
  ghost predicate Disagree(live: seq<Row>) {
    exists r, s :: r in live && s in live
      && r.entry.generation == s.entry.generation == TopGeneration(live)
      && r.entry.digest != "" && s.entry.digest != "" && r.entry.digest != s.entry.digest
  }

  lemma {:induction false} ManyDigests(digests: set<string>)
    ensures |digests| > 1 <==> exists d, e :: d in digests && e in digests && d != e
  {
    if |digests| > 1 {
      var d :| d in digests;
      var rest := digests - {d};
      assert |rest| == |digests| - 1;
      var e :| e in rest;
      assert d in digests && e in digests && d != e;
    }
    if d, e :| d in digests && e in digests && d != e {
      assert {d, e} <= digests;
      SubsetSize({d, e}, digests);
    }
  }

  /** The summary reports a conflict exactly when two live rows of the newest generation disagree on
      the content, and then it plans no repair: no side is chosen. */
  lemma ConflictExactly(rows: seq<Row>, members: seq<Member>, now: int)
    requires rows != []
    ensures var s := Summarize(rows, members, now);
      && (s.verdict.CONFLICT? <==> Disagree(s.candidates))
      && (s.verdict.CONFLICT? ==> s.missing == 0 && s.actions == [])
  {
    var live := LiveRows(rows, Cutoff(rows), now);
    hide LiveRows; hide Cutoff; hide Targets;
    ManyDigests(Digests(live));
    if d, e :| d in Digests(live) && e in Digests(live) && d != e {
      var r :| r in live && r.entry.generation == TopGeneration(live) && r.entry.digest == d;
      var s :| s in live && s.entry.generation == TopGeneration(live) && s.entry.digest == e;
      assert Disagree(live);
    }
    if Disagree(live) {
      var r, s :| r in live && s in live && r.entry.generation == s.entry.generation == TopGeneration(live)
               && r.entry.digest != "" && s.entry.digest != "" && r.entry.digest != s.entry.digest;
      assert r.entry.digest in Digests(live) && s.entry.digest in Digests(live);
    }
  }

  // ----- deletion -----

  /** An object is reported deleted exactly when some source holds a tombstone and no row counts as a
      live replica. */
  lemma DeletedExactly(rows: seq<Row>, members: seq<Member>, now: int)
    requires rows != []
    ensures Summarize(rows, members, now).verdict.DELETED? <==>
      AnyState(rows, Deleted) && forall r :: r in rows ==> !Counts(r, Cutoff(rows), now)
  {
    var live := LiveRows(rows, Cutoff(rows), now);
    hide LiveRows; hide Cutoff; hide Targets;
    if live == [] {
      assert Digests(live) == {};
    } else {
      assert live[0] in live;
    }
  }

  /** Available entries of any sources that are no newer than a tombstone cannot bring the object back. */
  lemma OlderAvailableCannotRevive(rows: seq<Row>, members: seq<Member>, now: int, tombstone: Row)
    requires tombstone in rows && tombstone.entry.state.Deleted? && tombstone.entry.updatedAt > 0
    requires forall r :: r in rows && r.entry.state.Available? ==> r.entry.updatedAt <= tombstone.entry.updatedAt
    ensures Summarize(rows, members, now).verdict.DELETED? && Summarize(rows, members, now).actions == []
  {
    DeletedExactly(rows, members, now);
    hide Cutoff; hide LiveRows;
    assert Cutoff(rows) >= tombstone.entry.updatedAt;
    assert forall r :: r in rows ==> !Counts(r, Cutoff(rows), now);
    hide Digests;
  }

  // ----- repair -----

  /** Repair copies from a live replica only, to fresh persistent members that hold nothing yet, as
      many as are missing and willing. Nothing staged, deleted, expired or stale is a source. */
  lemma RepairsFromLive(rows: seq<Row>, members: seq<Member>, now: int)
    requires rows != []
    ensures var s := Summarize(rows, members, now);
      && (forall a :: a in s.actions ==>
            && (exists r :: r in rows && Counts(r, Cutoff(rows), now) && r.source == a.source && r.entry.digest == a.digest)
            && a.target !in Sources(rows) && a.source in Sources(rows))
      && |s.actions| <= s.missing
      && (s.missing > 0 ==> |s.candidates| + s.missing == MinRequired(rows))
  {
    hide Cutoff; hide MinRequired;
    var s := Summarize(rows, members, now);
    if s.candidates != [] {
      var r := s.candidates[0];
      assert r in s.candidates;
    }
    hide LiveRows; hide Targets;
  }

  // ----- availability -----

  ghost predicate SomeRepairAllowed(rows: seq<Row>) {
    exists r :: r in rows && r.repairAllowed
  }

  /** Nothing says why no row counts: no tombstone, nothing expired, nothing freshly staged. */
  ghost predicate Unexplained(rows: seq<Row>, now: int) {
    forall r :: r in rows ==> !r.entry.state.Deleted? && !Expired(r, now) && !(r.entry.state.Staged? && !r.stale)
  }

  /** An object is reported available exactly when its live rows of the newest generation agree, and
      either the live rows, of whatever generations, are as many as any row requires, or no row allows
      repair and at least one is live or nothing explains why none is. */
  lemma AvailableExactly(rows: seq<Row>, members: seq<Member>, now: int)
    requires rows != []
    ensures var s := Summarize(rows, members, now);
      s.verdict.AVAILABLE? <==>
        && !Disagree(s.candidates)
        && (|s.candidates| >= MinRequired(rows) || (!SomeRepairAllowed(rows) && (s.candidates != [] || Unexplained(rows, now))))
  {
    ConflictExactly(rows, members, now);
    hide LiveRows; hide Cutoff; hide Targets; hide Disagree; hide Digests; hide MinRequired;
  }

  /** So no replica at all may be live: an object is reported available with none exactly when no row
      counts, nothing explains it, and no row allows repair. */
  lemma AvailableWithNoneLive(rows: seq<Row>, members: seq<Member>, now: int)
    requires rows != []
    ensures var s := Summarize(rows, members, now);
      s.verdict.AVAILABLE? && s.candidates == [] <==>
        (forall r :: r in rows ==> !Counts(r, Cutoff(rows), now)) && Unexplained(rows, now) && !SomeRepairAllowed(rows)
  {
    AvailableExactly(rows, members, now);
    var live := LiveRows(rows, Cutoff(rows), now);
    if live != [] {
      assert live[0] in live;
    }
    hide LiveRows; hide Cutoff; hide Targets; hide MinRequired;
  }

  /** Where some row allows repair, available means as many live rows, of whatever generations, as any row
      requires; where none does, a single live row is enough. */
  lemma AvailableMeansEnough(rows: seq<Row>, members: seq<Member>, now: int)
    requires rows != []
    ensures var s := Summarize(rows, members, now);
      && (SomeRepairAllowed(rows) ==> (s.verdict.AVAILABLE? <==> !Disagree(s.candidates) && |s.candidates| >= MinRequired(rows)))
      && (!SomeRepairAllowed(rows) && s.candidates != [] ==> (s.verdict.AVAILABLE? <==> !Disagree(s.candidates)))
  {
    AvailableExactly(rows, members, now);
    hide Summarize; hide MinRequired;
    if SomeRepairAllowed(rows) || Summarize(rows, members, now).candidates != [] { hide Unexplained; }
  }

  /** For one, a stale row of an object that may not be repaired, though it requires three. */
  lemma RepairDisabledLooksAvailable(source: string, entry: Entry, now: int, members: seq<Member>)
    requires entry.state.Available?
    ensures var rows := [Row(source, entry, true, 0, 3, false)];
      var s := Summarize(rows, members, now);
      s.verdict.AVAILABLE? && s.candidates == []
  {
    var rows := [Row(source, entry, true, 0, 3, false)];
    AvailableWithNoneLive(rows, members, now);
    hide Summarize; hide Cutoff;
  }

  // ----- the newest content -----

  /** Some live row of the newest generation names that digest. */
  predicate IsNewest(digest: string, live: seq<Row>) {
    exists r :: r in live && r.entry.generation == TopGeneration(live) && r.entry.digest == digest
  }

  /** The rows of `part` that do, or do not, hold what the newest generation of `live` holds. */
  function Holding(part: seq<Row>, live: seq<Row>, newest: bool): (held: seq<Row>)
    ensures forall r :: r in held <==> r in part && IsNewest(r.entry.digest, live) == newest
  {
    if part == [] then []
    else (if IsNewest(part[0].entry.digest, live) == newest then [part[0]] else []) + Holding(part[1..], live, newest)
  }

  lemma {:induction false} HoldingSplits(part: seq<Row>, live: seq<Row>)
    ensures |Holding(part, live, true)| + |Holding(part, live, false)| == |part|
  {
    if part != [] {
      HoldingSplits(part[1..], live);
    }
  }

  /** Available means as many live rows of the newest content as any row requires, exactly when the newest
      generation is in conflict; or no more live rows are outdated than there are to spare; or so few are
      live that the object is not reported available at all. */
  lemma AvailableMeansNewestExactly(rows: seq<Row>, members: seq<Member>, now: int)
    requires rows != []
    ensures var s := Summarize(rows, members, now);
      var live := s.candidates;
      (s.verdict.AVAILABLE? ==> |Holding(live, live, true)| >= MinRequired(rows)) <==>
        || Disagree(live)
        || |Holding(live, live, false)| <= |live| - MinRequired(rows)
        || (|live| < MinRequired(rows) && (SomeRepairAllowed(rows) || (live == [] && !Unexplained(rows, now))))
  {
    AvailableExactly(rows, members, now);
    var live := Summarize(rows, members, now).candidates;
    HoldingSplits(live, live);
    hide Summarize; hide MinRequired; hide Disagree; hide IsNewest; hide Unexplained; hide SomeRepairAllowed;
  }

  /** In particular it does when every live row is of the newest content. */
  lemma AllNewestIsEnough(rows: seq<Row>, members: seq<Member>, now: int)
    requires rows != [] && SomeRepairAllowed(rows)
    requires forall r :: r in rows && Counts(r, Cutoff(rows), now) ==> IsNewest(r.entry.digest, LiveRows(rows, Cutoff(rows), now))
    ensures var s := Summarize(rows, members, now);
      s.verdict.AVAILABLE? ==> |Holding(s.candidates, s.candidates, true)| >= MinRequired(rows)
  {
    AvailableMeansNewestExactly(rows, members, now);
    AvailableExactly(rows, members, now);
    var live := LiveRows(rows, Cutoff(rows), now);
    hide LiveRows; hide MinRequired; hide Disagree; hide Cutoff; hide Counts; hide IsNewest; hide Targets; hide Digests;
    HoldingSplits(live, live);
    if Holding(live, live, false) != [] {
      assert Holding(live, live, false)[0] in Holding(live, live, false);
    }
  }

  /** A repair, if one is planned, copies the newest content exactly when the first live row is of the newest
      generation or holds what that generation holds: it is the first row that is copied. */
  lemma RepairsNewestExactly(rows: seq<Row>, members: seq<Member>, now: int)
    requires rows != [] && Summarize(rows, members, now).actions != []
    ensures var s := Summarize(rows, members, now);
      && s.candidates != []
      && ((forall a :: a in s.actions ==> IsNewest(a.digest, s.candidates)) <==>
            s.candidates[0].entry.generation == TopGeneration(s.candidates) || IsNewest(s.candidates[0].entry.digest, s.candidates))
  {
    var s := Summarize(rows, members, now);
    hide Cutoff; hide MinRequired; hide LiveRows; hide Targets; hide Digests;
    assert s.actions[0] in s.actions;
    assert s.candidates[0] in s.candidates;
  }

  function Replica(source: string, generation: nat, digest: string, required: nat): Row {
    Row(source, Entry("boot", 1, 1, Available, generation, digest, ""), false, 0, required, true)
  }

  lemma RequiredOf(required: nat)
    requires required >= 1
    ensures var rows := [Replica("A", 1, "d1", required), Replica("B", 2, "d2", required)];
      MinRequired(rows) == required && SomeRepairAllowed(rows)
  {
    var rows := [Replica("A", 1, "d1", required), Replica("B", 2, "d2", required)];
    assert rows[1..] == [rows[1]] && rows[1..][1..] == [];
    assert MinRequired(rows[1..][1..]) == 1 && MinRequired(rows[1..]) == required;
    assert rows[0] in rows && rows[0].repairAllowed;
  }

  /** Two live rows of different generations and contents make an object that requires two available. */
  lemma TwoContentsAvailable(now: int)
    ensures var rows := [Replica("A", 1, "d1", 2), Replica("B", 2, "d2", 2)];
      var s := Summarize(rows, [], now);
      s.verdict.AVAILABLE? && s.candidates == rows && Holding(rows, rows, true) == [rows[1]]
  {
    var rows := [Replica("A", 1, "d1", 2), Replica("B", 2, "d2", 2)];
    OlderGenerationLive(2, now);
    RequiredOf(2);
    AvailableMeansEnough(rows, [], now);
    hide LiveRows; hide Cutoff; hide MinRequired; hide Holding; hide Replica; hide TopGeneration; hide Targets;
    ManyDigests(Digests(rows));
    ConflictExactly(rows, [], now);
  }

  /** When it requires three and a repository is willing, repair copies the older content to it. */
  lemma OlderContentRepaired(now: int)
    ensures var rows := [Replica("A", 1, "d1", 3), Replica("B", 2, "d2", 3)];
      var s := Summarize(rows, [Member("C", true, true, false)], now);
      s.actions == [Action("A", "C", "d1")] && s.candidates == rows && !IsNewest("d1", s.candidates)
  {
    var rows := [Replica("A", 1, "d1", 3), Replica("B", 2, "d2", 3)];
    OlderGenerationLive(3, now);
    RequiredOf(3);
    TargetsOne(rows);
    hide LiveRows; hide Cutoff; hide MinRequired; hide Holding; hide TopGeneration; hide Targets; hide Digests; hide IsNewest;
    assert rows[0] in rows;
  }

  lemma TargetsOne(three: seq<Row>)
    requires |three| == 2 && three[0].source == "A" && three[1].source == "B"
    ensures Targets([Member("C", true, true, false)], Sources(three)) == ["C"]
  {
    assert "A"[0] != "C"[0] && "B"[0] != "C"[0];
    var m := Member("C", true, true, false);
    assert [m][1..] == [];
    assert Targets([m][1..], Sources(three)) == [];
  }

  lemma OlderGenerationLive(required: nat, now: int)
    ensures var rows := [Replica("A", 1, "d1", required), Replica("B", 2, "d2", required)];
      && Cutoff(rows) == 0 && LiveRows(rows, 0, now) == rows && TopGeneration(rows) == 2
      && |Digests(rows)| == 1 && Holding(rows, rows, true) == [rows[1]] && !IsNewest("d1", rows)
      && (forall r :: r in rows ==> r.entry.state.Available? && !Expired(r, now))
  {
    var rows := [Replica("A", 1, "d1", required), Replica("B", 2, "d2", required)];
    assert rows[1..] == [rows[1]] && rows[1..][1..] == [];
    assert Cutoff(rows[1..][1..]) == 0 && TopGeneration(rows[1..][1..]) == 0 && LiveRows(rows[1..][1..], 0, now) == [];
    assert LiveRows(rows[1..], 0, now) == [rows[1]];
    assert TopGeneration(rows) == 2;
    assert "d1"[1] != "d2"[1];
    assert rows[1] in rows;
    assert Digests(rows) == {"d2"};
    assert IsNewest("d2", rows);
    assert Holding(rows[1..][1..], rows, true) == [];
    assert Holding(rows[1..], rows, true) == [rows[1]];
  }
}
