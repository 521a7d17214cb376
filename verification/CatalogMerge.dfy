/** How catalog deltas about one object from one source are merged, and when the order of their
arrival matters. */
module CatalogMerge {
  import opened Outcomes

  datatype State = Available | Deleted | Staged

  /** A delta as the merge compares it; `body` is the rest of it. */
  datatype Entry = Entry(boot: string, sequence: int, updatedAt: int, state: State, generation: nat, digest: string, body: string)

  /** A tombstone no older than the available entry it meets, which it replaces whatever the sequence. */
  predicate Overrides(current: Entry, incoming: Entry) {
    current.state.Available? && incoming.state.Deleted? && incoming.updatedAt >= current.updatedAt
  }

  /** Is the current entry kept when the other arrives? */
  predicate Keeps(current: Entry, incoming: Entry) {
    || (current.state.Deleted? && incoming.state.Available? && current.updatedAt >= incoming.updatedAt)
    || (current.boot == incoming.boot && !Overrides(current, incoming)
        && (current.sequence > incoming.sequence
            || (current.sequence == incoming.sequence && current.updatedAt > incoming.updatedAt)))
  }

  function Meet(current: Entry, incoming: Entry): Entry {
    if Keeps(current, incoming) then current else incoming
  }

  /** The entry held for a source after the deltas have arrived in this order. */
  function Merge(deltas: seq<Entry>): Option<Entry> {
    if deltas == [] then None
    else match Merge(deltas[..|deltas| - 1])
      case None => Some(deltas[|deltas| - 1])
      case Some(current) => Some(Meet(current, deltas[|deltas| - 1]))
  }

  // ----- the merge in place -----

  type Source = string

  class GlobalCatalog {
    /** By object name, then by source. */
    var entries: map<string, map<Source, Entry>>

    constructor ()
      ensures entries == map[]
    {
      entries := map[];
    }

    function Held(name: string, source: Source): Option<Entry>
      reads this
    {
      if name in entries && source in entries[name] then Some(entries[name][source]) else None
    }

    /** Entries without a name or a source are ignored; the others meet what their source holds. */
    method Upsert(name: string, source: Source, incoming: Entry)
      modifies this
      ensures name == "" || source == "" ==> entries == old(entries)
      ensures name != "" && source != "" ==>
        Held(name, source) == Some(match old(Held(name, source)) case None => incoming case Some(current) => Meet(current, incoming))
      ensures name != "" && source != "" && (old(Held(name, source)).None? || old(Held(name, source)).value.boot != incoming.boot)
              && !(incoming.state.Available? && old(Held(name, source)).Some? && old(Held(name, source)).value.state.Deleted?
                   && old(Held(name, source)).value.updatedAt >= incoming.updatedAt) ==>
        Held(name, source) == Some(incoming)
      ensures forall n, s :: (n != name || s != source) ==> Held(n, s) == old(Held(n, s))
    {
      if name == "" || source == "" { return; }
      var bySource := if name in entries then entries[name] else map[];
      if source in bySource {
        var current := bySource[source];
        var overrides := current.state.Available? && incoming.state.Deleted? && incoming.updatedAt >= current.updatedAt;
        if current.state.Deleted? && incoming.state.Available? && current.updatedAt >= incoming.updatedAt { return; }
        var sameBoot := current.boot == incoming.boot;
        if sameBoot && current.sequence > incoming.sequence && !overrides { return; }
        if sameBoot && current.sequence == incoming.sequence && current.updatedAt > incoming.updatedAt && !overrides { return; }
      }
      entries := entries[name := bySource[source := incoming]];
    }
  }

  // ----- which entry is held after an arrival -----

  /** An entry held outlasts an arriving one exactly when it is a tombstone no older than the available entry
      that arrives; or of the same boot and ahead in sequence, or level and stamped later, and the arriving
      one is no tombstone that takes over from an available entry no newer. */
  lemma HeldAfterExactly(before: seq<Entry>, held: Entry, incoming: Entry)
    requires Merge(before) == Some(held)
    ensures Merge(before + [incoming]) == Some(
      if || (held.state == Deleted && incoming.state == Available && held.updatedAt >= incoming.updatedAt)
         || (&& held.boot == incoming.boot
             && (held.sequence > incoming.sequence || (held.sequence == incoming.sequence && held.updatedAt > incoming.updatedAt))
             && !(held.state == Available && incoming.state == Deleted && incoming.updatedAt >= held.updatedAt))
      then held else incoming)
  {
    assert (before + [incoming])[..|before|] == before;
  }

  /** Across boots an arriving entry is held, unless a tombstone is held that is no older than it and it is
      available. */
  lemma NewBootIsHeld(before: seq<Entry>, held: Entry, incoming: Entry)
    requires Merge(before) == Some(held) && held.boot != incoming.boot
    ensures (Merge(before + [incoming]) == Some(incoming) <==>
               held == incoming || !(held.state.Deleted? && incoming.state.Available? && held.updatedAt >= incoming.updatedAt))
    ensures Merge(before + [incoming]) == Some(incoming) || Merge(before + [incoming]) == Some(held)
  {
    HeldAfterExactly(before, held, incoming);
    hide Merge;
  }

  /** So after a restart whatever is held but a tombstone gives way to the new boot's first entry, however low its
      sequence and stamp; and once a source reports under a new boot, with entries each ahead of the last, the
      last to arrive is held. */
  lemma {:induction false} NewBootTakesOver(before: seq<Entry>, after: seq<Entry>)
    requires Merge(before).Some? && !Merge(before).value.state.Deleted? && after != []
    requires forall i :: 0 <= i < |after| ==> after[i].boot == after[0].boot && !after[i].state.Deleted?
    requires forall i :: 0 <= i < |after| - 1 ==> after[i].sequence < after[i + 1].sequence
    requires Merge(before).value.boot != after[0].boot
    ensures Merge(before + after) == Some(after[|after| - 1])
  {
    var n := |after| - 1;
    if n > 0 {
      NewBootTakesOver(before, after[..n]);
      assert before + after == (before + after[..n]) + [after[n]];
      assert after[n - 1].sequence < after[n - 1 + 1].sequence;
      HeldAfterExactly(before + after[..n], after[n - 1], after[n]);
    } else {
      assert after == [after[0]];
      NewBootIsHeld(before, Merge(before).value, after[0]);
    }
    hide Merge;
  }

  // ----- when the order of arrival does not matter -----

  /** The two entries have one winner, whichever arrives first. */
  predicate Agree(e: Entry, f: Entry) {
    Meet(e, f) == Meet(f, e)
  }

  /** Each loses to the next, around a circle of three. */
  predicate Circle(e: Entry, f: Entry, g: Entry) {
    e != f && f != g && g != e && Meet(e, f) == f && Meet(f, g) == g && Meet(g, e) == e
  }

  ghost predicate Orderly(deltas: set<Entry>) {
    && (forall e, f :: e in deltas && f in deltas ==> Agree(e, f))
    && (forall e, f, g :: e in deltas && f in deltas && g in deltas ==> !Circle(e, f, g))
  }

  /** Any two arrivals of the same deltas, in any order and with any repetitions, end alike. */
  ghost predicate Converges(deltas: set<Entry>) {
    forall p: seq<Entry>, q: seq<Entry> ::
      p != [] && q != [] && (forall e :: e in p <==> e in q) && (forall e :: e in p ==> e in deltas) ==> Merge(p) == Merge(q)
  }

  /** The entry stands against each of the sequence. */
  ghost predicate Champion(m: Entry, deltas: seq<Entry>) {
    m in deltas && forall e :: e in deltas ==> Meet(m, e) == m
  }

  lemma {:induction false} MergeIsChampion(deltas: seq<Entry>, all: set<Entry>)
    requires deltas != [] && Orderly(all) && forall e :: e in deltas ==> e in all
    ensures Merge(deltas).Some? && Champion(Merge(deltas).value, deltas)
  {
    var front, last := deltas[..|deltas| - 1], deltas[|deltas| - 1];
    assert deltas == front + [last];
    if front != [] {
      MergeIsChampion(front, all);
      var m := Merge(front).value;
      hide Meet;
      MeetPicks(m, last);
      if Meet(m, last) == last {
        forall e | e in deltas ensures Meet(last, e) == last {
          StandsAgainst(m, last, e, all);
        }
      }
    } else {
      assert Merge(front) == None;
    }
  }

  lemma MeetPicks(e: Entry, f: Entry)
    ensures Meet(e, f) == e || Meet(e, f) == f
    ensures Meet(e, e) == e
  {
  }

  /** Whoever beats the champion beats all it beat: otherwise the three would form a circle. */
  lemma StandsAgainst(m: Entry, last: Entry, e: Entry, all: set<Entry>)
    requires Orderly(all) && m in all && last in all && e in all
    requires Meet(m, last) == last && (e == last || Meet(m, e) == m)
    ensures Meet(last, e) == last
  {
    MeetPicks(last, e);
    MeetPicks(last, last);
    assert Agree(m, last) && Agree(m, e) && Agree(last, e);
    hide Meet;
    assert !Circle(m, last, e);
  }

  lemma ChampionUnique(m: Entry, n: Entry, p: seq<Entry>, q: seq<Entry>, all: set<Entry>)
    requires Orderly(all) && Champion(m, p) && Champion(n, q)
    requires (forall e :: e in p <==> e in q) && forall e :: e in p ==> e in all
    ensures m == n
  {
    hide Meet;
    assert Agree(m, n);
  }

  lemma {:induction false} MergeOne(e: Entry)
    ensures Merge([e]) == Some(e)
  {
    assert [e][..0] == [];
  }

  lemma MergeTwo(e: Entry, f: Entry)
    ensures Merge([e, f]) == Some(Meet(e, f))
  {
    assert [e, f][..1] == [e];
    MergeOne(e);
    hide Meet;
  }

  lemma MergeThree(e: Entry, f: Entry, g: Entry)
    ensures Merge([e, f, g]) == Some(Meet(Meet(e, f), g))
  {
    assert [e, f, g][..2] == [e, f];
    MergeTwo(e, f);
    hide Meet;
  }

  /** The merge of a set of deltas is independent of order and repetition exactly when every two of
      them agree on a winner and no three form a circle. */
  lemma ConvergesExactly(deltas: set<Entry>)
    ensures Converges(deltas) <==> Orderly(deltas)
  {
    if Orderly(deltas) {
      OrderlyConverges(deltas);
    }
    if Converges(deltas) {
      ConvergentOrderly(deltas);
    }
  }

  lemma OrderlyConverges(deltas: set<Entry>)
    requires Orderly(deltas)
    ensures Converges(deltas)
  {
    hide Orderly;
    forall p: seq<Entry>, q: seq<Entry> |
      p != [] && q != [] && (forall e :: e in p <==> e in q) && (forall e :: e in p ==> e in deltas)
      ensures Merge(p) == Merge(q)
    {
      assert p[0] in q;
      MergeIsChampion(p, deltas);
      MergeIsChampion(q, deltas);
      hide Merge;
      ChampionUnique(Merge(p).value, Merge(q).value, p, q, deltas);
    }
  }

  lemma ConvergentOrderly(deltas: set<Entry>)
    requires Converges(deltas)
    ensures Orderly(deltas)
  {
    hide Meet; hide Merge;
    forall e, f | e in deltas && f in deltas ensures Agree(e, f) {
      var p, q := [e, f], [f, e];
      MergeTwo(e, f);
      MergeTwo(f, e);
      assert Merge(p) == Merge(q);
    }
    forall e, f, g | e in deltas && f in deltas && g in deltas ensures !Circle(e, f, g) {
      MergeThree(e, f, g);
      MergeThree(f, g, e);
      var p, q := [e, f, g], [f, g, e];
      assert forall x :: x in p <==> x in q;
      assert Merge(p) == Merge(q);
    }
  }

  // ----- what makes deltas orderly -----

  /** A tombstone and an available entry, in either order. */
  predicate Opposed(e: Entry, f: Entry) {
    (e.state.Deleted? && f.state.Available?) || (e.state.Available? && f.state.Deleted?)
  }

  /** Two entries have one winner exactly when they are the same; or are a tombstone and an available
      entry, of one boot or with the tombstone no older; or are of one boot with different sequences
      or stamps. */
  lemma AgreeExactly(e: Entry, f: Entry)
    ensures Agree(e, f) <==>
      || e == f
      || (e.state.Deleted? && f.state.Available? && e.updatedAt >= f.updatedAt)
      || (f.state.Deleted? && e.state.Available? && f.updatedAt >= e.updatedAt)
      || (e.boot == f.boot && (Opposed(e, f) || e.sequence != f.sequence || e.updatedAt != f.updatedAt))
  {
  }

  predicate Later(e: Entry, f: Entry) {
    e.sequence > f.sequence || (e.sequence == f.sequence && e.updatedAt > f.updatedAt)
  }

  /** Within one boot: an available entry follows a third entry that follows a tombstone, yet is no newer
      than the tombstone; and the third neither shadows the one nor is shadowed by the other. */
  predicate Tangled(available: Entry, tombstone: Entry, third: Entry) {
    && available.state.Available? && tombstone.state.Deleted? && tombstone.updatedAt >= available.updatedAt
    && available.boot == third.boot == tombstone.boot && Later(available, third) && Later(third, tombstone)
    && !(third.state.Deleted? && third.updatedAt >= available.updatedAt)
    && !(third.state.Available? && tombstone.updatedAt >= third.updatedAt)
  }

  /** Where every two agree, the only circles are tangles. */
  lemma CircleExactly(e: Entry, f: Entry, g: Entry)
    requires Agree(e, f) && Agree(f, g) && Agree(g, e)
    ensures Circle(e, f, g) <==> Tangled(e, f, g) || Tangled(f, g, e) || Tangled(g, e, f)
  {
    AgreeExactly(e, f);
    AgreeExactly(f, g);
    AgreeExactly(g, e);
  }

  /** So deltas converge exactly when every two agree and none are tangled, which can be read off
      their boots, sequences, stamps and states. */
  lemma ConvergesUntangled(deltas: set<Entry>)
    ensures Converges(deltas) <==>
      && (forall e, f :: e in deltas && f in deltas ==> Agree(e, f))
      && (forall a, d, x :: a in deltas && d in deltas && x in deltas ==> !Tangled(a, d, x))
  {
    ConvergesExactly(deltas);
    hide Converges; hide Agree; hide Circle; hide Tangled;
    if forall e, f :: e in deltas && f in deltas ==> Agree(e, f) {
      forall e, f, g | e in deltas && f in deltas && g in deltas
        ensures Circle(e, f, g) <==> Tangled(e, f, g) || Tangled(f, g, e) || Tangled(g, e, f)
      {
        CircleExactly(e, f, g);
      }
    }
  }

  /** One boot whose later deltas are also stamped later. */
  ghost predicate OneSteadyBoot(deltas: set<Entry>) {
    forall e, f :: e in deltas && f in deltas && e != f ==>
      && e.boot == f.boot && e.sequence != f.sequence
      && (e.sequence < f.sequence <==> e.updatedAt < f.updatedAt)
  }

  lemma SteadyMeet(deltas: set<Entry>, e: Entry, f: Entry)
    requires OneSteadyBoot(deltas) && e in deltas && f in deltas
    ensures Meet(e, f) == if e.sequence > f.sequence then e else f
  {
  }

  /** Deltas of one steady boot converge, and to the latest of them. */
  lemma SteadyBootConverges(deltas: set<Entry>, p: seq<Entry>)
    requires OneSteadyBoot(deltas) && p != [] && forall e :: e in p ==> e in deltas
    ensures Converges(deltas)
    ensures Merge(p).Some? && Merge(p).value in p && forall e :: e in p ==> e.sequence <= Merge(p).value.sequence
  {
    forall e, f | e in deltas && f in deltas ensures Agree(e, f) {
      SteadyMeet(deltas, e, f);
      SteadyMeet(deltas, f, e);
    }
    forall e, f, g | e in deltas && f in deltas && g in deltas ensures !Circle(e, f, g) {
      SteadyMeet(deltas, e, f);
      SteadyMeet(deltas, f, g);
      SteadyMeet(deltas, g, e);
    }
    OrderlyConverges(deltas);
    MergeIsChampion(p, deltas);
    var m := Merge(p).value;
    hide Merge; hide Meet;
    forall e | e in p ensures e.sequence <= m.sequence {
      SteadyMeet(deltas, m, e);
    }
  }

  /** Across a restart the order shows: with equal stamps the last arrival of two boots wins. */
  lemma TwoBootsDisagree(e: Entry, f: Entry)
    requires e.boot != f.boot && e != f && e.state.Available? && f.state.Available?
    ensures !Converges({e, f})
  {
    ConvergesExactly({e, f});
    assert !Agree(e, f);
  }

  /** So it does within one boot when a staged entry stands between a tombstone and an available
      entry of the same instant. */
  lemma StagedCircle(boot: string, t: int, digest: string)
    ensures var d, s, a := Entry(boot, 1, t, Deleted, 1, digest, ""), Entry(boot, 2, t, Staged, 2, digest, ""), Entry(boot, 3, t, Available, 2, digest, "");
      Circle(d, s, a) && !Converges({d, s, a})
  {
    var d, s, a := Entry(boot, 1, t, Deleted, 1, digest, ""), Entry(boot, 2, t, Staged, 2, digest, ""), Entry(boot, 3, t, Available, 2, digest, "");
    ConvergesExactly({d, s, a});
    assert Circle(d, s, a);
  }

  // ----- tombstones -----

  /** A tombstone no older than that. */
  predicate Gone(e: Entry, t: int) {
    e.state.Deleted? && e.updatedAt >= t
  }

  /** An available entry no newer than that, or a tombstone no older. */
  predicate Harmless(e: Entry, t: int) {
    (e.state.Available? && e.updatedAt <= t) || Gone(e, t)
  }

  /** Once a tombstone is held, one no older is held after any such arrivals, from any boots. */
  lemma {:induction false} TombstoneStands(before: seq<Entry>, after: seq<Entry>, t: int)
    requires Merge(before).Some? && Gone(Merge(before).value, t)
    requires forall e :: e in after ==> Harmless(e, t)
    ensures Merge(before + after).Some? && Gone(Merge(before + after).value, t)
  {
    if after == [] {
      assert before + after == before;
    } else {
      var front := after[..|after| - 1];
      assert (before + after)[..|before + after| - 1] == before + front;
      assert after[|after| - 1] in after;
      TombstoneStands(before, front, t);
    }
  }

  /** Whatever tombstone is held, it stands against all arrivals drawn from a set, exactly when every
      entry of the set is an available one no newer or a tombstone no older. */
  lemma TombstoneStandsExactly(arriving: set<Entry>, t: int)
    ensures (forall before, after: seq<Entry> ::
               Merge(before).Some? && Gone(Merge(before).value, t) && (forall e :: e in after ==> e in arriving) ==>
               Merge(before + after).Some? && Gone(Merge(before + after).value, t))
            <==> forall e :: e in arriving ==> Harmless(e, t)
  {
    if forall e :: e in arriving ==> Harmless(e, t) {
      forall before, after: seq<Entry> |
        Merge(before).Some? && Gone(Merge(before).value, t) && (forall e :: e in after ==> e in arriving)
        ensures Merge(before + after).Some? && Gone(Merge(before + after).value, t)
      {
        TombstoneStands(before, after, t);
      }
    } else {
      var e :| e in arriving && !Harmless(e, t);
      var d := Entry(e.boot + "'", e.sequence, t, Deleted, 0, "", "");
      MergeOne(d);
      MergeTwo(d, e);
      assert |d.boot| != |e.boot|;
      assert [d] + [e] == [d, e];
      assert Merge([d]).Some? && Gone(Merge([d]).value, t) && !Gone(Merge([d] + [e]).value, t);
      assert forall x :: x in [e] ==> x in arriving;
    }
  }

  /** An older tombstone of another boot replaces a newer one, and then an available entry stamped
      between the two replaces it. */
  lemma OlderTombstoneLetsAvailableIn(digest: string, older: int, between: int, newer: int)
    requires older < between <= newer
    ensures var d := Entry("b", 2, newer, Deleted, 1, digest, "");
      var o, a := Entry("c", 1, older, Deleted, 1, digest, ""), Entry("b", 1, between, Available, 1, digest, "");
      Merge([d, a]) == Some(d) && Merge([d, o, a]) == Some(a)
  {
    var d := Entry("b", 2, newer, Deleted, 1, digest, "");
    var o, a := Entry("c", 1, older, Deleted, 1, digest, ""), Entry("b", 1, between, Available, 1, digest, "");
    MergeTwo(d, a);
    MergeThree(d, o, a);
    assert "b"[0] != "c"[0];
  }

  /** A tombstone takes over from any available entry that is no newer, whatever the boots and sequences. */
  lemma TombstoneTakesOver(before: seq<Entry>, current: Entry, tombstone: Entry)
    requires Merge(before) == Some(current) && current.state.Available? && tombstone.state.Deleted?
    requires current.updatedAt <= tombstone.updatedAt
    ensures Merge(before + [tombstone]) == Some(tombstone)
  {
    assert (before + [tombstone])[..|before|] == before;
  }

  /** But a staged entry in between lets an older available entry of another boot back in. */
  lemma StagedLetsOlderBackIn(digest: string)
    ensures var d, s, a := Entry("b", 2, 9, Deleted, 1, digest, ""), Entry("c", 1, 9, Staged, 2, digest, ""), Entry("b", 1, 3, Available, 1, digest, "");
      Merge([d, s, a]) == Some(a)
  {
    var d, s, a := Entry("b", 2, 9, Deleted, 1, digest, ""), Entry("c", 1, 9, Staged, 2, digest, ""), Entry("b", 1, 3, Available, 1, digest, "");
    MergeThree(d, s, a);
    assert "b"[0] != "c"[0];
  }
}
