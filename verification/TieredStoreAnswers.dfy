/** When each operation of the tiered store succeeds, and what an admission does. */
module TieredStoreAnswers {
  import opened Outcomes
  import opened TieredStore

  // ----- manifests -----

  /** The text is that word, in capitals or not. */
  predicate Spells(s: string, word: string) {
    |s| == |word| && forall i :: 0 <= i < |s| ==> s[i] == word[i] || (s[i] as int == word[i] as int + 32 && 'A' <= word[i] <= 'Z')
  }

  lemma UpperSpells(s: string, word: string)
    requires forall i :: 0 <= i < |word| ==> 'A' <= word[i] <= 'Z'
    ensures Upper(s) == word <==> Spells(s, word)
  {
    if Upper(s) == word {
      forall i | 0 <= i < |s| ensures s[i] == word[i] || s[i] as int == word[i] as int + 32 {
        assert Upper(s)[i] == word[i];
      }
    }
    if Spells(s, word) {
      forall i | 0 <= i < |s| ensures Upper(s)[i] == word[i] {}
      assert Upper(s) == word;
    }
  }

  /** A consistency is one of three words, in capitals or not. */
  lemma ParseExactly(s: string)
    ensures ParseConsistency(s) == Some(One) <==> Spells(s, "ONE")
    ensures ParseConsistency(s) == Some(Quorum) <==> Spells(s, "QUORUM")
    ensures ParseConsistency(s) == Some(All) <==> Spells(s, "ALL")
  {
    UpperSpells(s, "ONE");
    UpperSpells(s, "QUORUM");
    UpperSpells(s, "ALL");
    hide Upper;
    assert |"ONE"| == 3 && |"ALL"| == 3 && |"QUORUM"| == 6;
    assert "ONE"[0] != "ALL"[0];
  }

  /** One, a majority, or all of the replicas, of which there must be some. */
  lemma AcksExactly(replication: nat, consistency: Option<Consistency>)
    ensures RequiredAcks(replication, consistency).Some? <==> replication > 0 && consistency.Some?
    ensures RequiredAcks(replication, consistency).Some? ==>
      var acks := RequiredAcks(replication, consistency).value;
      match consistency.value
      case One => acks == 1
      case Quorum => 2 * acks > replication && 2 * (acks - 1) <= replication
      case All => acks == replication
  {
  }

  // ----- the authority -----

  /** A manifest can be written out when it states its acknowledgements or they follow from the rest of it. */
  predicate Writable(m: Manifest) {
    m.acks > 0 || (m.replication > 0 && (Spells(m.consistency, "ONE") || Spells(m.consistency, "QUORUM") || Spells(m.consistency, "ALL")))
  }

  /** A write goes through exactly for a named, writable manifest in a transaction that does not fail, and sets that
      row alone. */
  lemma WriteExactly(rows: Rows, m: Manifest, payload: Bytes, fails: bool)
    ensures var r := Write(rows, m, payload, fails);
      && (r.Ok? <==> m.name != "" && Writable(m) && !fails)
      && (r == Err(EmptyName) <==> m.name == "") && (r == Err(Unwritable) <==> m.name != "" && !Writable(m))
      && (r == Err(TransactionFailed) <==> m.name != "" && Writable(m) && fails)
      && (r.Ok? ==>
            && r.value.Keys == rows.Keys + {m.name} && (forall n :: n in rows && n != m.name ==> r.value[n] == rows[n])
            && r.value[m.name].payload == payload && r.value[m.name].manifest.name == m.name)
  {
    ParseExactly(m.consistency);
    AcksExactly(m.replication, ParseConsistency(m.consistency));
    hide ParseConsistency; hide Spells; hide RequiredAcks;
  }

  /** A stored row is read back exactly when its replication and consistency have acknowledgements; a missing
      consistency counts as all. */
  lemma ReadExactly(rows: Rows, name: string)
    ensures var r := Read(rows, name);
      && (r == Err(NotFound) <==> name !in rows)
      && (name in rows ==>
            var m := rows[name].manifest;
            && (r.Ok? <==> m.replication > 0 && (m.consistency == "" || Spells(m.consistency, "ONE") || Spells(m.consistency, "QUORUM") || Spells(m.consistency, "ALL")))
            && (r.Err? ==> r.error == Unreadable) && (r.Ok? ==> r.value.payload == rows[name].payload && r.value.manifest.name == m.name))
  {
    if name in rows {
      var consistency := if rows[name].manifest.consistency == "" then "ALL" else rows[name].manifest.consistency;
      ParseExactly(consistency);
      AcksExactly(rows[name].manifest.replication, ParseConsistency(consistency));
      assert Spells("ALL", "ALL");
    }
    hide ParseConsistency; hide Spells; hide RequiredAcks;
  }

  // ----- admission -----

  /** An object is charged its payload, its name and its manifest's text, up to what 64 bits hold. */
  lemma ChargeExactly(t: Tier, o: Object)
    ensures var total := |o.payload| + |o.manifest.name| + t.jsonSize(o.manifest);
      Charge(t, o) <= total && Charge(t, o) < 0x1_0000_0000_0000_0000
      && (Charge(t, o) == total || Charge(t, o) == 0xFFFF_FFFF_FFFF_FFFF)
  {
  }

  lemma {:induction false} EvictionSpares(t: Tier, limit: int)
    ensures var e := EvictTo(t, limit);
      && e.rows == t.rows && e.budget == t.budget && e.jsonSize == t.jsonSize
      && e.counters == t.counters.(evictions := e.counters.evictions) && e.counters.evictions >= t.counters.evictions
    decreases |t.lru|
  {
    if t.lru != [] && t.used > limit {
      var name := t.lru[0];
      var freed := if name in t.cache && t.cache[name].charge <= t.used then t.cache[name].charge else 0;
      EvictionSpares(t.(used := t.used - freed, cache := t.cache - {name}, lru := t.lru[1..],
                        counters := t.counters.(evictions := t.counters.evictions + 1)), limit);
    }
  }

  /** With no budget, or for a manifest that cannot be written out, nothing happens; an object over the budget is
      counted and not cached; any other is cached at its charge as the most recent, and counted once. */
  lemma AdmitExactly(t: Tier, o: Object)
    ensures var a := Admit(t, o);
      && a.rows == t.rows && a.budget == t.budget
      && (t.budget == 0 || !Writable(o.manifest) ==> a == t)
      && (t.budget > 0 && Writable(o.manifest) && Charge(t, o) > t.budget ==>
            a == t.(counters := t.counters.(oversized := t.counters.oversized + 1)))
      && (t.budget > 0 && Writable(o.manifest) && Charge(t, o) <= t.budget ==>
            && o.manifest.name in a.cache && a.cache[o.manifest.name] == Entry(o, Charge(t, o))
            && a.lru != [] && a.lru[|a.lru| - 1] == o.manifest.name
            && a.counters.admissions == t.counters.admissions + 1 && a.counters.oversized == t.counters.oversized
            && a.counters.invalidations == t.counters.invalidations + (if o.manifest.name in t.cache then 1 else 0))
  {
    ParseExactly(o.manifest.consistency);
    AcksExactly(o.manifest.replication, ParseConsistency(o.manifest.consistency));
    hide ParseConsistency; hide Spells; hide RequiredAcks;
    EvictionSpares(Invalidate(t, o.manifest.name), t.budget - Charge(t, o));
    hide EvictTo; hide Without;
  }
}
