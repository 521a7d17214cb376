/** The repository's byte-bounded cache over its authoritative store, as functions on values. */
module TieredStore {
  import opened Outcomes

  type Bytes = seq<bv8>

  // ----- manifests and their stored text -----

  /** The fields that writing a manifest out and reading it back may change, and the rest. */
  datatype Manifest = Manifest(name: string, replication: nat, consistency: string, acks: nat, replicas: seq<string>,
                               confirmed: seq<string>, lifecycle: string, other: string)

  datatype Consistency = One | Quorum | All

  function Upper(s: string): string {
    seq(|s|, i requires 0 <= i < |s| => if 'a' <= s[i] <= 'z' then (s[i] as int - 32) as char else s[i])
  }

  function ParseConsistency(s: string): Option<Consistency> {
    if Upper(s) == "ONE" then Some(One) else if Upper(s) == "QUORUM" then Some(Quorum)
    else if Upper(s) == "ALL" then Some(All) else None
  }

  /** The acknowledgements a write needs; none for a replication factor of zero. */
  function RequiredAcks(replication: nat, consistency: Option<Consistency>): Option<nat> {
    if replication == 0 || consistency.None? then None
    else match consistency.value
      case One => Some(1)
      case Quorum => Some(replication / 2 + 1)
      case All => Some(replication)
  }

  function Defaulted(values: seq<string>, others: seq<string>): seq<string> {
    if values == [] then others else values
  }

  /** The manifest as written out: missing acknowledgements and confirmations are filled in. */
  function Encode(m: Manifest): Option<Manifest> {
    if m.acks != 0 then Some(m.(confirmed := Defaulted(m.confirmed, m.replicas)))
    else match RequiredAcks(m.replication, ParseConsistency(m.consistency))
      case None => None
      case Some(acks) => Some(m.(acks := acks, confirmed := Defaulted(m.confirmed, m.replicas)))
  }

  /** The manifest as read back; reading works out the acknowledgements even when they are given,
      and so fails for a consistency or replication factor that has none. */
  function Decode(j: Manifest): Option<Manifest> {
    var consistency := if j.consistency == "" then "ALL" else j.consistency;
    if RequiredAcks(j.replication, ParseConsistency(consistency)).None? then None
    else Some(j.(consistency := consistency, lifecycle := if j.lifecycle == "" then "COMMITTED" else j.lifecycle,
                 confirmed := Defaulted(j.confirmed, j.replicas)))
  }

  /** Writing the manifest out and reading it back gives it unchanged. */
  predicate Canonical(m: Manifest) {
    && m.acks != 0 && RequiredAcks(m.replication, ParseConsistency(m.consistency)).Some?
    && m.consistency != "" && m.lifecycle != "" && (m.confirmed != [] || m.replicas == [])
  }

  function RoundTrip(m: Manifest): Option<Manifest> {
    match Encode(m) case None => None case Some(j) => Decode(j)
  }

  // ----- the authority -----

  datatype Object = Object(manifest: Manifest, payload: Bytes)

  type Rows = map<string, Object>

  datatype Error = EmptyName | Unwritable | TransactionFailed | NotFound | Unreadable

  /** `fails` stands for a transaction the database refuses. */
  function Write(rows: Rows, m: Manifest, payload: Bytes, fails: bool): Result<Rows, Error> {
    if m.name == "" then Err(EmptyName)
    else match Encode(m)
      case None => Err(Unwritable)
      case Some(j) => if fails then Err(TransactionFailed) else Ok(rows[m.name := Object(j, payload)])
  }

  function Read(rows: Rows, name: string): Result<Object, Error> {
    if name !in rows then Err(NotFound)
    else match Decode(rows[name].manifest)
      case None => Err(Unreadable)
      case Some(m) => Ok(Object(m, rows[name].payload))
  }

  // ----- the cache -----

  datatype Entry = Entry(stored: Object, charge: nat)

  datatype Counters = Counters(hits: nat, misses: nat, admissions: nat, evictions: nat, invalidations: nat,
                               oversized: nat, backingReads: nat, backingWrites: nat)

  /** `lru` lists the cached names, least recently used first; `jsonSize` is the length of a
      manifest's text. */
  datatype Tier = Tier(budget: nat, jsonSize: Manifest -> nat, rows: Rows, cache: map<string, Entry>, lru: seq<string>,
                       used: nat, counters: Counters)

  const MAX_CHARGE: nat := 0xFFFF_FFFF_FFFF_FFFF

  function Charge(t: Tier, o: Object): nat {
    var total := |o.payload| + |o.manifest.name| + t.jsonSize(o.manifest);
    if total > MAX_CHARGE then MAX_CHARGE else total
  }

  function Without(lru: seq<string>, name: string): seq<string> {
    if lru == [] then []
    else if lru[0] == name then lru[1..]
    else [lru[0]] + Without(lru[1..], name)
  }

  function Invalidate(t: Tier, name: string): Tier {
    if name !in t.cache then t
    else t.(used := if t.used >= t.cache[name].charge then t.used - t.cache[name].charge else 0,
            lru := Without(t.lru, name), cache := t.cache - {name},
            counters := t.counters.(invalidations := t.counters.invalidations + 1))
  }

  /** Drop least recently used entries until at most `limit` bytes are used. */
  function EvictTo(t: Tier, limit: int): Tier
    decreases |t.lru|
  {
    if t.lru == [] || t.used <= limit then t
    else
      var name := t.lru[0];
      var freed := if name in t.cache && t.cache[name].charge <= t.used then t.cache[name].charge else 0;
      EvictTo(t.(used := t.used - freed, cache := t.cache - {name}, lru := t.lru[1..],
                 counters := t.counters.(evictions := t.counters.evictions + 1)), limit)
  }

  function Insert(t: Tier, o: Object): Tier {
    t.(cache := t.cache[o.manifest.name := Entry(o, Charge(t, o))], lru := t.lru + [o.manifest.name],
       used := t.used + Charge(t, o), counters := t.counters.(admissions := t.counters.admissions + 1))
  }

  function Admit(t: Tier, o: Object): Tier {
    if t.budget == 0 || Encode(o.manifest).None? then t
    else if Charge(t, o) > t.budget then t.(counters := t.counters.(oversized := t.counters.oversized + 1))
    else Insert(EvictTo(Invalidate(t, o.manifest.name), t.budget - Charge(t, o)), o)
  }

  // ----- operations -----

  datatype Op =
    | PutOp(manifest: Manifest, payload: Bytes, fails: bool)
    | PutManifestOp(manifest: Manifest, fails: bool)
    | GetOp(name: string)
    | EraseOp(name: string, fails: bool)
    | HasOp(name: string)
    | RestartOp

  datatype Reply = Done | Found(stored: Object) | Flag(value: bool) | Failed(error: Error)

  /** After a write the row is dropped from the cache and the new object admitted. */
  function Recache(t: Tier, rows: Rows, o: Object): Tier {
    var counted := t.(rows := rows, counters := t.counters.(backingWrites := t.counters.backingWrites + 1));
    Admit(Invalidate(counted, o.manifest.name), o)
  }

  function Put(t: Tier, m: Manifest, payload: Bytes, fails: bool): (Tier, Reply) {
    match Write(t.rows, m, payload, fails)
    case Err(e) => (t, Failed(e))
    case Ok(rows) => (Recache(t, rows, Object(m, payload)), Done)
  }

  function Touch(t: Tier, name: string): Tier {
    t.(lru := Without(t.lru, name) + [name], counters := t.counters.(hits := t.counters.hits + 1))
  }

  function Get(t: Tier, name: string): (Tier, Reply) {
    if name in t.cache then (Touch(t, name), Found(t.cache[name].stored))
    else
      var missed := t.(counters := t.counters.(misses := t.counters.misses + 1, backingReads := t.counters.backingReads + 1));
      match Read(t.rows, name)
      case Err(e) => (missed, Failed(e))
      case Ok(o) => (Admit(missed, o), Found(o))
  }

  function Erase(t: Tier, name: string, fails: bool): (Tier, Reply) {
    if fails then (t, Failed(TransactionFailed))
    else if name !in t.rows then (t, Flag(false))
    else
      var counted := t.(rows := t.rows - {name}, counters := t.counters.(backingWrites := t.counters.backingWrites + 1));
      (Invalidate(counted, name), Flag(true))
  }

  const NO_COUNTS := Counters(0, 0, 0, 0, 0, 0, 0, 0)

  function Restart(t: Tier): Tier {
    t.(cache := map[], lru := [], used := 0, counters := NO_COUNTS)
  }

  function Perform(t: Tier, op: Op): (Tier, Reply) {
    match op
    case PutOp(m, payload, fails) => Put(t, m, payload, fails)
    case PutManifestOp(m, fails) => Put(t, m, [], fails)
    case GetOp(name) => Get(t, name)
    case EraseOp(name, fails) => Erase(t, name, fails)
    case HasOp(name) => (t, Flag(name in t.rows))
    case RestartOp => (Restart(t), Done)
  }

  /** The same operation on the authority alone. */
  function PerformPlain(rows: Rows, op: Op): (Rows, Reply) {
    match op
    case PutOp(m, payload, fails) =>
      (match Write(rows, m, payload, fails) case Ok(next) => (next, Done) case Err(e) => (rows, Failed(e)))
    case PutManifestOp(m, fails) =>
      (match Write(rows, m, [], fails) case Ok(next) => (next, Done) case Err(e) => (rows, Failed(e)))
    case GetOp(name) =>
      (match Read(rows, name) case Ok(o) => (rows, Found(o)) case Err(e) => (rows, Failed(e)))
    case EraseOp(name, fails) =>
      if fails then (rows, Failed(TransactionFailed))
      else (rows - {name}, Flag(name in rows))
    case HasOp(name) => (rows, Flag(name in rows))
    case RestartOp => (rows, Done)
  }

  datatype History<S> = History(state: S, replies: seq<Reply>)

  function Run(t: Tier, ops: seq<Op>): History<Tier> {
    if ops == [] then History(t, [])
    else
      var before := Run(t, ops[..|ops| - 1]);
      var (next, reply) := Perform(before.state, ops[|ops| - 1]);
      History(next, before.replies + [reply])
  }

  function RunPlain(rows: Rows, ops: seq<Op>): History<Rows> {
    if ops == [] then History(rows, [])
    else
      var before := RunPlain(rows, ops[..|ops| - 1]);
      var (next, reply) := PerformPlain(before.state, ops[|ops| - 1]);
      History(next, before.replies + [reply])
  }

  function Fresh(budget: nat, jsonSize: Manifest -> nat): Tier {
    Tier(budget, jsonSize, map[], map[], [], 0, NO_COUNTS)
  }
}
