/** Signed packets kept under their exact names, shared by the objects that reference them, and
fetched as whole sets. */
module PacketStore {
  import opened Outcomes

  type Bytes = seq<bv8>

  datatype Packet = Packet(name: string, segment: nat, wire: Bytes)

  /** What a wire encodes: its name and segment number, if it decodes at all. */
  datatype Header = Header(name: string, segment: nat)
  type Decoder = Bytes -> Option<Header>

  /** Packet wires by name; and the names each object references, in segment order. */
  datatype Tables = Tables(packets: map<string, Bytes>, refs: map<string, seq<string>>)

  datatype Error = InvalidSet | WireConflict | NoSpace

  // ----- packet sets -----

  function LastSlash(name: string): int {
    if name == "" then -1
    else if name[|name| - 1] == '/' then |name| - 1
    else LastSlash(name[..|name| - 1])
  }

  lemma {:induction false} LastSlashBounds(name: string)
    ensures -1 <= LastSlash(name) < |name|
  {
    if name != "" && name[|name| - 1] != '/' {
      LastSlashBounds(name[..|name| - 1]);
    }
  }

  function Parent(name: string): string {
    LastSlashBounds(name);
    if LastSlash(name) < 0 then name else name[..LastSlash(name)]
  }

  predicate Honest(decode: Decoder, p: Packet) {
    decode(p.wire) == Some(Header(p.name, p.segment))
  }

  ghost predicate ValidSet(decode: Decoder, packets: seq<Packet>) {
    && packets != []
    && (forall i :: 0 <= i < |packets| ==> Honest(decode, packets[i]))
    && (forall i, j :: 0 <= i < j < |packets| ==>
          packets[i].name != packets[j].name && packets[i].segment != packets[j].segment)
    && (forall i, j :: 0 <= i < j < |packets| ==> Joined(packets[i], packets[j]))
  }

  /** Packets of one version: their names differ in the last component only. */
  predicate Joined(p: Packet, q: Packet) {
    Parent(p.name) == Parent(q.name) || Parent(p.name) == ""
  }

  // ----- ordering by segment -----

  function InsertBySegment(sorted: seq<Packet>, p: Packet): (r: seq<Packet>)
    ensures multiset(r) == multiset(sorted) + multiset{p}
  {
    if sorted == [] then [p]
    else if p.segment < sorted[0].segment then [p] + sorted
    else
      assert sorted == [sorted[0]] + sorted[1..];
      [sorted[0]] + InsertBySegment(sorted[1..], p)
  }

  function BySegment(packets: seq<Packet>): (r: seq<Packet>)
    ensures multiset(r) == multiset(packets)
  {
    if packets == [] then []
    else
      assert packets == packets[..|packets| - 1] + [packets[|packets| - 1]];
      InsertBySegment(BySegment(packets[..|packets| - 1]), packets[|packets| - 1])
  }

  ghost predicate Ascending(packets: seq<Packet>) {
    forall i, j :: 0 <= i < j < |packets| ==> packets[i].segment <= packets[j].segment
  }

  lemma InsertedMembers(sorted: seq<Packet>, p: Packet)
    ensures forall q :: q in InsertBySegment(sorted, p) ==> q == p || q in sorted
  {
    hide InsertBySegment;
    forall q | q in InsertBySegment(sorted, p) ensures q == p || q in sorted {
      assert q in multiset(InsertBySegment(sorted, p));
    }
  }

  lemma PrependAscending(p: Packet, rest: seq<Packet>)
    requires Ascending(rest) && forall k :: 0 <= k < |rest| ==> p.segment <= rest[k].segment
    ensures Ascending([p] + rest)
  {
  }

  lemma {:induction false} InsertAscending(sorted: seq<Packet>, p: Packet)
    requires Ascending(sorted)
    ensures Ascending(InsertBySegment(sorted, p))
  {
    if sorted != [] && p.segment >= sorted[0].segment {
      var rest := InsertBySegment(sorted[1..], p);
      InsertAscending(sorted[1..], p);
      var first := sorted[0].segment;
      assert forall k :: 0 <= k < |sorted[1..]| ==> first <= sorted[1..][k].segment;
      InsertedMembers(sorted[1..], p);
      hide InsertBySegment;
      assert forall k :: 0 <= k < |rest| ==> rest[k] == p || rest[k] in sorted[1..];
      PrependAscending(sorted[0], rest);
    }
  }

  /** The stored order: the same packets, by segment number. */
  lemma {:induction false} BySegmentAscending(packets: seq<Packet>)
    ensures Ascending(BySegment(packets)) && multiset(BySegment(packets)) == multiset(packets)
  {
    if packets != [] {
      BySegmentAscending(packets[..|packets| - 1]);
      InsertAscending(BySegment(packets[..|packets| - 1]), packets[|packets| - 1]);
    }
  }

  // ----- the tables -----

  function Referenced(refs: map<string, seq<string>>): set<string> {
    set o, n | o in refs && n in refs[o] :: n
  }

  lemma ReferencedAt(refs: map<string, seq<string>>, o: string, i: nat)
    requires o in refs && i < |refs[o]|
    ensures refs[o][i] in Referenced(refs)
  {
    var n := refs[o][i];
    assert o in refs && n in refs[o];
  }

  function Wires(packets: seq<Packet>): map<string, Bytes> {
    if packets == [] then map[]
    else Wires(packets[..|packets| - 1])[packets[|packets| - 1].name := packets[|packets| - 1].wire]
  }

  function Names(packets: seq<Packet>): (names: seq<string>)
    ensures |names| == |packets|
    ensures forall i :: 0 <= i < |names| ==> names[i] == packets[i].name
  {
    seq(|packets|, i requires 0 <= i < |packets| => packets[i].name)
  }

  /** Packets that no object references any more are dropped. */
  function Collected(packets: map<string, Bytes>, refs: map<string, seq<string>>): Tables {
    Tables(map n | n in packets && n in Referenced(refs) :: packets[n], refs)
  }

  predicate Contradicts(t: Tables, p: Packet) {
    p.name in t.packets && t.packets[p.name] != p.wire
  }

  /** A stored wire stays: inserting a name that is there already does nothing. */
  ghost function Persist(decode: Decoder, t: Tables, name: string, packets: seq<Packet>, fits: bool): Result<Tables, Error> {
    if !ValidSet(decode, packets) then Err(InvalidSet)
    else if exists p :: p in packets && Contradicts(t, p) then Err(WireConflict)
    else if !fits then Err(NoSpace)
    else
      var sorted := BySegment(packets);
      Ok(Collected(Wires(sorted) + t.packets, t.refs[name := Names(sorted)]))
  }

  /** An object deleted, or replaced by one that is not made of packets. */
  function Drop(t: Tables, name: string): Tables {
    Collected(t.packets, t.refs - {name})
  }

  datatype Op = PersistOp(name: string, packets: seq<Packet>, fits: bool) | DropOp(name: string)

  ghost function Perform(decode: Decoder, t: Tables, op: Op): Tables {
    match op
    case PersistOp(name, packets, fits) =>
      (match Persist(decode, t, name, packets, fits) case Ok(next) => next case Err(_) => t)
    case DropOp(name) => Drop(t, name)
  }

  ghost function Run(decode: Decoder, t: Tables, ops: seq<Op>): Tables {
    if ops == [] then t else Perform(decode, Run(decode, t, ops[..|ops| - 1]), ops[|ops| - 1])
  }

  // ----- what the tables keep -----

  /** Exactly the referenced packets are stored, each under the name its wire encodes. */
  ghost predicate Inv(decode: Decoder, t: Tables) {
    && t.packets.Keys == Referenced(t.refs)
    && forall n :: n in t.packets ==> Named(decode, t.packets[n], n)
  }

  lemma {:induction false} WiresAt(packets: seq<Packet>, i: nat)
    requires i < |packets| && forall j, k :: 0 <= j < k < |packets| ==> packets[j].name != packets[k].name
    ensures packets[i].name in Wires(packets) && Wires(packets)[packets[i].name] == packets[i].wire
  {
    var n := |packets| - 1;
    if i < n {
      WiresAt(packets[..n], i);
      assert packets[i].name != packets[n].name;
    }
  }

  lemma {:induction false} WiresName(packets: seq<Packet>, n: string)
    ensures n in Wires(packets) <==> n in Names(packets)
  {
    if packets != [] {
      WiresName(packets[..|packets| - 1], n);
      assert Names(packets) == Names(packets[..|packets| - 1]) + [packets[|packets| - 1].name];
    }
  }

  lemma WiresOf(packets: seq<Packet>)
    requires forall i, j :: 0 <= i < j < |packets| ==> packets[i].name != packets[j].name
    ensures forall n :: n in Wires(packets) <==> n in Names(packets)
    ensures forall p :: p in packets ==> p.name in Wires(packets) && Wires(packets)[p.name] == p.wire
  {
    hide Wires;
    forall n ensures n in Wires(packets) <==> n in Names(packets) {
      WiresName(packets, n);
    }
    forall p | p in packets ensures p.name in Wires(packets) && Wires(packets)[p.name] == p.wire {
      var i :| 0 <= i < |packets| && packets[i] == p;
      WiresAt(packets, i);
    }
  }

  /** Sorting keeps a valid set valid, and its members. */
  lemma SortedValid(decode: Decoder, packets: seq<Packet>)
    requires ValidSet(decode, packets)
    ensures forall p :: p in BySegment(packets) <==> p in packets
    ensures forall p :: p in BySegment(packets) ==> Honest(decode, p)
    ensures forall i, j :: 0 <= i < j < |BySegment(packets)| ==> BySegment(packets)[i].name != BySegment(packets)[j].name
  {
    var sorted := BySegment(packets);
    forall p ensures p in sorted <==> p in packets {
      assert p in multiset(sorted) <==> p in multiset(packets);
    }
    forall i, j | 0 <= i < j < |sorted| ensures sorted[i].name != sorted[j].name {
      SortedDistinct(decode, packets, i, j);
    }
  }

  lemma SortedDistinct(decode: Decoder, packets: seq<Packet>, i: nat, j: nat)
    requires ValidSet(decode, packets) && i < j < |BySegment(packets)|
    ensures BySegment(packets)[i].name != BySegment(packets)[j].name
  {
    var sorted := BySegment(packets);
    assert sorted[i] in multiset(packets) && sorted[j] in multiset(packets);
    if sorted[i] == sorted[j] {
      TwiceInSorted(sorted, i, j);
      OnceInValid(packets, sorted[i]);
    }
  }

  lemma TwiceInSorted(packets: seq<Packet>, i: nat, j: nat)
    requires i < j < |packets| && packets[i] == packets[j]
    ensures multiset(packets)[packets[i]] >= 2
  {
    assert packets == packets[..j] + [packets[j]] + packets[j + 1..];
    assert packets[i] in packets[..j];
    assert multiset(packets) == multiset(packets[..j]) + multiset{packets[j]} + multiset(packets[j + 1..]);
  }

  lemma {:induction false} OnceInValid(packets: seq<Packet>, p: Packet)
    requires forall i, j :: 0 <= i < j < |packets| ==> packets[i].name != packets[j].name
    ensures multiset(packets)[p] <= 1
  {
    if packets != [] {
      var front, last := packets[..|packets| - 1], packets[|packets| - 1];
      OnceInValid(front, p);
      assert packets == front + [last];
      assert multiset(packets) == multiset(front) + multiset{last};
      if last == p {
        assert p !in front;
      }
    }
  }

  /** Every packet of the set is stored with its wire. */
  lemma PersistStores(decode: Decoder, t: Tables, name: string, packets: seq<Packet>, fits: bool)
    requires Persist(decode, t, name, packets, fits).Ok?
    ensures var next := Persist(decode, t, name, packets, fits).value;
      && next.refs == t.refs[name := Names(BySegment(packets))]
      && forall i :: 0 <= i < |BySegment(packets)| ==>
           BySegment(packets)[i].name in next.packets && next.packets[BySegment(packets)[i].name] == BySegment(packets)[i].wire
  {
    var next := Persist(decode, t, name, packets, fits).value;
    var sorted := BySegment(packets);
    SortedValid(decode, packets);
    WiresOf(sorted);
    hide Wires; hide BySegment; hide ValidSet; hide Honest;
    forall i | 0 <= i < |sorted| ensures sorted[i].name in next.packets && next.packets[sorted[i].name] == sorted[i].wire {
      assert sorted[i] in sorted;
      ReferencedAt(next.refs, name, i);
      hide Referenced;
      assert !Contradicts(t, sorted[i]);
    }
  }

  lemma PersistKeeps(decode: Decoder, t: Tables, name: string, packets: seq<Packet>, fits: bool)
    requires Inv(decode, t) && Persist(decode, t, name, packets, fits).Ok?
    ensures Inv(decode, Persist(decode, t, name, packets, fits).value)
  {
    var sorted := BySegment(packets);
    SortedValid(decode, packets);
    WiresOf(sorted);
    hide Wires; hide BySegment; hide ValidSet; hide Referenced; hide Honest;
    var all, refs := Wires(sorted) + t.packets, t.refs[name := Names(sorted)];
    forall n | n in Referenced(refs) ensures n in all {
      StillReferenced(t.refs, name, Names(sorted), n);
    }
    forall n | n in all ensures Named(decode, all[n], n) {
      if n !in t.packets {
        WireNamed(decode, sorted, n);
      }
    }
  }

  /** The wire encodes the name. */
  predicate Named(decode: Decoder, wire: Bytes, n: string) {
    decode(wire).Some? && decode(wire).value.name == n
  }

  lemma WireNamed(decode: Decoder, sorted: seq<Packet>, n: string)
    requires n in Names(sorted) && forall p :: p in sorted ==> Honest(decode, p)
    requires forall p :: p in sorted ==> p.name in Wires(sorted) && Wires(sorted)[p.name] == p.wire
    ensures n in Wires(sorted) && Named(decode, Wires(sorted)[n], n)
  {
    hide Wires;
    var i :| 0 <= i < |sorted| && Names(sorted)[i] == n;
    assert sorted[i] in sorted;
  }

  /** A name referenced after the update is one of the new names or was referenced before. */
  lemma StillReferenced(refs: map<string, seq<string>>, name: string, names: seq<string>, n: string)
    requires n in Referenced(refs[name := names])
    ensures n in names || n in Referenced(refs)
  {
    var o :| o in refs[name := names] && n in refs[name := names][o];
    if o != name {
      assert o in refs && n in refs[o];
    }
  }

  lemma DropKeeps(decode: Decoder, t: Tables, name: string)
    requires Inv(decode, t)
    ensures Inv(decode, Drop(t, name))
  {
    var next := Drop(t, name);
    forall n | n in Referenced(next.refs) ensures n in t.packets {
      var o :| o in next.refs && n in next.refs[o];
      assert o in t.refs && n in t.refs[o];
    }
  }

  lemma PerformKeeps(decode: Decoder, t: Tables, op: Op)
    requires Inv(decode, t)
    ensures Inv(decode, Perform(decode, t, op))
  {
    hide Persist; hide Drop; hide Inv;
    match op {
      case PersistOp(name, packets, fits) =>
        if Persist(decode, t, name, packets, fits).Ok? { PersistKeeps(decode, t, name, packets, fits); }
      case DropOp(name) => DropKeeps(decode, t, name);
    }
  }

  lemma {:induction false} RunKeepsFrom(decode: Decoder, t: Tables, ops: seq<Op>)
    requires Inv(decode, t)
    ensures Inv(decode, Run(decode, t, ops))
  {
    if ops != [] {
      hide Perform; hide Inv;
      RunKeepsFrom(decode, t, ops[..|ops| - 1]);
      PerformKeeps(decode, Run(decode, t, ops[..|ops| - 1]), ops[|ops| - 1]);
    }
  }

  lemma RunKeeps(decode: Decoder, ops: seq<Op>)
    ensures Inv(decode, Run(decode, Tables(map[], map[]), ops))
  {
    RunKeepsFrom(decode, Tables(map[], map[]), ops);
  }

  // ----- write-once names -----

  lemma PerformImmutable(decode: Decoder, t: Tables, op: Op, n: string)
    requires n in t.packets && n in Perform(decode, t, op).packets
    ensures Perform(decode, t, op).packets[n] == t.packets[n]
  {
    hide ValidSet; hide Wires; hide BySegment; hide Referenced;
  }

  /** A wire never changes under its name for as long as any object references it. */
  lemma {:induction false} HeldWireNeverChanges(decode: Decoder, t: Tables, ops: seq<Op>, n: string)
    requires forall k :: 0 <= k <= |ops| ==> n in Run(decode, t, ops[..k]).packets
    ensures n in t.packets && n in Run(decode, t, ops).packets && Run(decode, t, ops).packets[n] == t.packets[n]
  {
    assert ops[..0] == [] && ops[..|ops|] == ops;
    assert Run(decode, t, []) == t;
    if ops != [] {
      var front := ops[..|ops| - 1];
      forall k | 0 <= k <= |front| ensures n in Run(decode, t, front[..k]).packets {
        assert front[..k] == ops[..k];
      }
      HeldWireNeverChanges(decode, t, front, n);
      hide Perform;
      PerformImmutable(decode, Run(decode, t, front), ops[|ops| - 1], n);
    }
  }

  /** A lone packet is accepted under a name that is not stored. */
  lemma PersistsLone(decode: Decoder, t: Tables, name: string, q: Packet)
    requires Honest(decode, q) && q.name !in t.packets
    ensures var next := Perform(decode, t, PersistOp(name, [q], true));
      && q.name in next.packets && next.packets[q.name] == q.wire && next.refs == t.refs[name := [q.name]]
      && forall n :: n in next.packets ==> n == q.name || n in t.packets
  {
    assert ValidSet(decode, [q]);
    assert [q][..0] == [];
    assert BySegment([q]) == [q];
    assert Wires([q]) == map[q.name := q.wire];
    assert Names([q]) == [q.name];
    forall p | p in [q] ensures !Contradicts(t, p) {}
    var refs := t.refs[name := [q.name]];
    assert name in refs && q.name in refs[name];
    hide BySegment; hide Wires; hide ValidSet;
    assert Persist(decode, t, name, [q], true) == Ok(Collected(map[q.name := q.wire] + t.packets, refs));
  }

  /** The name is stored in both, with different wires. */
  ghost predicate Rewritten(t: Tables, u: Tables, n: string) {
    n in t.packets && n in u.packets && u.packets[n] != t.packets[n]
  }

  lemma RewrittenWasGone(decode: Decoder, t: Tables, ops: seq<Op>, k: nat, op: Op, n: string)
    requires k <= |ops| && Rewritten(t, Perform(decode, Run(decode, t, ops[..k]), op), n)
    ensures exists j: nat :: j <= k && n !in Run(decode, t, ops[..j]).packets
  {
    hide Run; hide Perform;
    if forall j: nat :: j <= k ==> n in Run(decode, t, ops[..j]).packets {
      forall j | 0 <= j <= k ensures ops[..k][..j] == ops[..j] {}
      HeldWireNeverChanges(decode, t, ops[..k], n);
      PerformImmutable(decode, Run(decode, t, ops[..k]), op, n);
      assert false;
    }
  }

  lemma StoredWhileReferenced(decode: Decoder, t: Tables, ops: seq<Op>, n: string)
    requires Inv(decode, t)
    ensures n in Run(decode, t, ops).packets <==> n in Referenced(Run(decode, t, ops).refs)
  {
    hide Run; hide Referenced;
    RunKeepsFrom(decode, t, ops);
  }

  /** In a run from a state that stores the name, the next operation can leave it with another wire
      exactly when some state of the run no longer references it, and another wire encodes it. */
  lemma WireChangesExactly(decode: Decoder, t: Tables, ops: seq<Op>, q: Packet)
    requires Inv(decode, t) && q.name in t.packets && Honest(decode, q) && q.wire != t.packets[q.name]
    ensures (exists k: nat, op :: k <= |ops| && Rewritten(t, Perform(decode, Run(decode, t, ops[..k]), op), q.name))
            <==> exists k: nat :: k <= |ops| && q.name !in Referenced(Run(decode, t, ops[..k]).refs)
  {
    hide Run; hide Referenced; hide Perform; hide Honest; hide Inv;
    if k: nat, op :| k <= |ops| && Rewritten(t, Perform(decode, Run(decode, t, ops[..k]), op), q.name) {
      RewrittenWasGone(decode, t, ops, k, op, q.name);
      var j: nat :| j <= k && q.name !in Run(decode, t, ops[..j]).packets;
      StoredWhileReferenced(decode, t, ops[..j], q.name);
    }
    if k: nat :| k <= |ops| && q.name !in Referenced(Run(decode, t, ops[..k]).refs) {
      StoredWhileReferenced(decode, t, ops[..k], q.name);
      PersistsLone(decode, Run(decode, t, ops[..k]), "", q);
      assert Rewritten(t, Perform(decode, Run(decode, t, ops[..k]), PersistOp("", [q], true)), q.name);
    }
  }

  /** So a dropped name may come back with another wire. */
  lemma DroppedNameReturns(decode: Decoder, name: string, p: Packet, q: Packet)
    requires Honest(decode, p) && Honest(decode, q) && p.name == q.name && p.wire != q.wire
    ensures var empty := Tables(map[], map[]);
      var ops := [PersistOp(name, [p], true), DropOp(name), PersistOp(name, [q], true)];
      && p.name in Run(decode, empty, ops[..1]).packets && Run(decode, empty, ops[..1]).packets[p.name] == p.wire
      && p.name in Run(decode, empty, ops).packets && Run(decode, empty, ops).packets[p.name] == q.wire
  {
    var empty := Tables(map[], map[]);
    var ops := [PersistOp(name, [p], true), DropOp(name), PersistOp(name, [q], true)];
    assert ops[..2][..1] == ops[..1] && ops[..1][..0] == [];
    hide Honest;
    PersistsLone(decode, empty, name, p);
    var one := Perform(decode, empty, ops[0]);
    var two := Drop(one, name);
    hide Persist;
    assert two.refs == map[];
    assert p.name !in two.packets;
    PersistsLone(decode, two, name, q);
    hide Perform;
    assert Run(decode, empty, ops[..0]) == empty;
    assert Run(decode, empty, ops[..1]) == one;
    assert Run(decode, empty, ops[..2]) == Perform(decode, one, ops[1]);
    assert Perform(decode, one, ops[1]) == two by { PerformsDrop(decode, one, name); }
    assert Run(decode, empty, ops) == Perform(decode, two, ops[2]);
  }

  lemma PerformsDrop(decode: Decoder, t: Tables, name: string)
    ensures Perform(decode, t, DropOp(name)) == Drop(t, name)
  {
  }

  /** Another wire for a stored name is refused, and only that and an invalid set are, space permitting. */
  lemma ConflictExactly(decode: Decoder, t: Tables, name: string, packets: seq<Packet>)
    requires ValidSet(decode, packets)
    ensures Persist(decode, t, name, packets, true).Ok? <==>
      forall p :: p in packets && p.name in t.packets ==> t.packets[p.name] == p.wire
  {
    hide ValidSet; hide Wires; hide BySegment; hide Referenced;
    if exists p :: p in packets && Contradicts(t, p) {
      var p :| p in packets && Contradicts(t, p);
    } else {
      forall p | p in packets && p.name in t.packets ensures t.packets[p.name] == p.wire {
        assert !Contradicts(t, p);
      }
    }
  }

  // ----- which sets are accepted -----

  lemma {:induction false} LastSlashExactly(name: string)
    ensures LastSlash(name) == -1 <==> '/' !in name
    ensures LastSlash(name) >= 0 ==> LastSlash(name) < |name| && name[LastSlash(name)] == '/' && '/' !in name[LastSlash(name) + 1..]
  {
    LastSlashBounds(name);
    if name != "" {
      var n := |name| - 1;
      assert name == name[..n] + [name[n]];
      if name[n] != '/' {
        LastSlashExactly(name[..n]);
        LastSlashBounds(name[..n]);
        var k := LastSlash(name[..n]);
        if k >= 0 {
          assert name[k + 1..] == name[..n][k + 1..] + [name[n]];
        }
      }
    }
  }

  /** A packet's version is its name up to the last slash, or the name itself when it has none. */
  ghost predicate VersionOf(name: string, version: string) {
    || ('/' !in name && version == name)
    || exists last :: '/' !in last && name == version + "/" + last
  }

  lemma ParentExactly(name: string)
    ensures VersionOf(name, Parent(name))
    ensures forall version :: VersionOf(name, version) ==> version == Parent(name)
  {
    LastSlashExactly(name);
    LastSlashBounds(name);
    var k := LastSlash(name);
    if k >= 0 {
      var last := name[k + 1..];
      assert name == name[..k] + "/" + last;
    }
    forall version | VersionOf(name, version) ensures version == Parent(name) {
      if last :| '/' !in last && name == version + "/" + last {
        assert name[|version|] == '/';
        assert name[|version| + 1..] == last;
        assert k >= |version|;
        forall j | |version| < j < |name| ensures name[j] != '/' {
          assert name[j] == last[j - |version| - 1];
        }
      }
    }
  }

  /** All names are of one version, but that those of the empty version may come before others. */
  ghost predicate OneVersion(packets: seq<Packet>) {
    forall i, j, v, w :: 0 <= i < j < |packets| && VersionOf(packets[i].name, v) && VersionOf(packets[j].name, w) ==> v == w || v == ""
  }

  /** A set is stored exactly when it is not empty; each packet's wire encodes its name and segment; no two have
      a name or a segment in common; all are of one version; no stored name comes with another wire; and there
      is room. The first of these that fails is the error. */
  lemma PersistExactly(decode: Decoder, t: Tables, name: string, packets: seq<Packet>, fits: bool)
    ensures var r := Persist(decode, t, name, packets, fits);
      && (r.Ok? <==> GoodSet(decode, packets) && !Clashes(t, packets) && fits)
      && (r == Err(InvalidSet) <==> !GoodSet(decode, packets))
      && (r == Err(WireConflict) <==> GoodSet(decode, packets) && Clashes(t, packets))
      && (r == Err(NoSpace) <==> GoodSet(decode, packets) && !Clashes(t, packets) && !fits)
  {
    GoodExactly(decode, packets);
    hide ValidSet; hide GoodSet; hide Wires; hide BySegment; hide Referenced;
    forall p ensures Contradicts(t, p) <==> p.name in t.packets && t.packets[p.name] != p.wire {}
    hide Contradicts;
  }

  ghost predicate GoodSet(decode: Decoder, packets: seq<Packet>) {
    && |packets| > 0
    && (forall i :: 0 <= i < |packets| ==> decode(packets[i].wire) == Some(Header(packets[i].name, packets[i].segment)))
    && (forall i, j :: 0 <= i < j < |packets| ==> packets[i].name != packets[j].name)
    && (forall i, j :: 0 <= i < j < |packets| ==> packets[i].segment != packets[j].segment)
    && OneVersion(packets)
  }

  ghost predicate Clashes(t: Tables, packets: seq<Packet>) {
    exists p :: p in packets && p.name in t.packets && t.packets[p.name] != p.wire
  }

  lemma GoodExactly(decode: Decoder, packets: seq<Packet>)
    ensures ValidSet(decode, packets) <==> GoodSet(decode, packets)
  {
    forall n ensures VersionOf(n, Parent(n)) && forall version :: VersionOf(n, version) ==> version == Parent(n) {
      ParentExactly(n);
    }
    hide VersionOf; hide Parent;
    assert OneVersion(packets) <==> forall i, j :: 0 <= i < j < |packets| ==> Joined(packets[i], packets[j]);
    hide OneVersion;
  }

  // ----- whole objects -----

  /** The object's wires in the stored order. */
  function Load(t: Tables, name: string): Option<seq<Bytes>> {
    if name !in t.refs || (exists i :: 0 <= i < |t.refs[name]| && t.refs[name][i] !in t.packets) then None
    else Some(seq(|t.refs[name]|, i requires 0 <= i < |t.refs[name]| && t.refs[name][i] in t.packets => t.packets[t.refs[name][i]]))
  }

  /** What is persisted is what is loaded: the same wires, in segment order. */
  lemma LoadsWhatWasStored(decode: Decoder, t: Tables, name: string, packets: seq<Packet>, fits: bool)
    requires Inv(decode, t) && Persist(decode, t, name, packets, fits).Ok?
    ensures var next := Persist(decode, t, name, packets, fits).value;
      var sorted := BySegment(packets);
      && Load(next, name).Some? && |Load(next, name).value| == |sorted|
      && (forall i :: 0 <= i < |sorted| ==> next.refs[name][i] == sorted[i].name && Load(next, name).value[i] == sorted[i].wire)
  {
    PersistStores(decode, t, name, packets, fits);
    hide Persist; hide BySegment;
    var next := Persist(decode, t, name, packets, fits).value;
    var sorted := BySegment(packets);
    assert next.refs[name] == Names(sorted);
    assert forall i :: 0 <= i < |sorted| ==> next.refs[name][i] in next.packets;
  }

  /** Storing or dropping one object leaves every other object's packets as they were, shared ones included. */
  lemma OthersUnaffected(decode: Decoder, t: Tables, op: Op, other: string)
    requires Inv(decode, t) && other != op.name
    ensures Load(Perform(decode, t, op), other) == Load(t, other)
  {
    var next := Perform(decode, t, op);
    hide ValidSet; hide Wires; hide BySegment;
    if other in t.refs {
      assert next.refs[other] == t.refs[other];
      forall i | 0 <= i < |t.refs[other]|
        ensures t.refs[other][i] in t.packets && t.refs[other][i] in next.packets
        ensures next.packets[t.refs[other][i]] == t.packets[t.refs[other][i]]
      {
        ReferencedAt(t.refs, other, i);
        ReferencedAt(next.refs, other, i);
      }
      assert Load(t, other).Some? && Load(next, other).Some?;
      assert Load(next, other).value == Load(t, other).value;
    }
  }

  /** Persisting the same set again changes nothing. */
  lemma PersistAgain(decode: Decoder, t: Tables, name: string, packets: seq<Packet>)
    requires Inv(decode, t) && Persist(decode, t, name, packets, true).Ok?
    ensures var next := Persist(decode, t, name, packets, true).value;
      Persist(decode, next, name, packets, true) == Ok(next)
  {
    var next := Persist(decode, t, name, packets, true).value;
    var sorted := BySegment(packets);
    PersistKeeps(decode, t, name, packets, true);
    PersistStores(decode, t, name, packets, true);
    PersistValid(decode, t, name, packets);
    hide Persist; hide Wires; hide BySegment; hide ValidSet; hide Referenced; hide Collected;
    forall p | p in packets ensures !Contradicts(next, p) {
      StoredWire(next, packets, p);
    }
    PersistUnfolds(decode, next, name, packets);
    assert next.refs[name := Names(sorted)] == next.refs;
    CollectedAgain(next, Wires(sorted) + next.packets);
  }

  lemma StoredWire(next: Tables, packets: seq<Packet>, p: Packet)
    requires p in packets
    requires forall i :: 0 <= i < |BySegment(packets)| ==>
      BySegment(packets)[i].name in next.packets && next.packets[BySegment(packets)[i].name] == BySegment(packets)[i].wire
    ensures !Contradicts(next, p)
  {
    var sorted := BySegment(packets);
    hide BySegment;
    assert p in multiset(packets);
    assert p in multiset(sorted);
    var i :| 0 <= i < |sorted| && sorted[i] == p;
  }

  lemma PersistValid(decode: Decoder, t: Tables, name: string, packets: seq<Packet>)
    requires Persist(decode, t, name, packets, true).Ok?
    ensures ValidSet(decode, packets)
  {
  }

  lemma PersistUnfolds(decode: Decoder, t: Tables, name: string, packets: seq<Packet>)
    requires ValidSet(decode, packets) && forall p :: p in packets ==> !Contradicts(t, p)
    ensures Persist(decode, t, name, packets, true)
         == Ok(Collected(Wires(BySegment(packets)) + t.packets, t.refs[name := Names(BySegment(packets))]))
  {
    hide ValidSet; hide Collected; hide Wires; hide BySegment; hide Contradicts;
  }

  /** Collecting what is stored already, with nothing new referenced, gives it back. */
  lemma CollectedAgain(t: Tables, all: map<string, Bytes>)
    requires t.packets.Keys == Referenced(t.refs)
    requires forall n :: n in t.packets ==> n in all && all[n] == t.packets[n]
    ensures Collected(all, t.refs) == t
  {
    hide Referenced;
    assert Collected(all, t.refs).packets == t.packets;
  }

  // ----- fetching a set with failover -----

  /** What a replica answers for a name; nothing when it is missing, late or refused. */
  type Fetcher = (string, string) -> Option<Packet>

  datatype FetchError = EmptyIndex | CountMismatch | DuplicateNames | NoReplicas | NoneCouldServe

  predicate Exact(decode: Decoder, name: string, answer: Option<Packet>) {
    answer.Some? && answer.value.name == name && decode(answer.value.wire).Some? && decode(answer.value.wire).value.name == name
  }

  /** An exact answer is a packet that is called by the name and whose wire encodes it. */
  lemma ExactExactly(decode: Decoder, name: string, answer: Option<Packet>)
    ensures Exact(decode, name, answer) <==>
      exists p: Packet, segment: nat :: answer == Some(p) && p.name == name && decode(p.wire) == Some(Header(name, segment))
  {
    if Exact(decode, name, answer) {
      assert decode(answer.value.wire) == Some(Header(name, decode(answer.value.wire).value.segment));
    }
  }

  /** The replica answers every name exactly. */
  predicate Serves(decode: Decoder, fetch: Fetcher, replica: string, names: seq<string>) {
    forall i :: 0 <= i < |names| ==> Exact(decode, names[i], fetch(replica, names[i]))
  }

  predicate GoodIndex(names: seq<string>, segmentCount: nat) {
    names != [] && |names| == segmentCount && forall i, j :: 0 <= i < j < |names| ==> names[i] != names[j]
  }

  /** Succeeds exactly when the index is good and some replica serves the whole set; what is returned
      is every name's packet, in order, all from the first such replica. */
  method FetchSignedPackets(decode: Decoder, fetch: Fetcher, names: seq<string>, segmentCount: nat, replicas: seq<string>)
    returns (r: Result<seq<Packet>, FetchError>)
    ensures r.Ok? <==> GoodIndex(names, segmentCount) && exists k :: 0 <= k < |replicas| && Serves(decode, fetch, replicas[k], names)
    ensures r.Ok? ==> |r.value| == |names| && exists k ::
      && 0 <= k < |replicas| && Serves(decode, fetch, replicas[k], names)
      && (forall j :: 0 <= j < k ==> !Serves(decode, fetch, replicas[j], names))
      && forall i :: 0 <= i < |names| ==>
           && r.value[i].name == names[i] && r.value[i].wire == fetch(replicas[k], names[i]).value.wire
           && decode(r.value[i].wire) == Some(Header(names[i], r.value[i].segment))
    ensures r == Err(EmptyIndex) <==> names == []
    ensures r == Err(CountMismatch) <==> names != [] && |names| != segmentCount
    ensures r == Err(DuplicateNames) <==>
      names != [] && |names| == segmentCount && exists i, j :: 0 <= i < j < |names| && names[i] == names[j]
    ensures r == Err(NoReplicas) <==> GoodIndex(names, segmentCount) && replicas == []
  {
    if names == [] { return Err(EmptyIndex); }
    if |names| != segmentCount { return Err(CountMismatch); }
    if exists i, j :: 0 <= i < |names| && i < j < |names| && names[i] == names[j] { return Err(DuplicateNames); }
    if replicas == [] { return Err(NoReplicas); }
    for k := 0 to |replicas|
      invariant forall j :: 0 <= j < k ==> !Serves(decode, fetch, replicas[j], names)
    {
      var packets: seq<Packet> := [];
      var n := 0;
      while n < |names| && Exact(decode, names[n], fetch(replicas[k], names[n]))
        invariant n <= |names| && |packets| == n
        invariant forall i :: 0 <= i < n ==> Exact(decode, names[i], fetch(replicas[k], names[i]))
        invariant forall i :: 0 <= i < n ==> packets[i].name == names[i] && packets[i].wire == fetch(replicas[k], names[i]).value.wire
        invariant forall i :: 0 <= i < n ==> decode(packets[i].wire) == Some(Header(names[i], packets[i].segment))
      {
        var packet := fetch(replicas[k], names[n]).value;
        var header := decode(packet.wire).value;
        packets := packets + [Packet(header.name, header.segment, packet.wire)];
        n := n + 1;
      }
      if n == |names| {
        assert Serves(decode, fetch, replicas[k], names);
        return Ok(packets);
      }
      assert !Serves(decode, fetch, replicas[k], names);
    }
    r := Err(NoneCouldServe);
  }

  /** A replica answering from its tables. */
  predicate AnswersFrom(fetch: Fetcher, replica: string, t: Tables) {
    forall n: string :: n in t.packets ==> fetch(replica, n).Some? && fetch(replica, n).value.name == n && fetch(replica, n).value.wire == t.packets[n]
  }

  /** A replica that has stored the object serves its whole set, with the wires that were stored. */
  lemma StoredSetIsServed(decode: Decoder, fetch: Fetcher, replica: string, t: Tables, name: string)
    requires Inv(decode, t) && AnswersFrom(fetch, replica, t) && name in t.refs
    ensures Serves(decode, fetch, replica, t.refs[name])
    ensures Load(t, name).Some?
    ensures forall i :: 0 <= i < |t.refs[name]| ==> fetch(replica, t.refs[name][i]).value.wire == Load(t, name).value[i]
  {
    forall i | 0 <= i < |t.refs[name]| ensures t.refs[name][i] in t.packets {
      ReferencedAt(t.refs, name, i);
    }
  }
}
