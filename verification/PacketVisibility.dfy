/** Which packets a fetch by exact packet name makes readable. */
module PacketVisibility {
  import opened Outcomes
  import opened PacketStore

  // ----- versions -----

  const SEG := "/seg="

  predicate SegAt(name: string, i: nat) {
    i + |SEG| <= |name| && name[i..i + |SEG|] == SEG
  }

  /** Where the last segment component begins, at or below that position; none is the whole length. */
  function LastSeg(name: string, below: nat): (i: nat)
    ensures i == |name| || SegAt(name, i)
  {
    if SegAt(name, below) then below
    else if below == 0 then |name|
    else LastSeg(name, below - 1)
  }

  /** The name without its segment component, if it has one. */
  function Version(name: string): string {
    name[..LastSeg(name, |name|)]
  }

  /** The name lies under the version that the other names. */
  predicate Under(n: string, name: string) {
    |Version(name)| < |n| && n[..|Version(name)|] == Version(name) && n[|Version(name)|] == '/'
  }

  lemma {:induction false} LastSegIsLast(name: string, below: nat, k: nat)
    requires k <= below <= |name| && SegAt(name, k)
    ensures SegAt(name, LastSeg(name, below)) && k <= LastSeg(name, below) <= below
    ensures forall i :: LastSeg(name, below) < i <= below ==> !SegAt(name, i)
  {
    if !SegAt(name, below) {
      LastSegIsLast(name, below - 1, k);
    }
  }

  lemma {:induction false} NoSeg(name: string, below: nat)
    requires below <= |name| && forall i: nat :: i <= below ==> !SegAt(name, i)
    ensures LastSeg(name, below) == |name|
  {
    if below > 0 {
      NoSeg(name, below - 1);
    }
  }

  predicate SegmentAt(name: string, at: nat) {
    at + 5 <= |name| && name[at..at + 5] == "/seg="
  }

  /** The name's segment component begins there, and none begins later. */
  ghost predicate SegmentFrom(name: string, at: nat) {
    SegmentAt(name, at) && forall i: nat :: at < i ==> !SegmentAt(name, i)
  }

  /** A name's version is all before its last segment component, or the whole name when it has none. */
  lemma VersionExactly(name: string)
    ensures forall at: nat :: SegmentFrom(name, at) ==> Version(name) == name[..at]
    ensures (forall at: nat :: !SegmentAt(name, at)) ==> Version(name) == name
  {
    forall i: nat ensures SegAt(name, i) <==> SegmentAt(name, i) {}
    forall at: nat | SegmentFrom(name, at) ensures Version(name) == name[..at] {
      LastSegIsLast(name, |name|, at);
    }
    if forall at: nat :: !SegmentAt(name, at) {
      NoSeg(name, |name|);
    }
  }

  /** A name lies under a version that is followed in it by a slash. */
  lemma UnderExactly(n: string, name: string)
    ensures Under(n, name) <==> exists rest :: n == Version(name) + "/" + rest
  {
    hide Version;
    if Under(n, name) {
      assert n == Version(name) + "/" + n[|Version(name)| + 1..];
    }
  }

  // ----- a repository of finalized and staged packet objects -----

  datatype Repo = Repo(tables: Tables, finalized: set<string>)

  datatype RepoOp =
    | StoreOp(name: string, packets: seq<Packet>, fits: bool, finalized: bool)
    | FinalizeOp(name: string)
    | DiscardOp(name: string)

  ghost function Apply(decode: Decoder, r: Repo, op: RepoOp): Repo {
    match op
    case StoreOp(name, packets, fits, finalized) =>
      (match Persist(decode, r.tables, name, packets, fits)
       case Err(_) => r
       case Ok(tables) => Repo(tables, if finalized then r.finalized + {name} else r.finalized - {name}))
    case FinalizeOp(name) => if name in r.tables.refs then r.(finalized := r.finalized + {name}) else r
    case DiscardOp(name) => Repo(Drop(r.tables, name), r.finalized - {name})
  }

  const EMPTY := Repo(Tables(map[], map[]), {})

  ghost function History(decode: Decoder, ops: seq<RepoOp>): Repo {
    if ops == [] then EMPTY else Apply(decode, History(decode, ops[..|ops| - 1]), ops[|ops| - 1])
  }

  /** A finalized object references the packet. */
  ghost predicate Owned(r: Repo, n: string) {
    exists o :: o in r.finalized && o in r.tables.refs && n in r.tables.refs[o]
  }

  /** A fetch by exact name asks for a finalized owner of that packet, and makes every stored packet under its
      version readable; they must all be of that version. */
  ghost function Prepare(r: Repo, name: string): Option<set<string>> {
    if Owned(r, name) && name in r.tables.packets && Under(name, name)
       && (forall n :: n in r.tables.packets && Under(n, name) ==> Version(n) == Version(name))
    then Some(set n | n in r.tables.packets && Under(n, name))
    else None
  }

  /** What is stored is finalized or staged as asked, a finalization needs the object, and what is discarded is
      neither; what is refused changes nothing. */
  lemma AppliesExactly(decode: Decoder, r: Repo, op: RepoOp, o: string)
    ensures op.StoreOp? && Persist(decode, r.tables, op.name, op.packets, op.fits).Err? ==> Apply(decode, r, op) == r
    ensures op.StoreOp? && Persist(decode, r.tables, op.name, op.packets, op.fits).Ok? ==>
      Apply(decode, r, op).tables == Persist(decode, r.tables, op.name, op.packets, op.fits).value
      && (o in Apply(decode, r, op).finalized <==> if o == op.name then op.finalized else o in r.finalized)
    ensures op.FinalizeOp? ==> Apply(decode, r, op).tables == r.tables
    ensures op.FinalizeOp? ==> (o in Apply(decode, r, op).finalized <==> o in r.finalized || (o == op.name && o in r.tables.refs))
    ensures op.DiscardOp? ==> Apply(decode, r, op).tables == Drop(r.tables, op.name)
    ensures op.DiscardOp? ==> (o in Apply(decode, r, op).finalized <==> o in r.finalized && o != op.name)
  {
    hide Persist; hide Drop;
  }

  lemma {:induction false} HistoryKeeps(decode: Decoder, ops: seq<RepoOp>)
    ensures Inv(decode, History(decode, ops).tables)
  {
    if ops != [] {
      HistoryKeeps(decode, ops[..|ops| - 1]);
      var r := History(decode, ops[..|ops| - 1]);
      hide Inv; hide Persist; hide Drop;
      match ops[|ops| - 1] {
        case StoreOp(name, packets, fits, _) =>
          if Persist(decode, r.tables, name, packets, fits).Ok? { PersistKeeps(decode, r.tables, name, packets, fits); }
        case FinalizeOp(_) =>
        case DiscardOp(name) => DropKeeps(decode, r.tables, name);
      }
    }
  }

  /** A staged object has a packet of that version that no finalized object has. */
  ghost predicate Stray(r: Repo, name: string) {
    exists o, n :: o in r.tables.refs && o !in r.finalized && n in r.tables.refs[o] && Under(n, name) && !Owned(r, n)
  }

  /** In every run, a fetch by exact name goes through exactly for a packet of a finalized object that has a segment
      component, when all that is stored under its version is of that version; it then makes all of it readable. */
  lemma PreparesExactly(decode: Decoder, ops: seq<RepoOp>, name: string)
    ensures var r := History(decode, ops);
      && (Prepare(r, name).Some? <==>
            && (exists o :: o in r.finalized && o in r.tables.refs && name in r.tables.refs[o])
            && (exists at: nat :: SegmentFrom(name, at))
            && forall o, n :: o in r.tables.refs && n in r.tables.refs[o] && Under(n, name) ==> Version(n) == Version(name))
      && (Prepare(r, name).Some? ==>
            forall n :: n in Prepare(r, name).value <==> Under(n, name) && exists o :: o in r.tables.refs && n in r.tables.refs[o])
  {
    HistoryKeeps(decode, ops);
    var r := History(decode, ops);
    hide History;
    OwnVersion(name);
    hide Under; hide Version; hide SegmentFrom;
    forall n ensures n in r.tables.packets <==> exists o :: o in r.tables.refs && n in r.tables.refs[o] {
      assert n in r.tables.packets <==> n in Referenced(r.tables.refs);
    }
  }

  lemma SegmentBegins(name: string, at: nat)
    requires SegmentAt(name, at)
    ensures name[at] == '/'
  {
    var segment := name[at..at + 5];
    assert segment[0] == name[at] && segment == "/seg=";
  }

  lemma OwnVersion(name: string)
    ensures Under(name, name) <==> exists at: nat :: SegmentFrom(name, at)
  {
    forall i: nat ensures SegAt(name, i) <==> SegmentAt(name, i) {}
    if k: nat :| SegAt(name, k) {
      LastSegIsLast(name, |name|, k);
      var at := LastSeg(name, |name|);
      assert SegmentFrom(name, at);
      SegmentBegins(name, at);
    } else {
      NoSeg(name, |name|);
    }
    if at: nat :| SegmentFrom(name, at) {
      assert SegAt(name, at);
    }
  }

  /** In every run, what a fetch by exact name makes readable belongs to finalized objects exactly when no
      staged object has a packet of that version to itself. The packet asked for always does. */
  lemma ReadableOwnedExactly(decode: Decoder, ops: seq<RepoOp>, name: string)
    requires Prepare(History(decode, ops), name).Some?
    ensures var r := History(decode, ops);
      && name in Prepare(r, name).value && Owned(r, name)
      && ((forall n :: n in Prepare(r, name).value ==> Owned(r, n)) <==> !Stray(r, name))
  {
    HistoryKeeps(decode, ops);
    var r := History(decode, ops);
    hide History; hide Under;
    if Stray(r, name) {
      var o, n :| o in r.tables.refs && o !in r.finalized && n in r.tables.refs[o] && Under(n, name) && !Owned(r, n);
      assert n in Referenced(r.tables.refs);
      assert n in Prepare(r, name).value;
    }
    forall n | n in Prepare(r, name).value && !Owned(r, n) ensures Stray(r, name) {
      var o :| o in r.tables.refs && n in r.tables.refs[o];
      assert o !in r.finalized;
    }
  }

  /** A staged object that adds a segment to a version someone else has finalized is read with it. */
  lemma StagedSegmentReadable(decode: Decoder, a: string, b: string, p: Packet, q: Packet)
    requires Honest(decode, p) && Honest(decode, q) && a != b && p.name != q.name
    requires Under(p.name, p.name) && Under(q.name, p.name) && Version(q.name) == Version(p.name)
    ensures var r := History(decode, [StoreOp(a, [p], true, true), StoreOp(b, [q], true, false)]);
      && Prepare(r, p.name).Some? && q.name in Prepare(r, p.name).value && !Owned(r, q.name)
  {
    var ops := [StoreOp(a, [p], true, true), StoreOp(b, [q], true, false)];
    assert ops[..1][..0] == [];
    hide Honest; hide Under; hide Persist; hide Version;
    Stores(decode, EMPTY, a, p, true);
    var one := Apply(decode, EMPTY, ops[0]);
    assert History(decode, ops[..0]) == EMPTY;
    assert History(decode, ops[..1]) == one;
    Stores(decode, one, b, q, false);
    var two := Apply(decode, one, ops[1]);
    assert History(decode, ops) == two;
    assert two.finalized == {a} && a in two.tables.refs && two.tables.refs[a] == [p.name];
    assert two.tables.packets.Keys == Referenced(two.tables.refs) by { HistoryKeeps(decode, ops); }
    assert p.name in Referenced(two.tables.refs);
  }

  lemma Stores(decode: Decoder, r: Repo, name: string, q: Packet, finalized: bool)
    requires Honest(decode, q) && q.name !in r.tables.packets
    ensures var next := Apply(decode, r, StoreOp(name, [q], true, finalized));
      && next.tables.refs == r.tables.refs[name := [q.name]] && q.name in next.tables.packets
      && (forall n :: n in next.tables.packets ==> n == q.name || n in r.tables.packets)
      && next.finalized == (if finalized then r.finalized + {name} else r.finalized - {name})
  {
    PersistsLone(decode, r.tables, name, q);
    hide Honest;
    PersistAccepts(decode, r.tables, name, q);
    hide Persist;
  }

  lemma PersistAccepts(decode: Decoder, t: Tables, name: string, q: Packet)
    requires Honest(decode, q) && q.name !in t.packets
    ensures Persist(decode, t, name, [q], true).Ok?
  {
    hide Wires; hide BySegment; hide Referenced;
    forall p | p in [q] ensures !Contradicts(t, p) {}
  }
}
