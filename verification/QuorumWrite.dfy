/** Staged writes, receipts, finalization and repair copies across repositories. */
module QuorumWrite {
  import opened Outcomes
  import opened Sets

  /** A write as a request describes it. `expected` is the generation the object must have before it,
      or negative for any. */
  datatype Intent = Intent(operation: string, name: string, generation: int, expected: int, digest: string,
                           replication: nat, required: nat, consistency: string, selected: seq<string>)

  datatype Receipt = Receipt(operation: string, repo: string, name: string, generation: int, digest: string, state: string,
                             bytes: nat, completedAt: int)

  datatype Error = TupleMismatch | Unselected | ConflictingDuplicate | Incomplete

  // ----- validating receipts -----

  predicate ForWrite(intent: Intent, r: Receipt) {
    && r.operation == intent.operation && r.name == intent.name && r.generation == intent.generation
    && r.digest == intent.digest && r.state == "COMMITTED"
  }

  predicate Eligible(intent: Intent, r: Receipt) {
    ForWrite(intent, r) && (intent.selected != [] ==> r.repo in intent.selected)
  }

  function Repos(receipts: seq<Receipt>): set<string> {
    set r | r in receipts :: r.repo
  }

  /** Every receipt is the write's own, from a selected repository, and none contradicts another. */
  ghost predicate Acceptable(intent: Intent, receipts: seq<Receipt>) {
    && (forall i :: 0 <= i < |receipts| ==> Eligible(intent, receipts[i]))
    && (forall i, j :: 0 <= i < j < |receipts| && receipts[i].repo == receipts[j].repo ==> receipts[i] == receipts[j])
  }

  predicate DistinctRepos(receipts: seq<Receipt>) {
    forall i, j :: 0 <= i < j < |receipts| ==> receipts[i].repo != receipts[j].repo
  }

  lemma {:induction false} DistinctReposCount(receipts: seq<Receipt>)
    requires DistinctRepos(receipts)
    ensures |Repos(receipts)| == |receipts|
  {
    if receipts != [] {
      var front, last := receipts[..|receipts| - 1], receipts[|receipts| - 1];
      DistinctReposCount(front);
      assert receipts == front + [last];
      assert Repos(receipts) == Repos(front) + {last.repo};
      assert last.repo !in Repos(front);
    }
  }

  /** The first receipt that is another write's, or from a repository not selected, or contradicts an earlier one. */
  ghost predicate FirstFault<T>(intent: Intent, receipts: seq<Receipt>, i: nat, r: Result<T, Error>)
    requires i < |receipts|
  {
    var receipt := receipts[i];
    && Acceptable(intent, receipts[..i])
    && r == Err(if (receipt.operation, receipt.name, receipt.generation, receipt.digest, receipt.state)
                   != (intent.operation, intent.name, intent.generation, intent.digest, "COMMITTED") then TupleMismatch
                else if intent.selected != [] && receipt.repo !in intent.selected then Unselected
                else ConflictingDuplicate)
  }

  /** Succeeds exactly when the receipts are acceptable and come from enough repositories, and then
      gives one receipt for each of them; otherwise it says what is wrong with the first that is not. */
  method ValidateWriteReceipts(intent: Intent, receipts: seq<Receipt>) returns (r: Result<seq<Receipt>, Error>)
    ensures r.Ok? <==> Acceptable(intent, receipts) && |Repos(receipts)| >= intent.required
    ensures r.Ok? ==> DistinctRepos(r.value) && (forall x :: x in r.value <==> x in receipts)
    ensures r.Err? && Acceptable(intent, receipts) ==> r.error == Incomplete
    ensures !Acceptable(intent, receipts) ==> exists i :: 0 <= i < |receipts| && FirstFault(intent, receipts, i, r)
  {
    var unique: seq<Receipt> := [];
    for i := 0 to |receipts|
      invariant Acceptable(intent, receipts[..i])
      invariant DistinctRepos(unique) && forall x :: x in unique <==> x in receipts[..i]
    {
      var receipt := receipts[i];
      assert receipts[..i + 1] == receipts[..i] + [receipt];
      if !ForWrite(intent, receipt) {
        r := Err(TupleMismatch);
        assert FirstFault(intent, receipts, i, r);
        return;
      }
      if intent.selected != [] && receipt.repo !in intent.selected {
        r := Err(Unselected);
        assert FirstFault(intent, receipts, i, r);
        return;
      }
      var k := Find(unique, receipt.repo);
      if k < |unique| {
        assert unique[k] in receipts[..i];
        if unique[k] != receipt {
          var j :| 0 <= j < i && receipts[j] == unique[k];
          assert receipts[j].repo == receipts[i].repo && receipts[j] != receipts[i];
          r := Err(ConflictingDuplicate);
          assert FirstFault(intent, receipts, i, r);
          return;
        }
      } else {
        unique := unique + [receipt];
      }
    }
    assert receipts[..|receipts|] == receipts;
    DistinctReposCount(unique);
    assert Repos(unique) == Repos(receipts);
    if |unique| < intent.required { return Err(Incomplete); }
    r := Ok(unique);
  }

  method Find(unique: seq<Receipt>, repo: string) returns (k: nat)
    ensures k <= |unique|
    ensures k < |unique| ==> unique[k].repo == repo
    ensures k == |unique| ==> forall x :: x in unique ==> x.repo != repo
  {
    k := 0;
    while k < |unique|
      invariant k <= |unique|
      invariant forall i :: 0 <= i < k ==> unique[i].repo != repo
    {
      if unique[k].repo == repo { return; }
      k := k + 1;
    }
  }

  // ----- the repositories -----

  /** A stored object: the write it was stored under, the receipts that write asks for, and whether it
      has been finalized. A finalized row is what a repository lists, serves and repairs from. */
  datatype Row = Row(operation: string, generation: int, digest: string, required: nat, finalized: bool)

  /** A repository's record of an operation, and whether it has answered it with a receipt. */
  datatype Entry = Entry(intent: Intent, answered: bool)

  /** `rows` and `journal` are what each repository has stored, by repository; `receipts` all that were
      ever issued, `writes` all that
      publishers asked for, and `served` each object name and digest that a repository has
      served or advertised as available. */
  datatype System = System(rows: map<(string, string), Row>, journal: map<(string, string), Entry>,
                           receipts: set<Receipt>, writes: set<Intent>, served: set<(string, string)>)

  /** Every request carries its own intent. A pull here is one that carries a repair authorization; one
      without it is a staging. `own` says that the requester is the object's publisher. */
  datatype Step =
    | StageStep(repo: string, intent: Intent, batch: bool, fits: bool, bytes: nat, now: int)
    | FinalizeStep(repo: string, intent: Intent, receipts: seq<Receipt>)
    | PullStep(repo: string, intent: Intent, own: bool, fits: bool, bytes: nat, now: int)
    | ServeStep(repo: string, name: string)
    | EraseStep(repo: string, name: string)
    | ForgetStep(repo: string, operation: string)

  predicate WellFormed(i: Intent) {
    i.operation != "" && i.name != "" && i.digest != "" && i.generation >= 0 && 1 <= i.required <= i.replication
  }

  function ReceiptOf(i: Intent, repo: string, bytes: nat, now: int): Receipt {
    Receipt(i.operation, repo, i.name, i.generation, i.digest, "COMMITTED", bytes, now)
  }

  predicate SameWrite(a: Intent, b: Intent) {
    && a.name == b.name && a.generation == b.generation && a.digest == b.digest
    && a.replication == b.replication && a.required == b.required && a.consistency == b.consistency
  }

  predicate GenerationFollows(s: System, repo: string, i: Intent) {
    var current := if (repo, i.name) in s.rows then s.rows[(repo, i.name)].generation else -1;
    i.expected < 0 || (current == i.expected && i.generation == i.expected + 1)
  }

  /** An operation is refused when its identity was used for another write, changes nothing when it was
      already answered, and is recorded as failed when it does not fit or its generation does not follow. */
  predicate Storing(s: System, repo: string, i: Intent, fits: bool) {
    && ((repo, i.operation) in s.journal ==>
          SameWrite(s.journal[(repo, i.operation)].intent, i) && !s.journal[(repo, i.operation)].answered)
    && fits && GenerationFollows(s, repo, i)
  }

  function Store(s: System, repo: string, i: Intent, finalized: bool, fits: bool, bytes: nat, now: int): System {
    if Storing(s, repo, i, fits) then
      s.(rows := s.rows[(repo, i.name) := Row(i.operation, i.generation, i.digest, i.required, finalized)],
         journal := s.journal[(repo, i.operation) := Entry(i, true)],
         receipts := s.receipts + {ReceiptOf(i, repo, bytes, now)})
    else if (repo, i.operation) in s.journal then s
    else s.(journal := s.journal[(repo, i.operation) := Entry(i, false)])
  }

  /** A repository finalizes on receipts that suffice for the request's own intent and include its own,
      for the operation, generation and digest it has stored: not for the count it was staged with. A
      pull is let through for the publisher whatever authorization it carries, and for anyone else
      only for a repair that the catalog called for. */
  ghost predicate Enabled(s: System, step: Step) {
    match step
    case StageStep(_, intent, _, _, _, _) => WellFormed(intent)
    case FinalizeStep(repo, intent, receipts) =>
      && WellFormed(intent)
      && Acceptable(intent, receipts) && |Repos(receipts)| >= intent.required
      && repo in Repos(receipts)
      && (repo, intent.name) in s.rows
      && s.rows[(repo, intent.name)].operation == intent.operation
      && s.rows[(repo, intent.name)].generation == intent.generation
      && s.rows[(repo, intent.name)].digest == intent.digest
    case PullStep(_, intent, own, _, _, _) => WellFormed(intent) && (own || (intent.name, intent.digest) in s.served)
    case ServeStep(repo, name) => (repo, name) in s.rows && s.rows[(repo, name)].finalized
    case EraseStep(_, _) => true
    case ForgetStep(_, _) => true
  }

  /** Staging finalizes at once only where one receipt is enough, the repository's own, and no batch is
      finalized; a pull always finalizes. */
  ghost function Next(s: System, step: Step): System {
    if !Enabled(s, step) then s
    else match step
      case StageStep(repo, i, batch, fits, bytes, now) =>
        var t := Store(s, repo, i, i.required <= 1 && !batch, fits, bytes, now);
        if Storing(s, repo, i, fits) then t.(writes := t.writes + {i}) else t
      case FinalizeStep(repo, i, receipts) =>
        s.(rows := s.rows[(repo, i.name) := s.rows[(repo, i.name)].(required := i.required, finalized := true)])
      case PullStep(repo, i, own, fits, bytes, now) =>
        var t := Store(s, repo, i, true, fits, bytes, now);
        if own && Storing(s, repo, i, fits) then t.(writes := t.writes + {i}) else t
      case ServeStep(repo, name) => s.(served := s.served + {(name, s.rows[(repo, name)].digest)})
      case EraseStep(repo, name) => s.(rows := s.rows - {(repo, name)})
      case ForgetStep(repo, operation) => s.(journal := s.journal - {(repo, operation)})
  }

  const Empty := System(map[], map[], {}, {}, {})

  ghost function Run(steps: seq<Step>): System {
    if steps == [] then Empty else Next(Run(steps[..|steps| - 1]), steps[|steps| - 1])
  }

  /** What a requester may be held to: to finalize with no fewer receipts than the write was staged
      with, to present only receipts that were issued, and to authorize as a repair only the pull of
      what some repository served, unless one receipt is enough for it. */
  datatype Policy = Policy(count: bool, issued: bool, repairs: bool)

  ghost predicate Meets(p: Policy, s: System, step: Step) {
    match step
    case FinalizeStep(repo, i, receipts) =>
      && (p.count && (repo, i.name) in s.rows ==> i.required >= s.rows[(repo, i.name)].required)
      && (p.issued ==> forall r :: r in receipts ==> r in s.receipts)
    case PullStep(_, i, own, _, _, _) => p.repairs && own && i.required > 1 ==> (i.name, i.digest) in s.served
    case _ => true
  }

  ghost predicate Obeys(p: Policy, steps: seq<Step>) {
    steps == [] || (Obeys(p, steps[..|steps| - 1]) && Meets(p, Run(steps[..|steps| - 1]), steps[|steps| - 1]))
  }

  // ----- what is stored, and when -----

  /** The generation a repository has of an object; none is below all. */
  function GenerationAt(s: System, repo: string, name: string): int {
    if (repo, name) in s.rows then s.rows[(repo, name)].generation else -1
  }

  predicate AnsweredAt(s: System, repo: string, operation: string) {
    (repo, operation) in s.journal && s.journal[(repo, operation)].answered
  }

  predicate IsStore(step: Step) {
    step.StageStep? || step.PullStep?
  }

  /** The step asks a repository to store a write, and the repository answers the operation only now. */
  ghost predicate Stores(s: System, step: Step) {
    IsStore(step) && !AnsweredAt(s, step.repo, step.intent.operation) && AnsweredAt(Next(s, step), step.repo, step.intent.operation)
  }

  /** The identity of the operation is new to the repository, or was used for the same write without success. */
  predicate Unused(s: System, repo: string, i: Intent) {
    (repo, i.operation) in s.journal ==>
      var known := s.journal[(repo, i.operation)];
      && !known.answered
      && (known.intent.name, known.intent.generation, known.intent.digest) == (i.name, i.generation, i.digest)
      && (known.intent.replication, known.intent.required, known.intent.consistency) == (i.replication, i.required, i.consistency)
  }

  /** The write names its operation, object and content, has a generation, and asks for one receipt at least and
      for no more than there are to be replicas. */
  predicate Stated(i: Intent) {
    i.operation != "" && i.name != "" && i.digest != "" && 0 <= i.generation && 0 < i.required && i.required <= i.replication
  }

  /** A write is stored exactly when it is stated in full, its identity is unused, it fits, and, if it expects a generation, the
      object has exactly that one and the write is the next; a pull moreover needs leave. What is then
      stored is the write's own, with one receipt; otherwise rows and receipts stay as they were. */
  lemma StoresExactly(s: System, step: Step)
    requires IsStore(step)
    ensures var i, next := step.intent, Next(s, step);
      && (Stores(s, step) <==>
            && Stated(i) && Unused(s, step.repo, i) && step.fits
            && (i.expected >= 0 ==> GenerationAt(s, step.repo, i.name) == i.expected && i.generation == i.expected + 1)
            && (step.PullStep? && !step.own ==> (i.name, i.digest) in s.served))
      && (Stores(s, step) ==>
            && GenerationAt(next, step.repo, i.name) == i.generation
            && next.rows == s.rows[(step.repo, i.name) :=
                 Row(i.operation, i.generation, i.digest, i.required, step.PullStep? || (i.required == 1 && !step.batch))]
            && next.receipts == s.receipts + {Receipt(i.operation, step.repo, i.name, i.generation, i.digest, "COMMITTED", step.bytes, step.now)})
      && (!Stores(s, step) ==> next.rows == s.rows && next.receipts == s.receipts && next.writes == s.writes)
      && next.served == s.served
  {
  }

  /** What a repository records of an operation: that it has answered it, when it stores the write; that it has
      failed, when the write is let through, is not stored and its identity is new; and nothing else. */
  lemma RecordsExactly(s: System, step: Step)
    requires IsStore(step)
    ensures var i, key := step.intent, (step.repo, step.intent.operation);
      Next(s, step).journal ==
        if Stores(s, step) then s.journal[key := Entry(i, true)]
        else if Stated(i) && (step.PullStep? && !step.own ==> (i.name, i.digest) in s.served) && key !in s.journal
        then s.journal[key := Entry(i, false)] else s.journal
  {
  }

  /** The step may take an object's generation back: it erases the object, or stores without expecting one. */
  predicate Resets(step: Step, repo: string, name: string) {
    match step
    case EraseStep(r, n) => r == repo && n == name
    case StageStep(r, i, _, _, _, _) => r == repo && i.name == name && i.expected < 0
    case PullStep(r, i, _, _, _, _) => r == repo && i.name == name && i.expected < 0
    case _ => false
  }

  lemma NextGeneration(s: System, step: Step, repo: string, name: string)
    requires !Resets(step, repo, name)
    ensures GenerationAt(Next(s, step), repo, name) >= GenerationAt(s, repo, name)
  {
    hide Acceptable; hide Repos;
    if IsStore(step) {
      StoresExactly(s, step);
      hide Next; hide Stores;
    }
  }

  lemma {:induction false} GenerationRises(steps: seq<Step>, m: nat, n: nat, repo: string, name: string)
    requires m <= n <= |steps| && forall k :: m <= k < n ==> !Resets(steps[k], repo, name)
    ensures GenerationAt(Run(steps[..n]), repo, name) >= GenerationAt(Run(steps[..m]), repo, name)
  {
    if m < n {
      hide Next; hide Resets; hide GenerationAt;
      GenerationRises(steps, m, n - 1, repo, name);
      assert steps[..n][..n - 1] == steps[..n - 1];
      NextGeneration(Run(steps[..n - 1]), steps[n - 1], repo, name);
    }
  }

  /** In every run a write that expects a generation and is stored finds the object at that generation and
      leaves it at the next, and no second write with the same expectation is stored at that
      repository unless the object was erased or stored without expectation in between. */
  lemma OnePerGeneration(steps: seq<Step>, m: nat, n: nat)
    requires m < n < |steps| && Stores(Run(steps[..m]), steps[m]) && Stores(Run(steps[..n]), steps[n])
    requires steps[m].repo == steps[n].repo && steps[m].intent.name == steps[n].intent.name
    requires steps[m].intent.expected == steps[n].intent.expected >= 0
    ensures exists k :: m < k < n && Resets(steps[k], steps[m].repo, steps[m].intent.name)
    ensures GenerationAt(Run(steps[..m]), steps[m].repo, steps[m].intent.name) == steps[m].intent.expected
    ensures GenerationAt(Run(steps[..m + 1]), steps[m].repo, steps[m].intent.name) == steps[m].intent.expected + 1
  {
    var repo, name := steps[m].repo, steps[m].intent.name;
    assert steps[..m + 1][..m] == steps[..m];
    StoresExactly(Run(steps[..m]), steps[m]);
    StoresExactly(Run(steps[..n]), steps[n]);
    hide Next; hide Stores; hide Resets; hide Unused;
    if forall k :: m < k < n ==> !Resets(steps[k], repo, name) {
      GenerationRises(steps, m + 1, n, repo, name);
      assert false;
    }
  }

  /** A finalization changes the row it names and no other, and goes through exactly on receipts of the very
      write that is stored, none contradicting another, each from a repository the request selects, the
      repository's own among them, and from as many repositories as the request asks for. */
  lemma FinalizesExactly(s: System, repo: string, i: Intent, receipts: seq<Receipt>)
    ensures var step := FinalizeStep(repo, i, receipts);
      var next := Next(s, step);
      && (Enabled(s, step) <==>
            && Stated(i) && (repo, i.name) in s.rows
            && (s.rows[(repo, i.name)].operation, s.rows[(repo, i.name)].generation, s.rows[(repo, i.name)].digest) == (i.operation, i.generation, i.digest)
            && (forall r :: r in receipts ==> ReceiptFor(i, r) && (i.selected == [] || r.repo in i.selected))
            && (forall r, t :: r in receipts && t in receipts && r.repo == t.repo ==> r == t)
            && (exists r :: r in receipts && r.repo == repo) && |set r | r in receipts :: r.repo| >= i.required)
      && (Enabled(s, step) ==> next == s.(rows := s.rows[(repo, i.name) := Row(i.operation, i.generation, i.digest, i.required, true)]))
      && (!Enabled(s, step) ==> next == s)
  {
    if forall r, t :: r in receipts && t in receipts && r.repo == t.repo ==> r == t {
      assert forall a, b :: 0 <= a < b < |receipts| && receipts[a].repo == receipts[b].repo ==> receipts[a] == receipts[b];
    }
    if Acceptable(i, receipts) {
      forall r, t | r in receipts && t in receipts && r.repo == t.repo ensures r == t {
        var a :| 0 <= a < |receipts| && receipts[a] == r;
        var b :| 0 <= b < |receipts| && receipts[b] == t;
        assert a < b || b < a || a == b;
      }
    }
  }

  predicate ReceiptFor(i: Intent, r: Receipt) {
    (r.operation, r.name, r.generation, r.digest, r.state) == (i.operation, i.name, i.generation, i.digest, "COMMITTED")
  }

  // ----- quorum visibility -----

  /** The repositories that have issued a receipt for the write. */
  ghost function Holders(receipts: set<Receipt>, intent: Intent): set<string> {
    set r | r in receipts && ForWrite(intent, r) :: r.repo
  }

  /** Enough repositories issued receipts for the write. */
  ghost predicate Reached(s: System, w: Intent) {
    |Holders(s.receipts, w)| >= w.required
  }

  /** Some write of this object and content reached its count. */
  ghost predicate Backed(s: System, name: string, digest: string) {
    exists w :: w in s.writes && w.name == name && w.digest == digest && Reached(s, w)
  }

  /** Whatever can be read, listed or repaired from was written by a write that reached its count. */
  ghost predicate Visible(s: System) {
    && (forall repo, name :: (repo, name) in s.rows && s.rows[(repo, name)].finalized ==> Backed(s, name, s.rows[(repo, name)].digest))
    && (forall name, digest :: (name, digest) in s.served ==> Backed(s, name, digest))
  }

  ghost predicate StoredUnder(w: Intent, name: string, row: Row) {
    && w.operation == row.operation && w.name == name && w.generation == row.generation
    && w.digest == row.digest && w.required == row.required
  }

  /** What is not yet finalized was staged, and is stored as it was staged. */
  ghost predicate Staged(s: System) {
    forall repo, name :: (repo, name) in s.rows && !s.rows[(repo, name)].finalized ==>
      exists w :: w in s.writes && StoredUnder(w, name, s.rows[(repo, name)])
  }

  lemma BackedStays(s: System, t: System, name: string, digest: string)
    requires Backed(s, name, digest) && s.writes <= t.writes && s.receipts <= t.receipts
    ensures Backed(t, name, digest)
  {
    var w :| w in s.writes && w.name == name && w.digest == digest && Reached(s, w);
    SubsetSize(Holders(s.receipts, w), Holders(t.receipts, w));
    assert w in t.writes && Reached(t, w);
  }

  lemma FinalizeBacks(s: System, repo: string, i: Intent, receipts: seq<Receipt>)
    requires Visible(s) && Staged(s) && Enabled(s, FinalizeStep(repo, i, receipts))
    requires i.required >= s.rows[(repo, i.name)].required && forall r :: r in receipts ==> r in s.receipts
    ensures Backed(s, i.name, i.digest)
  {
    if !s.rows[(repo, i.name)].finalized {
      var w :| w in s.writes && StoredUnder(w, i.name, s.rows[(repo, i.name)]);
      forall x | x in Repos(receipts) ensures x in Holders(s.receipts, w) {
        var r :| r in receipts && r.repo == x;
        assert Eligible(i, r);
      }
      SubsetSize(Repos(receipts), Holders(s.receipts, w));
      assert Reached(s, w);
    }
  }

  /** One receipt is enough for a write that asks for no more. */
  lemma OneReceiptBacks(s: System, t: System, repo: string, i: Intent, finalized: bool, fits: bool, bytes: nat, now: int)
    requires WellFormed(i) && i.required <= 1 && Storing(s, repo, i, fits)
    requires t == Store(s, repo, i, finalized, fits, bytes, now).(writes := s.writes + {i})
    ensures Backed(t, i.name, i.digest)
  {
    assert ReceiptOf(i, repo, bytes, now) in t.receipts && ForWrite(i, ReceiptOf(i, repo, bytes, now));
    SubsetSize({repo}, Holders(t.receipts, i));
    assert i in t.writes && Reached(t, i);
  }

  lemma NextGrows(s: System, step: Step)
    ensures s.writes <= Next(s, step).writes && s.receipts <= Next(s, step).receipts
  {
    hide Acceptable; hide Repos; hide Storing;
  }

  lemma NextStaged(s: System, step: Step)
    requires Staged(s)
    ensures Staged(Next(s, step))
  {
    var t := Next(s, step);
    NextGrows(s, step);
    forall repo, name | (repo, name) in t.rows && !t.rows[(repo, name)].finalized
      ensures exists w :: w in t.writes && StoredUnder(w, name, t.rows[(repo, name)])
    {
      if (repo, name) in s.rows && t.rows[(repo, name)] == s.rows[(repo, name)] {
        var w :| w in s.writes && StoredUnder(w, name, s.rows[(repo, name)]);
        assert w in t.writes;
      } else {
        assert step.StageStep? && step.intent in t.writes && StoredUnder(step.intent, name, t.rows[(repo, name)]);
      }
    }
  }

  lemma NextVisible(s: System, step: Step)
    requires Visible(s) && Staged(s) && Meets(Policy(true, true, true), s, step)
    ensures Visible(Next(s, step))
  {
    var t := Next(s, step);
    NextGrows(s, step);
    forall name, digest | Backed(s, name, digest) ensures Backed(t, name, digest) {
      BackedStays(s, t, name, digest);
    }
    if Enabled(s, step) {
      match step {
        case StageStep(repo, i, batch, fits, bytes, now) =>
          if i.required <= 1 && Storing(s, repo, i, fits) { OneReceiptBacks(s, t, repo, i, !batch, fits, bytes, now); }
        case FinalizeStep(repo, i, receipts) => FinalizeBacks(s, repo, i, receipts);
        case PullStep(repo, i, own, fits, bytes, now) =>
          if own && i.required <= 1 && Storing(s, repo, i, fits) { OneReceiptBacks(s, t, repo, i, true, fits, bytes, now); }
        case _ =>
      }
      hide Backed; hide Acceptable; hide Repos; hide Storing;
    }
  }

  /** Over every run whose requests obey the policy, with repositories erasing, forgetting operations,
      failing and restarting: whatever can be read, listed or used as a repair source, anywhere, has
      the name and digest of a write for which at least its required number of repositories
      issued receipts. */
  lemma {:induction false} QuorumVisibility(steps: seq<Step>)
    requires Obeys(Policy(true, true, true), steps)
    ensures Visible(Run(steps)) && Staged(Run(steps))
  {
    if steps != [] {
      var front, last := steps[..|steps| - 1], steps[|steps| - 1];
      QuorumVisibility(front);
      NextVisible(Run(front), last);
      NextStaged(Run(front), last);
    }
  }

  lemma {:induction false} RunGrows(steps: seq<Step>, n: nat)
    requires n <= |steps|
    ensures Run(steps[..n]).writes <= Run(steps).writes && Run(steps[..n]).receipts <= Run(steps).receipts
  {
    if n < |steps| {
      var front := steps[..|steps| - 1];
      assert front[..n] == steps[..n];
      RunGrows(front, n);
      NextGrows(Run(front), steps[|steps| - 1]);
    } else {
      assert steps[..n] == steps;
    }
  }

  lemma {:induction false} ObeysPrefix(p: Policy, steps: seq<Step>, n: nat)
    requires Obeys(p, steps) && n <= |steps|
    ensures Obeys(p, steps[..n])
  {
    if n < |steps| {
      assert steps[..|steps| - 1][..n] == steps[..n];
      ObeysPrefix(p, steps[..|steps| - 1], n);
    } else {
      assert steps[..n] == steps;
    }
  }

  /** So content whose every write is below its count when a run ends was at no time of the run readable,
      listed, or a repair source, at any repository. */
  lemma BelowQuorumNeverVisible(steps: seq<Step>, n: nat, repo: string, name: string, digest: string)
    requires Obeys(Policy(true, true, true), steps) && n <= |steps|
    requires forall w :: w in Run(steps).writes && w.name == name && w.digest == digest ==> !Reached(Run(steps), w)
    ensures var s := Run(steps[..n]);
      && (name, digest) !in s.served
      && ((repo, name) in s.rows && s.rows[(repo, name)].digest == digest ==> !s.rows[(repo, name)].finalized)
  {
    ObeysPrefix(Policy(true, true, true), steps, n);
    QuorumVisibility(steps[..n]);
    RunGrows(steps, n);
    if Backed(Run(steps[..n]), name, digest) {
      BackedStays(Run(steps[..n]), Run(steps), name, digest);
      assert false;
    }
  }

  // ----- what each part of the policy is needed for -----

  function Node(i: nat): string {
    seq(i + 1, _ => 'r')
  }

  function Stages(w: Intent, k: nat): seq<Step> {
    if k == 0 then [] else Stages(w, k - 1) + [StageStep(Node(k - 1), w, false, true, 0, 0)]
  }

  function ReceiptsOf(w: Intent, k: nat): seq<Receipt> {
    seq(k, i requires 0 <= i < k => ReceiptOf(w, Node(i), 0, 0))
  }

  lemma NodesDiffer(i: nat, j: nat)
    requires i != j
    ensures Node(i) != Node(j)
  {
    assert |Node(i)| == i + 1 && |Node(j)| == j + 1;
  }

  ghost predicate StagedAt(s: System, repo: string, w: Intent) {
    (repo, w.name) in s.rows && s.rows[(repo, w.name)] == Row(w.operation, w.generation, w.digest, w.required, false)
  }

  /** Of this write alone, staged at the first so many repositories, with a receipt from each. */
  ghost predicate StagedAtAll(s: System, w: Intent, k: nat) {
    && s.writes == (if k == 0 then {} else {w}) && s.served == {}
    && (forall r :: r in s.receipts <==> r in ReceiptsOf(w, k))
    && (forall i: nat :: (Node(i), w.operation) in s.journal ==> i < k)
    && (forall i: nat :: i < k ==> StagedAt(s, Node(i), w))
  }

  lemma StageOneMore(s: System, w: Intent, k: nat)
    requires WellFormed(w) && w.required >= 2 && w.expected < 0 && StagedAtAll(s, w, k)
    ensures StagedAtAll(Next(s, StageStep(Node(k), w, false, true, 0, 0)), w, k + 1)
  {
    var t := Next(s, StageStep(Node(k), w, false, true, 0, 0));
    assert ReceiptsOf(w, k + 1) == ReceiptsOf(w, k) + [ReceiptOf(w, Node(k), 0, 0)];
    assert (Node(k), w.operation) !in s.journal;
    assert Storing(s, Node(k), w, true);
    forall i: nat | i != k ensures Node(i) != Node(k) { NodesDiffer(i, k); }
    hide Node;
    assert forall i: nat :: i < k + 1 ==> StagedAt(t, Node(i), w);
  }

  lemma {:induction false} StagesReach(p: Policy, w: Intent, k: nat)
    requires WellFormed(w) && w.required >= 2 && w.expected < 0
    ensures Obeys(p, Stages(w, k)) && StagedAtAll(Run(Stages(w, k)), w, k)
  {
    if k > 0 {
      StagesReach(p, w, k - 1);
      StageOneMore(Run(Stages(w, k - 1)), w, k - 1);
      assert Stages(w, k)[..|Stages(w, k)| - 1] == Stages(w, k - 1);
    }
  }

  /** The write staged at so many repositories and then finalized at one by a request for that count. */
  function LoweredRun(w: Intent, k: nat): seq<Step> {
    Stages(w, k) + [FinalizeStep(Node(0), w.(required := k, selected := []), ReceiptsOf(w, k))]
  }

  lemma ReceiptsSuffice(w: Intent, k: nat)
    requires 1 <= k
    ensures |Repos(ReceiptsOf(w, k))| == k && Node(0) in Repos(ReceiptsOf(w, k))
    ensures Acceptable(w.(required := k, selected := []), ReceiptsOf(w, k))
  {
    var receipts := ReceiptsOf(w, k);
    forall x, y | 0 <= x < y < |receipts| ensures receipts[x].repo != receipts[y].repo { NodesDiffer(x, y); }
    DistinctReposCount(receipts);
    assert receipts[0].repo == Node(0);
  }

  ghost predicate Finalized(s: System, repo: string, name: string, digest: string) {
    (repo, name) in s.rows && s.rows[(repo, name)].finalized && s.rows[(repo, name)].digest == digest
  }

  lemma UnreachedHidesNothing(s: System, w: Intent, repo: string)
    requires s.writes <= {w} && (w in s.writes ==> !Reached(s, w)) && Finalized(s, repo, w.name, w.digest)
    ensures !Visible(s)
  {
    assert !Backed(s, w.name, w.digest);
  }

  /** The count of the finalizing request is the one that is enforced: whatever the write was staged
      with, a request for fewer finalizes it on fewer. */
  lemma LoweredFinalizeShows(w: Intent, k: nat)
    requires WellFormed(w) && w.expected < 0 && 1 <= k < w.required
    ensures Obeys(Policy(false, true, true), LoweredRun(w, k))
    ensures var s := Run(LoweredRun(w, k));
      Finalized(s, Node(0), w.name, w.digest) && s.writes == {w} && |Holders(s.receipts, w)| == k && !Visible(s)
  {
    var p := Policy(false, true, true);
    StagesReach(p, w, k);
    ReceiptsSuffice(w, k);
    var s, t := Run(Stages(w, k)), Run(LoweredRun(w, k));
    var last := FinalizeStep(Node(0), w.(required := k, selected := []), ReceiptsOf(w, k));
    assert LoweredRun(w, k)[..|LoweredRun(w, k)| - 1] == Stages(w, k);
    hide Acceptable; hide Stages; hide Storing;
    assert StagedAt(s, Node(0), w);
    assert Holders(s.receipts, w) == Repos(ReceiptsOf(w, k)) by {
      forall r | r in ReceiptsOf(w, k) ensures ForWrite(w, r) {}
    }
    hide ReceiptsOf; hide Repos;
    assert Enabled(s, last);
    assert t == Next(s, last);
    UnreachedHidesNothing(t, w, Node(0));
  }

  /** A write of the given count, with no generation and no replica named. */
  function Plain(required: nat): Intent {
    Intent("op", "name", 0, -1, "digest", required, required, "ALL", [])
  }

  lemma RunOne(step: Step)
    ensures Run([step]) == Next(Empty, step)
  {
    assert [step][..0] == [];
  }

  lemma RunTwo(a: Step, b: Step)
    ensures Run([a, b]) == Next(Next(Empty, a), b)
  {
    assert [a, b][..1] == [a];
    RunOne(a);
  }

  const ForgedRun: seq<Step> :=
    [StageStep("A", Plain(2), false, true, 0, 0),
     FinalizeStep("A", Plain(2), [ReceiptOf(Plain(2), "A", 0, 0), ReceiptOf(Plain(2), "B", 0, 0)])]

  /** A receipt that no repository issued counts like any other. */
  lemma ForgedReceiptShows()
    ensures Obeys(Policy(true, false, true), ForgedRun)
    ensures var s := Run(ForgedRun);
      Finalized(s, "A", "name", "digest") && |Holders(s.receipts, Plain(2))| == 1 && !Visible(s)
  {
    var w := Plain(2);
    var forged := [ReceiptOf(w, "A", 0, 0), ReceiptOf(w, "B", 0, 0)];
    var first, last := StageStep("A", w, false, true, 0, 0), FinalizeStep("A", w, forged);
    RunOne(first);
    RunTwo(first, last);
    assert [first, last][..1] == [first] && [first][..0] == [];
    assert "A"[0] != "B"[0];
    assert DistinctRepos(forged);
    DistinctReposCount(forged);
    assert forged[0].repo == "A";
    assert Enabled(Next(Empty, first), last);
    assert Holders(Run([first, last]).receipts, w) == {"A"};
    UnreachedHidesNothing(Run([first, last]), w, "A");
  }

  /** The publisher's own pull is readable at once, on one receipt, however many its intent asks for:
      that it carries an authorization is enough, and no content was ever served. */
  lemma OwnPullShows(w: Intent, repo: string)
    requires WellFormed(w) && w.expected < 0 && w.required > 1
    ensures Obeys(Policy(true, true, false), [PullStep(repo, w, true, true, 0, 0)])
    ensures var s := Run([PullStep(repo, w, true, true, 0, 0)]);
      Finalized(s, repo, w.name, w.digest) && |Holders(s.receipts, w)| == 1 && !Visible(s)
  {
    var step := PullStep(repo, w, true, true, 0, 0);
    RunOne(step);
    assert [step][..0] == [];
    assert Holders(Run([step]).receipts, w) == {repo};
    UnreachedHidesNothing(Run([step]), w, repo);
  }

  /** Holding requesters to a policy keeps every visible object backed by a quorum, whatever the run,
      exactly when the policy has all three parts: no repository checks any of them. */
  lemma QuorumVisibilityExactly(p: Policy)
    ensures (forall steps :: Obeys(p, steps) ==> Visible(Run(steps))) <==> p == Policy(true, true, true)
  {
    hide Run; hide Visible;
    if p == Policy(true, true, true) {
      forall steps | Obeys(p, steps) ensures Visible(Run(steps)) { QuorumVisibility(steps); }
    } else if !p.count {
      LoweredFinalizeShows(Plain(2), 1);
      ObeysLess(p, Policy(false, true, true), LoweredRun(Plain(2), 1));
    } else if !p.issued {
      ForgedReceiptShows();
      ObeysLess(p, Policy(true, false, true), ForgedRun);
    } else {
      var steps := [PullStep("A", Plain(2), true, true, 0, 0)];
      OwnPullShows(Plain(2), "A");
      ObeysLess(p, Policy(true, true, false), steps);
    }
  }

  lemma {:induction false} ObeysLess(p: Policy, q: Policy, steps: seq<Step>)
    requires Obeys(q, steps) && (p.count ==> q.count) && (p.issued ==> q.issued) && (p.repairs ==> q.repairs)
    ensures Obeys(p, steps)
  {
    if steps != [] {
      ObeysLess(p, q, steps[..|steps| - 1]);
    }
  }

  // ----- repair -----

  /** What the repair client asks the target to store: the content it read, under a new operation, with
      no generation and with the replication factor for its count. */
  function RepairIntent(operation: string, name: string, digest: string, replication: nat, target: string): Intent {
    Intent(operation, name, 0, -1, digest, replication, replication, "ALL", [target])
  }

  /** A repaired copy is readable although its own operation has one receipt: what stands behind it is
      the write it was copied from, whose operation and generation it no longer names. */
  lemma RepairKeepsContent(s: System, repo: string, operation: string, name: string, digest: string, replication: nat)
    requires Visible(s) && Staged(s) && (name, digest) in s.served
    requires name != "" && digest != "" && operation != "" && replication >= 1
    requires (repo, operation) !in s.journal && forall r :: r in s.receipts ==> r.operation != operation
    ensures var i := RepairIntent(operation, name, digest, replication, repo);
      var t := Next(s, PullStep(repo, i, false, true, 0, 0));
      && Finalized(t, repo, name, digest) && t.rows[(repo, name)].operation == operation && t.rows[(repo, name)].generation == 0
      && |Holders(t.receipts, i)| == 1 && Backed(t, name, digest) && Visible(t)
  {
    var i := RepairIntent(operation, name, digest, replication, repo);
    var step := PullStep(repo, i, false, true, 0, 0);
    assert Storing(s, repo, i, true);
    NextVisible(s, step);
    assert Holders(Next(s, step).receipts, i) == {repo};
  }

  // ----- the quorum itself -----

  function QuorumOf(replicas: nat): nat {
    replicas / 2 + 1
  }

  /** Two quorums of one replica set share a repository, so two writes that each reached a quorum of
      the same replicas have a holder in common. */
  lemma QuorumsMeet(replicas: set<string>, p: set<string>, q: set<string>)
    requires p <= replicas && q <= replicas && |p| >= QuorumOf(|replicas|) && |q| >= QuorumOf(|replicas|)
    ensures exists x :: x in p && x in q
  {
    if p * q == {} {
      assert |p + q| == |p| + |q|;
      SubsetSize(p + q, replicas);
      assert false;
    }
    var x :| x in p * q;
    assert x in p && x in q;
  }
}
