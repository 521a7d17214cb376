/** Each acknowledgement of a provider is executed at most once. */
module ConflictCellOnce {
  import opened Outcomes
  import opened Requests
  import opened ConflictCell
  import S = ConflictCellSafety
  import A = Admission
  import N = AuthorityNode
  import R = Reservations
  import T = ReservationTime
  import H = ConflictCellTheorems

  /** Reservations handed out to the request at that provider boot. */
  function Handed(admitted: seq<Admitted>, key: A.Key, identity: Identity): nat {
    if admitted == [] then 0
    else
      var last := admitted[|admitted| - 1];
      Handed(admitted[..|admitted| - 1], key, identity) + if last.key == key && last.identity == identity then 1 else 0
  }

  /** Executions of the request there, where it negotiated a reservation. */
  function Executions(executed: seq<Executed>, key: A.Key, identity: Identity): nat {
    if executed == [] then 0
    else
      var last := executed[|executed| - 1];
      Executions(executed[..|executed| - 1], key, identity)
      + if last.key == key && last.identity == identity && last.negotiated then 1 else 0
  }

  lemma HandedMore(admitted: seq<Admitted>, a: Admitted, key: A.Key, identity: Identity)
    ensures Handed(admitted + [a], key, identity) == Handed(admitted, key, identity) + if a.key == key && a.identity == identity then 1 else 0
  {
    assert (admitted + [a])[..|admitted|] == admitted;
  }

  lemma ExecutionsMore(executed: seq<Executed>, x: Executed, key: A.Key, identity: Identity)
    ensures Executions(executed + [x], key, identity)
         == Executions(executed, key, identity) + if x.key == key && x.identity == identity && x.negotiated then 1 else 0
  {
    assert (executed + [x])[..|executed|] == executed;
  }

  /** A provider with this key has the request waiting. */
  ghost predicate Waits(providers: map<string, Provider>, key: A.Key, identity: Identity) {
    exists name :: name in providers && providers[name].Key() == key && Waiting(identity, true) in providers[name].waiting
  }

  /** Executions, and one more where the request still waits, are covered by reservations handed out. */
  ghost predicate Covered(cell: Cell, key: A.Key, identity: Identity) {
    Executions(cell.executed, key, identity) + (if Waits(cell.providers, key, identity) then 1 else 0)
      <= Handed(cell.admitted, key, identity)
  }

  ghost predicate Once(cell: Cell) {
    && (forall name :: name in cell.providers ==> cell.providers[name].id == name)
    && forall key, identity :: Covered(cell, key, identity)
  }

  /** Providers share no key. */
  lemma OneProviderPerKey(providers: map<string, Provider>, n: string, m: string)
    requires forall name :: name in providers ==> providers[name].id == name
    requires n in providers && m in providers && providers[n].Key() == providers[m].Key()
    ensures n == m
  {
    H.ResourceKeyInjective(providers[n].id, providers[n].boot, providers[m].id, providers[m].boot);
  }

  /** A step that only takes requests off a provider's waiting list, or restarts it, keeps the count. */
  lemma LessWaiting(cell: Cell, name: string, p: Provider)
    requires Once(cell) && name in cell.providers && p.id == name
    requires p.waiting == {} || (p.Key() == cell.providers[name].Key() && p.waiting <= cell.providers[name].waiting)
    ensures Once(cell.(providers := cell.providers[name := p]))
  {
    hide ResourceKey; hide Handed; hide Executions;
    var next := cell.(providers := cell.providers[name := p]);
    forall key, identity ensures Covered(next, key, identity) {
      assert Covered(cell, key, identity);
      if Waits(next.providers, key, identity) {
        var n :| n in next.providers && next.providers[n].Key() == key && Waiting(identity, true) in next.providers[n].waiting;
        assert n in cell.providers && cell.providers[n].Key() == key && Waiting(identity, true) in cell.providers[n].waiting;
      }
    }
  }

  lemma AskOnce(cell: Cell, name: string, p: Provider, more: seq<Admitted>, identity: Identity)
    requires Once(cell) && name in cell.providers && p.id == name && p.Key() == cell.providers[name].Key()
    requires more != [] ==> |more| == 1 && more[0].key == p.Key() && more[0].identity == identity
    requires forall w :: w in p.waiting && w.negotiated ==> w in cell.providers[name].waiting || (more != [] && w.identity == identity)
    ensures Once(cell.(providers := cell.providers[name := p], admitted := cell.admitted + more))
  {
    hide ResourceKey; hide Handed; hide Executions;
    var next := cell.(providers := cell.providers[name := p], admitted := cell.admitted + more);
    if more != [] { assert more == [more[0]]; } else { assert cell.admitted + more == cell.admitted; }
    forall key, id ensures Covered(next, key, id) {
      assert Covered(cell, key, id);
      if more != [] { HandedMore(cell.admitted, more[0], key, id); }
      if Waits(next.providers, key, id) && !Waits(cell.providers, key, id) {
        var n :| n in next.providers && next.providers[n].Key() == key && Waiting(id, true) in next.providers[n].waiting;
        assert n == name;
      }
    }
  }

  lemma SelectOnce(cell: Cell, name: string, p: Provider, more: seq<Executed>, identity: Identity)
    requires Once(cell) && name in cell.providers && p.id == name && p.Key() == cell.providers[name].Key()
    requires p.waiting <= cell.providers[name].waiting
    requires more != [] ==> |more| == 1 && more[0].key == p.Key() && more[0].identity == identity
    requires more != [] && more[0].negotiated ==>
      Waiting(identity, true) in cell.providers[name].waiting && Waiting(identity, true) !in p.waiting
    ensures Once(cell.(providers := cell.providers[name := p], executed := cell.executed + more))
  {
    LessWaiting(cell, name, p);
    var between := cell.(providers := cell.providers[name := p]);
    var next := between.(executed := cell.executed + more);
    hide ResourceKey; hide Handed; hide Executions;
    if more != [] { assert more == [more[0]]; } else { assert cell.executed + more == cell.executed; }
    forall key, id ensures Covered(next, key, id) {
      assert Covered(between, key, id) && Covered(cell, key, id);
      if more != [] { ExecutionsMore(cell.executed, more[0], key, id); }
      if more != [] && more[0].negotiated && key == p.Key() && id == identity {
        assert Waits(cell.providers, key, id);
        NoLongerWaits(cell, name, p, identity);
      }
    }
  }

  lemma NoLongerWaits(cell: Cell, name: string, p: Provider, identity: Identity)
    requires (forall n :: n in cell.providers ==> cell.providers[n].id == n) && name in cell.providers && p.id == name
    requires Waiting(identity, true) !in p.waiting
    ensures !Waits(cell.providers[name := p], p.Key(), identity)
  {
    hide ResourceKey;
    var providers := cell.providers[name := p];
    forall n | n in providers && providers[n].Key() == p.Key() ensures n == name {
      OneProviderPerKey(providers, n, name);
    }
  }

  lemma SelectingShape(p: Provider, identity: Identity, decision: Option<T.Decision>, now: int)
    ensures var (next, more) := Selecting(p, identity, decision, now);
      && next.id == p.id && next.boot == p.boot && next.waiting <= p.waiting
      && (more != [] ==> |more| == 1 && more[0].key == p.Key() && more[0].identity == identity)
      && (more != [] && more[0].negotiated ==> Waiting(identity, true) in p.waiting && Waiting(identity, true) !in next.waiting)
  {
    hide ResourceKey; hide R.CommitItem; hide R.ReleaseItem;
  }

  lemma NextOnce(cell: Cell, step: Step)
    requires Once(cell)
    ensures Once(Next(cell, step))
  {
    if Enabled(cell, step) {
      hide Once; hide Asking; hide Selecting; hide N.Serve; hide R.ReleaseItem; hide R.ExpireDue; hide ResourceKey;
      match step {
        case AuthorityStep(message, now) => SameCounts(cell, Next(cell, step));
        case RivalStep(message, now) => SameCounts(cell, Next(cell, step));
        case AskStep(name, ask, now) =>
          OwnIds(cell);
          var (p, more) := Asking(cell, cell.providers[name], ask, now);
          S.AskingShape(cell, cell.providers[name], ask, now);
          AskOnce(cell, name, p, more, ask.identity);
        case SelectStep(name, identity, decision, now) =>
          OwnIds(cell);
          var (p, more) := Selecting(cell.providers[name], identity, decision, now);
          SelectingShape(cell.providers[name], identity, decision, now);
          SelectOnce(cell, name, p, more, identity);
        case TerminalStep(name, identity, cause, now) =>
          OwnIds(cell);
          LessWaiting(cell, name, cell.providers[name].(clock := now, book := R.ReleaseItem(cell.providers[name].book, identity, cause, now).book));
        case TickStep(name, now) =>
          OwnIds(cell);
          LessWaiting(cell, name, cell.providers[name].(clock := now, book := R.ExpireDue(cell.providers[name].book, now)));
        case RestartStep(name, boot, now) =>
          OwnIds(cell);
          LessWaiting(cell, name, Restarted(cell.providers[name], boot, now));
      }
    }
  }

  lemma OwnIds(cell: Cell)
    requires Once(cell)
    ensures forall name :: name in cell.providers ==> cell.providers[name].id == name
  {
    hide Covered;
  }

  lemma SameCounts(cell: Cell, next: Cell)
    requires Once(cell) && next.providers == cell.providers && next.admitted == cell.admitted && next.executed == cell.executed
    ensures Once(next)
  {
    hide Waits; hide Handed; hide Executions;
    forall key, identity ensures Covered(next, key, identity) {
      assert Covered(cell, key, identity);
    }
  }

  lemma StartOnce(centralized: bool)
    ensures Once(Start(centralized))
  {
    hide ResourceKey; hide Declarations;
    var cell := Start(centralized);
    forall key, identity ensures Covered(cell, key, identity) {
      assert !Waits(cell.providers, key, identity);
    }
  }

  /** In every run a provider boot executes a request that negotiated a reservation at most as often as
      it handed that request a reservation, and never on a repeated or replayed selection. */
  lemma {:induction false} ExecutedAtMostOncePerReservation(centralized: bool, steps: seq<Step>, key: A.Key, identity: Identity)
    ensures var cell := Run(Start(centralized), steps);
      Executions(cell.executed, key, identity) <= Handed(cell.admitted, key, identity)
  {
    RunOnce(centralized, steps);
    hide Run; hide Handed; hide Executions;
    assert Covered(Run(Start(centralized), steps), key, identity);
  }

  lemma {:induction false} RunOnce(centralized: bool, steps: seq<Step>)
    ensures Once(Run(Start(centralized), steps))
  {
    hide Once; hide Next; hide Start;
    if steps == [] {
      StartOnce(centralized);
    } else {
      RunOnce(centralized, steps[..|steps| - 1]);
      NextOnce(Run(Start(centralized), steps[..|steps| - 1]), steps[|steps| - 1]);
    }
  }
}
