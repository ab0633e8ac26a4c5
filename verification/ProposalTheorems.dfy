/** What the proposal machine guarantees in every run, starting from empty tables: any
    number of sweeps, handlers and syncs, interleaved in any order. */
module ProposalTheorems {
  import opened Options
  import opened Logins
  import opened ProposalValidity
  import opened ProposalTable
  import opened ProposalRuns

  const NO_FACTS := Facts(map[], Membership({}, {}, false), {}, "")

  function After(actions: seq<Action>): World
  {
    Run(START, actions)
  }

  lemma Reachable(actions: seq<Action>)
    ensures Sound(After(actions))
  {
    assert Sound(START);
    RunKeeps(START, actions);
  }

  // ---- Rows ------------------------------------------------------------------------------------------

  /** From any state on, no run removes a row or changes whom and what it is about, and a
      decided row is never written again: state, decision time and decision channel stay. */
  lemma DecidedRowsAreFrozen(w: World, actions: seq<Action>, id: nat)
    requires id < |w.ledger.rows|
    ensures var after := Run(w, actions).ledger.rows;
            && id < |after|
            && SameProposal(w.ledger.rows[id], after[id])
            && (w.ledger.rows[id].state != Proposed ==> after[id] == w.ledger.rows[id])
  {
    RunSettles(w, actions);
  }

  /** A row leaves the pending state at most once, and it is decided exactly when it has. */
  lemma EachRowLeavesOnce(actions: seq<Action>, id: nat)
    requires id < |After(actions).ledger.rows|
    ensures var l := After(actions).ledger;
            && (l.rows[id].state != Proposed <==> exists m: nat :: LeftAt(l.trace, id, m))
            && (forall m: nat, n: nat :: LeftAt(l.trace, id, m) && LeftAt(l.trace, id, n) ==> m == n)
            && (forall m: nat :: LeftAt(l.trace, id, m) ==> l.trace[m].state == l.rows[id].state)
  {
    Reachable(actions);
    hide After, OptOutsExact, AcceptedAfterLanding, DeclinedWithOptOut, ClearedAfterLanding, AllFit;
  }

  /** Accepted and declined rows were decided on the console, expired ones by the clock,
      superseded ones by reconciliation, and pending ones not at all. */
  lemma DecisionsArePaired(actions: seq<Action>, id: nat)
    requires id < |After(actions).ledger.rows|
    ensures var p := After(actions).ledger.rows[id];
            && (p.via == Console <==> p.state in {Accepted, Declined})
            && (p.via == AutoExpire <==> p.state == Expired)
            && (p.via == SyncSuperseded <==> p.state == Superseded)
            && (p.decidedAt == None <==> p.state == Proposed)
  {
    Reachable(actions);
    hide After;
    assert Paired(After(actions).ledger.rows[id]);
  }

  lemma OnePendingProposalPerPr(actions: seq<Action>)
    ensures OnePendingPerPr(After(actions).ledger.rows)
  {
    Reachable(actions);
    hide After;
  }

  // ---- Decisions and their grounds -----------------------------------------------------------------

  /** Behind every accepted row there is an earlier step in which GitHub confirmed the
      assignment of that reviewer to that pull request. */
  lemma AcceptedMeansLanded(actions: seq<Action>, id: nat)
    requires id < |After(actions).ledger.rows| && After(actions).ledger.rows[id].state == Accepted
    ensures var l := After(actions).ledger;
            exists m: nat :: LeftAt(l.trace, id, m) && LandedBefore(l.trace, l.rows[id], m)
  {
    Reachable(actions);
    hide After;
    var l := After(actions).ledger;
    var m: nat :| LeftAt(l.trace, id, m);
    assert l.trace[m].state == Accepted;
    assert LandedBefore(l.trace, l.rows[id], m);
  }

  ghost predicate ClearedSince(trace: seq<Event>, key: OptOutKey, start: nat)
  {
    exists k :: start <= k < |trace| && trace[k].Cleared? && trace[k].key == key
  }

  lemma {:induction false} StaysOptedOut(trace: seq<Event>, key: OptOutKey, m: nat)
    requires m < |trace| && trace[m] == OptedOut(key)
    ensures LastOptedOut(trace, key) || ClearedSince(trace, key, m + 1)
    decreases |trace|
  {
    var before := trace[..|trace| - 1];
    if m < |before| {
      StaysOptedOut(before, key, m);
      if ClearedSince(before, key, m + 1) {
        var k :| m + 1 <= k < |before| && before[k].Cleared? && before[k].key == key;
        assert trace[k].Cleared? && trace[k].key == key;
      }
    }
  }

  /** A declined row has an opt-out under the reviewer's normalized login, and it is active
      unless it was cleared after the decline: by a GitHub assignment seen by the syncer, or
      by an assign-anyway, which GitHub had confirmed before. */
  lemma DeclinedMeansOptedOut(actions: seq<Action>, id: nat)
    requires id < |After(actions).ledger.rows| && After(actions).ledger.rows[id].state == Declined
    ensures var l := After(actions).ledger;
            var key := KeyOf(l.rows[id]);
            exists m: nat ::
              && LeftAt(l.trace, id, m)
              && ((key in l.optOuts && l.optOuts[key].active) || ClearedSince(l.trace, key, m + 2))
    ensures ClearedAfterLanding(After(actions).ledger.trace)
  {
    Reachable(actions);
    hide After, LastOptedOut, KeyOf;
    var l := After(actions).ledger;
    var key := KeyOf(l.rows[id]);
    var m: nat :| LeftAt(l.trace, id, m);
    assert l.trace[m].state == Declined;
    StaysOptedOut(l.trace, key, m + 1);
    assert LeftAt(l.trace, id, m) && ((key in l.optOuts && l.optOuts[key].active) || ClearedSince(l.trace, key, m + 2));
  }

  /** An opt-out is active exactly when the last thing that happened to it was an opting
      out, and no two rows stand for spellings of one login. */
  lemma OptOutsFollowTheirHistory(actions: seq<Action>, key: OptOutKey)
    ensures var l := After(actions).ledger;
            && ((key in l.optOuts && l.optOuts[key].active) <==> LastOptedOut(l.trace, key))
            && (key in l.optOuts ==> key.login == Normalize(key.login))
  {
    Reachable(actions);
    hide After, Normalize, LastOptedOut;
  }

  // ---- Whose decisions ----------------------------------------------------------------------------------

  ghost predicate ActsFor(p: Process, user: string)
  {
    match p
    case Retiring(_, _, _) => true
    case SweepReading(_, _, _) => true
    case Sweeping(_, _, _, _, _, _) => true
    case Done => true
    case _ => Normalize(p.copy.row.login) == Normalize(user)
  }

  predicate IsConsoleDecision(event: Event)
  {
    event.Left? && event.state in {Accepted, Declined}
  }

  ghost predicate DecidedByOwner(w: World, m: nat)
    requires m < |w.ledger.trace| && w.ledger.trace[m].Left?
  {
    var (id, actor) := (w.ledger.trace[m].id, w.ledger.trace[m].actor);
    id < |w.ledger.rows| && actor < |w.users| && Normalize(w.ledger.rows[id].login) == Normalize(w.users[actor])
  }

  ghost predicate Owned(w: World)
  {
    && |w.users| == |w.processes|
    && (forall a: nat :: a < |w.processes| ==> ActsFor(w.processes[a], w.users[a]))
    && (forall m: nat :: m < |w.ledger.trace| && IsConsoleDecision(w.ledger.trace[m]) ==> DecidedByOwner(w, m))
  }

  // What a step adds to the history: console decisions only about the process's own row.
  lemma AdvanceActsFor(l: Ledger, p: Process, actor: Actor, a: Answers, user: string)
    requires ProcessFits(l, p, actor) && ActsFor(p, user)
    ensures var (after, q) := Advance(l, p, actor, a);
            && ActsFor(q, user)
            && forall m :: |l.trace| <= m < |after.trace| && IsConsoleDecision(after.trace[m]) ==>
                 && after.trace[m].actor == actor && after.trace[m].id < |l.rows|
                 && Normalize(l.rows[after.trace[m].id].login) == Normalize(user)
  {
    hide Normalize, LiveValidityOf, FateOnRow, CanSelfAssign, LandedBefore, SweepFits, KeyOf;
  }

  lemma OldDecisionsStayOwned(w: World, after: World)
    requires Owned(w) && Settles(w.ledger, after.ledger) && w.users <= after.users
    ensures forall m: nat :: m < |w.ledger.trace| && IsConsoleDecision(after.ledger.trace[m]) ==>
        DecidedByOwner(after, m)
  {
    hide Normalize;
    forall m: nat | m < |w.ledger.trace| && IsConsoleDecision(after.ledger.trace[m])
      ensures DecidedByOwner(after, m)
    {
      assert after.ledger.trace[m] == w.ledger.trace[m];
      assert DecidedByOwner(w, m);
    }
  }

  lemma ExecKeepsOwned(w: World, action: Action)
    requires Sound(w) && Owned(w)
    ensures Owned(Exec(w, action))
  {
    hide Normalize, ProcessFits, Consistent, ActsFor, Settles;
    var after := Exec(w, action);
    ExecSettles(w, action);
    OldDecisionsStayOwned(w, after);
    if action.Open? {
      OpenedActsFor(w.ledger, action.handler, action.user, action.id, action.now);
    } else if action.BeginSweep? {
      SweepActsFor(w.ledger, action.repo, action.now, action.order);
    } else if action.Step? && action.actor < |w.processes| {
      StepStaysOwned(w, action.actor, action.answers);
    }
  }

  lemma OpenedActsFor(l: Ledger, handler: Handler, user: string, id: nat, now: int)
    ensures ActsFor(Opened(l, handler, user, id, now), user)
  {
    hide Normalize;
  }

  lemma SweepActsFor(l: Ledger, repo: int, now: int, order: seq<nat>)
    ensures ActsFor(SweepOf(l, repo, now, order), "")
  {
    hide IsReading;
  }

  lemma StepStaysOwned(w: World, actor: Actor, answers: Answers)
    requires Sound(w) && Owned(w) && actor < |w.processes|
    ensures Owned(Exec(w, Step(actor, answers)))
  {
    hide Normalize, ProcessFits, Consistent, ActsFor, Advance;
    var after := Exec(w, Step(actor, answers));
    AdvanceActsFor(w.ledger, w.processes[actor], actor, answers, w.users[actor]);
    AdvanceSettles(w.ledger, w.processes[actor], actor, answers);
    OldDecisionsStayOwned(w, after);
  }

  lemma {:induction false} RunKeepsOwned(w: World, actions: seq<Action>)
    requires Sound(w) && Owned(w)
    ensures Owned(Run(w, actions))
    decreases actions
  {
    hide Sound, Owned, Exec;
    if actions != [] {
      ExecKeeps(w, actions[0]);
      ExecKeepsOwned(w, actions[0]);
      RunKeepsOwned(Exec(w, actions[0]), actions[1..]);
    }
  }

  /** Accepting and declining is the reviewer's own: in every run, each such decision was
      taken by a process of the user whose normalized login the proposal names. */
  lemma ConsoleDecisionsAreTheReviewersOwn(actions: seq<Action>, m: nat)
    requires m < |After(actions).ledger.trace| && IsConsoleDecision(After(actions).ledger.trace[m])
    ensures DecidedByOwner(After(actions), m)
  {
    assert Sound(START) && Owned(START);
    RunKeepsOwned(START, actions);
    hide After;
  }

  /** GitHub is asked on behalf of an accept only for a proposal that was pending and live
      under the facts the handler had read. */
  lemma AcceptAsksOnlyForLiveProposals(actions: seq<Action>, actor: Actor)
    requires actor < |After(actions).processes| && After(actions).processes[actor].AcceptChecked?
    ensures var p := After(actions).processes[actor];
            p.copy.row.state == Proposed && LiveValidityOf(p.copy.row, p.now, p.facts).isLive
  {
    Reachable(actions);
    hide After, Consistent;
    var w := After(actions);
    assert ProcessFits(w.ledger, w.processes[actor], actor);
  }

  /** An accept passes its check only while the reviewer has no active opt-out for the pull
      request. */
  lemma PassedCheckMeansNoOptOut(actions: seq<Action>, actor: Actor, answers: Answers)
    requires actor < |After(actions).processes| && After(actions).processes[actor].AcceptLoaded?
    requires Exec(After(actions), Step(actor, answers)).processes[actor].AcceptChecked?
    ensures var (l, key) := (After(actions).ledger, KeyOf(After(actions).processes[actor].copy.row));
            key in l.optOuts ==> !l.optOuts[key].active
  {
    Reachable(actions);
    var w := After(actions);
    var p := w.processes[actor];
    hide After;
    assert ProcessFits(w.ledger, p, actor);
    LiveMeansNoOptOut(w.ledger, p.copy.row, p.now, answers.facts);
    assert w.ledger.trace[..|w.ledger.trace|] == w.ledger.trace;
    hide LiveValidityOf, Normalize, FactsRead, LastOptedOut, ProcessFits;
  }

  lemma {:induction false} OptedOutSince(trace: seq<Event>, key: OptOutKey, start: nat)
    requires start <= |trace| && LastOptedOut(trace, key) && !LastOptedOut(trace[..start], key)
    ensures exists k :: start <= k < |trace| && trace[k] == OptedOut(key)
    decreases |trace|
  {
    assert trace[..|trace|] == trace;
    if trace[|trace| - 1] != OptedOut(key) {
      var before := trace[..|trace| - 1];
      assert start < |trace|;
      assert before[..start] == trace[..start];
      OptedOutSince(before, key, start);
      var k :| start <= k < |before| && before[k] == OptedOut(key);
      assert trace[k] == OptedOut(key);
    }
  }

  /** In every run, between an accept's check and its commit: if the reviewer has an active
      opt-out for the pull request, it was written after the check. */
  lemma OptOutsAfterTheCheck(actions: seq<Action>, actor: Actor)
    requires actor < |After(actions).processes|
    requires After(actions).processes[actor].AcceptChecked? || After(actions).processes[actor].AcceptConfirmed?
    ensures var (l, p) := (After(actions).ledger, After(actions).processes[actor]);
            var key := KeyOf(p.copy.row);
            key in l.optOuts && l.optOuts[key].active ==>
              exists k :: p.checkedAt <= k < |l.trace| && l.trace[k] == OptedOut(key)
  {
    Reachable(actions);
    var w := After(actions);
    hide After;
    var p := w.processes[actor];
    assert ProcessFits(w.ledger, p, actor);
    var key := KeyOf(p.copy.row);
    assert OptOutsExact(w.ledger) && FoundNoOptOut(w.ledger.trace, p.copy.row, p.checkedAt);
    hide KeyOf, LastOptedOut, LiveValidityOf, Consistent, ProcessFits;
    if key in w.ledger.optOuts && w.ledger.optOuts[key].active {
      OptedOutSince(w.ledger.trace, key, p.checkedAt);
    }
  }

  // The state in which a handler that is about to commit leaves a pending row.
  function Committing(p: Process): Option<ProposalState>
  {
    match p
    case AcceptConfirmed(_, _, _) => Some(Accepted)
    case AnywayConfirmed(_, _) => Some(Accepted)
    case DeclineLoaded(_, _) => Some(Declined)
    case Retiring(_, _, state) => Some(state)
    case _ => None
  }

  /** A handler's commit always takes effect: afterwards its row is decided, by this commit
      if it was still pending, at the handler's own time; and the reviewer's opt-out is active
      after a decline and not active after an assign-anyway, whether or not the row was pending. */
  lemma CommitsTakeEffect(actions: seq<Action>, actor: Actor, answers: Answers)
    requires actor < |After(actions).processes| && Committing(After(actions).processes[actor]).Some?
    ensures var (w, p) := (After(actions), After(actions).processes[actor]);
            var (l, id) := (Exec(w, Step(actor, answers)).ledger, p.copy.id);
            && id < |w.ledger.rows| == |l.rows|
            && l.rows[id] == (if w.ledger.rows[id].state == Proposed
                              then Decide(w.ledger.rows[id], Committing(p).value, ViaOf(Committing(p).value), p.now)
                              else w.ledger.rows[id])
            && (forall i :: 0 <= i < |l.rows| && i != id ==> l.rows[i] == w.ledger.rows[i])
            && (p.DeclineLoaded? ==> KeyOf(l.rows[id]) in l.optOuts && l.optOuts[KeyOf(l.rows[id])].active)
            && (p.AnywayConfirmed? && KeyOf(l.rows[id]) in l.optOuts ==> !l.optOuts[KeyOf(l.rows[id])].active)
  {
    Reachable(actions);
    hide After, Consistent, Normalize, LandedBefore;
    var w := After(actions);
    assert ProcessFits(w.ledger, w.processes[actor], actor);
  }

  // ---- What interleaving can do all the same ---------------------------------------------------------

  const CONFIRMED := Answers(NO_FACTS, None, true, true, false)

  lemma RunTwo(w: World, x: Action, y: Action, rest: seq<Action>)
    ensures Run(w, [x, y] + rest) == Run(Exec(Exec(w, x), y), rest)
  {
    hide Exec;
    var actions := [x, y] + rest;
    assert actions[1..] == [y] + rest && actions[1..][1..] == rest;
    assert Run(w, actions) == Run(Exec(w, x), actions[1..]);
  }

  function AcceptRacingDecline(login: string): seq<Action>
  {
    [Open(AcceptHandler, login, 0, 5), Open(DeclineHandler, login, 0, 5)]
    + ([Step(0, CONFIRMED), Step(0, CONFIRMED)] + ([Step(0, CONFIRMED), Step(1, CONFIRMED)] + []))
  }

  lemma UndisputedIsLive(login: string)
    ensures LiveValidityOf(NewProposal(1, 7, login, 10), 5, NO_FACTS).terminalState == None
  {
    hide Normalize;
  }

  function BothOpen(login: string): World
  {
    var copy := Copy(0, NewProposal(1, 7, login, 10));
    World(Ledger([copy.row], map[], []), [AcceptLoaded(copy, 5), DeclineLoaded(copy, 5)], [login, login])
  }

  function AcceptLanded(login: string): World
  {
    var copy := Copy(0, NewProposal(1, 7, login, 10));
    World(Ledger([copy.row], map[], [Landed(1, 7, login)]), [AcceptConfirmed(copy, 5, 0), DeclineLoaded(copy, 5)],
        [login, login])
  }

  lemma RaceOpens(login: string)
    ensures Exec(Exec(Exec(START, Create(1, 7, login, 10)), Open(AcceptHandler, login, 0, 5)),
        Open(DeclineHandler, login, 0, 5))
         == BothOpen(login)
  {
    hide Normalize, LiveValidityOf;
    assert Exec(START, Create(1, 7, login, 10)) == World(Ledger([NewProposal(1, 7, login, 10)], map[], []), [], []);
  }

  lemma RaceConfirms(login: string)
    ensures Exec(Exec(BothOpen(login), Step(0, CONFIRMED)), Step(0, CONFIRMED)) == AcceptLanded(login)
  {
    UndisputedIsLive(login);
    hide Normalize, LiveValidityOf;
    assert OptOutsRead(BothOpen(login).ledger, 1) == {};
    assert FactsRead(BothOpen(login).ledger, 1, NO_FACTS) == NO_FACTS;
  }

  lemma RaceEnds(login: string)
    ensures var l := Exec(Exec(AcceptLanded(login), Step(0, CONFIRMED)), Step(1, CONFIRMED)).ledger;
            && |l.rows| == 1 && l.rows[0].state == Accepted
            && KeyOf(l.rows[0]) in l.optOuts && l.optOuts[KeyOf(l.rows[0])].active
  {
    hide Normalize;
    var w := Exec(AcceptLanded(login), Step(0, CONFIRMED));
    assert w.ledger.rows == [Decide(NewProposal(1, 7, login, 10), Accepted, Console, 5)];
  }

  /** A decline that loses the race against an accept still opts the reviewer out: the row
      ends accepted, beside an active opt-out for the same reviewer and pull request. */
  lemma LostDeclineStillOptsOut(login: string)
    ensures var l := After([Create(1, 7, login, 10)] + AcceptRacingDecline(login)).ledger;
            && |l.rows| == 1 && l.rows[0].state == Accepted
            && KeyOf(l.rows[0]) in l.optOuts && l.optOuts[KeyOf(l.rows[0])].active
  {
    var actions := [Create(1, 7, login, 10)] + AcceptRacingDecline(login);
    assert actions[1..] == AcceptRacingDecline(login);
    assert After(actions) == Run(Exec(START, Create(1, 7, login, 10)), actions[1..]);
    var w1 := Exec(START, Create(1, 7, login, 10));
    RaceOpens(login);
    RaceConfirms(login);
    RaceEnds(login);
    hide Exec, Run, BothOpen, AcceptLanded, KeyOf;
    RunTwo(w1, Open(AcceptHandler, login, 0, 5), Open(DeclineHandler, login, 0, 5),
           [Step(0, CONFIRMED), Step(0, CONFIRMED)] + ([Step(0, CONFIRMED), Step(1, CONFIRMED)] + []));
    RunTwo(BothOpen(login), Step(0, CONFIRMED), Step(0, CONFIRMED), [Step(0, CONFIRMED), Step(1, CONFIRMED)] + []);
    RunTwo(AcceptLanded(login), Step(0, CONFIRMED), Step(1, CONFIRMED), []);
    RunNothing(Exec(Exec(AcceptLanded(login), Step(0, CONFIRMED)), Step(1, CONFIRMED)));
  }

  lemma RunNothing(w: World)
    ensures Run(w, []) == w
  {
  }
}
