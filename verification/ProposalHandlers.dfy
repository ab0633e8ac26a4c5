/** A handler of the proposal machine that nobody disturbs, started in any reachable state:
    what it leaves behind is what the handler run as a program does. */
module ProposalHandlers {
  import opened Options
  import opened Logins
  import opened ProposalValidity
  import opened ProposalTable
  import opened ProposalRuns
  import opened ProposalTheorems

  /** Live by the machine's own tables: pending, before its deadline, without an active opt-out
      row of its reviewer, and with nothing against it in the facts read from elsewhere. */
  predicate IsLiveInTables(l: Ledger, p: Proposal, now: int, facts: Facts)
  {
    var key := OptOutKey(p.repo, p.pr, Normalize(p.login));
    && p.state == Proposed && now < p.expiresAt
    && !(key in l.optOuts && l.optOuts[key].active)
    && !IsAssigned(p, facts) && !IsClosed(p, facts) && !HasLeftQueue(p, facts)
  }

  /** The opt-outs a handler or a sweep reads of a repository: the active rows of the table. */
  lemma OptOutsReadExactly(actions: seq<Action>, repo: int, pr: int, login: string)
    ensures var l := After(actions).ledger;
            (pr, login) in OptOutsRead(l, repo)
            <==> OptOutKey(repo, pr, login) in l.optOuts && l.optOuts[OptOutKey(repo, pr, login)].active
  {
    Reachable(actions);
    hide After, Normalize;
    var l := After(actions).ledger;
    assert NormalKeys(l.optOuts);
    var key := OptOutKey(repo, pr, login);
    if (pr, login) in OptOutsRead(l, repo) {
      var k :| k in l.optOuts && l.optOuts[k].active && k.repo == repo && (k.pr, Normalize(k.login)) == (pr, login);
      assert k == key;
    }
  }

  lemma LiveInTables(actions: seq<Action>, p: Proposal, now: int, facts: Facts)
    ensures var l := After(actions).ledger;
            LiveValidityOf(p, now, FactsRead(l, p.repo, facts)).isLive <==> IsLiveInTables(l, p, now, facts)
  {
    var l := After(actions).ledger;
    OptOutsReadExactly(actions, p.repo, p.pr, Normalize(p.login));
    LiveExactly(p, now, FactsRead(l, p.repo, facts));
    hide After, LiveValidityOf, OptOutsRead, Normalize;
  }

  lemma RunThree(w: World, x: Action, y: Action, z: Action)
    ensures Run(w, [x, y, z]) == Exec(Exec(Exec(w, x), y), z)
  {
    hide Exec;
    RunTwo(w, x, y, [z]);
    assert [x, y, z] == [x, y] + [z] && [z][1..] == [];
    RunNothing(Exec(Exec(Exec(w, x), y), z));
  }

  lemma RunFour(w: World, a: Action, b: Action, c: Action, d: Action)
    ensures Run(w, [a, b, c, d]) == Exec(Exec(Exec(Exec(w, a), b), c), d)
  {
    hide Exec;
    RunThree(Exec(w, a), b, c, d);
    assert [a, b, c, d][1..] == [b, c, d];
  }

  // A step of the youngest process.
  lemma LastSteps(w: World, l: Ledger, p: Process, a: Answers)
    ensures var (after, q) := Advance(l, p, |w.processes|, a);
            Exec(w.(ledger := l, processes := w.processes + [p]), Step(|w.processes|, a))
            == w.(ledger := after, processes := w.processes + [q])
  {
    hide Advance;
    var (after, q) := Advance(l, p, |w.processes|, a);
    assert (w.processes + [p])[|w.processes| := q] == w.processes + [q];
  }

  /** The rows that three steps of a process make of a ledger. */
  function ThreeSteps(l: Ledger, p: Process, actor: Actor, a: Answers): Ledger
  {
    var (l1, p1) := Advance(l, p, actor, a);
    var (l2, p2) := Advance(l1, p1, actor, a);
    Advance(l2, p2, actor, a).0
  }

  lemma HandlerAlone(w: World, handler: Handler, user: string, id: nat, now: int, a: Answers)
    ensures var actor := |w.processes|;
            var step := Step(actor, a);
            Run(w, [Open(handler, user, id, now), step, step, step]).ledger
            == ThreeSteps(w.ledger, Opened(w.ledger, handler, user, id, now), actor, a)
  {
    var actor, p := |w.processes|, Opened(w.ledger, handler, user, id, now);
    var step, started := Step(actor, a), w.(users := w.users + [user]);
    RunFour(w, Open(handler, user, id, now), step, step, step);
    assert Exec(w, Open(handler, user, id, now)) == started.(ledger := w.ledger, processes := w.processes + [p]);
    hide Advance, Opened, Exec;
    LastSteps(started, w.ledger, p, a);
    var (l1, p1) := Advance(w.ledger, p, actor, a);
    LastSteps(started, l1, p1, a);
    var (l2, p2) := Advance(l1, p1, actor, a);
    LastSteps(started, l2, p2, a);
  }

  /** An accept that nobody disturbs ends with the row accepted exactly when the row is the
      user's own, live by the tables, accepting is enabled and GitHub confirms; a dead row is
      retired for the reason it is dead; everything else is as before. */
  lemma AcceptAlone(actions: seq<Action>, user: string, id: nat, now: int, a: Answers)
    ensures var w := After(actions);
            var (rows, actor) := (w.ledger.rows, |w.processes|);
            var step := Step(actor, a);
            var after := Run(w, [Open(AcceptHandler, user, id, now), step, step, step]).ledger;
            && after.optOuts == w.ledger.optOuts
            && after.rows ==
               if !IsOwn(rows, id, user) then rows
               else if !IsLiveInTables(w.ledger, rows[id], now, a.facts) then
                 var facts := FactsRead(w.ledger, rows[id].repo, a.facts);
                 rows[id := RetiredFor(LiveValidityOf(rows[id], now, facts).reason, rows[id], now)]
               else if a.enabled && a.landed then
                 rows[id := rows[id].(state := Accepted, decidedAt := Some(now), via := Console)]
               else rows
  {
    var w := After(actions);
    HandlerAlone(w, AcceptHandler, user, id, now, a);
    hide After, Run, IsLiveInTables, ThreeSteps, Opened, FactsRead, LiveValidityOf, Normalize;
    if IsOwn(w.ledger.rows, id, user) {
      LiveInTables(actions, w.ledger.rows[id], now, a.facts);
      AcceptSteps(w.ledger, user, id, now, |w.processes|, a);
    } else {
      StrangersStepsDoNothing(w.ledger, user, id, now, |w.processes|, a);
    }
  }

  lemma StrangersStepsDoNothing(l: Ledger, user: string, id: nat, now: int, actor: Actor, a: Answers)
    requires !IsOwn(l.rows, id, user)
    ensures ThreeSteps(l, Opened(l, AcceptHandler, user, id, now), actor, a) == l
  {
    hide Normalize;
  }

  lemma AcceptSteps(l: Ledger, user: string, id: nat, now: int, actor: Actor, a: Answers)
    requires IsOwn(l.rows, id, user)
    ensures var after := ThreeSteps(l, Opened(l, AcceptHandler, user, id, now), actor, a);
            var verdict := LiveValidityOf(l.rows[id], now, FactsRead(l, l.rows[id].repo, a.facts));
            && after.optOuts == l.optOuts
            && after.rows ==
               if !verdict.isLive then l.rows[id := RetiredFor(verdict.reason, l.rows[id], now)]
               else if a.enabled && a.landed then
                 l.rows[id := l.rows[id].(state := Accepted, decidedAt := Some(now), via := Console)]
               else l.rows
  {
    hide LiveValidityOf, FactsRead, Normalize, IsAssigned, IsClosed, HasLeftQueue;
    ReasonExactly(l.rows[id], now, FactsRead(l, l.rows[id].repo, a.facts));
    assert l.rows[id := l.rows[id]] == l.rows;
  }

  /** A decline that nobody disturbs: the user's own pending row ends declined and the reviewer
      opted out, together; any other row and opt-out is as before. */
  lemma DeclineAlone(w: World, user: string, id: nat, now: int, a: Answers)
    ensures var (rows, optOuts, actor) := (w.ledger.rows, w.ledger.optOuts, |w.processes|);
            var step := Step(actor, a);
            var after := Run(w, [Open(DeclineHandler, user, id, now), step, step, step]).ledger;
            if IsOwn(rows, id, user) && rows[id].state == Proposed then
              && after.rows == rows[id := rows[id].(state := Declined, decidedAt := Some(now), via := Console)]
              && after.optOuts
                 == optOuts[OptOutKey(rows[id].repo, rows[id].pr, Normalize(rows[id].login)) := OptOut(true, now, None)]
            else after.rows == rows && after.optOuts == optOuts
  {
    HandlerAlone(w, DeclineHandler, user, id, now, a);
    hide Run, Normalize;
  }

  /** An assign-anyway that nobody disturbs takes effect exactly when the row is the user's own,
      the pull request is open without them, assigning is enabled and GitHub confirms. */
  lemma AnywayAlone(w: World, user: string, id: nat, now: int, a: Answers)
    ensures var (rows, optOuts, actor) := (w.ledger.rows, w.ledger.optOuts, |w.processes|);
            var step := Step(actor, a);
            var after := Run(w, [Open(AnywayHandler, user, id, now), step, step, step]).ledger;
            if IsOwn(rows, id, user) && IsOpenWithout(a.livePr, user) && a.enabled && a.landed then
              && after.rows == (if rows[id].state == Proposed
                                then rows[id := rows[id].(state := Accepted, decidedAt := Some(now), via := Console)]
                                else rows)
              && OnlyCleared(optOuts, after.optOuts,
                             OptOutKey(rows[id].repo, rows[id].pr, Normalize(rows[id].login)), now)
            else after.rows == rows && after.optOuts == optOuts
  {
    HandlerAlone(w, AnywayHandler, user, id, now, a);
    AnywaySteps(w.ledger, user, id, now, |w.processes|, a);
    hide Run, Normalize, IsOwn, IsOpenWithout, OnlyCleared, ThreeSteps, Opened;
  }

  lemma AnywaySteps(l: Ledger, user: string, id: nat, now: int, actor: Actor, a: Answers)
    ensures var after := ThreeSteps(l, Opened(l, AnywayHandler, user, id, now), actor, a);
            if IsOwn(l.rows, id, user) && IsOpenWithout(a.livePr, user) && a.enabled && a.landed then
              && after.rows == (if l.rows[id].state == Proposed
                                then l.rows[id := Decide(l.rows[id], Accepted, Console, now)]
                                else l.rows)
              && after.optOuts == ClearOptOut(l.optOuts, KeyOf(l.rows[id]), now)
              && OnlyCleared(l.optOuts, after.optOuts, KeyOf(l.rows[id]), now)
            else after.rows == l.rows && after.optOuts == l.optOuts
  {
    hide Normalize, IsOpenWithout, CanSelfAssign, KeyOf;
    SelfAssignExactly(a.livePr, user);
    if id < |l.rows| {
      ClearsOnly(l.optOuts, KeyOf(l.rows[id]), now);
    }
    hide OnlyCleared, ClearOptOut;
  }

  lemma ClearsOnly(optOuts: map<OptOutKey, OptOut>, key: OptOutKey, at: int)
    ensures OnlyCleared(optOuts, ClearOptOut(optOuts, key, at), key, at)
  {
  }

  /** What the builder and the syncer do takes effect at once, whatever is under way: a proposal
      is added unless one is pending for the pull request, and an opt-out is written or cleared
      under the normalized login; nothing else changes. */
  lemma OutsideTakesEffect(w: World, repo: int, pr: int, login: string, at: int)
    ensures var after := Exec(w, Create(repo, pr, login, at));
            && after.ledger.optOuts == w.ledger.optOuts && after.processes == w.processes
            && after.ledger.rows ==
               if exists i :: 0 <= i < |w.ledger.rows| && w.ledger.rows[i].repo == repo && w.ledger.rows[i].pr == pr
                              && w.ledger.rows[i].state == Proposed
               then w.ledger.rows
               else w.ledger.rows + [Proposal(repo, pr, login, at, Proposed, None, Undecided)]
    ensures var (after, key) := (Exec(w, SyncOptOut(repo, pr, login, at)), OptOutKey(repo, pr, Normalize(login)));
            && after.ledger.rows == w.ledger.rows && after.processes == w.processes
            && after.ledger.optOuts == w.ledger.optOuts[key := OptOut(true, at, None)]
    ensures var (after, key) := (Exec(w, SyncClear(repo, pr, login, at)), OptOutKey(repo, pr, Normalize(login)));
            && after.ledger.rows == w.ledger.rows && after.processes == w.processes
            && OnlyCleared(w.ledger.optOuts, after.ledger.optOuts, key, at)
  {
    hide Normalize;
  }
}
