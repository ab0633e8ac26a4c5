/** Sweeps of the proposal machine: what their statistics account for when anything runs in
    between, and what an undisturbed sweep leaves. */
module ProposalSweeps {
  import opened Options
  import opened Logins
  import opened ProposalValidity
  import opened ProposalTable
  import opened ProposalRuns
  import opened ProposalTheorems

  // ---- Sweeps -------------------------------------------------------------------------------------------

  ghost function RowsLeftBy(trace: seq<Event>, actor: Actor, state: ProposalState): set<nat>
  {
    set m | 0 <= m < |trace| && trace[m].Left? && trace[m].actor == actor && trace[m].state == state :: trace[m].id
  }

  ghost predicate LeavesDistinct(trace: seq<Event>)
  {
    forall m, n :: 0 <= m < n < |trace| && trace[m].Left? && trace[n].Left? ==> trace[m].id != trace[n].id
  }

  lemma RowsGrow(before: seq<Event>, last: Event, actor: Actor, state: ProposalState)
    ensures RowsLeftBy(before + [last], actor, state)
         == RowsLeftBy(before, actor, state)
            + if last.Left? && last.actor == actor && last.state == state then {last.id} else {}
  {
    var trace := before + [last];
    assert forall m :: 0 <= m < |before| ==> trace[m] == before[m];
    assert trace[|before|] == last;
    forall id | id in RowsLeftBy(before, actor, state)
      ensures id in RowsLeftBy(trace, actor, state)
    {
      var m :| 0 <= m < |before| && before[m].Left? && before[m].actor == actor && before[m].state == state
          && before[m].id == id;
      assert trace[m].id == id;
    }
  }

  lemma NotYetLeft(before: seq<Event>, last: Event, actor: Actor, state: ProposalState)
    requires LeavesDistinct(before + [last]) && last.Left?
    ensures LeavesDistinct(before) && last.id !in RowsLeftBy(before, actor, state)
  {
    var trace := before + [last];
    assert trace[|before|] == last;
    assert forall m :: 0 <= m < |before| ==> trace[m] == before[m];
  }

  lemma {:induction false} CountIsRows(trace: seq<Event>, actor: Actor, state: ProposalState)
    requires LeavesDistinct(trace)
    ensures |RowsLeftBy(trace, actor, state)| == LeftCount(trace, actor, state)
    decreases |trace|
  {
    if trace != [] {
      var before, last := trace[..|trace| - 1], trace[|trace| - 1];
      assert trace == before + [last];
      assert LeavesDistinct(before);
      hide RowsLeftBy, LeavesDistinct;
      CountIsRows(before, actor, state);
      RowsGrow(before, last, actor, state);
      if last.Left? {
        NotYetLeft(before, last, actor, state);
      }
    } else {
      assert RowsLeftBy(trace, actor, state) == {};
    }
  }

  /** At every moment of every run the statistics of a sweep account for each row it read,
      and its expired and superseded counts are the numbers of rows it moved itself. */
  lemma SweepAccounts(actions: seq<Action>, actor: Actor)
    requires actor < |After(actions).processes| && After(actions).processes[actor].Sweeping?
    ensures var (trace, sweep) := (After(actions).ledger.trace, After(actions).processes[actor]);
            var stats := sweep.stats;
            && sweep.next <= |sweep.copies|
            && stats.active == stats.expired + stats.superseded + stats.stillLive + stats.errored
                + (|sweep.copies| - sweep.next)
            && stats.expired == |RowsLeftBy(trace, actor, Expired)|
            && stats.superseded == |RowsLeftBy(trace, actor, Superseded)|
  {
    Reachable(actions);
    hide After, LeftCount, CopiesFit;
    var w := After(actions);
    assert ProcessFits(w.ledger, w.processes[actor], actor);
    assert LeavesDistinct(w.ledger.trace);
    CountIsRows(w.ledger.trace, actor, Expired);
    CountIsRows(w.ledger.trace, actor, Superseded);
  }

  lemma RowsLeftByAreThere(l: Ledger, a: Actor, b: Actor, state: ProposalState)
    requires LeavesOnce(l)
    ensures forall id :: id in RowsLeftBy(l.trace, a, state) ==> id < |l.rows| && l.rows[id].state == state
    ensures a != b ==> RowsLeftBy(l.trace, a, state) !! RowsLeftBy(l.trace, b, state)
  {
    forall id | id in RowsLeftBy(l.trace, a, state) && id in RowsLeftBy(l.trace, b, state)
      ensures a == b
    {
      var m :| 0 <= m < |l.trace| && l.trace[m].Left? && l.trace[m].actor == a && l.trace[m].state == state
          && l.trace[m].id == id;
      var n :| 0 <= n < |l.trace| && l.trace[n].Left? && l.trace[n].actor == b && l.trace[n].state == state
          && l.trace[n].id == id;
      assert m == n;
    }
  }

  /** Two sweeps running into each other never retire the same row, so their counts add up
      to the number of rows the two retired. */
  lemma SweepsShareTheRows(actions: seq<Action>, a: Actor, b: Actor)
    requires a < |After(actions).processes| && After(actions).processes[a].Sweeping?
    requires b < |After(actions).processes| && After(actions).processes[b].Sweeping? && a != b
    ensures var (trace, ps) := (After(actions).ledger.trace, After(actions).processes);
            && ps[a].stats.expired + ps[b].stats.expired
               == |RowsLeftBy(trace, a, Expired) + RowsLeftBy(trace, b, Expired)|
            && ps[a].stats.superseded + ps[b].stats.superseded
               == |RowsLeftBy(trace, a, Superseded) + RowsLeftBy(trace, b, Superseded)|
  {
    Reachable(actions);
    SweepAccounts(actions, a);
    SweepAccounts(actions, b);
    hide After, RowsLeftBy;
    var l := After(actions).ledger;
    RowsLeftByAreThere(l, a, b, Expired);
    RowsLeftByAreThere(l, a, b, Superseded);
  }

  /** Whatever ran in between: when a sweep has finished, every row it read is decided, or
      live under the facts the sweep had, or its update failed with a database error. */
  lemma FinishedSweepLeavesNoDeadRow(actions: seq<Action>, actor: Actor, k: nat)
    requires actor < |After(actions).processes| && After(actions).processes[actor].Sweeping?
    requires var sweep := After(actions).processes[actor]; k < |sweep.copies| == sweep.next
    ensures var (l, sweep) := (After(actions).ledger, After(actions).processes[actor]);
            var id := sweep.copies[k].id;
            && id < |l.rows|
            && (l.rows[id].state == Proposed ==>
                  LiveValidityOf(l.rows[id], sweep.now, sweep.facts).isLive || id in sweep.failed)
    ensures |After(actions).processes[actor].failed| == After(actions).processes[actor].stats.errored
  {
    Reachable(actions);
    hide After, LeftCount, Consistent;
    var (l, sweep) := (After(actions).ledger, After(actions).processes[actor]);
    assert ProcessFits(l, sweep, actor);
    var copy := sweep.copies[k];
    assert CopyFits(l, copy) && Handled(l, sweep, copy);
    if l.rows[copy.id].state == Proposed {
      SameVerdict(copy.row, l.rows[copy.id], sweep.now, sweep.facts);
    }
  }

  lemma SameVerdict(p: Proposal, q: Proposal, now: int, facts: Facts)
    requires SameProposal(p, q) && p.state == q.state
    ensures LiveValidityOf(p, now, facts) == LiveValidityOf(q, now, facts)
  {
  }

  // ---- A sweep on its own --------------------------------------------------------------------------------

  /** The steps of one sweep, one for each row still to come. */
  function SweepSteps(order: seq<nat>, actor: Actor, failing: set<int>): seq<Action>
  {
    if order == [] then [] else
      [Step(actor, Answers(NO_FACTS, None, false, false, order[0] in failing))]
      + SweepSteps(order[1..], actor, failing)
  }

  ghost predicate SweptUpTo(rows: seq<Proposal>, was: seq<Proposal>, repo: int, now: int, facts: Facts,
                            failing: set<int>, done: seq<nat>)
  {
    && |rows| == |was|
    && forall i: nat :: i < |was| ==>
         rows[i] ==
           if i in done then AfterSweep(was[i], now, FateOf(was[i], repo, now, facts, i in failing)) else was[i]
  }

  lemma OneRound(l: Ledger, p: Process, actor: Actor, was: seq<Proposal>, repo: int, failing: set<int>, done: seq<nat>)
    requires p.Sweeping? && p.next < |p.copies|
    requires var copy := p.copies[p.next];
             copy.id < |was| && copy.row == was[copy.id] && copy.row.repo == repo && copy.row.state == Proposed
                 && copy.id !in done
    requires SweptUpTo(l.rows, was, repo, p.now, p.facts, failing, done)
    ensures var copy := p.copies[p.next];
            SweptUpTo(SweepRow(l, p, actor, copy.id in failing).0.rows, was, repo, p.now, p.facts, failing,
                done + [copy.id])
  {
    hide LiveValidityOf;
    var copy := p.copies[p.next];
    var fate := FateOf(was[copy.id], repo, p.now, p.facts, copy.id in failing);
    assert FateOnRow(copy.row, l.rows[copy.id], p.now, p.facts, copy.id in failing) == fate;
    var after := SweepRow(l, p, actor, copy.id in failing).0;
    assert after.rows == l.rows[copy.id := AfterSweep(was[copy.id], p.now, fate)];
  }

  // The sweep has handled the first k rows of its reading, and nobody else did anything.
  ghost predicate SweepAt(w: World, actor: Actor, was: seq<Proposal>, repo: int, now: int, facts: Facts,
                          order: seq<nat>, failing: set<int>, k: nat)
  {
    && actor < |w.processes| && k <= |order|
    && var p := w.processes[actor];
       && p.Sweeping? && p.next == k && p.now == now && p.facts == facts && |p.copies| == |order|
       && IsReading(was, repo, order)
       && (forall i :: 0 <= i < |order| ==> p.copies[i] == Copy(order[i], was[order[i]]))
       && SweptUpTo(w.ledger.rows, was, repo, now, facts, failing, order[..k])
  }

  lemma {:induction false} SweepAloneFrom(w: World, actor: Actor, was: seq<Proposal>, repo: int, now: int, facts: Facts,
                                          order: seq<nat>, failing: set<int>, k: nat)
    requires k <= |order| && SweepAt(w, actor, was, repo, now, facts, order, failing, k)
    ensures Run(w, SweepSteps(order[k..], actor, failing)).ledger.rows == Swept(was, repo, now, facts, failing)
    decreases |order| - k
  {
    hide Exec, Run, SweepAt, Swept;
    if k == |order| {
      assert order[k..] == [];
      RunNothing(w);
      SweepEnds(w, actor, was, repo, now, facts, order, failing);
    } else {
      var step := Step(actor, Answers(NO_FACTS, None, false, false, order[k] in failing));
      NextRound(w, actor, was, repo, now, facts, order, failing, k, step.answers);
      SweepAloneFrom(Exec(w, step), actor, was, repo, now, facts, order, failing, k + 1);
      assert order[k..][1..] == order[k + 1..];
      assert SweepSteps(order[k..], actor, failing) == [step] + SweepSteps(order[k + 1..], actor, failing);
      RunOne(w, step, SweepSteps(order[k + 1..], actor, failing));
    }
  }

  lemma SweepEnds(w: World, actor: Actor, was: seq<Proposal>, repo: int, now: int, facts: Facts,
                  order: seq<nat>, failing: set<int>)
    requires SweepAt(w, actor, was, repo, now, facts, order, failing, |order|)
    ensures w.ledger.rows == Swept(was, repo, now, facts, failing)
  {
    assert order[..|order|] == order;
    hide SweptUpTo, Swept, IsReading;
    SweptThroughout(w.ledger.rows, was, repo, now, facts, failing, order);
  }

  lemma StepOfSweep(w: World, actor: Actor, answers: Answers)
    requires actor < |w.processes| && w.processes[actor].Sweeping?
        && w.processes[actor].next < |w.processes[actor].copies|
    ensures var (after, q) := SweepRow(w.ledger, w.processes[actor], actor, answers.dbError);
            Exec(w, Step(actor, answers)) == w.(ledger := after, processes := w.processes[actor := q])
  {
    hide SweepRow;
  }

  lemma RunOne(w: World, action: Action, rest: seq<Action>)
    ensures Run(w, [action] + rest) == Run(Exec(w, action), rest)
  {
    assert ([action] + rest)[1..] == rest;
  }

  lemma NextRound(w: World, actor: Actor, was: seq<Proposal>, repo: int, now: int, facts: Facts,
                  order: seq<nat>, failing: set<int>, k: nat, answers: Answers)
    requires k < |order| && SweepAt(w, actor, was, repo, now, facts, order, failing, k)
    requires answers.dbError == (order[k] in failing)
    ensures SweepAt(Exec(w, Step(actor, answers)), actor, was, repo, now, facts, order, failing, k + 1)
  {
    var p := w.processes[actor];
    assert order[..k] + [order[k]] == order[..k + 1];
    assert order[k] !in order[..k];
    assert p.copies[k] == Copy(order[k], was[order[k]]);
    assert was[order[k]].repo == repo && was[order[k]].state == Proposed;
    StepOfSweep(w, actor, answers);
    hide SweptUpTo, FateOnRow, LeaveByFate, Exec, IsReading;
    OneRound(w.ledger, p, actor, was, repo, failing, order[..k]);
  }

  lemma SweptThroughout(rows: seq<Proposal>, was: seq<Proposal>, repo: int, now: int, facts: Facts, failing: set<int>,
                        order: seq<nat>)
    requires IsReading(was, repo, order) && SweptUpTo(rows, was, repo, now, facts, failing, order)
    ensures rows == Swept(was, repo, now, facts, failing)
  {
    UntouchedUnlessPending(was, repo, now, facts, failing);
    hide FateOf, AfterSweep;
  }

  /** A sweep that nobody interferes with, run step by step in any order of its rows, leaves
      exactly the table that the sweep as a program computes. */
  lemma SweepAlone(w: World, repo: int, now: int, answers: Answers, order: seq<nat>, failing: set<int>)
    requires IsReading(w.ledger.rows, repo, order)
    ensures var actor := |w.processes|;
            Run(Exec(Exec(w, BeginSweep(repo, now, order)), Step(actor, answers)),
                SweepSteps(order, actor, failing)).ledger.rows
            == Swept(w.ledger.rows, repo, now, FactsRead(w.ledger, repo, answers.facts), failing)
  {
    var started := Exec(Exec(w, BeginSweep(repo, now, order)), Step(|w.processes|, answers));
    var facts := FactsRead(w.ledger, repo, answers.facts);
    assert order[0..] == order && order[..0] == [];
    hide Swept, FateOf, AfterSweep, Run, SweepSteps, FactsRead;
    assert SweepAt(started, |w.processes|, w.ledger.rows, repo, now, facts, order, failing, 0);
    SweepAloneFrom(started, |w.processes|, w.ledger.rows, repo, now, facts, order, failing, 0);
  }

  // ---- What counts as still live -------------------------------------------------------------------------

  ghost predicate LeftByOther(trace: seq<Event>, id: nat, actor: Actor)
  {
    exists m :: 0 <= m < |trace| && trace[m].Left? && trace[m].id == id && trace[m].actor != actor
  }

  ghost predicate IsLiveCopy(p: Process, k: nat)
    requires p.Sweeping? && k < |p.copies|
  {
    LiveValidityOf(p.copies[k].row, p.now, p.facts).isLive
  }

  // The positions of the rows handled so far that were live under the sweep's facts.
  ghost function LiveCopies(p: Process): set<nat>
    requires p.Sweeping? && p.next <= |p.copies|
  {
    set k: nat | k < p.next && IsLiveCopy(p, k)
  }

  ghost predicate IsLostCopy(trace: seq<Event>, p: Process, actor: Actor, k: nat)
    requires p.Sweeping? && k < |p.copies|
  {
    !IsLiveCopy(p, k) && p.copies[k].id !in p.failed && LeftByOther(trace, p.copies[k].id, actor)
  }

  // The positions of the dead ones that somebody else decided before the sweep could.
  ghost function LostCopies(trace: seq<Event>, p: Process, actor: Actor): set<nat>
    requires p.Sweeping? && p.next <= |p.copies|
  {
    set k: nat | k < p.next && IsLostCopy(trace, p, actor, k)
  }

  ghost predicate MovesItsCopies(trace: seq<Event>, copies: seq<Copy>, next: nat, actor: Actor)
    requires next <= |copies|
  {
    forall m :: 0 <= m < |trace| && trace[m].Left? && trace[m].actor == actor ==>
      exists k :: 0 <= k < next && copies[k].id == trace[m].id
  }

  ghost predicate StillLiveCounts(trace: seq<Event>, p: Process, actor: Actor)
  {
    match p
    case SweepReading(_, _, copies) => MovesItsCopies(trace, copies, 0, actor)
    case Sweeping(_, _, copies, next, stats, _) =>
      && next <= |copies|
      && MovesItsCopies(trace, copies, next, actor)
      && stats.stillLive == |LiveCopies(p)| + |LostCopies(trace, p, actor)|
    case _ => true
  }

  // Rows a sweep has handled: what others did to them does not change any more.
  lemma LostStaysLost(before: Ledger, after: Ledger, p: Process, actor: Actor, k: nat)
    requires p.Sweeping? && k < p.next <= |p.copies| && Handled(before, p, p.copies[k])
    requires LeavesOnce(before) && LeavesOnce(after) && before.trace <= after.trace
    ensures IsLostCopy(after.trace, p, actor, k) <==> IsLostCopy(before.trace, p, actor, k)
  {
    hide LiveValidityOf;
    var id := p.copies[k].id;
    if LeftByOther(before.trace, id, actor) {
      var m :| 0 <= m < |before.trace| && before.trace[m].Left? && before.trace[m].id == id
          && before.trace[m].actor != actor;
      assert after.trace[m] == before.trace[m];
    }
    if id < |before.rows| && before.rows[id].state != Proposed && LeftByOther(after.trace, id, actor) {
      var m: nat :| LeftAt(before.trace, id, m);
      assert after.trace[m] == before.trace[m];
      var n :| 0 <= n < |after.trace| && after.trace[n].Left? && after.trace[n].id == id
          && after.trace[n].actor != actor;
      assert m == n;
    }
  }

  lemma LostCopiesStay(before: Ledger, after: Ledger, p: Process, actor: Actor)
    requires p.Sweeping? && p.next <= |p.copies| && forall k :: 0 <= k < p.next ==> Handled(before, p, p.copies[k])
    requires LeavesOnce(before) && LeavesOnce(after) && before.trace <= after.trace
    ensures LostCopies(after.trace, p, actor) == LostCopies(before.trace, p, actor)
  {
    hide LeavesOnce, Handled, IsLostCopy;
    forall k: nat | k < p.next
      ensures IsLostCopy(after.trace, p, actor, k) <==> IsLostCopy(before.trace, p, actor, k)
    {
      LostStaysLost(before, after, p, actor, k);
    }
  }

  /** A step of another actor changes nothing in a sweep's account. */
  lemma OthersKeepCounts(before: Ledger, after: Ledger, p: Process, actor: Actor, mover: Actor)
    requires StillLiveCounts(before.trace, p, actor) && ProcessFits(before, p, actor)
    requires LeavesOnce(before) && LeavesOnce(after) && OnlyBy(before.trace, after.trace, mover) && mover != actor
    ensures StillLiveCounts(after.trace, p, actor)
  {
    if p.Sweeping? {
      LostCopiesStay(before, after, p, actor);
      MovesStay(before.trace, after.trace, p.copies, p.next, actor, mover);
    } else if p.SweepReading? {
      MovesStay(before.trace, after.trace, p.copies, 0, actor, mover);
    }
    hide LeavesOnce, OnlyBy, MovesItsCopies, LiveCopies, LostCopies, ProcessFits;
  }

  lemma MovesStay(before: seq<Event>, after: seq<Event>, copies: seq<Copy>, next: nat, actor: Actor, mover: Actor)
    requires next <= |copies| && MovesItsCopies(before, copies, next, actor)
    requires OnlyBy(before, after, mover) && mover != actor
    ensures MovesItsCopies(after, copies, next, actor)
  {
    forall m | 0 <= m < |after| && after[m].Left? && after[m].actor == actor
      ensures exists k :: 0 <= k < next && copies[k].id == after[m].id
    {
      assert m < |before| && before[m] == after[m];
    }
  }

  // The round's own row: lost exactly when it counts as still live though it is dead.
  lemma OwnRowLost(l: Ledger, p: Process, q: Process, after: Ledger, actor: Actor, dbError: bool)
    requires p.Sweeping? && SweepFits(l, p, actor) && p.next < |p.copies| && StillLiveCounts(l.trace, p, actor)
    requires LeavesOnce(l) && LeavesOnce(after) && (after, q) == SweepRow(l, p, actor, dbError)
    ensures var copy := p.copies[p.next];
            var fate := FateOnRow(copy.row, l.rows[copy.id], p.now, p.facts, dbError);
            && (IsLiveCopy(p, p.next) ==> fate == StillLive)
            && (IsLostCopy(after.trace, q, actor, p.next) <==> fate == StillLive && !IsLiveCopy(p, p.next))
  {
    var copy := p.copies[p.next];
    assert CopyFits(l, copy) && copy.row.state == Proposed;
    SweepRowIs(l, p, actor, dbError);
    var fate := FateOnRow(copy.row, l.rows[copy.id], p.now, p.facts, dbError);
    hide LiveValidityOf, SweepRow;
    if fate in {ToExpired, ToSuperseded} {
      assert after.trace[|l.trace|].Left? && after.trace[|l.trace|].id == copy.id
          && after.trace[|l.trace|].actor == actor;
      forall m | 0 <= m < |after.trace| && after.trace[m].Left? && after.trace[m].id == copy.id
        ensures after.trace[m].actor == actor
      {
        assert m == |l.trace|;
      }
    } else if fate == StillLive && !IsLiveCopy(p, p.next) {
      var m: nat :| LeftAt(l.trace, copy.id, m);
      assert l.trace[m].actor != actor;
    }
  }

  lemma OwnMoves(l: Ledger, p: Process, after: Ledger, actor: Actor, fate: Fate)
    requires p.Sweeping? && p.next < |p.copies| && MovesItsCopies(l.trace, p.copies, p.next, actor)
    requires after == LeaveByFate(l, p.copies[p.next].id, fate, p.now, actor)
    ensures MovesItsCopies(after.trace, p.copies, p.next + 1, actor)
  {
    forall m | 0 <= m < |after.trace| && after.trace[m].Left? && after.trace[m].actor == actor
      ensures exists k :: 0 <= k < p.next + 1 && p.copies[k].id == after.trace[m].id
    {
      if m < |l.trace| {
        assert after.trace[m] == l.trace[m];
      } else {
        assert p.copies[p.next].id == after.trace[m].id;
      }
    }
  }

  lemma LiveCopiesGrow(p: Process, q: Process)
    requires p.Sweeping? && p.next < |p.copies|
    requires q.Sweeping? && q.copies == p.copies && q.now == p.now && q.facts == p.facts && q.next == p.next + 1
    ensures |LiveCopies(q)| == |LiveCopies(p)| + if IsLiveCopy(p, p.next) then 1 else 0
  {
    hide LiveValidityOf;
    assert LiveCopies(q) == LiveCopies(p) + if IsLiveCopy(p, p.next) then {p.next} else {};
  }

  lemma EarlierLost(l: Ledger, p: Process, q: Process, after: Ledger, actor: Actor, k: nat)
    requires p.Sweeping? && SweepFits(l, p, actor) && k < p.next < |p.copies|
    requires q.Sweeping? && q.copies == p.copies && q.now == p.now && q.facts == p.facts
    requires q.failed == p.failed || q.failed == p.failed + {p.copies[p.next].id}
    requires LeavesOnce(l) && LeavesOnce(after) && l.trace <= after.trace
    ensures IsLostCopy(after.trace, q, actor, k) <==> IsLostCopy(l.trace, p, actor, k)
  {
    assert p.copies[k].id != p.copies[p.next].id && Handled(l, p, p.copies[k]);
    hide LiveValidityOf, LeavesOnce, LeftByOther, SweepFits, Handled;
    LostStaysLost(l, after, p, actor, k);
  }

  lemma LostCopiesGrow(l: Ledger, p: Process, q: Process, after: Ledger, actor: Actor)
    requires p.Sweeping? && SweepFits(l, p, actor) && p.next < |p.copies|
    requires q.Sweeping? && q.copies == p.copies && q.now == p.now && q.facts == p.facts && q.next == p.next + 1
    requires q.failed == p.failed || q.failed == p.failed + {p.copies[p.next].id}
    requires LeavesOnce(l) && LeavesOnce(after) && l.trace <= after.trace
    ensures |LostCopies(after.trace, q, actor)|
         == |LostCopies(l.trace, p, actor)| + if IsLostCopy(after.trace, q, actor, p.next) then 1 else 0
  {
    hide LeavesOnce, SweepFits, IsLostCopy;
    forall k: nat | k < p.next
      ensures IsLostCopy(after.trace, q, actor, k) <==> IsLostCopy(l.trace, p, actor, k)
    {
      EarlierLost(l, p, q, after, actor, k);
    }
    assert LostCopies(after.trace, q, actor)
      == LostCopies(l.trace, p, actor) + if IsLostCopy(after.trace, q, actor, p.next) then {p.next} else {};
  }

  /** A sweep's own round keeps its account. */
  lemma OwnRowKeepsCounts(l: Ledger, p: Process, actor: Actor, dbError: bool)
    requires Consistent(l) && p.Sweeping? && SweepFits(l, p, actor) && p.next < |p.copies|
    requires StillLiveCounts(l.trace, p, actor)
    ensures var (after, q) := SweepRow(l, p, actor, dbError);
            StillLiveCounts(after.trace, q, actor)
  {
    var copy := p.copies[p.next];
    assert CopyFits(l, copy) && copy.row.state == Proposed;
    var (after, q) := SweepRow(l, p, actor, dbError);
    var fate := FateOnRow(copy.row, l.rows[copy.id], p.now, p.facts, dbError);
    SweepRowKeeps(l, p, actor, dbError);
    SweepRowIs(l, p, actor, dbError);
    RowOfFate(p, q, fate);
    assert LeavesOnce(l) && LeavesOnce(after);
    hide Consistent, LeavesOnce, SweepRow, SweepFits, LeaveByFate, FateOnRow, MovesItsCopies, IsLiveCopy, IsLostCopy,
      LiveCopies, LostCopies, CopyFits, Tally;
    OwnRowLost(l, p, q, after, actor, dbError);
    OwnMoves(l, p, after, actor, fate);
    LiveCopiesGrow(p, q);
    LostCopiesGrow(l, p, q, after, actor);
  }

  lemma RowOfFate(p: Process, q: Process, fate: Fate)
    requires p.Sweeping? && p.next < |p.copies|
    requires q == p.(next := p.next + 1, stats := Tally(p.stats, fate),
                     failed := if fate == Errored then p.failed + {p.copies[p.next].id} else p.failed)
    ensures q.Sweeping? && q.copies == p.copies && q.now == p.now && q.facts == p.facts && q.next == p.next + 1
    ensures q.failed == p.failed || q.failed == p.failed + {p.copies[p.next].id}
    ensures q.stats.stillLive == p.stats.stillLive + if fate == StillLive then 1 else 0
  {
  }

  // ---- The account in every run --------------------------------------------------------------------------

  ghost predicate Counted(w: World)
  {
    forall a: nat :: a < |w.processes| ==> StillLiveCounts(w.ledger.trace, w.processes[a], a)
  }

  lemma NewReadingCounts(trace: seq<Event>, copies: seq<Copy>, actor: Actor)
    requires KnownActors(trace, actor)
    ensures MovesItsCopies(trace, copies, 0, actor)
  {
  }

  lemma OwnStepKeepsCounts(l: Ledger, p: Process, actor: Actor, a: Answers)
    requires Consistent(l) && ProcessFits(l, p, actor) && StillLiveCounts(l.trace, p, actor)
    ensures var (after, q) := Advance(l, p, actor, a); StillLiveCounts(after.trace, q, actor)
  {
    if p.Sweeping? {
      if p.next < |p.copies| {
        OwnRowKeepsCounts(l, p, actor, a.dbError);
      }
      hide SweepRow, StillLiveCounts;
    } else if p.SweepReading? {
      var q := Advance(l, p, actor, a).1;
      assert LiveCopies(q) == {} && LostCopies(l.trace, q, actor) == {};
      hide MovesItsCopies, FactsRead;
    } else {
      hide Leave, Retract, OptOutOf, LiveValidityOf, FactsRead, CanSelfAssign;
    }
  }

  lemma StepKeepsCounted(w: World, actor: Actor, answers: Answers)
    requires Sound(w) && Counted(w) && actor < |w.processes|
    ensures Counted(Exec(w, Step(actor, answers)))
  {
    var p := w.processes[actor];
    var (after, q) := Advance(w.ledger, p, actor, answers);
    assert ProcessFits(w.ledger, p, actor);
    OwnStepKeepsCounts(w.ledger, p, actor, answers);
    AdvanceKeeps(w.ledger, p, actor, answers);
    assert LeavesOnce(w.ledger) && LeavesOnce(after) && OnlyBy(w.ledger.trace, after.trace, actor);
    hide Advance, Consistent, LeavesOnce, ProcessFits, StillLiveCounts, OnlyBy, KeepsAll;
    forall a: nat | a < |w.processes| && a != actor
      ensures StillLiveCounts(after.trace, w.processes[a], a)
    {
      assert ProcessFits(w.ledger, w.processes[a], a);
      OthersKeepCounts(w.ledger, after, w.processes[a], a, actor);
    }
  }

  lemma OutsideKeepsCounted(w: World, action: Action)
    requires Sound(w) && Counted(w) && (action.Create? || action.SyncOptOut? || action.SyncClear?)
    ensures Counted(Exec(w, action))
  {
    var after := Exec(w, action).ledger;
    ExecKeeps(w, action);
    assert OnlyBy(w.ledger.trace, after.trace, |w.processes|);
    assert LeavesOnce(w.ledger) && LeavesOnce(after);
    hide Consistent, LeavesOnce, ProcessFits, StillLiveCounts, OnlyBy, PutRow, OptOutOf, Retract, Normalize;
    forall a: nat | a < |w.processes|
      ensures StillLiveCounts(after.trace, w.processes[a], a)
    {
      assert ProcessFits(w.ledger, w.processes[a], a);
      OthersKeepCounts(w.ledger, after, w.processes[a], a, |w.processes|);
    }
  }

  lemma StartKeepsCounted(w: World, action: Action)
    requires Sound(w) && Counted(w) && (action.Open? || action.BeginSweep?)
    ensures Counted(Exec(w, action))
  {
    hide Normalize, IsReading, LiveCopies, LostCopies;
    var p := Exec(w, action).processes[|w.processes|];
    if p.SweepReading? {
      NewReadingCounts(w.ledger.trace, p.copies, |w.processes|);
    }
    hide MovesItsCopies;
  }

  lemma {:induction false} RunKeepsCounted(w: World, actions: seq<Action>)
    requires Sound(w) && Counted(w)
    ensures Counted(Run(w, actions))
    decreases actions
  {
    hide Sound, Counted, Exec;
    if actions != [] {
      ExecKeeps(w, actions[0]);
      if actions[0].Step? {
        if actions[0].actor < |w.processes| {
          StepKeepsCounted(w, actions[0].actor, actions[0].answers);
        } else {
          IdleStep(w, actions[0]);
        }
      } else if actions[0].Open? || actions[0].BeginSweep? {
        StartKeepsCounted(w, actions[0]);
      } else {
        OutsideKeepsCounted(w, actions[0]);
      }
      RunKeepsCounted(Exec(w, actions[0]), actions[1..]);
    }
  }

  lemma IdleStep(w: World, action: Action)
    requires action.Step? && action.actor >= |w.processes|
    ensures Exec(w, action) == w
  {
  }

  /** What a sweep counts as still live, at every moment of every run: the handled rows that
      were live under its facts, and those dead ones that somebody else decided before the
      sweep's own update. So the count is that of the live rows exactly when nobody did. */
  lemma StillLiveExactly(actions: seq<Action>, actor: Actor)
    requires actor < |After(actions).processes| && After(actions).processes[actor].Sweeping?
    ensures var trace := After(actions).ledger.trace;
            var p := After(actions).processes[actor];
            && p.next <= |p.copies|
            && p.stats.stillLive == |LiveCopies(p)| + |LostCopies(trace, p, actor)|
            && (p.stats.stillLive == |LiveCopies(p)| <==> NobodyElseDecided(trace, p, actor))
  {
    assert Sound(START) && Counted(START);
    RunKeepsCounted(START, actions);
    var w := After(actions);
    assert StillLiveCounts(w.ledger.trace, w.processes[actor], actor);
    hide After, IsLostCopy, LiveCopies, LostCopies, MovesItsCopies, NobodyElseDecided;
    NoneLost(w.ledger.trace, w.processes[actor], actor);
  }

  // No row the sweep found dead was decided by somebody else before its update.
  ghost predicate NobodyElseDecided(trace: seq<Event>, p: Process, actor: Actor)
    requires p.Sweeping? && p.next <= |p.copies|
  {
    forall k: nat :: k < p.next ==> !IsLostCopy(trace, p, actor, k)
  }

  lemma NoneLost(trace: seq<Event>, p: Process, actor: Actor)
    requires p.Sweeping? && p.next <= |p.copies|
    ensures |LostCopies(trace, p, actor)| == 0 <==> NobodyElseDecided(trace, p, actor)
  {
    hide IsLostCopy;
    var lost := LostCopies(trace, p, actor);
    if NobodyElseDecided(trace, p, actor) {
      assert lost == {};
    } else {
      var k: nat :| k < p.next && IsLostCopy(trace, p, actor, k);
      assert k in lost;
    }
  }

  // ---- A miscount ----------------------------------------------------------------------------------------

  function Overdue(login: string): Copy
  {
    Copy(0, NewProposal(1, 7, login, 10))
  }

  function BothReading(login: string): World
  {
    World(Ledger([Overdue(login).row], map[], []),
          [SweepReading(1, 20, [Overdue(login)]), SweepReading(1, 20, [Overdue(login)])], ["", ""])
  }

  function BothSweeping(login: string): World
  {
    var sweep := Sweeping(20, NO_FACTS, [Overdue(login)], 0, Stats(1, 0, 0, 0, 0), {});
    World(Ledger([Overdue(login).row], map[], []), [sweep, sweep], ["", ""])
  }

  lemma SweepsStart(login: string)
    ensures Exec(Exec(Exec(START, Create(1, 7, login, 10)), BeginSweep(1, 20, [0])), BeginSweep(1, 20, [0]))
        == BothReading(login)
  {
    var w := World(Ledger([Overdue(login).row], map[], []), [], []);
    assert Exec(START, Create(1, 7, login, 10)) == w;
    assert IsReading(w.ledger.rows, 1, [0]) by {
      assert [0][0] == 0;
    }
    assert SweepOf(w.ledger, 1, 20, [0]) == SweepReading(1, 20, [Overdue(login)]);
    hide IsReading;
  }

  lemma SweepsRead(login: string)
    ensures Exec(Exec(BothReading(login), Step(0, CONFIRMED)), Step(1, CONFIRMED)) == BothSweeping(login)
  {
    assert OptOutsRead(BothReading(login).ledger, 1) == {};
    assert FactsRead(BothReading(login).ledger, 1, NO_FACTS) == NO_FACTS;
  }

  lemma OverdueIsExpired(login: string)
    ensures LiveValidityOf(Overdue(login).row, 20, NO_FACTS).terminalState == Some(Expired)
  {
    hide Normalize;
  }

  lemma SweepsRace(login: string)
    ensures var w := Exec(Exec(BothSweeping(login), Step(0, CONFIRMED)), Step(1, CONFIRMED));
            && |w.ledger.rows| == 1 && w.ledger.rows[0].state == Expired
            && |w.processes| == 2 && w.processes[1].Sweeping?
            && w.processes[1].stats == Stats(1, 0, 0, 1, 0)
  {
    OverdueIsExpired(login);
    hide LiveValidityOf;
    var first := Exec(BothSweeping(login), Step(0, CONFIRMED));
    assert first.ledger.rows == [Decide(Overdue(login).row, Expired, AutoExpire, 20)];
    assert first.processes[1] == BothSweeping(login).processes[1];
  }

  function RacingSweeps(login: string): seq<Action>
  {
    [BeginSweep(1, 20, [0]), BeginSweep(1, 20, [0])]
    + ([Step(0, CONFIRMED), Step(1, CONFIRMED)] + ([Step(0, CONFIRMED), Step(1, CONFIRMED)] + []))
  }

  /** The miscount: of two sweeps over one overdue proposal the first expires it, and the
      second counts it as still live. */
  lemma SecondSweepMiscounts(login: string)
    ensures var w := After([Create(1, 7, login, 10)] + RacingSweeps(login));
            && |w.ledger.rows| == 1 && w.ledger.rows[0].state == Expired
            && |w.processes| == 2 && w.processes[1].Sweeping?
            && w.processes[1].stats == Stats(1, 0, 0, 1, 0)
  {
    var actions := [Create(1, 7, login, 10)] + RacingSweeps(login);
    assert actions[1..] == RacingSweeps(login);
    assert After(actions) == Run(Exec(START, Create(1, 7, login, 10)), actions[1..]);
    var w1 := Exec(START, Create(1, 7, login, 10));
    SweepsStart(login);
    SweepsRead(login);
    SweepsRace(login);
    hide Exec, Run, BothReading, BothSweeping;
    RunTwo(w1, BeginSweep(1, 20, [0]), BeginSweep(1, 20, [0]),
           [Step(0, CONFIRMED), Step(1, CONFIRMED)] + ([Step(0, CONFIRMED), Step(1, CONFIRMED)] + []));
    RunTwo(BothReading(login), Step(0, CONFIRMED), Step(1, CONFIRMED), [Step(0, CONFIRMED), Step(1, CONFIRMED)] + []);
    RunTwo(BothSweeping(login), Step(0, CONFIRMED), Step(1, CONFIRMED), []);
    RunNothing(Exec(Exec(BothSweeping(login), Step(0, CONFIRMED)), Step(1, CONFIRMED)));
  }
}
