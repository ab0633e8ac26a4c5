/** The proposal lifecycle as a state machine: sweeps, console handlers, guarded creation
    and opt-out syncing interleave freely, one database statement or transaction at a time.
    A ledger holds the tables and the history; the theorems hold in every run. */
module ProposalRuns {
  import opened Options
  import opened Logins
  import opened ProposalValidity
  import opened ProposalTable

  // ---- The tables and their history --------------------------------------------------------------

  type Actor = nat

  /** Landed: GitHub confirmed an assignment. Left: a row left the pending state. OptedOut and
      Cleared: an opt-out was written or retracted, the latter by assign-anyway or by a sync. */
  datatype Event =
    | Landed(repo: int, pr: int, login: string)
    | Left(id: nat, state: ProposalState, actor: Actor)
    | OptedOut(key: OptOutKey)
    | Cleared(key: OptOutKey, byConsole: bool)

  datatype Ledger = Ledger(rows: seq<Proposal>, optOuts: map<OptOutKey, OptOut>, trace: seq<Event>)

  function Note(l: Ledger, event: Event): Ledger
  {
    l.(trace := l.trace + [event])
  }

  function PutRow(l: Ledger, p: Proposal): Ledger
  {
    l.(rows := InsertGuarded(l.rows, p))
  }

  predicate IsPending(l: Ledger, id: int)
  {
    0 <= id < |l.rows| && l.rows[id].state == Proposed
  }

  function Leave(l: Ledger, id: int, state: ProposalState, now: int, actor: Actor): Ledger
  {
    if IsPending(l, id) then
      Note(l.(rows := UpdatePending(l.rows, id, state, ViaOf(state), now)), Left(id, state, actor))
    else l
  }

  function OptOutOf(l: Ledger, key: OptOutKey, at: int): Ledger
  {
    Note(l.(optOuts := SetOptOut(l.optOuts, key, at)), OptedOut(key))
  }

  function Retract(l: Ledger, key: OptOutKey, at: int, byConsole: bool): Ledger
  {
    Note(l.(optOuts := ClearOptOut(l.optOuts, key, at)), Cleared(key, byConsole))
  }

  // ---- Processes ---------------------------------------------------------------------------------------

  datatype Copy = Copy(id: nat, row: Proposal)

  /** Where a handler or a sweep stands between two atomic steps. The copied row is what the
      process read and may be out of date; a check remembers how long the history then was. */
  datatype Process =
    | AcceptLoaded(copy: Copy, now: int)
    | AcceptChecked(copy: Copy, now: int, facts: Facts, checkedAt: nat)
    | AcceptConfirmed(copy: Copy, now: int, checkedAt: nat)
    | Retiring(copy: Copy, now: int, state: ProposalState)
    | AnywayLoaded(copy: Copy, now: int, user: string)
    | AnywayAllowed(copy: Copy, now: int)
    | AnywayConfirmed(copy: Copy, now: int)
    | DeclineLoaded(copy: Copy, now: int)
    | SweepReading(repo: int, now: int, copies: seq<Copy>)
    | Sweeping(now: int, facts: Facts, copies: seq<Copy>, next: nat, stats: Stats, failed: set<nat>)
    | Done

  datatype Handler = AcceptHandler | AnywayHandler | DeclineHandler

  // The answers of the outside world to one step: the facts a handler copies, the feature
  // flag, whether GitHub confirmed, and whether the database raised an error.
  datatype Answers = Answers(facts: Facts, livePr: Option<LivePr>, enabled: bool, landed: bool, dbError: bool)

  datatype Action =
    | Create(repo: int, pr: int, login: string, expiresAt: int)
    | Open(handler: Handler, user: string, id: nat, now: int)
    | BeginSweep(repo: int, now: int, order: seq<nat>)
    | Step(actor: Actor, answers: Answers)
    | SyncOptOut(repo: int, pr: int, login: string, at: int)
    | SyncClear(repo: int, pr: int, login: string, at: int)

  // The users are the signed-in reviewers behind the processes; a sweep has none.
  datatype World = World(ledger: Ledger, processes: seq<Process>, users: seq<string>)

  const START := World(Ledger([], map[], []), [], [])

  function Opened(l: Ledger, handler: Handler, user: string, id: nat, now: int): Process
  {
    if id >= |l.rows| || Normalize(l.rows[id].login) != Normalize(user) then Done
    else
      var copy := Copy(id, l.rows[id]);
      match handler
      case AcceptHandler => if copy.row.state == Proposed then AcceptLoaded(copy, now) else Done
      case AnywayHandler => AnywayLoaded(copy, now, user)
      case DeclineHandler => if copy.row.state == Proposed then DeclineLoaded(copy, now) else Done
  }

  // The pending rows of a repository in some order, each once.
  predicate IsReading(rows: seq<Proposal>, repo: int, order: seq<nat>)
  {
    && (forall k :: 0 <= k < |order| ==>
        order[k] < |rows| && rows[order[k]].repo == repo && rows[order[k]].state == Proposed)
    && (forall j, k :: 0 <= j < k < |order| ==> order[j] != order[k])
    && (forall i :: 0 <= i < |rows| && rows[i].repo == repo && rows[i].state == Proposed ==> i in order)
  }

  function SweepOf(l: Ledger, repo: int, now: int, order: seq<nat>): Process
  {
    if IsReading(l.rows, repo, order) then
      SweepReading(repo, now, seq(|order|, k requires 0 <= k < |order| => Copy(order[k], l.rows[order[k]])))
    else Done
  }

  // The active opt-outs of a repository, read from the table.
  function OptOutsRead(l: Ledger, repo: int): set<(int, string)>
  {
    set key | key in l.optOuts && l.optOuts[key].active && key.repo == repo :: (key.pr, Normalize(key.login))
  }

  function FactsRead(l: Ledger, repo: int, facts: Facts): Facts
  {
    facts.(optOuts := OptOutsRead(l, repo))
  }

  function LeaveByFate(l: Ledger, id: int, fate: Fate, now: int, actor: Actor): Ledger
  {
    match fate
    case ToExpired => Leave(l, id, Expired, now, actor)
    case ToSuperseded => Leave(l, id, Superseded, now, actor)
    case _ => l
  }

  function SweepRow(l: Ledger, p: Process, actor: Actor, dbError: bool): (Ledger, Process)
    requires p.Sweeping? && p.next < |p.copies|
  {
    var copy := p.copies[p.next];
    var fate := if copy.id < |l.rows| then FateOnRow(copy.row, l.rows[copy.id], p.now, p.facts, dbError) else StillLive;
    (LeaveByFate(l, copy.id, fate, p.now, actor),
     p.(next := p.next + 1, stats := Tally(p.stats, fate),
        failed := if fate == Errored then p.failed + {copy.id} else p.failed))
  }

  function Advance(l: Ledger, p: Process, actor: Actor, a: Answers): (Ledger, Process)
  {
    match p
    case AcceptLoaded(copy, now) =>
      var facts := FactsRead(l, copy.row.repo, a.facts);
      (l, match LiveValidityOf(copy.row, now, facts).terminalState
          case None => AcceptChecked(copy, now, facts, |l.trace|)
          case Some(state) => Retiring(copy, now, state))
    case AcceptChecked(copy, now, _, checkedAt) =>
      if a.enabled && a.landed then
        (Note(l, Landed(copy.row.repo, copy.row.pr, copy.row.login)), AcceptConfirmed(copy, now, checkedAt))
      else (l, Done)
    case AcceptConfirmed(copy, now, _) => (Leave(l, copy.id, Accepted, now, actor), Done)
    case Retiring(copy, now, state) => (Leave(l, copy.id, state, now, actor), Done)
    case AnywayLoaded(copy, now, user) =>
      (l, if CanSelfAssign(a.livePr, user) then AnywayAllowed(copy, now) else Done)
    case AnywayAllowed(copy, now) =>
      if a.enabled && a.landed then
        (Note(l, Landed(copy.row.repo, copy.row.pr, copy.row.login)), AnywayConfirmed(copy, now))
      else (l, Done)
    case AnywayConfirmed(copy, now) =>
      (Leave(Retract(l, KeyOf(copy.row), now, true), copy.id, Accepted, now, actor), Done)
    case DeclineLoaded(copy, now) =>
      (OptOutOf(Leave(l, copy.id, Declined, now, actor), KeyOf(copy.row), now), Done)
    case SweepReading(repo, now, copies) =>
      (l, Sweeping(now, FactsRead(l, repo, a.facts), copies, 0, Stats(|copies|, 0, 0, 0, 0), {}))
    case Sweeping(_, _, copies, next, _, _) =>
      if next < |copies| then SweepRow(l, p, actor, a.dbError) else (l, p)
    case Done => (l, Done)
  }

  function Exec(w: World, action: Action): World
  {
    match action
    case Create(repo, pr, login, expiresAt) =>
      w.(ledger := PutRow(w.ledger, NewProposal(repo, pr, login, expiresAt)))
    case Open(handler, user, id, now) =>
      w.(processes := w.processes + [Opened(w.ledger, handler, user, id, now)], users := w.users + [user])
    case BeginSweep(repo, now, order) =>
      w.(processes := w.processes + [SweepOf(w.ledger, repo, now, order)], users := w.users + [""])
    case Step(actor, answers) =>
      if actor < |w.processes| then
        var (after, p) := Advance(w.ledger, w.processes[actor], actor, answers);
        w.(ledger := after, processes := w.processes[actor := p])
      else w
    case SyncOptOut(repo, pr, login, at) =>
      w.(ledger := OptOutOf(w.ledger, OptOutKey(repo, pr, Normalize(login)), at))
    case SyncClear(repo, pr, login, at) =>
      w.(ledger := Retract(w.ledger, OptOutKey(repo, pr, Normalize(login)), at, false))
  }

  function Run(w: World, actions: seq<Action>): World
    decreases actions
  {
    if actions == [] then w else Run(Exec(w, actions[0]), actions[1..])
  }

  // ---- What every step keeps: rows only ever settle -----------------------------------------------

  predicate SameProposal(p: Proposal, q: Proposal)
  {
    p.repo == q.repo && p.pr == q.pr && p.login == q.login && p.expiresAt == q.expiresAt
  }

  ghost predicate Settles(before: Ledger, after: Ledger)
  {
    && |before.rows| <= |after.rows|
    && before.trace <= after.trace
    && forall i :: 0 <= i < |before.rows| ==>
         && SameProposal(before.rows[i], after.rows[i])
         && (before.rows[i].state != Proposed ==> after.rows[i] == before.rows[i])
  }

  lemma AdvanceSettles(l: Ledger, p: Process, actor: Actor, a: Answers)
    ensures Settles(l, Advance(l, p, actor, a).0)
  {
    hide LiveValidityOf, FateOnRow, CanSelfAssign, Normalize;
  }

  lemma ExecSettles(w: World, action: Action)
    ensures Settles(w.ledger, Exec(w, action).ledger)
  {
    hide Advance, Opened, SweepOf, Normalize;
    if action.Step? && action.actor < |w.processes| {
      AdvanceSettles(w.ledger, w.processes[action.actor], action.actor, action.answers);
    }
  }

  lemma {:induction false} RunSettles(w: World, actions: seq<Action>)
    ensures Settles(w.ledger, Run(w, actions).ledger)
    decreases actions
  {
    hide Exec;
    if actions != [] {
      ExecSettles(w, actions[0]);
      RunSettles(Exec(w, actions[0]), actions[1..]);
    }
  }

  // ---- What every reachable ledger keeps -------------------------------------------------------------

  ghost predicate LeftAt(trace: seq<Event>, id: nat, m: nat)
  {
    m < |trace| && trace[m].Left? && trace[m].id == id
  }

  /** Every row that is no longer pending left that state once, in one recorded step. */
  ghost predicate LeavesOnce(l: Ledger)
  {
    && (forall m :: 0 <= m < |l.trace| && l.trace[m].Left? ==>
          l.trace[m].id < |l.rows| && l.trace[m].state != Proposed && l.rows[l.trace[m].id].state == l.trace[m].state)
    && (forall m, n :: 0 <= m < n < |l.trace| && l.trace[m].Left? && l.trace[n].Left? ==>
        l.trace[m].id != l.trace[n].id)
    && (forall i: nat :: i < |l.rows| && l.rows[i].state != Proposed ==> exists m: nat :: LeftAt(l.trace, i, m))
  }

  ghost predicate LandedBefore(trace: seq<Event>, p: Proposal, end: nat)
  {
    exists k :: 0 <= k < end && k < |trace| && trace[k] == Landed(p.repo, p.pr, p.login)
  }

  ghost predicate AcceptedAfterLanding(l: Ledger)
  {
    forall m :: 0 <= m < |l.trace| && l.trace[m].Left? && l.trace[m].state == Accepted ==>
      l.trace[m].id < |l.rows| && LandedBefore(l.trace, l.rows[l.trace[m].id], m)
  }

  ghost predicate DeclinedWithOptOut(l: Ledger)
  {
    forall m :: 0 <= m < |l.trace| && l.trace[m].Left? && l.trace[m].state == Declined ==>
      l.trace[m].id < |l.rows| && m + 1 < |l.trace| && l.trace[m + 1] == OptedOut(KeyOf(l.rows[l.trace[m].id]))
  }

  // Whether the last event about an opt-out wrote it.
  ghost predicate LastOptedOut(trace: seq<Event>, key: OptOutKey)
  {
    trace != [] &&
    var last, before := trace[|trace| - 1], trace[..|trace| - 1];
    if last == OptedOut(key) then true
    else if last.Cleared? && last.key == key then false
    else LastOptedOut(before, key)
  }

  ghost predicate OptOutsExact(l: Ledger)
  {
    forall key :: (key in l.optOuts && l.optOuts[key].active) <==> LastOptedOut(l.trace, key)
  }

  // The console retracts an opt-out only after GitHub confirmed an assignment of that login.
  ghost predicate ClearedAfterLanding(trace: seq<Event>)
  {
    forall m :: 0 <= m < |trace| && trace[m].Cleared? && trace[m].byConsole ==> KeyLandedBefore(trace, trace[m].key, m)
  }

  ghost predicate KeyLandedBefore(trace: seq<Event>, key: OptOutKey, end: nat)
  {
    exists k :: 0 <= k < end && k < |trace| && trace[k].Landed?
      && OptOutKey(trace[k].repo, trace[k].pr, Normalize(trace[k].login)) == key
  }

  // Stored logins are in normal form, so one person has one opt-out row per pull request.
  ghost predicate NormalKeys(optOuts: map<OptOutKey, OptOut>)
  {
    forall key :: key in optOuts ==> Normalize(key.login) == key.login
  }

  ghost predicate Recorded(l: Ledger)
  {
    && OnePendingPerPr(l.rows)
    && AllPaired(l.rows)
    && LeavesOnce(l)
    && AcceptedAfterLanding(l)
    && OptOutsExact(l)
    && ClearedAfterLanding(l.trace)
    && NormalKeys(l.optOuts)
  }

  ghost predicate Consistent(l: Ledger)
  {
    Recorded(l) && DeclinedWithOptOut(l)
  }

  lemma LandedStays(before: seq<Event>, after: seq<Event>, p: Proposal, q: Proposal, end: nat)
    requires LandedBefore(before, p, end) && before <= after && SameProposal(p, q)
    ensures LandedBefore(after, q, end)
  {
    var k :| 0 <= k < end && k < |before| && before[k] == Landed(p.repo, p.pr, p.login);
    assert after[k] == Landed(q.repo, q.pr, q.login);
  }

  lemma PutKeeps(l: Ledger, p: Proposal)
    requires Consistent(l) && p.state == Proposed && Paired(p)
    ensures Consistent(PutRow(l, p))
  {
    InsertKeepsTable(l.rows, p);
  }

  lemma ClearsStayLanded(trace: seq<Event>, event: Event)
    requires ClearedAfterLanding(trace)
    requires event.Cleared? && event.byConsole ==> KeyLandedBefore(trace, event.key, |trace|)
    ensures ClearedAfterLanding(trace + [event])
  {
    hide Normalize;
    var after := trace + [event];
    forall m | 0 <= m < |after| && after[m].Cleared? && after[m].byConsole
      ensures KeyLandedBefore(after, after[m].key, m)
    {
      var k :| 0 <= k < m && k < |trace| && trace[k].Landed?
        && OptOutKey(trace[k].repo, trace[k].pr, Normalize(trace[k].login)) == after[m].key;
      assert after[k] == trace[k];
    }
  }

  // An event that neither decides a row nor concerns an opt-out.
  lemma LandingKeeps(l: Ledger, repo: int, pr: int, login: string)
    requires Consistent(l)
    ensures Consistent(Note(l, Landed(repo, pr, login)))
  {
    hide KeyOf, OnePendingPerPr, AllPaired, ClearedAfterLanding, Normalize;
    var after := Note(l, Landed(repo, pr, login));
    ClearsStayLanded(l.trace, Landed(repo, pr, login));
    forall i: nat | i < |l.rows| && l.rows[i].state != Proposed
      ensures exists m: nat :: LeftAt(after.trace, i, m)
    {
      var m: nat :| LeftAt(l.trace, i, m);
      assert LeftAt(after.trace, i, m);
    }
    assert after.trace[..|l.trace|] == l.trace;
  }

  // Writing or retracting an opt-out touches no row and appends one event about it.
  lemma OptOutEventKeeps(l: Ledger, after: Ledger, event: Event)
    requires Recorded(l) && after.rows == l.rows && after.trace == l.trace + [event]
    requires event.OptedOut? || event.Cleared?
    requires NormalKeys(after.optOuts)
    requires event.Cleared? && event.byConsole ==> KeyLandedBefore(l.trace, event.key, |l.trace|)
    requires forall key :: ((key in after.optOuts && after.optOuts[key].active)
               <==> if key == event.key then event.OptedOut? else key in l.optOuts && l.optOuts[key].active)
    ensures Recorded(after)
    ensures DeclinedWithOptOut(l) ==> DeclinedWithOptOut(after)
  {
    hide KeyOf, OnePendingPerPr, AllPaired, ClearedAfterLanding, Normalize;
    ClearsStayLanded(l.trace, event);
    forall i: nat | i < |l.rows| && l.rows[i].state != Proposed
      ensures exists m: nat :: LeftAt(after.trace, i, m)
    {
      var m: nat :| LeftAt(l.trace, i, m);
      assert LeftAt(after.trace, i, m);
    }
    assert after.trace[..|l.trace|] == l.trace;
  }

  lemma OptOutKeeps(l: Ledger, key: OptOutKey, at: int)
    requires Recorded(l) && Normalize(key.login) == key.login
    ensures Recorded(OptOutOf(l, key, at))
    ensures DeclinedWithOptOut(l) ==> DeclinedWithOptOut(OptOutOf(l, key, at))
  {
    assert NormalKeys(OptOutOf(l, key, at).optOuts);
    hide Recorded, DeclinedWithOptOut, Normalize;
    OptOutEventKeeps(l, OptOutOf(l, key, at), OptedOut(key));
  }

  lemma RetractKeeps(l: Ledger, key: OptOutKey, at: int, byConsole: bool)
    requires Consistent(l)
    requires byConsole ==> KeyLandedBefore(l.trace, key, |l.trace|)
    ensures Consistent(Retract(l, key, at, byConsole))
  {
    assert NormalKeys(Retract(l, key, at, byConsole).optOuts);
    hide Recorded, DeclinedWithOptOut, KeyLandedBefore, Normalize;
    OptOutEventKeeps(l, Retract(l, key, at, byConsole), Cleared(key, byConsole));
  }

  lemma LeaveKeepsOnce(l: Ledger, id: int, state: ProposalState, now: int, actor: Actor)
    requires LeavesOnce(l) && IsPending(l, id) && state != Proposed
    ensures LeavesOnce(Leave(l, id, state, now, actor))
  {
    var after := Leave(l, id, state, now, actor);
    assert after.trace == l.trace + [Left(id, state, actor)];
    forall i: nat | i < |after.rows| && after.rows[i].state != Proposed
      ensures exists m: nat :: LeftAt(after.trace, i, m)
    {
      if i == id {
        assert LeftAt(after.trace, i, |l.trace|);
      } else {
        var m: nat :| LeftAt(l.trace, i, m);
        assert LeftAt(after.trace, i, m);
      }
    }
  }

  lemma LeaveKeepsLanding(l: Ledger, id: int, state: ProposalState, now: int, actor: Actor)
    requires LeavesOnce(l) && AcceptedAfterLanding(l) && IsPending(l, id)
    requires state == Accepted ==> LandedBefore(l.trace, l.rows[id], |l.trace|)
    ensures AcceptedAfterLanding(Leave(l, id, state, now, actor))
  {
    var after := Leave(l, id, state, now, actor);
    forall m | 0 <= m < |after.trace| && after.trace[m].Left? && after.trace[m].state == Accepted
      ensures after.trace[m].id < |after.rows| && LandedBefore(after.trace, after.rows[after.trace[m].id], m)
    {
      if m < |l.trace| {
        assert after.trace[m] == l.trace[m];
        LandedStays(l.trace, after.trace, l.rows[l.trace[m].id], after.rows[l.trace[m].id], m);
      } else {
        LandedStays(l.trace, after.trace, l.rows[id], after.rows[id], m);
      }
    }
  }

  lemma LeaveKeepsOptOuts(l: Ledger, id: int, state: ProposalState, now: int, actor: Actor)
    requires LeavesOnce(l) && DeclinedWithOptOut(l) && OptOutsExact(l) && IsPending(l, id) && state != Proposed
    ensures var after := Leave(l, id, state, now, actor);
            && OptOutsExact(after)
            && (state != Declined ==> DeclinedWithOptOut(after))
            && (forall at :: DeclinedWithOptOut(OptOutOf(after, KeyOf(l.rows[id]), at)))
  {
    hide Normalize;
    var after := Leave(l, id, state, now, actor);
    assert after.trace[..|l.trace|] == l.trace;
    assert forall i :: 0 <= i < |l.rows| ==> KeyOf(after.rows[i]) == KeyOf(l.rows[i]);
  }

  /** A pending row may leave for any state but declined: accepted only with a landing. */
  lemma LeaveKeeps(l: Ledger, id: int, state: ProposalState, now: int, actor: Actor)
    requires Consistent(l) && state != Proposed && state != Declined
    requires state == Accepted && IsPending(l, id) ==> LandedBefore(l.trace, l.rows[id], |l.trace|)
    ensures Consistent(Leave(l, id, state, now, actor))
  {
    if IsPending(l, id) {
      UpdateKeepsTable(l.rows, id, state, now);
      LeaveKeepsOnce(l, id, state, now, actor);
      LeaveKeepsLanding(l, id, state, now, actor);
      LeaveKeepsOptOuts(l, id, state, now, actor);
      ClearsStayLanded(l.trace, Left(id, state, actor));
    }
    hide OnePendingPerPr, AllPaired, LeavesOnce, AcceptedAfterLanding, DeclinedWithOptOut, OptOutsExact,
      ClearedAfterLanding, NormalKeys;
  }

  /** Declining writes the row and the opt-out together; if the row was decided in the
      meantime, the opt-out is written all the same. */
  lemma DeclineKeeps(l: Ledger, id: int, now: int, actor: Actor, key: OptOutKey)
    requires Consistent(l)
    requires IsPending(l, id) ==> key == KeyOf(l.rows[id])
    requires Normalize(key.login) == key.login
    ensures Consistent(OptOutOf(Leave(l, id, Declined, now, actor), key, now))
  {
    if IsPending(l, id) {
      UpdateKeepsTable(l.rows, id, Declined, now);
      LeaveKeepsOnce(l, id, Declined, now, actor);
      LeaveKeepsLanding(l, id, Declined, now, actor);
      LeaveKeepsOptOuts(l, id, Declined, now, actor);
      ClearsStayLanded(l.trace, Left(id, Declined, actor));
      OptOutKeeps(Leave(l, id, Declined, now, actor), key, now);
    } else {
      OptOutKeeps(l, key, now);
    }
    hide OnePendingPerPr, AllPaired, LeavesOnce, AcceptedAfterLanding, DeclinedWithOptOut, OptOutsExact,
      ClearedAfterLanding, NormalKeys;
  }

  // ---- What every reachable process keeps ---------------------------------------------------------

  ghost predicate CopyFits(l: Ledger, copy: Copy)
  {
    copy.id < |l.rows| && SameProposal(copy.row, l.rows[copy.id])
  }

  /** How many rows an actor moved to a state. */
  ghost function LeftCount(trace: seq<Event>, actor: Actor, state: ProposalState): nat
  {
    if trace == [] then 0
    else
      var last := trace[|trace| - 1];
      LeftCount(trace[..|trace| - 1], actor, state)
      + if last.Left? && last.actor == actor && last.state == state then 1 else 0
  }

  ghost predicate Handled(l: Ledger, p: Process, copy: Copy)
    requires p.Sweeping?
  {
    || LiveValidityOf(copy.row, p.now, p.facts).isLive
    || copy.id in p.failed
    || (copy.id < |l.rows| && l.rows[copy.id].state != Proposed)
  }

  ghost predicate CopiesFit(l: Ledger, copies: seq<Copy>)
  {
    && (forall k :: 0 <= k < |copies| ==> CopyFits(l, copies[k]) && copies[k].row.state == Proposed)
    && (forall j, k :: 0 <= j < k < |copies| ==> copies[j].id != copies[k].id)
  }

  ghost predicate SweepFits(l: Ledger, p: Process, actor: Actor)
    requires p.Sweeping?
  {
    && p.next <= |p.copies| == p.stats.active
    && CopiesFit(l, p.copies)
    && p.stats.expired + p.stats.superseded + p.stats.stillLive + p.stats.errored == p.next
    && p.stats.expired == LeftCount(l.trace, actor, Expired)
    && p.stats.superseded == LeftCount(l.trace, actor, Superseded)
    && |p.failed| == p.stats.errored
    && (forall k :: p.next <= k < |p.copies| ==> p.copies[k].id !in p.failed)
    && (forall k :: 0 <= k < p.next ==> Handled(l, p, p.copies[k]))
  }

  // After so many events the reviewer had no active opt-out for the pull request.
  ghost predicate FoundNoOptOut(trace: seq<Event>, row: Proposal, checkedAt: nat)
  {
    checkedAt <= |trace| && !LastOptedOut(trace[..checkedAt], KeyOf(row))
  }

  ghost predicate ProcessFits(l: Ledger, p: Process, actor: Actor)
  {
    match p
    case AcceptLoaded(copy, _) => CopyFits(l, copy) && copy.row.state == Proposed
    case AcceptChecked(copy, now, facts, checkedAt) =>
      CopyFits(l, copy) && LiveValidityOf(copy.row, now, facts).isLive && FoundNoOptOut(l.trace, copy.row, checkedAt)
    case AcceptConfirmed(copy, _, checkedAt) =>
      CopyFits(l, copy) && LandedBefore(l.trace, copy.row, |l.trace|) && FoundNoOptOut(l.trace, copy.row, checkedAt)
    case AnywayConfirmed(copy, _) => CopyFits(l, copy) && LandedBefore(l.trace, copy.row, |l.trace|)
    case Retiring(copy, _, state) => CopyFits(l, copy) && state in {Expired, Superseded}
    case SweepReading(_, _, copies) =>
      CopiesFit(l, copies) && LeftCount(l.trace, actor, Expired) == 0 && LeftCount(l.trace, actor, Superseded) == 0
    case Sweeping(_, _, _, _, _, _) => SweepFits(l, p, actor)
    case Done => true
    case _ => CopyFits(l, p.copy)
  }

  ghost predicate OnlyBy(before: seq<Event>, after: seq<Event>, actor: Actor)
  {
    && before <= after
    && forall m :: |before| <= m < |after| && after[m].Left? ==> after[m].actor == actor
  }

  lemma {:induction false} OthersCountNothing(before: seq<Event>, after: seq<Event>, mover: Actor, actor: Actor,
                                              state: ProposalState)
    requires OnlyBy(before, after, mover) && actor != mover
    ensures LeftCount(after, actor, state) == LeftCount(before, actor, state)
    decreases |after|
  {
    if |after| > |before| {
      OthersCountNothing(before, after[..|after| - 1], mover, actor, state);
    } else {
      assert after == before;
    }
  }

  lemma SweepStaysFit(before: Ledger, after: Ledger, p: Process, actor: Actor)
    requires p.Sweeping? && SweepFits(before, p, actor) && Settles(before, after)
    requires LeftCount(after.trace, actor, Expired) == LeftCount(before.trace, actor, Expired)
    requires LeftCount(after.trace, actor, Superseded) == LeftCount(before.trace, actor, Superseded)
    ensures SweepFits(after, p, actor)
  {
    hide LiveValidityOf, LeftCount;
    assert forall k :: 0 <= k < |p.copies| ==> CopyFits(before, p.copies[k]) ==> CopyFits(after, p.copies[k]);
    assert forall k :: 0 <= k < p.next ==> Handled(before, p, p.copies[k]) ==> Handled(after, p, p.copies[k]);
  }

  /** A step of one actor leaves the others fit. */
  lemma OthersStayFit(before: Ledger, after: Ledger, p: Process, actor: Actor, mover: Actor)
    requires ProcessFits(before, p, actor) && Settles(before, after)
    requires OnlyBy(before.trace, after.trace, mover) && actor != mover
    ensures ProcessFits(after, p, actor)
  {
    hide SweepFits, LeftCount;
    OthersCountNothing(before.trace, after.trace, mover, actor, Expired);
    OthersCountNothing(before.trace, after.trace, mover, actor, Superseded);
    if p.Sweeping? {
      SweepStaysFit(before, after, p, actor);
    } else if p.AcceptConfirmed? || p.AnywayConfirmed? {
      LandedStays(before.trace, after.trace, p.copy.row, p.copy.row, |before.trace|);
    }
    if p.AcceptConfirmed? || p.AcceptChecked? {
      assert after.trace[..p.checkedAt] == before.trace[..p.checkedAt];
    }
  }

  lemma CountOne(trace: seq<Event>, event: Event, actor: Actor, state: ProposalState)
    ensures LeftCount(trace + [event], actor, state)
         == LeftCount(trace, actor, state)
             + if event.Left? && event.actor == actor && event.state == state then 1 else 0
  {
    assert (trace + [event])[..|trace|] == trace;
  }

  lemma LeaveCounts(l: Ledger, id: int, state: ProposalState, now: int, actor: Actor, counted: ProposalState)
    requires IsPending(l, id)
    ensures var after := Leave(l, id, state, now, actor);
            && OnlyBy(l.trace, after.trace, actor)
            && Settles(l, after)
            && LeftCount(after.trace, actor, counted)
                == LeftCount(l.trace, actor, counted) + (if state == counted then 1 else 0)
  {
    hide LeftCount;
    CountOne(l.trace, Left(id, state, actor), actor, counted);
  }

  // The ledger after one round of a sweep.
  lemma SweepRowLedger(l: Ledger, id: int, fate: Fate, now: int, actor: Actor)
    requires Consistent(l) && (fate in {ToExpired, ToSuperseded} ==> IsPending(l, id))
    ensures var after := LeaveByFate(l, id, fate, now, actor);
            && Consistent(after) && OnlyBy(l.trace, after.trace, actor) && Settles(l, after)
            && LeftCount(after.trace, actor, Expired)
               == LeftCount(l.trace, actor, Expired) + (if fate == ToExpired then 1 else 0)
            && LeftCount(after.trace, actor, Superseded)
               == LeftCount(l.trace, actor, Superseded) + (if fate == ToSuperseded then 1 else 0)
            && (fate in {ToExpired, ToSuperseded} ==> after.rows[id].state != Proposed)
  {
    if fate in {ToExpired, ToSuperseded} {
      var state := if fate == ToExpired then Expired else Superseded;
      LeaveKeeps(l, id, state, now, actor);
      LeaveCounts(l, id, state, now, actor, Expired);
      LeaveCounts(l, id, state, now, actor, Superseded);
      hide Consistent, LeftCount, OnlyBy, Settles;
    }
    hide Consistent, LeftCount;
  }

  lemma FateMeansHandled(l: Ledger, p: Process, copy: Copy, dbError: bool)
    requires p.Sweeping? && CopyFits(l, copy) && copy.row.state == Proposed
    ensures var fate := FateOnRow(copy.row, l.rows[copy.id], p.now, p.facts, dbError);
            && fate != NotPending
            && (fate == StillLive ==> Handled(l, p, copy))
  {
    hide LiveValidityOf;
  }

  // The sweep's own bookkeeping after a round, given what the round did to the ledger.
  lemma SweepMovesOn(l: Ledger, after: Ledger, p: Process, q: Process, fate: Fate, actor: Actor)
    requires p.Sweeping? && SweepFits(l, p, actor) && p.next < |p.copies| && Settles(l, after)
    requires q == p.(next := p.next + 1, stats := Tally(p.stats, fate),
                     failed := if fate == Errored then p.failed + {p.copies[p.next].id} else p.failed)
    requires fate != NotPending && (fate == StillLive ==> Handled(l, p, p.copies[p.next]))
    requires fate in {ToExpired, ToSuperseded} ==> after.rows[p.copies[p.next].id].state != Proposed
    requires LeftCount(after.trace, actor, Expired)
        == LeftCount(l.trace, actor, Expired) + (if fate == ToExpired then 1 else 0)
    requires LeftCount(after.trace, actor, Superseded)
          == LeftCount(l.trace, actor, Superseded) + (if fate == ToSuperseded then 1 else 0)
    ensures SweepFits(after, q, actor)
  {
    hide LiveValidityOf, LeftCount;
    assert CopiesFit(after, q.copies);
    forall k | 0 <= k < q.next
      ensures Handled(after, q, q.copies[k])
    {
      assert CopyFits(l, p.copies[k]);
      assert k < p.next ==> Handled(l, p, p.copies[k]);
    }
  }

  lemma SweepRowIs(l: Ledger, p: Process, actor: Actor, dbError: bool)
    requires p.Sweeping? && p.next < |p.copies| && CopyFits(l, p.copies[p.next])
        && p.copies[p.next].row.state == Proposed
    ensures var copy := p.copies[p.next];
            var fate := FateOnRow(copy.row, l.rows[copy.id], p.now, p.facts, dbError);
            && SweepRow(l, p, actor, dbError)
               == (LeaveByFate(l, copy.id, fate, p.now, actor),
                   p.(next := p.next + 1, stats := Tally(p.stats, fate),
                      failed := if fate == Errored then p.failed + {copy.id} else p.failed))
            && (fate in {ToExpired, ToSuperseded} ==> IsPending(l, copy.id))
  {
    hide FateOf, LeaveByFate, Tally;
  }

  lemma SweepRowKeeps(l: Ledger, p: Process, actor: Actor, dbError: bool)
    requires Consistent(l) && p.Sweeping? && SweepFits(l, p, actor) && p.next < |p.copies|
    ensures var (after, q) := SweepRow(l, p, actor, dbError);
            Consistent(after) && q.Sweeping? && SweepFits(after, q, actor) && OnlyBy(l.trace, after.trace, actor)
  {
    var copy := p.copies[p.next];
    assert CopyFits(l, copy) && copy.row.state == Proposed;
    var fate := FateOnRow(copy.row, l.rows[copy.id], p.now, p.facts, dbError);
    var (after, q) := SweepRow(l, p, actor, dbError);
    SweepRowIs(l, p, actor, dbError);
    FateMeansHandled(l, p, copy, dbError);
    hide Consistent, LeftCount, FateOnRow, OnlyBy, LeaveByFate, SweepFits, Settles, Handled, SweepRow, IsPending,
        CopyFits, Tally;
    SweepRowLedger(l, copy.id, fate, p.now, actor);
    SweepMovesOn(l, after, p, q, fate, actor);
  }

  // ---- Every step of every process ------------------------------------------------------------------

  lemma ConfirmKeeps(l: Ledger, copy: Copy, actor: Actor)
    requires Consistent(l) && CopyFits(l, copy)
    ensures var after := Note(l, Landed(copy.row.repo, copy.row.pr, copy.row.login));
            && Consistent(after) && OnlyBy(l.trace, after.trace, actor)
            && CopyFits(after, copy) && LandedBefore(after.trace, copy.row, |after.trace|)
  {
    hide Consistent;
    LandingKeeps(l, copy.row.repo, copy.row.pr, copy.row.login);
    var after := Note(l, Landed(copy.row.repo, copy.row.pr, copy.row.login));
    assert after.trace[|l.trace|] == Landed(copy.row.repo, copy.row.pr, copy.row.login);
  }

  // A check that finds the proposal live finds no active opt-out of the reviewer.
  lemma LiveMeansNoOptOut(l: Ledger, row: Proposal, now: int, facts: Facts)
    requires OptOutsExact(l) && LiveValidityOf(row, now, FactsRead(l, row.repo, facts)).isLive
    ensures FoundNoOptOut(l.trace, row, |l.trace|)
  {
    LiveExactly(row, now, FactsRead(l, row.repo, facts));
    NormalizeTwice(row.login);
    hide LiveValidityOf, Normalize, LastOptedOut;
    var key := KeyOf(row);
    assert l.trace[..|l.trace|] == l.trace;
    assert key in l.optOuts && l.optOuts[key].active ==> (key.pr, Normalize(key.login)) in OptOutsRead(l, row.repo);
  }

  lemma AcceptKeeps(l: Ledger, copy: Copy, now: int, actor: Actor)
    requires Consistent(l) && CopyFits(l, copy) && LandedBefore(l.trace, copy.row, |l.trace|)
    ensures var after := Leave(l, copy.id, Accepted, now, actor);
            Consistent(after) && OnlyBy(l.trace, after.trace, actor)
  {
    LandedStays(l.trace, l.trace, copy.row, l.rows[copy.id], |l.trace|);
    LeaveKeeps(l, copy.id, Accepted, now, actor);
    hide Consistent;
  }

  lemma AnywayKeeps(l: Ledger, copy: Copy, now: int, actor: Actor)
    requires Consistent(l) && CopyFits(l, copy) && LandedBefore(l.trace, copy.row, |l.trace|)
    ensures var after := Leave(Retract(l, KeyOf(copy.row), now, true), copy.id, Accepted, now, actor);
            Consistent(after) && OnlyBy(l.trace, after.trace, actor)
  {
    var cleared := Retract(l, KeyOf(copy.row), now, true);
    assert KeyLandedBefore(l.trace, KeyOf(copy.row), |l.trace|);
    RetractKeeps(l, KeyOf(copy.row), now, true);
    LandedStays(l.trace, cleared.trace, copy.row, copy.row, |l.trace|);
    hide Consistent;
    assert LandedBefore(cleared.trace, copy.row, |cleared.trace|);
    AcceptKeeps(cleared, copy, now, actor);
  }

  lemma DeclineStepKeeps(l: Ledger, copy: Copy, now: int, actor: Actor)
    requires Consistent(l) && CopyFits(l, copy)
    ensures var after := OptOutOf(Leave(l, copy.id, Declined, now, actor), KeyOf(copy.row), now);
            Consistent(after) && OnlyBy(l.trace, after.trace, actor)
  {
    NormalizeTwice(copy.row.login);
    DeclineKeeps(l, copy.id, now, actor, KeyOf(copy.row));
    hide Consistent;
  }

  lemma RetireKeeps(l: Ledger, copy: Copy, state: ProposalState, now: int, actor: Actor)
    requires Consistent(l) && state in {Expired, Superseded}
    ensures var after := Leave(l, copy.id, state, now, actor);
            Consistent(after) && OnlyBy(l.trace, after.trace, actor)
  {
    LeaveKeeps(l, copy.id, state, now, actor);
    hide Consistent;
  }

  lemma SweepFromReading(l: Ledger, p: Process, actor: Actor, a: Answers)
    requires p.SweepReading? && ProcessFits(l, p, actor)
    ensures ProcessFits(l, Advance(l, p, actor, a).1, actor)
  {
    hide LeftCount, LiveValidityOf, Normalize;
  }

  ghost predicate KeepsAll(l: Ledger, p: Process, actor: Actor, a: Answers)
  {
    var (after, q) := Advance(l, p, actor, a);
    Consistent(after) && ProcessFits(after, q, actor) && OnlyBy(l.trace, after.trace, actor)
  }

  lemma AcceptLoadedKeeps(l: Ledger, p: Process, actor: Actor, a: Answers)
    requires Consistent(l) && ProcessFits(l, p, actor) && p.AcceptLoaded?
    ensures KeepsAll(l, p, actor, a)
  {
    var facts := FactsRead(l, p.copy.row.repo, a.facts);
    if LiveValidityOf(p.copy.row, p.now, facts).isLive {
      LiveMeansNoOptOut(l, p.copy.row, p.now, a.facts);
    }
    hide Consistent, FactsRead, LastOptedOut, CopyFits, Leave, Retract, OptOutOf, SweepRow, FoundNoOptOut;
  }

  lemma AcceptKeepsAll(l: Ledger, p: Process, actor: Actor, a: Answers)
    requires Consistent(l) && ProcessFits(l, p, actor) && (p.AcceptChecked? || p.AcceptConfirmed?)
    ensures KeepsAll(l, p, actor, a)
  {
    hide Consistent, LastOptedOut, LiveValidityOf, Leave, SweepRow, KeyOf;
    if p.AcceptChecked? {
      ConfirmKeeps(l, p.copy, actor);
      assert Advance(l, p, actor, a).0.trace[..p.checkedAt] == l.trace[..p.checkedAt];
    } else {
      AcceptKeeps(l, p.copy, p.now, actor);
    }
    hide CopyFits, LandedBefore;
  }

  lemma AnywayKeepsAll(l: Ledger, p: Process, actor: Actor, a: Answers)
    requires Consistent(l) && ProcessFits(l, p, actor) && (p.AnywayLoaded? || p.AnywayAllowed? || p.AnywayConfirmed?)
    ensures KeepsAll(l, p, actor, a)
  {
    hide Consistent, Leave, Retract, CanSelfAssign, SweepRow, LandedBefore, CopyFits, KeyOf;
    if p.AnywayAllowed? {
      ConfirmKeeps(l, p.copy, actor);
    } else if p.AnywayConfirmed? {
      AnywayKeeps(l, p.copy, p.now, actor);
    }
  }

  lemma DecisionKeepsAll(l: Ledger, p: Process, actor: Actor, a: Answers)
    requires Consistent(l) && ProcessFits(l, p, actor) && (p.Retiring? || p.DeclineLoaded?)
    ensures KeepsAll(l, p, actor, a)
  {
    hide Consistent, Leave, OptOutOf, SweepRow, CopyFits, KeyOf;
    if p.Retiring? {
      RetireKeeps(l, p.copy, p.state, p.now, actor);
    } else {
      DeclineStepKeeps(l, p.copy, p.now, actor);
    }
  }

  lemma SweepKeepsAll(l: Ledger, p: Process, actor: Actor, a: Answers)
    requires Consistent(l) && ProcessFits(l, p, actor) && (p.SweepReading? || p.Sweeping?)
    ensures KeepsAll(l, p, actor, a)
  {
    hide Consistent, SweepRow, LiveValidityOf;
    if p.SweepReading? {
      SweepFromReading(l, p, actor, a);
    } else if p.next < |p.copies| {
      SweepRowKeeps(l, p, actor, a.dbError);
    }
    hide SweepFits;
  }

  lemma AdvanceKeeps(l: Ledger, p: Process, actor: Actor, a: Answers)
    requires Consistent(l) && ProcessFits(l, p, actor)
    ensures KeepsAll(l, p, actor, a)
  {
    if p.AcceptLoaded? {
      AcceptLoadedKeeps(l, p, actor, a);
    } else if p.AcceptChecked? || p.AcceptConfirmed? {
      AcceptKeepsAll(l, p, actor, a);
    } else if p.AnywayLoaded? || p.AnywayAllowed? || p.AnywayConfirmed? {
      AnywayKeepsAll(l, p, actor, a);
    } else if p.Retiring? || p.DeclineLoaded? {
      DecisionKeepsAll(l, p, actor, a);
    } else if p.SweepReading? || p.Sweeping? {
      SweepKeepsAll(l, p, actor, a);
    } else {
      hide Consistent, SweepRow, ProcessFits;
      assert ProcessFits(l, Done, actor) by { DoneFits(l, actor); }
    }
    hide Advance, Consistent, ProcessFits, KeepsAll;
  }

  lemma DoneFits(l: Ledger, actor: Actor)
    ensures ProcessFits(l, Done, actor)
  {
  }

  // ---- Every step of the world ------------------------------------------------------------------------

  ghost predicate KnownActors(trace: seq<Event>, count: nat)
  {
    forall m :: 0 <= m < |trace| && trace[m].Left? ==> trace[m].actor < count
  }

  ghost predicate AllFit(l: Ledger, processes: seq<Process>)
  {
    forall a: nat :: a < |processes| ==> ProcessFits(l, processes[a], a)
  }

  ghost predicate Sound(w: World)
  {
    Consistent(w.ledger) && KnownActors(w.ledger.trace, |w.processes|) && AllFit(w.ledger, w.processes)
  }

  lemma {:induction false} NewActorCountsNothing(trace: seq<Event>, actor: Actor, state: ProposalState)
    requires KnownActors(trace, actor)
    ensures LeftCount(trace, actor, state) == 0
    decreases |trace|
  {
    if trace != [] {
      NewActorCountsNothing(trace[..|trace| - 1], actor, state);
    }
  }

  lemma StepKeeps(w: World, actor: Actor, answers: Answers)
    requires Sound(w) && actor < |w.processes|
    ensures Sound(Exec(w, Step(actor, answers)))
  {
    var p := w.processes[actor];
    var (after, q) := Advance(w.ledger, p, actor, answers);
    AdvanceKeeps(w.ledger, p, actor, answers);
    AdvanceSettles(w.ledger, p, actor, answers);
    hide Consistent, ProcessFits, Settles, Advance;
    forall a: nat | a < |w.processes| && a != actor
      ensures ProcessFits(after, w.processes[a], a)
    {
      OthersStayFit(w.ledger, after, w.processes[a], a, actor);
    }
  }

  // A step of no process at all: nobody's counts change.
  lemma OutsideStepKeeps(w: World, after: Ledger)
    requires Sound(w) && Consistent(after) && Settles(w.ledger, after)
    requires OnlyBy(w.ledger.trace, after.trace, |w.processes|)
    requires KnownActors(after.trace, |w.processes|)
    ensures Sound(w.(ledger := after))
  {
    hide Consistent, ProcessFits, Settles, OnlyBy;
    forall a: nat | a < |w.processes|
      ensures ProcessFits(after, w.processes[a], a)
    {
      OthersStayFit(w.ledger, after, w.processes[a], a, |w.processes|);
    }
  }

  lemma NewProcessKeeps(w: World, p: Process, user: string)
    requires Sound(w) && ProcessFits(w.ledger, p, |w.processes|)
    ensures Sound(w.(processes := w.processes + [p], users := w.users + [user]))
  {
    hide Consistent, ProcessFits;
  }

  lemma OpenedFits(l: Ledger, handler: Handler, user: string, id: nat, now: int, actor: Actor)
    ensures ProcessFits(l, Opened(l, handler, user, id, now), actor)
  {
    hide Normalize;
  }

  lemma SweepStartsFit(l: Ledger, repo: int, now: int, order: seq<nat>, actor: Actor)
    requires KnownActors(l.trace, actor)
    ensures ProcessFits(l, SweepOf(l, repo, now, order), actor)
  {
    NewActorCountsNothing(l.trace, actor, Expired);
    NewActorCountsNothing(l.trace, actor, Superseded);
    hide LeftCount;
  }

  lemma StartKeeps(w: World, action: Action)
    requires Sound(w) && (action.Open? || action.BeginSweep?)
    ensures Sound(Exec(w, action))
  {
    hide ProcessFits, Normalize, Consistent, Opened, SweepOf;
    if action.Open? {
      OpenedFits(w.ledger, action.handler, action.user, action.id, action.now, |w.processes|);
      NewProcessKeeps(w, Opened(w.ledger, action.handler, action.user, action.id, action.now), action.user);
    } else {
      SweepStartsFit(w.ledger, action.repo, action.now, action.order, |w.processes|);
      NewProcessKeeps(w, SweepOf(w.ledger, action.repo, action.now, action.order), "");
    }
  }

  lemma OutsideKeeps(w: World, action: Action)
    requires Sound(w) && (action.Create? || action.SyncOptOut? || action.SyncClear?)
    ensures Sound(Exec(w, action))
  {
    hide AllFit, Normalize;
    ExecSettles(w, action);
    match action {
      case Create(repo, pr, login, expiresAt) => PutKeeps(w.ledger, NewProposal(repo, pr, login, expiresAt));
      case SyncOptOut(repo, pr, login, at) =>
        NormalizeTwice(login);
        OptOutKeeps(w.ledger, OptOutKey(repo, pr, Normalize(login)), at);
      case SyncClear(repo, pr, login, at) => RetractKeeps(w.ledger, OptOutKey(repo, pr, Normalize(login)), at, false);
      case _ =>
    }
    hide Recorded, DeclinedWithOptOut, InsertGuarded, SetOptOut, ClearOptOut, Settles;
    OutsideStepKeeps(w, Exec(w, action).ledger);
  }

  lemma ExecKeeps(w: World, action: Action)
    requires Sound(w)
    ensures Sound(Exec(w, action))
  {
    hide Sound;
    if action.Step? {
      if action.actor < |w.processes| {
        StepKeeps(w, action.actor, action.answers);
      }
    } else if action.Open? || action.BeginSweep? {
      StartKeeps(w, action);
    } else {
      OutsideKeeps(w, action);
    }
  }

  lemma {:induction false} RunKeeps(w: World, actions: seq<Action>)
    requires Sound(w)
    ensures Sound(Run(w, actions))
    decreases actions
  {
    hide Sound, Exec;
    if actions != [] {
      ExecKeeps(w, actions[0]);
      RunKeeps(Exec(w, actions[0]), actions[1..]);
    }
  }
}
