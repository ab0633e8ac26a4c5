/** The table of assignment proposals and opt-outs, with its conditional updates, the
    console handlers run on their own, and the expiry sweep. */
module ProposalTable {
  import opened Options
  import opened Logins
  import opened ProposalValidity
  import opened Sets

  // An opt-out row is unique per repository, pull request and login.
  datatype OptOutKey = OptOutKey(repo: int, pr: int, login: string)

  datatype OptOut = OptOut(active: bool, optedOutAt: int, clearedAt: Option<int>)

  function KeyOf(p: Proposal): OptOutKey
  {
    OptOutKey(p.repo, p.pr, Normalize(p.login))
  }

  // ---- Statements on the two tables; a proposal's id is its position ---------------------------

  function Decide(p: Proposal, state: ProposalState, via: Via, now: int): Proposal
  {
    p.(state := state, decidedAt := Some(now), via := via)
  }

  // UPDATE ... WHERE id = id AND state = 'proposed'
  function UpdatePending(rows: seq<Proposal>, id: int, state: ProposalState, via: Via, now: int): seq<Proposal>
  {
    if 0 <= id < |rows| && rows[id].state == Proposed then rows[id := Decide(rows[id], state, via, now)] else rows
  }

  predicate HasPending(rows: seq<Proposal>, repo: int, pr: int)
  {
    exists i :: 0 <= i < |rows| && rows[i].repo == repo && rows[i].pr == pr && rows[i].state == Proposed
  }

  function NewProposal(repo: int, pr: int, login: string, expiresAt: int): Proposal
  {
    Proposal(repo, pr, login, expiresAt, Proposed, None, Undecided)
  }

  // The partial unique index refuses a second pending row for a pull request.
  function InsertGuarded(rows: seq<Proposal>, p: Proposal): seq<Proposal>
  {
    if HasPending(rows, p.repo, p.pr) then rows else rows + [p]
  }

  function SetOptOut(optOuts: map<OptOutKey, OptOut>, key: OptOutKey, at: int): map<OptOutKey, OptOut>
  {
    optOuts[key := OptOut(true, at, None)]
  }

  function ClearOptOut(optOuts: map<OptOutKey, OptOut>, key: OptOutKey, at: int): map<OptOutKey, OptOut>
  {
    if key in optOuts && optOuts[key].active then
      optOuts[key := optOuts[key].(active := false, clearedAt := Some(at))]
    else optOuts
  }

  // ---- What every table keeps ----------------------------------------------------------------------

  predicate OnePendingPerPr(rows: seq<Proposal>)
  {
    forall i, j :: 0 <= i < j < |rows| && rows[i].state == Proposed && rows[j].state == Proposed ==>
      rows[i].repo != rows[j].repo || rows[i].pr != rows[j].pr
  }

  // Which decision a state goes with.
  function ViaOf(state: ProposalState): Via
  {
    match state
    case Proposed => Undecided
    case Accepted => Console
    case Declined => Console
    case Expired => AutoExpire
    case Superseded => SyncSuperseded
  }

  predicate Paired(p: Proposal)
  {
    p.via == ViaOf(p.state) && (p.decidedAt == None <==> p.state == Proposed)
  }

  predicate AllPaired(rows: seq<Proposal>)
  {
    forall i :: 0 <= i < |rows| ==> Paired(rows[i])
  }

  lemma UpdateKeepsTable(rows: seq<Proposal>, id: int, state: ProposalState, now: int)
    requires OnePendingPerPr(rows) && AllPaired(rows) && state != Proposed
    ensures var after := UpdatePending(rows, id, state, ViaOf(state), now);
            OnePendingPerPr(after) && AllPaired(after)
  {
  }

  lemma InsertKeepsTable(rows: seq<Proposal>, p: Proposal)
    requires OnePendingPerPr(rows) && AllPaired(rows) && p.state == Proposed && Paired(p)
    ensures OnePendingPerPr(InsertGuarded(rows, p)) && AllPaired(InsertGuarded(rows, p))
  {
  }

  // ---- The sweep as a function -----------------------------------------------------------------------

  datatype Fate = NotPending | StillLive | ToExpired | ToSuperseded | Errored

  datatype Stats = Stats(active: nat, expired: nat, superseded: nat, stillLive: nat, errored: nat)

  /** What the sweep of a repository does with one row; a database error can only strike
      where the row was to be updated. */
  function FateOf(p: Proposal, repo: int, now: int, facts: Facts, failed: bool): Fate
  {
    if p.repo != repo || p.state != Proposed then NotPending
    else
      match LiveValidityOf(p, now, facts).terminalState
      case None => StillLive
      case Some(state) => if failed then Errored else if state == Expired then ToExpired else ToSuperseded
  }

  // The same for a row read before, which may have been decided in the meantime.
  function FateOnRow(read: Proposal, row: Proposal, now: int, facts: Facts, failed: bool): Fate
  {
    var fate := FateOf(read, read.repo, now, facts, failed);
    if fate in {ToExpired, ToSuperseded} && row.state != Proposed then StillLive else fate
  }

  function AfterSweep(p: Proposal, now: int, fate: Fate): Proposal
  {
    match fate
    case ToExpired => Decide(p, Expired, AutoExpire, now)
    case ToSuperseded => Decide(p, Superseded, SyncSuperseded, now)
    case _ => p
  }

  ghost function Fates(rows: seq<Proposal>, repo: int, now: int, facts: Facts, failing: set<int>): (fates: seq<Fate>)
    ensures |fates| == |rows|
  {
    seq(|rows|, i requires 0 <= i < |rows| => FateOf(rows[i], repo, now, facts, i in failing))
  }

  ghost function Swept(rows: seq<Proposal>, repo: int, now: int, facts: Facts,
                       failing: set<int>): (after: seq<Proposal>)
    ensures |after| == |rows|
  {
    seq(|rows|, i requires 0 <= i < |rows| =>
      AfterSweep(rows[i], now, FateOf(rows[i], repo, now, facts, i in failing)))
  }

  ghost function WithFate(ids: set<int>, fates: seq<Fate>, fate: Fate): set<int>
  {
    set i | i in ids && 0 <= i < |fates| && fates[i] == fate
  }

  ghost function Census(ids: set<int>, fates: seq<Fate>, active: nat): Stats
  {
    Stats(active, |WithFate(ids, fates, ToExpired)|, |WithFate(ids, fates, ToSuperseded)|,
          |WithFate(ids, fates, StillLive)|, |WithFate(ids, fates, Errored)|)
  }

  function Tally(stats: Stats, fate: Fate): Stats
  {
    match fate
    case ToExpired => stats.(expired := stats.expired + 1)
    case ToSuperseded => stats.(superseded := stats.superseded + 1)
    case StillLive => stats.(stillLive := stats.stillLive + 1)
    case Errored => stats.(errored := stats.errored + 1)
    case NotPending => stats
  }

  lemma WithFateGrows(ids: set<int>, id: int, fates: seq<Fate>, fate: Fate)
    requires id !in ids && 0 <= id < |fates|
    ensures |WithFate(ids + {id}, fates, fate)|
         == |WithFate(ids, fates, fate)| + if fates[id] == fate then 1 else 0
  {
    assert WithFate(ids + {id}, fates, fate)
        == WithFate(ids, fates, fate) + if fates[id] == fate then {id} else {};
  }

  lemma CensusGrows(ids: set<int>, id: int, fates: seq<Fate>, active: nat)
    requires id !in ids && 0 <= id < |fates|
    ensures Census(ids + {id}, fates, active) == Tally(Census(ids, fates, active), fates[id])
  {
    hide WithFate;
    WithFateGrows(ids, id, fates, ToExpired);
    WithFateGrows(ids, id, fates, ToSuperseded);
    WithFateGrows(ids, id, fates, StillLive);
    WithFateGrows(ids, id, fates, Errored);
  }

  ghost function PendingIds(rows: seq<Proposal>, repo: int): set<int>
  {
    set i | 0 <= i < |rows| && rows[i].repo == repo && rows[i].state == Proposed
  }

  // ---- The table as an object -----------------------------------------------------------------------

  datatype Page =
    | NotFound | NotYours | Unavailable(reason: Reason) | NotSelfAssignable | NotEnabled | NotConfirmed | DecidedPage

  predicate CanSelfAssign(livePr: Option<LivePr>, user: string)
  {
    && livePr.Some?
    && Normalize(livePr.value.state) == "open"
    && Normalize(user) !in CurrentAssignees(livePr)
  }

  // The row as it is retired for some reason.
  function RetiredFor(reason: Reason, p: Proposal, now: int): Proposal
  {
    match reason
    case IsLive => p
    case AlreadyTerminal => p
    case PastDeadline => p.(state := Expired, decidedAt := Some(now), via := AutoExpire)
    case _ => p.(state := Superseded, decidedAt := Some(now), via := SyncSuperseded)
  }

  // The user whom the proposal of that id names.
  predicate IsOwn(rows: seq<Proposal>, id: int, user: string)
  {
    0 <= id < |rows| && Normalize(rows[id].login) == Normalize(user)
  }

  // The pull request is open and none of its assignees is the user.
  predicate IsOpenWithout(livePr: Option<LivePr>, user: string)
  {
    && livePr.Some? && Normalize(livePr.value.state) == "open"
    && forall i :: 0 <= i < |livePr.value.assignees| && livePr.value.assignees[i] != "" ==>
         Normalize(livePr.value.assignees[i]) != Normalize(user)
  }

  // An opt-out row once it has been cleared at some time, if it was active.
  function Cleared(optOut: OptOut, at: int): OptOut
  {
    if optOut.active then OptOut(false, optOut.optedOutAt, Some(at)) else optOut
  }

  // Only the opt-out of one reviewer for one pull request has changed, to cleared.
  predicate OnlyCleared(before: map<OptOutKey, OptOut>, after: map<OptOutKey, OptOut>, key: OptOutKey, at: int)
  {
    && after.Keys == before.Keys
    && forall k :: k in before ==> after[k] == if k == key then Cleared(before[k], at) else before[k]
  }

  lemma SelfAssignExactly(livePr: Option<LivePr>, user: string)
    ensures CanSelfAssign(livePr, user) <==> IsOpenWithout(livePr, user)
  {
    hide Normalize;
    if livePr.Some? && !IsOpenWithout(livePr, user) && Normalize(livePr.value.state) == "open" {
      var i :| 0 <= i < |livePr.value.assignees| && livePr.value.assignees[i] != ""
        && Normalize(livePr.value.assignees[i]) == Normalize(user);
      assert Normalize(livePr.value.assignees[i]) in CurrentAssignees(livePr);
    }
  }

  class Table {
    var rows: seq<Proposal>
    var optOuts: map<OptOutKey, OptOut>

    ghost predicate Valid()
      reads this
    {
      OnePendingPerPr(rows) && AllPaired(rows)
    }

    constructor ()
      ensures Valid() && rows == [] && optOuts == map[]
    {
      rows, optOuts := [], map[];
    }

    method Create(repo: int, pr: int, login: string, expiresAt: int) returns (created: bool)
      requires Valid()
      modifies this`rows
      ensures Valid()
      ensures created <==> forall i :: 0 <= i < |old(rows)| && old(rows)[i].repo == repo && old(rows)[i].pr == pr ==>
                old(rows)[i].state != Proposed
      ensures rows == if created then old(rows) + [Proposal(repo, pr, login, expiresAt, Proposed, None, Undecided)]
                      else old(rows)
    {
      InsertKeepsTable(rows, NewProposal(repo, pr, login, expiresAt));
      created := !HasPending(rows, repo, pr);
      if created {
        rows := rows + [NewProposal(repo, pr, login, expiresAt)];
      }
    }

    method UpdateIfPending(id: int, state: ProposalState, via: Via, now: int) returns (updated: nat)
      requires Valid() && state != Proposed && via == ViaOf(state)
      modifies this`rows
      ensures Valid()
      ensures updated == if 0 <= id < |old(rows)| && old(rows)[id].state == Proposed then 1 else 0
      ensures rows == if updated == 0 then old(rows)
                      else old(rows)[id := old(rows)[id].(state := state, decidedAt := Some(now), via := via)]
    {
      UpdateKeepsTable(rows, id, state, now);
      updated := 0;
      if 0 <= id < |rows| && rows[id].state == Proposed {
        rows := rows[id := Decide(rows[id], state, via, now)];
        updated := 1;
      }
    }

    method Retire(id: int, verdict: Verdict, now: int)
      requires Valid()
      requires verdict.terminalState.Some? ==>
        verdict.terminalState != Some(Proposed) && verdict.via == ViaOf(verdict.terminalState.value)
      modifies this`rows
      ensures Valid()
      ensures rows == if verdict.terminalState == None then old(rows)
                      else UpdatePending(old(rows), id, verdict.terminalState.value, verdict.via, now)
    {
      if verdict.terminalState.Some? {
        var _ := UpdateIfPending(id, verdict.terminalState.value, verdict.via, now);
      }
    }

    method Load(user: string, id: int) returns (refusal: Option<Page>)
      ensures refusal == (if id < 0 || |rows| <= id then Some(NotFound)
                          else if Normalize(rows[id].login) != Normalize(user) then Some(NotYours)
                          else None)
    {
      if id < 0 || |rows| <= id {
        return Some(NotFound);
      }
      if Normalize(rows[id].login) != Normalize(user) {
        return Some(NotYours);
      }
      return None;
    }

    /** Accepting, run on its own. The page says which of the grounds was met first, and the row
        is accepted exactly when it is the user's own, live, accepting is enabled, and GitHub
        confirms the assignment; a dead proposal is retired on the way. */
    method Accept(user: string, id: int, now: int, facts: Facts, enabled: bool, landed: bool) returns (page: Page)
      requires Valid()
      modifies this`rows
      ensures Valid()
      ensures page == NotFound <==> !(0 <= id < |old(rows)|)
      ensures page == NotYours <==> 0 <= id < |old(rows)| && !IsOwn(old(rows), id, user)
      ensures page.Unavailable? <==> IsOwn(old(rows), id, user) && !LiveValidityOf(old(rows)[id], now, facts).isLive
      ensures page.Unavailable? ==>
        && page.reason == LiveValidityOf(old(rows)[id], now, facts).reason
        && rows == old(rows)[id := RetiredFor(page.reason, old(rows)[id], now)]
      ensures IsOwn(old(rows), id, user) && LiveValidityOf(old(rows)[id], now, facts).isLive ==>
        && (page == NotEnabled <==> !enabled)
        && (page == NotConfirmed <==> enabled && !landed)
        && (page == DecidedPage <==> enabled && landed)
      ensures page == DecidedPage ==>
        rows == old(rows)[id := old(rows)[id].(state := Accepted, decidedAt := Some(now), via := Console)]
      ensures page != DecidedPage && !page.Unavailable? ==> rows == old(rows)
    {
      var refusal := Load(user, id);
      if refusal.Some? {
        return refusal.value;
      }
      if rows[id].state != Proposed {
        assert rows[id := rows[id]] == rows;
        return Unavailable(AlreadyTerminal);
      }
      var verdict := LiveValidityOf(rows[id], now, facts);
      ReasonExactly(rows[id], now, facts);
      if !verdict.isLive {
        Retire(id, verdict, now);
        return Unavailable(verdict.reason);
      }
      if !enabled {
        return NotEnabled;
      }
      if !landed {
        return NotConfirmed;
      }
      var _ := UpdateIfPending(id, Accepted, Console, now);
      return DecidedPage;
    }

    /** Assigning oneself anyway, run on its own: with GitHub's confirmation the caller's
        opt-out is cleared and a pending row becomes accepted; a decided row stays. */
    method AssignAnyway(user: string, id: int, now: int, livePr: Option<LivePr>, enabled: bool, landed: bool)
      returns (page: Page)
      requires Valid()
      modifies this
      ensures Valid()
      ensures page == NotFound <==> !(0 <= id < |old(rows)|)
      ensures page == NotYours <==> 0 <= id < |old(rows)| && !IsOwn(old(rows), id, user)
      ensures IsOwn(old(rows), id, user) ==>
        && (page == NotSelfAssignable <==> !IsOpenWithout(livePr, user))
        && (page == NotEnabled <==> IsOpenWithout(livePr, user) && !enabled)
        && (page == NotConfirmed <==> IsOpenWithout(livePr, user) && enabled && !landed)
        && (page == DecidedPage <==> IsOpenWithout(livePr, user) && enabled && landed)
      ensures page == DecidedPage ==>
        && rows == (if old(rows)[id].state == Proposed
                    then old(rows)[id := old(rows)[id].(state := Accepted, decidedAt := Some(now), via := Console)]
                    else old(rows))
        && OnlyCleared(old(optOuts), optOuts,
                       OptOutKey(old(rows)[id].repo, old(rows)[id].pr, Normalize(old(rows)[id].login)), now)
      ensures page != DecidedPage ==> rows == old(rows) && optOuts == old(optOuts)
    {
      var refusal := Load(user, id);
      if refusal.Some? {
        return refusal.value;
      }
      SelfAssignExactly(livePr, user);
      if !CanSelfAssign(livePr, user) {
        return NotSelfAssignable;
      }
      if !enabled {
        return NotEnabled;
      }
      if !landed {
        return NotConfirmed;
      }
      var key := KeyOf(rows[id]);
      assert OnlyCleared(optOuts, ClearOptOut(optOuts, key, now), key, now);
      optOuts := ClearOptOut(optOuts, key, now);
      var _ := UpdateIfPending(id, Accepted, Console, now);
      return DecidedPage;
    }

    /** Declining, run on its own: the row and the opt-out change together. */
    method Decline(user: string, id: int, now: int) returns (page: Page)
      requires Valid()
      modifies this
      ensures Valid()
      ensures page == NotFound <==> !(0 <= id < |old(rows)|)
      ensures page == NotYours <==> 0 <= id < |old(rows)| && !IsOwn(old(rows), id, user)
      ensures IsOwn(old(rows), id, user) ==>
        && (page == Unavailable(AlreadyTerminal) <==> old(rows)[id].state != Proposed)
        && (page == DecidedPage <==> old(rows)[id].state == Proposed)
      ensures page == DecidedPage ==>
        && rows == old(rows)[id := old(rows)[id].(state := Declined, decidedAt := Some(now), via := Console)]
        && optOuts == old(optOuts)[
             OptOutKey(old(rows)[id].repo, old(rows)[id].pr, Normalize(old(rows)[id].login)) := OptOut(true, now, None)]
      ensures page != DecidedPage ==> rows == old(rows) && optOuts == old(optOuts)
    {
      var refusal := Load(user, id);
      if refusal.Some? {
        return refusal.value;
      }
      if rows[id].state != Proposed {
        return Unavailable(AlreadyTerminal);
      }
      var _ := UpdateIfPending(id, Declined, Console, now);
      optOuts := SetOptOut(optOuts, KeyOf(rows[id]), now);
      return DecidedPage;
    }

    method ReadPending(repo: int) returns (ids: seq<int>)
      ensures forall k :: 0 <= k < |ids| ==> ids[k] in PendingIds(rows, repo)
      ensures forall i :: i in PendingIds(rows, repo) ==> i in ids
      ensures forall j, k :: 0 <= j < k < |ids| ==> ids[j] < ids[k]
      ensures |ids| == |PendingIds(rows, repo)|
    {
      ids := [];
      ghost var seen: set<int> := {};
      for i := 0 to |rows|
        invariant forall k :: 0 <= k < |ids| ==> ids[k] in PendingIds(rows, repo) && ids[k] < i
        invariant forall k :: 0 <= k < i && k in PendingIds(rows, repo) ==> k in ids
        invariant forall j, k :: 0 <= j < k < |ids| ==> ids[j] < ids[k]
        invariant |seen| == |ids| && forall k :: k in seen <==> k in ids
      {
        if rows[i].repo == repo && rows[i].state == Proposed {
          ids := ids + [i];
          seen := seen + {i};
        }
      }
      assert seen == PendingIds(rows, repo);
    }

    /** One round of the sweep's loop, on a row as it was read. The row may have been
        decided since: the update then matches nothing and the row counts as still live. */
    method ReconcileOne(id: int, read: Proposal, now: int, facts: Facts, failed: bool, stats: Stats)
      returns (after: Stats)
      requires Valid() && 0 <= id < |rows| && read.state == Proposed
      modifies this`rows
      ensures Valid()
      ensures var fate := FateOnRow(read, old(rows)[id], now, facts, failed);
              && rows == old(rows)[id := AfterSweep(old(rows)[id], now, fate)]
              && after == Tally(stats, fate)
    {
      var verdict := LiveValidityOf(read, now, facts);
      if verdict.isLive {
        return stats.(stillLive := stats.stillLive + 1);
      }
      if failed {
        return stats.(errored := stats.errored + 1);
      }
      var updated := UpdateIfPending(id, verdict.terminalState.value, verdict.via, now);
      if updated == 0 {
        return stats.(stillLive := stats.stillLive + 1);
      }
      if verdict.terminalState == Some(Expired) {
        return stats.(expired := stats.expired + 1);
      }
      return stats.(superseded := stats.superseded + 1);
    }

    /** The expiry sweep of one repository with nobody else writing. The updates of the rows
        in failing raise a database error; they are counted and the loop goes on. */
    method ExpireAndReconcile(repo: int, now: int, facts: Facts, failing: set<int>) returns (stats: Stats)
      requires Valid()
      modifies this`rows
      ensures Valid()
      ensures rows == Swept(old(rows), repo, now, facts, failing)
      ensures stats == Census(PendingIds(old(rows), repo), Fates(old(rows), repo, now, facts, failing),
                              |PendingIds(old(rows), repo)|)
    {
      hide Census, FateOf, AfterSweep, Tally, OnePendingPerPr, AllPaired;
      var ids := ReadPending(repo);
      var was := rows;
      ghost var fates := Fates(rows, repo, now, facts, failing);
      ghost var done: set<int> := {};
      stats := Stats(|ids|, 0, 0, 0, 0);
      EmptyCensus(fates, |ids|);
      for k := 0 to |ids|
        invariant Valid() && |rows| == |was|
        invariant forall i :: i in done <==> i in ids[..k]
        invariant stats == Census(done, fates, |ids|)
        invariant forall i :: 0 <= i < |was| ==>
          rows[i] == if i in done then AfterSweep(was[i], now, fates[i]) else was[i]
      {
        var id := ids[k];
        assert id !in done && rows[id] == was[id];
        assert ids[..k + 1] == ids[..k] + [id];
        CensusGrows(done, id, fates, |ids|);
        stats := ReconcileOne(id, was[id], now, facts, id in failing, stats);
        done := done + {id};
      }
      assert done == PendingIds(was, repo);
      UntouchedUnlessPending(was, repo, now, facts, failing);
      assert rows == Swept(was, repo, now, facts, failing);
    }
  }

  lemma EmptyCensus(fates: seq<Fate>, active: nat)
    ensures Census({}, fates, active) == Stats(active, 0, 0, 0, 0)
  {
    assert forall fate :: WithFate({}, fates, fate) == {};
  }

  lemma UntouchedUnlessPending(rows: seq<Proposal>, repo: int, now: int, facts: Facts, failing: set<int>)
    ensures forall i :: 0 <= i < |rows| && i !in PendingIds(rows, repo) ==>
      AfterSweep(rows[i], now, FateOf(rows[i], repo, now, facts, i in failing)) == rows[i]
  {
  }

  // ---- What a sweep leaves behind -------------------------------------------------------------------

  /** Every row still pending after a sweep is live under the sweep's facts, unless its
      update failed; rows that were not pending or belong elsewhere are untouched. */
  lemma SweepLeavesLiveRows(rows: seq<Proposal>, repo: int, now: int, facts: Facts, failing: set<int>, i: int)
    requires 0 <= i < |rows|
    ensures var after := Swept(rows, repo, now, facts, failing);
            && (rows[i].repo != repo || rows[i].state != Proposed ==> after[i] == rows[i])
            && (after[i].repo == repo && after[i].state == Proposed ==>
                  after[i] == rows[i] && (LiveValidityOf(after[i], now, facts).isLive || i in failing))
  {
  }

  /** What a sweep does with each row: a pending one of the repository whose update does not
      fail is retired for the reason it is dead, if it is. */
  lemma SweepRetiresExactly(rows: seq<Proposal>, repo: int, now: int, facts: Facts, failing: set<int>, i: int)
    requires 0 <= i < |rows|
    ensures Swept(rows, repo, now, facts, failing)[i]
         == if rows[i].repo == repo && i !in failing
             then RetiredFor(LiveValidityOf(rows[i], now, facts).reason, rows[i], now)
            else rows[i]
  {
    ReasonExactly(rows[i], now, facts);
    hide LiveValidityOf, IsAssigned, IsClosed, HasLeftQueue, Normalize;
  }

  /** A second sweep on the same facts changes at most the rows whose update failed the
      first time; so after a sweep without errors it changes nothing. */
  lemma SecondSweep(rows: seq<Proposal>, repo: int, now: int, facts: Facts, first: set<int>, second: set<int>)
    ensures var once := Swept(rows, repo, now, facts, first);
            && (forall i :: 0 <= i < |rows| && i !in first ==> Swept(once, repo, now, facts, second)[i] == once[i])
            && (first == {} ==> Swept(once, repo, now, facts, second) == once)
            && (first * second == {} ==>
                  Swept(once, repo, now, facts, second) == Swept(rows, repo, now, facts, {}))
  {
    var once := Swept(rows, repo, now, facts, first);
    forall i | 0 <= i < |rows|
      ensures i !in first ==> Swept(once, repo, now, facts, second)[i] == once[i]
      ensures !(i in first && i in second) ==>
        Swept(once, repo, now, facts, second)[i] == Swept(rows, repo, now, facts, {})[i]
    {
      SweepLeavesLiveRows(rows, repo, now, facts, first, i);
    }
  }

  /** Two sweeps on the same facts, the second one later, leave the same rows pending as the
      later one alone; a row they decide differently had left the queue before its deadline
      passed, and is superseded where the later one alone would have expired it. */
  lemma LaterSweepSubsumesEarlier(rows: seq<Proposal>, repo: int, early: int, late: int, facts: Facts, i: nat)
    requires early <= late && i < |rows|
    ensures var both := Swept(Swept(rows, repo, early, facts, {}), repo, late, facts, {});
            var once := Swept(rows, repo, late, facts, {});
            && (both[i].state == Proposed <==> once[i].state == Proposed)
            && (both[i].state == Proposed ==> both[i] == once[i])
            && (both[i].state != once[i].state ==>
                  && both[i].state == Superseded && once[i].state == Expired
                  && LiveValidityOf(rows[i], early, facts).reason == PrOffQueue)
  {
    VerdictsOverTime(rows[i], early, late, facts);
    ReasonExactly(rows[i], early, facts);
    ReasonExactly(rows[i], late, facts);
    hide LiveValidityOf, IsAssigned, IsClosed, HasLeftQueue, Normalize;
  }

  /** With a snapshot that is not fresh, the whole outcome is the one of an empty snapshot. */
  lemma StaleSweepIgnoresTheQueue(rows: seq<Proposal>, repo: int, now: int, facts: Facts, failing: set<int>)
    requires !facts.membership.isFresh
    ensures var blank := facts.(membership := Membership({}, {}, false));
            && Swept(rows, repo, now, facts, failing) == Swept(rows, repo, now, blank, failing)
            && Fates(rows, repo, now, facts, failing) == Fates(rows, repo, now, blank, failing)
  {
    hide LiveValidityOf;
    var blank := facts.(membership := Membership({}, {}, false));
    forall i | 0 <= i < |rows|
      ensures LiveValidityOf(rows[i], now, facts) == LiveValidityOf(rows[i], now, blank)
    {
      UntrustedSnapshotIsIgnored(rows[i], now, facts);
    }
  }

  ghost function NowIn(before: seq<Proposal>, after: seq<Proposal>, state: ProposalState): set<int>
    requires |before| == |after|
  {
    set i | 0 <= i < |before| && before[i].state == Proposed && after[i].state == state
  }

  ghost function LiveIds(rows: seq<Proposal>, repo: int, now: int, facts: Facts): set<int>
  {
    set i | i in PendingIds(rows, repo) && LiveValidityOf(rows[i], now, facts).isLive
  }

  /** The statistics of a sweep are exact: active splits into the other four, expired and
      superseded are the numbers of rows that moved to those states, still live that of the
      live rows, and errored that of the dead rows whose update failed. */
  lemma SweepStatsAreExact(rows: seq<Proposal>, repo: int, now: int, facts: Facts, failing: set<int>)
    ensures var ids, fates := PendingIds(rows, repo), Fates(rows, repo, now, facts, failing);
            var stats, after := Census(ids, fates, |ids|), Swept(rows, repo, now, facts, failing);
            && stats.active == stats.expired + stats.superseded + stats.stillLive + stats.errored
            && stats.expired == |NowIn(rows, after, Expired)|
            && stats.superseded == |NowIn(rows, after, Superseded)|
            && stats.stillLive == |LiveIds(rows, repo, now, facts)|
            && stats.errored == |(ids - LiveIds(rows, repo, now, facts)) * failing|
  {
    var ids, fates := PendingIds(rows, repo), Fates(rows, repo, now, facts, failing);
    var after := Swept(rows, repo, now, facts, failing);
    FatesOfPending(rows, repo, now, facts, failing);
    FourFates(ids, fates);
    MovedByFate(rows, repo, now, facts, failing);
    LiveByFate(rows, repo, now, facts, failing);
  }

  lemma LiveByFate(rows: seq<Proposal>, repo: int, now: int, facts: Facts, failing: set<int>)
    ensures var ids, fates := PendingIds(rows, repo), Fates(rows, repo, now, facts, failing);
            && WithFate(ids, fates, StillLive) == LiveIds(rows, repo, now, facts)
            && WithFate(ids, fates, Errored) == (ids - LiveIds(rows, repo, now, facts)) * failing
  {
    hide LiveValidityOf;
  }

  lemma FatesOfPending(rows: seq<Proposal>, repo: int, now: int, facts: Facts, failing: set<int>)
    ensures forall i :: i in PendingIds(rows, repo) ==> Fates(rows, repo, now, facts, failing)[i] != NotPending
  {
  }

  lemma {:induction false} FourFates(ids: set<int>, fates: seq<Fate>)
    requires forall i :: i in ids ==> 0 <= i < |fates| && fates[i] != NotPending
    ensures |ids| == |WithFate(ids, fates, ToExpired)| + |WithFate(ids, fates, ToSuperseded)|
                   + |WithFate(ids, fates, StillLive)| + |WithFate(ids, fates, Errored)|
  {
    if ids != {} {
      var id := Pick(ids);
      FourFates(ids - {id}, fates);
      CensusGrows(ids - {id}, id, fates, 0);
      assert ids - {id} + {id} == ids;
    }
    hide WithFate;
    EmptyCensus(fates, 0);
  }

  lemma MovedByFate(rows: seq<Proposal>, repo: int, now: int, facts: Facts, failing: set<int>)
    ensures var ids, fates := PendingIds(rows, repo), Fates(rows, repo, now, facts, failing);
            var after := Swept(rows, repo, now, facts, failing);
            && WithFate(ids, fates, ToExpired) == NowIn(rows, after, Expired)
            && WithFate(ids, fates, ToSuperseded) == NowIn(rows, after, Superseded)
  {
  }
}
