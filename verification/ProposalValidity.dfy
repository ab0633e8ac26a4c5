/** The authority on whether a pending assignment proposal is still live. */
module ProposalValidity {
  import opened Options
  import opened Logins

  datatype ProposalState = Proposed | Accepted | Declined | Expired | Superseded

  datatype Via = Undecided | Console | AutoExpire | SyncSuperseded

  datatype Proposal = Proposal(
    repo: int, pr: int, login: string, expiresAt: int,
    state: ProposalState, decidedAt: Option<int>, via: Via)

  datatype Reason = IsLive | AlreadyTerminal | PrAssigned | OptedOutOfPr | PrClosed | PastDeadline | PrOffQueue

  datatype Verdict = Verdict(isLive: bool, reason: Reason, terminalState: Option<ProposalState>, via: Via)

  datatype Policy = Invalidate | Retain

  datatype LivePr = LivePr(state: string, assignees: seq<string>)

  /** What the latest queue snapshot says: the queued numbers, the numbers it describes at
      all, and whether it is recent enough to be trusted. */
  datatype Membership = Membership(queue: set<int>, known: set<int>, isFresh: bool)

  /** Everything a verdict rests on apart from the row and the clock: the pull requests'
      rows, the queue snapshot, the active opt-outs of the repository as pairs of a number and
      a normalized login, and the configured policy on leaving the queue. */
  datatype Facts = Facts(
    livePrs: map<int, LivePr>, membership: Membership, optOuts: set<(int, string)>, onQueueExit: string)

  function ResolvePolicy(setting: string): Policy
  {
    if Normalize(setting) == "retain" then Retain else Invalidate
  }

  function CurrentAssignees(livePr: Option<LivePr>): set<string>
  {
    match livePr
    case None => {}
    case Some(pr) => set a | a in pr.assignees && a != "" :: Normalize(a)
  }

  function LivePrOf(facts: Facts, pr: int): Option<LivePr>
  {
    if pr in facts.livePrs then Some(facts.livePrs[pr]) else None
  }

  function OnQueue(membership: Membership, pr: int): Option<bool>
  {
    if membership.isFresh && pr in membership.known then Some(pr in membership.queue) else None
  }

  predicate HasOptedOut(facts: Facts, p: Proposal)
  {
    (p.pr, Normalize(p.login)) in facts.optOuts
  }

  function ValidityOf(
    p: Proposal, now: int, prState: Option<string>, assignees: set<string>,
    onQueue: Option<bool>, policy: Policy, optedOut: bool): (v: Verdict)
    ensures v.isLive <==> v.reason == IsLive
    ensures p.state == Proposed ==> (v.isLive <==> v.terminalState == None)
    ensures v.terminalState != None ==>
      (v.terminalState == Some(Expired) && v.via == AutoExpire)
      || (v.terminalState == Some(Superseded) && v.via == SyncSuperseded)
  {
    var superseded := Some(Superseded);
    if p.state != Proposed then Verdict(false, AlreadyTerminal, None, Undecided)
    else if assignees != {} then Verdict(false, PrAssigned, superseded, SyncSuperseded)
    else if optedOut then Verdict(false, OptedOutOfPr, superseded, SyncSuperseded)
    else if prState.Some? && Normalize(prState.value) != "open" then
      Verdict(false, PrClosed, superseded, SyncSuperseded)
    else if now >= p.expiresAt then Verdict(false, PastDeadline, Some(Expired), AutoExpire)
    else if onQueue == Some(false) && policy == Invalidate then
      Verdict(false, PrOffQueue, superseded, SyncSuperseded)
    else Verdict(true, IsLive, None, Undecided)
  }

  function LiveValidityOf(p: Proposal, now: int, facts: Facts): (v: Verdict)
    ensures p.state == Proposed ==> (v.isLive <==> v.terminalState == None)
    ensures v.terminalState != None ==>
      (v.terminalState == Some(Expired) && v.via == AutoExpire)
      || (v.terminalState == Some(Superseded) && v.via == SyncSuperseded)
  {
    var livePr := LivePrOf(facts, p.pr);
    var prState := if livePr.Some? then Some(livePr.value.state) else None;
    ValidityOf(p, now, prState, CurrentAssignees(livePr), OnQueue(facts.membership, p.pr),
               ResolvePolicy(facts.onQueueExit), HasOptedOut(facts, p))
  }

  predicate NamesAnAssignee(livePr: LivePr)
  {
    exists i :: 0 <= i < |livePr.assignees| && livePr.assignees[i] != ""
  }

  lemma AssigneesAreNamed(livePr: LivePr)
    ensures CurrentAssignees(Some(livePr)) != {} <==> NamesAnAssignee(livePr)
  {
    if NamesAnAssignee(livePr) {
      var i :| 0 <= i < |livePr.assignees| && livePr.assignees[i] != "";
      assert Normalize(livePr.assignees[i]) in CurrentAssignees(Some(livePr));
    }
  }

  // The facts say that the pull request is assigned, or closed, or off the queue.
  predicate IsAssigned(p: Proposal, facts: Facts)
  {
    p.pr in facts.livePrs && NamesAnAssignee(facts.livePrs[p.pr])
  }

  predicate IsClosed(p: Proposal, facts: Facts)
  {
    p.pr in facts.livePrs && Normalize(facts.livePrs[p.pr].state) != "open"
  }

  predicate HasLeftQueue(p: Proposal, facts: Facts)
  {
    && facts.membership.isFresh && p.pr in facts.membership.known && p.pr !in facts.membership.queue
    && Normalize(facts.onQueueExit) != "retain"
  }

  /** A pending proposal is live exactly when nothing in the facts speaks against it; a PR
      without a row and a PR the snapshot does not describe count as unproblematic, and only
      the setting "retain" keeps a proposal whose PR has left the queue. */
  lemma LiveExactly(p: Proposal, now: int, facts: Facts)
    ensures LiveValidityOf(p, now, facts).isLive
      <==> (&& p.state == Proposed && now < p.expiresAt && (p.pr, Normalize(p.login)) !in facts.optOuts
            && !IsAssigned(p, facts) && !IsClosed(p, facts) && !HasLeftQueue(p, facts))
  {
    ReasonExactly(p, now, facts);
    hide LiveValidityOf, IsAssigned, IsClosed, HasLeftQueue;
  }

  /** Why a proposal is dead is the first rule that applies: an assignee, an opt-out, a closed
      pull request, the deadline, the queue. The deadline expires it, the others supersede it. */
  lemma ReasonExactly(p: Proposal, now: int, facts: Facts)
    ensures var v := LiveValidityOf(p, now, facts);
            && v.reason == (
                 if p.state != Proposed then AlreadyTerminal
                 else if IsAssigned(p, facts) then PrAssigned
                 else if (p.pr, Normalize(p.login)) in facts.optOuts then OptedOutOfPr
                 else if IsClosed(p, facts) then PrClosed
                 else if p.expiresAt <= now then PastDeadline
                 else if HasLeftQueue(p, facts) then PrOffQueue
                 else IsLive)
            && (v.isLive <==> v.reason == IsLive)
            && (v.terminalState == None <==> v.reason in {IsLive, AlreadyTerminal})
            && (v.terminalState == Some(Expired) <==> v.reason == PastDeadline)
            && (v.terminalState == Some(Superseded) <==> v.reason in {PrAssigned, OptedOutOfPr, PrClosed, PrOffQueue})
  {
    hide Normalize;
    if p.pr in facts.livePrs {
      AssigneesAreNamed(facts.livePrs[p.pr]);
    }
  }

  /** A stale snapshot cannot invalidate anything: whatever it lists, the verdict is the
      one of an empty snapshot. The same goes for a PR the snapshot does not describe, and
      for every snapshot under the retain policy. */
  lemma UntrustedSnapshotIsIgnored(p: Proposal, now: int, facts: Facts)
    requires !facts.membership.isFresh || p.pr !in facts.membership.known || ResolvePolicy(facts.onQueueExit) == Retain
    ensures LiveValidityOf(p, now, facts)
         == LiveValidityOf(p, now, facts.(membership := Membership({}, {}, false)))
  {
    var blank := facts.(membership := Membership({}, {}, false));
    assert LivePrOf(facts, p.pr) == LivePrOf(blank, p.pr);
    assert HasOptedOut(facts, p) == HasOptedOut(blank, p);
  }

  /** Time only kills: under unchanged facts a dead proposal stays dead, and a verdict
      only ever changes into PastDeadline, from live or off-queue. */
  lemma VerdictsOverTime(p: Proposal, early: int, late: int, facts: Facts)
    requires early <= late
    ensures var before, after := LiveValidityOf(p, early, facts), LiveValidityOf(p, late, facts);
            && (after.isLive ==> before.isLive)
            && (after != before ==> after.reason == PastDeadline && before.reason in {IsLive, PrOffQueue})
  {
  }
}
