# Queueboard: a verified model

This project models the parts of the queueboard that decide something, and proves what they
are relied on for. Five pieces are covered.

1. **State evolution and classification.** An event log is replayed into states that hold
   label *kinds* with multiplicity; each state is classified through contradiction checks and a
   priority sort, and the resulting intervals are summed per status. (`Classification.dfy`,
   `StateEvolution.dfy`, `StatusTime.dfy`)
2. **Queue, statistics and storage.** The review queue is computed a second time from label
   names; the pie chart and the typed JSON encoding sit on top, and durations are kept as text.
   (`ReviewQueue.dfy`, `Statistics.dfy`, `TypedJson.dfy`, `JsonText.dfy` for the way through a
   text file, `AttributeText.dfy`)
3. **Dependency counts.** One worklist search per node and direction, on graphs that may have
   cycles. (`DependencyCounts.dfy`)
4. **Assignment proposals.** A shared table of rows with conditional updates. `ProposalTable.dfy`
   holds the table as a class, with the handlers and the sweep run on their own;
   `ProposalRuns.dfy` is a state machine in which any number of sweeps, handlers and syncs
   interleave one database step at a time; `ProposalTheorems.dfy` and, for the sweep,
   `ProposalSweeps.dfy` say what holds in every run, and `ProposalHandlers.dfy` what a handler does
   that nobody disturbs. (`Logins.dfy`, `ProposalValidity.dfy`)
5. **Reviewer allocation and suggestions.** The greedy allocation with its random choice
   (`ReviewerAllocation.dfy`, `AllocationRuns.dfy`), and the on-demand suggestions: the skip
   classifier (`CandidateEngine.dfy`, and in plain terms `CandidateRules.dfy`), the ranking (`SuggestionRanking.dfy`), the walk, the claim and
   the label override (`SuggestionWalk.dfy`), and the whole request with its pool of assignable pull
   requests (`SuggestionRequest.dfy`; what it answers, in terms of what it reads,
   `SuggestionAnswers.dfy`).

`Options.dfy`, `Sets.dfy` and `Sequences.dfy` hold what several of them use, the stable sort among it.

Time is an integer (microseconds in the replay, any unit in the proposal table); weighted loads
are `real`. Random choices, the clock, the answers of GitHub and the facts read from the
database are parameters, and every theorem is about all their values. In the proposal machine the
active opt-outs are read from the machine's own table at the step that reads them; the other facts
(the live pull request, the queue snapshot, the settings) are arbitrary at that step, which covers
every moment at which they could have been read.

Several promises turn out to hold only under a condition; there the code is kept as it is and the
condition is proved exact. Where the code and its own comments differ, the model follows the code:

- `src/queueboard/suggest_reviewer.py:48-51` says that a reviewer is never suggested for an author
  they have a conflict of interest with. Line 204 looks the *reviewer's own* handle up in that
  list, so the author is never found there; without labels the list is not looked at. The promise
  fails exactly when somebody in conflict with the author is the only one who may review, or has
  capacity left and covers the most labels, or has capacity left and there are no labels and two
  reviewers other than the author (`ReviewerAllocation.ConflictedIsSuggestedExactly`; inputs
  `ConflictedReviewerIsSuggested` and `UnlabelledConflictIsSuggested`).
- Lines 201 and 207 of the same file mean to leave out a pull request's author. Without labels line
  224 takes them back in: `ReviewerAllocation.AuthorIsSuggestedExactly`.
- `src/queueboard/classify_pr_state.py:115` says that awaiting-author takes precedence over a merge
  conflict. By the table at 296-308 it never does (`Classification.MergeConflictOutranksAuthor`).
  Line 343 says that drafts and failing CI take precedence over every label. They do exactly when
  no label says blocked, help wanted, bors or review (`Classification.UnreadyIsNotReadyExactly`).
  Two inputs that show it are in `Classification.PrecedenceAgainstTheComments`.
- `src/queueboard/compute_dashboard_prs.py:580-585` expects the queue and the classifier to agree.
  They differ on pull requests that are not from a fork, wait for a core release, carry the retired
  review label together with delegated, or target another base (`ReviewQueue.QueueAgainstStatus`; inputs
  `QueuedFromHome` and `DelegatedIsMissed`).
- `src/queueboard/compute_dashboard_prs.py:207-231` drops absolute fields of a relativedelta that are
  zero, so an hour set to midnight is lost (`TypedJson.RelativeDeltaExactly`).
- Dictionaries by number or by enum member, as `src/queueboard/dashboard_data.py:193-222` writes them,
  come back from a file with texts as their keys. A file keeps a value exactly when all its
  dictionaries have plain string keys (`JsonText.FileKeepsExactly`; an input is
  `NumberedDictionaryIsNotKept`).
- `qb_site/analyzer/services/assignment_proposal_expiry.py:97-99` counts a row that somebody else
  decided meanwhile as still live, although its verdict was not. The count is right exactly when
  nobody else decided a row with a dead verdict first (`ProposalSweeps.StillLiveExactly`); a run in
  which two sweeps race and it is wrong is `ProposalSweeps.SecondSweepMiscounts`.
- `qb_site/analyzer/services/assignment_suggestions.py:19-22` says that a break and automatic
  assignment are overridden by a request. The suggestions never depend on them, but the pool's
  filter reads the real settings, so one count of the tally can: the exact condition is
  `SuggestionRequest.ThrottlesDoNotMatter`, an input `SuggestionRequest.BreakShowsOwnPullRequest`.
- `qb_site/console/views.py:921` calls the recheck limit effectively unbounded; the exact bound is
  `SuggestionRequest.ShownPassesRecheckExactly`, a family of inputs beyond it
  `SuggestionRequest.LongPageFailsRecheck`.

## Model

| member | source | states |
|---|---|---|
| Classification.ClassifierMeetsCascade | src/queueboard/classify_pr_state.py:225-310 | the classifier on a label list of any length equals a cascade over the set of effective kinds: fork, clash, then the highest kind present |
| Classification.SortedHeadIsHighest | src/queueboard/classify_pr_state.py:292-310 | the head of the priority sort has the greatest priority of the list, whatever the order of equal keys |
| Classification.OnlyTheKindSetMatters | src/queueboard/classify_pr_state.py:252-310 | order and repetition of labels, and Other, never change the status |
| Classification.StatusExactly | src/queueboard/classify_pr_state.py:225-310 | when a fork has each of the statuses, by its labels, draft flag, CI and date |
| Classification.AnswerComesFromSomeKind | src/queueboard/classify_pr_state.py:188-310 | never Closed; for a fork with effective kinds, Contradictory exactly on a clash and otherwise the status of one of the kinds |
| Classification.ContradictionSurvivesMoreLabels | src/queueboard/classify_pr_state.py:272-290 | adding labels never resolves a contradiction |
| Classification.MergeConflictOutranksAuthor | src/queueboard/classify_pr_state.py:296-310 | a fork's pull request with a merge conflict is never awaiting its author, whatever else it carries |
| Classification.UnreadyIsNotReadyExactly | src/queueboard/classify_pr_state.py:252-310 | a fork's draft, or one whose CI blocks it, is not ready exactly when it carries none of blocked, help wanted, bors and review |
| Classification.PrecedenceAgainstTheComments | src/queueboard/classify_pr_state.py:296-310 | awaiting-author with a merge conflict gives MergeConflict, and a draft labelled blocked gives Blocked |
| StateEvolution.RemoveInPlace | src/queueboard/state_evolution.py:166-173 | the removal loop computes the specified removal, including the case where the list's remove raises |
| StateEvolution.RemovalRaisesExactly | src/queueboard/state_evolution.py:168-173 | the removal raises exactly when a kind present before the event is removed more often than it is listed |
| StateEvolution.DetermineStateChanges | src/queueboard/state_evolution.py:185-195 | the loop returns creation and one entry per event, or fails when an update raises |
| StateEvolution.DetermineStatusChanges | src/queueboard/state_evolution.py:201-208 | each entry of the evolution is classified at its own time |
| StateEvolution.StepPreservesAgree | src/queueboard/state_evolution.py:130-179 | one well-formed event keeps the kind multiset equal to the image of the set of names |
| StateEvolution.ReplayTracksNames | src/queueboard/state_evolution.py:130-195 | on a well-formed log the replay never raises and its kinds are those of the names present, with multiplicity |
| StateEvolution.LastLabelEventDecides | src/queueboard/state_evolution.py:138-179 | a label name is present in the end exactly when the last event that adds or drops it adds it |
| StateEvolution.LastCiEventDecides | src/queueboard/state_evolution.py:130-137 | CI ends as the last event about it says |
| StateEvolution.StatusesComputedFromNames | src/queueboard/state_evolution.py:130-208 | every status of the evolution is the one computed from the names then present, in any listing |
| StateEvolution.ReplayedDraftFlag | src/queueboard/state_evolution.py:130-137 | the draft flag after a replay is that of the toggles alone |
| StateEvolution.DraftInferenceExact | src/queueboard/state_evolution.py:383-389 | the inferred initial flag is the true one exactly when the number of redundant toggles is even |
| StateEvolution.ReplayFromInferredFlag | src/queueboard/state_evolution.py:383-389 | replaying from the inferred flag ends in the recorded flag |
| StatusTime.TotalTimeInStatus | src/queueboard/state_evolution.py:214-244 | the interval loop returns the specified total, or fails when the replay does |
| StatusTime.TotalCountsInstants | src/queueboard/state_evolution.py:229-242 | for a sorted log the total is the number of instants in [created, now) whose latest entry has the status |
| StatusTime.TotalsShareOutLifetime | src/queueboard/state_evolution.py:229-242 | for any log the totals over all statuses add up to the time since creation |
| StatusTime.FirstInStatus | src/queueboard/state_evolution.py:276-288 | the result is the time of the first entry with the status that counts, the first entry counting unless the second has the same time; None if there is none |
| StatusTime.FirstTimeAndTotal | src/queueboard/state_evolution.py:214-288 | without a first time the total is zero, and with first time t it is at most now - t |
| StatusTime.FirstTimePrecedesEveryInstant | src/queueboard/state_evolution.py:276-288 | every instant in the status lies at or after the first time |
| StatusTime.StatusAtIsLatestEntry | src/queueboard/state_evolution.py:201-208 | the status at an instant is that of the latest entry at or before it |
| StatusTime.SortedLogGivesSortedEvolution | src/queueboard/state_evolution.py:185-208 | a sorted log gives a sorted evolution that starts at the creation |
| DependencyCounts.BuildAdjacency | src/queueboard/util.py:142-148 | both adjacency maps hold exactly the edges between known pull requests |
| DependencyCounts.CountReachable | src/queueboard/util.py:156-164 | the search ends on every graph and counts the other nodes that start reaches |
| DependencyCounts.TransitiveDependencyCounts | src/queueboard/util.py:133-169 | upstream and downstream are the sizes of the sets of other nodes reachable along and against the edges |
| DependencyCounts.UpstreamIffDownstream | src/queueboard/util.py:141-169 | d is upstream of p exactly when p is downstream of d |
| DependencyCounts.TotalsAreEqual | src/queueboard/util.py:141-169 | total upstream equals total downstream |
| DependencyCounts.UpstreamAlongEdge | src/queueboard/util.py:141-169 | along an edge the upstream count does not grow, and is equal exactly on a cycle |
| DependencyCounts.ComputeDependencyCounts | src/queueboard/dashboard.py:183-203 | the column data are the transitive counts of the known dependencies, each kept as often as listed, with the direct counts |
| DependencyCounts.CountDependents | src/queueboard/dashboard.py:189-192 | the loop counts how often each pull request is listed as a dependency |
| DependencyCounts.DirectAtMostTransitive | src/queueboard/dashboard.py:183-203 | without duplicates and self-loops the direct counts never exceed the transitive ones |
| ReviewQueue.QueueAgainstStatus | src/queueboard/compute_dashboard_prs.py:732-753 | exactly when, and in which direction, queue membership and the AwaitingReview status differ |
| ReviewQueue.QueuedFromHome | src/queueboard/compute_dashboard_prs.py:732-753 | a passing pull request of the home repository without labels is queued with status NotFromFork |
| ReviewQueue.DelegatedIsMissed | src/queueboard/compute_dashboard_prs.py:732-753 | a passing fork with the retired review label and delegated is awaiting review and not queued |
| ReviewQueue.QueueAgreesWithStatus | src/queueboard/compute_dashboard_prs.py:732-753 | for a fork against master without the two odd labels, queued if and only if AwaitingReview |
| ReviewQueue.NeedsMergeAgainstStatus | src/queueboard/compute_dashboard_prs.py:751-752 | what needs a merge has status MergeConflict, or Blocked when it waits for a core release |
| ReviewQueue.CrossCheckSucceedsExactly | src/queueboard/compute_dashboard_prs.py:570-585 | the run-time comparison of the two lists succeeds exactly when no pull request is queued wrongly or missed |
| ReviewQueue.RulesReadBackwards | src/queueboard/classify_pr_state.py:69-86 | the label names that stand for each kind |
| Statistics.GatherStatistics | src/queueboard/compute_dashboard_prs.py:557-645 | per status the number of distinct ready numbers with it, drafts counting as not ready, for each cumulative count its whole degrees of a circle, and the consistency flag; with no pull request at all the division by zero |
| Statistics.ConsistentExactly | src/queueboard/compute_dashboard_prs.py:570-645 | the inconsistency message cannot fire exactly when the ready numbers are distinct and none is Closed |
| Statistics.PieChartStops | src/queueboard/compute_dashboard_prs.py:637-639 | each stop is the whole degrees of its cumulative count; stops never decrease, lie in 0..360 and end at 360 exactly when the counts add up |
| Statistics.OpenPullRequestsAddUp | src/queueboard/compute_dashboard_prs.py:481-645 | for any open pull requests with statuses from the classifier, the counts add up and the last stop is 360 exactly when no ready number occurs twice |
| TypedJson.DecodeInvertsEncode | src/queueboard/compute_dashboard_prs.py:178-328 | decoding inverts encoding on every supported value tree, with dictionaries by string, number or enum member |
| TypedJson.EncodingIsInjective | src/queueboard/compute_dashboard_prs.py:178-251 | different supported values have different encodings |
| TypedJson.RelativeDeltaExactly | src/queueboard/compute_dashboard_prs.py:206-231 | a relativedelta survives exactly when no absolute field is zero |
| TypedJson.TaggedDictionaryIsMisread | src/queueboard/compute_dashboard_prs.py:276-294 | a plain dictionary with the type tag as a key comes back as something else |
| TypedJson.EncodedForms | src/queueboard/compute_dashboard_prs.py:182-246 | the form of each tagged value, on examples |
| TypedJson.PartNames | src/queueboard/compute_dashboard_prs.py:206-231 | the name each part of a relativedelta is written under |
| TypedJson.RawIsKept | src/queueboard/compute_dashboard_prs.py:320-328 | plain data is read as it stands: encoding what it reads as gives it back |
| TypedJson.OddDataIsRead | src/queueboard/compute_dashboard_prs.py:280-328 | an unknown class is read as plain data, an unknown enum value raises, a text as tuple data is taken apart |
| JsonText.FileRoundTrip | src/queueboard/compute_dashboard_prs.py:331-358 | a supported value that is encoded, dumped, loaded and decoded comes back with every dictionary key turned into its text |
| JsonText.FileKeepsExactly | src/queueboard/dashboard_data.py:193-222 | a file keeps a supported value exactly when every dictionary in it has plain string keys |
| JsonText.NumberedDictionaryIsNotKept | src/queueboard/dashboard_data.py:202-217 | a dictionary with the number 7 as its key comes back with the text "7" |
| JsonText.NumberKeysReadBack | src/queueboard/dashboard.py:183-187 | reading a number key's text as an integer gives the number back |
| AttributeText.TryParse | src/queueboard/util.py:93-103 | the parsing loop computes the specified attributes or error; the format is wrong exactly when the text is not the name with something in parentheses |
| AttributeText.NumeralExactly | src/queueboard/util.py:98-102 | a number is digits with single underscores between them |
| AttributeText.UnitLengths | src/queueboard/util.py:93-103 | what one of each unit is worth in microseconds; any other name raises |
| AttributeText.ParseInvertsPrint | src/queueboard/util.py:93-120 | a printed attribute list of signed integers reads back, the last of a repeated name winning |
| AttributeText.CollectDistinct | src/queueboard/util.py:98-102 | with distinct names every name keeps its own value |
| AttributeText.DurationRoundTrip | src/queueboard/util.py:82-103 | printing and parsing floors a duration to whole seconds, negative ones too, and is exact exactly for whole seconds |
| Logins.NormalizeTwice | qb_site/analyzer/services/reviewer_assignment_engine.py:83-84 | a normalized login is its own normal form, so exact-match lookups find it |
| Logins.NormalizeExactly | qb_site/analyzer/services/reviewer_assignment_engine.py:83-84 | the normal form is what stands between the outer white space, with capital letters made small |
| Logins.SpacesByCode | qb_site/analyzer/services/reviewer_assignment_engine.py:83-84 | the white space that is stripped, by code point up to 0xA0 |
| ProposalValidity.LiveExactly | qb_site/analyzer/services/assignment_proposal_validity.py:105-220 | a pending proposal is live exactly when deadline, opt-outs, assignees, state and queue all permit it |
| ProposalValidity.ReasonExactly | qb_site/analyzer/services/assignment_proposal_validity.py:135-220 | the reason is the first rule that applies in the documented order, the deadline expires and the others supersede |
| ProposalValidity.UntrustedSnapshotIsIgnored | qb_site/analyzer/services/assignment_proposal_validity.py:126-220 | a stale or silent snapshot, or the retain policy, makes the verdict independent of the queue |
| ProposalTable.Table.Create | qb_site/analyzer/models/assignment_proposal.py:68-72 | refused exactly when a row of the pull request is pending; otherwise the new pending row is appended |
| ProposalTable.Table.UpdateIfPending | qb_site/analyzer/services/assignment_proposal_expiry.py:91-99 | the conditional update changes one pending row or nothing, and says which |
| ProposalTable.Table.Retire | qb_site/console/views.py:591-600 | a dead verdict is written to a still pending row |
| ProposalTable.Table.Accept | qb_site/console/views.py:681-734 | every page exactly: accepted if and only if the row is the own one, live, accepting is enabled and GitHub confirms; a dead proposal is retired for its reason; otherwise nothing changes |
| ProposalTable.Table.AssignAnyway | qb_site/console/views.py:737-794 | every page exactly: with an open pull request not assigned to the user, enabled and confirmed, the opt-out is cleared and a pending row accepted; otherwise nothing changes |
| ProposalTable.Table.Decline | qb_site/console/views.py:797-840 | every page exactly: the own pending row and the opt-out change together; otherwise nothing changes |
| ProposalTable.Table.ReconcileOne | qb_site/analyzer/services/assignment_proposal_expiry.py:74-112 | one round of the sweep on a row that may have been decided since it was read |
| ProposalTable.Table.ExpireAndReconcile | qb_site/analyzer/services/assignment_proposal_expiry.py:50-115 | the sweep applies its verdict to every pending row of the repository and returns the census of their fates |
| ProposalTable.SweepLeavesLiveRows | qb_site/analyzer/services/assignment_proposal_expiry.py:74-112 | rows still pending after a sweep are live or failed, all others are untouched |
| ProposalTable.SweepRetiresExactly | qb_site/analyzer/services/assignment_proposal_expiry.py:74-112 | each pending row of the repository whose update does not fail is retired for the reason it is dead, all others stay |
| ProposalTable.SecondSweep | qb_site/analyzer/services/assignment_proposal_expiry.py:74-112 | a second sweep on the same facts changes only rows that failed, hence nothing after a clean one; a clean retry of the failures completes it |
| ProposalTable.LaterSweepSubsumesEarlier | qb_site/analyzer/services/assignment_proposal_expiry.py:74-112 | an earlier sweep before a later one on the same facts leaves the same rows pending as the later one alone; a decided row differs only by being superseded for having left the queue before its deadline passed |
| ProposalTable.StaleSweepIgnoresTheQueue | qb_site/analyzer/services/assignment_proposal_expiry.py:12-13 | with a snapshot that is not fresh the outcome is that of an empty snapshot |
| ProposalTable.SweepStatsAreExact | qb_site/analyzer/services/assignment_proposal_expiry.py:40-112 | active splits into the other four: the rows that moved to expired, those that moved to superseded, the live ones, and the dead ones whose update failed |
| ProposalRuns.ExecSettles | qb_site/console/views.py:591-840 | no step removes a row, changes what it is about or rewrites a decided row |
| ProposalRuns.ExecKeeps | qb_site/console/views.py:591-840 | every step of every process keeps the invariant of tables, history and processes |
| ProposalTheorems.DecidedRowsAreFrozen | qb_site/analyzer/services/assignment_proposal_expiry.py:89-99 | in every run a decided row keeps state, decision time and channel for ever |
| ProposalTheorems.EachRowLeavesOnce | qb_site/analyzer/services/assignment_proposal_expiry.py:89-99 | a row leaves the pending state at most once, and is decided exactly when it has |
| ProposalTheorems.DecisionsArePaired | qb_site/console/views.py:719-724 | accepted and declined pair with console, expired with auto_expire, superseded with sync_superseded |
| ProposalTheorems.OnePendingProposalPerPr | qb_site/analyzer/models/assignment_proposal.py:18-21 | in every run at most one proposal per pull request is pending |
| ProposalTheorems.AcceptedMeansLanded | qb_site/console/views.py:661-724 | behind every accepted row lies an earlier confirmed assignment of that reviewer to that pull request |
| ProposalTheorems.DeclinedMeansOptedOut | qb_site/console/views.py:814-830 | a declined row has an opt-out under the normalized login, active unless cleared later, on the console only after a confirmed assignment |
| ProposalTheorems.OptOutsFollowTheirHistory | qb_site/syncer/services/pr_sync_service.py:122-145 | an opt-out is active exactly when the last event about it wrote it, and stored logins are normalized |
| ProposalTheorems.ConsoleDecisionsAreTheReviewersOwn | qb_site/console/views.py:603-617 | in every run a row is accepted or declined only by a process of the user whose normalized login it names |
| ProposalTheorems.AcceptAsksOnlyForLiveProposals | qb_site/console/views.py:689-714 | GitHub is asked for an accept only when the proposal was pending and live under the facts read |
| ProposalTheorems.PassedCheckMeansNoOptOut | qb_site/console/views.py:689-714 | in every run an accept that passes its check found no active opt-out in the table |
| ProposalTheorems.OptOutsAfterTheCheck | qb_site/console/views.py:689-724 | an opt-out that is active while a checked accept waits was written after the check |
| ProposalTheorems.CommitsTakeEffect | qb_site/console/views.py:591-840 | after a handler's commit the row is decided, by this commit if it was pending, no other row changed, and the opt-out is active after a decline and cleared after an assign-anyway |
| ProposalHandlers.AcceptAlone | qb_site/console/views.py:681-734 | from any reachable state, an undisturbed accept ends with the row accepted exactly when it is the own one, live by the tables, enabled and confirmed; a dead one is retired |
| ProposalHandlers.AnywayAlone | qb_site/console/views.py:737-794 | the same for an assign-anyway and its conditions |
| ProposalHandlers.DeclineAlone | qb_site/console/views.py:797-840 | the same for a decline |
| ProposalHandlers.OutsideTakesEffect | qb_site/syncer/services/pr_sync_service.py:122-145 | inserts and the opt-outs written or cleared by a sync take effect at once and change nothing else |
| ProposalHandlers.OptOutsReadExactly | qb_site/analyzer/services/reviewer_assignment.py:53-64 | the opt-outs a handler or a sweep reads are the active rows of the repository |
| ProposalSweeps.SweepAccounts | qb_site/analyzer/services/assignment_proposal_expiry.py:57-112 | at every moment of every run a sweep's statistics account for each row it read and count the rows it moved itself |
| ProposalSweeps.SweepsShareTheRows | qb_site/analyzer/services/assignment_proposal_expiry.py:89-103 | two interleaved sweeps never retire the same row and their counts add up |
| ProposalSweeps.FinishedSweepLeavesNoDeadRow | qb_site/analyzer/services/assignment_proposal_expiry.py:74-112 | after a finished sweep, whatever ran in between, each row it read is decided, live under its facts, or failed |
| ProposalSweeps.SweepAlone | qb_site/analyzer/services/assignment_proposal_expiry.py:59-103 | an undisturbed sweep of the machine, in any row order, leaves the table the sweep as a program computes |
| ProposalSweeps.StillLiveExactly | qb_site/analyzer/services/assignment_proposal_expiry.py:77-99 | in every run still_live is the number of live copies plus the dead ones somebody else decided first, so it is right exactly when there are none of the latter |
| ProposalSweeps.SecondSweepMiscounts | qb_site/analyzer/services/assignment_proposal_expiry.py:89-99 | two sweeps race for one dead row; the second ends with still_live 1 although the row has expired |
| ProposalTheorems.LostDeclineStillOptsOut | qb_site/console/views.py:814-830 | a decline that loses against an accept still leaves an active opt-out beside the accepted row |
| ReviewerAllocation.CollectMatching | src/queueboard/suggest_reviewer.py:197-205 | the collecting loop yields exactly the admissible reviewers, each with the number of labels in their field |
| ReviewerAllocation.ScoreCounts | src/queueboard/suggest_reviewer.py:200-200 | the score is the number of the pull request's labels in the reviewer's field |
| ReviewerAllocation.ProposedCoverALabel | src/queueboard/suggest_reviewer.py:226-231 | whoever is listed among several for a labelled pull request covers one of its labels |
| ReviewerAllocation.TopicLabelsExactly | src/queueboard/suggest_reviewer.py:303-303 | the topic labels are CI, IMO, tech debt and those that begin with t-, as often as given |
| ReviewerAllocation.SortRanks | src/queueboard/suggest_reviewer.py:236-242 | potential reviewers are the proposed ones, less busy first |
| ReviewerAllocation.ListedByLoad | src/queueboard/suggest_reviewer.py:236-242 | the listed handles come in the order of their loads |
| ReviewerAllocation.ProposedExactly | src/queueboard/suggest_reviewer.py:226-231 | with several matches, proposed are exactly the admissible reviewers who cover some label and the most labels, counted by position |
| ReviewerAllocation.PotentialHandles | src/queueboard/suggest_reviewer.py:216-259 | whose handles are listed, for none, one or several matches |
| ReviewerAllocation.LabelledExcludes | src/queueboard/suggest_reviewer.py:198-205 | on labelled pull requests never the author, nor a reviewer listing their own handle |
| ReviewerAllocation.ConflictsWithAuthorAreIgnored | src/queueboard/suggest_reviewer.py:202-205 | a reviewer in conflict with the author is listed exactly when nothing else speaks against them: they do not list themselves, and are the only admissible one or cover the most labels |
| ReviewerAllocation.ConflictedReviewerIsSuggested | src/queueboard/suggest_reviewer.py:202-221 | a concrete reviewer with the author in their conflict list is suggested |
| ReviewerAllocation.UnlabelledReadmits | src/queueboard/suggest_reviewer.py:206-224 | without labels everybody is a potential reviewer, the author exactly from two other reviewers on |
| ReviewerAllocation.SuggestedIsFree | src/queueboard/suggest_reviewer.py:261-276 | with several matches the suggested reviewer is free, and nobody is suggested exactly when no proposed one is |
| ReviewerAllocation.EveryFreeReviewerCanBeDrawn | src/queueboard/suggest_reviewer.py:261-271 | with several matches the draw can fall on every proposed reviewer who is free |
| ReviewerAllocation.SuggestedIsListed | src/queueboard/suggest_reviewer.py:216-276 | the suggested reviewer is an available one, and available reviewers are listed |
| ReviewerAllocation.SuggestibleExactly | src/queueboard/suggest_reviewer.py:197-276 | some pick suggests a handle exactly when it is the only admissible one, or has capacity left and covers the most labels; without labels, or has capacity left once two others than the author exist |
| ReviewerAllocation.AvailableExactly | src/queueboard/suggest_reviewer.py:261-276 | available are exactly those the draw can fall on |
| ReviewerAllocation.NobodyIsSuggestedExactly | src/queueboard/suggest_reviewer.py:216-276 | nobody is suggested exactly when nobody can be |
| ReviewerAllocation.ConflictedIsSuggestedExactly | src/queueboard/suggest_reviewer.py:48-51 | with labels or without, somebody in conflict with the author is suggested by some pick exactly when one who has that conflict can be suggested at all |
| ReviewerAllocation.UnlabelledConflictIsSuggested | src/queueboard/suggest_reviewer.py:206-271 | of two reviewers without load, an even pick suggests the first for an author in their conflict list |
| ReviewerAllocation.AuthorIsSuggestedExactly | src/queueboard/suggest_reviewer.py:206-271 | some pick suggests a pull request to its author exactly when it has no labels, two reviewers other than the author exist and the author has capacity left |
| AllocationRuns.LoadIsConserved | src/queueboard/suggest_reviewer.py:317-328 | total load grows by the number of suggestions and each reviewer's by those made to them |
| AllocationRuns.SuggestionsCountTheLoad | src/queueboard/suggest_reviewer.py:317-328 | for distinct pull requests the total load grows by the size of the returned dictionary |
| AllocationRuns.ChoicesAreAllowed | src/queueboard/suggest_reviewer.py:311-328 | each choice of a round is allowed by the topic labels and the loads at that point, and none is made exactly when none is |
| AllocationRuns.RecordedExactly | src/queueboard/suggest_reviewer.py:316-327 | the returned dictionary holds the last suggestion made for each number |
| AllocationRuns.ReceivedExactly | src/queueboard/suggest_reviewer.py:324-327 | a list grows by the pull requests its owners were chosen for, in order |
| AllocationRuns.NoSuggestionToTheAuthor | src/queueboard/suggest_reviewer.py:198-205 | in a whole round no labelled pull request is suggested to its author, nor to a reviewer all of whose entries list their own handle |
| AllocationRuns.SuggestionToTheAuthor | src/queueboard/suggest_reviewer.py:206-328 | where a round suggests a pull request to its author, it has no topic label, two other reviewers exist and the author has capacity left at that point |
| AllocationRuns.ReceiversStayWithinCapacity | src/queueboard/suggest_reviewer.py:261-328 | a receiver ends below a capacity of theirs plus one unless they were once the only candidate |
| AllocationRuns.SingleCandidateIgnoresCapacity | src/queueboard/suggest_reviewer.py:219-221 | an only candidate is suggested every time, whatever their capacity |
| AllocationRuns.FullAreaStaysFull | src/queueboard/suggest_reviewer.py:279-289 | an area at maximum capacity stays so under every continuation of a round |
| AllocationRuns.SuggestMany | src/queueboard/suggest_reviewer.py:311-328 | the round returns the specified suggestions, and the caller's lists grow through the shallow copy |
| CandidateEngine.SurvivesExactly | qb_site/analyzer/services/reviewer_assignment_engine.py:208-230 | the requester survives the label contest exactly when they match and nobody else covers more labels |
| CandidateEngine.AvailableExactly | qb_site/analyzer/services/reviewer_assignment_engine.py:192-248 | the requester is available exactly when no prefilter, missing area, better match or exclusion speaks against it |
| CandidateRules.ScoreCounts | qb_site/analyzer/services/reviewer_assignment_engine.py:188-230 | the score is the number of topic labels the reviewer prefers |
| CandidateRules.CandidatesExactly | qb_site/analyzer/services/reviewer_assignment_engine.py:174-248 | who is potential and who is available, in terms of profiles, covered labels, loads, weekly limits and exclusions |
| CandidateEngine.EveryRuleExcludes | qb_site/analyzer/services/assignment_suggestions.py:192-225 | each skip rule that applies keeps the requester from the pull request |
| CandidateEngine.SkipReasonIsTrue | qb_site/analyzer/services/assignment_suggestions.py:192-225 | the reason given for a skip really applies |
| CandidateEngine.SkipReasonIsFirst | qb_site/analyzer/services/assignment_suggestions.py:200-225 | no earlier rule in the engine's order applies |
| CandidateEngine.SubstituteMakesRequestCatalog | qb_site/analyzer/services/assignment_suggestions.py:299-329 | in the request's catalog every entry under the requester's login is the overridden profile |
| SuggestionWalk.Walk | qb_site/analyzer/services/assignment_suggestions.py:351-419 | suggestions are the eligible pull requests in rank order up to the limit, and the tally covers the whole ranking |
| SuggestionWalk.EachCountedOnce | qb_site/analyzer/services/assignment_suggestions.py:353-389 | every ranked pull request with an entry is eligible or counted under exactly one reason |
| SuggestionRequest.SmallerLimitGivesPrefix | qb_site/analyzer/services/assignment_suggestions.py:15-18 | for two answers to the same request, the smaller limit's suggestions are a prefix of the larger one's, all of them if they stay below the limit, and the tallies are equal |
| SuggestionRequest.ShownPassesRecheckExactly | qb_site/console/views.py:918-1052 | for two answers to one request, the page and the recheck, all that was shown passes if at most 100000 were shown, and exactly then for a queue without repetitions |
| SuggestionRequest.LongPageFailsRecheck | qb_site/console/views.py:918-1052 | a queue of more than 100000 eligible pull requests, all shown, has one that fails the recheck |
| SuggestionWalk.Claim | qb_site/console/views.py:1039-1083 | posted numbers split into assigned and failed; GitHub is asked exactly about the eligible ones |
| SuggestionRequest.AssignablePool | qb_site/analyzer/services/reviewer_assignment.py:505-517 | the filter loops over the queue compute the pool: no active assignee by the real settings, no forbidden label, no pending proposal |
| SuggestionRequest.SuggestPrs | qb_site/analyzer/services/assignment_suggestions.py:228-426 | the status of a request with labels of its own or none, and its suggestions and tally when it has an answer |
| SuggestionAnswers.SuggestedInOrder | qb_site/analyzer/services/reviewer_assignment_engine.py:251-331 | of two suggestions the earlier has fewer free reviewers, on a tie less room among them, then the longer time on the queue, then the better title, then the smaller number |
| SuggestionAnswers.StatusExactly | qb_site/analyzer/services/assignment_suggestions.py:263-426 | the status exactly, with the age ceiling of the snapshot, and that only the last two come with suggestions |
| SuggestionAnswers.SkippedForAReason | qb_site/analyzer/services/assignment_suggestions.py:353-389 | what the walk says about a pull request it does not offer is true |
| SuggestionRequest.NoLabelsExactly | qb_site/analyzer/services/assignment_suggestions.py:150-325 | a request is answered NoLabels exactly when some token is usable and none within the limit is a topic label of the repository, or no token is usable and no labels are stored |
| SuggestionAnswers.OfferedExactly | qb_site/analyzer/services/assignment_suggestions.py:19-29 | offered are exactly the queued pull requests with an entry that no rule of the pool (active assignee, forbidden label, pending proposal) and no rule about the requester speaks against |
| SuggestionRequest.ThrottlesDoNotMatter | qb_site/analyzer/services/assignment_suggestions.py:293-366 | capacity, weekly limit, break and automatic assignment of the requester never change the eligible pull requests; they change a count exactly when it is that of already assigned, the requester turns active or inactive, and they hold a queued pull request that nothing else keeps from the pool |
| SuggestionRequest.AlreadyAssignedExactly | qb_site/analyzer/services/assignment_suggestions.py:357-366 | nothing counts as already assigned while the requester is active, and otherwise every queued pull request they hold that nothing else keeps from the pool |
| SuggestionRequest.BreakShowsOwnPullRequest | qb_site/analyzer/services/assignment_suggestions.py:357-366 | a concrete request whose tally of already assigned is 0 while its reviewer is active and 1 on a break |
| SuggestionRanking.RankSorts | qb_site/analyzer/services/reviewer_assignment_engine.py:294-331 | the ranking is an ordered permutation of the pool, numbers without an entry first |
| SuggestionRanking.OnlyEligibleNumbersMatter | qb_site/analyzer/services/assignment_suggestions.py:15-18 | pools that hold the eligible numbers equally often give the same eligible pull requests in the same order, whatever else they hold and repeated or not |
| SuggestionRequest.RequestsAreReproducible | qb_site/analyzer/services/assignment_suggestions.py:15-18 | with the queue listed in another order a request finds the same eligible pull requests in the same order, and every count is the same |
| SuggestionWalk.ResolveLabelOverride | qb_site/analyzer/services/assignment_suggestions.py:150-189 | each usable token ends in exactly one of known, unknown and dropped, the last past the limit, and no override means no usable token |

## Left out

- CandidateEngine.SkipReasonIsTrue: assumes logins without surrounding white space and loads below 2^63 - 1. With a padded login the engine would not recognise the author; with a larger load the overridden capacity would not suffice.
- CandidateEngine.EveryRuleExcludes: the same two assumptions.
- SuggestionAnswers.SkippedForAReason: the same two assumptions.
- SuggestionAnswers.OfferedExactly: loads below 2^63 - 1, as above.
- AttributeText.TryParse: digits and white space beyond code point 0xA0, which Python's int also takes.
- TypedJson.DecodeInvertsEncode: datetimes are represented by their ISO text, with the library's reader as a parameter; sets, dictionary keys other than strings, integers and enum members, the normalisation of relativedelta fields, its weekday field and floating-point rounding of seconds are not part of the value trees.
- StatusTime.TotalTimeInStatus: totals as timedeltas only; the relativedelta total and the explanation text are left out.
- Statistics.GatherStatistics: the HTML of the statistics is left out.
- ProposalTable.Table.Accept: the pages and the GitHub call are left out, the latter as the parameter landed; the same for the other handlers.
- ProposalTable.Table.ExpireAndReconcile: a database error leaves the row as it was; an update that takes effect although an error is reported is not modelled.
- The creation of proposals before the insert: skips by eligibility, rate and route, and the message to the reviewer; the machine lets every insert be attempted.
- The notification time of a proposal, its snapshot reference and the deletion of a repository with all its rows.
- The one-off backfill of opt-outs, which writes what a sync writes.
- Queue membership: the JSON extraction from the snapshot; the result is a parameter.
- Normalization of logins beyond ASCII letters and the white space up to code point 0xA0.
- The weight of an assigned pull request in the allocation, the texts shown for candidates, and the actual distribution of the random choice.
- The order of the engine's candidate lists and its weighted draw, which suggestions do not read. The parsing of queue ages and the comparison of titles behind the sort key are parameters of a request.
- How the loads of a request come about, among them the share of pending proposals, and how opt-outs, cooldowns and label exclusions are collected per pull request; both are parameters of a request. The model holds the exclusions of every pull request, of which only those of the pool are read.
- Titles, queue ages and scarcity counts shown with a suggestion, the text of the skip summary, and the co-assignees shown after a claim.
- Parsing of event logs, dashboards other than the queue and the merge conflicts, and the time of the last status update.
- HTML rendering, Django models and migrations, sessions and sign-in, message handlers, webhooks, task scheduling, and file handling.
