/** The status classifier: a pull request's label kinds, CI state and draft flag are
    mapped to one status. The labels arrive as a list, in the order they were added and
    with repetitions; the theorems below say that only the set of kinds matters. */
module Classification {
  import opened Options

  datatype CIStatus = Pass | Fail | FailInessential | Running | Missing

  datatype LabelKind =
    | WIP | AwaitingCI | Review | HelpWanted | Author | MergeConflict
    | Blocked | Decision | Delegated | Bors | Other

  datatype PRStatus =
    | NotFromFork | NotReady | StatusBlocked | AwaitingReview | StatusHelpWanted
    | AwaitingAuthor | AwaitingDecision | StatusMergeConflict | StatusDelegated
    | AwaitingBors | Closed | Contradictory

  datatype PRState = PRState(labels: seq<LabelKind>, ci: CIStatus, draft: bool, fromFork: bool)

  // Points in time are microseconds since the Unix epoch, in UTC.
  type Instant = int

  // Midnight UTC on 9 July 2024, when the awaiting-review label was retired.
  const REVIEW_LABEL_RETIRED: Instant := 1_720_483_200_000_000

  const NO_REQUIRED_FAILURES := "no_required_failures"

  // The label names that matter for the classification; every other name is irrelevant.
  const LABEL_RULES: map<string, LabelKind> := map[
    "WIP" := WIP,
    "awaiting-CI" := AwaitingCI,
    "awaiting-review-DONT-USE" := Review,
    "awaiting-author" := Author,
    "blocked-by-other-PR" := Blocked,
    "blocked-by-batt-PR" := Blocked,
    "blocked-by-core-PR" := Blocked,
    "blocked-by-qq-PR" := Blocked,
    "blocked-by-core-release" := Blocked,
    "merge-conflict" := MergeConflict,
    "awaiting-zulip" := Decision,
    "delegated" := Delegated,
    "ready-to-merge" := Bors,
    "auto-merge-after-CI" := Bors,
    "help-wanted" := HelpWanted,
    "please-adopt" := HelpWanted
  ]

  /** The kinds of the relevant names in a list of label names, in order. */
  function KindsOf(names: seq<string>): (kinds: seq<LabelKind>)
  {
    if names == [] then []
    else if names[0] in LABEL_RULES then [LABEL_RULES[names[0]]] + KindsOf(names[1..])
    else KindsOf(names[1..])
  }

  predicate CiBlocksReadiness(ci: CIStatus, gating: Option<string>)
  {
    if gating == Some(NO_REQUIRED_FAILURES) then ci == Fail
    else ci in [Fail, FailInessential, Missing, Running]
  }

  // The lookup table has no entry for Other, so a caller must not ask for it.
  function StatusOfKind(kind: LabelKind): PRStatus
    requires kind != Other
  {
    match kind
    case WIP => NotReady
    case AwaitingCI => NotReady
    case Review => AwaitingReview
    case HelpWanted => StatusHelpWanted
    case Author => AwaitingAuthor
    case Blocked => StatusBlocked
    case MergeConflict => StatusMergeConflict
    case Decision => AwaitingDecision
    case Delegated => StatusDelegated
    case Bors => AwaitingBors
  }

  function Priority(kind: LabelKind): int
    requires kind != Other
  {
    match kind
    case Blocked => 11
    case HelpWanted => 10
    case WIP => 9
    case AwaitingCI => 9
    case Decision => 8
    case MergeConflict => 7
    case Bors => 6
    case Author => 5
    case Review => 5
    case Delegated => 4
  }

  function WithoutOther(labels: seq<LabelKind>): (kept: seq<LabelKind>)
    ensures forall k :: k in kept <==> k in labels && k != Other
  {
    if labels == [] then []
    else if labels[0] != Other then [labels[0]] + WithoutOther(labels[1..])
    else WithoutOther(labels[1..])
  }

  // A stable sort by descending priority: equal keys keep their order.
  function InsertByPriority(kind: LabelKind, sorted: seq<LabelKind>): (r: seq<LabelKind>)
    requires kind != Other && Other !in sorted
    ensures forall k :: k in r <==> k == kind || k in sorted
    ensures multiset(r) == multiset(sorted) + multiset{kind}
  {
    if sorted == [] || Priority(kind) >= Priority(sorted[0]) then [kind] + sorted
    else
      assert sorted == [sorted[0]] + sorted[1..];
      [sorted[0]] + InsertByPriority(kind, sorted[1..])
  }

  function SortByPriority(labels: seq<LabelKind>): (r: seq<LabelKind>)
    requires Other !in labels
    ensures forall k :: k in r <==> k in labels
    ensures multiset(r) == multiset(labels)
  {
    if labels == [] then []
    else
      assert labels == [labels[0]] + labels[1..];
      InsertByPriority(labels[0], SortByPriority(labels[1..]))
  }

  predicate CountsAsWip(state: PRState, gating: Option<string>)
  {
    state.draft || CiBlocksReadiness(state.ci, gating) || AwaitingCI in state.labels
  }

  /** The kinds a state is classified by: its own, and WIP when it is not ready. */
  function EffectiveLabels(state: PRState, gating: Option<string>): seq<LabelKind>
  {
    WithoutOther(state.labels) + if CountsAsWip(state, gating) then [WIP] else []
  }

  function DefaultStatus(date: Instant): PRStatus
  {
    if date > REVIEW_LABEL_RETIRED then AwaitingReview else AwaitingAuthor
  }

  predicate LabelsClash(labels: seq<LabelKind>)
  {
    || (Decision in labels && Bors in labels)
    || (WIP in labels && (Review in labels || Bors in labels))
    || (Author in labels && Review in labels)
    || (Bors in labels && Blocked in labels)
    || (Bors in labels && HelpWanted in labels)
    || (Bors in labels && Author in labels)
  }

  /** The classifier, as the program computes it from the list. */
  function DeterminePRStatus(date: Instant, state: PRState, gating: Option<string>): PRStatus
  {
    if !state.fromFork then NotFromFork
    else
      var labels := EffectiveLabels(state, gating);
      if labels == [] then DefaultStatus(date)
      else if |labels| == 1 then StatusOfKind(labels[0])
      else if LabelsClash(labels) then Contradictory
      else
        var sorted := SortByPriority(labels);
        assert labels[0] in sorted;
        StatusOfKind(sorted[0])
  }

  // ---- The reference: one cascade over the set of kinds -------------------------------

  /** Bors excludes everything that holds a merge up; Review excludes unfinished work. */
  predicate KindsClash(kinds: set<LabelKind>)
  {
    || (Bors in kinds && kinds * {Decision, WIP, Blocked, HelpWanted, Author} != {})
    || (Review in kinds && kinds * {WIP, Author} != {})
  }

  /** Blocked beats help wanted, which beats work in progress, and so on down. */
  function StatusOfKinds(date: Instant, kinds: set<LabelKind>): PRStatus
  {
    if kinds == {} then DefaultStatus(date)
    else if KindsClash(kinds) then Contradictory
    else if Blocked in kinds then StatusBlocked
    else if HelpWanted in kinds then StatusHelpWanted
    else if WIP in kinds || AwaitingCI in kinds then NotReady
    else if Decision in kinds then AwaitingDecision
    else if MergeConflict in kinds then StatusMergeConflict
    else if Bors in kinds then AwaitingBors
    else if Author in kinds then AwaitingAuthor
    else if Review in kinds then AwaitingReview
    else StatusDelegated
  }

  function KindSet(labels: seq<LabelKind>): (kinds: set<LabelKind>)
    ensures forall k :: k in kinds <==> k in labels && k != Other
  {
    set k | k in labels && k != Other
  }

  function EffectiveKinds(state: PRState, gating: Option<string>): set<LabelKind>
  {
    KindSet(state.labels) + if CountsAsWip(state, gating) then {WIP} else {}
  }

  // ---- The list computation meets the reference ----------------------------------------

  lemma {:induction false} SortedHeadIsHighest(labels: seq<LabelKind>)
    requires Other !in labels && labels != []
    ensures var s := SortByPriority(labels);
            s != [] && s[0] in labels && forall k :: k in labels ==> Priority(k) <= Priority(s[0])
  {
    var rest := labels[1..];
    assert labels == [labels[0]] + rest;
    if rest != [] {
      SortedHeadIsHighest(rest);
    }
  }

  lemma EffectiveLabelsAsSet(state: PRState, gating: Option<string>)
    ensures var labels := EffectiveLabels(state, gating);
            Other !in labels
            && (forall k :: k in labels <==> k in EffectiveKinds(state, gating))
            && (labels == [] <==> EffectiveKinds(state, gating) == {})
  {
    var labels := EffectiveLabels(state, gating);
    if labels != [] { assert labels[0] in EffectiveKinds(state, gating); }
  }

  lemma HighestKindDecides(date: Instant, kinds: set<LabelKind>, top: LabelKind)
    requires Other !in kinds && top in kinds && !KindsClash(kinds)
    requires forall k :: k in kinds ==> Priority(k) <= Priority(top)
    ensures StatusOfKinds(date, kinds) == StatusOfKind(top)
  {
    assert Author in kinds ==> Author in kinds * {WIP, Author};
  }

  /** The classifier equals the cascade over the set of effective kinds, for a label list
      of any length, order and multiplicity. */
  lemma ClassifierMeetsCascade(date: Instant, state: PRState, gating: Option<string>)
    ensures DeterminePRStatus(date, state, gating) ==
            if state.fromFork then StatusOfKinds(date, EffectiveKinds(state, gating)) else NotFromFork
  {
    var labels := EffectiveLabels(state, gating);
    var kinds := EffectiveKinds(state, gating);
    EffectiveLabelsAsSet(state, gating);
    ClashAgrees(labels, kinds);
    if |labels| == 1 {
      assert kinds == {labels[0]};
      HighestKindDecides(date, kinds, labels[0]);
    } else if labels != [] && !KindsClash(kinds) {
      SortedHeadIsHighest(labels);
      HighestKindDecides(date, kinds, SortByPriority(labels)[0]);
    }
  }

  lemma ClashByMembers(kinds: set<LabelKind>)
    ensures KindsClash(kinds) <==> (
              || (Bors in kinds
                  && (Decision in kinds || WIP in kinds || Blocked in kinds || HelpWanted in kinds || Author in kinds))
              || (Review in kinds && (WIP in kinds || Author in kinds)))
  {
    var stops := {Decision, WIP, Blocked, HelpWanted, Author};
    var unfinished := {WIP, Author};
    assert forall k :: k in kinds * stops <==> k in kinds && k in stops;
    assert forall k :: k in kinds * unfinished <==> k in kinds && k in unfinished;
  }

  lemma ClashAgrees(labels: seq<LabelKind>, kinds: set<LabelKind>)
    requires forall k :: k in labels <==> k in kinds
    ensures LabelsClash(labels) <==> KindsClash(kinds)
  {
    ClashByMembers(kinds);
  }

  /** Order and repetition never matter: two states of one pull request whose label lists
      hold the same kinds, Other aside, have one status. */
  lemma OnlyTheKindSetMatters(date: Instant, one: PRState, two: PRState, gating: Option<string>)
    requires KindSet(one.labels) == KindSet(two.labels)
    requires one.ci == two.ci && one.draft == two.draft && one.fromFork == two.fromFork
    ensures DeterminePRStatus(date, one, gating) == DeterminePRStatus(date, two, gating)
  {
    ClassifierMeetsCascade(date, one, gating);
    ClassifierMeetsCascade(date, two, gating);
    assert AwaitingCI in one.labels <==> AwaitingCI in KindSet(one.labels);
    assert AwaitingCI in two.labels <==> AwaitingCI in KindSet(two.labels);
  }

  lemma SomeKindDecides(date: Instant, kinds: set<LabelKind>) returns (k: LabelKind)
    requires Other !in kinds && kinds != {} && !KindsClash(kinds)
    ensures k in kinds && StatusOfKind(k) == StatusOfKinds(date, kinds)
  {
    k :| k in kinds;
    if Blocked in kinds { k := Blocked; }
    else if HelpWanted in kinds { k := HelpWanted; }
    else if WIP in kinds { k := WIP; }
    else if AwaitingCI in kinds { k := AwaitingCI; }
    else if Decision in kinds { k := Decision; }
    else if MergeConflict in kinds { k := MergeConflict; }
    else if Bors in kinds { k := Bors; }
    else if Author in kinds { k := Author; }
    else if Review in kinds { k := Review; }
  }

  lemma CascadeAnswers(date: Instant, kinds: set<LabelKind>)
    requires Other !in kinds
    ensures var status := StatusOfKinds(date, kinds);
            && status != Closed && status != NotFromFork
            && (status == Contradictory <==> KindsClash(kinds))
            && (kinds != {} && status != Contradictory ==> exists k :: k in kinds && StatusOfKind(k) == status)
  {
    if kinds != {} && !KindsClash(kinds) {
      var k := SomeKindDecides(date, kinds);
      assert k in kinds;
    }
    hide KindsClash;
  }

  /** The answer is never Closed. For a fork with some effective kind it is Contradictory,
      exactly when two kinds clash, or else the status of one of those kinds. */
  lemma AnswerComesFromSomeKind(date: Instant, state: PRState, gating: Option<string>)
    ensures var status := DeterminePRStatus(date, state, gating);
            var kinds := EffectiveKinds(state, gating);
            && status != Closed
            && (status == NotFromFork <==> !state.fromFork)
            && (state.fromFork ==> (status == Contradictory <==> KindsClash(kinds)))
            && (state.fromFork && kinds != {} && status != Contradictory ==>
                  exists k :: k in kinds && StatusOfKind(k) == status)
  {
    EffectiveLabelsAsSet(state, gating);
    ClassifierMeetsCascade(date, state, gating);
    assert Other !in EffectiveKinds(state, gating);
    hide DeterminePRStatus, EffectiveKinds, StatusOfKinds, KindsClash, EffectiveLabels;
    CascadeAnswers(date, EffectiveKinds(state, gating));
  }

  // ---- Every status by its conditions -----------------------------------------------------------

  /** A draft, CI that blocks, or a label that says so. In the strict mode any CI status but a
      pass blocks, in the lenient one only a failure. */
  predicate IsUnready(state: PRState, gating: Option<string>)
  {
    || state.draft || AwaitingCI in state.labels || WIP in state.labels
    || (if gating == Some("no_required_failures") then state.ci == Fail else state.ci != Pass)
  }

  // Bors excludes everything that holds a merge up, review excludes unfinished work.
  predicate IsContradictory(state: PRState, gating: Option<string>)
  {
    || (Bors in state.labels && (IsUnready(state, gating) || Decision in state.labels || Blocked in state.labels
                                 || HelpWanted in state.labels || Author in state.labels))
    || (Review in state.labels && (IsUnready(state, gating) || Author in state.labels))
  }

  /** When a fork's pull request has each of the statuses. */
  lemma StatusExactly(date: Instant, state: PRState, gating: Option<string>)
    requires state.fromFork
    ensures var (l, status) := (state.labels, DeterminePRStatus(date, state, gating));
            var (clash, unready) := (IsContradictory(state, gating), IsUnready(state, gating));
            var held := clash || Blocked in l || HelpWanted in l || unready;
            var later := held || Decision in l || MergeConflict in l || Bors in l;
            var plain := !later && Author !in l && Review !in l && Delegated !in l;
            && (status == Contradictory <==> clash)
            && (status == StatusBlocked <==> !clash && Blocked in l)
            && (status == StatusHelpWanted <==> !clash && Blocked !in l && HelpWanted in l)
            && (status == NotReady <==> !clash && Blocked !in l && HelpWanted !in l && unready)
            && (status == AwaitingDecision <==> !held && Decision in l)
            && (status == StatusMergeConflict <==> !held && Decision !in l && MergeConflict in l)
            && (status == AwaitingBors <==> !held && Decision !in l && MergeConflict !in l && Bors in l)
            && (status == AwaitingAuthor <==>
                  (!later && Author in l) || (plain && date <= 1_720_483_200_000_000))
            && (status == AwaitingReview <==>
                  (!later && Author !in l && Review in l) || (plain && date > 1_720_483_200_000_000))
            && (status == StatusDelegated <==> !later && Author !in l && Review !in l && Delegated in l)
  {
    ClassifierMeetsCascade(date, state, gating);
    var kinds := EffectiveKinds(state, gating);
    KindsBySource(state, gating);
    hide DeterminePRStatus, EffectiveKinds;
    ClashByMembers(kinds);
    hide KindsClash;
  }

  lemma KindsBySource(state: PRState, gating: Option<string>)
    ensures var kinds := EffectiveKinds(state, gating);
            && Other !in kinds
            && (WIP in kinds <==> IsUnready(state, gating))
            && (forall k :: k != WIP && k != Other ==> (k in kinds <==> k in state.labels))
            && (kinds == {} <==> !IsUnready(state, gating) && forall k :: k != Other ==> k !in state.labels)
  {
    var kinds := EffectiveKinds(state, gating);
    if kinds != {} {
      var k :| k in kinds;
    }
  }

  // ---- Precedence ---------------------------------------------------------------------------

  lemma EffectiveMembers(state: PRState, gating: Option<string>, kind: LabelKind)
    requires kind != Other
    ensures kind in EffectiveKinds(state, gating)
      <==> kind in state.labels || (kind == WIP && CountsAsWip(state, gating))
  {
  }

  /** A merge conflict outranks waiting for the author, so a fork's pull request with a merge
      conflict is never awaiting its author. */
  lemma MergeConflictOutranksAuthor(date: Instant, state: PRState, gating: Option<string>)
    requires state.fromFork && MergeConflict in state.labels
    ensures DeterminePRStatus(date, state, gating) != AwaitingAuthor
  {
    EffectiveMembers(state, gating, MergeConflict);
    ClassifierMeetsCascade(date, state, gating);
    hide DeterminePRStatus, EffectiveKinds, StatusOfKinds;
    MergeConflictDecides(date, EffectiveKinds(state, gating));
  }

  lemma MergeConflictDecides(date: Instant, kinds: set<LabelKind>)
    requires MergeConflict in kinds
    ensures StatusOfKinds(date, kinds) != AwaitingAuthor
  {
    assert kinds != {};
    hide KindsClash;
  }

  /** A draft, or a pull request whose CI blocks it, is not ready exactly when no label says
      blocked, help wanted, sent to bors or awaiting review: the first two outrank it, the
      others contradict it. */
  lemma UnreadyIsNotReadyExactly(date: Instant, state: PRState, gating: Option<string>)
    requires state.fromFork && (state.draft || CiBlocksReadiness(state.ci, gating))
    ensures DeterminePRStatus(date, state, gating) == NotReady
      <==> Blocked !in state.labels && HelpWanted !in state.labels && Bors !in state.labels && Review !in state.labels
  {
    EffectiveMembers(state, gating, WIP);
    EffectiveMembers(state, gating, Blocked);
    EffectiveMembers(state, gating, HelpWanted);
    EffectiveMembers(state, gating, Bors);
    EffectiveMembers(state, gating, Review);
    ClassifierMeetsCascade(date, state, gating);
    ClashByMembers(EffectiveKinds(state, gating));
    hide DeterminePRStatus, EffectiveKinds, KindsClash;
  }

  lemma CascadeOfPairs(date: Instant)
    ensures StatusOfKinds(date, {Author, MergeConflict}) == StatusMergeConflict
    ensures StatusOfKinds(date, {Blocked, WIP}) == StatusBlocked
  {
    ClashByMembers({Author, MergeConflict});
    ClashByMembers({Blocked, WIP});
    hide KindsClash;
  }

  lemma KindsOfExamples()
    ensures EffectiveKinds(PRState([Author, MergeConflict], Pass, false, true), None) == {Author, MergeConflict}
    ensures EffectiveKinds(PRState([Blocked], Pass, true, true), None) == {Blocked, WIP}
  {
  }

  /** The two inputs that go against the comments: awaiting-author with a merge conflict, and
      a draft labelled as blocked. */
  lemma PrecedenceAgainstTheComments(date: Instant)
    ensures DeterminePRStatus(date, PRState([Author, MergeConflict], Pass, false, true), None) == StatusMergeConflict
    ensures DeterminePRStatus(date, PRState([Blocked], Pass, true, true), None) == StatusBlocked
  {
    KindsOfExamples();
    CascadeOfPairs(date);
    hide DeterminePRStatus, EffectiveKinds, StatusOfKinds;
    ClassifierMeetsCascade(date, PRState([Author, MergeConflict], Pass, false, true), None);
    ClassifierMeetsCascade(date, PRState([Blocked], Pass, true, true), None);
  }

  lemma ClashIsMonotone(fewer: set<LabelKind>, all: set<LabelKind>)
    requires fewer <= all && KindsClash(fewer)
    ensures KindsClash(all)
  {
    assert fewer * {Decision, WIP, Blocked, HelpWanted, Author} <= all * {Decision, WIP, Blocked, HelpWanted, Author};
    assert fewer * {WIP, Author} <= all * {WIP, Author};
  }

  /** Adding labels never resolves a contradiction. */
  lemma ContradictionSurvivesMoreLabels(date: Instant, state: PRState, more: PRState, gating: Option<string>)
    requires forall k :: k in state.labels ==> k in more.labels
    requires state.ci == more.ci && state.draft == more.draft && state.fromFork == more.fromFork
    requires DeterminePRStatus(date, state, gating) == Contradictory
    ensures DeterminePRStatus(date, more, gating) == Contradictory
  {
    AnswerComesFromSomeKind(date, state, gating);
    AnswerComesFromSomeKind(date, more, gating);
    assert EffectiveKinds(state, gating) <= EffectiveKinds(more, gating);
    ClashIsMonotone(EffectiveKinds(state, gating), EffectiveKinds(more, gating));
  }
}
