/** The review queue, computed from label names, against the status classifier, which
    works on label kinds. */
module ReviewQueue {
  import opened Classification
  import opened Options
  import opened StateEvolution
  import opened Sets

  datatype Label = Label(name: string, color: string, url: string)

  datatype BasicPR = BasicPR(number: int, labels: seq<Label>)

  datatype AggregatePR = AggregatePR(isDraft: bool, ci: CIStatus, baseBranch: string, headRepo: string,
      labels: seq<Label>)

  const HOME_REPO := "leanprover-community"

  const QUEUE_BLOCKERS: set<string> := {
    "blocked-by-other-PR", "blocked-by-core-PR", "blocked-by-batt-PR", "blocked-by-qq-PR",
    "awaiting-CI", "awaiting-author", "awaiting-zulip", "please-adopt", "help-wanted", "WIP",
    "delegated", "auto-merge-after-CI", "ready-to-merge"
  }

  // ---- The status from the aggregate record ------------------------------------------------

  function Names(labels: seq<Label>): (names: seq<string>)
    ensures |names| == |labels| && forall i :: 0 <= i < |labels| ==> names[i] == labels[i].name
  {
    seq(|labels|, i requires 0 <= i < |labels| => labels[i].name)
  }

  function AggregateStatus(now: Instant, info: AggregatePR): PRStatus
  {
    DeterminePRStatus(now, PRState(KindsOf(Names(info.labels)), info.ci, info.isDraft, info.headRepo != HOME_REPO),
        None)
  }

  // ---- The queue from label filters ----------------------------------------------------------

  predicate HasLabel(pr: BasicPR, name: string)
  {
    name in Names(pr.labels)
  }

  predicate HasAnyLabel(pr: BasicPR, names: set<string>)
  {
    exists name :: name in names && HasLabel(pr, name)
  }

  function WithLabel(prs: seq<BasicPR>, name: string): (r: seq<BasicPR>)
    ensures forall pr :: pr in r <==> pr in prs && HasLabel(pr, name)
  {
    if prs == [] then [] else (if HasLabel(prs[0], name) then [prs[0]] else []) + WithLabel(prs[1..], name)
  }

  function WithoutLabel(prs: seq<BasicPR>, name: string): (r: seq<BasicPR>)
    ensures forall pr :: pr in r <==> pr in prs && !HasLabel(pr, name)
  {
    if prs == [] then [] else (if HasLabel(prs[0], name) then [] else [prs[0]]) + WithoutLabel(prs[1..], name)
  }

  function WithoutAnyLabel(prs: seq<BasicPR>, names: set<string>): (r: seq<BasicPR>)
    ensures forall pr :: pr in r <==> pr in prs && !HasAnyLabel(pr, names)
  {
    if prs == [] then [] else (if HasAnyLabel(prs[0], names) then [] else [prs[0]]) + WithoutAnyLabel(prs[1..], names)
  }

  function MasterWithCI(prs: seq<BasicPR>, base: map<int, string>, ci: map<int, CIStatus>): (r: seq<BasicPR>)
    requires forall pr :: pr in prs ==> pr.number in base && pr.number in ci
    ensures forall pr :: pr in r <==> pr in prs && base[pr.number] == "master" && ci[pr.number] == Pass
  {
    if prs == [] then []
    else
      (if base[prs[0].number] == "master" && ci[prs[0].number] == Pass then [prs[0]] else [])
      + MasterWithCI(prs[1..], base, ci)
  }

  function QueueOrConflict(nondraft: seq<BasicPR>, base: map<int, string>, ci: map<int, CIStatus>): seq<BasicPR>
    requires forall pr :: pr in nondraft ==> pr.number in base && pr.number in ci
  {
    WithoutAnyLabel(MasterWithCI(nondraft, base, ci), QUEUE_BLOCKERS)
  }

  function Queue(nondraft: seq<BasicPR>, base: map<int, string>, ci: map<int, CIStatus>): seq<BasicPR>
    requires forall pr :: pr in nondraft ==> pr.number in base && pr.number in ci
  {
    WithoutLabel(QueueOrConflict(nondraft, base, ci), "merge-conflict")
  }

  function NeedsMerge(nondraft: seq<BasicPR>, base: map<int, string>, ci: map<int, CIStatus>): seq<BasicPR>
    requires forall pr :: pr in nondraft ==> pr.number in base && pr.number in ci
  {
    WithLabel(QueueOrConflict(nondraft, base, ci), "merge-conflict")
  }

  // ---- When the two computations agree ----------------------------------------------------------

  /** Both records describe the same non-draft pull request. */
  ghost predicate Consistent(pr: BasicPR, info: AggregatePR, base: map<int, string>, ci: map<int, CIStatus>)
  {
    && !info.isDraft
    && pr.number in base && base[pr.number] == info.baseBranch
    && pr.number in ci && ci[pr.number] == info.ci
    && (forall name :: name in Names(pr.labels) <==> name in Names(info.labels))
  }

  /** Queued by its labels although its status is another one. */
  predicate QueuedWrongly(pr: BasicPR, info: AggregatePR)
  {
    && info.baseBranch == "master" && info.ci == Pass
    && !HasAnyLabel(pr, QUEUE_BLOCKERS) && !HasLabel(pr, "merge-conflict")
    && (info.headRepo == HOME_REPO || HasLabel(pr, "blocked-by-core-release"))
  }

  /** Awaiting review by its status although it is not queued: the only relevant labels are
      the retired review label and delegated, and delegated or another base keeps it off. */
  predicate MissedByQueue(pr: BasicPR, info: AggregatePR)
  {
    && info.headRepo != HOME_REPO && info.ci == Pass
    && !HasAnyLabel(pr, QUEUE_BLOCKERS - {"delegated"})
    && !HasLabel(pr, "merge-conflict") && !HasLabel(pr, "blocked-by-core-release")
    && (HasLabel(pr, "delegated") ==> HasLabel(pr, "awaiting-review-DONT-USE"))
    && (info.baseBranch != "master" || HasLabel(pr, "delegated"))
  }

  // Which kinds a list of names stands for, name by name.
  ghost predicate KindsByName(kinds: set<LabelKind>, names: seq<string>)
  {
    && (WIP in kinds <==> "WIP" in names)
    && (AwaitingCI in kinds <==> "awaiting-CI" in names)
    && (Review in kinds <==> "awaiting-review-DONT-USE" in names)
    && (Author in kinds <==> "awaiting-author" in names)
    && (Blocked in kinds <==> (
          "blocked-by-other-PR" in names || "blocked-by-batt-PR" in names || "blocked-by-core-PR" in names
          || "blocked-by-qq-PR" in names || "blocked-by-core-release" in names))
    && (MergeConflict in kinds <==> "merge-conflict" in names)
    && (Decision in kinds <==> "awaiting-zulip" in names)
    && (Delegated in kinds <==> "delegated" in names)
    && (Bors in kinds <==> "ready-to-merge" in names || "auto-merge-after-CI" in names)
    && (HelpWanted in kinds <==> "help-wanted" in names || "please-adopt" in names)
  }

  // The rule table, read backwards.
  function NamesOf(kind: LabelKind): set<string>
  {
    match kind
    case WIP => {"WIP"}
    case AwaitingCI => {"awaiting-CI"}
    case Review => {"awaiting-review-DONT-USE"}
    case Author => {"awaiting-author"}
    case Blocked => {"blocked-by-other-PR", "blocked-by-batt-PR", "blocked-by-core-PR", "blocked-by-qq-PR",
                     "blocked-by-core-release"}
    case MergeConflict => {"merge-conflict"}
    case Decision => {"awaiting-zulip"}
    case Delegated => {"delegated"}
    case Bors => {"ready-to-merge", "auto-merge-after-CI"}
    case HelpWanted => {"help-wanted", "please-adopt"}
    case Other => {}
  }

  lemma RulesReadBackwards(name: string, kind: LabelKind)
    ensures (name in LABEL_RULES && LABEL_RULES[name] == kind) <==> name in NamesOf(kind)
  {
  }

  lemma KindPresent(names: seq<string>, kind: LabelKind)
    requires kind != Other
    ensures kind in KindSet(KindsOf(names)) <==> exists n :: n in NamesOf(kind) && n in names
  {
    hide KindsOf, NamesOf;
    KindsOfMembers(names, kind);
    forall n ensures (n in LABEL_RULES && LABEL_RULES[n] == kind) <==> n in NamesOf(kind) {
      RulesReadBackwards(n, kind);
    }
  }

  lemma KindsOfByName(names: seq<string>)
    ensures KindsByName(KindSet(KindsOf(names)), names)
  {
    hide KindsOf, KindSet;
    KindPresent(names, WIP);
    KindPresent(names, AwaitingCI);
    KindPresent(names, Review);
    KindPresent(names, Author);
    KindPresent(names, Blocked);
    KindPresent(names, MergeConflict);
    KindPresent(names, Decision);
    KindPresent(names, Delegated);
    KindPresent(names, Bors);
    KindPresent(names, HelpWanted);
  }

  lemma BlockersByName(pr: BasicPR)
    ensures var names := Names(pr.labels);
            HasAnyLabel(pr, QUEUE_BLOCKERS) <==> (
              "blocked-by-other-PR" in names || "blocked-by-core-PR" in names || "blocked-by-batt-PR" in names
              || "blocked-by-qq-PR" in names || "awaiting-CI" in names || "awaiting-author" in names
              || "awaiting-zulip" in names || "please-adopt" in names || "help-wanted" in names || "WIP" in names
              || "delegated" in names || "auto-merge-after-CI" in names || "ready-to-merge" in names)
  {
    var names := Names(pr.labels);
    assert HasAnyLabel(pr, QUEUE_BLOCKERS) <==> exists name :: name in QUEUE_BLOCKERS && name in names;
  }

  lemma OtherBlockersByName(pr: BasicPR)
    ensures var names := Names(pr.labels);
            HasAnyLabel(pr, QUEUE_BLOCKERS - {"delegated"}) <==> (
              "blocked-by-other-PR" in names || "blocked-by-core-PR" in names || "blocked-by-batt-PR" in names
              || "blocked-by-qq-PR" in names || "awaiting-CI" in names || "awaiting-author" in names
              || "awaiting-zulip" in names || "please-adopt" in names || "help-wanted" in names || "WIP" in names
              || "auto-merge-after-CI" in names || "ready-to-merge" in names)
  {
    var names, rest := Names(pr.labels), QUEUE_BLOCKERS - {"delegated"};
    assert HasAnyLabel(pr, rest) <==> exists name :: name in rest && name in names;
  }

  lemma AwaitingReviewKinds(date: Instant, kinds: set<LabelKind>)
    requires date > REVIEW_LABEL_RETIRED && Other !in kinds
    ensures StatusOfKinds(date, kinds) == AwaitingReview <==> (
              && Blocked !in kinds && HelpWanted !in kinds && WIP !in kinds && AwaitingCI !in kinds
              && Decision !in kinds && MergeConflict !in kinds && Bors !in kinds && Author !in kinds
              && (Delegated in kinds ==> Review in kinds))
  {
    ClashByMembers(kinds);
    if kinds != {} {
      var k := Pick(kinds);
      assert k.Review? || k.Delegated? || k.Blocked? || k.HelpWanted? || k.WIP? || k.AwaitingCI?
          || k.Decision? || k.MergeConflict? || k.Bors? || k.Author?;
    }
  }

  lemma MergeConflictKinds(date: Instant, kinds: set<LabelKind>)
    requires Other !in kinds && MergeConflict in kinds && Bors !in kinds
    requires WIP !in kinds && AwaitingCI !in kinds && Author !in kinds && Decision !in kinds && HelpWanted !in kinds
    ensures StatusOfKinds(date, kinds) == if Blocked in kinds then StatusBlocked else StatusMergeConflict
  {
    ClashByMembers(kinds);
  }

  lemma InQueue(pr: BasicPR, nondraft: seq<BasicPR>, base: map<int, string>, ci: map<int, CIStatus>)
    requires pr in nondraft && forall p :: p in nondraft ==> p.number in base && p.number in ci
    ensures pr in QueueOrConflict(nondraft, base, ci) <==>
            base[pr.number] == "master" && ci[pr.number] == Pass && !HasAnyLabel(pr, QUEUE_BLOCKERS)
    ensures pr in Queue(nondraft, base, ci) <==>
            pr in QueueOrConflict(nondraft, base, ci) && !HasLabel(pr, "merge-conflict")
    ensures pr in NeedsMerge(nondraft, base, ci) <==>
            pr in QueueOrConflict(nondraft, base, ci) && HasLabel(pr, "merge-conflict")
  {
    hide HasAnyLabel, HasLabel;
  }

  // The kinds a non-draft record is classified by, name by name.
  lemma KindsOfRecord(date: Instant, info: AggregatePR) returns (kinds: set<LabelKind>)
    requires !info.isDraft
    ensures Other !in kinds
    ensures AggregateStatus(date, info) ==
      if info.headRepo != HOME_REPO then StatusOfKinds(date, kinds) else NotFromFork
    ensures info.ci == Pass && "awaiting-CI" !in Names(info.labels) ==> KindsByName(kinds, Names(info.labels))
    ensures info.ci != Pass || "awaiting-CI" in Names(info.labels) ==> WIP in kinds
  {
    var names := Names(info.labels);
    var state := PRState(KindsOf(names), info.ci, info.isDraft, info.headRepo != HOME_REPO);
    kinds := EffectiveKinds(state, None);
    ClassifierMeetsCascade(date, state, None);
    KindsOfByName(names);
    hide DeterminePRStatus, StatusOfKinds, KindsOf, Names;
    assert AwaitingCI in KindsOf(names) <==> AwaitingCI in KindSet(KindsOf(names));
  }

  /** Exactly when the two computations disagree about a non-draft pull request, and which
      way: the queue by label names, and the status by label kinds. */
  lemma QueueAgainstStatus(date: Instant, pr: BasicPR, info: AggregatePR, nondraft: seq<BasicPR>,
                           base: map<int, string>, ci: map<int, CIStatus>)
    requires date > REVIEW_LABEL_RETIRED && pr in nondraft && Consistent(pr, info, base, ci)
    requires forall p :: p in nondraft ==> p.number in base && p.number in ci
    ensures var queued := pr in Queue(nondraft, base, ci);
            var awaiting := AggregateStatus(date, info) == AwaitingReview;
            (queued && !awaiting <==> QueuedWrongly(pr, info)) && (awaiting && !queued <==> MissedByQueue(pr, info))
  {
    var kinds := KindsOfRecord(date, info);
    AwaitingReviewKinds(date, kinds);
    BlockersByName(pr);
    OtherBlockersByName(pr);
    InQueue(pr, nondraft, base, ci);
    hide AggregateStatus, StatusOfKinds, Queue, HasAnyLabel;
  }

  /** Two of the inputs behind this, with all labels in order and CI passing. A pull request of
      the home repository without labels is queued without awaiting review. */
  lemma QueuedFromHome(date: Instant)
    ensures Queue([BasicPR(1, [])], map[1 := "master"], map[1 := Pass]) == [BasicPR(1, [])]
    ensures AggregateStatus(date, AggregatePR(false, Pass, "master", HOME_REPO, [])) == NotFromFork
  {
    var home := BasicPR(1, []);
    QueueIsOneFilter([home], map[1 := "master"], map[1 := Pass]);
    BlockersByName(home);
    assert QueueAtOnce([home][1..], map[1 := "master"], map[1 := Pass]) == [];
    hide HasAnyLabel, Queue;
  }

  /** And a fork's that is delegated and carries the retired review label awaits review without
      being queued. */
  lemma DelegatedIsMissed(date: Instant, labels: seq<Label>)
    requires date > REVIEW_LABEL_RETIRED && Names(labels) == ["awaiting-review-DONT-USE", "delegated"]
    ensures Queue([BasicPR(1, labels)], map[1 := "master"], map[1 := Pass]) == []
    ensures AggregateStatus(date, AggregatePR(false, Pass, "master", "ann", labels)) == AwaitingReview
  {
    var base, ci := map[1 := "master"], map[1 := Pass];
    var fork, info := BasicPR(1, labels), AggregatePR(false, Pass, "master", "ann", labels);
    MissedByLabels(fork, info);
    hide AggregateStatus, Queue, MissedByQueue, QueuedWrongly, HasAnyLabel;
    QueueAgainstStatus(date, fork, info, [fork], base, ci);
    NothingQueued(Queue([fork], base, ci), [fork], base, ci);
  }

  lemma MissedByLabels(pr: BasicPR, info: AggregatePR)
    requires Names(pr.labels) == ["awaiting-review-DONT-USE", "delegated"]
    requires info.headRepo != HOME_REPO && info.ci == Pass
    ensures MissedByQueue(pr, info)
  {
    var names := Names(pr.labels);
    assert names[0] == "awaiting-review-DONT-USE" && names[1] == "delegated";
    assert "delegated" in names && "awaiting-review-DONT-USE" in names;
    OtherBlockersByName(pr);
    hide HasAnyLabel, Names;
  }

  lemma NothingQueued(queued: seq<BasicPR>, prs: seq<BasicPR>, base: map<int, string>, ci: map<int, CIStatus>)
    requires forall p :: p in prs ==> p.number in base && p.number in ci
    requires queued == Queue(prs, base, ci) && forall p :: p in prs ==> p !in queued
    ensures queued == []
  {
    hide Queue, HasAnyLabel, HasLabel;
    if queued != [] {
      assert queued[0] in queued;
      QueueIsOneFilter(prs, base, ci);
      QueuedAreListed(prs, base, ci);
    }
  }

  lemma {:induction false} QueuedAreListed(prs: seq<BasicPR>, base: map<int, string>, ci: map<int, CIStatus>)
    requires forall p :: p in prs ==> p.number in base && p.number in ci
    ensures forall p :: p in QueueAtOnce(prs, base, ci) ==> p in prs
  {
    hide Queued;
    if prs == [] {
    } else {
      QueuedAreListed(prs[1..], base, ci);
    }
  }

  /** The promised agreement: for a fork's pull request against master, without the retired
      review label and the core-release label, the two computations agree. */
  lemma QueueAgreesWithStatus(date: Instant, pr: BasicPR, info: AggregatePR, nondraft: seq<BasicPR>,
                              base: map<int, string>, ci: map<int, CIStatus>)
    requires date > REVIEW_LABEL_RETIRED && pr in nondraft && Consistent(pr, info, base, ci)
    requires forall p :: p in nondraft ==> p.number in base && p.number in ci
    requires info.headRepo != HOME_REPO && info.baseBranch == "master"
    requires !HasLabel(pr, "awaiting-review-DONT-USE") && !HasLabel(pr, "blocked-by-core-release")
    ensures pr in Queue(nondraft, base, ci) <==> AggregateStatus(date, info) == AwaitingReview
  {
    hide AggregateStatus, Queue;
    QueueAgainstStatus(date, pr, info, nondraft, base, ci);
  }

  /** What needs a merge is classified as a merge conflict, unless it waits for a core release. */
  lemma NeedsMergeAgainstStatus(date: Instant, pr: BasicPR, info: AggregatePR, nondraft: seq<BasicPR>,
                                base: map<int, string>, ci: map<int, CIStatus>)
    requires pr in nondraft && Consistent(pr, info, base, ci) && info.headRepo != HOME_REPO
    requires forall p :: p in nondraft ==> p.number in base && p.number in ci
    requires pr in NeedsMerge(nondraft, base, ci)
    ensures AggregateStatus(date, info) ==
            if HasLabel(pr, "blocked-by-core-release") then StatusBlocked else StatusMergeConflict
  {
    var kinds := KindsOfRecord(date, info);
    BlockersByName(pr);
    InQueue(pr, nondraft, base, ci);
    hide AggregateStatus, StatusOfKinds, NeedsMerge, HasAnyLabel;
    MergeConflictKinds(date, kinds);
  }

  // ---- The cross-check of the two lists ------------------------------------------------------------

  function Numbers(prs: seq<BasicPR>): (numbers: seq<int>)
    ensures |numbers| == |prs| && forall i :: 0 <= i < |prs| ==> numbers[i] == prs[i].number
  {
    seq(|prs|, i requires 0 <= i < |prs| => prs[i].number)
  }

  // The numbers with a given status, in the order of the ready list.
  function NumbersIn(numbers: seq<int>, statuses: map<int, PRStatus>, status: PRStatus): (r: seq<int>)
    requires forall i :: 0 <= i < |numbers| ==> numbers[i] in statuses
    ensures forall n :: n in r <==> n in numbers && n in statuses && statuses[n] == status
  {
    if numbers == [] then []
    else (if statuses[numbers[0]] == status then [numbers[0]] else []) + NumbersIn(numbers[1..], statuses, status)
  }

  predicate Queued(pr: BasicPR, base: map<int, string>, ci: map<int, CIStatus>)
    requires pr.number in base && pr.number in ci
  {
    base[pr.number] == "master" && ci[pr.number] == Pass && !HasAnyLabel(pr, QUEUE_BLOCKERS)
    && !HasLabel(pr, "merge-conflict")
  }

  function QueueAtOnce(prs: seq<BasicPR>, base: map<int, string>, ci: map<int, CIStatus>): seq<BasicPR>
    requires forall p :: p in prs ==> p.number in base && p.number in ci
  {
    if prs == [] then []
    else (if Queued(prs[0], base, ci) then [prs[0]] else []) + QueueAtOnce(prs[1..], base, ci)
  }

  lemma {:induction false} QueueIsOneFilter(prs: seq<BasicPR>, base: map<int, string>, ci: map<int, CIStatus>)
    requires forall p :: p in prs ==> p.number in base && p.number in ci
    ensures Queue(prs, base, ci) == QueueAtOnce(prs, base, ci)
  {
    if prs == [] {
      MasterHead(prs, base, ci);
      FilterNil();
    } else {
      hide Queue, Queued;
      QueueIsOneFilter(prs[1..], base, ci);
      QueueHead(prs, base, ci);
    }
  }

  lemma QueueHead(prs: seq<BasicPR>, base: map<int, string>, ci: map<int, CIStatus>)
    requires prs != [] && forall p :: p in prs ==> p.number in base && p.number in ci
    ensures Queue(prs, base, ci) == (if Queued(prs[0], base, ci) then [prs[0]] else []) + Queue(prs[1..], base, ci)
  {
    hide HasAnyLabel, HasLabel, WithoutAnyLabel, WithoutLabel, MasterWithCI;
    MasterHead(prs, base, ci);
    var master := MasterWithCI(prs[1..], base, ci);
    FilterHead(prs[0], master, WithoutAnyLabel(master, QUEUE_BLOCKERS));
  }

  lemma MasterHead(prs: seq<BasicPR>, base: map<int, string>, ci: map<int, CIStatus>)
    requires forall p :: p in prs ==> p.number in base && p.number in ci
    ensures MasterWithCI(prs, base, ci) ==
            if prs == [] then []
            else if base[prs[0].number] == "master" && ci[prs[0].number] == Pass
            then [prs[0]] + MasterWithCI(prs[1..], base, ci)
            else MasterWithCI(prs[1..], base, ci)
  {
  }

  lemma FilterNil()
    ensures WithoutAnyLabel([], QUEUE_BLOCKERS) == [] && WithoutLabel([], "merge-conflict") == []
  {
  }

  lemma FilterHead(pr: BasicPR, master: seq<BasicPR>, unblocked: seq<BasicPR>)
    requires unblocked == WithoutAnyLabel(master, QUEUE_BLOCKERS)
    ensures WithoutAnyLabel([pr] + master, QUEUE_BLOCKERS) ==
            if HasAnyLabel(pr, QUEUE_BLOCKERS) then unblocked else [pr] + unblocked
    ensures WithoutLabel([pr] + unblocked, "merge-conflict") ==
            (if HasLabel(pr, "merge-conflict") then [] else [pr]) + WithoutLabel(unblocked, "merge-conflict")
  {
    hide HasAnyLabel, HasLabel;
    assert ([pr] + master)[1..] == master && ([pr] + unblocked)[1..] == unblocked;
  }

  lemma {:induction false} FiltersAgree(prs: seq<BasicPR>, base: map<int, string>, ci: map<int, CIStatus>,
                                        statuses: map<int, PRStatus>)
    requires forall p :: p in prs ==> p.number in base && p.number in ci && p.number in statuses
    requires forall p :: p in prs ==> (Queued(p, base, ci) <==> statuses[p.number] == AwaitingReview)
    ensures NumbersIn(Numbers(prs), statuses, AwaitingReview) == Numbers(QueueAtOnce(prs, base, ci))
  {
    if prs == [] {
    } else {
      var rest := prs[1..];
      assert prs == [prs[0]] + rest && prs[0] in prs;
      FiltersAgree(rest, base, ci, statuses);
      hide Queued, Numbers, NumbersIn;
      NumbersHead(prs[0], rest);
      NumbersHead(prs[0], QueueAtOnce(rest, base, ci));
      NumbersInHead(prs[0].number, Numbers(rest), statuses, AwaitingReview);
      assert QueueAtOnce(prs, base, ci)
          == if Queued(prs[0], base, ci) then [prs[0]] + QueueAtOnce(rest, base, ci) else QueueAtOnce(rest, base, ci);
      hide QueueAtOnce;
    }
  }

  lemma NumbersHead(first: BasicPR, rest: seq<BasicPR>)
    ensures Numbers([first] + rest) == [first.number] + Numbers(rest)
  {
  }

  lemma NumbersInHead(first: int, rest: seq<int>, statuses: map<int, PRStatus>, status: PRStatus)
    requires first in statuses && forall i :: 0 <= i < |rest| ==> rest[i] in statuses
    ensures NumbersIn([first] + rest, statuses, status)
         == if statuses[first] == status then [first] + NumbersIn(rest, statuses, status)
            else NumbersIn(rest, statuses, status)
  {
    assert ([first] + rest)[1..] == rest;
  }

  predicate DistinctNumbers(prs: seq<BasicPR>)
  {
    forall i, j :: 0 <= i < j < |prs| ==> prs[i].number != prs[j].number
  }

  /** The run-time comparison of the two lists succeeds exactly when no pull request is
      queued wrongly or missed. */
  lemma CrossCheckSucceedsExactly(date: Instant, ready: seq<BasicPR>, infos: map<int, AggregatePR>,
                                  base: map<int, string>, ci: map<int, CIStatus>, statuses: map<int, PRStatus>)
    requires date > REVIEW_LABEL_RETIRED && DistinctNumbers(ready)
    requires forall p :: p in ready ==> p.number in base && p.number in ci && p.number in infos && p.number in statuses
    requires forall p :: p in ready ==> Consistent(p, infos[p.number], base, ci)
    requires forall p :: p in ready ==> statuses[p.number] == AggregateStatus(date, infos[p.number])
    ensures NumbersIn(Numbers(ready), statuses, AwaitingReview) == Numbers(Queue(ready, base, ci)) <==>
            forall p :: p in ready ==> !QueuedWrongly(p, infos[p.number]) && !MissedByQueue(p, infos[p.number])
  {
    hide AggregateStatus, QueuedWrongly, MissedByQueue, Queued;
    var awaiting, queue := NumbersIn(Numbers(ready), statuses, AwaitingReview), Queue(ready, base, ci);
    forall p | p in ready
      ensures (p in queue && statuses[p.number] != AwaitingReview <==> QueuedWrongly(p, infos[p.number]))
           && (p !in queue && statuses[p.number] == AwaitingReview <==> MissedByQueue(p, infos[p.number]))
           && (p in queue <==> p.number in Numbers(queue))
           && (p in queue <==> Queued(p, base, ci))
           && p.number in Numbers(ready)
    {
      QueueAgainstStatus(date, p, infos[p.number], ready, base, ci);
      NumberedOnce(ready, queue, p);
      QueueMembership(ready, base, ci, p);
    }
    QueueIsOneFilter(ready, base, ci);
    if forall p :: p in ready ==> !QueuedWrongly(p, infos[p.number]) && !MissedByQueue(p, infos[p.number]) {
      FiltersAgree(ready, base, ci, statuses);
    }
  }

  lemma NumberedOnce(ready: seq<BasicPR>, some: seq<BasicPR>, p: BasicPR)
    requires DistinctNumbers(ready) && p in ready && forall q :: q in some ==> q in ready
    ensures p in some <==> p.number in Numbers(some)
    ensures p.number in Numbers(ready)
  {
    var k :| 0 <= k < |ready| && ready[k] == p;
    assert Numbers(ready)[k] == p.number;
    if p in some {
      var i :| 0 <= i < |some| && some[i] == p;
      assert Numbers(some)[i] == p.number;
    }
    if p.number in Numbers(some) {
      var i :| 0 <= i < |some| && Numbers(some)[i] == p.number;
      assert some[i] in ready;
      var j :| 0 <= j < |ready| && ready[j] == some[i];
      assert j == k;
    }
  }

  lemma QueueMembership(ready: seq<BasicPR>, base: map<int, string>, ci: map<int, CIStatus>, p: BasicPR)
    requires p in ready && forall q :: q in ready ==> q.number in base && q.number in ci
    ensures p in Queue(ready, base, ci) <==> Queued(p, base, ci)
    ensures forall q :: q in Queue(ready, base, ci) ==> q in ready
  {
    hide HasAnyLabel, HasLabel;
  }
}
