/** What a request for suggestions answers, in the terms of what it reads: which pull
    requests are offered, in which order, with which status, and why the others are not. */
module SuggestionAnswers {
  import opened Options
  import opened Logins
  import opened Sequences
  import opened Sets
  import opened CandidateEngine
  import opened CandidateRules
  import opened SuggestionWalk
  import opened SuggestionRanking
  import opened SuggestionRequest

  // ---- What is offered -----------------------------------------------------------------------------------

  /** No rule of the pool: nobody active is assigned, no label is forbidden, no proposal pends. */
  ghost predicate IsFreeToOffer(inputs: Inputs, number: int)
    requires number in inputs.entries
  {
    var entry := inputs.entries[number];
    && (forall k, r :: 0 <= k < |entry.assignees| && entry.assignees[k] != "" && 0 <= r < |inputs.reviewers|
                       && inputs.reviewers[r].autoAssign && !inputs.reviewers[r].temporaryBreak ==>
                         Normalize(entry.assignees[k]) != Normalize(inputs.reviewers[r].login))
    && (forall k :: 0 <= k < |entry.labels| && entry.labels[k] != "" ==>
          Normalize(entry.labels[k]) !in inputs.forbidden)
    && number !in inputs.withProposal
  }

  /** No rule about the requester, who asks with some preferred labels: not assigned already,
      allowed and matching, outdone by nobody, and without an opt-out, a cooldown or an excluded
      label, on the entry or by now. */
  ghost predicate IsOpenTo(inputs: Inputs, i: nat, preferred: set<string>, number: int)
    requires i < |inputs.reviewers| && number in inputs.entries
  {
    var (entry, reviewer) := (inputs.entries[number], inputs.reviewers[i]);
    && (forall k :: 0 <= k < |entry.assignees| && entry.assignees[k] != "" ==>
          Normalize(entry.assignees[k]) != Normalize(reviewer.login))
    && MayTake(reviewer.(preferred := preferred), entry, inputs.isTopic)
    && (forall r :: 0 <= r < |inputs.reviewers| && Normalize(inputs.reviewers[r].login) != Normalize(reviewer.login)
                    && MayTake(inputs.reviewers[r], entry, inputs.isTopic) ==>
          |CoveredBy(entry, inputs.reviewers[r].preferred, inputs.isTopic)|
              <= |CoveredBy(entry, preferred, inputs.isTopic)|)
    && (number in inputs.excludedByPr ==>
          forall l :: l in inputs.excludedByPr[number] && l != "" ==> Normalize(l) != Normalize(reviewer.login))
    && (number in inputs.liveLabels ==>
          forall l :: l in reviewer.excludedLabels ==> l !in inputs.liveLabels[number])
  }

  lemma AssigneesApart(inputs: Inputs, number: int, others: set<string>)
    requires number in inputs.entries
    ensures var assignees := inputs.entries[number].assignees;
            AssigneesOf(inputs, number) * others == {}
            <==> forall k :: 0 <= k < |assignees| && assignees[k] != "" ==> Normalize(assignees[k]) !in others
  {
    hide Normalize;
    var assignees := inputs.entries[number].assignees;
    if k :| 0 <= k < |assignees| && assignees[k] != "" && Normalize(assignees[k]) in others {
      assert assignees[k] in assignees;
      assert Normalize(assignees[k]) in AssigneesOf(inputs, number) * others;
    }
  }

  lemma ActiveMembers(reviewers: seq<Profile>, norm: string)
    ensures norm in ActiveLogins(reviewers)
      <==> exists r :: 0 <= r < |reviewers| && reviewers[r].autoAssign && !reviewers[r].temporaryBreak
                       && Normalize(reviewers[r].login) == norm
  {
    hide Normalize;
    if r :| 0 <= r < |reviewers| && reviewers[r].autoAssign && !reviewers[r].temporaryBreak
            && Normalize(reviewers[r].login) == norm {
      assert reviewers[r] in reviewers && IsActive(reviewers[r]);
    }
    if norm in ActiveLogins(reviewers) {
      var p :| p in reviewers && IsActive(p) && Normalize(p.login) == norm;
      var r :| 0 <= r < |reviewers| && reviewers[r] == p;
    }
  }

  lemma PoolRules(inputs: Inputs, number: int)
    requires number in inputs.entries
    ensures Admitted(inputs, number) <==> IsFreeToOffer(inputs, number)
  {
    var entry := inputs.entries[number];
    AssigneesApart(inputs, number, ActiveLogins(inputs.reviewers));
    forall k | 0 <= k < |entry.assignees|
      ensures Normalize(entry.assignees[k]) in ActiveLogins(inputs.reviewers)
        <==> exists r ::
               0 <= r < |inputs.reviewers| && inputs.reviewers[r].autoAssign && !inputs.reviewers[r].temporaryBreak
               && Normalize(inputs.reviewers[r].login) == Normalize(entry.assignees[k])
    {
      ActiveMembers(inputs.reviewers, Normalize(entry.assignees[k]));
    }
    ForbiddenLabels(entry, inputs.forbidden);
    hide Normalize, AssigneesOf, ActiveLogins, AllLabels;
  }

  lemma ForbiddenLabels(entry: PrEntry, forbidden: set<string>)
    ensures AllLabels(entry) * forbidden == {}
      <==> forall k :: 0 <= k < |entry.labels| && entry.labels[k] != "" ==> Normalize(entry.labels[k]) !in forbidden
  {
    hide Normalize;
    if k :| 0 <= k < |entry.labels| && entry.labels[k] != "" && Normalize(entry.labels[k]) in forbidden {
      assert entry.labels[k] in entry.labels;
      assert Normalize(entry.labels[k]) in AllLabels(entry) * forbidden;
    }
  }

  lemma OutrankedPlainly(inputs: Inputs, i: nat, labels: Option<set<string>>, login: string, number: int)
    requires i < |inputs.reviewers| && Normalize(inputs.reviewers[i].login) == Normalize(login)
    requires number in inputs.entries
    ensures var (entry, requester) := (inputs.entries[number], Override(inputs.reviewers[i], labels));
            IsOutranked(CatalogFor(inputs, i, labels, login), requester, entry,
                TopicLabels(entry.labels, inputs.isTopic))
            <==> exists r :: 0 <= r < |inputs.reviewers| && Normalize(inputs.reviewers[r].login) != Normalize(login)
                   && MayTake(inputs.reviewers[r], entry, inputs.isTopic)
                   && |CoveredBy(entry, inputs.reviewers[r].preferred, inputs.isTopic)|
                      > |CoveredBy(entry, requester.preferred, inputs.isTopic)|
  {
    var (entry, requester) := (inputs.entries[number], Override(inputs.reviewers[i], labels));
    var (topics, catalog) := (TopicLabels(entry.labels, inputs.isTopic), CatalogFor(inputs, i, labels, login));
    ScoreCounts(entry, requester.preferred, inputs.isTopic);
    forall r | 0 <= r < |inputs.reviewers|
      ensures Score(topics, inputs.reviewers[r].preferred)
           == |CoveredBy(entry, inputs.reviewers[r].preferred, inputs.isTopic)|
      ensures Matches(inputs.reviewers[r], entry, topics) <==> MayTake(inputs.reviewers[r], entry, inputs.isTopic)
      ensures Normalize(inputs.reviewers[r].login) != Normalize(login) ==> catalog[r] == inputs.reviewers[r]
      ensures Normalize(catalog[r].login) == Normalize(login)
          <==> Normalize(inputs.reviewers[r].login) == Normalize(login)
    {
      ScoreCounts(entry, inputs.reviewers[r].preferred, inputs.isTopic);
      MatchesExactly(inputs.reviewers[r], entry, inputs.isTopic);
      hide TopicLabels, Score, Matches, MayTake, CoveredBy, Normalize;
    }
    hide Normalize, TopicLabels, Score, Matches, MayTake, CoveredBy, CatalogFor;
  }

  /** The labels a request goes by: its own, or else the stored ones. */
  function PreferredFor(reviewer: Profile, labels: Option<set<string>>): set<string>
  {
    if labels.Some? then labels.value else reviewer.preferred
  }

  lemma RequesterRules(inputs: Inputs, i: nat, labels: Option<set<string>>, login: string, number: int)
    requires i < |inputs.reviewers| && Normalize(inputs.reviewers[i].login) == Normalize(login)
    requires number in inputs.entries
    ensures Normalize(login) !in AssigneesOf(inputs, number) && MayBeOffered(inputs, i, labels, login, number)
      <==> IsOpenTo(inputs, i, PreferredFor(inputs.reviewers[i], labels), number)
  {
    var norm, entry := Normalize(login), inputs.entries[number];
    AssigneesApart(inputs, number, {norm});
    assert norm !in AssigneesOf(inputs, number) <==> AssigneesOf(inputs, number) * {norm} == {};
    assert norm !in AssigneesOf(inputs, number) <==>
      forall k :: 0 <= k < |entry.assignees| && entry.assignees[k] != "" ==> Normalize(entry.assignees[k]) != norm;
    LiveExcludedPlainly(inputs, inputs.reviewers[i], number);
    OutrankedPlainly(inputs, i, labels, login, number);
    MatchingPlainly(inputs, i, labels, number);
    KeptOutPlainly(inputs, inputs.reviewers[i], number);
    hide Normalize, AssigneesOf, TopicLabels, MatchesNoArea, MayTake, CoveredBy, IsOutranked, PrefilterReason,
        CatalogFor, IsKeptOut, ContextOf, IsLiveExcluded;
  }

  lemma MatchingPlainly(inputs: Inputs, i: nat, labels: Option<set<string>>, number: int)
    requires i < |inputs.reviewers| && number in inputs.entries
    ensures var (entry, reviewer) := (inputs.entries[number], inputs.reviewers[i]);
            var topics := TopicLabels(entry.labels, inputs.isTopic);
            PrefilterReason(reviewer, entry) == None && !MatchesNoArea(Override(reviewer, labels), topics)
            <==> MayTake(reviewer.(preferred := PreferredFor(reviewer, labels)), entry, inputs.isTopic)
  {
    var (entry, reviewer) := (inputs.entries[number], inputs.reviewers[i]);
    var requester := reviewer.(preferred := PreferredFor(reviewer, labels));
    MatchesExactly(requester, entry, inputs.isTopic);
    ScoreZero(TopicLabels(entry.labels, inputs.isTopic), requester.preferred);
    assert PrefilterReason(requester, entry) == PrefilterReason(reviewer, entry);
    hide Normalize, TopicLabels, Score, MayTake, PrefilterReason;
  }

  lemma LiveExcludedPlainly(inputs: Inputs, reviewer: Profile, number: int)
    ensures !IsLiveExcluded(inputs, reviewer, number)
      <==> (number in inputs.liveLabels ==>
              forall l :: l in reviewer.excludedLabels ==> l !in inputs.liveLabels[number])
  {
    if number in inputs.liveLabels {
      var both := reviewer.excludedLabels * inputs.liveLabels[number];
      assert both != {} ==> exists l :: l in both;
      assert forall l :: l in both <==> l in reviewer.excludedLabels && l in inputs.liveLabels[number];
    }
  }

  lemma KeptOutPlainly(inputs: Inputs, reviewer: Profile, number: int)
    ensures !IsKeptOut(reviewer, ContextOf(inputs, number))
      <==> (number in inputs.excludedByPr ==>
              forall l :: l in inputs.excludedByPr[number] && l != "" ==> Normalize(l) != Normalize(reviewer.login))
  {
    hide Normalize;
  }

  /** What a request finds eligible: exactly the queued pull requests with an entry that no rule
      of the pool and no rule about the requester speaks against. So nothing is offered that the
      nightly builder would refuse, and no correctness rule is overridden. */
  lemma OfferedExactly(inputs: Inputs, i: nat, labels: Option<set<string>>, login: string, number: int)
    requires i < |inputs.reviewers| && Normalize(inputs.reviewers[i].login) == Normalize(login)
    requires LoadOf(inputs.loads, inputs.reviewers[i].login) < MAX_SIZE as real
    ensures number in EligibleIn(RankedFor(inputs, i, labels, login), JudgeFor(inputs, i, labels, login))
      <==> (&& number in inputs.queue && number in inputs.entries && IsFreeToOffer(inputs, number)
            && IsOpenTo(inputs, i, PreferredFor(inputs.reviewers[i], labels), number))
  {
    OfferedByRules(inputs, i, labels, login, number);
    if number in inputs.entries {
      PoolRules(inputs, number);
      RequesterRules(inputs, i, labels, login, number);
    }
    hide Normalize, RankedFor, JudgeFor, AssigneesOf, ActiveLogins, LabelsOf, LoadOf, IsFreeToOffer, IsOpenTo,
        MayBeOffered;
  }

  // ---- In which order -----------------------------------------------------------------------------------

  /** The catalog positions of the reviewers who could take a pull request right now. */
  ghost function FreeFrom(inputs: Inputs, catalog: seq<Profile>, number: int, start: nat): set<nat>
    requires number in inputs.entries
  {
    var excluded := if number in inputs.excludedByPr then inputs.excludedByPr[number] else {};
    set k: nat | start <= k < |catalog|
      && CouldTake(catalog, k, inputs.entries[number], Context(inputs.loads, excluded, inputs.isTopic))
  }

  lemma FreeFromNext(inputs: Inputs, catalog: seq<Profile>, number: int, start: nat)
    requires number in inputs.entries && start <= |catalog|
    ensures start == |catalog| ==> FreeFrom(inputs, catalog, number, start) == {}
    ensures start < |catalog| ==>
      var later := FreeFrom(inputs, catalog, number, start + 1);
      && start !in later
      && FreeFrom(inputs, catalog, number, start)
         == if CouldTake(catalog, start, inputs.entries[number], ContextOf(inputs, number)) then later + {start}
            else later
  {
    hide CouldTake;
  }

  /** The room they have left together. */
  ghost function RoomOf(catalog: seq<Profile>, loads: map<string, real>, positions: set<nat>): real
    decreases |positions|
  {
    if positions == {} then 0.0
    else
      var k := Pick(positions);
      Room(catalog, loads, k) + RoomOf(catalog, loads, positions - {k})
  }

  function Room(catalog: seq<Profile>, loads: map<string, real>, k: nat): real
  {
    if k < |catalog| then
      catalog[k].maximumCapacity as real - if catalog[k].login in loads then loads[catalog[k].login] else 0.0
    else 0.0
  }

  lemma {:induction false} RoomWithout(catalog: seq<Profile>, loads: map<string, real>, positions: set<nat>, k: nat)
    requires k in positions
    ensures RoomOf(catalog, loads, positions) == Room(catalog, loads, k) + RoomOf(catalog, loads, positions - {k})
    decreases |positions|
  {
    var first := Pick(positions);
    if first != k {
      RoomWithout(catalog, loads, positions - {first}, k);
      RoomWithout(catalog, loads, positions - {k}, first);
      assert positions - {first} - {k} == positions - {k} - {first};
    }
  }

  lemma {:induction false} FreeCandidatesExactly(inputs: Inputs, catalog: seq<Profile>, number: int, start: nat)
    requires number in inputs.entries && start <= |catalog|
    ensures var free := FreeCandidates(catalog[start..], catalog, inputs.entries[number], ContextOf(inputs, number));
            && |free| == |FreeFrom(inputs, catalog, number, start)|
            && Remaining(free, inputs.loads) == RoomOf(catalog, inputs.loads, FreeFrom(inputs, catalog, number, start))
    decreases |catalog| - start
  {
    FreeFromNext(inputs, catalog, number, start);
    hide FreeFrom, Survives, IsFree, CouldTake, TopicLabels, ContextOf, LoadOf;
    if start < |catalog| {
      var (entry, context) := (inputs.entries[number], ContextOf(inputs, number));
      var later := FreeFrom(inputs, catalog, number, start + 1);
      FreeCandidatesExactly(inputs, catalog, number, start + 1);
      CouldTakeExactly(catalog, start, entry, context);
      FreeCandidatesStep(inputs, catalog, number, start);
      if CouldTake(catalog, start, entry, context) {
        assert later + {start} - {start} == later;
        RoomWithout(catalog, inputs.loads, later + {start}, start);
      }
      hide FreeCandidates, Remaining, RoomOf;
    }
  }

  lemma FreeCandidatesStep(inputs: Inputs, catalog: seq<Profile>, number: int, start: nat)
    requires number in inputs.entries && start < |catalog|
    ensures var (entry, context) := (inputs.entries[number], ContextOf(inputs, number));
            var rest := FreeCandidates(catalog[start + 1..], catalog, entry, context);
            var free := FreeCandidates(catalog[start..], catalog, entry, context);
            if Survives(catalog[start], catalog, entry, TopicLabels(entry.labels, context.isTopic))
               && IsFree(catalog[start], context) then
              && free == [catalog[start]] + rest
              && Remaining(free, inputs.loads) == Room(catalog, inputs.loads, start) + Remaining(rest, inputs.loads)
            else free == rest
  {
    var (entry, context) := (inputs.entries[number], ContextOf(inputs, number));
    var rest := FreeCandidates(catalog[start + 1..], catalog, entry, context);
    hide Survives, IsFree, TopicLabels, ContextOf;
    assert catalog[start..][0] == catalog[start] && catalog[start..][1..] == catalog[start + 1..];
    assert ([catalog[start]] + rest)[1..] == rest;
  }

  function AgeOf(inputs: Inputs, number: int): real
  {
    if inputs.queueAge(number).Some? then inputs.queueAge(number).value else 0.0
  }

  /** x is no worse than y: free reviewers for one go before none for the other; then fewer of
      them, then less room among them, then the longer time on the queue, then the title that
      announces a feature, then the smaller number. */
  ghost predicate GoesFirst(inputs: Inputs, catalog: seq<Profile>, x: int, y: int)
    requires x in inputs.entries && y in inputs.entries
  {
    var (freeX, freeY) := (FreeFrom(inputs, catalog, x, 0), FreeFrom(inputs, catalog, y, 0));
    var (roomX, roomY) := (RoomOf(catalog, inputs.loads, freeX), RoomOf(catalog, inputs.loads, freeY));
    && (freeY != {} ==> freeX != {})
    && (freeX != {} && freeY != {} ==> |freeX| <= |freeY|)
    && (|freeX| == |freeY| ==>
          && roomX <= roomY
          && (roomX == roomY ==>
                && AgeOf(inputs, x) >= AgeOf(inputs, y)
                && (AgeOf(inputs, x) == AgeOf(inputs, y) ==>
                      && inputs.title(x) <= inputs.title(y)
                      && (inputs.title(x) == inputs.title(y) ==> x <= y))))
  }

  lemma KeysGoFirst(inputs: Inputs, catalog: seq<Profile>, x: int, y: int)
    requires x in inputs.entries && y in inputs.entries
    requires !Precedes(KeyOf(inputs, catalog, y), KeyOf(inputs, catalog, x))
    ensures GoesFirst(inputs, catalog, x, y)
  {
    assert catalog[0..] == catalog;
    FreeCandidatesExactly(inputs, catalog, x, 0);
    FreeCandidatesExactly(inputs, catalog, y, 0);
    hide FreeCandidates, Remaining, FreeFrom, RoomOf, ContextOf;
  }

  /** Of two suggestions the earlier one goes first. */
  lemma SuggestedInOrder(inputs: Inputs, age: Option<int>, maxAge: int, login: string, labels: Option<set<string>>,
                         limit: int, answer: Answer, a: nat, b: nat)
    requires IsAnswer(inputs, age, maxAge, login, labels, limit, answer) && a < b < |answer.suggestions|
    ensures var (x, y) := (answer.suggestions[a], answer.suggestions[b]);
            var found := FindProfile(inputs.reviewers, Normalize(login));
            && found.Some? && x in inputs.entries && y in inputs.entries
            && GoesFirst(inputs, CatalogFor(inputs, found.value, labels, login), x, y)
  {
    hide RankedFor, JudgeFor, IsTally, EligibleIn, Normalize, GoesFirst, CatalogFor, FindProfile, Override;
    var found := FindProfile(inputs.reviewers, Normalize(login));
    assert found.Some?;
    EligibleInOrder(inputs, found.value, labels, login, a, b);
  }

  lemma EligibleInOrder(inputs: Inputs, i: nat, labels: Option<set<string>>, login: string, a: nat, b: nat)
    requires i < |inputs.reviewers|
    requires a < b < |EligibleIn(RankedFor(inputs, i, labels, login), JudgeFor(inputs, i, labels, login))|
    ensures var eligible := EligibleIn(RankedFor(inputs, i, labels, login), JudgeFor(inputs, i, labels, login));
            && eligible[a] in inputs.entries && eligible[b] in inputs.entries
            && GoesFirst(inputs, CatalogFor(inputs, i, labels, login), eligible[a], eligible[b])
  {
    var key, judge := KeyFor(inputs, i, labels, login), JudgeFor(inputs, i, labels, login);
    var ranked := RankedFor(inputs, i, labels, login);
    var eligible := EligibleIn(ranked, judge);
    RankSorts(Pool(inputs), key);
    EligibleKeepsOrder(ranked, ByKey(key), judge);
    assert eligible[a] in eligible && eligible[b] in eligible;
    EligibleMembers(ranked, judge, eligible[a]);
    EligibleMembers(ranked, judge, eligible[b]);
    KeysNameNumbers(inputs, i, labels, login, eligible[a]);
    KeysNameNumbers(inputs, i, labels, login, eligible[b]);
    hide Pool, JudgeFor, EligibleIn, Normalize, GoesFirst, Precedes, CatalogFor, Rank, RankedFor;
    KeysGoFirst(inputs, CatalogFor(inputs, i, labels, login), eligible[a], eligible[b]);
  }

  // ---- With which status, and why not --------------------------------------------------------------------

  /** The status of an answer: no snapshot, or one older than the maximum age if there is such
      a maximum; a login that no reviewer has; no labels to go by; and else whether anything
      is suggested. Only the last two come with suggestions and a tally. */
  lemma StatusExactly(inputs: Inputs, age: Option<int>, maxAge: int, login: string, labels: Option<set<string>>,
                      limit: int, answer: Answer)
    requires IsAnswer(inputs, age, maxAge, login, labels, limit, answer)
    ensures var found := FindProfile(inputs.reviewers, Normalize(login));
            && (found.Some? ==>
                  && Normalize(inputs.reviewers[found.value].login) == Normalize(login)
                  && forall k :: 0 <= k < found.value ==> Normalize(inputs.reviewers[k].login) != Normalize(login))
            && (found == None ==> forall k :: 0 <= k < |inputs.reviewers| ==>
                  Normalize(inputs.reviewers[k].login) != Normalize(login))
            && answer.status == (
                 if age == None || (0 < maxAge && maxAge < age.value) then NoSnapshot
                 else if found == None then NotAReviewer
                 else if PreferredFor(inputs.reviewers[found.value], labels) == {} then NoLabels
                 else if answer.suggestions != [] then Ok
                 else NoneEligible)
            && (answer.status in {NoSnapshot, NotAReviewer, NoLabels}
                ==> answer.suggestions == [] && answer.skipped == map[])
  {
    hide Normalize, RankedFor, JudgeFor, IsTally, Truncated, EligibleIn;
  }

  /** What the walk says about a pull request that it does not offer is true: it has no entry,
      it is assigned to the requester, or the rule named speaks against them; an excluded label
      counts also when the pull request carries it only by now. */
  lemma SkippedForAReason(inputs: Inputs, i: nat, labels: Option<set<string>>, login: string, number: int)
    requires i < |inputs.reviewers| && Normalize(inputs.reviewers[i].login) == Normalize(login)
    requires LoadOf(inputs.loads, inputs.reviewers[i].login) < MAX_SIZE as real
    requires Lower(inputs.reviewers[i].login) == Normalize(login)
    ensures var (judgement, norm) := (JudgeFor(inputs, i, labels, login)(number), Normalize(login));
            && (judgement == NoEntry <==> number !in inputs.entries)
            && (number in inputs.entries ==>
                  && (judgement == Skipped(AlreadyAssigned) <==> norm in AssigneesOf(inputs, number))
                  && (judgement.Skipped? && judgement.reason != AlreadyAssigned ==>
                        || Applies(judgement.reason, CatalogFor(inputs, i, labels, login),
                             Override(inputs.reviewers[i], labels), norm, inputs.entries[number],
                             ContextOf(inputs, number))
                        || (judgement.reason == CarriesExcludedLabel
                            && IsLiveExcluded(inputs, inputs.reviewers[i], number))))
  {
    hide Normalize, Lower, Applies, Available, Potential, ClassifySkip, AssigneesOf, LoadOf, CatalogFor, ContextOf;
    if number in inputs.entries {
      UnavailableForAReason(inputs, i, labels, login, number);
    }
  }

  lemma UnavailableForAReason(inputs: Inputs, i: nat, labels: Option<set<string>>, login: string, number: int)
    requires i < |inputs.reviewers| && Normalize(inputs.reviewers[i].login) == Normalize(login)
    requires LoadOf(inputs.loads, inputs.reviewers[i].login) < MAX_SIZE as real
    requires Lower(inputs.reviewers[i].login) == Normalize(login) && number in inputs.entries
    ensures var (catalog, norm) := (CatalogFor(inputs, i, labels, login), Normalize(login));
            var (entry, context) := (inputs.entries[number], ContextOf(inputs, number));
            var requester := Override(inputs.reviewers[i], labels);
            var skip := ClassifySkip(entry, requester, norm, Potential(catalog, entry, context), inputs.isTopic);
            && skip != AlreadyAssigned
            && (norm !in Available(catalog, entry, context) ==> Applies(skip, catalog, requester, norm, entry, context))
  {
    var (norm, requester) := (Normalize(login), Override(inputs.reviewers[i], labels));
    var (catalog, entry) := (CatalogFor(inputs, i, labels, login), inputs.entries[number]);
    var context := ContextOf(inputs, number);
    SubstituteMakesRequestCatalog(inputs.reviewers, i, labels, norm);
    hide Normalize, Lower, Applies, Available, Potential, ClassifySkip, IsRequestCatalog, LoadOf;
    ClassifyMeans(entry, requester, norm, Potential(catalog, entry, context), inputs.isTopic);
    if norm !in Available(catalog, entry, context) {
      SkipReasonIsTrue(catalog, requester, norm, entry, context);
    }
  }
}
