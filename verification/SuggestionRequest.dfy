/** A request for suggestions: the candidate pool shared with the nightly builder, its
    ranking under the request's catalog, and what the walk over it answers. */
module SuggestionRequest {
  import opened Options
  import opened Logins
  import opened CandidateEngine
  import opened Sequences
  import opened SuggestionWalk
  import opened SuggestionRanking

  /** What a request reads: the reviewers as configured, the review queue and the entries of
      its snapshot, the repository's forbidden labels, the pull requests with a pending
      proposal, loads and exclusions, the labels that pull requests carry by now, and the
      lower-case names of the repository's labels with the limit on a request's own labels. */
  datatype Inputs = Inputs(
    reviewers: seq<Profile>, queue: seq<int>, entries: map<int, PrEntry>, forbidden: set<string>,
    withProposal: set<int>, loads: map<string, real>, excludedByPr: map<int, set<string>>,
    liveLabels: map<int, set<string>>,
    queueAge: int -> Option<real>, title: int -> nat, isTopic: Matcher, labelNames: set<string>, maxLabels: int)

  // ---- The candidate pool ------------------------------------------------------------------------------

  predicate IsActive(p: Profile)
  {
    p.autoAssign && !p.temporaryBreak
  }

  function ActiveLogins(reviewers: seq<Profile>): set<string>
  {
    set p | p in reviewers && IsActive(p) :: Normalize(p.login)
  }

  function AssigneesOf(inputs: Inputs, number: int): set<string>
  {
    if number in inputs.entries then
      set a | a in inputs.entries[number].assignees && a != "" :: Normalize(a)
    else {}
  }

  function LabelsOf(inputs: Inputs, number: int): set<string>
  {
    if number in inputs.entries then AllLabels(inputs.entries[number]) else {}
  }

  function Unassigned(inputs: Inputs, active: set<string>): int -> bool
  {
    number => AssigneesOf(inputs, number) * active == {}
  }

  function Permitted(inputs: Inputs): int -> bool
  {
    number => LabelsOf(inputs, number) * inputs.forbidden == {}
  }

  function Unproposed(inputs: Inputs): int -> bool
  {
    number => number !in inputs.withProposal
  }

  /** The queue without pull requests that an active reviewer is assigned to, that carry a
      forbidden label, or that have a pending proposal. Activity is read from the reviewers
      as configured, whatever a request overrides. */
  function Pool(inputs: Inputs): seq<int>
  {
    Kept(Kept(Kept(inputs.queue, Unassigned(inputs, ActiveLogins(inputs.reviewers))), Permitted(inputs)),
        Unproposed(inputs))
  }

  /** The filters as the program runs them, one loop each. */
  method AssignablePool(inputs: Inputs) returns (pool: seq<int>)
    ensures pool == Pool(inputs)
  {
    var active := ActiveLogins(inputs.reviewers);
    pool := Filtered(inputs.queue, Unassigned(inputs, active));
    pool := Filtered(pool, Permitted(inputs));
    pool := Filtered(pool, Unproposed(inputs));
  }

  method Filtered(numbers: seq<int>, keep: int -> bool) returns (kept: seq<int>)
    ensures kept == Kept(numbers, keep)
  {
    kept := [];
    for i := 0 to |numbers|
      invariant kept == Kept(numbers[..i], keep)
    {
      assert numbers[..i + 1][..i] == numbers[..i];
      if keep(numbers[i]) {
        kept := kept + [numbers[i]];
      }
    }
    assert numbers[..|numbers|] == numbers;
  }

  /** The rules of the pool, apart from one login's own activity. */
  predicate AdmittedBut(inputs: Inputs, norm: string, number: int)
  {
    && AssigneesOf(inputs, number) * (ActiveLogins(inputs.reviewers) - {norm}) == {}
    && LabelsOf(inputs, number) * inputs.forbidden == {}
    && number !in inputs.withProposal
  }

  predicate Admitted(inputs: Inputs, number: int)
  {
    && AssigneesOf(inputs, number) * ActiveLogins(inputs.reviewers) == {}
    && LabelsOf(inputs, number) * inputs.forbidden == {}
    && number !in inputs.withProposal
  }

  lemma PoolCounts(inputs: Inputs, number: int)
    ensures multiset(Pool(inputs))[number] == if Admitted(inputs, number) then multiset(inputs.queue)[number] else 0
  {
    hide Kept, AssigneesOf, LabelsOf, ActiveLogins;
    var unassigned := Kept(inputs.queue, Unassigned(inputs, ActiveLogins(inputs.reviewers)));
    KeptCounts(inputs.queue, Unassigned(inputs, ActiveLogins(inputs.reviewers)), number);
    KeptCounts(unassigned, Permitted(inputs), number);
    KeptCounts(Kept(unassigned, Permitted(inputs)), Unproposed(inputs), number);
  }

  // ---- The ranking and the judgements --------------------------------------------------------------------

  function FindProfile(reviewers: seq<Profile>, norm: string): (found: Option<nat>)
    ensures found.Some? ==> found.value < |reviewers| && Normalize(reviewers[found.value].login) == norm
    ensures found.Some? ==> forall i :: 0 <= i < found.value ==> Normalize(reviewers[i].login) != norm
    ensures found == None ==> forall i :: 0 <= i < |reviewers| ==> Normalize(reviewers[i].login) != norm
  {
    if reviewers == [] then None
    else if Normalize(reviewers[0].login) == norm then Some(0)
    else
      match FindProfile(reviewers[1..], norm)
      case None => None
      case Some(i) => Some(i + 1)
  }

  function ContextOf(inputs: Inputs, number: int): Context
  {
    Context(inputs.loads, if number in inputs.excludedByPr then inputs.excludedByPr[number] else {}, inputs.isTopic)
  }

  function FreeCandidates(from: seq<Profile>, catalog: seq<Profile>, entry: PrEntry, c: Context): seq<Profile>
  {
    if from == [] then []
    else
      var rest := FreeCandidates(from[1..], catalog, entry, c);
      if Survives(from[0], catalog, entry, TopicLabels(entry.labels, c.isTopic)) && IsFree(from[0], c) then
        [from[0]] + rest
      else rest
  }

  function Remaining(free: seq<Profile>, loads: map<string, real>): real
  {
    if free == [] then 0.0
    else free[0].maximumCapacity as real - LoadOf(loads, free[0].login) + Remaining(free[1..], loads)
  }

  /** Scarce pull requests first, then long-queued ones, features before the rest. */
  function KeyOf(inputs: Inputs, catalog: seq<Profile>, number: int): (key: Option<Key>)
    ensures key.Some? <==> number in inputs.entries
    ensures key.Some? ==> key.value.number == number
  {
    if number !in inputs.entries then None
    else
      var free := FreeCandidates(catalog, catalog, inputs.entries[number], ContextOf(inputs, number));
      var queued := if inputs.queueAge(number).Some? then inputs.queueAge(number).value else 0.0;
      var availability := if free != [] then 0 else 1;
      Some(Key(availability, |free|, Remaining(free, inputs.loads), -queued, inputs.title(number), number))
  }

  // The requester excludes a label that the pull request carries by now.
  predicate IsLiveExcluded(inputs: Inputs, requester: Profile, number: int)
  {
    number in inputs.liveLabels && requester.excludedLabels * inputs.liveLabels[number] != {}
  }

  function JudgementOf(inputs: Inputs, catalog: seq<Profile>, requester: Profile, norm: string, number: int): Judgement
  {
    if number !in inputs.entries then NoEntry
    else
      var entry, context := inputs.entries[number], ContextOf(inputs, number);
      if norm in AssigneesOf(inputs, number) then Skipped(AlreadyAssigned)
      else if norm !in Available(catalog, entry, context) then
        Skipped(ClassifySkip(entry, requester, norm, Potential(catalog, entry, context), inputs.isTopic))
      else if IsLiveExcluded(inputs, requester, number) then Skipped(CarriesExcludedLabel)
      else Eligible
  }

  function CatalogFor(inputs: Inputs, i: nat, labels: Option<set<string>>, login: string): seq<Profile>
    requires i < |inputs.reviewers|
  {
    Substitute(inputs.reviewers, Override(inputs.reviewers[i], labels), Normalize(login))
  }

  function KeyFor(inputs: Inputs, i: nat, labels: Option<set<string>>, login: string): int -> Option<Key>
    requires i < |inputs.reviewers|
  {
    number => KeyOf(inputs, CatalogFor(inputs, i, labels, login), number)
  }

  function RankedFor(inputs: Inputs, i: nat, labels: Option<set<string>>, login: string): seq<int>
    requires i < |inputs.reviewers|
  {
    Rank(Pool(inputs), KeyFor(inputs, i, labels, login))
  }

  function JudgeFor(inputs: Inputs, i: nat, labels: Option<set<string>>, login: string): int -> Judgement
    requires i < |inputs.reviewers|
  {
    number => JudgementOf(inputs, CatalogFor(inputs, i, labels, login), Override(inputs.reviewers[i], labels),
        Normalize(login), number)
  }

  // ---- The request ---------------------------------------------------------------------------------------

  datatype Status = Ok | NoSnapshot | NotAReviewer | NoLabels | NoneEligible

  datatype Answer = Answer(status: Status, suggestions: seq<int>, skipped: map<Skip, nat>)

  predicate HasNoSnapshot(age: Option<int>, maxAge: int)
  {
    age == None || (maxAge > 0 && age.value > maxAge)
  }

  /** What an answer must be, given the age of the snapshot if there is one. */
  ghost predicate IsAnswer(inputs: Inputs, age: Option<int>, maxAge: int, login: string, labels: Option<set<string>>,
                           limit: int, answer: Answer)
  {
    if HasNoSnapshot(age, maxAge) then answer == Answer(NoSnapshot, [], map[])
    else
      match FindProfile(inputs.reviewers, Normalize(login))
      case None => answer == Answer(NotAReviewer, [], map[])
      case Some(i) =>
        if Override(inputs.reviewers[i], labels).preferred == {} then answer == Answer(NoLabels, [], map[])
        else
          var ranked, judge := RankedFor(inputs, i, labels, login), JudgeFor(inputs, i, labels, login);
          && answer.suggestions == Truncated(EligibleIn(ranked, judge), limit)
          && IsTally(answer.skipped, ranked, judge)
          && answer.status == if answer.suggestions != [] then Ok else NoneEligible
  }

  /** The labels a request asks for instead of the stored ones: None without a usable token,
      else the known ones among those within the limit. */
  function OverrideOf(inputs: Inputs, labels: seq<string>): (chosen: Option<set<string>>)
  {
    var requested := Requested(labels);
    if requested == [] then None
    else
      var taken := requested[..Taken(|requested|, inputs.maxLabels)];
      Some(set token | token in taken && inputs.isTopic(token) && token in inputs.labelNames)
  }

  lemma OverrideFromKnown(inputs: Inputs, labels: seq<string>, known: seq<string>)
    requires var taken := Requested(labels)[..Taken(|Requested(labels)|, inputs.maxLabels)];
             forall token ::
               token in known <==> token in taken && inputs.isTopic(token) && token in inputs.labelNames
    ensures OverrideOf(inputs, labels) == if Requested(labels) == [] then None else Some(set token | token in known)
  {
    var chosen := OverrideOf(inputs, labels);
    hide Requested;
    if chosen.Some? {
      assert chosen.value == set token | token in known;
    }
  }

  method SuggestPrs(inputs: Inputs, age: Option<int>, maxAge: int, login: string, labels: seq<string>, limit: int)
    returns (answer: Answer)
    ensures IsAnswer(inputs, age, maxAge, login, OverrideOf(inputs, labels), limit, answer)
  {
    if HasNoSnapshot(age, maxAge) {
      return Answer(NoSnapshot, [], map[]);
    }
    var norm := Normalize(login);
    var pool := AssignablePool(inputs);
    var found := FindProfile(inputs.reviewers, norm);
    if found == None {
      return Answer(NotAReviewer, [], map[]);
    }
    var known, unknown, dropped := ResolveLabelOverride(labels, inputs.maxLabels, inputs.labelNames, inputs.isTopic);
    var chosen := if known != [] || unknown != [] || dropped != [] then Some(set token | token in known) else None;
    assert chosen == OverrideOf(inputs, labels) by {
      OverrideFromKnown(inputs, labels, known);
    }
    hide OverrideOf, Requested, Normalize;
    var requester := Override(inputs.reviewers[found.value], chosen);
    if requester.preferred == {} {
      return Answer(NoLabels, [], map[]);
    }
    var ranked := Rank(pool, KeyFor(inputs, found.value, chosen, login));
    var suggestions, skipped := Walk(ranked, JudgeFor(inputs, found.value, chosen, login), limit);
    return Answer(if suggestions != [] then Ok else NoneEligible, suggestions, skipped);
  }

  /** When a request is told that there are no labels to go by: with a usable token, when no
      token within the limit is a topic label of the repository, whatever labels are stored;
      without one, when none are stored. */
  lemma NoLabelsExactly(inputs: Inputs, age: Option<int>, maxAge: int, login: string, labels: seq<string>, limit: int,
                        answer: Answer)
    requires IsAnswer(inputs, age, maxAge, login, OverrideOf(inputs, labels), limit, answer)
    ensures var found, requested := FindProfile(inputs.reviewers, Normalize(login)), Requested(labels);
            answer.status == NoLabels <==>
              && !HasNoSnapshot(age, maxAge) && found.Some?
              && if exists i :: 0 <= i < |labels| && Normalize(labels[i]) != "" then
                   forall k :: 0 <= k < Taken(|requested|, inputs.maxLabels) ==>
                     !(inputs.isTopic(requested[k]) && requested[k] in inputs.labelNames)
                 else inputs.reviewers[found.value].preferred == {}
  {
    UsableTokens(labels);
    NoneKnown(inputs, labels);
    hide OverrideOf, Requested, Normalize, RankedFor, JudgeFor, IsTally, Truncated, EligibleIn;
  }

  lemma UsableTokens(labels: seq<string>)
    ensures Requested(labels) != [] <==> exists i :: 0 <= i < |labels| && Normalize(labels[i]) != ""
  {
    var requested := Requested(labels);
    hide Requested, Normalize;
    if i :| 0 <= i < |labels| && Normalize(labels[i]) != "" {
      assert IsNormalized(labels, Normalize(labels[i]));
      assert Normalize(labels[i]) in requested;
    }
    if requested != [] {
      assert requested[0] in requested && IsNormalized(labels, requested[0]);
    }
  }

  lemma NoneKnown(inputs: Inputs, labels: seq<string>)
    ensures OverrideOf(inputs, labels).None? <==> Requested(labels) == []
    ensures var (chosen, requested) := (OverrideOf(inputs, labels), Requested(labels));
            chosen.Some? ==>
              (chosen.value == {} <==>
                 forall k :: 0 <= k < Taken(|requested|, inputs.maxLabels) ==>
                   !(inputs.isTopic(requested[k]) && requested[k] in inputs.labelNames))
  {
    var (chosen, requested) := (OverrideOf(inputs, labels), Requested(labels));
    var taken := requested[..Taken(|requested|, inputs.maxLabels)];
    hide Requested;
    forall k | 0 <= k < |taken|
      ensures taken[k] == requested[k] && taken[k] in taken
    {
    }
    if chosen.Some? {
      forall token | token in chosen.value
        ensures exists k :: 0 <= k < |taken| && taken[k] == token
      {
      }
      if k :| 0 <= k < |taken| && inputs.isTopic(taken[k]) && taken[k] in inputs.labelNames {
        assert taken[k] in chosen.value;
      }
    }
  }

  lemma OneTally(one: map<Skip, nat>, two: map<Skip, nat>, ranked: seq<int>, judge: int -> Judgement)
    requires IsTally(one, ranked, judge) && IsTally(two, ranked, judge)
    ensures one == two
  {
    forall reason
      ensures reason in one <==> reason in two
      ensures reason in one ==> one[reason] == two[reason]
    {
      assert CountIn(ranked, judge, Skipped(reason)) == CountIn(ranked, judge, Skipped(reason));
    }
  }

  /** The same request under two limits: the smaller one is answered by a prefix, within the
      limit, and the tally does not depend on the limit. */
  lemma SmallerLimitGivesPrefix(inputs: Inputs, age: Option<int>, maxAge: int, login: string,
                                labels: Option<set<string>>, few: int, many: int, less: Answer, more: Answer)
    requires few <= many
    requires IsAnswer(inputs, age, maxAge, login, labels, few, less)
    requires IsAnswer(inputs, age, maxAge, login, labels, many, more)
    ensures less.suggestions <= more.suggestions
    ensures |less.suggestions| <= if few > 0 then few else 0
    ensures |less.suggestions| < few ==> less.suggestions == more.suggestions
    ensures less.skipped == more.skipped
  {
    var found := FindProfile(inputs.reviewers, Normalize(login));
    hide RankedFor, JudgeFor, IsTally, Truncated, EligibleIn, Normalize;
    if !HasNoSnapshot(age, maxAge) && found.Some? && Override(inputs.reviewers[found.value], labels).preferred != {} {
      var ranked, judge := RankedFor(inputs, found.value, labels, login), JudgeFor(inputs, found.value, labels, login);
      TruncatedPrefix(EligibleIn(ranked, judge), few, many);
      OneTally(less.skipped, more.skipped, ranked, judge);
    }
  }

  lemma RankedDistinct(inputs: Inputs, i: nat, labels: Option<set<string>>, login: string)
    requires i < |inputs.reviewers| && NoDuplicates(inputs.queue)
    ensures NoDuplicates(RankedFor(inputs, i, labels, login))
  {
    var ranked := RankedFor(inputs, i, labels, login);
    RankSorts(Pool(inputs), KeyFor(inputs, i, labels, login));
    forall number
      ensures multiset(ranked)[number] <= multiset(inputs.queue)[number]
    {
      PoolCounts(inputs, number);
    }
    hide RankedFor, Pool, KeyFor, NoDuplicates;
    FewerStayDistinct(ranked, inputs.queue);
  }

  /** When nothing changed in between, everything a page showed passes the claim's recheck if
      no more than the recheck's limit was shown; for a queue without repetitions, exactly then. */
  lemma ShownPassesRecheckExactly(inputs: Inputs, age: Option<int>, maxAge: int, login: string,
                                  labels: Option<set<string>>, limit: int, shown: Answer, recheck: Answer)
    requires IsAnswer(inputs, age, maxAge, login, labels, limit, shown)
    requires IsAnswer(inputs, age, maxAge, login, labels, CLAIM_RECHECK_LIMIT, recheck)
    ensures |shown.suggestions| <= 100_000 ==> AllPass(shown.suggestions, recheck.suggestions)
    ensures NoDuplicates(inputs.queue) && AllPass(shown.suggestions, recheck.suggestions) ==>
              |shown.suggestions| <= 100_000
  {
    var found := FindProfile(inputs.reviewers, Normalize(login));
    hide RankedFor, JudgeFor, IsTally, Truncated, EligibleIn, Normalize, NoDuplicates;
    if !HasNoSnapshot(age, maxAge) && found.Some? && Override(inputs.reviewers[found.value], labels).preferred != {} {
      var ranked, judge := RankedFor(inputs, found.value, labels, login), JudgeFor(inputs, found.value, labels, login);
      CutWithinRecheck(ranked, judge, limit);
      if NoDuplicates(inputs.queue) {
        RankedDistinct(inputs, found.value, labels, login);
      }
    }
  }

  // ---- What is offered -----------------------------------------------------------------------------------

  lemma RankedMembers(inputs: Inputs, i: nat, labels: Option<set<string>>, login: string, number: int)
    requires i < |inputs.reviewers|
    ensures number in RankedFor(inputs, i, labels, login) <==> number in inputs.queue && Admitted(inputs, number)
  {
    hide Pool, Admitted, KeyFor;
    var ranked := RankedFor(inputs, i, labels, login);
    RankSorts(Pool(inputs), KeyFor(inputs, i, labels, login));
    PoolCounts(inputs, number);
    assert number in ranked <==> multiset(ranked)[number] > 0;
    assert number in inputs.queue <==> multiset(inputs.queue)[number] > 0;
  }

  /** The rules no request overrides: authorship, conflicts, excluded labels, opt-outs and
      cooldowns, and beside them that the labels match and nobody covers more of them. */
  ghost predicate MayBeOffered(inputs: Inputs, i: nat, labels: Option<set<string>>, login: string, number: int)
    requires i < |inputs.reviewers| && number in inputs.entries
  {
    var entry, requester := inputs.entries[number], Override(inputs.reviewers[i], labels);
    var topics := TopicLabels(entry.labels, inputs.isTopic);
    && PrefilterReason(inputs.reviewers[i], entry) == None
    && !MatchesNoArea(requester, topics)
    && !IsOutranked(CatalogFor(inputs, i, labels, login), requester, entry, topics)
    && !IsKeptOut(inputs.reviewers[i], ContextOf(inputs, number))
    && !IsLiveExcluded(inputs, inputs.reviewers[i], number)
  }

  lemma EligibleByRules(inputs: Inputs, i: nat, labels: Option<set<string>>, login: string, number: int)
    requires i < |inputs.reviewers| && Normalize(inputs.reviewers[i].login) == Normalize(login)
    requires LoadOf(inputs.loads, inputs.reviewers[i].login) < MAX_SIZE as real
    ensures JudgeFor(inputs, i, labels, login)(number) == Eligible
      <==> (&& number in inputs.entries && Normalize(login) !in AssigneesOf(inputs, number)
            && MayBeOffered(inputs, i, labels, login, number))
  {
    var requester := Override(inputs.reviewers[i], labels);
    var catalog := CatalogFor(inputs, i, labels, login);
    SubstituteMakesRequestCatalog(inputs.reviewers, i, labels, Normalize(login));
    hide Normalize, IsOutranked, MatchesNoArea, AssigneesOf, Available, Potential, ClassifySkip, IsRequestCatalog,
        LoadOf;
    if number in inputs.entries {
      AvailableExactly(catalog, requester, Normalize(login), inputs.entries[number], ContextOf(inputs, number));
      assert PrefilterReason(requester, inputs.entries[number])
          == PrefilterReason(inputs.reviewers[i], inputs.entries[number]);
      assert IsKeptOut(requester, ContextOf(inputs, number))
          == IsKeptOut(inputs.reviewers[i], ContextOf(inputs, number));
    }
  }

  // What a request finds eligible, in terms of the rules of the pool and of the engine.
  lemma OfferedByRules(inputs: Inputs, i: nat, labels: Option<set<string>>, login: string, number: int)
    requires i < |inputs.reviewers| && Normalize(inputs.reviewers[i].login) == Normalize(login)
    requires LoadOf(inputs.loads, inputs.reviewers[i].login) < MAX_SIZE as real
    ensures number in EligibleIn(RankedFor(inputs, i, labels, login), JudgeFor(inputs, i, labels, login))
      <==> (&& number in inputs.queue && number in inputs.entries
            && Normalize(login) !in AssigneesOf(inputs, number)
            && AssigneesOf(inputs, number) * ActiveLogins(inputs.reviewers) == {}
            && LabelsOf(inputs, number) * inputs.forbidden == {}
            && number !in inputs.withProposal
            && MayBeOffered(inputs, i, labels, login, number))
  {
    hide Normalize, RankedFor, JudgeFor, AssigneesOf, ActiveLogins, LabelsOf, LoadOf;
    EligibleMembers(RankedFor(inputs, i, labels, login), JudgeFor(inputs, i, labels, login), number);
    EligibleByRules(inputs, i, labels, login, number);
    RankedMembers(inputs, i, labels, login, number);
  }

  lemma KeysNameNumbers(inputs: Inputs, i: nat, labels: Option<set<string>>, login: string, number: int)
    requires i < |inputs.reviewers| && JudgeFor(inputs, i, labels, login)(number) == Eligible
    ensures NamesItsNumber(KeyFor(inputs, i, labels, login), number)
  {
    hide Available, Potential, ClassifySkip, AssigneesOf, Normalize;
  }

  // Two inputs with one catalog that differ in the reviewers' own settings and the queue only.
  ghost predicate SameBut(inputs: Inputs, other: Inputs, i: nat, labels: Option<set<string>>, login: string)
  {
    && i < |inputs.reviewers| && i < |other.reviewers|
    && other == inputs.(reviewers := other.reviewers, queue := other.queue)
    && Override(other.reviewers[i], labels) == Override(inputs.reviewers[i], labels)
    && CatalogFor(other, i, labels, login) == CatalogFor(inputs, i, labels, login)
  }

  lemma SameJudgements(inputs: Inputs, other: Inputs, i: nat, labels: Option<set<string>>, login: string)
    requires SameBut(inputs, other, i, labels, login)
    ensures forall number ::
      && JudgeFor(other, i, labels, login)(number) == JudgeFor(inputs, i, labels, login)(number)
      && KeyFor(other, i, labels, login)(number) == KeyFor(inputs, i, labels, login)(number)
  {
    hide Available, Potential, ClassifySkip, Normalize, CatalogFor, Override, FreeCandidates, Remaining;
  }

  // Pools that hold the numbers of a judgement equally often give the same part of the answer.
  lemma SameAnswers(inputs: Inputs, other: Inputs, i: nat, labels: Option<set<string>>, login: string,
                    judgement: Judgement)
    requires SameBut(inputs, other, i, labels, login)
    requires AgreeOn(Pool(other), Pool(inputs), JudgeFor(inputs, i, labels, login), judgement)
    ensures CountIn(RankedFor(other, i, labels, login), JudgeFor(other, i, labels, login), judgement)
         == CountIn(RankedFor(inputs, i, labels, login), JudgeFor(inputs, i, labels, login), judgement)
    ensures judgement == Eligible ==>
      EligibleIn(RankedFor(other, i, labels, login), JudgeFor(other, i, labels, login))
      == EligibleIn(RankedFor(inputs, i, labels, login), JudgeFor(inputs, i, labels, login))
  {
    var judge, key := JudgeFor(inputs, i, labels, login), KeyFor(inputs, i, labels, login);
    SameJudgements(inputs, other, i, labels, login);
    forall number | judge(number) == Eligible
      ensures NamesItsNumber(key, number)
    {
      KeysNameNumbers(inputs, i, labels, login, number);
    }
    hide Pool, JudgeFor, KeyFor, Rank, SameBut, NamesItsNumber, AgreeOn;
    RankByValues(Pool(other), KeyFor(other, i, labels, login), key);
    WalkByValues(RankedFor(other, i, labels, login), JudgeFor(other, i, labels, login), judge, judgement);
    SameCountsRanked(Pool(other), Pool(inputs), key, judge, judgement);
    if judgement == Eligible {
      OnlyEligibleNumbersMatter(Pool(other), Pool(inputs), key, judge);
    }
  }

  /** Identical requests give identical answers: with the queue listed in another order, the
      eligible pull requests still come in the same order and every count is the same. */
  lemma RequestsAreReproducible(inputs: Inputs, i: nat, labels: Option<set<string>>, login: string, queue: seq<int>,
                                judgement: Judgement)
    requires i < |inputs.reviewers| && multiset(queue) == multiset(inputs.queue)
    ensures var other := inputs.(queue := queue);
            && EligibleIn(RankedFor(other, i, labels, login), JudgeFor(other, i, labels, login))
               == EligibleIn(RankedFor(inputs, i, labels, login), JudgeFor(inputs, i, labels, login))
            && CountIn(RankedFor(other, i, labels, login), JudgeFor(other, i, labels, login), judgement)
               == CountIn(RankedFor(inputs, i, labels, login), JudgeFor(inputs, i, labels, login), judgement)
  {
    var other := inputs.(queue := queue);
    assert SameBut(inputs, other, i, labels, login);
    forall number
      ensures multiset(Pool(other))[number] == multiset(Pool(inputs))[number]
    {
      PoolCounts(inputs, number);
      PoolCounts(other, number);
    }
    hide Pool, JudgeFor, RankedFor, SameBut;
    SameAnswers(inputs, other, i, labels, login, judgement);
    SameAnswers(inputs, other, i, labels, login, Eligible);
  }

  // ---- The requester's own settings -----------------------------------------------------------------------

  /** Queued, admitted by the pool apart from the requester's activity, and assigned to the
      requester. */
  function HeldBy(inputs: Inputs, norm: string): int -> bool
  {
    number => AdmittedBut(inputs, norm, number) && norm in AssigneesOf(inputs, number)
  }

  lemma AdmittedApart(inputs: Inputs, norm: string, number: int)
    ensures Admitted(inputs, number)
      <==> AdmittedBut(inputs, norm, number)
           && (norm in AssigneesOf(inputs, number) ==> norm !in ActiveLogins(inputs.reviewers))
  {
    hide AssigneesOf, ActiveLogins, LabelsOf;
    var assignees, active := AssigneesOf(inputs, number), ActiveLogins(inputs.reviewers);
    assert assignees * active
      == assignees * (active - {norm}) + if norm in assignees && norm in active then {norm} else {};
  }

  lemma JudgedAlreadyAssigned(inputs: Inputs, i: nat, labels: Option<set<string>>, login: string, number: int)
    requires i < |inputs.reviewers|
    ensures JudgeFor(inputs, i, labels, login)(number) == Skipped(AlreadyAssigned)
      <==> Normalize(login) in AssigneesOf(inputs, number)
  {
    if number in inputs.entries {
      var catalog, context := CatalogFor(inputs, i, labels, login), ContextOf(inputs, number);
      ClassifyMeans(inputs.entries[number], Override(inputs.reviewers[i], labels), Normalize(login),
                    Potential(catalog, inputs.entries[number], context), inputs.isTopic);
    }
    hide Available, Potential, ClassifySkip, Normalize;
  }

  /** The one part of the tally that depends on the requester's own activity: nothing is
      counted as already assigned while they are active, and otherwise every queued pull
      request is that they hold and that only their activity could keep from the pool. */
  lemma AlreadyAssignedExactly(inputs: Inputs, i: nat, labels: Option<set<string>>, login: string)
    requires i < |inputs.reviewers|
    ensures CountIn(RankedFor(inputs, i, labels, login), JudgeFor(inputs, i, labels, login), Skipped(AlreadyAssigned))
         == if Normalize(login) in ActiveLogins(inputs.reviewers) then 0
            else |Kept(inputs.queue, HeldBy(inputs, Normalize(login)))|
  {
    var norm, judge := Normalize(login), JudgeFor(inputs, i, labels, login);
    var judged := IsJudged(judge, Skipped(AlreadyAssigned));
    var held := if norm in ActiveLogins(inputs.reviewers) then [] else Kept(inputs.queue, HeldBy(inputs, norm));
    forall number
      ensures multiset(Kept(Pool(inputs), judged))[number] == multiset(held)[number]
    {
      KeptCounts(Pool(inputs), judged, number);
      KeptCounts(inputs.queue, HeldBy(inputs, norm), number);
      PoolCounts(inputs, number);
      JudgedAlreadyAssigned(inputs, i, labels, login, number);
      AdmittedApart(inputs, norm, number);
      hide Kept, Pool, JudgeFor, Admitted, AdmittedBut, Normalize, AssigneesOf, ActiveLogins;
    }
    hide Kept, Pool, JudgeFor, HeldBy;
    SameSize(Kept(Pool(inputs), judged), held);
    SameCountsRanked(Pool(inputs), Pool(inputs), KeyFor(inputs, i, labels, login), judge, Skipped(AlreadyAssigned));
    CountIsKept(Pool(inputs), judge, Skipped(AlreadyAssigned));
  }

  // A change of the setting of reviewer i that no other entry under the login hides.
  ghost predicate ActivityFlips(reviewers: seq<Profile>, i: nat, other: Profile)
    requires i < |reviewers|
  {
    && IsActive(reviewers[i]) != IsActive(other)
    && forall j :: 0 <= j < |reviewers| && j != i && Normalize(reviewers[j].login) == Normalize(other.login) ==>
         !IsActive(reviewers[j])
  }

  ghost predicate IsActiveAt(reviewers: seq<Profile>, login: string, j: nat)
  {
    j < |reviewers| && IsActive(reviewers[j]) && Normalize(reviewers[j].login) == login
  }

  lemma ActiveByIndex(reviewers: seq<Profile>, login: string) returns (j: nat)
    ensures login in ActiveLogins(reviewers) ==> IsActiveAt(reviewers, login, j)
    ensures forall k: nat :: IsActiveAt(reviewers, login, k) ==> login in ActiveLogins(reviewers)
  {
    hide Normalize;
    j := 0;
    if login in ActiveLogins(reviewers) {
      var p :| p in reviewers && IsActive(p) && Normalize(p.login) == login;
      j :| j < |reviewers| && reviewers[j] == p;
    }
  }

  lemma OthersStayActive(reviewers: seq<Profile>, i: nat, other: Profile, login: string)
    requires i < |reviewers| && other.login == reviewers[i].login && login != Normalize(other.login)
    ensures login in ActiveLogins(reviewers[i := other]) <==> login in ActiveLogins(reviewers)
  {
    hide Normalize, ActiveLogins;
    var j := ActiveByIndex(reviewers, login);
    var k := ActiveByIndex(reviewers[i := other], login);
    assert IsActiveAt(reviewers, login, j) ==> IsActiveAt(reviewers[i := other], login, j);
    assert IsActiveAt(reviewers[i := other], login, k) ==> IsActiveAt(reviewers, login, k);
  }

  lemma ActivityAfter(reviewers: seq<Profile>, i: nat, other: Profile)
    requires i < |reviewers| && other.login == reviewers[i].login
    ensures var norm, changed := Normalize(other.login), reviewers[i := other];
            && ActiveLogins(changed) - {norm} == ActiveLogins(reviewers) - {norm}
            && ((norm in ActiveLogins(changed)) != (norm in ActiveLogins(reviewers))
                <==> ActivityFlips(reviewers, i, other))
  {
    hide Normalize, ActiveLogins;
    var norm, changed := Normalize(other.login), reviewers[i := other];
    forall login | login != norm
      ensures login in ActiveLogins(changed) <==> login in ActiveLogins(reviewers)
    {
      OthersStayActive(reviewers, i, other, login);
    }
    var j := ActiveByIndex(reviewers, norm);
    var k := ActiveByIndex(changed, norm);
    assert IsActive(reviewers[i]) ==> IsActiveAt(reviewers, norm, i);
    assert IsActive(other) ==> IsActiveAt(changed, norm, i);
    forall m: nat | m < |reviewers| && m != i && Normalize(reviewers[m].login) == norm && IsActive(reviewers[m])
      ensures norm in ActiveLogins(changed) && norm in ActiveLogins(reviewers)
    {
      assert IsActiveAt(reviewers, norm, m) && IsActiveAt(changed, norm, m);
    }
  }

  lemma SameFind(reviewers: seq<Profile>, i: nat, other: Profile, norm: string)
    requires FindProfile(reviewers, norm) == Some(i) && other.login == reviewers[i].login
    ensures FindProfile(reviewers[i := other], norm) == Some(i)
  {
    hide Normalize, FindProfile;
    var changed := reviewers[i := other];
    assert Normalize(changed[i].login) == norm;
    var found := FindProfile(changed, norm);
    assert found.Some? && found.value == i by {
      assert forall j :: 0 <= j < i ==> changed[j] == reviewers[j];
    }
  }

  // The inputs after the requester changed their own throttles.
  function Rethrottled(inputs: Inputs, i: nat, capacity: int, weekly: Option<int>, onBreak: bool, auto: bool): Inputs
    requires i < |inputs.reviewers|
  {
    var other := inputs.reviewers[i].(
      maximumCapacity := capacity, weeklyLimit := weekly, temporaryBreak := onBreak, autoAssign := auto);
    inputs.(reviewers := inputs.reviewers[i := other])
  }

  lemma RethrottledIsSame(
      inputs: Inputs, i: nat, labels: Option<set<string>>, login: string,
      capacity: int, weekly: Option<int>, onBreak: bool, auto: bool)
    requires FindProfile(inputs.reviewers, Normalize(login)) == Some(i)
    ensures var changed := Rethrottled(inputs, i, capacity, weekly, onBreak, auto);
            FindProfile(changed.reviewers, Normalize(login)) == Some(i) && SameBut(inputs, changed, i, labels, login)
  {
    hide Normalize, FindProfile;
    var changed := Rethrottled(inputs, i, capacity, weekly, onBreak, auto);
    SameFind(inputs.reviewers, i, changed.reviewers[i], Normalize(login));
    assert Override(changed.reviewers[i], labels) == Override(inputs.reviewers[i], labels);
    assert CatalogFor(changed, i, labels, login) == CatalogFor(inputs, i, labels, login);
  }

  // Numbers the requester does not hold are in both pools or in neither.
  lemma PoolsAgree(inputs: Inputs, changed: Inputs, norm: string, number: int)
    requires changed == inputs.(reviewers := changed.reviewers) && norm !in AssigneesOf(inputs, number)
    requires ActiveLogins(changed.reviewers) - {norm} == ActiveLogins(inputs.reviewers) - {norm}
    ensures multiset(Pool(changed))[number] == multiset(Pool(inputs))[number]
  {
    PoolCounts(inputs, number);
    PoolCounts(changed, number);
    AdmittedApart(inputs, norm, number);
    AdmittedApart(changed, norm, number);
    assert AssigneesOf(changed, number) == AssigneesOf(inputs, number)
        && LabelsOf(changed, number) == LabelsOf(inputs, number);
    hide Pool, Admitted, ActiveLogins, AssigneesOf, LabelsOf;
  }

  /** An explicit request overrides the push throttles: with any other capacity, weekly limit,
      break or automatic-assignment setting of the requester, the eligible pull requests are
      the same and so is every count but one. What is counted as already assigned differs
      exactly when the change makes the requester active or inactive and some queued, otherwise
      assignable pull request is assigned to them and to no other active reviewer. */
  lemma ThrottlesDoNotMatter(
      inputs: Inputs, i: nat, labels: Option<set<string>>, login: string,
      capacity: int, weekly: Option<int>, onBreak: bool, auto: bool, judgement: Judgement)
    requires FindProfile(inputs.reviewers, Normalize(login)) == Some(i)
    ensures var changed := Rethrottled(inputs, i, capacity, weekly, onBreak, auto);
            var held := Kept(inputs.queue, HeldBy(inputs, Normalize(login)));
            var (before, judge) := (RankedFor(inputs, i, labels, login), JudgeFor(inputs, i, labels, login));
            var (after, judgeAfter) := (RankedFor(changed, i, labels, login), JudgeFor(changed, i, labels, login));
            && EligibleIn(after, judgeAfter) == EligibleIn(before, judge)
            && (CountIn(after, judgeAfter, judgement) == CountIn(before, judge, judgement)
                <==> !(judgement == Skipped(AlreadyAssigned) && held != []
                       && ActivityFlips(inputs.reviewers, i, changed.reviewers[i])))
  {
    var changed, norm := Rethrottled(inputs, i, capacity, weekly, onBreak, auto), Normalize(login);
    RethrottledIsSame(inputs, i, labels, login, capacity, weekly, onBreak, auto);
    ActivityAfter(inputs.reviewers, i, changed.reviewers[i]);
    hide Pool, JudgeFor, RankedFor, SameBut, FindProfile, Normalize, ActiveLogins, AssigneesOf, Kept, HeldBy,
        Rethrottled;
    forall number | norm !in AssigneesOf(inputs, number)
      ensures multiset(Pool(changed))[number] == multiset(Pool(inputs))[number]
    {
      PoolsAgree(inputs, changed, norm, number);
    }
    forall number
      ensures JudgeFor(inputs, i, labels, login)(number) == Skipped(AlreadyAssigned)
          <==> norm in AssigneesOf(inputs, number)
    {
      JudgedAlreadyAssigned(inputs, i, labels, login, number);
    }
    SameAnswers(inputs, changed, i, labels, login, Eligible);
    if judgement == Skipped(AlreadyAssigned) {
      AlreadyAssignedExactly(inputs, i, labels, login);
      AlreadyAssignedExactly(changed, i, labels, login);
      SameHeld(inputs, changed, norm);
    } else {
      SameAnswers(inputs, changed, i, labels, login, judgement);
    }
  }

  lemma SameHeld(inputs: Inputs, changed: Inputs, norm: string)
    requires changed == inputs.(reviewers := changed.reviewers)
    requires ActiveLogins(changed.reviewers) - {norm} == ActiveLogins(inputs.reviewers) - {norm}
    ensures |Kept(changed.queue, HeldBy(changed, norm))| == |Kept(inputs.queue, HeldBy(inputs, norm))|
  {
    hide Kept, ActiveLogins;
    forall number
      ensures multiset(Kept(changed.queue, HeldBy(changed, norm)))[number]
          == multiset(Kept(inputs.queue, HeldBy(inputs, norm)))[number]
    {
      KeptCounts(inputs.queue, HeldBy(inputs, norm), number);
      KeptCounts(changed.queue, HeldBy(changed, norm), number);
      assert AssigneesOf(changed, number) == AssigneesOf(inputs, number)
          && LabelsOf(changed, number) == LabelsOf(inputs, number);
      hide HeldBy;
    }
    SameSize(Kept(changed.queue, HeldBy(changed, norm)), Kept(inputs.queue, HeldBy(inputs, norm)));
  }

  // One queued pull request, assigned to the only reviewer.
  function OwnPullRequest(login: string, onBreak: bool): Inputs
  {
    var reviewer := Profile(login, 10, true, onBreak, {"t-data"}, {}, None, 0, 0, {});
    Inputs([reviewer], [1], map[1 := PrEntry(["t-data"], "", [login])], {}, {}, map[], map[], map[],
           number => None, number => 1, name => true, {}, 5)
  }

  /** Going on a break changes the tally: one's own assigned pull request then turns up in it,
      which while active is kept from the pool. */
  lemma BreakShowsOwnPullRequest(login: string, labels: Option<set<string>>)
    requires login != ""
    ensures var (active, away) := (OwnPullRequest(login, false), OwnPullRequest(login, true));
            && CountIn(RankedFor(active, 0, labels, login), JudgeFor(active, 0, labels, login),
                Skipped(AlreadyAssigned)) == 0
            && CountIn(RankedFor(away, 0, labels, login), JudgeFor(away, 0, labels, login), Skipped(AlreadyAssigned))
                == 1
  {
    var (active, away) := (OwnPullRequest(login, false), OwnPullRequest(login, true));
    OwnActivity(login);
    OwnHeld(login);
    hide Normalize, RankedFor, JudgeFor, ActiveLogins, Kept, HeldBy;
    AlreadyAssignedExactly(active, 0, labels, login);
    AlreadyAssignedExactly(away, 0, labels, login);
  }

  lemma OwnActivity(login: string)
    ensures Normalize(login) in ActiveLogins(OwnPullRequest(login, false).reviewers)
    ensures ActiveLogins(OwnPullRequest(login, true).reviewers) == {}
  {
    hide Normalize;
    var active := OwnPullRequest(login, false).reviewers;
    assert active[0] in active;
  }

  lemma OwnHeld(login: string)
    requires login != ""
    ensures |Kept(OwnPullRequest(login, true).queue, HeldBy(OwnPullRequest(login, true), Normalize(login)))| == 1
  {
    var away := OwnPullRequest(login, true);
    OwnActivity(login);
    hide Normalize, ActiveLogins, AllLabels;
    assert login in away.entries[1].assignees;
    assert HeldBy(away, Normalize(login))(1);
    assert away.queue[..0] == [];
    assert Kept([1], HeldBy(away, Normalize(login))) == Kept([], HeldBy(away, Normalize(login))) + [1];
  }

  // n unassigned pull requests that all match the only reviewer.
  function LongQueue(login: string, n: nat): Inputs
  {
    var reviewer := Profile(login, 10, true, false, {Lower("t-data")}, {}, None, 0, 0, {});
    var queue := seq(n, i => i);
    Inputs([reviewer], queue, map k | k in queue :: PrEntry(["t-data"], "", []), {}, {}, map[], map[], map[],
           number => None, number => 1, name => true, {}, 5)
  }

  /** The recheck is not unbounded: of more eligible pull requests than its limit, a page that
      shows them all shows one that fails the claim although nothing changed. */
  lemma LongPageFailsRecheck(login: string, n: nat, shown: Answer, recheck: Answer)
    requires login != "" && n > CLAIM_RECHECK_LIMIT
    requires IsAnswer(LongQueue(login, n), Some(0), 0, login, None, n, shown)
    requires IsAnswer(LongQueue(login, n), Some(0), 0, login, None, CLAIM_RECHECK_LIMIT, recheck)
    ensures |shown.suggestions| == n && !AllPass(shown.suggestions, recheck.suggestions)
  {
    LongAnswer(login, n, n, shown);
    LongQueueIsDistinct(login, n);
    hide LongQueue, IsAnswer, Truncated;
    ShownPassesRecheckExactly(LongQueue(login, n), Some(0), 0, login, None, n, shown, recheck);
  }

  lemma LongQueueIsDistinct(login: string, n: nat)
    ensures NoDuplicates(LongQueue(login, n).queue)
  {
  }

  lemma LongQueueNumbers(login: string, n: nat, number: int)
    ensures var inputs := LongQueue(login, n);
            number in inputs.queue <==> number in inputs.entries && 0 <= number < n
  {
    var inputs := LongQueue(login, n);
    assert 0 <= number < n ==> inputs.queue[number] == number;
  }

  lemma LongAnswer(login: string, n: nat, limit: nat, answer: Answer)
    requires login != "" && limit <= n
    requires IsAnswer(LongQueue(login, n), Some(0), 0, login, None, limit, answer)
    ensures |answer.suggestions| == limit
  {
    var inputs := LongQueue(login, n);
    hide LongQueue, IsAnswer, RankedFor, JudgeFor, EligibleIn, Normalize, FindProfile, Override;
    LongWalk(login, n);
    LongRequester(login, n);
    Answered(inputs, 0, login, None, limit, answer);
  }

  // A found requester with labels is answered from the ranking.
  lemma Answered(inputs: Inputs, i: nat, login: string, labels: Option<set<string>>, limit: int, answer: Answer)
    requires FindProfile(inputs.reviewers, Normalize(login)) == Some(i)
    requires Override(inputs.reviewers[i], labels).preferred != {}
    requires IsAnswer(inputs, Some(0), 0, login, labels, limit, answer)
    ensures answer.suggestions
         == Truncated(EligibleIn(RankedFor(inputs, i, labels, login), JudgeFor(inputs, i, labels, login)), limit)
  {
    hide Normalize, FindProfile, Override, RankedFor, JudgeFor, EligibleIn, IsTally, Truncated;
  }

  lemma LongRequester(login: string, n: nat)
    ensures var reviewers := LongQueue(login, n).reviewers;
            && |reviewers| == 1 && FindProfile(reviewers, Normalize(login)) == Some(0)
            && Override(reviewers[0], None).preferred != {}
  {
    hide Normalize, Lower;
  }

  lemma LongWalk(login: string, n: nat)
    requires login != ""
    ensures var ranked := RankedFor(LongQueue(login, n), 0, None, login);
            EligibleIn(ranked, JudgeFor(LongQueue(login, n), 0, None, login)) == ranked && |ranked| == n
  {
    var inputs := LongQueue(login, n);
    var ranked, judge := RankedFor(inputs, 0, None, login), JudgeFor(inputs, 0, None, login);
    LongRanking(login, n);
    LongRequester(login, n);
    hide LongQueue, RankedFor, JudgeFor, EligibleIn, Admitted, Normalize, FindProfile, Override;
    forall k | 0 <= k < |ranked|
      ensures judge(ranked[k]) == Eligible
    {
      assert ranked[k] in ranked;
      RankedMembers(inputs, 0, None, login, ranked[k]);
      LongQueueNumbers(login, n, ranked[k]);
      LongQueueIsEligible(login, n, ranked[k]);
    }
    AllAreEligible(ranked, judge);
  }

  lemma LongRanking(login: string, n: nat)
    ensures |RankedFor(LongQueue(login, n), 0, None, login)| == n
  {
    var inputs := LongQueue(login, n);
    forall number
      ensures multiset(RankedFor(inputs, 0, None, login))[number] == multiset(inputs.queue)[number]
    {
      LongQueueIsAdmitted(login, n, number);
      hide LongQueue, Pool, KeyFor, Admitted, Rank;
      RankSorts(Pool(inputs), KeyFor(inputs, 0, None, login));
      PoolCounts(inputs, number);
    }
    hide RankedFor;
    SameSize(RankedFor(inputs, 0, None, login), inputs.queue);
  }

  lemma LongQueueIsAdmitted(login: string, n: nat, number: int)
    ensures Admitted(LongQueue(login, n), number)
  {
    hide Normalize, ActiveLogins, AllLabels;
  }

  lemma LongQueueIsEligible(login: string, n: nat, number: int)
    requires login != "" && 0 <= number < n
    ensures JudgeFor(LongQueue(login, n), 0, None, login)(number) == Eligible
  {
    var inputs := LongQueue(login, n);
    assert Lower(login) != "" == Normalize("");
    assert inputs.queue[number] == number;
    assert inputs.entries[number].labels[1..] == [];
    assert TopicLabels(inputs.entries[number].labels, inputs.isTopic) == [Lower("t-data")];
    hide JudgeFor, Normalize, Lower, TopicLabels, AllLabels;
    assert AssigneesOf(inputs, number) == {};
    EligibleByRules(inputs, 0, None, login, number);
  }
}
