/** Which reviewers of the catalog could take a pull request, as the assignment engine sees
    it, and why an on-demand requester could not. Of the engine's lists only membership is
    read here, so they are kept in catalog order. */
module CandidateEngine {
  import opened Options
  import opened Logins

  datatype Profile = Profile(
    login: string, maximumCapacity: int, autoAssign: bool, temporaryBreak: bool,
    preferred: set<string>, conflicts: set<string>, weeklyLimit: Option<int>, recent: int, simulated: int,
    excludedLabels: set<string>)

  datatype PrEntry = PrEntry(labels: seq<string>, author: string, assignees: seq<string>)

  type Matcher = string -> bool

  /** What the engine knows besides the catalog: loads by login, and the logins kept from
      the pull request by an opt-out or a cooldown. */
  datatype Context = Context(loads: map<string, real>, excluded: set<string>, isTopic: Matcher)

  // sys.maxsize on a 64-bit platform.
  const MAX_SIZE := 9223372036854775807

  function TopicLabels(labels: seq<string>, isTopic: Matcher): seq<string>
  {
    if labels == [] then []
    else (if isTopic(labels[0]) then [Lower(labels[0])] else []) + TopicLabels(labels[1..], isTopic)
  }

  function AllLabels(entry: PrEntry): set<string>
  {
    set name | name in entry.labels && name != "" :: Normalize(name)
  }

  datatype Prefilter = Conflict | ExcludedLabel

  function PrefilterReason(p: Profile, entry: PrEntry): Option<Prefilter>
  {
    var author := Normalize(entry.author);
    if author in {Lower(p.login)} + p.conflicts then Some(Conflict)
    else if p.excludedLabels * AllLabels(entry) != {} then Some(ExcludedLabel)
    else None
  }

  function Score(topics: seq<string>, preferred: set<string>): nat
  {
    if topics == [] then 0 else (if topics[0] in preferred then 1 else 0) + Score(topics[1..], preferred)
  }

  predicate Matches(p: Profile, entry: PrEntry, topics: seq<string>)
  {
    PrefilterReason(p, entry) == None && Score(topics, p.preferred) > 0
  }

  function MaxScore(catalog: seq<Profile>, entry: PrEntry, topics: seq<string>): (m: nat)
    ensures forall i :: 0 <= i < |catalog| && Matches(catalog[i], entry, topics) ==>
        Score(topics, catalog[i].preferred) <= m
    ensures m > 0 ==> exists i ::
        0 <= i < |catalog| && Matches(catalog[i], entry, topics) && Score(topics, catalog[i].preferred) == m
  {
    if catalog == [] then 0
    else
      var rest := MaxScore(catalog[1..], entry, topics);
      var own := if Matches(catalog[0], entry, topics) then Score(topics, catalog[0].preferred) else 0;
      if own > rest then own else rest
  }

  predicate Survives(p: Profile, catalog: seq<Profile>, entry: PrEntry, topics: seq<string>)
  {
    && Matches(p, entry, topics)
    && var max := MaxScore(catalog, entry, topics);
       max > 1 ==> Score(topics, p.preferred) == max
  }

  function LoadOf(loads: map<string, real>, login: string): real
  {
    if login in loads then loads[login] else 0.0
  }

  predicate WithinRateLimit(p: Profile)
  {
    p.weeklyLimit == None || p.recent + p.simulated < p.weeklyLimit.value
  }

  predicate IsFree(p: Profile, c: Context)
  {
    && (forall login :: login in c.excluded && login != "" ==> Normalize(login) != Normalize(p.login))
    && p.maximumCapacity as real - LoadOf(c.loads, p.login) > 0.0
    && p.autoAssign && !p.temporaryBreak && WithinRateLimit(p)
  }

  // The normalized logins of the candidates before and after the availability filters.
  function Potential(catalog: seq<Profile>, entry: PrEntry, c: Context): set<string>
  {
    var topics := TopicLabels(entry.labels, c.isTopic);
    set p | p in catalog && Survives(p, catalog, entry, topics) :: Normalize(p.login)
  }

  function Available(catalog: seq<Profile>, entry: PrEntry, c: Context): set<string>
  {
    var topics := TopicLabels(entry.labels, c.isTopic);
    set p | p in catalog && Survives(p, catalog, entry, topics) && IsFree(p, c) :: Normalize(p.login)
  }

  // ---- The request ----------------------------------------------------------------------------------------

  /** The requester's profile with the push throttles forced open and, for a label
      override, the labels replaced. */
  function Override(p: Profile, labels: Option<set<string>>): Profile
  {
    p.(autoAssign := true, temporaryBreak := false, maximumCapacity := MAX_SIZE, weeklyLimit := None,
       preferred := if labels.Some? then labels.value else p.preferred)
  }

  function Substitute(reviewers: seq<Profile>, requester: Profile, norm: string): (catalog: seq<Profile>)
    ensures |catalog| == |reviewers|
    ensures forall i :: 0 <= i < |reviewers| ==>
      catalog[i] == if Normalize(reviewers[i].login) == norm then requester else reviewers[i]
  {
    seq(|reviewers|, i requires 0 <= i < |reviewers| =>
      if Normalize(reviewers[i].login) == norm then requester else reviewers[i])
  }

  // ---- Why a pull request was skipped ------------------------------------------------------------------

  datatype Skip =
    | AlreadyAssigned | NoTopicLabel | Authored | ConflictOfInterest | CarriesExcludedLabel
    | NoAreaMatch | Outranked | KeptOut

  predicate MatchesNoArea(p: Profile, topics: seq<string>)
  {
    forall i :: 0 <= i < |topics| ==> topics[i] !in p.preferred
  }

  function ClassifySkip(entry: PrEntry, requester: Profile, norm: string, potential: set<string>,
                        isTopic: Matcher): Skip
  {
    var topics := TopicLabels(entry.labels, isTopic);
    if topics == [] then NoTopicLabel
    else if Normalize(entry.author) == norm then Authored
    else
      match PrefilterReason(requester, entry)
      case Some(Conflict) => ConflictOfInterest
      case Some(ExcludedLabel) => CarriesExcludedLabel
      case None =>
        if MatchesNoArea(requester, topics) then NoAreaMatch
        else if norm !in potential then Outranked
        else KeptOut
  }

  /** The catalog of a request: somebody in it is the requester, every entry under the
      requester's login is that same profile, and it is throttled by nothing. */
  ghost predicate IsRequestCatalog(catalog: seq<Profile>, requester: Profile, norm: string)
  {
    && requester in catalog
    && Normalize(requester.login) == norm
    && (forall i :: 0 <= i < |catalog| && Normalize(catalog[i].login) == norm ==> catalog[i] == requester)
    && requester.autoAssign && !requester.temporaryBreak && requester.weeklyLimit == None
    && requester.maximumCapacity == MAX_SIZE
  }

  lemma SubstituteMakesRequestCatalog(reviewers: seq<Profile>, i: nat, labels: Option<set<string>>, norm: string)
    requires i < |reviewers| && Normalize(reviewers[i].login) == norm
    ensures var requester := Override(reviewers[i], labels);
            IsRequestCatalog(Substitute(reviewers, requester, norm), requester, norm)
  {
    var requester := Override(reviewers[i], labels);
    hide Normalize;
    assert Substitute(reviewers, requester, norm)[i] == requester;
  }

  ghost predicate IsKeptOut(p: Profile, c: Context)
  {
    exists login :: login in c.excluded && login != "" && Normalize(login) == Normalize(p.login)
  }

  // Somebody else who may review the pull request covers more of its labels.
  ghost predicate IsOutranked(catalog: seq<Profile>, p: Profile, entry: PrEntry, topics: seq<string>)
  {
    exists i :: 0 <= i < |catalog| && Normalize(catalog[i].login) != Normalize(p.login)
      && Matches(catalog[i], entry, topics) && Score(topics, catalog[i].preferred) > Score(topics, p.preferred)
  }

  lemma {:induction false} ScoreZero(topics: seq<string>, preferred: set<string>)
    ensures Score(topics, preferred) == 0 <==> forall i :: 0 <= i < |topics| ==> topics[i] !in preferred
  {
    if topics != [] {
      ScoreZero(topics[1..], preferred);
      assert forall i :: 0 < i < |topics| ==> topics[i] == topics[1..][i - 1];
    }
  }

  lemma SurvivesExactly(catalog: seq<Profile>, requester: Profile, norm: string, entry: PrEntry, topics: seq<string>)
    requires IsRequestCatalog(catalog, requester, norm)
    ensures Survives(requester, catalog, entry, topics)
      <==> Matches(requester, entry, topics) && !IsOutranked(catalog, requester, entry, topics)
  {
    hide Normalize, PrefilterReason, Score;
    var max := MaxScore(catalog, entry, topics);
    if max > 1 {
      var i :| 0 <= i < |catalog| && Matches(catalog[i], entry, topics) && Score(topics, catalog[i].preferred) == max;
      assert Normalize(catalog[i].login) == norm ==> catalog[i] == requester;
    }
    var k :| 0 <= k < |catalog| && catalog[k] == requester;
  }

  lemma InPotential(catalog: seq<Profile>, requester: Profile, norm: string, entry: PrEntry, c: Context)
    requires IsRequestCatalog(catalog, requester, norm)
    ensures norm in Potential(catalog, entry, c)
      <==> Survives(requester, catalog, entry, TopicLabels(entry.labels, c.isTopic))
    ensures norm in Available(catalog, entry, c)
      <==> Survives(requester, catalog, entry, TopicLabels(entry.labels, c.isTopic)) && IsFree(requester, c)
  {
    hide Normalize, Survives, IsFree, TopicLabels;
    var k :| 0 <= k < |catalog| && catalog[k] == requester;
    forall p | p in catalog && Normalize(p.login) == norm
      ensures p == requester
    {
      var i :| 0 <= i < |catalog| && catalog[i] == p;
    }
  }

  /** Whether a skip reason really speaks against the requester. */
  ghost predicate Applies(skip: Skip, catalog: seq<Profile>, requester: Profile, norm: string, entry: PrEntry,
                          c: Context)
  {
    var topics := TopicLabels(entry.labels, c.isTopic);
    match skip
    case AlreadyAssigned => false
    case NoTopicLabel => topics == []
    case Authored => Normalize(entry.author) == norm
    case ConflictOfInterest => Normalize(entry.author) in requester.conflicts
    case CarriesExcludedLabel => requester.excludedLabels * AllLabels(entry) != {}
    case NoAreaMatch => MatchesNoArea(requester, topics)
    case Outranked => IsOutranked(catalog, requester, entry, topics)
    case KeptOut => IsKeptOut(requester, c)
  }

  lemma FreeUnlessKeptOut(requester: Profile, c: Context)
    requires requester.autoAssign && !requester.temporaryBreak && requester.weeklyLimit == None
    requires requester.maximumCapacity == MAX_SIZE && LoadOf(c.loads, requester.login) < MAX_SIZE as real
    ensures IsFree(requester, c) <==> !IsKeptOut(requester, c)
  {
    hide LoadOf, Normalize;
  }

  lemma AvailableExactly(catalog: seq<Profile>, requester: Profile, norm: string, entry: PrEntry, c: Context)
    requires IsRequestCatalog(catalog, requester, norm) && LoadOf(c.loads, requester.login) < MAX_SIZE as real
    ensures var topics := TopicLabels(entry.labels, c.isTopic);
            && (norm in Available(catalog, entry, c)
                <==> (&& PrefilterReason(requester, entry) == None
                      && !MatchesNoArea(requester, topics)
                      && !IsOutranked(catalog, requester, entry, topics)
                      && !IsKeptOut(requester, c)))
            && (PrefilterReason(requester, entry) == None && !MatchesNoArea(requester, topics) ==>
                  (norm in Potential(catalog, entry, c) <==> !IsOutranked(catalog, requester, entry, topics)))
  {
    var topics := TopicLabels(entry.labels, c.isTopic);
    InPotential(catalog, requester, norm, entry, c);
    SurvivesExactly(catalog, requester, norm, entry, topics);
    ScoreZero(topics, requester.preferred);
    FreeUnlessKeptOut(requester, c);
    hide Normalize, Potential, Available, TopicLabels, PrefilterReason, Score, IsOutranked, IsKeptOut, IsFree, Survives,
      LoadOf, IsRequestCatalog;
  }

  /** Each of the rules keeps the requester from the pull request when it applies. Logins
      carry no surrounding white space, and no load comes near the overridden capacity. */
  lemma EveryRuleExcludes(skip: Skip, catalog: seq<Profile>, requester: Profile, norm: string, entry: PrEntry,
                          c: Context)
    requires IsRequestCatalog(catalog, requester, norm)
    requires Lower(requester.login) == norm && LoadOf(c.loads, requester.login) < MAX_SIZE as real
    requires Applies(skip, catalog, requester, norm, entry, c)
    ensures norm !in Available(catalog, entry, c)
  {
    AvailableExactly(catalog, requester, norm, entry, c);
    hide Normalize, Lower, Potential, Available, TopicLabels, AllLabels, IsOutranked, IsKeptOut, LoadOf,
        IsRequestCatalog;
  }

  lemma PrefilterMeans(p: Profile, entry: PrEntry)
    ensures PrefilterReason(p, entry) == Some(Conflict)
      <==> Normalize(entry.author) == Lower(p.login) || Normalize(entry.author) in p.conflicts
    ensures PrefilterReason(p, entry) == Some(ExcludedLabel) ==> p.excludedLabels * AllLabels(entry) != {}
    ensures PrefilterReason(p, entry) == None ==> p.excludedLabels * AllLabels(entry) == {}
  {
    hide Normalize, Lower, AllLabels;
  }

  lemma ClassifyMeans(entry: PrEntry, requester: Profile, norm: string, potential: set<string>, isTopic: Matcher)
    ensures
      var skip, topics := ClassifySkip(entry, requester, norm, potential, isTopic), TopicLabels(entry.labels, isTopic);
            var reason := PrefilterReason(requester, entry);
            && skip != AlreadyAssigned
            && (skip == NoTopicLabel ==> topics == [])
            && (skip == Authored ==> Normalize(entry.author) == norm)
            && (skip == ConflictOfInterest ==> reason == Some(Conflict) && Normalize(entry.author) != norm)
            && (skip == CarriesExcludedLabel ==> reason == Some(ExcludedLabel))
            && (skip == NoAreaMatch ==> MatchesNoArea(requester, topics))
            && (skip in {Outranked, KeptOut} ==> reason == None && !MatchesNoArea(requester, topics))
            && (skip == Outranked ==> norm !in potential)
            && (skip == KeptOut ==> norm in potential)
  {
    hide Normalize, TopicLabels, MatchesNoArea, PrefilterReason;
  }

  /** When the engine keeps the requester from a pull request, the reason the classifier
      gives really applies: it never blames the wrong rule, and its last reason, opted out
      or on cooldown, is not just what is left. */
  lemma SkipReasonIsTrue(catalog: seq<Profile>, requester: Profile, norm: string, entry: PrEntry, c: Context)
    requires IsRequestCatalog(catalog, requester, norm)
    requires LoadOf(c.loads, requester.login) < MAX_SIZE as real && Lower(requester.login) == norm
    requires norm !in Available(catalog, entry, c)
    ensures Applies(ClassifySkip(entry, requester, norm, Potential(catalog, entry, c), c.isTopic), catalog, requester,
        norm, entry, c)
  {
    AvailableExactly(catalog, requester, norm, entry, c);
    PrefilterMeans(requester, entry);
    ClassifyMeans(entry, requester, norm, Potential(catalog, entry, c), c.isTopic);
    hide ClassifySkip, Normalize, Lower, Potential, Available, TopicLabels, AllLabels, IsOutranked, IsKeptOut, LoadOf,
        IsRequestCatalog, MatchesNoArea, PrefilterReason;
  }

  /** And it names the first such rule in the engine's order: no earlier one applies. */
  lemma SkipReasonIsFirst(catalog: seq<Profile>, requester: Profile, norm: string, entry: PrEntry, c: Context,
                          earlier: Skip)
    requires IsRequestCatalog(catalog, requester, norm) && Lower(requester.login) == norm
    requires Order(earlier) < Order(ClassifySkip(entry, requester, norm, Potential(catalog, entry, c), c.isTopic))
    ensures !Applies(earlier, catalog, requester, norm, entry, c)
  {
    var topics := TopicLabels(entry.labels, c.isTopic);
    InPotential(catalog, requester, norm, entry, c);
    SurvivesExactly(catalog, requester, norm, entry, topics);
    EarlierRulesPassed(entry, requester, norm, Potential(catalog, entry, c), c.isTopic);
    hide ClassifySkip, Normalize, Lower, Potential, Available, TopicLabels, AllLabels, IsOutranked, IsKeptOut,
        Survives, LoadOf, IsRequestCatalog, MatchesNoArea, PrefilterReason;
  }

  // What a reason says about the rules before its own.
  lemma EarlierRulesPassed(entry: PrEntry, requester: Profile, norm: string, potential: set<string>, isTopic: Matcher)
    requires Lower(requester.login) == norm
    ensures var order := Order(ClassifySkip(entry, requester, norm, potential, isTopic));
            var topics := TopicLabels(entry.labels, isTopic);
            && order <= 7
            && (order > 1 ==> topics != [])
            && (order > 2 ==> Normalize(entry.author) != norm)
            && (order > 3 ==> Normalize(entry.author) !in requester.conflicts)
            && (order > 4 ==> requester.excludedLabels * AllLabels(entry) == {})
            && (order > 5 ==> !MatchesNoArea(requester, topics))
            && (order > 6 ==> norm in potential)
  {
    PrefilterMeans(requester, entry);
    hide Normalize, Lower, TopicLabels, AllLabels, MatchesNoArea, PrefilterReason;
  }

  function Order(skip: Skip): nat
  {
    match skip
    case AlreadyAssigned => 0
    case NoTopicLabel => 1
    case Authored => 2
    case ConflictOfInterest => 3
    case CarriesExcludedLabel => 4
    case NoAreaMatch => 5
    case Outranked => 6
    case KeptOut => 7
  }
}
