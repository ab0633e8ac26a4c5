/** The assignment engine in the terms of the pull request and the reviewers' profiles: who
    may take it, how many of its labels they cover, and who could be asked right now. */
module CandidateRules {
  import opened Options
  import opened Logins
  import opened Sequences
  import opened CandidateEngine

  /** The positions of the topic labels that a reviewer prefers. */
  ghost function CoveredBy(entry: PrEntry, preferred: set<string>, isTopic: Matcher): set<nat>
  {
    set k: nat | k < |entry.labels| && isTopic(entry.labels[k]) && Lower(entry.labels[k]) in preferred
  }

  lemma {:induction false} ScoreOfTopics(labels: seq<string>, preferred: set<string>, isTopic: Matcher,
                                         chosen: set<string>)
    requires forall k :: 0 <= k < |labels| ==>
      (labels[k] in chosen <==> isTopic(labels[k]) && Lower(labels[k]) in preferred)
    ensures Score(TopicLabels(labels, isTopic), preferred) == |PositionsOf(labels, chosen)|
  {
    if labels == [] {
      NoPositions(labels, chosen);
    } else {
      ScoreOfTopics(labels[1..], preferred, isTopic, chosen);
      PositionsInTail(labels, chosen);
      var rest := TopicLabels(labels[1..], isTopic);
      hide PositionsOf, Lower;
      if isTopic(labels[0]) {
        assert TopicLabels(labels, isTopic) == [Lower(labels[0])] + rest;
        assert ([Lower(labels[0])] + rest)[1..] == rest;
      } else {
        assert TopicLabels(labels, isTopic) == rest;
      }
    }
  }

  /** The engine's score is the number of labels covered. */
  lemma ScoreCounts(entry: PrEntry, preferred: set<string>, isTopic: Matcher)
    ensures Score(TopicLabels(entry.labels, isTopic), preferred) == |CoveredBy(entry, preferred, isTopic)|
  {
    var chosen := set name | name in entry.labels && isTopic(name) && Lower(name) in preferred;
    ScoreOfTopics(entry.labels, preferred, isTopic, chosen);
    assert PositionsOf(entry.labels, chosen) == CoveredBy(entry, preferred, isTopic);
  }

  /** Not the author, without a conflict or an excluded label, and covering some label. */
  ghost predicate MayTake(p: Profile, entry: PrEntry, isTopic: Matcher)
  {
    && Normalize(entry.author) != Lower(p.login) && Normalize(entry.author) !in p.conflicts
    && (forall k :: 0 <= k < |entry.labels| && entry.labels[k] != "" ==>
          Normalize(entry.labels[k]) !in p.excludedLabels)
    && CoveredBy(entry, p.preferred, isTopic) != {}
  }

  lemma MatchesExactly(p: Profile, entry: PrEntry, isTopic: Matcher)
    ensures Matches(p, entry, TopicLabels(entry.labels, isTopic)) <==> MayTake(p, entry, isTopic)
  {
    ScoreCounts(entry, p.preferred, isTopic);
    PrefilterMeans(p, entry);
    CarriesExactly(p, entry);
    assert PrefilterReason(p, entry) in {None, Some(Conflict), Some(ExcludedLabel)};
    hide Normalize, Lower, AllLabels, TopicLabels, Score, CoveredBy, PrefilterReason;
  }

  lemma CarriesExactly(p: Profile, entry: PrEntry)
    ensures p.excludedLabels * AllLabels(entry) == {}
      <==> forall k :: 0 <= k < |entry.labels| && entry.labels[k] != "" ==>
             Normalize(entry.labels[k]) !in p.excludedLabels
  {
    hide Normalize;
    if k :| 0 <= k < |entry.labels| && entry.labels[k] != "" && Normalize(entry.labels[k]) in p.excludedLabels {
      assert entry.labels[k] in entry.labels;
      assert Normalize(entry.labels[k]) in p.excludedLabels * AllLabels(entry);
    }
  }

  /** One of the catalog who may take the pull request, whom nobody outdoes in covered labels. */
  ghost predicate IsProposed(catalog: seq<Profile>, k: nat, entry: PrEntry, isTopic: Matcher)
    requires k < |catalog|
  {
    && MayTake(catalog[k], entry, isTopic)
    && forall j :: 0 <= j < |catalog| && MayTake(catalog[j], entry, isTopic) ==>
         |CoveredBy(entry, catalog[j].preferred, isTopic)| <= |CoveredBy(entry, catalog[k].preferred, isTopic)|
  }

  lemma SurvivesAt(catalog: seq<Profile>, k: nat, entry: PrEntry, isTopic: Matcher)
    requires k < |catalog|
    ensures Survives(catalog[k], catalog, entry, TopicLabels(entry.labels, isTopic))
      <==> IsProposed(catalog, k, entry, isTopic)
  {
    var topics := TopicLabels(entry.labels, isTopic);
    forall j | 0 <= j < |catalog|
      ensures Matches(catalog[j], entry, topics) <==> MayTake(catalog[j], entry, isTopic)
      ensures Score(topics, catalog[j].preferred) == |CoveredBy(entry, catalog[j].preferred, isTopic)|
      ensures MayTake(catalog[j], entry, isTopic) ==> |CoveredBy(entry, catalog[j].preferred, isTopic)| > 0
    {
      MatchesExactly(catalog[j], entry, isTopic);
      ScoreCounts(entry, catalog[j].preferred, isTopic);
      hide Matches, TopicLabels, Score;
    }
    hide Matches, MayTake, TopicLabels, Score, CoveredBy;
  }

  /** One of the proposed who could be asked right now: no opt-out or cooldown, room under the
      maximum capacity, active, and below the weekly limit. */
  ghost predicate CouldTake(catalog: seq<Profile>, k: nat, entry: PrEntry, c: Context)
    requires k < |catalog|
  {
    var p := catalog[k];
    && IsProposed(catalog, k, entry, c.isTopic)
    && (forall login :: login in c.excluded && login != "" ==> Normalize(login) != Normalize(p.login))
    && (if p.login in c.loads then c.loads[p.login] else 0.0) < p.maximumCapacity as real
    && p.autoAssign && !p.temporaryBreak
    && (p.weeklyLimit.Some? ==> p.recent + p.simulated < p.weeklyLimit.value)
  }

  lemma CouldTakeExactly(catalog: seq<Profile>, k: nat, entry: PrEntry, c: Context)
    requires k < |catalog|
    ensures Survives(catalog[k], catalog, entry, TopicLabels(entry.labels, c.isTopic)) && IsFree(catalog[k], c)
      <==> CouldTake(catalog, k, entry, c)
  {
    SurvivesAt(catalog, k, entry, c.isTopic);
    hide Survives, IsProposed, Normalize;
  }

  /** The engine's candidate lists, by membership. */
  lemma CandidatesExactly(catalog: seq<Profile>, entry: PrEntry, c: Context, norm: string)
    ensures norm in Potential(catalog, entry, c)
      <==> exists k: nat ::
             k < |catalog| && IsProposed(catalog, k, entry, c.isTopic) && Normalize(catalog[k].login) == norm
    ensures norm in Available(catalog, entry, c)
      <==> exists k: nat :: k < |catalog| && CouldTake(catalog, k, entry, c) && Normalize(catalog[k].login) == norm
  {
    var topics := TopicLabels(entry.labels, c.isTopic);
    forall k: nat | k < |catalog|
      ensures Survives(catalog[k], catalog, entry, topics) <==> IsProposed(catalog, k, entry, c.isTopic)
      ensures Survives(catalog[k], catalog, entry, topics) && IsFree(catalog[k], c) <==> CouldTake(catalog, k, entry, c)
      ensures catalog[k] in catalog
    {
      SurvivesAt(catalog, k, entry, c.isTopic);
      CouldTakeExactly(catalog, k, entry, c);
    }
    hide Survives, IsFree, IsProposed, CouldTake, Normalize, TopicLabels;
    if norm in Potential(catalog, entry, c) {
      var p :| p in catalog && Survives(p, catalog, entry, topics) && Normalize(p.login) == norm;
      var k: nat :| k < |catalog| && catalog[k] == p;
    }
    if norm in Available(catalog, entry, c) {
      var p :| p in catalog && Survives(p, catalog, entry, topics) && IsFree(p, c) && Normalize(p.login) == norm;
      var k: nat :| k < |catalog| && catalog[k] == p;
    }
  }
}
