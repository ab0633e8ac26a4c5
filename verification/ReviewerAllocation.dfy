/** Suggesting reviewers for a list of pull requests, one after the other: each suggestion
    adds one to the reviewer's weighted load and so bears on the following ones. The random
    choice among available reviewers is an arbitrary one, given from outside. */
module ReviewerAllocation {
  import opened Options
  import opened Sequences

  datatype Reviewer = Reviewer(
    github: string, topLevel: seq<string>, maximumCapacity: int,
    isOnRotation: bool, isTemporarilyOff: bool, conflicts: seq<string>)

  datatype PrInfo = PrInfo(labels: seq<string>, author: string)

  // Weighted numbers of assigned pull requests, by login; no entry means no assignment yet.
  type Loads = map<string, real>

  // A reviewer with the number of the pull request's labels in their field.
  datatype Match = Match(reviewer: Reviewer, score: nat)

  datatype Suggestion = Suggestion(potential: seq<string>, available: seq<string>, suggested: Option<string>)

  function LoadOf(loads: Loads, login: string): real
  {
    if login in loads then loads[login] else 0.0
  }

  // ---- Who matches -----------------------------------------------------------------------------------

  function Score(labels: seq<string>, topLevel: seq<string>): nat
  {
    if labels == [] then 0 else (if labels[0] in topLevel then 1 else 0) + Score(labels[1..], topLevel)
  }

  // With labels, the reviewer's own handle is looked up in the reviewer's conflict list;
  // without labels, conflict lists play no part.
  predicate MayReview(reviewer: Reviewer, labels: seq<string>, author: string)
  {
    if labels == [] then reviewer.github != author
    else reviewer.github !in [author] + reviewer.conflicts
  }

  function Matching(reviewers: seq<Reviewer>, labels: seq<string>, author: string): (matching: seq<Match>)
    ensures |matching| <= |reviewers|
  {
    if reviewers == [] then []
    else
      var rest := Matching(reviewers[1..], labels, author);
      if MayReview(reviewers[0], labels, author) then [MatchOf(reviewers[0], labels)] + rest else rest
  }

  function MatchOf(reviewer: Reviewer, labels: seq<string>): Match
  {
    Match(reviewer, Score(labels, reviewer.topLevel))
  }

  /** The positions of the labels that lie in a reviewer's field, a repeated label counting
      as often as it occurs. */
  ghost function Covered(labels: seq<string>, topLevel: seq<string>): set<nat>
  {
    PositionsOf(labels, set area | area in topLevel)
  }

  lemma {:induction false} ScoreCounts(labels: seq<string>, topLevel: seq<string>)
    ensures Score(labels, topLevel) == |Covered(labels, topLevel)|
  {
    var field := set area | area in topLevel;
    if labels == [] {
      NoPositions(labels, field);
    } else {
      ScoreCounts(labels[1..], topLevel);
      PositionsInTail(labels, field);
    }
  }

  /** The loop that collects the matching reviewers of a labelled pull request: everybody but
      the author and those who list their own handle, with the number of labels they cover. */
  method CollectMatching(reviewers: seq<Reviewer>, labels: seq<string>, author: string) returns (matching: seq<Match>)
    requires labels != []
    ensures matching == Matching(reviewers, labels, author)
    ensures forall reviewer, score :: Match(reviewer, score) in matching <==>
      && reviewer in reviewers && reviewer.github != author && reviewer.github !in reviewer.conflicts
      && score == |Covered(labels, reviewer.topLevel)|
  {
    matching := [];
    for i := 0 to |reviewers|
      invariant Matching(reviewers, labels, author) == matching + Matching(reviewers[i..], labels, author)
    {
      assert reviewers[i..][0] == reviewers[i] && reviewers[i..][1..] == reviewers[i + 1..];
      var score := 0;
      for k := 0 to |labels|
        invariant Score(labels, reviewers[i].topLevel) == score + Score(labels[k..], reviewers[i].topLevel)
      {
        assert labels[k..][0] == labels[k] && labels[k..][1..] == labels[k + 1..];
        score := score + if labels[k] in reviewers[i].topLevel then 1 else 0;
      }
      if reviewers[i].github !in [author] + reviewers[i].conflicts {
        matching := matching + [Match(reviewers[i], score)];
      }
    }
    hide Covered;
    forall reviewer, score
      ensures Match(reviewer, score) in matching <==>
        && reviewer in reviewers && reviewer.github != author && reviewer.github !in reviewer.conflicts
        && score == |Covered(labels, reviewer.topLevel)|
    {
      MatchingMembers(reviewers, labels, author, Match(reviewer, score));
      ScoreCounts(labels, reviewer.topLevel);
    }
  }

  function MaxScore(matching: seq<Match>): (m: nat)
    ensures forall i :: 0 <= i < |matching| ==> matching[i].score <= m
    ensures matching != [] ==> exists i :: 0 <= i < |matching| && matching[i].score == m
  {
    if matching == [] then 0
    else
      var rest := MaxScore(matching[1..]);
      if matching[0].score >= rest then matching[0].score else rest
  }

  // The matches with a given score, or with any positive one.
  function WithScore(matching: seq<Match>, score: Option<nat>): (r: seq<Match>)
    ensures forall i :: 0 <= i < |r| ==> r[i] in matching && Wanted(r[i], score)
    ensures forall i :: 0 <= i < |matching| && Wanted(matching[i], score) ==> matching[i] in r
  {
    if matching == [] then []
    else if Wanted(matching[0], score) then [matching[0]] + WithScore(matching[1..], score)
    else WithScore(matching[1..], score)
  }

  predicate Wanted(m: Match, score: Option<nat>)
  {
    match score
    case Some(n) => m.score == n
    case None => m.score > 0
  }

  function AllUnscored(reviewers: seq<Reviewer>): (r: seq<Match>)
    ensures |r| == |reviewers|
    ensures forall i :: 0 <= i < |reviewers| ==> r[i] == Match(reviewers[i], 0)
  {
    seq(|reviewers|, i requires 0 <= i < |reviewers| => Match(reviewers[i], 0))
  }

  // The reviewers proposed when several match. Without labels everybody is readmitted.
  function Proposed(reviewers: seq<Reviewer>, labels: seq<string>, author: string): seq<Match>
  {
    var matching := Matching(reviewers, labels, author);
    if labels == [] then AllUnscored(reviewers)
    else if MaxScore(matching) > 1 then WithScore(matching, Some(MaxScore(matching)))
    else WithScore(matching, None)
  }

  // ---- Who is free --------------------------------------------------------------------------------------

  function Busy(m: Match, loads: Loads): real
  {
    LoadOf(loads, m.reviewer.github)
  }

  function LessBusy(loads: Loads): (Match, Match) -> bool
  {
    (a, b) => Busy(a, loads) < Busy(b, loads)
  }

  // A stable sort, less busy reviewers first.
  function SortByLoad(matches: seq<Match>, loads: Loads): seq<Match>
  {
    Sort(matches, LessBusy(loads))
  }

  predicate HasCapacity(reviewer: Reviewer, loads: Loads)
  {
    && LoadOf(loads, reviewer.github) < reviewer.maximumCapacity as real
    && reviewer.isOnRotation && !reviewer.isTemporarilyOff
  }

  function Available(matches: seq<Match>, loads: Loads): (r: seq<Match>)
    ensures forall i :: 0 <= i < |r| ==> r[i] in matches && HasCapacity(r[i].reviewer, loads)
    ensures forall i :: 0 <= i < |matches| && HasCapacity(matches[i].reviewer, loads) ==> matches[i] in r
  {
    if matches == [] then []
    else if HasCapacity(matches[0].reviewer, loads) then [matches[0]] + Available(matches[1..], loads)
    else Available(matches[1..], loads)
  }

  function Handles(matches: seq<Match>): (r: seq<string>)
    ensures |r| == |matches| && forall i :: 0 <= i < |matches| ==> r[i] == matches[i].reviewer.github
  {
    seq(|matches|, i requires 0 <= i < |matches| => matches[i].reviewer.github)
  }

  // The random draw: any pick leads to some element, and every element has a pick.
  function Drawn(handles: seq<string>, pick: nat): (drawn: Option<string>)
    ensures drawn == None <==> handles == []
    ensures drawn.Some? ==> drawn.value in handles
  {
    if handles == [] then None else Some(handles[pick % |handles|])
  }

  function Suggest(loads: Loads, reviewers: seq<Reviewer>, labels: seq<string>, author: string, pick: nat): Suggestion
  {
    var matching := Matching(reviewers, labels, author);
    if matching == [] then Suggestion([], [], None)
    else if |matching| == 1 then
      var handle := matching[0].reviewer.github;
      Suggestion([handle], [handle], Some(handle))
    else
      var sorted := SortByLoad(Proposed(reviewers, labels, author), loads);
      var available := Handles(Available(sorted, loads));
      Suggestion(Handles(sorted), available, Drawn(available, pick))
  }

  predicate IsAtMaximumCapacity(loads: Loads, reviewers: seq<Reviewer>, area: string)
  {
    Suggest(loads, reviewers, [area], "", 0).suggested == None
  }

  predicate IsTopic(name: string)
  {
    name in ["CI", "IMO", "tech debt"] || "t-" <= name
  }

  function TopicLabels(labels: seq<string>): seq<string>
  {
    if labels == [] then []
    else (if IsTopic(labels[0]) then [labels[0]] else []) + TopicLabels(labels[1..])
  }

  lemma IsTopicExactly(name: string)
    ensures IsTopic(name) <==>
      name == "CI" || name == "IMO" || name == "tech debt" || (|name| >= 2 && name[0] == 't' && name[1] == '-')
  {
  }

  lemma {:induction false} TopicLabelsCount(labels: seq<string>, name: string)
    ensures multiset(TopicLabels(labels))[name] == if IsTopic(name) then multiset(labels)[name] else 0
  {
    hide IsTopic;
    if labels == [] {
    } else {
      TopicLabelsCount(labels[1..], name);
      assert labels == [labels[0]] + labels[1..];
    }
  }

  /** The topic labels of a pull request: three by name, and those in an area "t-...", each as
      often as it is given. */
  lemma TopicLabelsExactly(labels: seq<string>, name: string)
    ensures multiset(TopicLabels(labels))[name]
         == if name == "CI" || name == "IMO" || name == "tech debt"
               || (|name| >= 2 && name[0] == 't' && name[1] == '-')
            then multiset(labels)[name] else 0
  {
    hide TopicLabels, IsTopic;
    IsTopicExactly(name);
    TopicLabelsCount(labels, name);
  }

  function SuggestFor(loads: Loads, reviewers: seq<Reviewer>, info: PrInfo, pick: nat): Suggestion
  {
    Suggest(loads, reviewers, TopicLabels(info.labels), info.author, pick)
  }

  // ---- The list of potential reviewers ----------------------------------------------------------------

  predicate SortedByLoad(matches: seq<Match>, loads: Loads)
  {
    forall i, j :: 0 <= i < j < |matches| ==>
      LoadOf(loads, matches[i].reviewer.github) <= LoadOf(loads, matches[j].reviewer.github)
  }

  /** Potential reviewers are ranked, less busy ones first, and are the proposed ones. */
  lemma SortRanks(matches: seq<Match>, loads: Loads)
    ensures SortedByLoad(SortByLoad(matches, loads), loads)
    ensures multiset(SortByLoad(matches, loads)) == multiset(matches)
  {
    SortSorts(matches, LessBusy(loads));
  }

  /** The listed handles come in that order. */
  lemma ListedByLoad(loads: Loads, reviewers: seq<Reviewer>, labels: seq<string>, author: string, pick: nat, i: nat,
                     j: nat)
    requires i < j < |Suggest(loads, reviewers, labels, author, pick).potential|
    ensures var potential := Suggest(loads, reviewers, labels, author, pick).potential;
            LoadOf(loads, potential[i]) <= LoadOf(loads, potential[j])
  {
    SortRanks(Proposed(reviewers, labels, author), loads);
    hide Proposed, Matching, SortByLoad, Available;
  }

  lemma RankedMembers(matches: seq<Match>, loads: Loads, m: Match)
    ensures m in SortByLoad(matches, loads) <==> m in matches
  {
    SortedMembers(matches, LessBusy(loads), m);
  }

  // ---- Who is proposed ---------------------------------------------------------------------------------

  lemma {:induction false} MatchingMembers(reviewers: seq<Reviewer>, labels: seq<string>, author: string, m: Match)
    ensures m in Matching(reviewers, labels, author)
      <==> exists i ::
          0 <= i < |reviewers| && MayReview(reviewers[i], labels, author) && m == MatchOf(reviewers[i], labels)
  {
    hide MayReview, MatchOf;
    if reviewers != [] {
      MatchingMembers(reviewers[1..], labels, author, m);
      assert forall i :: 0 <= i < |reviewers[1..]| ==> reviewers[1..][i] == reviewers[i + 1];
      assert forall i :: 0 < i < |reviewers| ==> reviewers[i] == reviewers[1..][i - 1];
    }
  }

  // The entries behind the potential reviewers, before ranking.
  function Potential(reviewers: seq<Reviewer>, labels: seq<string>, author: string): seq<Match>
  {
    var matching := Matching(reviewers, labels, author);
    if |matching| <= 1 then matching else Proposed(reviewers, labels, author)
  }

  /** No other admissible reviewer covers more of the labels, a single label counting as much
      as none when it comes to outdoing others. */
  ghost predicate CoversMost(reviewers: seq<Reviewer>, labels: seq<string>, author: string, i: nat)
    requires i < |reviewers|
  {
    var covered := |Covered(labels, reviewers[i].topLevel)|;
    && covered > 0
    && forall j :: 0 <= j < |reviewers| && MayReview(reviewers[j], labels, author) ==>
         |Covered(labels, reviewers[j].topLevel)| <= if covered > 1 then covered else 1
  }

  lemma ScoreBounds(reviewers: seq<Reviewer>, labels: seq<string>, author: string, bound: nat)
    ensures MaxScore(Matching(reviewers, labels, author)) <= bound
      <==> forall j :: 0 <= j < |reviewers| && MayReview(reviewers[j], labels, author) ==>
             |Covered(labels, reviewers[j].topLevel)| <= bound
  {
    forall j | 0 <= j < |reviewers|
      ensures Score(labels, reviewers[j].topLevel) == |Covered(labels, reviewers[j].topLevel)|
    {
      ScoreCounts(labels, reviewers[j].topLevel);
    }
    hide Score, MayReview, Covered;
    var matching := Matching(reviewers, labels, author);
    forall j | 0 <= j < |reviewers| && MayReview(reviewers[j], labels, author)
      ensures MatchOf(reviewers[j], labels) in matching
    {
      MatchingMembers(reviewers, labels, author, MatchOf(reviewers[j], labels));
    }
    if matching != [] {
      var k :| 0 <= k < |matching| && matching[k].score == MaxScore(matching);
      MatchingMembers(reviewers, labels, author, matching[k]);
    }
  }

  /** Who is proposed for a labelled pull request that several reviewers match: exactly the
      admissible reviewers who cover the most labels. */
  lemma ProposedExactly(reviewers: seq<Reviewer>, labels: seq<string>, author: string, i: nat)
    requires labels != [] && i < |reviewers|
    ensures MatchOf(reviewers[i], labels) in Proposed(reviewers, labels, author)
      <==> MayReview(reviewers[i], labels, author) && CoversMost(reviewers, labels, author, i)
  {
    var matching := Matching(reviewers, labels, author);
    var m := MatchOf(reviewers[i], labels);
    MatchingMembers(reviewers, labels, author, m);
    ScoreBounds(reviewers, labels, author, 1);
    ScoreBounds(reviewers, labels, author, m.score);
    ScoreCounts(labels, reviewers[i].topLevel);
    hide MayReview, Score, Matching, Covered;
  }

  lemma PotentialHandles(loads: Loads, reviewers: seq<Reviewer>, labels: seq<string>, author: string, pick: nat,
                         handle: string)
    ensures handle in Suggest(loads, reviewers, labels, author, pick).potential
      <==> exists k :: 0 <= k < |Potential(reviewers, labels, author)|
             && Potential(reviewers, labels, author)[k].reviewer.github == handle
  {
    var potential := Potential(reviewers, labels, author);
    if |Matching(reviewers, labels, author)| > 1 {
      var sorted := SortByLoad(potential, loads);
      hide Proposed, Matching, SortByLoad;
      if handle in Handles(sorted) {
        var k :| 0 <= k < |sorted| && sorted[k].reviewer.github == handle;
        RankedMembers(potential, loads, sorted[k]);
      }
      if k :| 0 <= k < |potential| && potential[k].reviewer.github == handle {
        RankedMembers(potential, loads, potential[k]);
        var j :| 0 <= j < |sorted| && sorted[j] == potential[k];
        assert Handles(sorted)[j] == handle;
      }
    }
  }

  /** On a labelled pull request the author is never a potential reviewer, nor is a
      reviewer who lists their own handle as a conflict. */
  lemma LabelledExcludes(loads: Loads, reviewers: seq<Reviewer>, labels: seq<string>, author: string, pick: nat,
                         handle: string)
    requires labels != [] && handle in Suggest(loads, reviewers, labels, author, pick).potential
    ensures handle != author
    ensures exists i :: 0 <= i < |reviewers| && reviewers[i].github == handle && handle !in reviewers[i].conflicts
  {
    PotentialHandles(loads, reviewers, labels, author, pick, handle);
    var potential := Potential(reviewers, labels, author);
    var k :| 0 <= k < |potential| && potential[k].reviewer.github == handle;
    assert potential[k] in Matching(reviewers, labels, author);
    MatchingMembers(reviewers, labels, author, potential[k]);
  }

  // Reviewer i is the only one who may review the pull request.
  ghost predicate IsOnlyMatch(reviewers: seq<Reviewer>, labels: seq<string>, author: string, i: nat)
    requires i < |reviewers|
  {
    && MayReview(reviewers[i], labels, author)
    && forall j :: 0 <= j < |reviewers| && j != i ==> !MayReview(reviewers[j], labels, author)
  }

  lemma {:induction false} NoMatches(reviewers: seq<Reviewer>, labels: seq<string>, author: string)
    ensures Matching(reviewers, labels, author) == []
      <==> forall j :: 0 <= j < |reviewers| ==> !MayReview(reviewers[j], labels, author)
  {
    hide MayReview, MatchOf;
    if reviewers != [] {
      NoMatches(reviewers[1..], labels, author);
      assert forall j :: 0 < j < |reviewers| ==> reviewers[j] == reviewers[1..][j - 1];
    }
  }

  lemma {:induction false} OneMatch(reviewers: seq<Reviewer>, labels: seq<string>, author: string, i: nat)
    requires i < |reviewers|
    ensures |Matching(reviewers, labels, author)| == 1 && MayReview(reviewers[i], labels, author)
      <==> IsOnlyMatch(reviewers, labels, author, i)
  {
    hide MayReview, MatchOf;
    NoMatches(reviewers[1..], labels, author);
    assert forall j :: 0 < j < |reviewers| ==> reviewers[j] == reviewers[1..][j - 1];
    if i > 0 {
      OneMatch(reviewers[1..], labels, author, i - 1);
    }
  }

  /** Having the author in one's conflict list makes no difference: such a reviewer is listed
      exactly when nothing else speaks against them. */
  lemma ConflictsWithAuthorAreIgnored(reviewers: seq<Reviewer>, labels: seq<string>, author: string, i: nat)
    requires labels != [] && i < |reviewers| && author in reviewers[i].conflicts
    ensures MatchOf(reviewers[i], labels) in Potential(reviewers, labels, author)
      <==> (&& reviewers[i].github != author
            && reviewers[i].github !in reviewers[i].conflicts
            && (IsOnlyMatch(reviewers, labels, author, i) || CoversMost(reviewers, labels, author, i)))
  {
    var m := MatchOf(reviewers[i], labels);
    MatchingMembers(reviewers, labels, author, m);
    ProposedExactly(reviewers, labels, author, i);
    OneMatch(reviewers, labels, author, i);
    hide CoversMost, Proposed, Matching, IsOnlyMatch;
  }

  /** A conflicted reviewer is suggested: the author is in the only reviewer's conflict list. */
  lemma ConflictedReviewerIsSuggested(loads: Loads, pick: nat)
    ensures var ann := Reviewer("ann", ["t-data"], 10, true, false, ["bob"]);
            Suggest(loads, [ann], ["t-data"], "bob", pick).suggested == Some("ann")
  {
    var ann := Reviewer("ann", ["t-data"], 10, true, false, ["bob"]);
    assert MayReview(ann, ["t-data"], "bob") by {
      assert "ann" != "bob";
    }
    assert Matching([ann][1..], ["t-data"], "bob") == [];
    assert |Matching([ann], ["t-data"], "bob")| == 1;
  }

  /** Without labels everybody is a potential reviewer as soon as two reviewers other than
      the author exist: the author included, conflicts or not. */
  lemma UnlabelledReadmits(loads: Loads, reviewers: seq<Reviewer>, author: string, pick: nat, handle: string)
    ensures handle in Suggest(loads, reviewers, [], author, pick).potential
      <==> (&& (exists i :: 0 <= i < |reviewers| && reviewers[i].github == handle)
            && (handle == author ==> |Matching(reviewers, [], author)| >= 2))
  {
    PotentialHandles(loads, reviewers, [], author, pick, handle);
    var potential := Potential(reviewers, [], author);
    if |Matching(reviewers, [], author)| <= 1 {
      if k :| 0 <= k < |potential| && potential[k].reviewer.github == handle {
        MatchingMembers(reviewers, [], author, potential[k]);
      }
      if i :| 0 <= i < |reviewers| && reviewers[i].github == handle && handle != author {
        MatchingMembers(reviewers, [], author, MatchOf(reviewers[i], []));
        assert MatchOf(reviewers[i], []) in potential;
      }
    } else {
      assert potential == AllUnscored(reviewers);
    }
  }

  // ---- Who is suggested --------------------------------------------------------------------------------

  /** With several matching reviewers the suggested one has capacity left and is on the
      rotation, so the weights of the random choice, the remaining capacities, are positive;
      nobody is suggested exactly when no proposed reviewer is free. */
  lemma SuggestedIsFree(loads: Loads, reviewers: seq<Reviewer>, labels: seq<string>, author: string, pick: nat)
    requires |Matching(reviewers, labels, author)| >= 2
    ensures var s := Suggest(loads, reviewers, labels, author, pick).suggested;
            var proposed := Proposed(reviewers, labels, author);
            && (s.Some? ==> exists k :: 0 <= k < |proposed| && proposed[k].reviewer.github == s.value
                              && HasCapacity(proposed[k].reviewer, loads))
            && (s == None <==> forall k :: 0 <= k < |proposed| ==> !HasCapacity(proposed[k].reviewer, loads))
  {
    var proposed := Proposed(reviewers, labels, author);
    var sorted := SortByLoad(proposed, loads);
    var free := Available(sorted, loads);
    hide Proposed, SortByLoad, HasCapacity, Available;
    forall k | 0 <= k < |free|
      ensures free[k] in proposed
    {
      RankedMembers(proposed, loads, free[k]);
    }
    forall k | 0 <= k < |proposed| && HasCapacity(proposed[k].reviewer, loads)
      ensures free != []
    {
      RankedMembers(proposed, loads, proposed[k]);
      assert proposed[k] in free;
    }
    hide Drawn;
    if free != [] {
      var drawn := Drawn(Handles(free), pick);
      var k :| 0 <= k < |free| && Handles(free)[k] == drawn.value;
      assert free[k] in proposed && HasCapacity(free[k].reviewer, loads);
    }
  }

  /** With several matching reviewers, the random draw can fall on every proposed reviewer
      who is free. */
  lemma EveryFreeReviewerCanBeDrawn(loads: Loads, reviewers: seq<Reviewer>, labels: seq<string>, author: string,
                                    m: Match)
    returns (pick: nat)
    requires |Matching(reviewers, labels, author)| >= 2
    requires m in Proposed(reviewers, labels, author) && HasCapacity(m.reviewer, loads)
    ensures Suggest(loads, reviewers, labels, author, pick).suggested == Some(m.reviewer.github)
  {
    var sorted := SortByLoad(Proposed(reviewers, labels, author), loads);
    RankedMembers(Proposed(reviewers, labels, author), loads, m);
    pick := FreeAt(sorted, loads, m);
    DrawnAt(Handles(Available(sorted, loads)), pick);
    hide Proposed, SortByLoad, HasCapacity, Available, Matching, Drawn;
  }

  lemma DrawnAt(handles: seq<string>, pick: nat)
    requires pick < |handles|
    ensures Drawn(handles, pick) == Some(handles[pick])
  {
    assert pick % |handles| == pick;
  }

  lemma FreeAt(matches: seq<Match>, loads: Loads, m: Match) returns (k: nat)
    requires m in matches && HasCapacity(m.reviewer, loads)
    ensures k < |Available(matches, loads)| && Available(matches, loads)[k] == m
  {
    hide HasCapacity;
    var i: nat :| i < |matches| && matches[i] == m;
    assert m in Available(matches, loads);
    k :| k < |Available(matches, loads)| && Available(matches, loads)[k] == m;
  }

  // ---- Who can be suggested ------------------------------------------------------------------------------

  /** A suggested reviewer is an available one, and available ones are listed. */
  lemma SuggestedIsListed(loads: Loads, reviewers: seq<Reviewer>, labels: seq<string>, author: string, pick: nat)
    ensures var s := Suggest(loads, reviewers, labels, author, pick);
            && (s.suggested.Some? ==> s.suggested.value in s.available)
            && (forall handle :: handle in s.available ==> handle in s.potential)
  {
    if |Matching(reviewers, labels, author)| > 1 {
      var sorted := SortByLoad(Proposed(reviewers, labels, author), loads);
      var free := Available(sorted, loads);
      hide Proposed, Matching, SortByLoad, Available, Drawn;
      forall handle | handle in Handles(free)
        ensures handle in Handles(sorted)
      {
        var k :| 0 <= k < |free| && free[k].reviewer.github == handle;
        var j :| 0 <= j < |sorted| && sorted[j] == free[k];
        assert Handles(sorted)[j] == handle;
      }
    }
  }

  ghost predicate TwoMayReview(reviewers: seq<Reviewer>, labels: seq<string>, author: string)
  {
    exists j, k ::
      0 <= j < k < |reviewers| && MayReview(reviewers[j], labels, author) && MayReview(reviewers[k], labels, author)
  }

  lemma {:induction false} TwoMatch(reviewers: seq<Reviewer>, labels: seq<string>, author: string)
    ensures |Matching(reviewers, labels, author)| >= 2 <==> TwoMayReview(reviewers, labels, author)
  {
    hide MayReview, MatchOf;
    if reviewers == [] {
    } else {
      var rest := reviewers[1..];
      TwoMatch(rest, labels, author);
      NoMatches(rest, labels, author);
      assert forall j :: 0 <= j < |rest| ==> rest[j] == reviewers[j + 1];
      assert forall j :: 0 < j < |reviewers| ==> reviewers[j] == rest[j - 1];
    }
  }

  /** A reviewer some pick can fall on: the only one who may review; or else one who has capacity
      left and who covers the most labels or, without labels, anybody at all as soon as two
      others than the author exist. */
  ghost predicate CanBeSuggested(loads: Loads, reviewers: seq<Reviewer>, labels: seq<string>, author: string, i: nat)
    requires i < |reviewers|
  {
    || IsOnlyMatch(reviewers, labels, author, i)
    || (&& LoadOf(loads, reviewers[i].github) < reviewers[i].maximumCapacity as real
        && reviewers[i].isOnRotation && !reviewers[i].isTemporarilyOff
        && if labels == [] then TwoMayReview(reviewers, labels, author)
           else MayReview(reviewers[i], labels, author) && CoversMost(reviewers, labels, author, i))
  }

  /** The entries behind the proposed reviewers, with labels and without. */
  lemma ProposedEntry(reviewers: seq<Reviewer>, labels: seq<string>, author: string, m: Match) returns (i: nat)
    requires m in Proposed(reviewers, labels, author)
    ensures i < |reviewers| && m == MatchOf(reviewers[i], labels)
    ensures labels != [] ==> MayReview(reviewers[i], labels, author) && CoversMost(reviewers, labels, author, i)
  {
    if labels == [] {
      i :| i < |reviewers| && AllUnscored(reviewers)[i] == m;
    } else {
      MatchingMembers(reviewers, labels, author, m);
      i :| i < |reviewers| && MayReview(reviewers[i], labels, author) && m == MatchOf(reviewers[i], labels);
      ProposedExactly(reviewers, labels, author, i);
    }
  }

  ghost predicate IsSuggestedBySomePick(loads: Loads, reviewers: seq<Reviewer>, labels: seq<string>, author: string,
                                        handle: string)
  {
    exists pick: nat :: Suggest(loads, reviewers, labels, author, pick).suggested == Some(handle)
  }

  lemma SuggestedCouldBe(loads: Loads, reviewers: seq<Reviewer>, labels: seq<string>, author: string, pick: nat,
                         handle: string)
    returns (i: nat)
    requires Suggest(loads, reviewers, labels, author, pick).suggested == Some(handle)
    ensures i < |reviewers| && reviewers[i].github == handle && CanBeSuggested(loads, reviewers, labels, author, i)
  {
    var matching := Matching(reviewers, labels, author);
    if |matching| == 1 {
      MatchingMembers(reviewers, labels, author, matching[0]);
      i :| i < |reviewers| && MayReview(reviewers[i], labels, author) && matching[0] == MatchOf(reviewers[i], labels);
      OneMatch(reviewers, labels, author, i);
    } else {
      SuggestedIsFree(loads, reviewers, labels, author, pick);
      TwoMatch(reviewers, labels, author);
      var proposed := Proposed(reviewers, labels, author);
      hide Proposed, Matching, MayReview, CoversMost, HasCapacity, TwoMayReview, IsOnlyMatch;
      var k :| 0 <= k < |proposed| && proposed[k].reviewer.github == handle && HasCapacity(proposed[k].reviewer, loads);
      i := ProposedEntry(reviewers, labels, author, proposed[k]);
    }
  }

  lemma CouldBeSuggested(loads: Loads, reviewers: seq<Reviewer>, labels: seq<string>, author: string, i: nat)
    requires i < |reviewers| && CanBeSuggested(loads, reviewers, labels, author, i)
    ensures IsSuggestedBySomePick(loads, reviewers, labels, author, reviewers[i].github)
  {
    var m := MatchOf(reviewers[i], labels);
    OneMatch(reviewers, labels, author, i);
    MatchingMembers(reviewers, labels, author, m);
    if IsOnlyMatch(reviewers, labels, author, i) {
      assert Suggest(loads, reviewers, labels, author, 0).suggested == Some(reviewers[i].github);
    } else {
      TwoMatch(reviewers, labels, author);
      if labels == [] {
        assert AllUnscored(reviewers)[i] == m;
      } else {
        ProposedExactly(reviewers, labels, author, i);
      }
      hide Proposed, MayReview, CoversMost, HasCapacity, TwoMayReview, IsOnlyMatch;
      var pick := EveryFreeReviewerCanBeDrawn(loads, reviewers, labels, author, m);
      assert Suggest(loads, reviewers, labels, author, pick).suggested == Some(m.reviewer.github);
    }
  }

  /** Who can be suggested for a pull request, over all picks. */
  lemma SuggestibleExactly(loads: Loads, reviewers: seq<Reviewer>, labels: seq<string>, author: string, handle: string)
    ensures IsSuggestedBySomePick(loads, reviewers, labels, author, handle)
      <==> exists i: nat ::
          i < |reviewers| && reviewers[i].github == handle && CanBeSuggested(loads, reviewers, labels, author, i)
  {
    hide Suggest, CanBeSuggested;
    if pick: nat :| Suggest(loads, reviewers, labels, author, pick).suggested == Some(handle) {
      var i := SuggestedCouldBe(loads, reviewers, labels, author, pick, handle);
    }
    if i: nat :|
        i < |reviewers| && reviewers[i].github == handle && CanBeSuggested(loads, reviewers, labels, author, i) {
      CouldBeSuggested(loads, reviewers, labels, author, i);
    }
  }

  predicate OneEntryEach(reviewers: seq<Reviewer>)
  {
    forall i, j :: 0 <= i < j < |reviewers| ==> reviewers[i].github != reviewers[j].github
  }

  ghost predicate ConflictedIsSuggested(loads: Loads, reviewers: seq<Reviewer>, labels: seq<string>, author: string)
  {
    exists i: nat :: i < |reviewers| && author in reviewers[i].conflicts
      && IsSuggestedBySomePick(loads, reviewers, labels, author, reviewers[i].github)
  }

  /** The promise that a reviewer is never suggested for an author they have a conflict with
      fails exactly when somebody who has one can be suggested at all. A handle listed in
      several entries counts as in conflict when any of them says so. */
  lemma ConflictedIsSuggestedExactly(loads: Loads, reviewers: seq<Reviewer>, labels: seq<string>, author: string)
    ensures ConflictedIsSuggested(loads, reviewers, labels, author)
      <==> exists i: nat, k: nat :: i < |reviewers| && k < |reviewers| && reviewers[i].github == reviewers[k].github
             && author in reviewers[i].conflicts && CanBeSuggested(loads, reviewers, labels, author, k)
    ensures OneEntryEach(reviewers) ==>
      (ConflictedIsSuggested(loads, reviewers, labels, author)
       <==> exists i: nat :: i < |reviewers| && author in reviewers[i].conflicts
              && CanBeSuggested(loads, reviewers, labels, author, i))
  {
    hide CanBeSuggested, IsSuggestedBySomePick;
    forall i: nat | i < |reviewers|
      ensures IsSuggestedBySomePick(loads, reviewers, labels, author, reviewers[i].github)
        <==> exists k: nat :: k < |reviewers| && reviewers[k].github == reviewers[i].github
               && CanBeSuggested(loads, reviewers, labels, author, k)
    {
      SuggestibleExactly(loads, reviewers, labels, author, reviewers[i].github);
    }
  }

  /** Nor is an author safe from their own pull request: some pick suggests it to them exactly
      when it has no labels, two reviewers other than them exist, and they have capacity. */
  lemma AuthorIsSuggestedExactly(loads: Loads, reviewers: seq<Reviewer>, labels: seq<string>, author: string)
    ensures IsSuggestedBySomePick(loads, reviewers, labels, author, author)
      <==> (&& labels == []
            && (exists j, k ::
                  0 <= j < k < |reviewers| && reviewers[j].github != author && reviewers[k].github != author)
            && exists i: nat :: i < |reviewers| && reviewers[i].github == author && HasCapacity(reviewers[i], loads))
  {
    SuggestibleExactly(loads, reviewers, labels, author, author);
    hide IsSuggestedBySomePick, CoversMost;
  }

  /** Who is available: exactly those the draw can fall on. */
  lemma AvailableExactly(loads: Loads, reviewers: seq<Reviewer>, labels: seq<string>, author: string, pick: nat,
                         handle: string)
    ensures handle in Suggest(loads, reviewers, labels, author, pick).available
      <==> IsSuggestedBySomePick(loads, reviewers, labels, author, handle)
  {
    var available := Suggest(loads, reviewers, labels, author, pick).available;
    hide Matching, Proposed, SortByLoad, Available;
    if k: nat :| k < |available| && available[k] == handle {
      DrawnAt(available, k);
      assert Suggest(loads, reviewers, labels, author, k).suggested == Some(handle);
    }
  }

  /** Nobody is suggested, whatever the pick, exactly when nobody can be. */
  lemma NobodyIsSuggestedExactly(loads: Loads, reviewers: seq<Reviewer>, labels: seq<string>, author: string, pick: nat)
    ensures Suggest(loads, reviewers, labels, author, pick).suggested == None
      <==> forall i: nat :: i < |reviewers| ==> !CanBeSuggested(loads, reviewers, labels, author, i)
  {
    var s := Suggest(loads, reviewers, labels, author, pick);
    hide CanBeSuggested;
    if s.suggested.Some? {
      hide Suggest;
      var i := SuggestedCouldBe(loads, reviewers, labels, author, pick, s.suggested.value);
    } else if i: nat :| i < |reviewers| && CanBeSuggested(loads, reviewers, labels, author, i) {
      CouldBeSuggested(loads, reviewers, labels, author, i);
      var other: nat :| Suggest(loads, reviewers, labels, author, other).suggested == Some(reviewers[i].github);
      NobodyForAnyPick(loads, reviewers, labels, author, pick, other);
    }
  }

  lemma NobodyForAnyPick(loads: Loads, reviewers: seq<Reviewer>, labels: seq<string>, author: string, one: nat,
                         two: nat)
    requires Suggest(loads, reviewers, labels, author, one).suggested == None
    ensures Suggest(loads, reviewers, labels, author, two).suggested == None
  {
    hide Matching, Proposed, SortByLoad, Available;
  }

  /** Whoever is listed for a labelled pull request that several match covers one of its labels. */
  lemma ProposedCoverALabel(loads: Loads, reviewers: seq<Reviewer>, labels: seq<string>, author: string, pick: nat,
                            handle: string)
    requires labels != [] && |Matching(reviewers, labels, author)| >= 2
    requires handle in Suggest(loads, reviewers, labels, author, pick).potential
    ensures exists i, k :: 0 <= i < |reviewers| && 0 <= k < |labels|
              && reviewers[i].github == handle && labels[k] in reviewers[i].topLevel
  {
    PotentialHandles(loads, reviewers, labels, author, pick, handle);
    var proposed := Proposed(reviewers, labels, author);
    var k :| 0 <= k < |proposed| && proposed[k].reviewer.github == handle;
    hide Proposed, Suggest, Matching, MayReview;
    var i := ProposedEntry(reviewers, labels, author, proposed[k]);
    var covered := Covered(labels, reviewers[i].topLevel);
    assert covered != {};
    var at :| at in covered;
    assert labels[at] in reviewers[i].topLevel;
  }

  /** Without labels a conflict is not even looked at: with no load and an even pick, the first
      of two reviewers is suggested for bob, with bob in their conflict list. */
  lemma UnlabelledConflictIsSuggested(pick: nat)
    requires pick % 2 == 0
    ensures var ann := Reviewer("ann", [], 10, true, false, ["bob"]);
            var cal := Reviewer("cal", [], 10, true, false, []);
            Suggest(map[], [ann, cal], [], "bob", pick).suggested == Some("ann")
  {
    var ann := Reviewer("ann", [], 10, true, false, ["bob"]);
    var cal := Reviewer("cal", [], 10, true, false, []);
    var all := [Match(ann, 0), Match(cal, 0)];
    assert Matching([ann, cal], [], "bob") == all by {
      assert [ann, cal][1..] == [cal] && [cal][1..] == [];
      assert "ann" != "bob" && "cal" != "bob";
    }
    assert AllUnscored([ann, cal]) == all;
    assert all[1..] == [Match(cal, 0)] && all[1..][1..] == [];
    assert Sort(all[1..], LessBusy(map[])) == all[1..];
    assert SortByLoad(all, map[]) == all;
    assert Available(all[1..], map[]) == all[1..];
    assert Available(all, map[]) == all;
    assert Handles(all)[0] == "ann";
  }
}
