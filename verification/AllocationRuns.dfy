/** A whole round of suggestions: the loads as they grow, and the lists of pull requests that
    the working copy of the statistics shares with the caller's. */
module AllocationRuns {
  import opened Options
  import opened Sequences
  import opened Sets
  import opened ReviewerAllocation

  function Grant(loads: Loads, choice: Option<string>): Loads
  {
    match choice
    case None => loads
    case Some(login) => loads[login := LoadOf(loads, login) + 1.0]
  }

  function GrantAll(loads: Loads, choices: seq<Option<string>>): Loads
    decreases choices
  {
    if choices == [] then loads else GrantAll(Grant(loads, choices[0]), choices[1..])
  }

  /** The choice made for each pull request in turn. */
  function Allocate(loads: Loads, reviewers: seq<Reviewer>, prs: seq<PrInfo>,
                    picks: seq<nat>): (choices: seq<Option<string>>)
    requires |picks| == |prs|
    ensures |choices| == |prs|
    decreases prs
  {
    if prs == [] then []
    else
      var choice := SuggestFor(loads, reviewers, prs[0], picks[0]).suggested;
      [choice] + Allocate(Grant(loads, choice), reviewers, prs[1..], picks[1..])
  }

  // ---- Conservation of load ---------------------------------------------------------------------------

  ghost function TotalLoad(loads: Loads): real
    decreases loads.Keys
  {
    if loads == map[] then 0.0
    else
      var login := Pick(loads.Keys);
      loads[login] + TotalLoad(loads - {login})
  }

  lemma {:induction false} TotalWithout(loads: Loads, login: string)
    requires login in loads
    ensures TotalLoad(loads) == loads[login] + TotalLoad(loads - {login})
    decreases loads.Keys
  {
    var first := Pick(loads.Keys);
    if first != login {
      TotalWithout(loads - {first}, login);
      TotalWithout(loads - {login}, first);
      assert loads - {first} - {login} == loads - {login} - {first};
    }
  }

  lemma TotalOfGrant(loads: Loads, choice: Option<string>)
    ensures TotalLoad(Grant(loads, choice)) == TotalLoad(loads) + if choice.Some? then 1.0 else 0.0
  {
    if choice.Some? {
      var login := choice.value;
      var after := Grant(loads, choice);
      TotalWithout(after, login);
      assert after - {login} == loads - {login};
      if login in loads {
        TotalWithout(loads, login);
      } else {
        assert loads - {login} == loads;
      }
    }
  }

  function Made(choices: seq<Option<string>>): nat
  {
    if choices == [] then 0 else (if choices[0].Some? then 1 else 0) + Made(choices[1..])
  }

  function MadeTo(choices: seq<Option<string>>, login: string): nat
  {
    if choices == [] then 0 else (if choices[0] == Some(login) then 1 else 0) + MadeTo(choices[1..], login)
  }

  /** Whatever the picks, the total weighted load grows by the number of suggestions made,
      and each reviewer's by the number made to them. */
  lemma {:induction false} LoadIsConserved(loads: Loads, choices: seq<Option<string>>, login: string)
    ensures TotalLoad(GrantAll(loads, choices)) == TotalLoad(loads) + Made(choices) as real
    ensures LoadOf(GrantAll(loads, choices), login) == LoadOf(loads, login) + MadeTo(choices, login) as real
    decreases choices
  {
    hide TotalLoad;
    if choices != [] {
      TotalOfGrant(loads, choices[0]);
      LoadIsConserved(Grant(loads, choices[0]), choices[1..], login);
    }
  }

  // ---- Capacity -----------------------------------------------------------------------------------------

  predicate SeveralMatch(reviewers: seq<Reviewer>, info: PrInfo)
  {
    |Matching(reviewers, TopicLabels(info.labels), info.author)| >= 2
  }

  ghost predicate WithinCapacity(reviewers: seq<Reviewer>, login: string, load: real)
  {
    exists i :: 0 <= i < |reviewers| && reviewers[i].github == login
        && load < reviewers[i].maximumCapacity as real + 1.0
      && reviewers[i].isOnRotation && !reviewers[i].isTemporarilyOff
  }

  lemma ProposedComeFromReviewers(reviewers: seq<Reviewer>, labels: seq<string>, author: string)
    ensures forall k :: 0 <= k < |Proposed(reviewers, labels, author)| ==>
        Proposed(reviewers, labels, author)[k].reviewer in reviewers
  {
    var proposed := Proposed(reviewers, labels, author);
    forall k | 0 <= k < |proposed|
      ensures proposed[k].reviewer in reviewers
    {
      if labels != [] {
        MatchingMembers(reviewers, labels, author, proposed[k]);
      }
    }
  }

  lemma ChosenFitsCapacity(loads: Loads, reviewers: seq<Reviewer>, info: PrInfo, pick: nat, login: string)
    requires SeveralMatch(reviewers, info) && SuggestFor(loads, reviewers, info, pick).suggested == Some(login)
    ensures WithinCapacity(reviewers, login, LoadOf(loads, login) + 1.0)
  {
    var labels := TopicLabels(info.labels);
    SuggestedIsFree(loads, reviewers, labels, info.author, pick);
    ProposedComeFromReviewers(reviewers, labels, info.author);
    hide Proposed, Suggest, Matching;
  }

  // The login got a pull request that nobody else matched.
  ghost predicate WasOnlyCandidate(reviewers: seq<Reviewer>, prs: seq<PrInfo>, choices: seq<Option<string>>,
                                   login: string)
  {
    exists i :: 0 <= i < |prs| && i < |choices| && choices[i] == Some(login) && !SeveralMatch(reviewers, prs[i])
  }

  /** Whoever received a pull request in a round ends less than one above a capacity of
      theirs, and is on the rotation, unless they were the only candidate for one; so when
      every pull request has several matching reviewers, all receivers stay in this bound. */
  lemma {:induction false} ReceiversStayWithinCapacity(
      loads: Loads, reviewers: seq<Reviewer>, prs: seq<PrInfo>, picks: seq<nat>, login: string)
    requires |picks| == |prs|
    ensures var choices := Allocate(loads, reviewers, prs, picks);
            Some(login) in choices ==>
              || WithinCapacity(reviewers, login, LoadOf(GrantAll(loads, choices), login))
              || WasOnlyCandidate(reviewers, prs, choices, login)
    decreases prs
  {
    hide SuggestFor, WithinCapacity, SeveralMatch;
    if prs != [] {
      var choice := SuggestFor(loads, reviewers, prs[0], picks[0]).suggested;
      var after := Grant(loads, choice);
      var rest := Allocate(after, reviewers, prs[1..], picks[1..]);
      var choices := Allocate(loads, reviewers, prs, picks);
      ReceiversStayWithinCapacity(after, reviewers, prs[1..], picks[1..], login);
      assert choices[1..] == rest;
      if WasOnlyCandidate(reviewers, prs[1..], rest, login) {
        var i :| 0 <= i < |prs[1..]| && i < |rest| && rest[i] == Some(login) && !SeveralMatch(reviewers, prs[1..][i]);
        assert choices[i + 1] == Some(login) && !SeveralMatch(reviewers, prs[i + 1]);
      } else if choice == Some(login) && Some(login) !in rest {
        if SeveralMatch(reviewers, prs[0]) {
          ChosenFitsCapacity(loads, reviewers, prs[0], picks[0], login);
          LoadIsConserved(after, rest, login);
          NotMadeTo(rest, login);
        } else {
          assert choices[0] == Some(login);
        }
      }
    }
  }

  lemma {:induction false} NotMadeTo(choices: seq<Option<string>>, login: string)
    requires Some(login) !in choices
    ensures MadeTo(choices, login) == 0
  {
    if choices != [] {
      NotMadeTo(choices[1..], login);
    }
  }

  /** A single matching reviewer is suggested every time, whatever their capacity and
      rotation status: after n such pull requests their load has grown by n. */
  lemma {:induction false} SingleCandidateIgnoresCapacity(
      loads: Loads, reviewers: seq<Reviewer>, prs: seq<PrInfo>, picks: seq<nat>, login: string)
    requires |picks| == |prs|
    requires forall i :: 0 <= i < |prs| ==>
      var matching := Matching(reviewers, TopicLabels(prs[i].labels), prs[i].author);
      |matching| == 1 && matching[0].reviewer.github == login
    ensures LoadOf(GrantAll(loads, Allocate(loads, reviewers, prs, picks)), login)
        == LoadOf(loads, login) + |prs| as real
    decreases prs
  {
    hide Matching, TopicLabels;
    if prs != [] {
      var choice := SuggestFor(loads, reviewers, prs[0], picks[0]).suggested;
      assert choice == Some(login);
      SingleCandidateIgnoresCapacity(Grant(loads, choice), reviewers, prs[1..], picks[1..], login);
      assert Allocate(loads, reviewers, prs, picks)[1..]
          == Allocate(Grant(loads, choice), reviewers, prs[1..], picks[1..]);
    }
  }

  // ---- Full areas stay full -----------------------------------------------------------------------------

  ghost predicate NoLess(before: Loads, after: Loads)
  {
    forall login :: LoadOf(before, login) <= LoadOf(after, login)
  }

  lemma FullAreaStaysFullUnderMoreLoad(before: Loads, after: Loads, reviewers: seq<Reviewer>, area: string)
    requires NoLess(before, after) && IsAtMaximumCapacity(before, reviewers, area)
    ensures IsAtMaximumCapacity(after, reviewers, area)
  {
    var proposed := Proposed(reviewers, [area], "");
    if |Matching(reviewers, [area], "")| >= 2 {
      SuggestedIsFree(before, reviewers, [area], "", 0);
      SuggestedIsFree(after, reviewers, [area], "", 0);
      forall k | 0 <= k < |proposed|
        ensures !HasCapacity(proposed[k].reviewer, after)
      {
        assert LoadOf(before, proposed[k].reviewer.github) <= LoadOf(after, proposed[k].reviewer.github);
      }
    }
    hide Proposed, Matching;
  }

  /** Being at maximum capacity is monotone in the loads, so an area that is full at some
      point of a round is full until its end. */
  lemma FullAreaStaysFull(loads: Loads, reviewers: seq<Reviewer>, choices: seq<Option<string>>, area: string)
    requires IsAtMaximumCapacity(loads, reviewers, area)
    ensures IsAtMaximumCapacity(GrantAll(loads, choices), reviewers, area)
  {
    forall login
      ensures LoadOf(loads, login) <= LoadOf(GrantAll(loads, choices), login)
    {
      LoadIsConserved(loads, choices, login);
    }
    FullAreaStaysFullUnderMoreLoad(loads, GrantAll(loads, choices), reviewers, area);
  }

  // ---- Authors -------------------------------------------------------------------------------------------

  /** In a whole round no labelled pull request is suggested to its author, nor to a reviewer
      all of whose entries list their own handle as a conflict. */
  lemma NoSuggestionToTheAuthor(loads: Loads, reviewers: seq<Reviewer>, prs: seq<PrInfo>, picks: seq<nat>, i: nat)
    requires |picks| == |prs| && i < |prs| && TopicLabels(prs[i].labels) != []
    ensures var choice := Allocate(loads, reviewers, prs, picks)[i];
            choice.Some? ==>
              && choice.value != prs[i].author
              && exists k :: 0 <= k < |reviewers| && reviewers[k].github == choice.value
                   && choice.value !in reviewers[k].conflicts
  {
    var choices := Allocate(loads, reviewers, prs, picks);
    AllocateStep(loads, reviewers, prs, picks, i);
    var now, labels := GrantAll(loads, choices[..i]), TopicLabels(prs[i].labels);
    SuggestedIsListed(now, reviewers, labels, prs[i].author, picks[i]);
    hide Allocate, GrantAll, Suggest, TopicLabels;
    if choices[i].Some? {
      LabelledExcludes(now, reviewers, labels, prs[i].author, picks[i], choices[i].value);
    }
  }

  /** Each choice of a round is one the pull request's topic labels and the loads at that point
      allow, and nobody is chosen exactly when they allow nobody. */
  lemma ChoicesAreAllowed(loads: Loads, reviewers: seq<Reviewer>, prs: seq<PrInfo>, picks: seq<nat>, i: nat)
    requires |picks| == |prs| && i < |prs|
    ensures var choices := Allocate(loads, reviewers, prs, picks);
            var (now, labels, author) := (GrantAll(loads, choices[..i]), TopicLabels(prs[i].labels), prs[i].author);
            && (choices[i].Some? ==> exists k: nat :: k < |reviewers| && reviewers[k].github == choices[i].value
                                       && CanBeSuggested(now, reviewers, labels, author, k))
            && (choices[i] == None <==> forall k: nat :: k < |reviewers| ==>
                                          !CanBeSuggested(now, reviewers, labels, author, k))
  {
    var choices := Allocate(loads, reviewers, prs, picks);
    AllocateStep(loads, reviewers, prs, picks, i);
    var now, labels := GrantAll(loads, choices[..i]), TopicLabels(prs[i].labels);
    NobodyIsSuggestedExactly(now, reviewers, labels, prs[i].author, picks[i]);
    hide Allocate, GrantAll, Suggest, TopicLabels, CanBeSuggested;
    if choices[i].Some? {
      var k := SuggestedCouldBe(now, reviewers, labels, prs[i].author, picks[i], choices[i].value);
    }
  }

  /** Where a round suggests a pull request to its author, it has no topic label, two reviewers
      other than the author exist, and the author has capacity left at that point. */
  lemma SuggestionToTheAuthor(loads: Loads, reviewers: seq<Reviewer>, prs: seq<PrInfo>, picks: seq<nat>, i: nat)
    requires |picks| == |prs| && i < |prs|
    ensures var choices := Allocate(loads, reviewers, prs, picks);
            choices[i] == Some(prs[i].author) ==>
              && TopicLabels(prs[i].labels) == [] && TwoMayReview(reviewers, [], prs[i].author)
              && exists k: nat :: k < |reviewers| && reviewers[k].github == prs[i].author
                   && HasCapacity(reviewers[k], GrantAll(loads, choices[..i]))
  {
    var choices := Allocate(loads, reviewers, prs, picks);
    AllocateStep(loads, reviewers, prs, picks, i);
    var now, labels := GrantAll(loads, choices[..i]), TopicLabels(prs[i].labels);
    AuthorIsSuggestedExactly(now, reviewers, labels, prs[i].author);
    hide Allocate, GrantAll, Suggest, TopicLabels, TwoMayReview, HasCapacity;
    assert choices[i] == Suggest(now, reviewers, labels, prs[i].author, picks[i]).suggested;
  }

  // ---- The round as a program ---------------------------------------------------------------------------

  /** A list of pull request numbers, shared by reference. */
  class PrList {
    var numbers: seq<int>

    constructor ()
      ensures numbers == []
    {
      numbers := [];
    }
  }

  datatype Assigned = Assigned(prs: PrList, weighted: real, total: int)

  function LoadsOf(stats: map<string, Assigned>): Loads
  {
    map login | login in stats :: stats[login].weighted
  }

  lemma LoadsAreWeighted(stats: map<string, Assigned>)
    ensures LoadsOf(stats) == map login | login in stats :: stats[login].weighted
  {
  }

  function InfosOf(prs: seq<int>, info: map<int, PrInfo>): (r: seq<PrInfo>)
    requires forall i :: 0 <= i < |prs| ==> prs[i] in info
    ensures |r| == |prs| && forall i :: 0 <= i < |prs| ==> r[i] == info[prs[i]]
  {
    seq(|prs|, i requires 0 <= i < |prs| => info[prs[i]])
  }

  // The suggestions by pull request number; a repeated number keeps its last suggestion.
  function Recorded(prs: seq<int>, choices: seq<Option<string>>): map<int, string>
    requires |choices| == |prs|
  {
    if prs == [] then map[]
    else
      var n := |prs| - 1;
      var before := Recorded(prs[..n], choices[..n]);
      if choices[n].Some? then before[prs[n] := choices[n].value] else before
  }

  // The pull requests that went to any of some logins, in order.
  function ReceivedBy(prs: seq<int>, choices: seq<Option<string>>, logins: set<string>): seq<int>
    requires |choices| == |prs|
  {
    if prs == [] then []
    else
      var n := |prs| - 1;
      ReceivedBy(prs[..n], choices[..n], logins)
      + if choices[n].Some? && choices[n].value in logins then [prs[n]] else []
  }

  /** The returned suggestion for a number is the last one made for it. */
  lemma {:induction false} RecordedExactly(prs: seq<int>, choices: seq<Option<string>>, number: int)
    requires |choices| == |prs|
    ensures number in Recorded(prs, choices) <==> exists i :: 0 <= i < |prs| && prs[i] == number && choices[i].Some?
    ensures number in Recorded(prs, choices) ==>
      exists i :: IsLastChoice(prs, choices, number, i) && choices[i] == Some(Recorded(prs, choices)[number])
    decreases |prs|
  {
    if prs == [] {
    } else {
      var n := |prs| - 1;
      RecordedExactly(prs[..n], choices[..n], number);
      hide Recorded;
      if prs[n] == number && choices[n].Some? {
        assert IsLastChoice(prs, choices, number, n);
      } else if i :| IsLastChoice(prs[..n], choices[..n], number, i) {
        assert IsLastChoice(prs, choices, number, i);
      }
    }
  }

  ghost predicate IsLastChoice(prs: seq<int>, choices: seq<Option<string>>, number: int, i: int)
    requires |choices| == |prs|
  {
    && 0 <= i < |prs| && prs[i] == number && choices[i].Some?
    && forall j :: i < j < |prs| && prs[j] == number ==> choices[j] == None
  }

  /** A list grows by the pull requests its owners were chosen for, one after the other. */
  lemma {:induction false} ReceivedExactly(prs: seq<int>, choices: seq<Option<string>>, logins: set<string>, i: nat)
    requires |choices| == |prs| && i < |prs|
    ensures var before, received := ReceivedBy(prs[..i], choices[..i], logins), ReceivedBy(prs, choices, logins);
            && before <= received
            && (choices[i].Some? && choices[i].value in logins ==>
                  |before| < |received| && received[|before|] == prs[i])
            && (i + 1 == |prs| ==>
                  |received| == |before| + if choices[i].Some? && choices[i].value in logins then 1 else 0)
    decreases |prs|
  {
    var n := |prs| - 1;
    if i < n {
      ReceivedExactly(prs[..n], choices[..n], logins, i);
      assert prs[..n][..i] == prs[..i] && choices[..n][..i] == choices[..i];
    }
  }

  ghost function OwnersOf(stats: map<string, Assigned>, list: PrList): set<string>
  {
    set login | login in stats && stats[login].prs == list
  }

  lemma AllocateStep(loads: Loads, reviewers: seq<Reviewer>, prs: seq<PrInfo>, picks: seq<nat>, i: nat)
    requires |picks| == |prs| && i < |prs|
    ensures var choices := Allocate(loads, reviewers, prs, picks);
            && choices[i] == SuggestFor(GrantAll(loads, choices[..i]), reviewers, prs[i], picks[i]).suggested
            && GrantAll(loads, choices[..i + 1]) == Grant(GrantAll(loads, choices[..i]), choices[i])
            && (choices[i] == None ==> GrantAll(loads, choices[..i + 1]) == GrantAll(loads, choices[..i]))
    decreases i
  {
    hide SuggestFor;
    var choices := Allocate(loads, reviewers, prs, picks);
    var after := Grant(loads, choices[0]);
    var rest := Allocate(after, reviewers, prs[1..], picks[1..]);
    assert choices == [choices[0]] + rest;
    if i == 0 {
      assert choices[..1] == [choices[0]] && choices[..1][1..] == [];
      assert GrantAll(loads, choices[..1]) == GrantAll(after, []);
    } else {
      AllocateStep(after, reviewers, prs[1..], picks[1..], i - 1);
      assert choices[..i][1..] == rest[..i - 1] && choices[..i + 1][1..] == rest[..i];
      assert prs[1..][i - 1] == prs[i] && picks[1..][i - 1] == picks[i];
    }
  }

  lemma ReceivedStep(prs: seq<int>, choices: seq<Option<string>>, i: nat)
    requires |choices| == |prs| && i < |prs|
    ensures forall logins: set<string> {:trigger ReceivedBy(prs[..i + 1], choices[..i + 1], logins)} ::
      ReceivedBy(prs[..i + 1], choices[..i + 1], logins)
      == ReceivedBy(prs[..i], choices[..i], logins)
         + if choices[i].Some? && choices[i].value in logins then [prs[i]] else []
    ensures Recorded(prs[..i + 1], choices[..i + 1])
         == if choices[i].Some? then Recorded(prs[..i], choices[..i])[prs[i] := choices[i].value]
            else Recorded(prs[..i], choices[..i])
  {
    assert prs[..i + 1][..i] == prs[..i] && choices[..i + 1][..i] == choices[..i];
  }

  // Appends to the login's list, which is a new one for a login without an entry.
  method Credit(stats: map<string, Assigned>, login: string, number: int) returns (after: map<string, Assigned>)
    modifies set other | other in stats && other == login :: stats[other].prs
    ensures login in after && after == stats[login := after[login]]
    ensures login in stats ==> after[login].prs == stats[login].prs
    ensures login in stats ==> after[login].prs.numbers == old(stats[login].prs.numbers) + [number]
    ensures login !in stats ==> fresh(after[login].prs)
    ensures LoadsOf(after) == Grant(LoadsOf(stats), Some(login))
  {
    var entry;
    if login in stats {
      entry := stats[login];
    } else {
      var list := new PrList();
      entry := Assigned(list, 0.0, 0);
    }
    entry.prs.numbers := entry.prs.numbers + [number];
    after := stats[login := Assigned(entry.prs, entry.weighted + 1.0, entry.total + 1)];
  }

  lemma OwnersAre(stats: map<string, Assigned>, login: string)
    ensures forall list :: login in OwnersOf(stats, list) <==> login in stats && stats[login].prs == list
  {
  }

  /** Each of the caller's lists has grown by what its owners received so far. */
  ghost predicate HaveGrown(existing: map<string, Assigned>, was: map<PrList, seq<int>>, prs: seq<int>,
                            choices: seq<Option<string>>)
    requires |choices| == |prs|
    reads was.Keys
  {
    forall list :: list in was ==> list.numbers == was[list] + ReceivedBy(prs, choices, OwnersOf(existing, list))
  }

  // The working copy shares the caller's lists and no others.
  ghost predicate Shares(existing: map<string, Assigned>, stats: map<string, Assigned>, lists: set<PrList>)
  {
    && (forall login :: login in existing ==> login in stats && stats[login].prs == existing[login].prs)
    && (forall login :: login in stats && login !in existing ==> stats[login].prs !in lists)
  }

  // One suggestion of the round, the i-th.
  method Serve(stats: map<string, Assigned>, login: string, number: int, ghost existing: map<string, Assigned>,
               ghost was: map<PrList, seq<int>>, ghost prs: seq<int>, ghost choices: seq<Option<string>>, ghost i: nat)
    returns (after: map<string, Assigned>)
    requires |choices| == |prs| && i < |prs| && prs[i] == number && choices[i] == Some(login)
    requires Shares(existing, stats, was.Keys) && HaveGrown(existing, was, prs[..i], choices[..i])
    modifies set other | other in stats && other == login :: stats[other].prs
    ensures login in after && after == stats[login := after[login]]
    ensures login in stats ==> after[login].prs == stats[login].prs
    ensures login !in stats ==> fresh(after[login].prs) && after[login].prs !in was
    ensures LoadsOf(after) == Grant(LoadsOf(stats), Some(login))
    ensures HaveGrown(existing, was, prs[..i + 1], choices[..i + 1])
  {
    hide Grant, LoadsOf, ReceivedBy, Recorded, OwnersOf;
    ReceivedStep(prs, choices, i);
    OwnersAre(existing, login);
    after := Credit(stats, login, number);
  }

  /** The round as the program runs it, on a shallow copy of the statistics. The suggestions
      are those of the specification; but the lists of pull requests are shared with the
      caller, so each list the caller holds grows by what its owners received, while the
      loads the caller holds do not change. */
  method SuggestMany(existing: map<string, Assigned>, reviewers: seq<Reviewer>, prs: seq<int>,
                     info: map<int, PrInfo>, picks: seq<nat>)
    returns (suggestions: map<int, string>)
    requires |picks| == |prs| && forall i :: 0 <= i < |prs| ==> prs[i] in info
    modifies set login | login in existing :: existing[login].prs
    ensures LoadsOf(existing) == map login | login in existing :: existing[login].weighted
    ensures var choices := Allocate(LoadsOf(existing), reviewers, InfosOf(prs, info), picks);
            && suggestions == Recorded(prs, choices)
            && forall login :: login in existing ==>
                 existing[login].prs.numbers
                 == old(existing[login].prs.numbers) + ReceivedBy(prs, choices, OwnersOf(existing, existing[login].prs))
  {
    hide SuggestFor, Allocate, GrantAll, Grant, LoadsOf, ReceivedBy, Recorded, InfosOf, OwnersOf, HaveGrown;
    ghost var choices := Allocate(LoadsOf(existing), reviewers, InfosOf(prs, info), picks);
    ghost var was := WasNumbers(existing);
    var stats := existing;
    suggestions := map[];
    NothingYet(LoadsOf(existing));
    NothingGrown(existing, was);
    for i := 0 to |prs|
      invariant Shares(existing, stats, was.Keys)
      invariant forall login :: login in stats && login !in existing ==> fresh(stats[login].prs)
      invariant LoadsOf(stats) == GrantAll(LoadsOf(existing), choices[..i])
      invariant suggestions == Recorded(prs[..i], choices[..i])
      invariant HaveGrown(existing, was, prs[..i], choices[..i])
    {
      AllocateStep(LoadsOf(existing), reviewers, InfosOf(prs, info), picks, i);
      ReceivedStep(prs, choices, i);
      var suggested := SuggestFor(LoadsOf(stats), reviewers, info[prs[i]], picks[i]).suggested;
      assert suggested == choices[i];
      if suggested.Some? {
        suggestions := suggestions[prs[i] := suggested.value];
        stats := Serve(stats, suggested.value, prs[i], existing, was, prs, choices, i);
      } else {
        NoneGrown(existing, was, prs, choices, i);
      }
    }
    assert prs[..|prs|] == prs && choices[..|prs|] == choices;
    GrownFor(existing, was, prs, choices);
    LoadsAreWeighted(existing);
  }

  ghost function WasNumbers(existing: map<string, Assigned>): (was: map<PrList, seq<int>>)
    reads set login | login in existing :: existing[login].prs
    ensures was.Keys == set login | login in existing :: existing[login].prs
    ensures forall list :: list in was ==> was[list] == list.numbers
  {
    map list | list in (set login | login in existing :: existing[login].prs) :: list.numbers
  }

  lemma NothingGrown(existing: map<string, Assigned>, was: map<PrList, seq<int>>)
    requires forall list :: list in was ==> was[list] == list.numbers
    ensures HaveGrown(existing, was, [], [])
  {
  }

  lemma NoneGrown(existing: map<string, Assigned>, was: map<PrList, seq<int>>, prs: seq<int>,
                  choices: seq<Option<string>>, i: nat)
    requires |choices| == |prs| && i < |prs| && choices[i] == None && HaveGrown(existing, was, prs[..i], choices[..i])
    ensures HaveGrown(existing, was, prs[..i + 1], choices[..i + 1])
  {
    ReceivedStep(prs, choices, i);
  }

  lemma GrownFor(existing: map<string, Assigned>, was: map<PrList, seq<int>>, prs: seq<int>,
                 choices: seq<Option<string>>)
    requires |choices| == |prs| && HaveGrown(existing, was, prs, choices)
    ensures forall login :: login in existing && existing[login].prs in was ==>
      existing[login].prs.numbers
      == was[existing[login].prs] + ReceivedBy(prs, choices, OwnersOf(existing, existing[login].prs))
  {
  }

  lemma NothingYet(loads: Loads)
    ensures GrantAll(loads, []) == loads && Recorded([], []) == map[]
    ensures forall logins :: ReceivedBy([], [], logins) == []
  {
  }

  // ---- Suggestions and load ------------------------------------------------------------------------------

  lemma {:induction false} MadeAppend(choices: seq<Option<string>>, choice: Option<string>)
    ensures Made(choices + [choice]) == Made(choices) + if choice.Some? then 1 else 0
  {
    if choices != [] {
      assert (choices + [choice])[1..] == choices[1..] + [choice];
      MadeAppend(choices[1..], choice);
    }
  }

  /** For distinct pull requests the returned suggestions are as many as were made, so the
      total weighted load of a round grows by exactly their number. */
  lemma {:induction false} SuggestionsCountTheLoad(loads: Loads, prs: seq<int>, choices: seq<Option<string>>)
    requires |choices| == |prs| && NoDuplicates(prs)
    ensures |Recorded(prs, choices)| == Made(choices)
    ensures TotalLoad(GrantAll(loads, choices)) == TotalLoad(loads) + |Recorded(prs, choices)| as real
    decreases |prs|
  {
    LoadIsConserved(loads, choices, "");
    hide TotalLoad, GrantAll;
    if prs != [] {
      var n := |prs| - 1;
      SuggestionsCountTheLoad(loads, prs[..n], choices[..n]);
      MadeAppend(choices[..n], choices[n]);
      assert choices == choices[..n] + [choices[n]];
      assert prs[n] !in prs[..n];
      RecordedNumbers(prs[..n], choices[..n], prs[n]);
    }
  }

  lemma {:induction false} RecordedNumbers(prs: seq<int>, choices: seq<Option<string>>, number: int)
    requires |choices| == |prs| && number !in prs
    ensures number !in Recorded(prs, choices)
  {
    if prs != [] {
      assert prs[|prs| - 1] in prs;
      RecordedNumbers(prs[..|prs| - 1], choices[..|prs| - 1], number);
    }
  }
}
