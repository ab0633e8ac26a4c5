/** On-demand suggestions: the ranked pool is walked once and split into suggestions and a
    tally of skips; a claim walks it again before anything is assigned. */
module SuggestionWalk {
  import opened Logins
  import opened CandidateEngine
  import opened Sequences

  // ---- The walk ---------------------------------------------------------------------------------------------

  /** What the walk finds out about one ranked pull request. */
  datatype Judgement = NoEntry | Skipped(reason: Skip) | Eligible

  /** The suggestions in rank order, without a limit. */
  function EligibleIn(ranked: seq<int>, judge: int -> Judgement): seq<int>
  {
    if ranked == [] then []
    else
      var n := |ranked| - 1;
      EligibleIn(ranked[..n], judge) + if judge(ranked[n]) == Eligible then [ranked[n]] else []
  }

  function CountIn(ranked: seq<int>, judge: int -> Judgement, judgement: Judgement): nat
  {
    if ranked == [] then 0
    else
      var n := |ranked| - 1;
      CountIn(ranked[..n], judge, judgement) + if judge(ranked[n]) == judgement then 1 else 0
  }

  function Truncated<T>(s: seq<T>, limit: int): seq<T>
  {
    if limit <= 0 then [] else if limit < |s| then s[..limit] else s
  }

  ghost predicate IsTally(skipped: map<Skip, nat>, ranked: seq<int>, judge: int -> Judgement)
  {
    && (forall reason :: reason in skipped ==> skipped[reason] > 0)
    && (forall reason :: CountIn(ranked, judge, Skipped(reason)) == if reason in skipped then skipped[reason] else 0)
  }

  /** The loop over the ranking. The tally covers the whole ranking; only the suggestions
      stop at the limit. */
  method Walk(ranked: seq<int>, judge: int -> Judgement, limit: int)
    returns (suggestions: seq<int>, skipped: map<Skip, nat>)
    ensures suggestions == Truncated(EligibleIn(ranked, judge), limit)
    ensures IsTally(skipped, ranked, judge)
  {
    suggestions, skipped := [], map[];
    for i := 0 to |ranked|
      invariant suggestions == Truncated(EligibleIn(ranked[..i], judge), limit)
      invariant IsTally(skipped, ranked[..i], judge)
    {
      assert ranked[..i + 1][..i] == ranked[..i];
      match judge(ranked[i]) {
        case NoEntry =>
        case Skipped(reason) =>
          skipped := skipped[reason := (if reason in skipped then skipped[reason] else 0) + 1];
        case Eligible =>
          if |suggestions| < limit {
            suggestions := suggestions + [ranked[i]];
          }
      }
    }
    assert ranked[..|ranked|] == ranked;
  }

  function SkippedIn(ranked: seq<int>, judge: int -> Judgement): nat
  {
    CountIn(ranked, judge, Skipped(AlreadyAssigned)) + CountIn(ranked, judge, Skipped(NoTopicLabel))
    + CountIn(ranked, judge, Skipped(Authored)) + CountIn(ranked, judge, Skipped(ConflictOfInterest))
    + CountIn(ranked, judge, Skipped(CarriesExcludedLabel)) + CountIn(ranked, judge, Skipped(NoAreaMatch))
    + CountIn(ranked, judge, Skipped(Outranked)) + CountIn(ranked, judge, Skipped(KeptOut))
  }

  lemma CountLast(ranked: seq<int>, judge: int -> Judgement, judgement: Judgement)
    requires ranked != []
    ensures CountIn(ranked, judge, judgement)
         == CountIn(ranked[..|ranked| - 1], judge, judgement)
             + if judge(ranked[|ranked| - 1]) == judgement then 1 else 0
  {
  }

  /** Every ranked pull request with an entry is counted exactly once: eligible, or skipped
      for one reason. */
  lemma {:induction false} EachCountedOnce(ranked: seq<int>, judge: int -> Judgement)
    ensures |EligibleIn(ranked, judge)| + SkippedIn(ranked, judge) + CountIn(ranked, judge, NoEntry) == |ranked|
  {
    if ranked != [] {
      assert |EligibleIn(ranked, judge)|
        == |EligibleIn(ranked[..|ranked| - 1], judge)| + if judge(ranked[|ranked| - 1]) == Eligible then 1 else 0;
      EachCountedOnce(ranked[..|ranked| - 1], judge);
      forall judgement {
        CountLast(ranked, judge, judgement);
      }
      hide CountIn, EligibleIn;
      var last := judge(ranked[|ranked| - 1]);
      if last.Skipped? {
        match last.reason
        case AlreadyAssigned =>
        case NoTopicLabel =>
        case Authored =>
        case ConflictOfInterest =>
        case CarriesExcludedLabel =>
        case NoAreaMatch =>
        case Outranked =>
        case KeptOut =>
      }
      assert SkippedIn(ranked, judge) == SkippedIn(ranked[..|ranked| - 1], judge) + if last.Skipped? then 1 else 0;
    }
  }

  lemma TruncatedPrefix<T>(s: seq<T>, few: int, many: int)
    requires few <= many
    ensures Truncated(s, few) <= Truncated(s, many)
    ensures |Truncated(s, few)| <= if few > 0 then few else 0
    ensures |Truncated(s, few)| < few ==> Truncated(s, few) == Truncated(s, many)
  {
  }

  lemma {:induction false} EligibleMembers(ranked: seq<int>, judge: int -> Judgement, number: int)
    ensures number in EligibleIn(ranked, judge) <==> number in ranked && judge(number) == Eligible
  {
    if ranked != [] {
      var n := |ranked| - 1;
      EligibleMembers(ranked[..n], judge, number);
      assert ranked == ranked[..n] + [ranked[n]];
    }
  }

  lemma {:induction false} AllAreEligible(ranked: seq<int>, judge: int -> Judgement)
    requires forall k :: 0 <= k < |ranked| ==> judge(ranked[k]) == Eligible
    ensures EligibleIn(ranked, judge) == ranked
  {
    if ranked == [] {
    } else {
      var n := |ranked| - 1;
      AllAreEligible(ranked[..n], judge);
      assert ranked == ranked[..n] + [ranked[n]];
    }
  }

  lemma {:induction false} EligibleAreDistinct(ranked: seq<int>, judge: int -> Judgement)
    requires NoDuplicates(ranked)
    ensures NoDuplicates(EligibleIn(ranked, judge))
  {
    if ranked != [] {
      var n := |ranked| - 1;
      EligibleAreDistinct(ranked[..n], judge);
      EligibleMembers(ranked[..n], judge, ranked[n]);
    }
  }

  // ---- What the walk finds depends on how often a number is ranked -----------------------------------

  function Kept(numbers: seq<int>, keep: int -> bool): seq<int>
  {
    if numbers == [] then []
    else
      var n := |numbers| - 1;
      Kept(numbers[..n], keep) + if keep(numbers[n]) then [numbers[n]] else []
  }

  lemma {:induction false} KeptCounts(numbers: seq<int>, keep: int -> bool, number: int)
    ensures multiset(Kept(numbers, keep))[number] == if keep(number) then multiset(numbers)[number] else 0
  {
    if numbers == [] {
    } else {
      var n := |numbers| - 1;
      var kept := Kept(numbers[..n], keep);
      KeptCounts(numbers[..n], keep, number);
      assert numbers == numbers[..n] + [numbers[n]];
      assert Kept(numbers, keep) == if keep(numbers[n]) then kept + [numbers[n]] else kept;
      hide Kept;
      assert multiset(kept + [numbers[n]]) == multiset(kept) + multiset{numbers[n]};
    }
  }

  function IsJudged(judge: int -> Judgement, judgement: Judgement): int -> bool
  {
    number => judge(number) == judgement
  }

  lemma {:induction false} CountIsKept(ranked: seq<int>, judge: int -> Judgement, judgement: Judgement)
    ensures CountIn(ranked, judge, judgement) == |Kept(ranked, IsJudged(judge, judgement))|
    ensures EligibleIn(ranked, judge) == Kept(ranked, IsJudged(judge, Eligible))
  {
    if ranked != [] {
      CountIsKept(ranked[..|ranked| - 1], judge, judgement);
    }
  }

  ghost predicate AgreeOn(one: seq<int>, two: seq<int>, judge: int -> Judgement, judgement: Judgement)
  {
    forall number :: judge(number) == judgement ==> multiset(one)[number] == multiset(two)[number]
  }

  /** Two rankings that hold the numbers of some judgement equally often count it alike. */
  lemma SameCounts(one: seq<int>, two: seq<int>, judge: int -> Judgement, judgement: Judgement)
    requires AgreeOn(one, two, judge, judgement)
    ensures CountIn(one, judge, judgement) == CountIn(two, judge, judgement)
    ensures judgement == Eligible ==> multiset(EligibleIn(one, judge)) == multiset(EligibleIn(two, judge))
  {
    var keep := IsJudged(judge, judgement);
    forall number
      ensures multiset(Kept(one, keep))[number] == multiset(Kept(two, keep))[number]
    {
      KeptCounts(one, keep, number);
      KeptCounts(two, keep, number);
    }
    assert multiset(Kept(one, keep)) == multiset(Kept(two, keep));
    CountIsKept(one, judge, judgement);
    CountIsKept(two, judge, judgement);
    assert |Kept(one, keep)| == |multiset(Kept(one, keep))| && |Kept(two, keep)| == |multiset(Kept(two, keep))|;
  }

  lemma ValueAt(one: int -> Judgement, two: int -> Judgement, number: int)
    requires forall n :: one(n) == two(n)
    ensures one(number) == two(number)
  {
  }

  // The walk depends on the judgements' values only.
  lemma {:induction false} WalkByValues(ranked: seq<int>, one: int -> Judgement, two: int -> Judgement,
                                        judgement: Judgement)
    requires forall number :: one(number) == two(number)
    ensures CountIn(ranked, one, judgement) == CountIn(ranked, two, judgement)
    ensures EligibleIn(ranked, one) == EligibleIn(ranked, two)
  {
    if ranked != [] {
      var n := |ranked| - 1;
      ValueAt(one, two, ranked[n]);
      WalkByValues(ranked[..n], one, two, judgement);
    }
  }

  // ---- The claim ----------------------------------------------------------------------------------------------

  const CLAIM_RECHECK_LIMIT := 100_000

  predicate AllPass(shown: seq<int>, recheck: seq<int>)
  {
    forall number :: number in shown ==> number in recheck
  }

  /** A longer cut of the eligible pull requests lies within the recheck's if it is no longer
      than that; for a ranking without repetitions, exactly then. */
  lemma CutWithinRecheck(ranked: seq<int>, judge: int -> Judgement, limit: int)
    ensures var eligible := EligibleIn(ranked, judge);
            var passes := AllPass(Truncated(eligible, limit), Truncated(eligible, CLAIM_RECHECK_LIMIT));
            && (|Truncated(eligible, limit)| <= CLAIM_RECHECK_LIMIT ==> passes)
            && (NoDuplicates(ranked) && passes ==> |Truncated(eligible, limit)| <= CLAIM_RECHECK_LIMIT)
  {
    var eligible := EligibleIn(ranked, judge);
    if limit <= CLAIM_RECHECK_LIMIT {
      TruncatedPrefix(eligible, limit, CLAIM_RECHECK_LIMIT);
    } else if |eligible| > CLAIM_RECHECK_LIMIT && NoDuplicates(ranked) {
      EligibleAreDistinct(ranked, judge);
      var number := eligible[CLAIM_RECHECK_LIMIT];
      assert number == Truncated(eligible, limit)[CLAIM_RECHECK_LIMIT];
      assert number in Truncated(eligible, limit);
      assert Truncated(eligible, CLAIM_RECHECK_LIMIT) == eligible[..CLAIM_RECHECK_LIMIT];
      assert forall i :: 0 <= i < CLAIM_RECHECK_LIMIT ==> eligible[i] != number;
      assert number !in Truncated(eligible, CLAIM_RECHECK_LIMIT);
    }
  }

  /** Splitting a claim: the posted numbers in increasing order, each assigned or failed.
      GitHub is asked only about eligible ones, and a pull request is assigned exactly when it
      is eligible in the recheck and GitHub confirms. */
  method Claim(posted: seq<int>, eligible: set<int>, landed: int -> bool)
    returns (done: seq<int>, failed: seq<int>, asked: seq<int>)
    ensures forall number :: number in posted ==> (number in done <==> number in eligible && landed(number))
    ensures forall number :: number in posted ==> (number in failed <==> number !in done)
    ensures forall number :: number in asked <==> number in posted && number in eligible
    ensures forall number :: number in done || number in failed ==> number in posted
    ensures Increasing(done) && Increasing(failed) && Increasing(asked)
  {
    var sorted := SortedSet(posted);
    done, failed, asked := [], [], [];
    for i := 0 to |sorted|
      invariant forall number :: number in asked <==> number in sorted[..i] && number in eligible
      invariant forall number :: number in done <==> number in asked && landed(number)
      invariant forall number :: number in failed <==> number in sorted[..i] && number !in done
      invariant Increasing(done) && Increasing(failed) && Increasing(asked)
    {
      var number := sorted[i];
      assert sorted[..i + 1] == sorted[..i] + [number];
      AppendKeepsOrder(sorted, i, done);
      AppendKeepsOrder(sorted, i, failed);
      AppendKeepsOrder(sorted, i, asked);
      hide Increasing;
      if number !in eligible {
        failed := failed + [number];
      } else {
        asked := asked + [number];
        if landed(number) {
          done := done + [number];
        } else {
          failed := failed + [number];
        }
      }
    }
    assert sorted[..|sorted|] == sorted;
  }

  lemma AppendKeepsOrder(sorted: seq<int>, i: nat, s: seq<int>)
    requires Increasing(sorted) && i < |sorted| && Increasing(s)
    requires forall number :: number in s ==> number in sorted[..i]
    ensures Increasing(s + [sorted[i]])
  {
    forall k | 0 <= k < |s|
      ensures s[k] < sorted[i]
    {
      assert s[k] in s;
    }
  }

  predicate Increasing(s: seq<int>)
  {
    forall i, j :: 0 <= i < j < |s| ==> s[i] < s[j]
  }

  // sorted(set(numbers))
  function SortedSet(numbers: seq<int>): (sorted: seq<int>)
    ensures Increasing(sorted)
    ensures forall number :: number in sorted <==> number in numbers
  {
    if numbers == [] then [] else Inserted(numbers[0], SortedSet(numbers[1..]))
  }

  function Inserted(number: int, sorted: seq<int>): (r: seq<int>)
    requires Increasing(sorted)
    ensures Increasing(r)
    ensures forall n :: n in r <==> n == number || n in sorted
  {
    if sorted == [] || number < sorted[0] then [number] + sorted
    else if number == sorted[0] then sorted
    else
      var rest := Inserted(number, sorted[1..]);
      assert forall i :: 0 <= i < |rest| ==> rest[i] in rest;
      assert forall n :: n in sorted[1..] ==> sorted[0] < n;
      [sorted[0]] + rest
  }

  // ---- The label override ------------------------------------------------------------------------------------

  ghost predicate IsNormalized(labels: seq<string>, token: string)
  {
    exists i :: 0 <= i < |labels| && Normalize(labels[i]) == token
  }

  lemma LastNormalized(labels: seq<string>, token: string)
    requires labels != []
    ensures IsNormalized(labels, token)
      <==> IsNormalized(labels[..|labels| - 1], token) || token == Normalize(labels[|labels| - 1])
  {
    hide Normalize;
    if i :| 0 <= i < |labels| && Normalize(labels[i]) == token {
      assert i < |labels| - 1 ==> labels[..|labels| - 1][i] == labels[i];
    }
    assert labels[..|labels| - 1] + [labels[|labels| - 1]] == labels;
  }

  /** The usable tokens of a request: normalized, not empty, each once, in order. */
  function Requested(labels: seq<string>): (requested: seq<string>)
    ensures NoDuplicates(requested)
    ensures forall token :: token in requested <==> token != "" && IsNormalized(labels, token)
  {
    if labels == [] then []
    else
      var before, token := Requested(labels[..|labels| - 1]), Normalize(labels[|labels| - 1]);
      hide Normalize, IsNormalized;
      assert forall t ::
          IsNormalized(labels, t) <==> IsNormalized(labels[..|labels| - 1], t) || t == token by {
        forall t { LastNormalized(labels, t); }
      }
      if token == "" || token in before then before else before + [token]
  }

  // The tokens that are wanted, or those that are not.
  function Those(tokens: seq<string>, wanted: string -> bool, answer: bool): (r: seq<string>)
  {
    if tokens == [] then []
    else
      var n := |tokens| - 1;
      Those(tokens[..n], wanted, answer) + if wanted(tokens[n]) == answer then [tokens[n]] else []
  }

  lemma LastOfThose(tokens: seq<string>, wanted: string -> bool, answer: bool)
    requires tokens != []
    ensures var n := |tokens| - 1;
            var before := Those(tokens[..n], wanted, answer);
            Those(tokens, wanted, answer) == if wanted(tokens[n]) == answer then before + [tokens[n]] else before
  {
  }

  lemma {:induction false} ThoseSplit(tokens: seq<string>, wanted: string -> bool)
    ensures multiset(Those(tokens, wanted, true)) + multiset(Those(tokens, wanted, false)) == multiset(tokens)
  {
    if tokens == [] {
    } else {
      var n := |tokens| - 1;
      var (yes, no) := (Those(tokens[..n], wanted, true), Those(tokens[..n], wanted, false));
      ThoseSplit(tokens[..n], wanted);
      assert tokens == tokens[..n] + [tokens[n]];
      LastOfThose(tokens, wanted, true);
      LastOfThose(tokens, wanted, false);
      hide Those;
      assert multiset(yes + [tokens[n]]) == multiset(yes) + multiset{tokens[n]};
      assert multiset(no + [tokens[n]]) == multiset(no) + multiset{tokens[n]};
    }
  }

  lemma {:induction false} ThoseMembers(tokens: seq<string>, wanted: string -> bool, answer: bool)
    ensures forall token :: token in Those(tokens, wanted, answer) <==> token in tokens && wanted(token) == answer
  {
    if tokens != [] {
      var n := |tokens| - 1;
      ThoseMembers(tokens[..n], wanted, answer);
      assert tokens == tokens[..n] + [tokens[n]];
    }
  }

  /** How many of n elements Python's [:bound] takes; a negative bound counts from the end. */
  function Taken(n: nat, bound: int): (taken: nat)
    ensures taken <= n
  {
    if bound >= n then n else if bound >= 0 then bound else if n + bound > 0 then n + bound else 0
  }

  /** The label override. Each usable token ends in exactly one of the lists: dropped past the
      limit, known when it is a topic label of the repository, unknown otherwise. So there is
      no override exactly when no token is usable. */
  method ResolveLabelOverride(labels: seq<string>, maxLabels: int, catalog: set<string>, isTopic: Matcher)
    returns (known: seq<string>, unknown: seq<string>, dropped: seq<string>)
    ensures var requested := Requested(labels);
            var taken := requested[..Taken(|requested|, maxLabels)];
            && multiset(known) + multiset(unknown) + multiset(dropped) == multiset(requested)
            && dropped == requested[|taken|..]
            && (forall token :: token in known <==> token in taken && isTopic(token) && token in catalog)
            && (forall token :: token in unknown <==> token in taken && !(isTopic(token) && token in catalog))
            && |dropped| == (if 0 <= maxLabels <= |requested| then |requested| - maxLabels
                             else if -|requested| < maxLabels < 0 then -maxLabels
                             else if maxLabels < 0 then |requested| else 0)
            && (known == [] && unknown == [] && dropped == [] <==> requested == [])
  {
    var requested: seq<string> := [];
    var seen: set<string> := {};
    for i := 0 to |labels|
      invariant requested == Requested(labels[..i])
      invariant forall token :: token in seen <==> token in requested
    {
      assert labels[..i + 1][..i] == labels[..i];
      var norm := Normalize(labels[i]);
      if norm == "" || norm in seen {
        continue;
      }
      seen := seen + {norm};
      requested := requested + [norm];
    }
    assert labels[..|labels|] == labels;
    var cut := Taken(|requested|, maxLabels);
    var kept := requested[..cut];
    dropped := requested[cut..];
    var wanted := token => isTopic(token) && token in catalog;
    known := Those(kept, wanted, true);
    unknown := Those(kept, wanted, false);
    ThoseMembers(kept, wanted, true);
    ThoseMembers(kept, wanted, false);
    NothingIsLost(requested, cut, wanted);
    hide Requested, Those, NoDuplicates;
  }

  lemma NothingIsLost(requested: seq<string>, cut: nat, wanted: string -> bool)
    requires cut <= |requested|
    ensures var (known, unknown) := (Those(requested[..cut], wanted, true), Those(requested[..cut], wanted, false));
            && multiset(known) + multiset(unknown) + multiset(requested[cut..]) == multiset(requested)
            && (known == [] && unknown == [] && requested[cut..] == [] <==> requested == [])
  {
    ThoseSplit(requested[..cut], wanted);
    hide Those;
    assert requested == requested[..cut] + requested[cut..];
    assert |multiset(requested[..cut])| == cut;
  }
}
