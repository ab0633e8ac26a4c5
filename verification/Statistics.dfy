/** The dashboard's status counts and the stops of its pie chart. */
module Statistics {
  import opened Classification
  import opened Options
  import opened ReviewQueue
  import opened Sets

  // The statuses shown, in display order: all but Closed.
  const SHOWN: seq<PRStatus> := [
    AwaitingReview, StatusBlocked, AwaitingAuthor, StatusMergeConflict, StatusHelpWanted, NotReady,
    AwaitingDecision, NotFromFork, Contradictory, StatusDelegated, AwaitingBors
  ]

  datatype Statistics = Statistics(numberAll: nat, counts: seq<nat>, degrees: seq<int>, consistent: bool)

  function WithStatus(ready: map<int, PRStatus>, status: PRStatus): set<int>
  {
    set n | n in ready && ready[n] == status
  }

  /** The number of each status, drafts counting as not ready. */
  function Counts(ready: map<int, PRStatus>, drafts: nat, statuses: seq<PRStatus>): (counts: seq<nat>)
    ensures |counts| == |statuses|
    ensures forall i :: 0 <= i < |statuses| ==>
      counts[i] == |WithStatus(ready, statuses[i])| + if statuses[i] == NotReady then drafts else 0
  {
    seq(|statuses|, i requires 0 <= i < |statuses| =>
      |WithStatus(ready, statuses[i])| + if statuses[i] == NotReady then drafts else 0)
  }

  function Total(counts: seq<nat>): nat
  {
    if counts == [] then 0 else counts[0] + Total(counts[1..])
  }

  // Python's // on non-negative operands is Dafny's /.
  function Degree(cumulative: nat, numberAll: nat): int
    requires numberAll > 0
  {
    cumulative * 360 / numberAll
  }

  // d is the whole number of degrees that count of n takes of a circle.
  predicate IsShare(d: int, count: nat, n: nat)
  {
    d * n <= 360 * count < (d + 1) * n
  }

  lemma DegreeIsShare(count: nat, n: nat)
    requires n > 0
    ensures IsShare(Degree(count, n), count, n)
  {
    var d := Degree(count, n);
    assert d * n == n * d && (d + 1) * n == n * d + n;
  }

  method CountStatuses(ready: map<int, PRStatus>, drafts: nat, shown: seq<PRStatus>) returns (counts: seq<nat>)
    ensures counts == Counts(ready, drafts, shown)
  {
    hide WithStatus;
    counts := [];
    for i := 0 to |shown|
      invariant counts == Counts(ready, drafts, shown)[..i]
    {
      counts := counts + [|WithStatus(ready, shown[i])| + if shown[i] == NotReady then drafts else 0];
    }
  }

  /** The cumulative stops; the last cumulative sum comes along for the consistency check. */
  method PieStops(counts: seq<nat>, numberAll: nat) returns (degrees: seq<int>, cumulative: nat)
    requires numberAll > 0
    ensures |degrees| == |counts| && cumulative == Total(counts)
    ensures forall i :: 0 <= i < |counts| ==> degrees[i] == Degree(Total(counts[..i + 1]), numberAll)
    ensures forall i :: 0 <= i < |counts| ==> IsShare(degrees[i], Total(counts[..i + 1]), numberAll)
  {
    degrees, cumulative := [], 0;
    for i := 0 to |counts|
      invariant |degrees| == i && cumulative == Total(counts[..i])
      invariant forall j :: 0 <= j < i ==> degrees[j] == Degree(Total(counts[..j + 1]), numberAll)
      invariant forall j :: 0 <= j < i ==> IsShare(degrees[j], Total(counts[..j + 1]), numberAll)
    {
      TotalAppend(counts[..i], counts[i]);
      assert counts[..i + 1] == counts[..i] + [counts[i]];
      cumulative := cumulative + counts[i];
      DegreeIsShare(cumulative, numberAll);
      degrees := degrees + [Degree(cumulative, numberAll)];
    }
    assert counts[..|counts|] == counts;
  }

  /** The statistics of a dashboard. With no pull request at all the pie chart divides by
      zero, which is None. */
  method GatherStatistics(statuses: map<int, PRStatus>, ready: seq<BasicPR>, drafts: seq<BasicPR>)
    returns (r: Option<Statistics>)
    requires forall p :: p in ready ==> p.number in statuses
    ensures SHOWN == [
      AwaitingReview, StatusBlocked, AwaitingAuthor, StatusMergeConflict, StatusHelpWanted, NotReady,
      AwaitingDecision, NotFromFork, Contradictory, StatusDelegated, AwaitingBors]
    ensures r.None? <==> |ready| + |drafts| == 0
    ensures r.Some? ==>
      && r.value.numberAll == |ready| + |drafts|
      && r.value.counts == Counts(ReadyStatuses(statuses, ready), |drafts|, SHOWN)
      && |r.value.degrees| == |r.value.counts|
      && (forall i :: 0 <= i < |SHOWN| ==>
            r.value.counts[i]
            == |NumbersWith(statuses, ready, SHOWN[i])| + if SHOWN[i] == NotReady then |drafts| else 0)
      && (forall i :: 0 <= i < |r.value.degrees| ==>
            IsShare(r.value.degrees[i], Total(r.value.counts[..i + 1]), r.value.numberAll))
      && (r.value.consistent <==> Total(r.value.counts) == r.value.numberAll)
  {
    hide Counts, Total, ReadyStatuses;
    var counts := CountStatuses(ReadyStatuses(statuses, ready), |drafts|, SHOWN);
    var numberAll := |ready| + |drafts|;
    if numberAll == 0 {
      return None;
    }
    var degrees, cumulative := PieStops(counts, numberAll);
    CountedOnce(statuses, ready);
    r := Some(Statistics(numberAll, counts, degrees, cumulative == numberAll));
  }

  // The status of each ready pull request, keyed by number.
  function ReadyStatuses(statuses: map<int, PRStatus>, ready: seq<BasicPR>): map<int, PRStatus>
    requires forall p :: p in ready ==> p.number in statuses
  {
    map n | n in NumberSet(ready) :: statuses[n]
  }

  // The numbers of the ready pull requests with a status.
  function NumbersWith(statuses: map<int, PRStatus>, ready: seq<BasicPR>, status: PRStatus): set<int>
    requires forall p :: p in ready ==> p.number in statuses
  {
    set p | p in ready && statuses[p.number] == status :: p.number
  }

  lemma CountedOnce(statuses: map<int, PRStatus>, ready: seq<BasicPR>)
    requires forall p :: p in ready ==> p.number in statuses
    ensures forall status :: WithStatus(ReadyStatuses(statuses, ready), status) == NumbersWith(statuses, ready, status)
  {
    forall status
      ensures WithStatus(ReadyStatuses(statuses, ready), status) == NumbersWith(statuses, ready, status)
    {
      forall n | n in WithStatus(ReadyStatuses(statuses, ready), status)
        ensures n in NumbersWith(statuses, ready, status)
      {
        var p :| p in ready && p.number == n;
      }
    }
  }

  function NumberSet(prs: seq<BasicPR>): (numbers: set<int>)
    ensures forall n :: n in numbers ==> exists p :: p in prs && p.number == n
    ensures forall p :: p in prs ==> p.number in numbers
  {
    set p | p in prs :: p.number
  }

  lemma {:induction false} TotalAppend(counts: seq<nat>, n: nat)
    ensures Total(counts + [n]) == Total(counts) + n
  {
    if counts != [] {
      TotalAppend(counts[1..], n);
      assert (counts + [n])[1..] == counts[1..] + [n];
    }
  }

  // ---- The counts add up --------------------------------------------------------------------

  function WithAnyStatus(ready: map<int, PRStatus>, statuses: seq<PRStatus>): set<int>
  {
    set n | n in ready && ready[n] in statuses
  }

  lemma SplitByStatus(ready: map<int, PRStatus>, first: PRStatus, rest: seq<PRStatus>)
    requires first !in rest
    ensures |WithAnyStatus(ready, [first] + rest)| == |WithStatus(ready, first)| + |WithAnyStatus(ready, rest)|
  {
    assert WithAnyStatus(ready, [first] + rest) == WithStatus(ready, first) + WithAnyStatus(ready, rest);
    assert WithStatus(ready, first) !! WithAnyStatus(ready, rest);
  }

  lemma CountsHead(ready: map<int, PRStatus>, drafts: nat, first: PRStatus, rest: seq<PRStatus>)
    ensures Total(Counts(ready, drafts, [first] + rest))
         == |WithStatus(ready, first)| + (if first == NotReady then drafts else 0) + Total(Counts(ready, drafts, rest))
  {
    var counts := Counts(ready, drafts, [first] + rest);
    hide WithStatus;
    assert counts[1..] == Counts(ready, drafts, rest);
  }

  lemma {:induction false} CountsPartition(ready: map<int, PRStatus>, drafts: nat, statuses: seq<PRStatus>)
    requires forall i, j :: 0 <= i < j < |statuses| ==> statuses[i] != statuses[j]
    ensures Total(Counts(ready, drafts, statuses)) ==
            |WithAnyStatus(ready, statuses)| + if NotReady in statuses then drafts else 0
  {
    hide WithAnyStatus, WithStatus;
    if statuses == [] {
      NoStatus(ready);
    } else {
      hide Counts, Total;
      var first, rest := statuses[0], statuses[1..];
      assert statuses == [first] + rest && first !in rest;
      CountsPartition(ready, drafts, rest);
      CountsHead(ready, drafts, first, rest);
      SplitByStatus(ready, first, rest);
    }
  }

  lemma NoStatus(ready: map<int, PRStatus>)
    ensures WithAnyStatus(ready, []) == {}
  {
  }

  lemma {:induction false} NumberSetSize(prs: seq<BasicPR>)
    ensures |NumberSet(prs)| <= |prs|
    ensures |NumberSet(prs)| == |prs| <==> DistinctNumbers(prs)
  {
    if prs == [] {
      assert NumberSet(prs) == {};
    } else {
      var first, rest := prs[0], prs[1..];
      NumberSetSize(rest);
      NumbersHead(prs);
      DistinctHead(prs);
      hide NumberSet, DistinctNumbers;
      var numbers := NumberSet(rest);
      assert first.number in numbers ==> numbers + {first.number} == numbers;
    }
  }

  lemma NumbersHead(prs: seq<BasicPR>)
    requires prs != []
    ensures NumberSet(prs) == NumberSet(prs[1..]) + {prs[0].number}
  {
    assert prs == [prs[0]] + prs[1..];
  }

  lemma DistinctHead(prs: seq<BasicPR>)
    requires prs != []
    ensures DistinctNumbers(prs) <==> DistinctNumbers(prs[1..]) && prs[0].number !in NumberSet(prs[1..])
  {
    if DistinctNumbers(prs) {
      DistinctSplit(prs);
    } else {
      var i, j :| 0 <= i < j < |prs| && prs[i].number == prs[j].number;
      assert prs[j] == prs[1..][j - 1] && prs[j] in prs[1..];
      assert i > 0 ==> prs[i] == prs[1..][i - 1];
    }
  }

  lemma DistinctSplit(prs: seq<BasicPR>)
    requires prs != [] && DistinctNumbers(prs)
    ensures DistinctNumbers(prs[1..]) && prs[0].number !in NumberSet(prs[1..])
  {
    var rest := prs[1..];
    forall p | p in rest ensures p.number != prs[0].number {
      var i :| 0 <= i < |rest| && rest[i] == p;
      assert prs[i + 1] == p;
    }
  }

  /** The inconsistency message cannot fire exactly when the ready list has no number twice
      and no ready pull request is Closed. */
  lemma ConsistentExactly(statuses: map<int, PRStatus>, ready: seq<BasicPR>, drafts: nat)
    requires forall p :: p in ready ==> p.number in statuses
    ensures Total(Counts(ReadyStatuses(statuses, ready), drafts, SHOWN)) == |ready| + drafts <==>
            DistinctNumbers(ready) && forall p :: p in ready ==> statuses[p.number] != Closed
    ensures Total(Counts(ReadyStatuses(statuses, ready), drafts, SHOWN)) <= |ready| + drafts
  {
    ShownIsAllButClosed();
    ConsistentFor(statuses, ready, drafts, SHOWN);
  }

  lemma ConsistentFor(statuses: map<int, PRStatus>, ready: seq<BasicPR>, drafts: nat, shown: seq<PRStatus>)
    requires forall p :: p in ready ==> p.number in statuses
    requires forall i, j :: 0 <= i < j < |shown| ==> shown[i] != shown[j]
    requires forall s :: s in shown <==> s != Closed
    ensures var total := Total(Counts(ReadyStatuses(statuses, ready), drafts, shown));
            && total <= |ready| + drafts
            && (total == |ready| + drafts <==>
                  DistinctNumbers(ready) && forall p :: p in ready ==> statuses[p.number] != Closed)
  {
    hide Counts, Total;
    var table := ReadyStatuses(statuses, ready);
    var some := WithAnyStatus(table, shown);
    CountsPartition(table, drafts, shown);
    NumberSetSize(ready);
    SubsetIsSmaller(some, NumberSet(ready));
    if forall p :: p in ready ==> statuses[p.number] != Closed {
      assert some == NumberSet(ready);
    } else {
      var p :| p in ready && statuses[p.number] == Closed;
      assert p.number !in some && p.number in NumberSet(ready);
    }
  }

  function Position(status: PRStatus): (i: nat)
    ensures status != Closed ==> i < |SHOWN| && SHOWN[i] == status
  {
    match status
    case AwaitingReview => 0
    case StatusBlocked => 1
    case AwaitingAuthor => 2
    case StatusMergeConflict => 3
    case StatusHelpWanted => 4
    case NotReady => 5
    case AwaitingDecision => 6
    case NotFromFork => 7
    case Contradictory => 8
    case StatusDelegated => 9
    case AwaitingBors => 10
    case Closed => 11
  }

  lemma ShownIsAllButClosed()
    ensures forall s :: s in SHOWN <==> s != Closed
    ensures forall i, j :: 0 <= i < j < |SHOWN| ==> SHOWN[i] != SHOWN[j]
  {
    forall i | 0 <= i < |SHOWN| ensures Position(SHOWN[i]) == i {}
  }

  // ---- The stops of the pie chart ---------------------------------------------------------------

  lemma QuotientMonotone(a: nat, b: nat, n: nat)
    requires a <= b && n > 0
    ensures 0 <= a / n <= b / n
  {
    QuotientBounds(a, n, 0);
    QuotientBounds(a, n, a / n);
    QuotientBounds(b, n, a / n);
  }

  lemma DegreeFull(cumulative: nat, numberAll: nat)
    requires cumulative <= numberAll && numberAll > 0
    ensures Degree(cumulative, numberAll) <= 360
    ensures Degree(cumulative, numberAll) == 360 <==> cumulative == numberAll
  {
    QuotientBounds(cumulative * 360, numberAll, 360);
    QuotientBounds(cumulative * 360, numberAll, 361);
  }

  lemma QuotientBounds(a: nat, n: nat, d: nat)
    requires n > 0
    ensures a / n >= d <==> a >= n * d
  {
    var q := a / n;
    assert n * q <= a < n * q + n;
    if q >= d {
      Multiples(n, d, q);
    } else {
      Multiples(n, q + 1, d);
      assert n * (q + 1) == n * q + n;
    }
  }

  lemma {:induction false} Multiples(n: nat, few: nat, many: nat)
    requires few <= many
    ensures n * few <= n * many
    decreases many - few
  {
    if few < many {
      Multiples(n, few + 1, many);
      assert n * (few + 1) == n * few + n;
    }
  }

  lemma {:induction false} PrefixTotals(counts: seq<nat>, i: nat, j: nat)
    requires i <= j <= |counts|
    ensures Total(counts[..i]) <= Total(counts[..j]) <= Total(counts)
    decreases |counts| - i, |counts| - j
  {
    if i == j < |counts| {
      PrefixTotals(counts, i, j + 1);
    } else if i < j {
      PrefixTotals(counts, i + 1, j);
      TotalAppend(counts[..i], counts[i]);
      assert counts[..i + 1] == counts[..i] + [counts[i]];
    } else {
      assert counts[..i] == counts;
    }
  }

  /** Each stop is the whole number of degrees its cumulative count takes; the stops never
      decrease, lie in 0..360, and the last is 360 exactly when the counts add up to all. */
  lemma PieChartStops(counts: seq<nat>, numberAll: nat, i: nat, j: nat)
    requires numberAll > 0 && Total(counts) <= numberAll && i <= j < |counts|
    ensures 0 <= Degree(Total(counts[..i + 1]), numberAll) <= Degree(Total(counts[..j + 1]), numberAll) <= 360
    ensures IsShare(Degree(Total(counts[..i + 1]), numberAll), Total(counts[..i + 1]), numberAll)
    ensures j + 1 == |counts| ==>
      (Degree(Total(counts[..j + 1]), numberAll) == 360 <==> Total(counts) == numberAll)
  {
    PrefixTotals(counts, i + 1, j + 1);
    DegreeIsShare(Total(counts[..i + 1]), numberAll);
    QuotientMonotone(Total(counts[..i + 1]) * 360, Total(counts[..j + 1]) * 360, numberAll);
    DegreeFull(Total(counts[..j + 1]), numberAll);
    assert j + 1 == |counts| ==> counts[..j + 1] == counts;
  }

  // ---- From the open pull requests to the statistics ----------------------------------------------

  /** The status of each open pull request, determined at some time of its own. */
  function PrStatuses(clock: int -> Instant, infos: map<int, AggregatePR>, prs: seq<BasicPR>)
    : (statuses: map<int, PRStatus>)
    requires forall p :: p in prs ==> p.number in infos
  {
    map n | n in NumberSet(prs) :: AggregateStatus(clock(n), infos[n])
  }

  function WithDraftFlag(prs: seq<BasicPR>, infos: map<int, AggregatePR>, flag: bool): (some: seq<BasicPR>)
    requires forall p :: p in prs ==> p.number in infos
    ensures forall p :: p in some ==> p in prs
  {
    if prs == [] then []
    else
      var rest := WithDraftFlag(prs[1..], infos, flag);
      if infos[prs[0].number].isDraft == flag then [prs[0]] + rest else rest
  }

  lemma {:induction false} DraftsAndReady(prs: seq<BasicPR>, infos: map<int, AggregatePR>)
    requires forall p :: p in prs ==> p.number in infos
    ensures |WithDraftFlag(prs, infos, false)| + |WithDraftFlag(prs, infos, true)| == |prs|
    ensures forall p :: p in WithDraftFlag(prs, infos, false) <==> p in prs && !infos[p.number].isDraft
  {
    if prs == [] {
    } else {
      DraftsAndReady(prs[1..], infos);
    }
  }

  /** With statuses from the classifier the statistics of any open pull requests add up, and
      the pie chart closes, exactly when no ready number occurs twice. */
  lemma OpenPullRequestsAddUp(clock: int -> Instant, infos: map<int, AggregatePR>, prs: seq<BasicPR>)
    requires prs != [] && forall p :: p in prs ==> p.number in infos
    ensures var statuses, ready := PrStatuses(clock, infos, prs), WithDraftFlag(prs, infos, false);
            var counts := Counts(ReadyStatuses(statuses, ready), |WithDraftFlag(prs, infos, true)|, SHOWN);
            && (forall p :: p in prs ==> statuses[p.number] == AggregateStatus(clock(p.number), infos[p.number]))
            && (forall p :: p in ready <==> p in prs && !infos[p.number].isDraft)
            && Total(counts) <= |prs|
            && (Total(counts) == |prs| <==> DistinctNumbers(ready))
            && (Degree(Total(counts), |prs|) == 360 <==> DistinctNumbers(ready))
  {
    var statuses, ready := PrStatuses(clock, infos, prs), WithDraftFlag(prs, infos, false);
    var drafts := WithDraftFlag(prs, infos, true);
    DraftsAndReady(prs, infos);
    ConsistentExactly(statuses, ready, |drafts|);
    forall p | p in ready
      ensures statuses[p.number] != Closed
    {
      NeverClosed(clock(p.number), infos[p.number]);
    }
    hide Counts, Total, ReadyStatuses, WithDraftFlag, DistinctNumbers, Degree;
    DegreeFull(Total(Counts(ReadyStatuses(statuses, ready), |drafts|, SHOWN)), |prs|);
  }

  lemma NeverClosed(now: Instant, info: AggregatePR)
    ensures AggregateStatus(now, info) != Closed
  {
    var state := PRState(KindsOf(Names(info.labels)), info.ci, info.isDraft, info.headRepo != HOME_REPO);
    AnswerComesFromSomeKind(now, state, None);
    hide DeterminePRStatus;
  }
}
