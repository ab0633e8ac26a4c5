/** The ranking behind on-demand suggestions. Its sort key ends in the pull request number,
    so numbers only tie with themselves, and the answer does not depend on the order of the
    pool. */
module SuggestionRanking {
  import opened Options
  import opened Sequences
  import opened SuggestionWalk

  datatype Key = Key(unassignable: nat, available: nat, remaining: real, negatedAge: real, title: nat, number: int)

  // Tuples are compared component by component.
  predicate Less(a: Key, b: Key)
  {
    if a.unassignable != b.unassignable then a.unassignable < b.unassignable
    else if a.available != b.available then a.available < b.available
    else if a.remaining != b.remaining then a.remaining < b.remaining
    else if a.negatedAge != b.negatedAge then a.negatedAge < b.negatedAge
    else if a.title != b.title then a.title < b.title
    else a.number < b.number
  }

  // A number without a payload entry has the empty tuple as its key, which comes first.
  predicate Precedes(a: Option<Key>, b: Option<Key>)
  {
    b.Some? && (a.Some? ==> Less(a.value, b.value))
  }

  function ByKey(key: int -> Option<Key>): (int, int) -> bool
  {
    (a, b) => Precedes(key(a), key(b))
  }

  function Rank(pool: seq<int>, key: int -> Option<Key>): seq<int>
  {
    Sort(pool, ByKey(key))
  }

  lemma PrecedesIsWeakOrder(a: Option<Key>, b: Option<Key>, c: Option<Key>)
    ensures Precedes(a, b) ==> !Precedes(b, a)
    ensures !Precedes(a, b) && !Precedes(b, c) ==> !Precedes(a, c)
  {
  }

  lemma ByKeyIsWeakOrder(key: int -> Option<Key>)
    ensures IsWeakOrder(ByKey(key))
  {
    forall a, b, c
      ensures ByKey(key)(a, b) ==> !ByKey(key)(b, a)
      ensures !ByKey(key)(a, b) && !ByKey(key)(b, c) ==> !ByKey(key)(a, c)
    {
      PrecedesIsWeakOrder(key(a), key(b), key(c));
    }
  }

  /** The ranking is an ordered permutation of the pool. */
  lemma RankSorts(pool: seq<int>, key: int -> Option<Key>)
    ensures Ordered(Rank(pool, key), ByKey(key))
    ensures multiset(Rank(pool, key)) == multiset(pool)
  {
    ByKeyIsWeakOrder(key);
    SortSorts(pool, ByKey(key));
  }

  ghost predicate NamesItsNumber(key: int -> Option<Key>, number: int)
  {
    key(number).Some? && key(number).value.number == number
  }

  lemma {:induction false} EligibleKeepsOrder(ranked: seq<int>, before: (int, int) -> bool, judge: int -> Judgement)
    requires Ordered(ranked, before)
    ensures Ordered(EligibleIn(ranked, judge), before)
  {
    if ranked != [] {
      var n := |ranked| - 1;
      EligibleKeepsOrder(ranked[..n], before, judge);
      var eligible := EligibleIn(ranked[..n], judge);
      forall i | 0 <= i < |eligible|
        ensures !before(ranked[n], eligible[i])
      {
        EligibleMembers(ranked[..n], judge, eligible[i]);
        assert eligible[i] in eligible;
        var k :| 0 <= k < n && ranked[k] == eligible[i];
      }
    }
  }

  lemma EligibleTiesAreEqual(ranked: seq<int>, key: int -> Option<Key>, judge: int -> Judgement)
    requires forall number :: judge(number) == Eligible ==> NamesItsNumber(key, number)
    ensures TiesAreEqual(EligibleIn(ranked, judge), ByKey(key))
  {
    var s := EligibleIn(ranked, judge);
    forall i, j | 0 <= i < |s| && 0 <= j < |s| && !ByKey(key)(s[i], s[j]) && !ByKey(key)(s[j], s[i])
      ensures s[i] == s[j]
    {
      assert s[i] in s && s[j] in s;
      EligibleMembers(ranked, judge, s[i]);
      EligibleMembers(ranked, judge, s[j]);
      assert NamesItsNumber(key, s[i]) && NamesItsNumber(key, s[j]);
    }
  }

  /** Pools that hold the eligible numbers equally often, in whatever order and among
      whatever others, give the same eligible pull requests in the same order; so the
      suggestions under every limit are the same. */
  lemma OnlyEligibleNumbersMatter(one: seq<int>, two: seq<int>, key: int -> Option<Key>, judge: int -> Judgement)
    requires AgreeOn(one, two, judge, Eligible)
    requires forall number :: judge(number) == Eligible ==> NamesItsNumber(key, number)
    ensures EligibleIn(Rank(one, key), judge) == EligibleIn(Rank(two, key), judge)
  {
    RankSorts(one, key);
    RankSorts(two, key);
    EligibleKeepsOrder(Rank(one, key), ByKey(key), judge);
    EligibleKeepsOrder(Rank(two, key), ByKey(key), judge);
    EligibleTiesAreEqual(Rank(one, key), key, judge);
    SameCounts(Rank(one, key), Rank(two, key), judge, Eligible);
    OneOrder(EligibleIn(Rank(one, key), judge), EligibleIn(Rank(two, key), judge), ByKey(key));
  }

  lemma SameCountsRanked(one: seq<int>, two: seq<int>, key: int -> Option<Key>, judge: int -> Judgement,
                         judgement: Judgement)
    requires AgreeOn(one, two, judge, judgement)
    ensures CountIn(Rank(one, key), judge, judgement) == CountIn(Rank(two, key), judge, judgement)
    ensures CountIn(Rank(one, key), judge, judgement) == CountIn(one, judge, judgement)
  {
    RankSorts(one, key);
    RankSorts(two, key);
    SameCounts(Rank(one, key), Rank(two, key), judge, judgement);
    SameCounts(Rank(one, key), one, judge, judgement);
  }

  lemma RankByValues(pool: seq<int>, one: int -> Option<Key>, two: int -> Option<Key>)
    requires forall number :: one(number) == two(number)
    ensures Rank(pool, one) == Rank(pool, two)
  {
    forall a, b
      ensures ByKey(one)(a, b) == ByKey(two)(a, b)
    {
      assert one(a) == two(a) && one(b) == two(b);
    }
    SortByValues(pool, ByKey(one), ByKey(two));
  }
}
