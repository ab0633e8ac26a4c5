/** Sequences without repetitions, and a stable sort by a strict weak order. */
module Sequences {

  predicate NoDuplicates<T(==)>(s: seq<T>)
  {
    forall i, j :: 0 <= i < j < |s| ==> s[i] != s[j]
  }

  /** Where in a sequence some chosen elements stand. */
  ghost function PositionsOf<T>(s: seq<T>, chosen: set<T>): set<nat>
  {
    set k: nat | k < |s| && s[k] in chosen
  }

  lemma PositionsAppend<T>(s: seq<T>, x: T, chosen: set<T>)
    ensures |PositionsOf(s + [x], chosen)| == |PositionsOf(s, chosen)| + if x in chosen then 1 else 0
  {
    assert PositionsOf(s + [x], chosen) == PositionsOf(s, chosen) + if x in chosen then {|s|} else {};
  }

  lemma {:induction false} PositionsInTail<T>(s: seq<T>, chosen: set<T>)
    requires s != []
    ensures |PositionsOf(s, chosen)| == |PositionsOf(s[1..], chosen)| + if s[0] in chosen then 1 else 0
    decreases |s|
  {
    var n := |s| - 1;
    PositionsAppend(s[..n], s[n], chosen);
    assert s == s[..n] + [s[n]];
    hide PositionsOf;
    if n == 0 {
      NoPositions(s[..0], chosen);
      NoPositions(s[1..], chosen);
    } else {
      PositionsInTail(s[..n], chosen);
      PositionsAppend(s[..n][1..], s[n], chosen);
      assert s[1..] == s[..n][1..] + [s[n]];
    }
  }

  lemma NoPositions<T>(s: seq<T>, chosen: set<T>)
    requires s == []
    ensures PositionsOf(s, chosen) == {}
  {
  }

  // Insertion keeps elements that neither precede each other in their order.
  function Insert<T>(x: T, sorted: seq<T>, before: (T, T) -> bool): seq<T>
  {
    if sorted == [] || !before(sorted[0], x) then [x] + sorted else [sorted[0]] + Insert(x, sorted[1..], before)
  }

  function Sort<T>(s: seq<T>, before: (T, T) -> bool): seq<T>
  {
    if s == [] then [] else Insert(s[0], Sort(s[1..], before), before)
  }

  ghost predicate IsWeakOrder<T(!new)>(before: (T, T) -> bool)
  {
    && (forall a, b :: before(a, b) ==> !before(b, a))
    && (forall a, b, c :: !before(a, b) && !before(b, c) ==> !before(a, c))
  }

  predicate Ordered<T>(s: seq<T>, before: (T, T) -> bool)
  {
    forall i, j :: 0 <= i < j < |s| ==> !before(s[j], s[i])
  }

  predicate NonePrecedes<T>(s: seq<T>, x: T, before: (T, T) -> bool)
  {
    forall i :: 0 <= i < |s| ==> !before(s[i], x)
  }

  lemma PrependKeepsOrder<T>(x: T, s: seq<T>, before: (T, T) -> bool)
    requires Ordered(s, before) && NonePrecedes(s, x, before)
    ensures Ordered([x] + s, before)
  {
  }

  lemma {:induction false} InsertAdds<T>(x: T, s: seq<T>, before: (T, T) -> bool)
    ensures multiset(Insert(x, s, before)) == multiset(s) + multiset{x}
  {
    if s != [] {
      InsertAdds(x, s[1..], before);
      assert s == [s[0]] + s[1..];
    }
  }

  lemma {:induction false} InsertKeepsBound<T>(x: T, s: seq<T>, bound: T, before: (T, T) -> bool)
    requires NonePrecedes(s, bound, before) && !before(x, bound)
    ensures NonePrecedes(Insert(x, s, before), bound, before)
  {
    if s != [] && before(s[0], x) {
      InsertKeepsBound(x, s[1..], bound, before);
    }
  }

  lemma {:induction false} InsertKeepsOrder<T(!new)>(x: T, s: seq<T>, before: (T, T) -> bool)
    requires IsWeakOrder(before) && Ordered(s, before)
    ensures Ordered(Insert(x, s, before), before)
  {
    if s != [] && before(s[0], x) {
      InsertKeepsOrder(x, s[1..], before);
      InsertKeepsBound(x, s[1..], s[0], before);
      PrependKeepsOrder(s[0], Insert(x, s[1..], before), before);
    } else {
      forall i | 0 <= i < |s|
        ensures !before(s[i], x)
      {
        assert i > 0 ==> !before(s[i], s[0]);
      }
      PrependKeepsOrder(x, s, before);
    }
  }

  /** Sorting gives an ordered permutation. */
  lemma {:induction false} SortSorts<T(!new)>(s: seq<T>, before: (T, T) -> bool)
    requires IsWeakOrder(before)
    ensures Ordered(Sort(s, before), before)
    ensures multiset(Sort(s, before)) == multiset(s)
  {
    if s != [] {
      SortSorts(s[1..], before);
      InsertKeepsOrder(s[0], Sort(s[1..], before), before);
      InsertAdds(s[0], Sort(s[1..], before), before);
      assert s == [s[0]] + s[1..];
    }
  }

  lemma SortedMembers<T(!new)>(s: seq<T>, before: (T, T) -> bool, x: T)
    requires IsWeakOrder(before)
    ensures x in Sort(s, before) <==> x in s
  {
    SortSorts(s, before);
    assert x in Sort(s, before) <==> x in multiset(Sort(s, before));
    assert x in s <==> x in multiset(s);
  }

  ghost predicate TiesAreEqual<T>(s: seq<T>, before: (T, T) -> bool)
  {
    forall i, j :: 0 <= i < |s| && 0 <= j < |s| && !before(s[i], s[j]) && !before(s[j], s[i]) ==> s[i] == s[j]
  }

  lemma SameHead<T>(s: seq<T>, t: seq<T>, before: (T, T) -> bool)
    requires Ordered(s, before) && Ordered(t, before) && TiesAreEqual(s, before)
    requires s != [] && t != [] && multiset(s) == multiset(t)
    ensures s[0] == t[0]
  {
    assert s[0] in multiset(t) && t[0] in multiset(s);
    var i :| 0 <= i < |t| && t[i] == s[0];
    var j :| 0 <= j < |s| && s[j] == t[0];
    if i > 0 && j > 0 {
      assert !before(t[i], t[0]) && !before(s[j], s[0]);
    }
  }

  /** Where only equal elements tie, the elements determine the ordered sequence. */
  lemma {:induction false} OneOrder<T>(s: seq<T>, t: seq<T>, before: (T, T) -> bool)
    requires Ordered(s, before) && Ordered(t, before) && TiesAreEqual(s, before)
    requires multiset(s) == multiset(t)
    ensures s == t
  {
    assert |s| == |multiset(s)| == |multiset(t)| == |t|;
    if s != [] {
      SameHead(s, t, before);
      TailsMatch(s, t);
      OneOrder(s[1..], t[1..], before);
      assert s == [s[0]] + s[1..] && t == [t[0]] + t[1..];
    }
  }

  lemma TailsMatch<T>(s: seq<T>, t: seq<T>)
    requires s != [] && t != [] && s[0] == t[0] && multiset(s) == multiset(t)
    ensures multiset(s[1..]) == multiset(t[1..])
  {
    assert s == [s[0]] + s[1..] && t == [t[0]] + t[1..];
    assert multiset(s[1..]) == multiset(s) - multiset{s[0]};
    assert multiset(t[1..]) == multiset(t) - multiset{t[0]};
  }

  lemma {:induction false} InsertByValues<T(!new)>(x: T, s: seq<T>, one: (T, T) -> bool, two: (T, T) -> bool)
    requires forall a, b :: one(a, b) == two(a, b)
    ensures Insert(x, s, one) == Insert(x, s, two)
  {
    if s != [] {
      assert one(s[0], x) == two(s[0], x);
      InsertByValues(x, s[1..], one, two);
    }
  }

  /** The sort depends on the order's values only. */
  lemma {:induction false} SortByValues<T(!new)>(s: seq<T>, one: (T, T) -> bool, two: (T, T) -> bool)
    requires forall a, b :: one(a, b) == two(a, b)
    ensures Sort(s, one) == Sort(s, two)
  {
    if s != [] {
      SortByValues(s[1..], one, two);
      InsertByValues(s[0], Sort(s[1..], one), one, two);
    }
  }

  lemma FewerStayDistinct<T(!new)>(some: seq<T>, all: seq<T>)
    requires NoDuplicates(all) && forall x :: multiset(some)[x] <= multiset(all)[x]
    ensures NoDuplicates(some)
  {
    forall i, j | 0 <= i < j < |some|
      ensures some[i] != some[j]
    {
      CountsAtMostOnce(all, some[i]);
      assert some == some[..j] + some[j..] && some[i] in some[..j] && some[j] in some[j..];
      assert multiset(some)[some[j]] == multiset(some[..j])[some[j]] + multiset(some[j..])[some[j]];
    }
  }

  lemma {:induction false} CountsAtMostOnce<T>(s: seq<T>, x: T)
    requires NoDuplicates(s)
    ensures multiset(s)[x] <= 1
  {
    if s == [] {
    } else {
      CountsAtMostOnce(s[1..], x);
      assert s == [s[0]] + s[1..];
      assert s[0] == x ==> x !in s[1..];
    }
  }

  lemma SameSize<T(!new)>(one: seq<T>, two: seq<T>)
    requires forall x :: multiset(one)[x] == multiset(two)[x]
    ensures |one| == |two|
  {
    assert multiset(one) == multiset(two);
    assert |one| == |multiset(one)| && |two| == |multiset(two)|;
  }
}
