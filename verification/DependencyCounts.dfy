/** Transitive dependency counts of pull requests. The dependency graph comes from free
    text, so it may hold cycles, self-loops and unknown numbers. A worklist search from
    each node counts the others it reaches along, and against, the dependency edges. */
module DependencyCounts {
  import opened Sets

  type Graph<N> = map<N, set<N>>

  datatype Counts = Counts(upstream: int, downstream: int)

  datatype ColumnInfo = ColumnInfo(upstream: int, downstream: int, directUpstream: int, directDownstream: int)

  // ---- Edges and paths ------------------------------------------------------------------------

  predicate Edge<N>(direct: map<N, seq<N>>, pr: N, dep: N)
  {
    pr in direct && dep in direct && dep in direct[pr]
  }

  function Forward<N>(direct: map<N, seq<N>>): Graph<N>
  {
    map pr | pr in direct :: set dep | dep in direct[pr] && dep in direct
  }

  function Backward<N>(direct: map<N, seq<N>>): Graph<N>
  {
    map dep | dep in direct :: set pr | pr in direct && dep in direct[pr]
  }

  /** Every edge ends at a node of the graph. */
  predicate Closed<N>(graph: Graph<N>)
  {
    forall n, m :: n in graph && m in graph[n] ==> m in graph
  }

  predicate Linked<N>(graph: Graph<N>, path: seq<N>, i: nat)
    requires i + 1 < |path|
  {
    path[i] in graph && path[i + 1] in graph[path[i]]
  }

  predicate IsPath<N>(graph: Graph<N>, path: seq<N>)
  {
    && path != []
    && (forall i :: 0 <= i < |path| ==> path[i] in graph)
    && (forall i :: 0 <= i < |path| - 1 ==> Linked(graph, path, i))
  }

  ghost predicate PathBetween<N>(graph: Graph<N>, path: seq<N>, start: N, end: N)
  {
    IsPath(graph, path) && path[0] == start && path[|path| - 1] == end
  }

  ghost predicate Reaches<N(!new)>(graph: Graph<N>, start: N, end: N)
  {
    exists path :: PathBetween(graph, path, start, end)
  }

  ghost function Reachable<N(!new)>(graph: Graph<N>, start: N): set<N>
  {
    set n | n in graph && Reaches(graph, start, n)
  }

  lemma ReachesItself<N(!new)>(graph: Graph<N>, n: N)
    requires n in graph
    ensures Reaches(graph, n, n)
  {
    assert PathBetween(graph, [n], n, n);
  }

  lemma ReachesExtend<N(!new)>(graph: Graph<N>, start: N, n: N, m: N)
    requires Reaches(graph, start, n) && n in graph && m in graph[n] && m in graph
    ensures Reaches(graph, start, m)
  {
    assert PathBetween(graph, [n, m], n, m);
    ReachesTransitive(graph, start, n, m);
  }

  lemma ReachesTransitive<N(!new)>(graph: Graph<N>, a: N, b: N, c: N)
    requires Reaches(graph, a, b) && Reaches(graph, b, c)
    ensures Reaches(graph, a, c)
  {
    var one :| PathBetween(graph, one, a, b);
    var two :| PathBetween(graph, two, b, c);
    var path, k := one + two[1..], |one| - 1;
    forall i | 0 <= i < |path| - 1 ensures Linked(graph, path, i) {
      assert if i < k then Linked(graph, one, i) else Linked(graph, two, i - k);
    }
    assert PathBetween(graph, path, a, c);
  }

  lemma {:induction false} ClosedSetHoldsPath<N>(graph: Graph<N>, seen: set<N>, path: seq<N>)
    requires IsPath(graph, path) && path[0] in seen
    requires forall n :: n in seen && n in graph ==> graph[n] <= seen
    ensures path[|path| - 1] in seen
    decreases |path|
  {
    if |path| > 1 {
      assert Linked(graph, path, 0);
      var rest := path[1..];
      forall i | 0 <= i < |rest| - 1 ensures Linked(graph, rest, i) { assert Linked(graph, path, i + 1); }
      ClosedSetHoldsPath(graph, seen, rest);
    }
  }

  // ---- The worklist search ----------------------------------------------------------------------

  // The edges found once the lists of the nodes in done have been read.
  function ForwardFrom<N>(direct: map<N, seq<N>>, done: set<N>): Graph<N>
  {
    map pr | pr in direct :: if pr in done then Forward(direct)[pr] else {}
  }

  function BackwardFrom<N>(direct: map<N, seq<N>>, done: set<N>): Graph<N>
  {
    map dep | dep in direct :: Backward(direct)[dep] * done
  }

  function WithBack<N>(back: Graph<N>, deps: seq<N>, pr: N): Graph<N>
  {
    map n | n in back :: if n in deps then back[n] + {pr} else back[n]
  }

  lemma FillForward<N>(direct: map<N, seq<N>>, done: set<N>, pr: N)
    requires pr in direct && pr !in done
    ensures ForwardFrom(direct, done)[pr] == {}
    ensures ForwardFrom(direct, done + {pr}) ==
            ForwardFrom(direct, done)[pr := set dep | dep in direct[pr] && dep in direct]
  {
  }

  lemma BackwardGains<N>(direct: map<N, seq<N>>, done: set<N>, pr: N, n: N)
    requires pr in direct && n in direct
    ensures n in Backward(direct)
    ensures Backward(direct)[n] * (done + {pr})
         == if n in direct[pr] then Backward(direct)[n] * done + {pr} else Backward(direct)[n] * done
  {
  }

  lemma FillStep<N>(direct: map<N, seq<N>>, done: set<N>, pr: N)
    requires pr in direct && pr !in done
    ensures ForwardFrom(direct, done)[pr] == {}
    ensures ForwardFrom(direct, done + {pr}) ==
            ForwardFrom(direct, done)[pr := set dep | dep in direct[pr] && dep in direct]
    ensures BackwardFrom(direct, done + {pr}) == WithBack(BackwardFrom(direct, done), direct[pr], pr)
  {
    FillForward(direct, done, pr);
    hide ForwardFrom, Forward;
    forall n | n in direct
      ensures n in Backward(direct)
      ensures Backward(direct)[n] * (done + {pr}) ==
              if n in direct[pr] then Backward(direct)[n] * done + {pr} else Backward(direct)[n] * done
    {
      BackwardGains(direct, done, pr, n);
    }
    hide Backward;
  }

  lemma FillKeys<N>(direct: map<N, seq<N>>, done: set<N>)
    ensures ForwardFrom(direct, done).Keys == BackwardFrom(direct, done).Keys == direct.Keys
  {
    hide Forward, Backward;
    EdgesStayInside(direct);
  }

  lemma FillEnds<N>(direct: map<N, seq<N>>)
    ensures ForwardFrom(direct, {}) == (map n | n in direct :: {})
    ensures BackwardFrom(direct, {}) == (map n | n in direct :: {})
    ensures ForwardFrom(direct, direct.Keys) == Forward(direct)
    ensures BackwardFrom(direct, direct.Keys) == Backward(direct)
  {
    forall n | n in direct
      ensures Backward(direct)[n] * {} == {} && Backward(direct)[n] * direct.Keys == Backward(direct)[n]
    {}
  }

  /** The adjacency sets of both directions, filled edge by edge. */
  method BuildAdjacency<N>(direct: map<N, seq<N>>) returns (forward: Graph<N>, backward: Graph<N>)
    ensures forward == Forward(direct) && backward == Backward(direct)
  {
    hide ForwardFrom, BackwardFrom, WithBack, Forward, Backward;
    forward := map pr | pr in direct :: {};
    backward := map pr | pr in direct :: {};
    FillEnds(direct);
    var left := direct.Keys;
    ghost var done: set<N> := {};
    while left != {}
      invariant left <= direct.Keys && done == direct.Keys - left
      invariant forward == ForwardFrom(direct, done) && backward == BackwardFrom(direct, done)
      decreases |left|
    {
      var pr := PickAny(left);
      FillKeys(direct, done);
      FillStep(direct, done, pr);
      forward, backward := AddDependencies(pr, direct[pr], forward, backward);
      left, done := left - {pr}, done + {pr};
      assert done == direct.Keys - left;
    }
    assert done == direct.Keys;
  }

  method AddDependencies<N>(pr: N, deps: seq<N>, before: Graph<N>, beforeBack: Graph<N>)
    returns (forward: Graph<N>, backward: Graph<N>)
    requires before.Keys == beforeBack.Keys && pr in before
    ensures forward == before[pr := before[pr] + set dep | dep in deps && dep in before]
    ensures backward == WithBack(beforeBack, deps, pr) && backward.Keys == beforeBack.Keys
  {
    forward, backward := before, beforeBack;
    for i := 0 to |deps|
      invariant forward.Keys == before.Keys && forward == before[pr := forward[pr]]
      invariant forward[pr] == before[pr] + set dep | dep in deps[..i] && dep in before
      invariant backward == WithBack(beforeBack, deps[..i], pr)
    {
      var dep := deps[i];
      assert deps[..i + 1] == deps[..i] + [dep];
      if dep in forward {
        forward := forward[pr := forward[pr] + {dep}];
        backward := backward[dep := backward[dep] + {pr}];
      }
    }
    assert deps[..|deps|] == deps;
  }

  /** The number of other nodes reachable from start: the search ends on every graph, and
      what it has seen is exactly what start reaches. */
  method CountReachable<N(!new)>(graph: Graph<N>, start: N) returns (count: int)
    requires Closed(graph) && start in graph
    ensures count == |Reachable(graph, start) - {start}|
  {
    var seen, queue := {start}, [start];
    ReachesItself(graph, start);
    while queue != []
      invariant start in seen && seen <= graph.Keys
      invariant forall n :: n in queue ==> n in seen
      invariant forall n :: n in seen ==> Reaches(graph, start, n)
      invariant forall n :: n in seen ==> n in queue || graph[n] <= seen
      decreases graph.Keys - seen, |queue|
    {
      var current := queue[|queue| - 1];
      assert queue == queue[..|queue| - 1] + [current];
      queue := queue[..|queue| - 1];
      ghost var seenBefore, rest := seen, queue;
      var todo := graph[current];
      while todo != {}
        invariant seenBefore <= seen <= graph.Keys && todo <= graph[current]
        invariant forall n :: n in rest ==> n in queue
        invariant forall n :: n in queue ==> n in seen
        invariant forall n :: n in seen ==> Reaches(graph, start, n)
        invariant forall n :: n in seen ==> n == current || n in queue || graph[n] <= seen
        invariant graph[current] - todo <= seen
        invariant seen == seenBefore ==> queue == rest
        decreases |todo|
      {
        var neighbour := PickAny(todo);
        todo := todo - {neighbour};
        if neighbour !in seen {
          ReachesExtend(graph, start, current, neighbour);
          seen := seen + {neighbour};
          queue := queue + [neighbour];
        }
      }
    }
    forall n | n in Reachable(graph, start) ensures n in seen {
      var path :| PathBetween(graph, path, start, n);
      ClosedSetHoldsPath(graph, seen, path);
    }
    assert seen == Reachable(graph, start);
    count := |seen| - 1;
  }

  method ReachableCounts<N(!new)>(graph: Graph<N>) returns (counts: map<N, int>)
    requires Closed(graph)
    ensures counts.Keys == graph.Keys
    ensures forall n :: n in graph ==> counts[n] == |Reachable(graph, n) - {n}|
  {
    counts := map[];
    var left := graph.Keys;
    while left != {}
      invariant left <= graph.Keys && counts.Keys == graph.Keys - left
      invariant forall n :: n in counts ==> counts[n] == |Reachable(graph, n) - {n}|
      decreases |left|
    {
      var start := PickAny(left);
      var count := CountReachable(graph, start);
      counts := counts[start := count];
      left := left - {start};
    }
  }

  lemma EdgesStayInside<N>(direct: map<N, seq<N>>)
    ensures Closed(Forward(direct)) && Closed(Backward(direct))
    ensures Forward(direct).Keys == Backward(direct).Keys == direct.Keys
  {
  }

  ghost function Upstream<N(!new)>(direct: map<N, seq<N>>, pr: N): set<N>
  {
    Reachable(Forward(direct), pr) - {pr}
  }

  ghost function Downstream<N(!new)>(direct: map<N, seq<N>>, pr: N): set<N>
  {
    Reachable(Backward(direct), pr) - {pr}
  }

  lemma UpstreamSizes<N(!new)>(direct: map<N, seq<N>>, sizes: map<N, int>)
    requires sizes.Keys == direct.Keys == Forward(direct).Keys
    requires forall n :: n in Forward(direct) ==> sizes[n] == |Reachable(Forward(direct), n) - {n}|
    ensures forall pr :: pr in direct ==> sizes[pr] == |Upstream(direct, pr)|
  {
    hide Reachable, Forward;
  }

  lemma DownstreamSizes<N(!new)>(direct: map<N, seq<N>>, sizes: map<N, int>)
    requires sizes.Keys == direct.Keys == Backward(direct).Keys
    requires forall n :: n in Backward(direct) ==> sizes[n] == |Reachable(Backward(direct), n) - {n}|
    ensures forall pr :: pr in direct ==> sizes[pr] == |Downstream(direct, pr)|
  {
    hide Reachable, Backward;
  }

  lemma GraphsHaveTheNodes<N(!new)>(direct: map<N, seq<N>>)
    ensures Forward(direct).Keys == direct.Keys && Backward(direct).Keys == direct.Keys
  {
  }

  method TransitiveDependencyCounts<N(!new)>(direct: map<N, seq<N>>) returns (counts: map<N, Counts>)
    ensures counts.Keys == direct.Keys
    ensures forall pr :: pr in direct ==>
      counts[pr] == Counts(|Upstream(direct, pr)|, |Downstream(direct, pr)|)
  {
    hide Upstream, Downstream;
    var upstream, downstream := BothCounts(direct);
    counts := map pr | pr in direct :: Counts(upstream[pr], downstream[pr]);
  }

  method BothCounts<N(!new)>(direct: map<N, seq<N>>) returns (upstream: map<N, int>, downstream: map<N, int>)
    ensures upstream.Keys == direct.Keys == downstream.Keys
    ensures forall pr :: pr in direct ==> upstream[pr] == |Upstream(direct, pr)|
    ensures forall pr :: pr in direct ==> downstream[pr] == |Downstream(direct, pr)|
  {
    hide Reachable, Forward, Backward, Closed, Upstream, Downstream;
    var forward, backward := Graphs(direct);
    upstream := ReachableCounts(forward);
    UpstreamSizes(direct, upstream);
    downstream := ReachableCounts(backward);
    DownstreamSizes(direct, downstream);
  }

  method Graphs<N(!new)>(direct: map<N, seq<N>>) returns (forward: Graph<N>, backward: Graph<N>)
    ensures forward == Forward(direct) && backward == Backward(direct)
    ensures Closed(forward) && Closed(backward) && forward.Keys == backward.Keys == direct.Keys
  {
    EdgesStayInside(direct);
    GraphsHaveTheNodes(direct);
    hide Forward, Backward, Closed;
    forward, backward := BuildAdjacency(direct);
  }

  // ---- The two directions are dual ----------------------------------------------------------------

  function Reversed<N>(path: seq<N>): (r: seq<N>)
    ensures |r| == |path| && forall i :: 0 <= i < |r| ==> r[i] == path[|path| - 1 - i]
  {
    seq(|path|, i requires 0 <= i < |path| => path[|path| - 1 - i])
  }

  lemma ReversePath<N>(direct: map<N, seq<N>>, path: seq<N>)
    ensures IsPath(Forward(direct), path) <==> IsPath(Backward(direct), Reversed(path))
  {
    var r, last := Reversed(path), |path| - 2;
    forall i | 0 <= i < |path| - 1
      ensures Linked(Forward(direct), path, i) <==> Linked(Backward(direct), r, last - i)
    {
      assert r[last - i] == path[i + 1] && r[last - i + 1] == path[i];
    }
    assert forall i :: 0 <= i < |path| ==> path[i] == r[|path| - 1 - i];
    if IsPath(Forward(direct), path) {
      forall i | 0 <= i < |r| - 1 ensures Linked(Backward(direct), r, i) {
        assert Linked(Forward(direct), path, last - i);
      }
    }
    if IsPath(Backward(direct), r) {
      forall i | 0 <= i < |path| - 1 ensures Linked(Forward(direct), path, i) {
        assert Linked(Backward(direct), r, last - i);
      }
    }
  }

  lemma ReverseReaches<N(!new)>(direct: map<N, seq<N>>, a: N, b: N)
    ensures Reaches(Forward(direct), a, b) <==> Reaches(Backward(direct), b, a)
  {
    if path :| PathBetween(Forward(direct), path, a, b) {
      ReversePath(direct, path);
      assert PathBetween(Backward(direct), Reversed(path), b, a);
    }
    if path :| PathBetween(Backward(direct), path, b, a) {
      ReversePath(direct, Reversed(path));
      assert Reversed(Reversed(path)) == path;
      assert PathBetween(Forward(direct), Reversed(path), a, b);
    }
  }

  /** d is upstream of p exactly when p is downstream of d. */
  lemma UpstreamIffDownstream<N(!new)>(direct: map<N, seq<N>>, p: N, d: N)
    requires p in direct && d in direct
    ensures d in Upstream(direct, p) <==> p in Downstream(direct, d)
  {
    ReverseReaches(direct, p, d);
  }

  // ---- Sums over a set of nodes ---------------------------------------------------------------------

  function At<N>(m: map<N, int>, n: N): int
  {
    if n in m then m[n] else 0
  }

  ghost function Sum<N>(nodes: set<N>, m: map<N, int>): int
  {
    if nodes == {} then 0 else At(m, Pick(nodes)) + Sum(nodes - {Pick(nodes)}, m)
  }

  lemma {:induction false} SumInsert<N>(nodes: set<N>, n: N, m: map<N, int>)
    requires n !in nodes
    ensures Sum(nodes + {n}, m) == At(m, n) + Sum(nodes, m)
    decreases |nodes|
  {
    var all := nodes + {n};
    var x := Pick(all);
    if x == n {
      assert all - {x} == nodes;
    } else {
      var fewer := nodes - {x};
      assert all - {x} == fewer + {n} && nodes == fewer + {x};
      SumInsert(fewer, n, m);
      SumInsert(fewer, x, m);
    }
  }

  /** If f exceeds g by one on the bumped nodes only, so do the sums, by their number. */
  lemma {:induction false} SumShift<N>(nodes: set<N>, bumped: set<N>, f: map<N, int>, g: map<N, int>)
    requires forall n :: n in nodes ==> At(f, n) == At(g, n) + if n in bumped then 1 else 0
    ensures Sum(nodes, f) == Sum(nodes, g) + |nodes * bumped|
    decreases |nodes|
  {
    if nodes == {} {
      assert nodes * bumped == {};
    } else {
      var n := Pick(nodes);
      var fewer := nodes - {n};
      SumShift(fewer, bumped, f, g);
      assert nodes * bumped == fewer * bumped + if n in bumped then {n} else {};
    }
  }

  lemma {:induction false} SumOfZeros<N>(nodes: set<N>, m: map<N, int>)
    requires forall n :: n in nodes ==> At(m, n) == 0
    ensures Sum(nodes, m) == 0
    decreases |nodes|
  {
    if nodes != {} {
      SumOfZeros(nodes - {Pick(nodes)}, m);
    }
  }

  function Sizes<N>(graph: Graph<N>): map<N, int>
  {
    map n | n in graph :: |graph[n]|
  }

  function SizesWithin<N>(graph: Graph<N>, rows: set<N>): map<N, int>
  {
    map n | n in graph :: |graph[n] * rows|
  }

  lemma OneRowMore<N>(column: Graph<N>, rows: set<N>, a: N, holders: set<N>)
    requires a !in rows && holders <= column.Keys
    requires forall b :: b in column ==> (b in holders <==> a in column[b])
    ensures Sum(column.Keys, SizesWithin(column, rows + {a})) == Sum(column.Keys, SizesWithin(column, rows)) + |holders|
  {
    hide Sum, SizesWithin, At;
    var more, fewer := SizesWithin(column, rows + {a}), SizesWithin(column, rows);
    forall b | b in column
      ensures At(more, b) == At(fewer, b) + if b in holders then 1 else 0
    {
      SizeAt(column, rows + {a}, b);
      SizeAt(column, rows, b);
      OneMoreWithin(column[b], rows, a);
    }
    SumShift(column.Keys, holders, more, fewer);
    assert column.Keys * holders == holders;
  }

  lemma SizeAt<N>(graph: Graph<N>, rows: set<N>, n: N)
    requires n in graph
    ensures At(SizesWithin(graph, rows), n) == |graph[n] * rows|
  {
  }

  lemma OneMoreWithin<N>(some: set<N>, rows: set<N>, a: N)
    requires a !in rows
    ensures |some * (rows + {a})| == |some * rows| + if a in some then 1 else 0
  {
    assert some * (rows + {a}) == some * rows + if a in some then {a} else {};
  }

  predicate Dual<N>(row: Graph<N>, column: Graph<N>)
  {
    && (forall a :: a in row ==> row[a] <= column.Keys)
    && (forall a, b :: a in row && b in column ==> (b in row[a] <==> a in column[b]))
  }

  /** Counting the pairs of a relation row by row or column by column gives one total. */
  lemma {:induction false} CountBothWays<N>(rows: set<N>, row: Graph<N>, column: Graph<N>)
    requires rows <= row.Keys && Dual(row, column)
    ensures Sum(rows, Sizes(row)) == Sum(column.Keys, SizesWithin(column, rows))
    decreases |rows|
  {
    if rows == {} {
      SumOfZeros(column.Keys, SizesWithin(column, rows));
    } else {
      var a := Pick(rows);
      CountBothWays(rows - {a}, row, column);
      OneRowMore(column, rows - {a}, a, row[a]);
      assert rows - {a} + {a} == rows;
    }
  }

  lemma DualTotals<N>(row: Graph<N>, column: Graph<N>)
    requires row.Keys == column.Keys && Dual(row, column) && Dual(column, row)
    ensures Sum(row.Keys, Sizes(row)) == Sum(row.Keys, Sizes(column))
  {
    CountBothWays(row.Keys, row, column);
    AllSizes(column, row.Keys);
    hide Sum, Sizes, SizesWithin;
  }

  lemma AllSizes<N>(column: Graph<N>, rows: set<N>)
    requires forall b :: b in column ==> column[b] <= rows
    ensures SizesWithin(column, rows) == Sizes(column)
  {
    forall b | b in column ensures column[b] * rows == column[b] {}
  }

  ghost function UpstreamSets<N(!new)>(direct: map<N, seq<N>>): Graph<N>
  {
    map pr | pr in direct :: Upstream(direct, pr)
  }

  ghost function DownstreamSets<N(!new)>(direct: map<N, seq<N>>): Graph<N>
  {
    map pr | pr in direct :: Downstream(direct, pr)
  }

  /** Total upstream equals total downstream. */
  lemma TotalsAreEqual<N(!new)>(direct: map<N, seq<N>>)
    ensures Sum(direct.Keys, Sizes(UpstreamSets(direct))) == Sum(direct.Keys, Sizes(DownstreamSets(direct)))
  {
    hide Upstream, Downstream, Sum, Sizes;
    forall p, d | p in direct && d in direct ensures d in Upstream(direct, p) <==> p in Downstream(direct, d) {
      UpstreamIffDownstream(direct, p, d);
    }
    forall p | p in direct ensures Upstream(direct, p) <= direct.Keys && Downstream(direct, p) <= direct.Keys {
      OnlyNodesAreReached(direct, p);
    }
    assert UpstreamSets(direct).Keys == direct.Keys == DownstreamSets(direct).Keys;
    DualTotals(UpstreamSets(direct), DownstreamSets(direct));
  }

  lemma OnlyNodesAreReached<N(!new)>(direct: map<N, seq<N>>, pr: N)
    ensures Upstream(direct, pr) <= direct.Keys && Downstream(direct, pr) <= direct.Keys
  {
  }

  // ---- Along an edge ------------------------------------------------------------------------------

  /** If p directly depends on another d then d has no more upstream than p, and exactly as
      much precisely when the two lie on a cycle. */
  lemma UpstreamAlongEdge<N(!new)>(direct: map<N, seq<N>>, p: N, d: N)
    requires Edge(direct, p, d) && p != d
    ensures |Upstream(direct, d)| <= |Upstream(direct, p)|
    ensures |Upstream(direct, d)| == |Upstream(direct, p)| <==> p in Upstream(direct, d)
  {
    var graph := Forward(direct);
    var fromP, fromD := Reachable(graph, p), Reachable(graph, d);
    ReachesItself(graph, p);
    ReachesItself(graph, d);
    ReachesExtend(graph, p, p, d);
    forall n | n in fromD ensures n in fromP { ReachesTransitive(graph, p, d, n); }
    assert |fromP - {p}| == |fromP| - 1 && |fromD - {d}| == |fromD| - 1;
    if p in fromD {
      forall n | n in fromP ensures n in fromD { ReachesTransitive(graph, d, p, n); }
      assert fromP == fromD;
    } else {
      SubsetIsSmaller(fromD, fromP - {p});
    }
    SubsetIsSmaller(fromD, fromP);
  }

  // ---- The dashboard's dependency column -------------------------------------------------------------

  function Occurrences<N(==)>(s: seq<N>, n: N): nat
  {
    multiset(s)[n]
  }

  // How often each node's list names pr.
  function Mentions<N>(direct: map<N, seq<N>>, pr: N): map<N, int>
  {
    map n | n in direct :: Occurrences(direct[n], pr)
  }

  function Known<N(!new)>(raw: map<N, seq<N>>): map<N, seq<N>>
  {
    map pr | pr in raw :: Filter(raw[pr], raw.Keys)
  }

  function Filter<N(!new)>(s: seq<N>, keys: set<N>): (r: seq<N>)
    ensures forall n :: n in r <==> n in s && n in keys
    ensures multiset(r) <= multiset(s)
  {
    if s == [] then []
    else
      assert s == [s[0]] + s[1..];
      if s[0] in keys then [s[0]] + Filter(s[1..], keys)
      else Filter(s[1..], keys)
  }

  lemma {:induction false} FilterCounts<N(!new)>(s: seq<N>, keys: set<N>, n: N)
    ensures multiset(Filter(s, keys))[n] == if n in keys then multiset(s)[n] else 0
  {
    if s == [] {
    } else {
      FilterCounts(s[1..], keys, n);
      assert s == [s[0]] + s[1..];
    }
  }

  /** The data of the dependency columns. Among the dependencies the known pull requests are
      kept, each as often as it is listed. */
  method ComputeDependencyCounts<N(!new)>(raw: map<N, seq<N>>) returns (columns: map<N, ColumnInfo>)
    ensures columns.Keys == raw.Keys
    ensures var direct := Known(raw);
            forall pr :: pr in raw ==>
              && (forall n :: multiset(direct[pr])[n] == if n in raw then multiset(raw[pr])[n] else 0)
              && columns[pr].upstream == |Upstream(direct, pr)|
              && columns[pr].downstream == |Downstream(direct, pr)|
              && columns[pr].directUpstream == |direct[pr]|
              && columns[pr].directDownstream == Sum(raw.Keys, Mentions(direct, pr))
  {
    hide Upstream, Downstream, Sum, Mentions;
    var direct := Known(raw);
    forall pr, n | pr in raw
      ensures multiset(direct[pr])[n] == if n in raw then multiset(raw[pr])[n] else 0
    {
      FilterCounts(raw[pr], raw.Keys, n);
    }
    assert direct.Keys == raw.Keys;
    var dependents := CountDependents(direct);
    var transitive := TransitiveDependencyCounts(direct);
    columns := map pr | pr in transitive ::
      ColumnInfo(transitive[pr].upstream, transitive[pr].downstream, |direct[pr]|, dependents[pr]);
  }

  predicate ListsKnown<N>(direct: map<N, seq<N>>)
  {
    forall n, dep :: n in direct && dep in direct[n] ==> dep in direct
  }

  lemma MentionsStep<N>(direct: map<N, seq<N>>, done: set<N>, n: N, pr: N)
    requires n in direct && n !in done
    ensures Sum(done + {n}, Mentions(direct, pr)) == Sum(done, Mentions(direct, pr)) + Occurrences(direct[n], pr)
  {
    SumInsert(done, n, Mentions(direct, pr));
  }

  // The counts once the lists of the nodes in done have been read.
  ghost function Dependents<N>(direct: map<N, seq<N>>, done: set<N>): map<N, int>
  {
    map pr | pr in direct :: Sum(done, Mentions(direct, pr))
  }

  function WithOnes<N(==)>(counts: map<N, int>, deps: seq<N>): map<N, int>
  {
    map n | n in counts :: counts[n] + Occurrences(deps, n)
  }

  lemma DependentsStep<N>(direct: map<N, seq<N>>, done: set<N>, n: N)
    requires n in direct && n !in done && ListsKnown(direct)
    ensures forall dep :: dep in direct[n] ==> dep in Dependents(direct, done)
    ensures Dependents(direct, done + {n}) == WithOnes(Dependents(direct, done), direct[n])
  {
    hide Sum, Mentions, Occurrences;
    forall pr | pr in direct
      ensures Sum(done + {n}, Mentions(direct, pr)) == Sum(done, Mentions(direct, pr)) + Occurrences(direct[n], pr)
    {
      MentionsStep(direct, done, n, pr);
    }
  }

  lemma DependentsStart<N>(direct: map<N, seq<N>>)
    ensures Dependents(direct, {}) == (map pr | pr in direct :: 0)
  {
    hide Mentions;
  }

  method AddOnes<N>(deps: seq<N>, before: map<N, int>) returns (after: map<N, int>)
    requires forall n :: n in deps ==> n in before
    ensures after == WithOnes(before, deps)
  {
    after := before;
    for i := 0 to |deps|
      invariant after.Keys == before.Keys
      invariant forall n :: n in after ==> after[n] == before[n] + Occurrences(deps[..i], n)
    {
      assert deps[..i + 1] == deps[..i] + [deps[i]] && deps[i] in deps;
      after := after[deps[i] := after[deps[i]] + 1];
    }
    assert deps[..|deps|] == deps;
  }

  method CountDependents<N>(direct: map<N, seq<N>>) returns (dependents: map<N, int>)
    requires ListsKnown(direct)
    ensures dependents == Dependents(direct, direct.Keys)
  {
    hide Dependents, WithOnes, ListsKnown;
    dependents := map pr | pr in direct :: 0;
    DependentsStart(direct);
    var left := direct.Keys;
    ghost var done: set<N> := {};
    while left != {}
      invariant left <= direct.Keys && done == direct.Keys - left
      invariant dependents == Dependents(direct, done)
      decreases |left|
    {
      var n := PickAny(left);
      DependentsStep(direct, done, n);
      dependents := AddOnes(direct[n], dependents);
      left, done := left - {n}, done + {n};
      assert done == direct.Keys - left;
    }
    assert done == direct.Keys;
  }

  /** For lists without duplicates and self-loops the direct counts never exceed the
      transitive ones. */
  lemma DirectAtMostTransitive<N(!new)>(raw: map<N, seq<N>>, pr: N)
    requires pr in raw
    requires forall n :: n in raw ==> n !in raw[n]
    requires forall n, m :: n in raw ==> multiset(raw[n])[m] <= 1
    ensures |Known(raw)[pr]| <= |Upstream(Known(raw), pr)|
    ensures Sum(raw.Keys, Mentions(Known(raw), pr)) <= |Downstream(Known(raw), pr)|
  {
    hide Reachable, Sum, Mentions;
    var direct := Known(raw);
    forall n, m | n in raw ensures multiset(direct[n])[m] <= 1 {}
    EdgesStayInside(direct);
    DistinctLength(direct[pr]);
    NeighboursReached(Forward(direct), pr);
    assert Members(direct[pr]) == Forward(direct)[pr];
    SubsetIsSmaller(Forward(direct)[pr], Upstream(direct, pr));
    assert direct.Keys == raw.Keys;
    MentionsCountHolders(direct, pr);
    NeighboursReached(Backward(direct), pr);
    SubsetIsSmaller(Backward(direct)[pr], Downstream(direct, pr));
  }

  lemma MentionsCountHolders<N>(direct: map<N, seq<N>>, pr: N)
    requires pr in direct && forall n :: n in direct ==> multiset(direct[n])[pr] <= 1
    ensures Sum(direct.Keys, Mentions(direct, pr)) == |Backward(direct)[pr]|
  {
    var holders, zero := Backward(direct)[pr], map n | n in direct :: 0;
    forall n | n in direct ensures Mentions(direct, pr)[n] == zero[n] + if n in holders then 1 else 0 {
      assert n in holders <==> pr in multiset(direct[n]);
    }
    SumShift(direct.Keys, holders, Mentions(direct, pr), zero);
    SumOfZeros(direct.Keys, zero);
    assert direct.Keys * holders == holders;
  }

  lemma NeighboursReached<N(!new)>(graph: Graph<N>, n: N)
    requires Closed(graph) && n in graph && n !in graph[n]
    ensures graph[n] <= Reachable(graph, n) - {n}
  {
    ReachesItself(graph, n);
    forall m | m in graph[n] ensures Reaches(graph, n, m) { ReachesExtend(graph, n, n, m); }
  }

  function Members<N>(s: seq<N>): set<N>
  {
    set m | m in s
  }

  lemma {:induction false} DistinctLength<N>(s: seq<N>)
    requires forall m :: multiset(s)[m] <= 1
    ensures |Members(s)| == |s|
  {
    if s != [] {
      var x, rest := s[0], s[1..];
      assert s == [x] + rest;
      assert forall m :: multiset(s)[m] == multiset(rest)[m] + if m == x then 1 else 0;
      DistinctLength(rest);
      assert x !in multiset(rest);
      assert Members(s) == Members(rest) + {x};
    }
  }
}
