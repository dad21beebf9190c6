/**
 * Verified stand-ins for the two graph algorithms that the planner takes from the gographs package:
 * the topological sort and the breadth-first flood. Graphs are adjacency lists over vertex indices.
 */
module Traversal {
  import opened Graphs

  ghost predicate WellFormed(adj: seq<seq<nat>>) {
    forall u, v :: 0 <= u < |adj| && v in adj[u] ==> v < |adj|
  }

  ghost function EdgesOf(adj: seq<seq<nat>>): set<(nat, nat)> {
    set u: nat, v: nat | u < |adj| && v in adj[u] :: (u, v)
  }

  ghost predicate Distinct<T>(s: seq<T>) {
    forall i, j :: 0 <= i < j < |s| ==> s[i] != s[j]
  }

  ghost function Members<T>(s: seq<T>): set<T> {
    set x | x in s
  }

  lemma {:induction false} Enumerate<T>(keys: set<T>) returns (order: seq<T>)
    ensures Distinct(order) && Members(order) == keys
    decreases keys
  {
    if keys == {} {
      order := [];
    } else {
      var n :| n in keys;
      var init := Enumerate(keys - {n});
      assert n !in init by { assert n in init ==> n in Members(init); }
      order := init + [n];
      assert Members(order) == Members(init) + {n};
    }
  }

  /** Every vertex once, and every predecessor of a vertex strictly before it. */
  ghost predicate TopologicalPrefix(adj: seq<seq<nat>>, order: seq<nat>) {
    && Distinct(order)
    && (forall v :: v in order ==> v < |adj|)
    && forall u, i :: 0 <= u < |adj| && 0 <= i < |order| && order[i] in adj[u] ==> u in order[..i]
  }

  ghost predicate TopologicalOrder(adj: seq<seq<nat>>, order: seq<nat>) {
    TopologicalPrefix(adj, order) && forall v :: 0 <= v < |adj| ==> v in order
  }

  // ---- In-degrees over the vertices not yet emitted ----

  ghost function Pending(adj: seq<seq<nat>>, done: set<nat>, v: nat): nat {
    if adj == [] then 0
    else
      var u := |adj| - 1;
      Pending(adj[..u], done, v) + if u in done then 0 else multiset(adj[u])[v]
  }

  lemma {:induction false} PendingRetire(adj: seq<seq<nat>>, done: set<nat>, u: nat, v: nat)
    requires u !in done
    ensures u < |adj| ==> Pending(adj, done + {u}, v) + multiset(adj[u])[v] == Pending(adj, done, v)
    ensures u >= |adj| ==> Pending(adj, done + {u}, v) == Pending(adj, done, v)
    decreases |adj|
  {
    if adj != [] { PendingRetire(adj[..|adj| - 1], done, u, v); }
  }

  lemma {:induction false} PendingZero(adj: seq<seq<nat>>, done: set<nat>, v: nat)
    ensures Pending(adj, done, v) == 0 <==> forall u :: 0 <= u < |adj| && v in adj[u] ==> u in done
    decreases |adj|
  {
    if adj != [] {
      var u := |adj| - 1;
      PendingZero(adj[..u], done, v);
      assert v in adj[u] <==> multiset(adj[u])[v] > 0;
      assert forall w :: 0 <= w < u ==> adj[..u][w] == adj[w];
    }
  }

  ghost predicate Degrees(adj: seq<seq<nat>>, done: set<nat>, degree: seq<nat>) {
    |degree| == |adj| && forall v :: 0 <= v < |adj| ==> degree[v] == Pending(adj, done, v)
  }

  lemma TakeOne<T>(s: seq<T>, k: nat)
    requires k < |s|
    ensures s[..k + 1] == s[..k] + [s[k]]
    ensures multiset(s[..k + 1]) == multiset(s[..k]) + multiset{s[k]}
  {
    assert s[..k + 1] == s[..k] + [s[k]];
  }

  method CountInto(targets: seq<nat>, degree: seq<nat>) returns (d: seq<nat>)
    requires forall v :: v in targets ==> v < |degree|
    ensures |d| == |degree|
    ensures forall v :: 0 <= v < |d| ==> d[v] == degree[v] + multiset(targets)[v]
  {
    d := degree;
    for k := 0 to |targets|
      invariant |d| == |degree|
      invariant forall v :: 0 <= v < |d| ==> d[v] == degree[v] + multiset(targets[..k])[v]
    {
      TakeOne(targets, k);
      assert targets[k] in targets;
      d := d[targets[k] := d[targets[k]] + 1];
    }
    assert targets[..|targets|] == targets;
  }

  method InDegrees(adj: seq<seq<nat>>) returns (degree: seq<nat>)
    requires WellFormed(adj)
    ensures Degrees(adj, {}, degree)
  {
    degree := seq(|adj|, _ => 0);
    for u := 0 to |adj|
      invariant |degree| == |adj|
      invariant forall v :: 0 <= v < |adj| ==> degree[v] == Pending(adj[..u], {}, v)
    {
      degree := CountInto(adj[u], degree);
      assert adj[..u + 1][..u] == adj[..u];
    }
    assert adj[..|adj|] == adj;
  }

  /** Emits u: lowers its targets' degrees and lists the targets whose degree became zero. */
  method Emit(adj: seq<seq<nat>>, ghost done: set<nat>, degree: seq<nat>, u: nat)
    returns (d: seq<nat>, ready: seq<nat>)
    requires WellFormed(adj) && Degrees(adj, done, degree) && u < |adj| && u !in done
    ensures Degrees(adj, done + {u}, d) && Distinct(ready)
    ensures forall v :: v in ready <==> 0 <= v < |adj| && degree[v] > 0 && d[v] == 0
  {
    d, ready := degree, [];
    forall v | 0 <= v < |adj| ensures degree[v] == Pending(adj, done + {u}, v) + multiset(adj[u])[v] {
      PendingRetire(adj, done, u, v);
    }
    for k := 0 to |adj[u]|
      invariant |d| == |adj| && Distinct(ready)
      invariant forall v :: 0 <= v < |adj| ==> d[v] + multiset(adj[u][..k])[v] == degree[v]
      invariant forall v :: v in ready <==> 0 <= v < |adj| && degree[v] > 0 && d[v] == 0
    {
      var t := adj[u][k];
      TakeOne(adj[u], k);
      assert t in adj[u];
      assert adj[u] == adj[u][..k] + adj[u][k..] && adj[u][k..][0] == t;
      assert multiset(adj[u]) == multiset(adj[u][..k]) + multiset(adj[u][k..]);
      assert d[t] > 0;
      d := d[t := d[t] - 1];
      if d[t] == 0 { ready := ready + [t]; }
    }
    assert adj[u][..|adj[u]|] == adj[u];
  }

  /** What Kahn's loop keeps: the queue holds exactly the unemitted vertices of degree zero. */
  ghost predicate KahnInvariant(adj: seq<seq<nat>>, order: seq<nat>, queue: seq<nat>, degree: seq<nat>) {
    && TopologicalPrefix(adj, order)
    && Degrees(adj, Members(order), degree)
    && Distinct(order + queue)
    && forall v :: v in order + queue <==> 0 <= v < |adj| && degree[v] == 0
  }

  lemma HeadIsNew(order: seq<nat>, queue: seq<nat>)
    requires Distinct(order + queue) && queue != []
    ensures queue[0] !in order && queue[0] in order + queue && Distinct(order + [queue[0]])
  {
    var all := order + queue;
    assert all[|order|] == queue[0];
    forall i | 0 <= i < |order| ensures order[i] != queue[0] { assert all[i] != all[|order|]; }
    assert order + [queue[0]] == all[..|order| + 1];
  }

  lemma KahnStep(adj: seq<seq<nat>>, order: seq<nat>, queue: seq<nat>, degree: seq<nat>,
                 d: seq<nat>, ready: seq<nat>)
    requires KahnInvariant(adj, order, queue, degree) && queue != []
    requires Degrees(adj, Members(order) + {queue[0]}, d) && Distinct(ready)
    requires forall v :: v in ready <==> 0 <= v < |adj| && degree[v] > 0 && d[v] == 0
    ensures KahnInvariant(adj, order + [queue[0]], queue[1..] + ready, d)
  {
    var u, done := queue[0], Members(order);
    HeadIsNew(order, queue);
    PendingZero(adj, done, u);
    assert Members(order + [u]) == done + {u};
    var all := order + [u] + (queue[1..] + ready);
    assert all == order + queue + ready;
    forall v | 0 <= v < |adj| ensures d[v] <= degree[v] {
      PendingRetire(adj, done, u, v);
    }
    forall w, i | 0 <= w < |adj| && 0 <= i < |order + [u]| && (order + [u])[i] in adj[w]
      ensures w in (order + [u])[..i]
    {
      assert (order + [u])[..i] == order[..i];
      if i == |order| { assert order[..i] == order; }
    }
    forall i, j | 0 <= i < j < |all| ensures all[i] != all[j] {
      if j >= |order + queue| && i < |order + queue| {
        assert all[j] in ready && all[i] in order + queue;
      }
    }
  }

  /** When the queue runs dry early, every vertex left has a predecessor that is also left. */
  lemma KahnStuck(adj: seq<seq<nat>>, order: seq<nat>, degree: seq<nat>)
    requires WellFormed(adj) && KahnInvariant(adj, order, [], degree)
    requires exists v :: 0 <= v < |adj| && v !in order
    ensures !Acyclic(EdgesOf(adj))
  {
    var done := Members(order);
    assert order + [] == order;
    var rest := set v | v in Below(|adj|) && v !in order;
    var w :| 0 <= w < |adj| && w !in order;
    assert w in rest;
    forall y | y in rest ensures HasPredecessor(EdgesOf(adj), rest, y) {
      PendingZero(adj, done, y);
      var x :| 0 <= x < |adj| && y in adj[x] && x !in done;
      assert x in rest && (x, y) in EdgesOf(adj);
    }
    NoSourceMeansCycle(EdgesOf(adj), rest);
  }

  lemma OrderedIsAcyclic(adj: seq<seq<nat>>, order: seq<nat>)
    requires WellFormed(adj) && TopologicalOrder(adj, order)
    ensures Acyclic(EdgesOf(adj))
  {
    var rank := map v: nat | v < |adj| :: (IndexOf(order, v) as int);
    forall x, y | (x, y) in EdgesOf(adj) ensures x in rank && y in rank && rank[x] < rank[y] {
      var i := IndexOf(order, y);
      assert order[i] in adj[x];
      var j :| 0 <= j < i && order[..i][j] == x;
      assert order[IndexOf(order, x)] == order[j];
    }
    RankedIsAcyclic(EdgesOf(adj), rank);
  }

  ghost function IndexOf<T>(s: seq<T>, x: T): (i: nat)
    requires x in s
    ensures i < |s| && s[i] == x
  {
    var i :| 0 <= i < |s| && s[i] == x; i
  }

  /** Kahn's algorithm: succeeds exactly on acyclic graphs, with a full topological order. */
  method TopologicalSort(adj: seq<seq<nat>>) returns (order: seq<nat>, ok: bool)
    requires WellFormed(adj)
    ensures ok <==> Acyclic(EdgesOf(adj))
    ensures ok ==> TopologicalOrder(adj, order)
  {
    var degree := InDegrees(adj);
    var queue: seq<nat> := [];
    for v := 0 to |adj|
      invariant Distinct(queue)
      invariant forall x :: x in queue <==> 0 <= x < v && degree[x] == 0
    {
      if degree[v] == 0 { queue := queue + [v]; }
    }
    order := [];
    assert Members(order) == {};
    assert order + queue == queue;
    while queue != []
      invariant KahnInvariant(adj, order, queue, degree)
      invariant |order| <= |adj|
      decreases |adj| - |order|
    {
      var u := queue[0];
      HeadIsNew(order, queue);
      var d, ready := Emit(adj, Members(order), degree, u);
      KahnStep(adj, order, queue, degree, d, ready);
      order, queue, degree := order + [u], queue[1..] + ready, d;
      Fits(order, |adj|);
    }
    ok := |order| == |adj|;
    Covers(order, |adj|);
    if ok {
      OrderedIsAcyclic(adj, order);
    } else {
      KahnStuck(adj, order, degree);
    }
  }

  ghost function Below(n: nat): (s: set<nat>)
    ensures |s| == n
    ensures forall v :: v in s <==> 0 <= v < n
  {
    if n == 0 then {} else Below(n - 1) + {n - 1}
  }

  lemma Fits(order: seq<nat>, n: nat)
    requires Distinct(order) && forall v :: v in order ==> v < n
    ensures |order| <= n
  {
    DistinctFits(order, Below(n));
  }

  lemma FitsWithout(order: seq<nat>, n: nat, v: nat)
    requires Distinct(order) && (forall x :: x in order ==> x < n) && v < n && v !in order
    ensures |order| < n
  {
    Fits(order + [v], n);
  }

  lemma Covers(order: seq<nat>, n: nat)
    requires Distinct(order) && (forall v :: v in order ==> v < n)
    ensures |order| == n <==> forall v :: 0 <= v < n ==> v in order
  {
    if v :| 0 <= v < n && v !in order { FitsWithout(order, n, v); }
    if forall v :: 0 <= v < n ==> v in order {
      CoveringIsLong(order, Below(n));
      Fits(order, n);
    }
  }

  lemma {:induction false} CoveringIsLong(order: seq<nat>, s: set<nat>)
    requires forall v :: v in s ==> v in order
    ensures |s| <= |order|
    decreases |order|
  {
    if order == [] {
      assert s == {};
    } else {
      var last := order[|order| - 1];
      CoveringIsLong(order[..|order| - 1], s - {last});
    }
  }

  /** Breadth-first flood: lists exactly the vertices reachable from start, each once, start first. */
  method Flood(adj: seq<seq<nat>>, start: nat) returns (seen: seq<nat>)
    requires WellFormed(adj) && start < |adj|
    ensures Distinct(seen)
    ensures forall v: nat :: v in seen <==> Reaches<nat>(EdgesOf(adj), start, v)
  {
    ghost var e: set<(nat, nat)> := EdgesOf(adj);
    seen := [start];
    ReachesSelf<nat>(e, start);
    var next := 0;
    while next < |seen|
      invariant 0 <= next <= |seen| <= |adj|
      invariant Distinct(seen) && start in seen
      invariant forall i :: 0 <= i < |seen| ==> seen[i] < |adj| && Reaches<nat>(e, start, seen[i])
      invariant forall i, v :: 0 <= i < next && v in adj[seen[i]] ==> v in seen
      decreases |adj| - next
    {
      var u := seen[next];
      assert u in seen;
      ghost var before := seen;
      for k := 0 to |adj[u]|
        invariant |before| <= |seen| <= |adj| && seen[..|before|] == before
        invariant Distinct(seen)
        invariant forall i :: 0 <= i < |seen| ==> seen[i] < |adj| && Reaches<nat>(e, start, seen[i])
        invariant forall j :: 0 <= j < k ==> adj[u][j] in seen
      {
        var t := adj[u][k];
        if t !in seen {
          assert (u, t) in e;
          ReachesStep<nat>(e, start, u, t);
          FitsWithout(seen, |adj|, t);
          seen := seen + [t];
        }
      }
      forall i, v | 0 <= i < next + 1 && v in adj[seen[i]] ensures v in seen {
        assert seen[i] == before[i];
        if i < next { assert v in before; var j :| 0 <= j < |before| && before[j] == v; assert seen[j] == v; }
      }
      assert start == seen[..|before|][0] || start in seen by {
        var j :| 0 <= j < |before| && before[j] == start;
        assert seen[j] == start;
      }
      next := next + 1;
    }
    forall v: nat | Reaches<nat>(e, start, v) ensures v in seen {
      var p: seq<nat> :| PathFrom<nat>(e, start, p, v);
      ghost var s := Members(seen);
      forall x, y | x in s && (x, y) in e ensures y in s {
        var i :| 0 <= i < |seen| && seen[i] == x;
        assert y in adj[seen[i]];
      }
      ClosedUnderReach<nat>(e, s, start, p, v);
    }
  }
}
