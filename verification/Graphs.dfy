/** Directed graphs as edge sets: paths, reachability, cycles, and what a renaming preserves. */
module Graphs {

  ghost predicate IsPath<V>(e: set<(V, V)>, p: seq<V>) {
    && |p| >= 1
    && forall i, j :: 0 <= i && j == i + 1 && j < |p| ==> (p[i], p[j]) in e
  }

  ghost predicate PathFrom<V>(e: set<(V, V)>, a: V, p: seq<V>, b: V) {
    IsPath(e, p) && p[0] == a && p[|p| - 1] == b
  }

  ghost predicate Reaches<V(!new)>(e: set<(V, V)>, a: V, b: V) {
    exists p :: PathFrom(e, a, p, b)
  }

  ghost predicate IsCycle<V>(e: set<(V, V)>, p: seq<V>) {
    IsPath(e, p) && |p| >= 2 && p[0] == p[|p| - 1]
  }

  ghost predicate Acyclic<V(!new)>(e: set<(V, V)>) {
    forall p :: !IsCycle(e, p)
  }

  lemma ReachesSelf<V(!new)>(e: set<(V, V)>, a: V)
    ensures Reaches(e, a, a)
  {
    assert PathFrom(e, a, [a], a);
  }

  lemma ReachesStep<V(!new)>(e: set<(V, V)>, a: V, b: V, c: V)
    requires Reaches(e, a, b) && (b, c) in e
    ensures Reaches(e, a, c)
  {
    var p :| PathFrom(e, a, p, b);
    assert PathFrom(e, a, p + [c], c);
  }

  lemma ReachesMonotone<V(!new)>(e: set<(V, V)>, f: set<(V, V)>, a: V, b: V)
    requires e <= f && Reaches(e, a, b)
    ensures Reaches(f, a, b)
  {
    var p :| PathFrom(e, a, p, b);
    assert PathFrom(f, a, p, b);
  }

  lemma AcyclicSubset<V(!new)>(e: set<(V, V)>, f: set<(V, V)>)
    requires e <= f && Acyclic(f)
    ensures Acyclic(e)
  {
    forall p ensures !IsCycle(e, p) {
      if IsCycle(e, p) { assert IsCycle(f, p); }
    }
  }

  lemma SelfEdgeIsCycle<V(!new)>(e: set<(V, V)>, a: V)
    requires (a, a) in e
    ensures !Acyclic(e)
  {
    assert IsCycle(e, [a, a]);
  }

  /** A vertex without outgoing edges reaches only itself. */
  lemma SinkReachesItself<V(!new)>(e: set<(V, V)>, a: V, b: V)
    requires Reaches(e, a, b) && a != b
    ensures exists c :: (a, c) in e
  {
    var p :| PathFrom(e, a, p, b);
    assert (p[0], p[1]) in e;
  }

  /** A set that contains a and is closed under edges contains everything a reaches. */
  lemma {:induction false} ClosedUnderReach<V(!new)>(e: set<(V, V)>, s: set<V>, a: V, p: seq<V>, b: V)
    requires a in s && forall x, y :: x in s && (x, y) in e ==> y in s
    requires PathFrom(e, a, p, b)
    ensures b in s
    decreases |p|
  {
    if |p| > 1 {
      var q := p[..|p| - 1];
      assert PathFrom(e, a, q, q[|q| - 1]);
      ClosedUnderReach(e, s, a, q, q[|q| - 1]);
      assert (p[|p| - 2], p[|p| - 1]) in e;
    }
  }

  // ---- Acyclicity from a ranking, a cycle from the lack of a source ----

  ghost predicate Ranks<V(!new)>(e: set<(V, V)>, rank: map<V, int>) {
    forall x, y :: (x, y) in e ==> x in rank && y in rank && rank[x] < rank[y]
  }

  lemma {:induction false} RankGrows<V(!new)>(e: set<(V, V)>, rank: map<V, int>, p: seq<V>)
    requires Ranks(e, rank) && IsPath(e, p) && |p| >= 2
    ensures p[0] in rank && p[|p| - 1] in rank && rank[p[0]] < rank[p[|p| - 1]]
    decreases |p|
  {
    var q := p[..|p| - 1];
    assert (p[|p| - 2], p[|p| - 1]) in e;
    if |q| >= 2 { RankGrows(e, rank, q); }
  }

  lemma RankedIsAcyclic<V(!new)>(e: set<(V, V)>, rank: map<V, int>)
    requires Ranks(e, rank)
    ensures Acyclic(e)
  {
    forall p ensures !IsCycle(e, p) {
      if IsCycle(e, p) { RankGrows(e, rank, p); }
    }
  }

  /** A sequence without repetitions inside a finite set is no longer than the set. */
  lemma {:induction false} DistinctFits<V>(p: seq<V>, s: set<V>)
    requires forall i, j :: 0 <= i < j < |p| ==> p[i] != p[j]
    requires forall x :: x in p ==> x in s
    ensures |p| <= |s|
    decreases |p|
  {
    if p != [] {
      var q := p[..|p| - 1];
      var last := p[|p| - 1];
      assert last !in q;
      forall x | x in q ensures x in s - {last} { assert x in p; }
      DistinctFits(q, s - {last});
    }
  }

  ghost predicate HasPredecessor<V(!new)>(e: set<(V, V)>, s: set<V>, y: V) {
    exists x :: x in s && (x, y) in e
  }

  /** Walks k steps backward inside s, where every vertex has a predecessor in s. */
  lemma {:induction false} WalkBack<V(!new)>(e: set<(V, V)>, s: set<V>, v: V, k: nat) returns (p: seq<V>)
    requires v in s
    requires forall y :: y in s ==> HasPredecessor(e, s, y)
    ensures IsPath(e, p) && |p| == k + 1 && forall x :: x in p ==> x in s
    decreases k
  {
    if k == 0 {
      p := [v];
    } else {
      var q := WalkBack(e, s, v, k - 1);
      assert HasPredecessor(e, s, q[0]);
      var x :| x in s && (x, q[0]) in e;
      p := [x] + q;
    }
  }

  lemma NoSourceMeansCycle<V(!new)>(e: set<(V, V)>, s: set<V>)
    requires s != {}
    requires forall y :: y in s ==> HasPredecessor(e, s, y)
    ensures !Acyclic(e)
  {
    var v :| v in s;
    var p := WalkBack(e, s, v, |s|);
    if forall i, j :: 0 <= i < j < |p| ==> p[i] != p[j] {
      DistinctFits(p, s);
    }
    var i, j :| 0 <= i < j < |p| && p[i] == p[j];
    assert IsCycle(e, p[i..j + 1]);
  }

  // ---- Renaming ----

  ghost predicate Injective<V, W>(f: map<V, W>) {
    forall x, y :: x in f && y in f && f[x] == f[y] ==> x == y
  }

  ghost function Image<V, W>(e: set<(V, V)>, f: map<V, W>): set<(W, W)>
    requires forall d :: d in e ==> d.0 in f && d.1 in f
  {
    set d | d in e :: (f[d.0], f[d.1])
  }

  lemma ImageHas<V, W>(e: set<(V, V)>, f: map<V, W>, x: V, y: V)
    requires forall d :: d in e ==> d.0 in f && d.1 in f
    requires Injective(f) && x in f && y in f
    ensures (f[x], f[y]) in Image(e, f) <==> (x, y) in e
  {
    if (x, y) in e {
      assert (f[(x, y).0], f[(x, y).1]) in Image(e, f);
    }
  }

  /** Paths of two or more vertices correspond one to one under an injective renaming. */
  lemma PathForward<V(!new), W(!new)>(e: set<(V, V)>, f: map<V, W>, p: seq<V>) returns (q: seq<W>)
    requires forall d :: d in e ==> d.0 in f && d.1 in f
    requires Injective(f) && IsPath(e, p) && forall x :: x in p ==> x in f
    ensures IsPath(Image(e, f), q) && |q| == |p|
    ensures forall i :: 0 <= i < |p| ==> q[i] == f[p[i]]
  {
    q := seq(|p|, i requires 0 <= i < |p| => f[p[i]]);
    forall i, j | 0 <= i && j == i + 1 && j < |q| ensures (q[i], q[j]) in Image(e, f) {
      ImageHas(e, f, p[i], p[j]);
    }
  }

  lemma PathBackward<V(!new), W(!new)>(e: set<(V, V)>, f: map<V, W>, q: seq<W>) returns (p: seq<V>)
    requires forall d :: d in e ==> d.0 in f && d.1 in f
    requires Injective(f) && IsPath(Image(e, f), q) && forall y :: y in q ==> y in f.Values
    ensures IsPath(e, p) && |q| == |p|
    ensures forall i :: 0 <= i < |p| ==> p[i] in f && q[i] == f[p[i]]
    decreases |q|
  {
    var last := q[|q| - 1];
    assert last in f.Values;
    var x :| x in f && f[x] == last;
    if |q| == 1 {
      p := [x];
    } else {
      var q' := q[..|q| - 1];
      var p' := PathBackward(e, f, q');
      assert (q[|q| - 2], q[|q| - 1]) in Image(e, f);
      ImageHas(e, f, p'[|p'| - 1], x);
      p := p' + [x];
    }
  }

  /** A renaming that is injective on the vertices neither creates nor destroys cycles. */
  lemma RenamingKeepsAcyclic<V(!new), W(!new)>(e: set<(V, V)>, f: map<V, W>)
    requires forall d :: d in e ==> d.0 in f && d.1 in f
    requires Injective(f)
    ensures Acyclic(e) <==> Acyclic(Image(e, f))
  {
    if p :| IsCycle(e, p) {
      forall x | x in p ensures x in f {
        var i :| 0 <= i < |p| && p[i] == x;
        if i + 1 < |p| { assert (p[i], p[i + 1]) in e; } else { assert (p[i - 1], p[i]) in e; }
      }
      var q := PathForward(e, f, p);
      assert IsCycle(Image(e, f), q);
    }
    if q :| IsCycle(Image(e, f), q) {
      forall y | y in q ensures y in f.Values {
        var i :| 0 <= i < |q| && q[i] == y;
        if i + 1 < |q| { assert (q[i], q[i + 1]) in Image(e, f); }
        else { assert (q[i - 1], q[i]) in Image(e, f); }
      }
      var p := PathBackward(e, f, q);
      assert f[p[0]] == f[p[|p| - 1]];
      assert IsCycle(e, p);
    }
  }

  /** Reachability between renamed vertices is reachability between the originals. */
  lemma RenamingKeepsReaches<V(!new), W(!new)>(e: set<(V, V)>, f: map<V, W>, a: V, b: V)
    requires forall d :: d in e ==> d.0 in f && d.1 in f
    requires Injective(f) && a in f && b in f
    ensures Reaches(e, a, b) <==> Reaches(Image(e, f), f[a], f[b])
  {
    if p :| PathFrom(e, a, p, b) {
      forall x | x in p ensures x in f {
        var i :| 0 <= i < |p| && p[i] == x;
        if i > 0 { assert (p[i - 1], p[i]) in e; }
      }
      var q := PathForward(e, f, p);
      assert PathFrom(Image(e, f), f[a], q, f[b]);
    }
    if q :| PathFrom(Image(e, f), f[a], q, f[b]) {
      forall y | y in q ensures y in f.Values {
        var i :| 0 <= i < |q| && q[i] == y;
        if i > 0 { assert (q[i - 1], q[i]) in Image(e, f); }
      }
      var p := PathBackward(e, f, q);
      assert PathFrom(e, a, p, b);
    }
  }
}
