/** Kruskal's algorithm over a union-find forest kept in one list of parents. */
module Kruskal {
  import opened Common
  import opened Graphs

  // ----- union-find

  /** parent links lead strictly upwards, by level, so every chain ends in a root. */
  ghost predicate Leveled(parent: seq<nat>, level: seq<nat>, top: nat) {
    && |parent| == |level|
    && (forall i :: 0 <= i < |parent| ==> parent[i] < |parent| && level[i] <= top)
    && (forall i :: 0 <= i < |parent| && parent[i] != i ==> level[i] < level[parent[i]])
  }

  ghost function Root(parent: seq<nat>, level: seq<nat>, top: nat, i: nat): (r: nat)
    requires Leveled(parent, level, top) && i < |parent|
    ensures r < |parent| && parent[r] == r
    ensures r == i || level[i] < level[r]
    decreases top - level[i]
  {
    if parent[i] == i then i else Root(parent, level, top, parent[i])
  }

  /** Pointing one entry straight at its root changes no root. */
  lemma {:induction false} CompressKeepsRoots(parent: seq<nat>, level: seq<nat>, top: nat, i: nat, j: nat)
    requires Leveled(parent, level, top) && i < |parent| && j < |parent|
    ensures Leveled(parent[i := Root(parent, level, top, i)], level, top)
    ensures Root(parent[i := Root(parent, level, top, i)], level, top, j) == Root(parent, level, top, j)
    decreases top - level[j]
  {
    var r := Root(parent, level, top, i);
    var now := parent[i := r];
    if j == i {
      assert Root(now, level, top, r) == r;
    } else if parent[j] != j {
      CompressKeepsRoots(parent, level, top, i, parent[j]);
    }
  }

  function Raise(level: seq<nat>, a: nat, b: nat): seq<nat>
    requires a < |level| && b < |level|
  {
    level[b := if level[b] > level[a] then level[b] else level[a] + 1]
  }

  /** Hanging root a under root b moves a's whole tree to b and nothing else. */
  lemma {:induction false} LinkMovesTree(parent: seq<nat>, level: seq<nat>, top: nat, a: nat, b: nat, j: nat)
    requires Leveled(parent, level, top) && a < |parent| && b < |parent| && j < |parent|
    requires parent[a] == a && parent[b] == b && a != b
    ensures Leveled(parent[a := b], Raise(level, a, b), top + 1)
    ensures Root(parent[a := b], Raise(level, a, b), top + 1, j) ==
            if Root(parent, level, top, j) == a then b else Root(parent, level, top, j)
    decreases top - level[j]
  {
    var now, up := parent[a := b], Raise(level, a, b);
    assert Leveled(now, up, top + 1);
    assert Root(now, up, top + 1, b) == b;
    if parent[j] == j {
      if j == a {
        assert Root(now, up, top + 1, a) == Root(now, up, top + 1, b);
      }
    } else {
      LinkMovesTree(parent, level, top, a, b, parent[j]);
    }
  }

  /** find_parent: returns the root and points every entry passed on the way at it. */
  method FindParent(parent: array<nat>, i: nat, ghost level: seq<nat>, ghost top: nat) returns (r: nat)
    requires Leveled(parent[..], level, top) && i < parent.Length
    modifies parent
    ensures Leveled(parent[..], level, top)
    ensures r == Root(old(parent[..]), level, top, i) && parent[i] == r
    ensures forall j :: 0 <= j < parent.Length ==> Root(parent[..], level, top, j) == Root(old(parent[..]), level, top, j)
    decreases top - level[i]
  {
    if i != parent[i] {
      ghost var before := parent[..];
      var p := FindParent(parent, parent[i], level, top);
      ghost var mid := parent[..];
      assert Root(mid, level, top, i) == Root(before, level, top, i) == p;
      forall j | 0 <= j < parent.Length
        ensures Leveled(mid[i := p], level, top) && Root(mid[i := p], level, top, j) == Root(mid, level, top, j)
      {
        CompressKeepsRoots(mid, level, top, i, j);
      }
      parent[i] := p;
      assert parent[..] == mid[i := p];
    }
    return parent[i];
  }

  // ----- sorting by weight

  ghost predicate ByWeight(es: seq<Edge>) {
    forall i, j :: 0 <= i < j < |es| ==> es[i].weight <= es[j].weight
  }

  function Insert(es: seq<Edge>, e: Edge): seq<Edge> {
    if es == [] then [e]
    else if es[|es| - 1].weight <= e.weight then es + [e]
    else Insert(es[..|es| - 1], e) + [es[|es| - 1]]
  }

  /** sorted(edges, key=weight): a stable sort. */
  function SortByWeight(es: seq<Edge>): seq<Edge> {
    if es == [] then [] else Insert(SortByWeight(es[..|es| - 1]), es[|es| - 1])
  }

  lemma {:induction false} InsertAdds(es: seq<Edge>, e: Edge)
    ensures multiset(Insert(es, e)) == multiset(es) + multiset{e}
  {
    if es != [] && es[|es| - 1].weight > e.weight {
      var k := |es| - 1;
      InsertAdds(es[..k], e);
      assert es == es[..k] + [es[k]];
    }
  }

  lemma SnocSorted(es: seq<Edge>, e: Edge)
    requires ByWeight(es) && forall x :: x in es ==> x.weight <= e.weight
    ensures ByWeight(es + [e])
  {
  }

  lemma {:induction false} InsertSorts(es: seq<Edge>, e: Edge)
    requires ByWeight(es)
    ensures ByWeight(Insert(es, e))
  {
    if es == [] {
    } else if es[|es| - 1].weight <= e.weight {
      SnocSorted(es, e);
    } else {
      var k := |es| - 1;
      InsertSorts(es[..k], e);
      InsertAdds(es[..k], e);
      forall x | x in Insert(es[..k], e) ensures x.weight <= es[k].weight {
        assert x in multiset(Insert(es[..k], e));
        assert x in multiset(es[..k]) || x == e;
      }
      SnocSorted(Insert(es[..k], e), es[k]);
    }
  }

  lemma {:induction false} SortPermutes(es: seq<Edge>)
    ensures multiset(SortByWeight(es)) == multiset(es)
  {
    if es != [] {
      var k := |es| - 1;
      var s := SortByWeight(es[..k]);
      SortPermutes(es[..k]);
      InsertAdds(s, es[k]);
      assert SortByWeight(es) == Insert(s, es[k]);
      assert multiset(es) == multiset(es[..k]) + multiset{es[k]} by {
        assert es == es[..k] + [es[k]];
      }
    }
  }

  lemma {:induction false} SortSorts(es: seq<Edge>)
    ensures ByWeight(SortByWeight(es))
  {
    if es != [] {
      SortSorts(es[..|es| - 1]);
      InsertSorts(SortByWeight(es[..|es| - 1]), es[|es| - 1]);
    }
  }

  /** Edge i comes before edge j: it is lighter, or as heavy and listed earlier. */
  ghost predicate Precedes(es: seq<Edge>, i: nat, j: nat)
    requires i < |es| && j < |es|
  {
    es[i].weight < es[j].weight || (es[i].weight == es[j].weight && i < j)
  }

  /** s lists the edges of es with the numbers in p, each before the next. */
  ghost predicate Lists(es: seq<Edge>, p: seq<nat>, s: seq<Edge>) {
    && |p| == |s|
    && (forall a :: 0 <= a < |p| ==> p[a] < |es| && s[a] == es[p[a]])
    && (forall a, b :: 0 <= a < b < |p| ==> Precedes(es, p[a], p[b]))
  }

  lemma {:induction false} InsertLists(es: seq<Edge>, p: seq<nat>, s: seq<Edge>, k: nat) returns (q: seq<nat>)
    requires Lists(es, p, s) && k < |es| && forall x :: x in p ==> x < k
    ensures Lists(es, q, Insert(s, es[k])) && forall x :: x in q <==> x in p || x == k
    decreases |s|
  {
    if s == [] || s[|s| - 1].weight <= es[k].weight {
      q := p + [k];
      forall a | 0 <= a < |p| ensures Precedes(es, p[a], k) {
        assert p[a] in p && (a < |p| - 1 ==> Precedes(es, p[a], p[|p| - 1]));
      }
    } else {
      var m := |s| - 1;
      assert forall x :: x in p[..m] ==> x in p;
      var q0 := InsertLists(es, p[..m], s[..m], k);
      q := q0 + [p[m]];
      assert p == p[..m] + [p[m]];
      forall a | 0 <= a < |q0| ensures Precedes(es, q0[a], p[m]) {
        assert q0[a] in q0;
        if q0[a] != k {
          var b :| 0 <= b < m && p[b] == q0[a];
        }
      }
    }
  }

  /** Sorting lists all edges, those of equal weight in the order given. */
  lemma {:induction false} SortLists(es: seq<Edge>, n: nat) returns (p: seq<nat>)
    requires n <= |es|
    ensures Lists(es, p, SortByWeight(es[..n])) && forall x :: x in p <==> 0 <= x < n
  {
    if n == 0 {
      p := [];
    } else {
      var p0 := SortLists(es, n - 1);
      assert es[..n][..n - 1] == es[..n - 1];
      p := InsertLists(es, p0, SortByWeight(es[..n - 1]), n - 1);
    }
  }

  // ----- which edges are taken

  /** The edges before edge i, in the order given. */
  function Before(es: seq<Edge>, i: nat, n: nat): (r: seq<Edge>)
    requires i < |es| && n <= |es|
    ensures forall e :: e in r <==> exists j: nat :: j < n && Precedes(es, j, i) && es[j] == e
  {
    if n == 0 then []
    else Before(es, i, n - 1) +
         if es[n - 1].weight < es[i].weight || (es[n - 1].weight == es[i].weight && n - 1 < i) then [es[n - 1]] else []
  }

  /** The edges whose ends those before do not connect, from a list in which each is last in its turn. */
  ghost function Greedy(sorted: seq<Edge>): seq<Edge> {
    if sorted == [] then []
    else
      var k := |sorted| - 1;
      Greedy(sorted[..k]) + if Connected(sorted[..k], sorted[k].u, sorted[k].v) then [] else [sorted[k]]
  }

  lemma GreedyNext(sorted: seq<Edge>, k: nat)
    requires k < |sorted|
    ensures Greedy(sorted[..k + 1]) ==
              Greedy(sorted[..k]) + if Connected(sorted[..k], sorted[k].u, sorted[k].v) then [] else [sorted[k]]
  {
    assert sorted[..k + 1][..k] == sorted[..k];
  }

  lemma SameElementsConnect(a: seq<Edge>, b: seq<Edge>, x: nat, y: nat)
    requires forall e :: e in a <==> e in b
    ensures Connected(a, x, y) <==> Connected(b, x, y)
  {
    SubsetCovers(a, b);
    SubsetCovers(b, a);
    if Connected(a, x, y) { CoversConnects(b, a, x, y); }
    if Connected(b, x, y) { CoversConnects(a, b, x, y); }
  }

  /** What the list has in front of its n-th edge is what comes before that edge. */
  lemma EarlierIsBefore(es: seq<Edge>, p: seq<nat>, sorted: seq<Edge>, n: nat)
    requires Lists(es, p, sorted) && (forall x :: x in p <==> 0 <= x < |es|) && n < |p|
    ensures forall e :: e in sorted[..n] <==> e in Before(es, p[n], |es|)
  {
    var b := Before(es, p[n], |es|);
    forall e | e in sorted[..n] ensures e in b {
      var a :| 0 <= a < n && sorted[a] == e;
      assert Precedes(es, p[a], p[n]);
    }
    forall e | e in b ensures e in sorted[..n] {
      var j: nat :| j < |es| && Precedes(es, j, p[n]) && es[j] == e;
      assert j in p;
      var a :| 0 <= a < |p| && p[a] == j;
      assert !(a > n);
      assert sorted[..n][a] == e;
    }
  }

  /** The numbers in picks, in order, are those of the edges whose ends the edges before them do
      not connect, and tree lists these edges. */
  ghost predicate TakesExactly(es: seq<Edge>, picks: seq<nat>, tree: seq<Edge>) {
    Lists(es, picks, tree) && forall i: nat :: i in picks <==> i < |es| && !Connected(Before(es, i, |es|), es[i].u, es[i].v)
  }

  lemma ListsOneMore(es: seq<Edge>, p: seq<nat>, n: nat, t: seq<nat>, s: seq<Edge>)
    requires n < |p| && p[n] < |es| && (forall a :: 0 <= a < n ==> p[a] < |es| && Precedes(es, p[a], p[n]))
    requires Lists(es, t, s) && forall x :: x in t ==> x in p[..n]
    ensures Lists(es, t + [p[n]], s + [es[p[n]]])
  {
    forall a | 0 <= a < |t| ensures Precedes(es, t[a], p[n]) {
      assert t[a] in t;
      var b :| 0 <= b < n && p[..n][b] == t[a];
    }
  }

  lemma {:induction false} GreedyTaken(es: seq<Edge>, p: seq<nat>, sorted: seq<Edge>, n: nat) returns (t: seq<nat>)
    requires Lists(es, p, sorted) && (forall x :: x in p <==> 0 <= x < |es|) && n <= |p|
    ensures Lists(es, t, Greedy(sorted[..n]))
    ensures forall i :: i in t <==> i in p[..n] && !Connected(Before(es, i, |es|), es[i].u, es[i].v)
  {
    if n == 0 {
      t := [];
    } else {
      var k := n - 1;
      t := GreedyTaken(es, p, sorted, k);
      GreedyNext(sorted, k);
      EarlierIsBefore(es, p, sorted, k);
      SameElementsConnect(sorted[..k], Before(es, p[k], |es|), es[p[k]].u, es[p[k]].v);
      assert p[..n] == p[..k] + [p[k]];
      if !Connected(sorted[..k], sorted[k].u, sorted[k].v) {
        ListsOneMore(es, p, k, t, Greedy(sorted[..k]));
        t := t + [p[k]];
      }
    }
  }

  /** What the algorithm takes, said of the edges as they are given. */
  lemma GreedyIsExact(es: seq<Edge>) returns (picks: seq<nat>)
    ensures TakesExactly(es, picks, Greedy(SortByWeight(es)))
  {
    var p := SortLists(es, |es|);
    assert es[..|es|] == es;
    var sorted := SortByWeight(es);
    picks := GreedyTaken(es, p, sorted, |p|);
    assert sorted[..|p|] == sorted && p[..|p|] == p;
  }

  // ----- why the greedy choice is optimal

  function Weight(es: seq<Edge>): int {
    if es == [] then 0 else Weight(es[..|es| - 1]) + es[|es| - 1].weight
  }

  /** The edges no heavier than w. */
  function Light(es: seq<Edge>, w: int): seq<Edge> {
    if es == [] then []
    else Light(es[..|es| - 1], w) + (if es[|es| - 1].weight <= w then [es[|es| - 1]] else [])
  }

  function Heavy(es: seq<Edge>, w: int): seq<Edge> {
    if es == [] then []
    else Heavy(es[..|es| - 1], w) + (if es[|es| - 1].weight <= w then [] else [es[|es| - 1]])
  }

  lemma {:induction false} LightHeavy(es: seq<Edge>, w: int)
    ensures |Light(es, w)| + |Heavy(es, w)| == |es|
    ensures forall e :: e in Light(es, w) <==> e in es && e.weight <= w
    ensures forall e :: e in Heavy(es, w) <==> e in es && e.weight > w
  {
    if es != [] {
      LightHeavy(es[..|es| - 1], w);
      assert es == es[..|es| - 1] + [es[|es| - 1]];
    }
  }

  lemma LightSnoc(es: seq<Edge>, e: Edge, w: int)
    ensures Light(es + [e], w) == Light(es, w) + (if e.weight <= w then [e] else [])
  {
    assert (es + [e])[..|es|] == es;
  }

  lemma {:induction false} LightConcat(a: seq<Edge>, b: seq<Edge>, w: int)
    ensures Light(a + b, w) == Light(a, w) + Light(b, w)
  {
    if b == [] {
      assert a + b == a;
    } else {
      var k := |b| - 1;
      assert a + b == (a + b[..k]) + [b[k]];
      LightConcat(a, b[..k], w);
      LightSnoc(a + b[..k], b[k], w);
    }
  }

  lemma {:induction false} WeightConcat(a: seq<Edge>, b: seq<Edge>)
    ensures Weight(a + b) == Weight(a) + Weight(b)
  {
    if b == [] {
      assert a + b == a;
    } else {
      var k := |b| - 1;
      assert a + b == (a + b[..k]) + [b[k]] && (a + b)[..|a + b| - 1] == a + b[..k];
      WeightConcat(a, b[..k]);
    }
  }

  /** The light edges of a forest are no more than the rank of any graph that covers them. */
  lemma LightForestBound(n: nat, f: seq<Edge>, w: int)
    requires EdgesOf(n, f) && Acyclic(f)
    ensures EdgesOf(n, Light(f, w)) && Rank(n, Light(f, w)) == |Light(f, w)|
  {
    LightHeavy(f, w);
    AcyclicByRank(n, f);
    var l, h := Light(f, w), Heavy(f, w);
    RankConcat(n, l, h);
    SameEdgesSameRank(n, f, l + h);
    RankAtMostSize(n, l);
  }

  /** Every edge of es has its ends joined by tree edges no heavier than itself. */
  ghost predicate LightlySpanned(tree: seq<Edge>, es: seq<Edge>) {
    forall e :: e in es ==> Connected(Light(tree, e.weight), e.u, e.v)
  }

  /** A lightly spanning tree has, below every weight, at least as many edges as any forest of the graph. */
  lemma MoreLightEdges(n: nat, es: seq<Edge>, tree: seq<Edge>, f: seq<Edge>, w: int)
    requires EdgesOf(n, es) && EdgesOf(n, tree) && LightlySpanned(tree, es)
    requires Acyclic(f) && forall e :: e in f ==> e in es
    ensures |Light(f, w)| <= |Light(tree, w)|
  {
    LightForestBound(n, f, w);
    LightHeavy(f, w);
    LightHeavy(tree, w);
    forall e | e in Light(f, w) ensures Connected(Light(tree, w), e.u, e.v) {
      LightHeavy(tree, e.weight);
      SubsetCovers(Light(tree, w), Light(tree, e.weight));
      CoversConnects(Light(tree, w), Light(tree, e.weight), e.u, e.v);
    }
    CoversRank(n, Light(tree, w), Light(f, w));
    RankAtMostSize(n, Light(tree, w));
  }

  lemma {:induction false} Heaviest(f: seq<Edge>) returns (m: nat)
    requires f != []
    ensures m < |f| && forall e :: e in f ==> e.weight <= f[m].weight
  {
    if |f| == 1 {
      m := 0;
    } else {
      var k := |f| - 1;
      m := Heaviest(f[..k]);
      assert f == f[..k] + [f[k]];
      if f[k].weight > f[m].weight { m := k; }
    }
  }

  lemma {:induction false} AllLight(es: seq<Edge>, w: int)
    requires forall e :: e in es ==> e.weight <= w
    ensures Light(es, w) == es
  {
    if es != [] {
      assert es == es[..|es| - 1] + [es[|es| - 1]];
      AllLight(es[..|es| - 1], w);
    }
  }

  /** As many edges, and below every weight at least as many: no more total weight. */
  lemma {:induction false} FewerHeavyWeighsLess(t: seq<Edge>, f: seq<Edge>)
    requires |t| == |f| && ByWeight(t)
    requires forall w :: |Light(f, w)| <= |Light(t, w)|
    ensures Weight(t) <= Weight(f)
    decreases |t|
  {
    if t != [] {
      var k := |t| - 1;
      var m := Heaviest(f);
      var a, b := f[..m], f[m + 1..];
      AllLight(f, f[m].weight);
      HeaviestDominates(t, f, m);
      WithoutHeaviest(f, m);
      forall w ensures |Light(a + b, w)| <= |Light(t[..k], w)| {
        LighterWithout(t, f, m, w);
      }
      FewerHeavyWeighsLess(t[..k], a + b);
      assert t == t[..k] + [t[k]];
    }
  }

  lemma WithoutHeaviest(f: seq<Edge>, m: nat)
    requires m < |f|
    ensures Weight(f[..m] + f[m + 1..]) + f[m].weight == Weight(f)
    ensures forall w :: |Light(f[..m] + f[m + 1..], w)| + (if f[m].weight <= w then 1 else 0) == |Light(f, w)|
  {
    var a, b := f[..m], f[m + 1..];
    assert f == (a + [f[m]]) + b;
    WeightConcat(a + [f[m]], b);
    WeightConcat(a, b);
    assert (a + [f[m]])[..|a|] == a;
    forall w ensures |Light(a + b, w)| + (if f[m].weight <= w then 1 else 0) == |Light(f, w)| {
      LightConcat(a + [f[m]], b, w);
      LightConcat(a, b, w);
      LightSnoc(a, f[m], w);
    }
  }

  lemma LighterWithout(t: seq<Edge>, f: seq<Edge>, m: nat, w: int)
    requires |t| == |f| > 0 && m < |f| && t[|t| - 1].weight <= f[m].weight
    requires ByWeight(t) && |Light(f, w)| <= |Light(t, w)|
    ensures |Light(f[..m] + f[m + 1..], w)| <= |Light(t[..|t| - 1], w)|
  {
    var k := |t| - 1;
    assert t == t[..k] + [t[k]];
    WithoutHeaviest(f, m);
    LightSnoc(t[..k], t[k], w);
    LightHeavy(f[..m] + f[m + 1..], w);
    if t[k].weight <= w < f[m].weight {
      AllLight(t, w);
    }
  }

  lemma HeaviestDominates(t: seq<Edge>, f: seq<Edge>, m: nat)
    requires |t| == |f| > 0 && ByWeight(t) && m < |f|
    requires Light(f, f[m].weight) == f && |Light(f, f[m].weight)| <= |Light(t, f[m].weight)|
    ensures t[|t| - 1].weight <= f[m].weight
  {
    LightHeavy(t, f[m].weight);
    assert Heavy(t, f[m].weight) == [];
    assert t[|t| - 1] !in Heavy(t, f[m].weight);
  }

  /** f is a spanning forest of es: some of its edges, without cycles, connecting all it connects. */
  ghost predicate SpanningForest(es: seq<Edge>, f: seq<Edge>) {
    (forall e :: e in f ==> e in es) && Acyclic(f) && Covers(f, es)
  }

  lemma MinimumAmongForests(n: nat, es: seq<Edge>, tree: seq<Edge>, f: seq<Edge>)
    requires EdgesOf(n, es) && ByWeight(tree) && LightlySpanned(tree, es)
    requires SpanningForest(es, tree) && SpanningForest(es, f)
    ensures Weight(tree) <= Weight(f)
  {
    forall w ensures |Light(f, w)| <= |Light(tree, w)| {
      MoreLightEdges(n, es, tree, f, w);
    }
    SubsetCovers(es, tree);
    SubsetCovers(es, f);
    AcyclicByRank(n, tree);
    AcyclicByRank(n, f);
    CoversRank(n, tree, es);
    CoversRank(n, es, tree);
    CoversRank(n, f, es);
    CoversRank(n, es, f);
    FewerHeavyWeighsLess(tree, f);
  }

  // ----- the algorithm

  /** Two vertices have the same root exactly when the edges connect them. */
  ghost predicate RootsMatch(parent: seq<nat>, level: seq<nat>, top: nat, es: seq<Edge>) {
    && Leveled(parent, level, top)
    && forall x, y :: 0 <= x < |parent| && 0 <= y < |parent| ==>
         (Root(parent, level, top, x) == Root(parent, level, top, y) <==> Connected(es, x, y))
  }

  lemma RootsMatchAtStart(n: nat, parent: seq<nat>)
    requires |parent| == n && forall i :: 0 <= i < n ==> parent[i] == i
    ensures RootsMatch(parent, seq(n, i => 0), 0, [])
  {
    forall x, y | 0 <= x < n && 0 <= y < n ensures x == y <==> Connected([], x, y) {
      SameLabel(n, [], x, y);
    }
  }

  /** Linking the roots of an edge's ends accounts for the edge. */
  lemma LinkMatches(n: nat, parent: seq<nat>, level: seq<nat>, top: nat, es: seq<Edge>, e: Edge)
    requires EdgesOf(n, es) && |parent| == n && e.u < n && e.v < n
    requires RootsMatch(parent, level, top, es)
    requires Root(parent, level, top, e.u) != Root(parent, level, top, e.v)
    ensures var a, b := Root(parent, level, top, e.u), Root(parent, level, top, e.v);
            RootsMatch(parent[a := b], Raise(level, a, b), top + 1, es + [e])
  {
    var a, b := Root(parent, level, top, e.u), Root(parent, level, top, e.v);
    var now, up := parent[a := b], Raise(level, a, b);
    LinkMovesTree(parent, level, top, a, b, a);
    forall x, y | 0 <= x < n && 0 <= y < n
      ensures Root(now, up, top + 1, x) == Root(now, up, top + 1, y) <==> Connected(es + [e], x, y)
    {
      LinkMovesTree(parent, level, top, a, b, x);
      LinkMovesTree(parent, level, top, a, b, y);
      ConnectedSnoc(n, es, e, x, y);
      assert Root(parent, level, top, x) == a <==> Connected(es, x, e.u);
      assert Root(parent, level, top, y) == a <==> Connected(es, y, e.u);
      assert Root(parent, level, top, x) == b <==> Connected(es, x, e.v);
      assert Root(parent, level, top, y) == b <==> Connected(es, y, e.v);
    }
  }

  /** What one more edge connects. */
  lemma ConnectedSnoc(n: nat, es: seq<Edge>, e: Edge, x: nat, y: nat)
    requires EdgesOf(n, es) && e.u < n && e.v < n && x < n && y < n
    ensures Connected(es + [e], x, y) <==>
            Connected(es, x, y) || (Connected(es, x, e.u) && Connected(es, y, e.v)) || (Connected(es, x, e.v) && Connected(es, y, e.u))
  {
    var fs := es + [e];
    assert fs[..|es|] == es;
    assert EdgesOf(n, fs);
    SameLabel(n, fs, x, y);
    SameLabel(n, es, x, y);
    SameLabel(n, es, x, e.u);
    SameLabel(n, es, y, e.v);
    SameLabel(n, es, x, e.v);
    SameLabel(n, es, y, e.u);
  }

  /** What the loop keeps: tree is a spanning forest of the edges seen, joining the
      ends of each by edges no heavier, and in order of weight. */
  ghost predicate GreedyForest(n: nat, seen: seq<Edge>, tree: seq<Edge>) {
    && EdgesOf(n, seen) && EdgesOf(n, tree)
    && multiset(tree) <= multiset(seen)
    && Rank(n, tree) == |tree| && Covers(tree, seen)
    && LightlySpanned(tree, seen) && ByWeight(tree)
  }

  lemma LightlyGrows(tree: seq<Edge>, tree': seq<Edge>, seen: seq<Edge>)
    requires LightlySpanned(tree, seen) && forall e :: e in tree ==> e in tree'
    ensures LightlySpanned(tree', seen)
  {
    forall e | e in seen ensures Connected(Light(tree', e.weight), e.u, e.v) {
      LightHeavy(tree, e.weight);
      LightHeavy(tree', e.weight);
      SubsetCovers(Light(tree', e.weight), Light(tree, e.weight));
      CoversConnects(Light(tree', e.weight), Light(tree, e.weight), e.u, e.v);
    }
  }

  lemma GreedySkips(n: nat, seen: seq<Edge>, tree: seq<Edge>, e: Edge)
    requires GreedyForest(n, seen, tree) && e.u < n && e.v < n
    requires forall x :: x in seen ==> x.weight <= e.weight
    requires Connected(tree, e.u, e.v)
    ensures GreedyForest(n, seen + [e], tree)
  {
    TreeIsLight(seen, tree, e);
    AllLight(tree, e.weight);
  }

  lemma TreeIsLight(seen: seq<Edge>, tree: seq<Edge>, e: Edge)
    requires multiset(tree) <= multiset(seen) && forall x :: x in seen ==> x.weight <= e.weight
    ensures forall x :: x in tree ==> x in seen && x.weight <= e.weight
  {
    forall x | x in tree ensures x in seen {
      assert x in multiset(tree);
      assert x in multiset(seen);
    }
  }

  lemma GreedyTakes(n: nat, seen: seq<Edge>, tree: seq<Edge>, e: Edge)
    requires GreedyForest(n, seen, tree) && e.u < n && e.v < n
    requires forall x :: x in seen ==> x.weight <= e.weight
    requires !Connected(tree, e.u, e.v)
    ensures GreedyForest(n, seen + [e], tree + [e])
  {
    var tree' := tree + [e];
    TreeIsLight(seen, tree, e);
    RankSnoc(n, tree, e);
    SnocSorted(tree, e);
    LightlyGrows(tree, tree', seen);
    AllLight(tree', e.weight);
    EdgeConnects(tree', e);
    SubsetCovers(tree', tree);
    CoversTransitive(tree', tree, seen);
  }

  /** The listing's kruskal: a minimum-weight spanning forest of the graph.  An edge is in it
      exactly if the lighter edges, and those as heavy that are listed earlier, do not connect
      its ends; the edges come in this order. */
  method MinimumSpanningTree(numNodes: nat, edges: seq<Edge>) returns (tree: seq<Edge>)
    requires EdgesOf(numNodes, edges)
    ensures multiset(tree) <= multiset(edges) && SpanningForest(edges, tree)
    ensures forall f :: SpanningForest(edges, f) ==> Weight(tree) <= Weight(f)
    ensures ByWeight(tree) && exists picks :: TakesExactly(edges, picks, tree)
  {
    var sorted := SortByWeight(edges);
    SortSorts(edges);
    SortPermutes(edges);
    SameElements(sorted, edges);
    tree := TakeInOrder(numNodes, sorted);
    GreedyIsMinimum(numNodes, edges, sorted, tree);
    ghost var picks := GreedyIsExact(edges);
  }

  /** The loop over the edges, lightest first. */
  method TakeInOrder(numNodes: nat, sorted: seq<Edge>) returns (tree: seq<Edge>)
    requires EdgesOf(numNodes, sorted) && ByWeight(sorted)
    ensures GreedyForest(numNodes, sorted, tree) && tree == Greedy(sorted)
  {
    var parent := new nat[numNodes](i => i);
    ghost var level, top := seq(numNodes, i => 0), 0;
    RootsMatchAtStart(numNodes, parent[..]);
    GreedyStarts(numNodes);
    var cost := 0;
    tree := [];
    assert sorted[..0] == [];
    for k := 0 to |sorted|
      invariant RootsMatch(parent[..], level, top, sorted[..k])
      invariant GreedyForest(numNodes, sorted[..k], tree) && tree == Greedy(sorted[..k])
      invariant cost == Weight(tree)
    {
      EarlierIsLighter(numNodes, sorted, k);
      GreedyNext(sorted, k);
      cost, tree, level, top := TreatEdge(parent, sorted[k], cost, tree, sorted[..k], level, top);
    }
    assert sorted[..|sorted|] == sorted;
  }

  lemma GreedyStarts(n: nat)
    ensures GreedyForest(n, [], [])
  {
    IdentityRange(n);
  }

  lemma EarlierIsLighter(n: nat, sorted: seq<Edge>, k: nat)
    requires EdgesOf(n, sorted) && ByWeight(sorted) && k < |sorted|
    ensures sorted[..k + 1] == sorted[..k] + [sorted[k]]
    ensures EdgesOf(n, sorted[..k]) && sorted[k].u < n && sorted[k].v < n
    ensures forall x :: x in sorted[..k] ==> x.weight <= sorted[k].weight
  {
  }

  lemma RootsKept(before: seq<nat>, now: seq<nat>, level: seq<nat>, top: nat, es: seq<Edge>)
    requires RootsMatch(before, level, top, es) && Leveled(now, level, top)
    requires forall j :: 0 <= j < |now| ==> Root(now, level, top, j) == Root(before, level, top, j)
    ensures RootsMatch(now, level, top, es)
  {
  }

  /** The two calls of find_parent for an edge. */
  method FindParents(parent: array<nat>, edge: Edge, ghost seen: seq<Edge>, ghost level: seq<nat>, ghost top: nat)
    returns (a: nat, b: nat)
    requires edge.u < parent.Length && edge.v < parent.Length && RootsMatch(parent[..], level, top, seen)
    modifies parent
    ensures RootsMatch(parent[..], level, top, seen)
    ensures a == Root(parent[..], level, top, edge.u) && b == Root(parent[..], level, top, edge.v)
  {
    ghost var before := parent[..];
    a := FindParent(parent, edge.u, level, top);
    ghost var mid := parent[..];
    RootsKept(before, mid, level, top, seen);
    b := FindParent(parent, edge.v, level, top);
    RootsKept(mid, parent[..], level, top, seen);
  }

  /** The body of the loop: take the edge when its ends have different roots. */
  method TreatEdge(parent: array<nat>, edge: Edge, cost: int, tree: seq<Edge>,
                   ghost seen: seq<Edge>, ghost level: seq<nat>, ghost top: nat)
    returns (cost': int, tree': seq<Edge>, ghost level': seq<nat>, ghost top': nat)
    requires edge.u < parent.Length && edge.v < parent.Length
    requires RootsMatch(parent[..], level, top, seen) && GreedyForest(parent.Length, seen, tree)
    requires forall x :: x in seen ==> x.weight <= edge.weight
    requires cost == Weight(tree)
    modifies parent
    ensures RootsMatch(parent[..], level', top', seen + [edge]) && GreedyForest(parent.Length, seen + [edge], tree')
    ensures tree' == if Connected(seen, edge.u, edge.v) then tree else tree + [edge]
    ensures cost' == Weight(tree')
  {
    cost', tree' := cost, tree;
    var joined;
    joined, level', top' := JoinEnds(parent, edge, seen, level, top);
    TreeConnects(parent.Length, seen, tree, edge.u, edge.v);
    if joined {
      cost' := cost + edge.weight;
      tree' := tree + [edge];
      WeightConcat(tree, [edge]);
      GreedyTakes(parent.Length, seen, tree, edge);
    } else {
      GreedySkips(parent.Length, seen, tree, edge);
    }
  }

  /** Looks up both ends and links their roots when they differ. */
  method JoinEnds(parent: array<nat>, edge: Edge, ghost seen: seq<Edge>, ghost level: seq<nat>, ghost top: nat)
    returns (joined: bool, ghost level': seq<nat>, ghost top': nat)
    requires edge.u < parent.Length && edge.v < parent.Length
    requires EdgesOf(parent.Length, seen) && RootsMatch(parent[..], level, top, seen)
    modifies parent
    ensures RootsMatch(parent[..], level', top', seen + [edge])
    ensures joined <==> !Connected(seen, edge.u, edge.v)
  {
    level', top' := level, top;
    var parentA, parentB := FindParents(parent, edge, seen, level, top);
    ghost var now := parent[..];
    assert Root(now, level, top, edge.u) == Root(now, level, top, edge.v) <==> Connected(seen, edge.u, edge.v);
    joined := parentA != parentB;
    if joined {
      LinkMatches(parent.Length, now, level, top, seen, edge);
      parent[parentA] := parentB;
      assert parent[..] == now[parentA := parentB];
      level', top' := Raise(level, parentA, parentB), top + 1;
    } else {
      SkipMatches(parent.Length, now, level, top, seen, edge);
    }
  }

  lemma TreeConnects(n: nat, seen: seq<Edge>, tree: seq<Edge>, x: nat, y: nat)
    requires GreedyForest(n, seen, tree)
    ensures Connected(tree, x, y) <==> Connected(seen, x, y)
  {
    if Connected(seen, x, y) {
      CoversConnects(tree, seen, x, y);
    }
    if Connected(tree, x, y) {
      forall e | e in tree ensures e in seen {
        assert e in multiset(tree);
      }
      SubsetCovers(seen, tree);
      CoversConnects(seen, tree, x, y);
    }
  }

  /** An edge inside a component leaves the components as they are. */
  lemma SkipMatches(n: nat, parent: seq<nat>, level: seq<nat>, top: nat, es: seq<Edge>, e: Edge)
    requires EdgesOf(n, es) && |parent| == n && e.u < n && e.v < n
    requires RootsMatch(parent, level, top, es)
    requires Root(parent, level, top, e.u) == Root(parent, level, top, e.v)
    ensures RootsMatch(parent, level, top, es + [e])
  {
    forall x, y | 0 <= x < n && 0 <= y < n
      ensures Root(parent, level, top, x) == Root(parent, level, top, y) <==> Connected(es + [e], x, y)
    {
      ConnectedSnoc(n, es, e, x, y);
      assert Root(parent, level, top, x) == Root(parent, level, top, e.u) <==> Connected(es, x, e.u);
      assert Root(parent, level, top, y) == Root(parent, level, top, e.u) <==> Connected(es, y, e.u);
      assert Root(parent, level, top, x) == Root(parent, level, top, e.v) <==> Connected(es, x, e.v);
      assert Root(parent, level, top, y) == Root(parent, level, top, e.v) <==> Connected(es, y, e.v);
    }
  }

  lemma GreedyIsMinimum(n: nat, es: seq<Edge>, sorted: seq<Edge>, tree: seq<Edge>)
    requires EdgesOf(n, es) && multiset(sorted) == multiset(es) && GreedyForest(n, sorted, tree)
    ensures SpanningForest(es, tree)
    ensures forall f :: SpanningForest(es, f) ==> Weight(tree) <= Weight(f)
  {
    SameElements(sorted, es);
    forall e | e in tree ensures e in es {
      assert e in multiset(tree);
    }
    AcyclicByRank(n, tree);
    forall f | SpanningForest(es, f) ensures Weight(tree) <= Weight(f) {
      MinimumAmongForests(n, es, tree, f);
    }
  }
}
