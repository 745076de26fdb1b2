/** Weighted undirected graphs as edge lists: connectivity, rank and spanning forests. */
module Graphs {
  datatype Edge = Edge(u: nat, v: nat, weight: int)

  ghost predicate EdgesOf(n: nat, es: seq<Edge>) {
    forall e :: e in es ==> e.u < n && e.v < n
  }

  // ----- connectivity, by paths

  ghost predicate Joined(es: seq<Edge>, x: nat, y: nat) {
    exists e :: e in es && ((e.u == x && e.v == y) || (e.u == y && e.v == x))
  }

  /** p is a path in es from x to y. */
  ghost predicate PathFor(es: seq<Edge>, x: nat, y: nat, p: seq<nat>) {
    && |p| > 0 && p[0] == x && p[|p| - 1] == y
    && forall i :: 0 <= i < |p| - 1 ==> Joined(es, p[i], p[i + 1])
  }

  ghost predicate Connected(es: seq<Edge>, x: nat, y: nat) {
    exists p :: PathFor(es, x, y, p)
  }

  lemma ConnectedSelf(es: seq<Edge>, x: nat)
    ensures Connected(es, x, x)
  {
    assert PathFor(es, x, x, [x]);
  }

  lemma ConnectedTransitive(es: seq<Edge>, x: nat, y: nat, z: nat)
    requires Connected(es, x, y) && Connected(es, y, z)
    ensures Connected(es, x, z)
  {
    var p :| PathFor(es, x, y, p);
    var q :| PathFor(es, y, z, q);
    var r := p + q[1..];
    assert forall i :: 0 <= i < |r| - 1 ==> Joined(es, r[i], r[i + 1]) by {
      forall i | 0 <= i < |r| - 1 ensures Joined(es, r[i], r[i + 1]) {
        if i >= |p| - 1 {
          assert r[i] == q[i - |p| + 1] && r[i + 1] == q[i - |p| + 2];
        }
      }
    }
    assert PathFor(es, x, z, r);
  }

  lemma ConnectedSymmetric(es: seq<Edge>, x: nat, y: nat)
    requires Connected(es, x, y)
    ensures Connected(es, y, x)
  {
    var p :| PathFor(es, x, y, p);
    var r := seq(|p|, i requires 0 <= i < |p| => p[|p| - 1 - i]);
    forall i | 0 <= i < |r| - 1 ensures Joined(es, r[i], r[i + 1]) {
      assert Joined(es, p[|p| - 2 - i], p[|p| - 1 - i]);
    }
    assert PathFor(es, y, x, r);
  }

  lemma EdgeConnects(es: seq<Edge>, e: Edge)
    requires e in es
    ensures Connected(es, e.u, e.v)
  {
    assert Joined(es, e.u, e.v);
    assert PathFor(es, e.u, e.v, [e.u, e.v]);
  }

  /** Every edge of b has its ends connected in a. */
  ghost predicate Covers(a: seq<Edge>, b: seq<Edge>) {
    forall e :: e in b ==> Connected(a, e.u, e.v)
  }

  lemma {:induction false} CoveredPath(a: seq<Edge>, b: seq<Edge>, x: nat, y: nat, p: seq<nat>)
    requires Covers(a, b) && PathFor(b, x, y, p)
    ensures Connected(a, x, y)
    decreases |p|
  {
    if |p| == 1 {
      ConnectedSelf(a, x);
    } else {
      var m := p[|p| - 2];
      var q := p[..|p| - 1];
      assert PathFor(b, x, m, q);
      CoveredPath(a, b, x, m, q);
      assert Joined(b, m, y) by { assert Joined(b, p[|p| - 2], p[|p| - 2 + 1]); }
      var e :| e in b && ((e.u == m && e.v == y) || (e.u == y && e.v == m));
      if !(e.u == m && e.v == y) {
        ConnectedSymmetric(a, y, m);
      }
      ConnectedTransitive(a, x, m, y);
    }
  }

  lemma CoversConnects(a: seq<Edge>, b: seq<Edge>, x: nat, y: nat)
    requires Covers(a, b) && Connected(b, x, y)
    ensures Connected(a, x, y)
  {
    var p :| PathFor(b, x, y, p);
    CoveredPath(a, b, x, y, p);
  }

  lemma SubsetCovers(a: seq<Edge>, b: seq<Edge>)
    requires forall e :: e in b ==> e in a
    ensures Covers(a, b)
  {
    forall e | e in b ensures Connected(a, e.u, e.v) {
      EdgeConnects(a, e);
    }
  }

  lemma CoversTransitive(a: seq<Edge>, b: seq<Edge>, c: seq<Edge>)
    requires Covers(a, b) && Covers(b, c)
    ensures Covers(a, c)
  {
    forall e | e in c ensures Connected(a, e.u, e.v) {
      CoversConnects(a, b, e.u, e.v);
    }
  }

  // ----- connectivity, by component labels

  function Identity(n: nat): (l: seq<nat>)
    ensures |l| == n && forall i :: 0 <= i < n ==> l[i] == i
  {
    seq(n, i => i)
  }

  function Merge(l: seq<nat>, a: nat, b: nat): (r: seq<nat>)
    requires a < |l| && b < |l|
    ensures |r| == |l|
    ensures forall i :: 0 <= i < |l| ==> r[i] == if l[i] == l[a] then l[b] else l[i]
  {
    seq(|l|, i requires 0 <= i < |l| => if l[i] == l[a] then l[b] else l[i])
  }

  /** One label per component, merging the labels of each edge's ends in turn. */
  function Labels(n: nat, es: seq<Edge>): (l: seq<nat>)
    requires EdgesOf(n, es)
    ensures |l| == n
  {
    if es == [] then Identity(n)
    else
      var k := |es| - 1;
      Merge(Labels(n, es[..k]), es[k].u, es[k].v)
  }

  lemma SplitLast(es: seq<Edge>, k: nat)
    requires k + 1 == |es|
    ensures es == es[..k] + [es[k]]
    ensures Covers(es, es[..k])
  {
    SubsetCovers(es, es[..k]);
  }

  /** Same label exactly when connected by a path. */
  lemma {:induction false} LabelsConnect(n: nat, es: seq<Edge>, x: nat, y: nat)
    requires EdgesOf(n, es) && x < n && y < n
    requires Labels(n, es)[x] == Labels(n, es)[y]
    ensures Connected(es, x, y)
    decreases |es|
  {
    if es == [] {
      ConnectedSelf(es, x);
    } else {
      var k := |es| - 1;
      var a, b := es[k].u, es[k].v;
      var l := Labels(n, es[..k]);
      SplitLast(es, k);
      EdgeConnects(es, es[k]);
      if l[x] == l[y] {
        LabelsConnect(n, es[..k], x, y);
        CoversConnects(es, es[..k], x, y);
      } else if l[x] == l[a] {
        LabelsConnect(n, es[..k], x, a);
        LabelsConnect(n, es[..k], b, y);
        CoversConnects(es, es[..k], x, a);
        CoversConnects(es, es[..k], b, y);
        ConnectedTransitive(es, x, a, b);
        ConnectedTransitive(es, x, b, y);
      } else {
        LabelsConnect(n, es[..k], x, b);
        LabelsConnect(n, es[..k], a, y);
        CoversConnects(es, es[..k], x, b);
        CoversConnects(es, es[..k], a, y);
        ConnectedSymmetric(es, a, b);
        ConnectedTransitive(es, x, b, a);
        ConnectedTransitive(es, x, a, y);
      }
    }
  }

  lemma {:induction false} EdgeLabels(n: nat, es: seq<Edge>, e: Edge)
    requires EdgesOf(n, es) && e in es
    ensures Labels(n, es)[e.u] == Labels(n, es)[e.v]
    decreases |es|
  {
    var k := |es| - 1;
    SplitLast(es, k);
    if e in es[..k] {
      EdgeLabels(n, es[..k], e);
    }
  }

  lemma {:induction false} PathLabels(n: nat, es: seq<Edge>, x: nat, y: nat, p: seq<nat>)
    requires EdgesOf(n, es) && x < n && PathFor(es, x, y, p)
    ensures y < n && Labels(n, es)[x] == Labels(n, es)[y]
    decreases |p|
  {
    if |p| > 1 {
      var m := p[|p| - 2];
      assert PathFor(es, x, m, p[..|p| - 1]);
      PathLabels(n, es, x, m, p[..|p| - 1]);
      assert Joined(es, p[|p| - 2], p[|p| - 2 + 1]);
      var e :| e in es && ((e.u == m && e.v == y) || (e.u == y && e.v == m));
      EdgeLabels(n, es, e);
    }
  }

  lemma SameLabel(n: nat, es: seq<Edge>, x: nat, y: nat)
    requires EdgesOf(n, es) && x < n && y < n
    ensures Connected(es, x, y) <==> Labels(n, es)[x] == Labels(n, es)[y]
  {
    if Labels(n, es)[x] == Labels(n, es)[y] {
      LabelsConnect(n, es, x, y);
    }
    if Connected(es, x, y) {
      var p :| PathFor(es, x, y, p);
      PathLabels(n, es, x, y, p);
    }
  }

  // ----- rank: the number of vertices minus the number of components

  function Range(l: seq<nat>): set<nat> { set i | 0 <= i < |l| :: l[i] }

  function Rank(n: nat, es: seq<Edge>): int
    requires EdgesOf(n, es)
  {
    n - |Range(Labels(n, es))|
  }

  lemma {:induction false} IdentityRange(n: nat)
    ensures |Range(Identity(n))| == n
  {
    if n > 0 {
      IdentityRange(n - 1);
      forall x: nat ensures x in Range(Identity(n)) <==> x in Range(Identity(n - 1)) + {n - 1} {
        if x < n {
          assert Identity(n)[x] == x;
          assert x < n - 1 ==> Identity(n - 1)[x] == x;
        }
      }
      assert Range(Identity(n)) == Range(Identity(n - 1)) + {n - 1};
    }
  }

  lemma MergeRange(l: seq<nat>, a: nat, b: nat)
    requires a < |l| && b < |l|
    ensures l[a] == l[b] ==> Merge(l, a, b) == l
    ensures l[a] != l[b] ==> |Range(Merge(l, a, b))| == |Range(l)| - 1
  {
    var m := Merge(l, a, b);
    if l[a] != l[b] {
      forall x ensures x in Range(m) <==> x in Range(l) - {l[a]} {
        if x in Range(l) - {l[a]} {
          var i :| 0 <= i < |l| && l[i] == x;
          assert m[i] == x;
        }
      }
      assert Range(m) == Range(l) - {l[a]};
    }
  }

  /** One more edge raises the rank by one when it joins two components, and else not at all. */
  lemma RankSnoc(n: nat, es: seq<Edge>, e: Edge)
    requires EdgesOf(n, es) && e.u < n && e.v < n
    ensures EdgesOf(n, es + [e])
    ensures Rank(n, es + [e]) == Rank(n, es) + (if Connected(es, e.u, e.v) then 0 else 1)
  {
    assert (es + [e])[..|es|] == es;
    SameLabel(n, es, e.u, e.v);
    MergeRange(Labels(n, es), e.u, e.v);
  }

  lemma {:induction false} RankConcat(n: nat, a: seq<Edge>, b: seq<Edge>)
    requires EdgesOf(n, a) && EdgesOf(n, b)
    ensures EdgesOf(n, a + b) && Rank(n, a) <= Rank(n, a + b) <= Rank(n, a) + |b|
    decreases |b|
  {
    if b == [] {
      assert a + b == a;
    } else {
      var k := |b| - 1;
      assert a + b == (a + b[..k]) + [b[k]];
      RankConcat(n, a, b[..k]);
      assert b[k] in b;
      RankSnoc(n, a + b[..k], b[k]);
    }
  }

  lemma RankAtMostSize(n: nat, es: seq<Edge>)
    requires EdgesOf(n, es)
    ensures 0 <= Rank(n, es) <= |es|
  {
    IdentityRange(n);
    assert [] + es == es;
    RankConcat(n, [], es);
  }

  lemma RangeSnoc(l: seq<nat>)
    requires |l| > 0
    ensures Range(l) == Range(l[..|l| - 1]) + {l[|l| - 1]}
  {
    var k := |l| - 1;
    forall x | x in Range(l) ensures x in Range(l[..k]) + {l[k]} {
      var i :| 0 <= i < |l| && l[i] == x;
      assert i < k ==> l[..k][i] == x;
    }
    forall x | x in Range(l[..k]) ensures x in Range(l) {
      var i :| 0 <= i < k && l[..k][i] == x;
      assert l[i] == x;
    }
  }

  /** A map from a onto b bounds the size of b. */
  lemma {:induction false} ImageSize(l: seq<nat>, m: seq<nat>)
    requires |l| == |m| && forall i, j :: 0 <= i < |l| && 0 <= j < |l| && l[i] == l[j] ==> m[i] == m[j]
    ensures |Range(m)| <= |Range(l)|
    decreases |l|
  {
    if |l| > 0 {
      var k := |l| - 1;
      ImageSize(l[..k], m[..k]);
      RangeSnoc(l);
      RangeSnoc(m);
      if l[k] in Range(l[..k]) {
        var i :| 0 <= i < k && l[..k][i] == l[k];
        assert m[..k][i] == m[k];
        assert m[k] in Range(m[..k]);
      }
    }
  }

  lemma CoversRank(n: nat, a: seq<Edge>, b: seq<Edge>)
    requires EdgesOf(n, a) && EdgesOf(n, b) && Covers(a, b)
    ensures Rank(n, b) <= Rank(n, a)
  {
    var l, m := Labels(n, b), Labels(n, a);
    forall i, j | 0 <= i < n && 0 <= j < n && l[i] == l[j] ensures m[i] == m[j] {
      SameLabel(n, b, i, j);
      CoversConnects(a, b, i, j);
      SameLabel(n, a, i, j);
    }
    ImageSize(l, m);
  }

  // ----- forests

  function Without(es: seq<Edge>, i: nat): seq<Edge>
    requires i < |es|
  {
    es[..i] + es[i + 1..]
  }

  /** No edge has its ends connected by the other edges. */
  ghost predicate Acyclic(es: seq<Edge>) {
    forall i :: 0 <= i < |es| ==> !Connected(Without(es, i), es[i].u, es[i].v)
  }

  /** A graph is a forest exactly when its edges and components together number its vertices. */
  lemma AcyclicByRank(n: nat, es: seq<Edge>)
    requires EdgesOf(n, es)
    ensures Acyclic(es) <==> Rank(n, es) == |es|
  {
    if Acyclic(es) {
      AcyclicFullRank(n, es, |es|);
      assert es[..|es|] == es;
    }
    if Rank(n, es) == |es| {
      forall i | 0 <= i < |es| ensures !Connected(Without(es, i), es[i].u, es[i].v) {
        var o := Without(es, i);
        RankAtMostSize(n, o);
        if Connected(o, es[i].u, es[i].v) {
          forall e | e in es ensures Connected(o, e.u, e.v) {
            if e in o { EdgeConnects(o, e); }
          }
          CoversRank(n, o, es);
        }
      }
    }
  }

  lemma {:induction false} AcyclicFullRank(n: nat, es: seq<Edge>, k: nat)
    requires EdgesOf(n, es) && Acyclic(es) && k <= |es|
    ensures Rank(n, es[..k]) == k
  {
    if k == 0 {
      IdentityRange(n);
    } else {
      AcyclicFullRank(n, es, k - 1);
      var p, e := es[..k - 1], es[k - 1];
      assert es[..k] == p + [e];
      RankSnoc(n, p, e);
      var o := Without(es, k - 1);
      if Connected(p, e.u, e.v) {
        SubsetCovers(o, p);
        CoversConnects(o, p, e.u, e.v);
      }
    }
  }

  /** Same edges, whatever their order and number: same rank. */
  lemma SameEdgesSameRank(n: nat, a: seq<Edge>, b: seq<Edge>)
    requires EdgesOf(n, a) && EdgesOf(n, b)
    requires forall e :: e in a <==> e in b
    ensures Rank(n, a) == Rank(n, b)
  {
    SubsetCovers(a, b);
    SubsetCovers(b, a);
    CoversRank(n, a, b);
    CoversRank(n, b, a);
  }
}
