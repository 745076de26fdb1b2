/** The rewriting of a grammar that isolates the empty string: what the rewritten
    grammar is, and that it derives the same nonempty words. */
module EpsilonRewrite {
  import opened Grammar

  function Mark(s: Symbol): Symbol { Eps(s.name) }

  function Unmark(s: Symbol): Symbol { Sym(s.name) }

  function UnmarkSeq(a: seq<Symbol>): (b: seq<Symbol>)
    ensures |b| == |a|
  {
    seq(|a|, i requires 0 <= i < |a| => Unmark(a[i]))
  }

  function UnmarkRule(r: Rule): Rule { Rule(Unmark(r.lhs), UnmarkSeq(r.rhs)) }

  ghost predicate AllSym(a: seq<Symbol>) {
    forall i :: 0 <= i < |a| ==> a[i].Sym?
  }

  ghost predicate AllEps(a: seq<Symbol>) {
    forall i :: 0 <= i < |a| ==> a[i].Eps?
  }

  /** Only unmarked symbols in a grammar given by a user. */
  ghost predicate PlainRules(g: set<Rule>) {
    forall r :: r in g ==> r.lhs.Sym? && AllSym(r.rhs)
  }

  ghost predicate Nullable(g: set<Rule>, x: Symbol) { Derives(g, x, []) }

  /** n is exactly the set of nonterminals of g that derive the empty string. */
  ghost predicate ExactNullables(g: set<Rule>, n: set<Symbol>) {
    forall x: Symbol {:trigger Nullable(g, x)} :: x in n <==> Nullable(g, x)
  }

  /** v is r with some occurrences of nullable symbols marked, and its left-hand
      side is marked just when nothing on the right is left unmarked. */
  ghost predicate IsVariant(n: set<Symbol>, r: Rule, v: Rule) {
    && UnmarkSeq(v.rhs) == r.rhs
    && (forall i :: 0 <= i < |v.rhs| && v.rhs[i].Eps? ==> Unmark(v.rhs[i]) in n)
    && v.lhs == (if AllEps(v.rhs) then Mark(r.lhs) else r.lhs)
  }

  /** h is the rewriting of g when n is taken as the set of nullable symbols. */
  ghost predicate IsRewriting(g: set<Rule>, n: set<Symbol>, h: set<Rule>) {
    forall v: Rule {:trigger HasSource(g, n, v)} :: v in h <==> HasSource(g, n, v)
  }

  ghost predicate HasSource(g: set<Rule>, n: set<Symbol>, v: Rule) {
    exists r :: r in g && IsVariant(n, r, v)
  }

  // ----- from the rewritten grammar back to the original one

  function UnmarkTree(t: Tree): Tree {
    match t
    case Leaf(s) => t
    case Node(r, kids) => Node(UnmarkRule(r), UnmarkForest(kids))
  }

  function UnmarkForest(f: Forest): Forest {
    match f
    case Nil => Nil
    case Cons(t, rest) => Cons(UnmarkTree(t), UnmarkForest(rest))
  }

  lemma {:induction false} UnmarkTreeValid(g: set<Rule>, n: set<Symbol>, h: set<Rule>, t: Tree)
    requires PlainRules(g) && IsRewriting(g, n, h) && ValidTree(h, t)
    ensures TreeFor(g, Unmark(Root(t)), Yield(t), UnmarkTree(t))
  {
    match t
    case Leaf(s) =>
    case Node(v, kids) =>
      UnmarkForestValid(g, n, h, kids);
      assert HasSource(g, n, v);
      var r :| r in g && IsVariant(n, r, v);
      assert UnmarkRule(v) == r;
  }

  lemma {:induction false} UnmarkForestValid(g: set<Rule>, n: set<Symbol>, h: set<Rule>, f: Forest)
    requires PlainRules(g) && IsRewriting(g, n, h) && ValidForest(h, f)
    ensures ForestFor(g, UnmarkSeq(Roots(f)), Yields(f), UnmarkForest(f))
  {
    match f
    case Nil =>
    case Cons(t, rest) =>
      UnmarkTreeValid(g, n, h, t);
      UnmarkForestValid(g, n, h, rest);
      assert UnmarkSeq(Roots(f)) == [Unmark(Root(t))] + UnmarkSeq(Roots(rest));
  }

  /** In the rewritten grammar a marked symbol derives nothing but the empty
      word, and an unmarked one never derives it. */
  lemma {:induction false} YieldByMark(g: set<Rule>, n: set<Symbol>, h: set<Rule>, t: Tree)
    requires PlainRules(g) && IsRewriting(g, n, h) && ValidTree(h, t)
    ensures Root(t).Eps? <==> Yield(t) == []
  {
    match t
    case Leaf(s) =>
    case Node(v, kids) =>
      YieldsByMark(g, n, h, kids);
      assert HasSource(g, n, v);
      var r :| r in g && IsVariant(n, r, v);
  }

  lemma {:induction false} YieldsByMark(g: set<Rule>, n: set<Symbol>, h: set<Rule>, f: Forest)
    requires PlainRules(g) && IsRewriting(g, n, h) && ValidForest(h, f)
    ensures AllEps(Roots(f)) <==> Yields(f) == []
  {
    match f
    case Nil =>
    case Cons(t, rest) =>
      YieldByMark(g, n, h, t);
      YieldsByMark(g, n, h, rest);
      assert AllEps(Roots(f)) <==> Root(t).Eps? && AllEps(Roots(rest)) by {
        assert Roots(f)[0] == Root(t) && Roots(f)[1..] == Roots(rest);
        assert forall i :: 0 <= i < |Roots(rest)| ==> Roots(f)[i + 1] == Roots(rest)[i];
      }
  }

  // ----- from the original grammar to the rewritten one

  /** The root a tree has after marking: marked when its yield is empty. */
  function MarkedRoot(t: Tree): Symbol {
    if Yield(t) == [] then Mark(Root(t)) else Root(t)
  }

  function MarkedRoots(f: Forest): seq<Symbol> {
    match f
    case Nil => []
    case Cons(t, rest) => [MarkedRoot(t)] + MarkedRoots(rest)
  }

  function MarkTree(t: Tree): Tree {
    match t
    case Leaf(s) => t
    case Node(r, kids) => Node(Rule(MarkedRoot(t), MarkedRoots(kids)), MarkForest(kids))
  }

  function MarkForest(f: Forest): Forest {
    match f
    case Nil => Nil
    case Cons(t, rest) => Cons(MarkTree(t), MarkForest(rest))
  }

  lemma {:induction false} MarkTreeValid(g: set<Rule>, n: set<Symbol>, h: set<Rule>, t: Tree)
    requires PlainRules(g) && ExactNullables(g, n) && IsRewriting(g, n, h) && ValidTree(g, t)
    ensures TreeFor(h, MarkedRoot(t), Yield(t), MarkTree(t))
  {
    match t
    case Leaf(s) =>
    case Node(r, kids) =>
      MarkForestValid(g, n, h, kids);
      MarkedRootsProps(g, n, kids);
      var v := Rule(MarkedRoot(t), MarkedRoots(kids));
      assert IsVariant(n, r, v);
      assert HasSource(g, n, v);
  }

  lemma {:induction false} MarkForestValid(g: set<Rule>, n: set<Symbol>, h: set<Rule>, f: Forest)
    requires PlainRules(g) && ExactNullables(g, n) && IsRewriting(g, n, h) && ValidForest(g, f)
    ensures ForestFor(h, MarkedRoots(f), Yields(f), MarkForest(f))
  {
    match f
    case Nil =>
    case Cons(t, rest) =>
      MarkTreeValid(g, n, h, t);
      MarkForestValid(g, n, h, rest);
  }

  lemma {:induction false} MarkedRootsProps(g: set<Rule>, n: set<Symbol>, f: Forest)
    requires PlainRules(g) && ExactNullables(g, n) && ValidForest(g, f)
    ensures UnmarkSeq(MarkedRoots(f)) == Roots(f)
    ensures forall i :: 0 <= i < |MarkedRoots(f)| && MarkedRoots(f)[i].Eps? ==> Unmark(MarkedRoots(f)[i]) in n
    ensures AllEps(MarkedRoots(f)) <==> Yields(f) == []
  {
    match f
    case Nil =>
    case Cons(t, rest) =>
      MarkedRootsProps(g, n, rest);
      MarkedRootOk(g, n, t);
      var m, ms := MarkedRoot(t), MarkedRoots(rest);
      assert MarkedRoots(f) == [m] + ms;
      assert UnmarkSeq([m] + ms) == [Unmark(m)] + UnmarkSeq(ms);
      AllEpsCons(m, ms);
  }

  lemma MarkedRootOk(g: set<Rule>, n: set<Symbol>, t: Tree)
    requires PlainRules(g) && ExactNullables(g, n) && ValidTree(g, t)
    ensures Unmark(MarkedRoot(t)) == Root(t) && (MarkedRoot(t).Eps? <==> Yield(t) == [])
    ensures Yield(t) == [] ==> Root(t) in n
  {
    if Yield(t) == [] {
      assert TreeFor(g, Root(t), [], t) && Nullable(g, Root(t));
    }
  }

  lemma AllEpsCons(x: Symbol, a: seq<Symbol>)
    ensures AllEps([x] + a) <==> x.Eps? && AllEps(a)
  {
    assert ([x] + a)[0] == x;
    assert forall i :: 0 <= i < |a| ==> ([x] + a)[i + 1] == a[i];
  }

  // ----- main results

  /** Each unmarked symbol of the rewritten grammar derives exactly the nonempty
      words it derives in the original grammar. */
  lemma PlainSymbolsKeepNonemptyWords(g: set<Rule>, n: set<Symbol>, h: set<Rule>, x: Symbol, w: Word)
    requires PlainRules(g) && ExactNullables(g, n) && IsRewriting(g, n, h)
    requires x.Sym?
    ensures Derives(h, x, w) <==> Derives(g, x, w) && w != []
  {
    if Derives(h, x, w) {
      var t :| TreeFor(h, x, w, t);
      UnmarkTreeValid(g, n, h, t);
      YieldByMark(g, n, h, t);
    }
    if Derives(g, x, w) && w != [] {
      var t :| TreeFor(g, x, w, t);
      MarkTreeValid(g, n, h, t);
    }
  }

  /** The marked copy of x derives the empty word just when x is nullable in the
      original grammar, and derives no other word. */
  lemma MarkedSymbolsDeriveOnlyEmpty(g: set<Rule>, n: set<Symbol>, h: set<Rule>, x: Symbol, w: Word)
    requires PlainRules(g) && ExactNullables(g, n) && IsRewriting(g, n, h)
    requires x.Sym?
    ensures Derives(h, Mark(x), w) <==> w == [] && x in n
  {
    assert x in n <==> Nullable(g, x);
    if Derives(h, Mark(x), w) {
      var t :| TreeFor(h, Mark(x), w, t);
      UnmarkTreeValid(g, n, h, t);
      YieldByMark(g, n, h, t);
    }
    if w == [] && x in n {
      var t :| TreeFor(g, x, [], t);
      MarkTreeValid(g, n, h, t);
    }
  }

  // ----- the rules one entry of the rewriting worklist gives rise to

  /** All rules that come from treating the positions i.. of r: each nullable
      symbol is marked or kept, and the left-hand side is marked when nothing was
      kept.  cand says whether nothing was kept before position i. */
  function Variants(n: set<Symbol>, r: Rule, i: nat, cand: bool): seq<Rule>
    requires i <= |r.rhs|
    decreases |r.rhs| - i
  {
    if i == |r.rhs| then [if cand then Rule(Mark(r.lhs), r.rhs) else r]
    else if r.rhs[i] !in n then Variants(n, r, i + 1, false)
    else Variants(n, MarkAt(r, i), i + 1, cand) + Variants(n, r, i + 1, false)
  }

  function MarkAt(r: Rule, i: nat): Rule
    requires i < |r.rhs|
  {
    Rule(r.lhs, r.rhs[i := Mark(r.rhs[i])])
  }

  /** v differs from r only by marks on nullable symbols at positions from i on,
      with the left-hand side marked as cand and those marks demand. */
  ghost predicate VariantFrom(n: set<Symbol>, r: Rule, i: nat, cand: bool, v: Rule)
    requires i <= |r.rhs|
  {
    && |v.rhs| == |r.rhs|
    && (forall j :: 0 <= j < i ==> v.rhs[j] == r.rhs[j])
    && (forall j :: i <= j < |r.rhs| ==> v.rhs[j] == r.rhs[j] || (r.rhs[j] in n && v.rhs[j] == Mark(r.rhs[j])))
    && v.lhs == (if cand && (forall j :: i <= j < |r.rhs| ==> v.rhs[j].Eps?) then Mark(r.lhs) else r.lhs)
  }

  lemma {:induction false} VariantsFrom(n: set<Symbol>, r: Rule, i: nat, cand: bool, v: Rule)
    requires i <= |r.rhs| && forall j :: i <= j < |r.rhs| ==> r.rhs[j].Sym?
    ensures v in Variants(n, r, i, cand) <==> VariantFrom(n, r, i, cand, v)
    decreases |r.rhs| - i
  {
    hide VariantFrom;
    if i == |r.rhs| {
      OnlyVariant(n, r, cand, v);
    } else {
      VariantFromNext(n, r, i, cand, v);
      VariantsFrom(n, r, i + 1, false, v);
      if r.rhs[i] in n {
        VariantsFrom(n, MarkAt(r, i), i + 1, cand, v);
      }
    }
  }

  lemma OnlyVariant(n: set<Symbol>, r: Rule, cand: bool, v: Rule)
    ensures VariantFrom(n, r, |r.rhs|, cand, v) <==> v == if cand then Rule(Mark(r.lhs), r.rhs) else r
  {
    assert VariantFrom(n, r, |r.rhs|, cand, v) ==> v.rhs == r.rhs;
  }

  /** A variant keeps the symbol at i or has it marked. */
  lemma VariantFromNext(n: set<Symbol>, r: Rule, i: nat, cand: bool, v: Rule)
    requires i < |r.rhs| && forall j :: i <= j < |r.rhs| ==> r.rhs[j].Sym?
    ensures VariantFrom(n, r, i, cand, v) <==>
              VariantFrom(n, r, i + 1, false, v) || (r.rhs[i] in n && VariantFrom(n, MarkAt(r, i), i + 1, cand, v))
  {
    var m := MarkAt(r, i);
    assert forall j :: 0 <= j < |r.rhs| && j != i ==> m.rhs[j] == r.rhs[j];
    if VariantFrom(n, r, i, cand, v) {
      if v.rhs[i] == r.rhs[i] {
        assert VariantFrom(n, r, i + 1, false, v);
      } else {
        assert VariantFrom(n, m, i + 1, cand, v);
      }
    }
  }

  /** The rules made from a plain rule are exactly its variants. */
  lemma VariantsAreVariants(n: set<Symbol>, r: Rule, v: Rule)
    requires r.lhs.Sym? && AllSym(r.rhs)
    ensures v in Variants(n, r, 0, true) <==> IsVariant(n, r, v)
  {
    VariantsFrom(n, r, 0, true, v);
    if IsVariant(n, r, v) {
      assert forall j :: 0 <= j < |r.rhs| ==> Unmark(v.rhs[j]) == UnmarkSeq(v.rhs)[j];
    }
  }
}
