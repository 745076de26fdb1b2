/** Why the Earley sets hold exactly what they should: soundness of every item the
    parser adds, and completeness of sets it has finished. */
module EarleySets {
  import opened Common
  import opened Grammar
  import opened EpsilonRewrite
  import opened RewriteFacts
  import opened EarleyMachine

  datatype Item = Item(state: nat, parent: nat)

  /** A token: the symbol it equals, and whether typestring gives that symbol as its type. */
  datatype Token = Token(sym: Symbol, typed: bool)

  /** The symbol a token is scanned as.  A token without a type is compared with the
      terminals of a state only, so one named like a nonterminal matches nothing, just
      as the start symbol's own name does. */
  function Seen(nts: set<Symbol>, t: Token): Symbol {
    if !t.typed && t.sym in nts then START else t.sym
  }

  function SeenWord(nts: set<Symbol>, ts: seq<Token>): (w: Word)
    ensures |w| == |ts|
  {
    seq(|ts|, i requires 0 <= i < |ts| => Seen(nts, ts[i]))
  }

  /** The token that goes with position i of the word; none goes with its end. */
  ghost predicate TokenAt(rs: seq<Rule>, token: Option<Token>, w: Word, i: nat) {
    if i < |w| then token.Some? && token.value.sym.Sym? && w[i] == Seen(Nonterminals(rs), token.value)
    else token.None?
  }

  /** Every marked symbol on a right-hand side derives the empty word. */
  ghost predicate MarksDeriveEmpty(h: set<Rule>) {
    forall r, j :: r in h && 0 <= j < |r.rhs| && r.rhs[j].Eps? ==> Derives(h, r.rhs[j], [])
  }

  ghost predicate StartNeverNext(h: set<Rule>) {
    forall r :: r in h ==> START !in r.rhs
  }

  // ----- soundness

  /** The symbols before the dot; the start rule's leading marker, which stands for
      no token, is left out. */
  function Body(d: Dotted): seq<Symbol>
    requires d.pos <= |d.rule.rhs|
  {
    if d.rule.lhs == START && d.pos > 0 then d.rule.rhs[1..d.pos] else d.rule.rhs[..d.pos]
  }

  ghost predicate DotDerives(h: set<Rule>, d: Dotted, w: Word) {
    d.pos <= |d.rule.rhs| && DerivesSeq(h, Body(d), w)
  }

  ghost predicate AllDerive(h: set<Rule>, items: seq<Dotted>, w: Word) {
    forall d :: d in items ==> DotDerives(h, d, w)
  }

  /** Item it, in set i, is sound: for each of its dotted rules, what stands before
      the dot derives the tokens from its parent to i. */
  ghost predicate ItemSound(h: set<Rule>, m: Machine, w: Word, it: Item, i: nat) {
    && it.state in m.coreOf && it.state < |m.states|
    && it.parent <= i <= |w|
    && (m.coreOf[it.state].Predicted? ==> it.parent == i)
    && AllDerive(h, m.states[it.state].items, w[it.parent..i])
  }

  lemma {:induction false} MarkedRunDerivesEmpty(h: set<Rule>, r: Rule, lo: nat, hi: nat)
    requires MarksDeriveEmpty(h) && r in h && lo <= hi <= |r.rhs|
    requires forall j :: lo <= j < hi ==> r.rhs[j].Eps?
    ensures DerivesSeq(h, r.rhs[lo..hi], [])
    decreases hi - lo
  {
    if lo == hi {
      DerivesEmpty(h);
    } else {
      MarkedRunDerivesEmpty(h, r, lo + 1, hi);
      DerivesSingle(h, r.rhs[lo], []);
      assert r.rhs[lo..hi] == [r.rhs[lo]] + r.rhs[lo + 1..hi];
      var e: Word := [];
      assert e + e == e;
      DerivesConcat(h, [r.rhs[lo]], e, r.rhs[lo + 1..hi], e);
    }
  }

  lemma StepBody(d: Dotted, x: Symbol)
    requires NextIs(d, x) && (d.rule.lhs == START ==> d.pos > 0)
    ensures d.pos + 1 <= Step(d).pos <= |d.rule.rhs|
    ensures Body(Step(d)) == Body(d) + [x] + d.rule.rhs[d.pos + 1..Step(d).pos]
  {
  }

  /** Moving the dot over a symbol that derives v. */
  lemma StepSound(h: set<Rule>, d: Dotted, x: Symbol, u: Word, v: Word)
    requires MarksDeriveEmpty(h) && d.rule in h && NextIs(d, x)
    requires d.rule.lhs == START ==> d.pos > 0
    requires DotDerives(h, d, u) && Derives(h, x, v)
    ensures DotDerives(h, Step(d), u + v)
  {
    var r, q := d.rule, Step(d).pos;
    DerivesSingle(h, x, v);
    DerivesConcat(h, Body(d), u, [x], v);
    MarkedRunDerivesEmpty(h, r, d.pos + 1, q);
    DerivesConcat(h, Body(d) + [x], u + v, r.rhs[d.pos + 1..q], []);
    StepBody(d, x);
    assert (u + v) + [] == u + v;
  }

  ghost predicate SoundContext(h: set<Rule>, rs: seq<Rule>, m: Machine) {
    && MarksDeriveEmpty(h) && StartNeverNext(h) && h == Elements(rs)
    && MachineOk(rs, m)
  }

  /** The target of an edge holds exactly the items that move the dot over its symbol. */
  lemma EdgeTarget(rs: seq<Rule>, m: Machine, s: nat, x: Symbol, k: nat, e: Dotted)
    requires MachineOk(rs, m)
    requires Edge(s, Some(x)) in m.edges && m.edges[Edge(s, Some(x))] == Some(k)
    ensures k in m.coreOf && s in m.coreOf && m.coreOf[k].Kernel?
    ensures e in m.states[k].items <==> exists d :: d in m.states[s].items && NextIs(d, x) && Step(d) == e
  {
    assert EdgeOk(rs, m, Edge(s, Some(x)), Some(k));
    assert CoreOk(rs, m.states[k], m.coreOf[k]);
    AdvanceMember(m.states[s].items, x, e);
    assert e in m.states[k].items <==> e in multiset(m.states[k].items);
    assert e in Advance(m.states[s].items, x) <==> e in multiset(Advance(m.states[s].items, x));
  }

  lemma KernelTarget(rs: seq<Rule>, m: Machine, s: nat, x: Symbol, k: nat)
    requires MachineOk(rs, m)
    requires Edge(s, Some(x)) in m.edges && m.edges[Edge(s, Some(x))] == Some(k)
    ensures k in m.coreOf && k < |m.states| && m.coreOf[k].Kernel?
  {
    assert EdgeOk(rs, m, Edge(s, Some(x)), Some(k));
  }

  lemma StepSource(h: set<Rule>, rs: seq<Rule>, m: Machine, s: nat, x: Symbol, k: nat, e: Dotted) returns (d: Dotted)
    requires SoundContext(h, rs, m)
    requires Edge(s, Some(x)) in m.edges && m.edges[Edge(s, Some(x))] == Some(k)
    requires s in m.coreOf && k in m.coreOf && e in m.states[k].items
    ensures d in m.states[s].items && NextIs(d, x) && Step(d) == e
    ensures d.rule in h && (d.rule.lhs == START ==> d.pos > 0)
  {
    EdgeTarget(rs, m, s, x, k, e);
    d :| d in m.states[s].items && NextIs(d, x) && Step(d) == e;
    assert StateOk(rs, m.states[s]) && ItemOk(rs, d);
  }

  lemma EdgeItemsSound(h: set<Rule>, rs: seq<Rule>, m: Machine, s: nat, x: Symbol, k: nat, u: Word, v: Word)
    requires SoundContext(h, rs, m)
    requires Edge(s, Some(x)) in m.edges && m.edges[Edge(s, Some(x))] == Some(k)
    requires s in m.coreOf && k in m.coreOf
    requires Derives(h, x, v) && AllDerive(h, m.states[s].items, u)
    ensures AllDerive(h, m.states[k].items, u + v)
  {
    forall e | e in m.states[k].items ensures DotDerives(h, e, u + v) {
      var d := StepSource(h, rs, m, s, x, k, e);
      StepSound(h, d, x, u, v);
    }
  }

  /** Following the edge on x from a sound item, when x derives the tokens up to j. */
  lemma EdgeSound(h: set<Rule>, rs: seq<Rule>, m: Machine, w: Word, it: Item, i: nat, x: Symbol, k: nat, j: nat)
    requires SoundContext(h, rs, m) && ItemSound(h, m, w, it, i)
    requires Edge(it.state, Some(x)) in m.edges && m.edges[Edge(it.state, Some(x))] == Some(k)
    requires i <= j <= |w| && Derives(h, x, w[i..j])
    ensures ItemSound(h, m, w, Item(k, it.parent), j)
  {
    KernelTarget(rs, m, it.state, x, k);
    assert w[it.parent..i] + w[i..j] == w[it.parent..j];
    EdgeItemsSound(h, rs, m, it.state, x, k, w[it.parent..i], w[i..j]);
  }

  /** The nonkernel state that goes with a kernel state. */
  lemma NonkernelSound(h: set<Rule>, rs: seq<Rule>, m: Machine, w: Word, k: nat, nk: nat, i: nat)
    requires SoundContext(h, rs, m) && i <= |w|
    requires Edge(k, None) in m.edges && m.edges[Edge(k, None)] == Some(nk)
    ensures ItemSound(h, m, w, Item(nk, i), i)
  {
    assert EdgeOk(rs, m, Edge(k, None), Some(nk));
    assert CoreOk(rs, m.states[nk], m.coreOf[nk]);
    assert w[i..i] == [];
    forall d | d in m.states[nk].items ensures DotDerives(h, d, w[i..i]) {
      assert PredictedItem(rs, m.coreOf[nk].syms, d);
      MarkedRunDerivesEmpty(h, d.rule, 0, d.pos);
      assert d.rule.rhs[0..d.pos] == Body(d);
    }
  }

  /** A completed rule of a sound item is a derivation of its left-hand side. */
  lemma CompletedDerives(h: set<Rule>, rs: seq<Rule>, m: Machine, w: Word, it: Item, i: nat, r: Rule)
    requires SoundContext(h, rs, m) && ItemSound(h, m, w, it, i)
    requires r in m.states[it.state].complete && r.lhs != START
    ensures Derives(h, r.lhs, w[it.parent..i])
  {
    assert StateOk(rs, m.states[it.state]);
    var d := Dotted(r, |r.rhs|);
    assert d in m.states[it.state].items && ItemOk(rs, d);
    assert Body(d) == r.rhs;
    DerivesByRule(h, r, w[it.parent..i]);
  }

  lemma NextIsNotStart(h: set<Rule>, rs: seq<Rule>, m: Machine, s: nat, d: Dotted, x: Symbol)
    requires SoundContext(h, rs, m) && s in m.coreOf && d in m.states[s].items && NextIs(d, x)
    ensures x != START
  {
    assert StateOk(rs, m.states[s]) && ItemOk(rs, d);
  }

  lemma NoEdgeOnStart(h: set<Rule>, rs: seq<Rule>, m: Machine, s: nat)
    requires SoundContext(h, rs, m)
    ensures Edge(s, Some(START)) !in m.edges
  {
    var e := Edge(s, Some(START));
    if e in m.edges {
      assert EdgeOk(rs, m, e, m.edges[e]);
      var d :| d in m.states[s].items && NextIs(d, START);
      NextIsNotStart(h, rs, m, s, d, START);
    }
  }

  // ----- completeness

  /** Item (k, h) is in set j, and with it the nonkernel state of k. */
  ghost predicate Present(m: Machine, sets: seq<seq<Item>>, j: nat, k: nat, h: nat)
    requires j < |sets|
  {
    && Item(k, h) in sets[j]
    && (Edge(k, None) in m.edges ==> m.edges[Edge(k, None)].Some? && Item(m.edges[Edge(k, None)].value, j) in sets[j])
  }

  ghost predicate Reached(m: Machine, sets: seq<seq<Item>>, e: Edge, j: nat, h: nat)
    requires j < |sets|
  {
    e in m.edges ==> m.edges[e].Some? && Present(m, sets, j, m.edges[e].value, h)
  }

  /** The scanner has treated item it of set j. */
  ghost predicate Scanned(m: Machine, w: Word, sets: seq<seq<Item>>, j: nat, it: Item)
    requires j + 1 < |sets|
  {
    j < |w| ==> Reached(m, sets, Edge(it.state, Some(w[j])), j + 1, it.parent)
  }

  /** The completer has treated item it of set j for the completed rule r. */
  ghost predicate RuleCompleted(m: Machine, sets: seq<seq<Item>>, j: nat, parent: nat, r: Rule)
    requires j < |sets| && parent < |sets|
  {
    forall p :: p in sets[parent] ==> Reached(m, sets, Edge(p.state, Some(r.lhs)), j, p.parent)
  }

  ghost predicate Completed(m: Machine, sets: seq<seq<Item>>, j: nat, it: Item)
    requires j < |sets|
  {
    it.parent < j && it.state < |m.states| ==>
      forall r :: r in m.states[it.state].complete ==> RuleCompleted(m, sets, j, it.parent, r)
  }

  ghost predicate ItemClosed(m: Machine, w: Word, sets: seq<seq<Item>>, j: nat, it: Item)
    requires j + 1 < |sets|
  {
    Scanned(m, w, sets, j, it) && Completed(m, sets, j, it)
  }

  ghost predicate ItemPlaced(m: Machine, sets: seq<seq<Item>>, j: nat, it: Item)
    requires j < |sets|
  {
    && it.state in m.coreOf && (m.coreOf[it.state].Predicted? ==> it.parent == j)
    && Present(m, sets, j, it.state, it.parent)
  }

  /** All sets are finished. */
  ghost predicate AllClosed(m: Machine, w: Word, sets: seq<seq<Item>>) {
    && |w| + 1 < |sets|
    && (forall j, it {:trigger ItemPlaced(m, sets, j, it)} :: 0 <= j <= |w| && it in sets[j] ==> ItemPlaced(m, sets, j, it))
    && (forall j, it {:trigger ItemClosed(m, w, sets, j, it)} :: 0 <= j <= |w| && it in sets[j] ==> ItemClosed(m, w, sets, j, it))
  }

  ghost predicate Finished(h: set<Rule>, rs: seq<Rule>, m: Machine, w: Word, sets: seq<seq<Item>>) {
    && h == Elements(rs) && MachineOk(rs, m) && AllClosed(m, w, sets)
    && YieldsFollowMarks(h)
  }

  /** When an item of set j has x next and x derives the tokens up to i, following
      the edge on x leads to an item of set i. */
  lemma {:induction false} TreeIsFollowed(h: set<Rule>, rs: seq<Rule>, m: Machine, w: Word, sets: seq<seq<Item>>,
                                          it: Item, j: nat, d: Dotted, i: nat, t: Tree)
    requires Finished(h, rs, m, w, sets)
    requires j <= i <= |w| && it in sets[j] && it.state in m.coreOf && d in m.states[it.state].items
    requires ValidTree(h, t) && NextIs(d, Root(t)) && Root(t).Sym? && Yield(t) == w[j..i]
    ensures var e := Edge(it.state, Some(Root(t)));
            e in m.edges && m.edges[e].Some? && Present(m, sets, i, m.edges[e].value, it.parent)
    decreases t
  {
    NextHasEdge(rs, m, w, sets, it, j, d, Root(t));
    match t
    case Leaf(_) =>
      assert i == j + 1 && w[j] == Root(t) by {
        assert w[j..i] == [Root(t)];
        assert w[j..i][0] == w[j];
      }
    case Node(r, kids) =>
      assert Yield(t) != [];
      var s := PredictingItem(rs, m, w, sets, it, j, d, r);
      assert r.rhs[0..] == Roots(kids);
      var k := ForestIsFollowed(h, rs, m, w, sets, Item(s, j), j, r, 0, i, kids);
      CompletionIsFollowed(rs, m, w, sets, it, j, i, r, k);
  }

  /** A symbol that an item has next is on an edge, and the scanner has followed it. */
  lemma NextHasEdge(rs: seq<Rule>, m: Machine, w: Word, sets: seq<seq<Item>>, it: Item, j: nat, d: Dotted, x: Symbol)
    requires MachineOk(rs, m) && AllClosed(m, w, sets)
    requires j <= |w| && it in sets[j] && it.state in m.coreOf && d in m.states[it.state].items && NextIs(d, x)
    ensures Edge(it.state, Some(x)) in m.edges
    ensures j < |w| && w[j] == x ==> Reached(m, sets, Edge(it.state, Some(x)), j + 1, it.parent)
  {
    assert ItemPlaced(m, sets, j, it) && ItemClosed(m, w, sets, j, it);
    assert HasNext(m.states[it.state].items, x);
    assert EdgesFrom(rs, m, it.state, 0);
  }

  lemma CompletionIsFollowed(rs: seq<Rule>, m: Machine, w: Word, sets: seq<seq<Item>>, it: Item, j: nat, i: nat, r: Rule, k: nat)
    requires MachineOk(rs, m) && AllClosed(m, w, sets)
    requires j < i <= |w| && it in sets[j]
    requires k in m.coreOf && Item(k, j) in sets[i] && Dotted(r, |r.rhs|) in m.states[k].items
    ensures Reached(m, sets, Edge(it.state, Some(r.lhs)), i, it.parent)
  {
    assert ItemClosed(m, w, sets, i, Item(k, j));
    assert StateOk(rs, m.states[k]);
    assert r in m.states[k].complete;
    assert Completed(m, sets, i, Item(k, j)) && RuleCompleted(m, sets, i, j, r);
  }

  /** The item of set j that holds the rules predicted from d. */
  lemma PredictingItem(rs: seq<Rule>, m: Machine, w: Word, sets: seq<seq<Item>>, it: Item, j: nat, d: Dotted, r: Rule)
    returns (s: nat)
    requires MachineOk(rs, m) && AllClosed(m, w, sets)
    requires j <= |w| && it in sets[j] && it.state in m.coreOf && d in m.states[it.state].items
    requires r in rs && NextIs(d, r.lhs)
    ensures s in m.coreOf && Item(s, j) in sets[j] && Dotted(r, SkipTo(r, 0)) in m.states[s].items
  {
    assert ItemPlaced(m, sets, j, it) && ItemClosed(m, w, sets, j, it);
    assert EdgesFrom(rs, m, it.state, 0);
    assert HasNext(m.states[it.state].items, r.lhs) && r.lhs in Nonterminals(rs);
    if m.coreOf[it.state].Kernel? {
      s := m.edges[Edge(it.state, None)].value;
      assert EdgeOk(rs, m, Edge(it.state, None), m.edges[Edge(it.state, None)]);
    } else {
      s := it.state;
    }
    assert CoreOk(rs, m.states[s], m.coreOf[s]);
    assert PredictedItem(rs, m.coreOf[s].syms, Dotted(r, SkipTo(r, 0)));
  }

  /** Walking the dot of r from position q to its end. */
  lemma {:induction false} ForestIsFollowed(h: set<Rule>, rs: seq<Rule>, m: Machine, w: Word, sets: seq<seq<Item>>,
                                            it: Item, j: nat, r: Rule, q: nat, i: nat, f: Forest)
    returns (k: nat)
    requires Finished(h, rs, m, w, sets)
    requires j <= i <= |w| && it in sets[j] && it.state in m.coreOf
    requires r in rs && q <= |r.rhs| && Dotted(r, SkipTo(r, q)) in m.states[it.state].items
    requires ValidForest(h, f) && Roots(f) == r.rhs[q..] && Yields(f) == w[j..i]
    ensures k in m.coreOf && Item(k, it.parent) in sets[i] && Dotted(r, |r.rhs|) in m.states[k].items
    decreases f
  {
    match f
    case Nil =>
      k := it.state;
    case Cons(t, rest) =>
      assert r.rhs[q..][0] == r.rhs[q] && r.rhs[q..][1..] == r.rhs[q + 1..];
      assert Roots(rest) == r.rhs[q + 1..];
      var mid := j + |Yield(t)|;
      assert w[j..i][..|Yield(t)|] == Yield(t) && w[j..i][|Yield(t)|..] == Yields(rest);
      assert w[j..mid] == Yield(t) && w[mid..i] == Yields(rest);
      if Root(t).Eps? {
        k := ForestIsFollowed(h, rs, m, w, sets, it, j, r, q + 1, i, rest);
      } else {
        var d := Dotted(r, q);
        TreeIsFollowed(h, rs, m, w, sets, it, j, d, mid, t);
        var s := m.edges[Edge(it.state, Some(Root(t)))].value;
        EdgeTarget(rs, m, it.state, Root(t), s, Step(d));
        k := ForestIsFollowed(h, rs, m, w, sets, Item(s, it.parent), mid, r, q + 1, i, rest);
      }
  }

  // ----- the invariant of the parser's loops

  ghost predicate NoDuplicates(s: seq<Item>) {
    forall a, b :: 0 <= a < b < |s| ==> s[a] != s[b]
  }

  /** Sets 0..i+1 exist; all their items are sound and placed with their nonkernel
      states, and the items of the sets before i are treated. */
  ghost predicate SetsOk(h: set<Rule>, m: Machine, w: Word, sets: seq<seq<Item>>, i: nat) {
    && |sets| == i + 2 && i <= |w|
    && (i == |w| ==> sets[i + 1] == [])
    && (forall j :: 0 <= j < |sets| ==> NoDuplicates(sets[j]))
    && (forall j, it {:trigger ItemSound(h, m, w, it, j)} :: 0 <= j < |sets| && it in sets[j] ==> ItemSound(h, m, w, it, j))
    && (forall j, it {:trigger ItemPlaced(m, sets, j, it)} :: 0 <= j < |sets| && it in sets[j] ==> ItemPlaced(m, sets, j, it))
    && (forall j, it {:trigger ItemClosed(m, w, sets, j, it)} :: 0 <= j < i && it in sets[j] ==> ItemClosed(m, w, sets, j, it))
  }

  ghost predicate SetsGrow(s: seq<seq<Item>>, s': seq<seq<Item>>, i: nat) {
    && |s| == |s'| == i + 2
    && (forall j :: 0 <= j < i ==> s[j] == s'[j])
    && s[i] <= s'[i] && s[i + 1] <= s'[i + 1]
  }

  lemma SetsGrowTransitive(a: seq<seq<Item>>, b: seq<seq<Item>>, c: seq<seq<Item>>, i: nat)
    requires SetsGrow(a, b, i) && SetsGrow(b, c, i)
    ensures SetsGrow(a, c, i)
  {
  }

  /** From automaton m and sets s to m' and s', nothing was lost, and the invariant holds. */
  ghost predicate Progress(h: set<Rule>, w: Word, i: nat, m: Machine, s: seq<seq<Item>>, m': Machine, s': seq<seq<Item>>) {
    SetsOk(h, m', w, s', i) && Extends(m, m') && SetsGrow(s, s', i)
  }

  lemma GrowMember(s: seq<seq<Item>>, s': seq<seq<Item>>, i: nat, j: nat, it: Item)
    requires SetsGrow(s, s', i) && j < |s| && it in s[j]
    ensures it in s'[j]
  {
  }

  /** What was reached stays reached while automaton and sets grow. */
  lemma ReachedGrows(rs: seq<Rule>, m: Machine, m': Machine, s: seq<seq<Item>>, s': seq<seq<Item>>, i: nat, e: Edge, j: nat, parent: nat)
    requires MachineOk(rs, m) && Extends(m, m') && SetsGrow(s, s', i) && j < |s|
    requires e.from in m.coreOf && e.sym.Some? && Reached(m, s, e, j, parent)
    ensures Reached(m', s', e, j, parent)
  {
    if e in m.edges {
      var k := m.edges[e].value;
      KernelTarget(rs, m, e.from, e.sym.value, k);
      GrowMember(s, s', i, j, Item(k, parent));
      var ne := Edge(k, None);
      assert ne in m.edges <==> ne in m'.edges;
      if ne in m.edges {
        GrowMember(s, s', i, j, Item(m.edges[ne].value, j));
      }
    }
  }

  lemma PlacedGrows(m: Machine, m': Machine, s: seq<seq<Item>>, s': seq<seq<Item>>, i: nat, j: nat, it: Item)
    requires CoresOk(m) && Extends(m, m') && SetsGrow(s, s', i) && j < |s|
    requires ItemPlaced(m, s, j, it)
    ensures ItemPlaced(m', s', j, it)
  {
    GrowMember(s, s', i, j, it);
    var ne := Edge(it.state, None);
    assert ne in m.edges <==> ne in m'.edges;
    if ne in m.edges {
      GrowMember(s, s', i, j, Item(m.edges[ne].value, j));
    }
  }

  lemma RuleCompletedGrows(rs: seq<Rule>, m: Machine, m': Machine, s: seq<seq<Item>>, s': seq<seq<Item>>, i: nat, j: nat, parent: nat, r: Rule)
    requires MachineOk(rs, m) && Extends(m, m') && SetsGrow(s, s', i) && parent < j < |s| && parent < i
    requires forall p :: p in s[parent] ==> p.state in m.coreOf
    requires RuleCompleted(m, s, j, parent, r)
    ensures RuleCompleted(m', s', j, parent, r)
  {
    forall p | p in s'[parent] ensures Reached(m', s', Edge(p.state, Some(r.lhs)), j, p.parent) {
      ReachedGrows(rs, m, m', s, s', i, Edge(p.state, Some(r.lhs)), j, p.parent);
    }
  }

  lemma ClosedGrows(rs: seq<Rule>, m: Machine, m': Machine, w: Word, s: seq<seq<Item>>, s': seq<seq<Item>>, i: nat, j: nat, it: Item)
    requires MachineOk(rs, m) && Extends(m, m') && SetsGrow(s, s', i) && j <= i
    requires it.state in m.coreOf && it.parent <= j
    requires forall a, p :: 0 <= a < j && p in s[a] ==> p.state in m.coreOf
    requires ItemClosed(m, w, s, j, it)
    ensures ItemClosed(m', w, s', j, it)
  {
    if j < |w| {
      ReachedGrows(rs, m, m', s, s', i, Edge(it.state, Some(w[j])), j + 1, it.parent);
    }
    if it.parent < j {
      assert m'.states[it.state] == m.states[it.state];
      forall r | r in m'.states[it.state].complete ensures RuleCompleted(m', s', j, it.parent, r) {
        RuleCompletedGrows(rs, m, m', s, s', i, j, it.parent, r);
      }
    }
  }

  lemma SoundExtends(h: set<Rule>, m: Machine, m': Machine, w: Word, it: Item, j: nat)
    requires ItemSound(h, m, w, it, j) && Extends(m, m') && CoresOk(m')
    ensures ItemSound(h, m', w, it, j)
  {
    assert m'.states[it.state] == m.states[it.state];
  }

  function AddItem(s: seq<Item>, it: Item): seq<Item> {
    if it in s then s else s + [it]
  }

  function AddTo(sets: seq<seq<Item>>, j: nat, it: Item): seq<seq<Item>>
    requires j < |sets|
  {
    sets[j := AddItem(sets[j], it)]
  }

  /** The sets after item (k, parent) and the nonkernel state of k went into set j. */
  function AddBoth(m: Machine, sets: seq<seq<Item>>, j: nat, k: nat, parent: nat): seq<seq<Item>>
    requires j < |sets| && (Edge(k, None) in m.edges ==> m.edges[Edge(k, None)].Some?)
  {
    var s := AddTo(sets, j, Item(k, parent));
    if Edge(k, None) in m.edges then AddTo(s, j, Item(m.edges[Edge(k, None)].value, j)) else s
  }

  lemma MachineGrows(h: set<Rule>, rs: seq<Rule>, m: Machine, m': Machine, w: Word, s: seq<seq<Item>>, i: nat)
    requires MachineOk(rs, m) && MachineOk(rs, m') && Extends(m, m') && SetsOk(h, m, w, s, i)
    ensures SetsOk(h, m', w, s, i)
  {
    forall j, it | 0 <= j < |s| && it in s[j] ensures ItemSound(h, m', w, it, j) && ItemPlaced(m', s, j, it) {
      assert ItemSound(h, m, w, it, j) && ItemPlaced(m, s, j, it);
      SoundExtends(h, m, m', w, it, j);
      PlacedGrows(m, m', s, s, i, j, it);
    }
    forall j, it | 0 <= j < i && it in s[j] ensures ItemClosed(m', w, s, j, it) {
      assert ItemSound(h, m, w, it, j) && ItemClosed(m, w, s, j, it);
      AllInCores(h, m, w, s, i);
      ClosedGrows(rs, m, m', w, s, s, i, j, it);
    }
  }

  lemma AllInCores(h: set<Rule>, m: Machine, w: Word, s: seq<seq<Item>>, i: nat)
    requires SetsOk(h, m, w, s, i)
    ensures forall a, p :: 0 <= a < |s| && p in s[a] ==> p.state in m.coreOf && p.parent <= a
  {
    forall a, p | 0 <= a < |s| && p in s[a] ensures p.state in m.coreOf && p.parent <= a {
      assert ItemSound(h, m, w, p, a);
    }
  }

  lemma NonkernelEdgeSource(rs: seq<Rule>, m: Machine, k: nat)
    requires MachineOk(rs, m) && Edge(k, None) in m.edges
    ensures k in m.coreOf && m.coreOf[k].Kernel?
  {
    assert EdgeOk(rs, m, Edge(k, None), m.edges[Edge(k, None)]);
  }

  lemma NonkernelEdge(rs: seq<Rule>, m: Machine, k: nat)
    requires MachineOk(rs, m) && Edge(k, None) in m.edges
    ensures var t := m.edges[Edge(k, None)];
            t.Some? && t.value in m.coreOf && t.value < |m.states| && m.coreOf[t.value].Predicted? && Edge(t.value, None) !in m.edges
  {
    assert EdgeOk(rs, m, Edge(k, None), m.edges[Edge(k, None)]);
    var nk := m.edges[Edge(k, None)].value;
    if Edge(nk, None) in m.edges {
      NonkernelEdgeSource(rs, m, nk);
    }
  }

  lemma AddToGrows(s: seq<seq<Item>>, i: nat, j: nat, it: Item)
    requires |s| == i + 2 && (j == i || j == i + 1)
    requires forall a :: 0 <= a < |s| ==> NoDuplicates(s[a])
    ensures SetsGrow(s, AddTo(s, j, it), i) && it in AddTo(s, j, it)[j]
    ensures forall a :: 0 <= a < |s| ==> NoDuplicates(AddTo(s, j, it)[a])
    ensures forall a, e :: 0 <= a < |s| && e in AddTo(s, j, it)[a] ==> e in s[a] || (a == j && e == it)
  {
  }

  lemma AddBothGrows(m: Machine, s: seq<seq<Item>>, i: nat, j: nat, k: nat, parent: nat)
    requires |s| == i + 2 && (j == i || j == i + 1)
    requires Edge(k, None) in m.edges ==> m.edges[Edge(k, None)].Some?
    requires forall a :: 0 <= a < |s| ==> NoDuplicates(s[a])
    ensures SetsGrow(s, AddBoth(m, s, j, k, parent), i) && Present(m, AddBoth(m, s, j, k, parent), j, k, parent)
    ensures forall a :: 0 <= a < |s| ==> NoDuplicates(AddBoth(m, s, j, k, parent)[a])
    ensures forall a, it :: 0 <= a < |s| && it in AddBoth(m, s, j, k, parent)[a] ==>
              it in s[a] || (a == j && (it == Item(k, parent) || (Edge(k, None) in m.edges && it == Item(m.edges[Edge(k, None)].value, j))))
  {
    hide NoDuplicates;
    var s1 := AddTo(s, j, Item(k, parent));
    AddToGrows(s, i, j, Item(k, parent));
    if Edge(k, None) in m.edges {
      AddToGrows(s1, i, j, Item(m.edges[Edge(k, None)].value, j));
    }
  }

  /** What the scanner has found after comparing the token with the terminals ts. */
  ghost predicate Matched(m: Machine, e: Edge, ts: seq<Symbol>, ks: seq<Option<nat>>) {
    && (ks == [] <==> e.sym.None? || e.sym.value !in ts)
    && (forall k :: k in ks ==> k.Some? && e in m.edges && m.edges[e] == k)
  }

  /** The comparison so far, which only a match lets change the automaton. */
  ghost predicate Comparing(m0: Machine, m: Machine, e: Edge, ts: seq<Symbol>, ks: seq<Option<nat>>) {
    Extends(m0, m) && Matched(m, e, ts, ks) && (if ks == [] then m == m0 else e in m0.edges)
  }

  lemma ComparingNext(m0: Machine, m: Machine, m': Machine, e: Edge, ts: seq<Symbol>, ks: seq<Option<nat>>, t: Symbol)
    requires Comparing(m0, m, e, ts, ks) && Extends(m, m')
    ensures e.sym != Some(t) && m' == m ==> Comparing(m0, m', e, ts + [t], ks)
    ensures e.sym == Some(t) && e in m0.edges && e in m'.edges && m'.edges[e].Some? ==>
              Comparing(m0, m', e, ts + [t], ks + [m'.edges[e]])
  {
    ExtendsTransitive(m0, m, m');
  }

  lemma MatchedTargets(rs: seq<Rule>, m: Machine, m': Machine, s: nat, st: Option<Symbol>, ks: seq<Option<nat>>)
    requires MachineOk(rs, m) && Extends(m, m') && s in m.coreOf && Matched(m', Edge(s, st), m.states[s].T, ks)
    ensures if st.Some? && st.value !in Nonterminals(rs) then Targets(m', Edge(s, st), ks) else ks == []
  {
    if st.Some? {
      TerminalEdge(rs, m, s, st.value);
      assert Edge(s, st) in m.edges <==> Edge(s, st) in m'.edges;
      assert ks != [] ==> ks[0] in ks;
    }
  }

  /** Adding a sound kernel item with its nonkernel state keeps the invariant. */
  lemma AddBothOk(h: set<Rule>, rs: seq<Rule>, m: Machine, w: Word, s: seq<seq<Item>>, i: nat, j: nat, k: nat, parent: nat)
    requires SoundContext(h, rs, m) && SetsOk(h, m, w, s, i) && (j == i || j == i + 1) && j <= |w|
    requires ItemSound(h, m, w, Item(k, parent), j)
    ensures Edge(k, None) in m.edges ==> m.edges[Edge(k, None)].Some?
    ensures var s' := AddBoth(m, s, j, k, parent);
            SetsOk(h, m, w, s', i) && SetsGrow(s, s', i) && Present(m, s', j, k, parent)
  {
    if Edge(k, None) in m.edges {
      NonkernelEdge(rs, m, k);
      NonkernelSound(h, rs, m, w, k, m.edges[Edge(k, None)].value, j);
    }
    AddBothGrows(m, s, i, j, k, parent);
    var s' := AddBoth(m, s, j, k, parent);
    forall a, it | 0 <= a < |s'| && it in s'[a] ensures ItemSound(h, m, w, it, a) && ItemPlaced(m, s', a, it) {
      if it in s[a] {
        assert ItemSound(h, m, w, it, a) && ItemPlaced(m, s, a, it);
        PlacedGrows(m, m, s, s', i, a, it);
      }
    }
    forall a, it | 0 <= a < i && it in s'[a] ensures ItemClosed(m, w, s', a, it) {
      assert ItemSound(h, m, w, it, a) && ItemClosed(m, w, s, a, it);
      AllInCores(h, m, w, s, i);
      ClosedGrows(rs, m, m, w, s, s', i, a, it);
    }
  }

  /** The targets the scanner gets for one edge: the edge's target, if there is the edge. */
  ghost predicate Targets(m: Machine, e: Edge, ks: seq<Option<nat>>) {
    && (forall k :: k in ks && k.Some? ==> e in m.edges && m.edges[e] == k)
    && (e in m.edges ==> m.edges[e].Some? && m.edges[e] in ks)
  }

  lemma TerminalEdge(rs: seq<Rule>, m: Machine, s: nat, x: Symbol)
    requires MachineOk(rs, m) && s in m.coreOf
    ensures x in m.states[s].T <==> x !in Nonterminals(rs) && Edge(s, Some(x)) in m.edges
  {
    assert StateOk(rs, m.states[s]) && EdgesFrom(rs, m, s, 0);
    if Edge(s, Some(x)) in m.edges {
      assert EdgeOk(rs, m, Edge(s, Some(x)), m.edges[Edge(s, Some(x))]);
    }
  }

  // ----- a set has boundedly many items

  function Items(n: nat, p: nat): set<Item> {
    set a: nat, b: nat | a < n && b < p :: Item(a, b)
  }

  function Row(a: nat, p: nat): set<Item> {
    set b: nat | b < p :: Item(a, b)
  }

  lemma {:induction false} RowSize(a: nat, p: nat)
    ensures |Row(a, p)| == p
  {
    if p > 0 {
      RowSize(a, p - 1);
      assert Row(a, p) == Row(a, p - 1) + {Item(a, p - 1)};
    } else {
      assert Row(a, p) == {};
    }
  }

  lemma {:induction false} ItemsSize(n: nat, p: nat)
    ensures |Items(n, p)| == n * p
  {
    if n > 0 {
      ItemsSize(n - 1, p);
      RowSize(n - 1, p);
      assert Items(n, p) == Items(n - 1, p) + Row(n - 1, p) && Items(n - 1, p) !! Row(n - 1, p);
      assert n * p == (n - 1) * p + p;
    } else {
      assert Items(n, p) == {};
    }
  }

  lemma {:induction false} DistinctSize(s: seq<Item>)
    requires NoDuplicates(s)
    ensures |set it | it in s| == |s|
  {
    if s == [] {
      assert (set it | it in s) == {};
    } else {
      var n := |s| - 1;
      DistinctSize(s[..n]);
      assert s == s[..n] + [s[n]];
      assert (set it | it in s) == (set it | it in s[..n]) + {s[n]};
    }
  }

  /** Finitely many states and parents, and no item twice: the completer's growing list is bounded. */
  lemma SetBounded(h: set<Rule>, rs: seq<Rule>, m: Machine, w: Word, s: seq<seq<Item>>, i: nat, j: nat)
    requires MachineOk(rs, m) && SetsOk(h, m, w, s, i) && j < |s|
    ensures |s[j]| <= MaxStates(rs) * (j + 1)
  {
    StatesBounded(rs, m);
    DistinctSize(s[j]);
    var es := set it | it in s[j];
    forall it | it in es ensures it in Items(MaxStates(rs), j + 1) {
      assert ItemSound(h, m, w, it, j);
    }
    SubsetSize(es, Items(MaxStates(rs), j + 1));
    ItemsSize(MaxStates(rs), j + 1);
  }

  // ----- progress inside the loops over items and rules

  ghost predicate ReachedFirst(m: Machine, s: seq<seq<Item>>, items: seq<Item>, n: nat, sym: Symbol, j: nat)
    requires n <= |items| && j < |s|
  {
    forall c :: 0 <= c < n ==> Reached(m, s, Edge(items[c].state, Some(sym)), j, items[c].parent)
  }

  lemma ReachedFirstGrows(rs: seq<Rule>, m: Machine, m': Machine, s: seq<seq<Item>>, s': seq<seq<Item>>, i: nat, items: seq<Item>, n: nat, sym: Symbol)
    requires MachineOk(rs, m) && Extends(m, m') && SetsGrow(s, s', i) && n <= |items|
    requires forall c :: 0 <= c < n ==> items[c].state in m.coreOf || Edge(items[c].state, Some(sym)) !in m'.edges
    requires ReachedFirst(m, s, items, n, sym, i)
    ensures ReachedFirst(m', s', items, n, sym, i)
  {
    forall c | 0 <= c < n ensures Reached(m', s', Edge(items[c].state, Some(sym)), i, items[c].parent) {
      if items[c].state in m.coreOf {
        ReachedGrows(rs, m, m', s, s', i, Edge(items[c].state, Some(sym)), i, items[c].parent);
      }
    }
  }

  ghost predicate CompletedFirst(m: Machine, s: seq<seq<Item>>, i: nat, parent: nat, rules: seq<Rule>, n: nat)
    requires n <= |rules| && parent < i < |s|
  {
    forall c :: 0 <= c < n ==> RuleCompleted(m, s, i, parent, rules[c])
  }

  lemma CompletedFirstGrows(h: set<Rule>, rs: seq<Rule>, m: Machine, m': Machine, w: Word, s: seq<seq<Item>>, s': seq<seq<Item>>,
                            i: nat, parent: nat, rules: seq<Rule>, n: nat)
    requires MachineOk(rs, m) && SetsOk(h, m, w, s, i) && Extends(m, m') && SetsGrow(s, s', i) && n <= |rules| && parent < i
    requires CompletedFirst(m, s, i, parent, rules, n)
    ensures CompletedFirst(m', s', i, parent, rules, n)
  {
    AllInCores(h, m, w, s, i);
    forall c | 0 <= c < n ensures RuleCompleted(m', s', i, parent, rules[c]) {
      RuleCompletedGrows(rs, m, m', s, s', i, i, parent, rules[c]);
    }
  }

  /** The first n items of set i are treated, or all of them if there are fewer. */
  ghost predicate ClosedFirst(m: Machine, w: Word, s: seq<seq<Item>>, i: nat, n: nat)
    requires i + 1 < |s|
  {
    forall a {:trigger s[i][a]} :: 0 <= a < n && a < |s[i]| ==> ItemClosed(m, w, s, i, s[i][a])
  }

  lemma ClosedFirstGrows(h: set<Rule>, rs: seq<Rule>, m: Machine, m': Machine, w: Word, s: seq<seq<Item>>, s': seq<seq<Item>>, i: nat, n: nat)
    requires MachineOk(rs, m) && SetsOk(h, m, w, s, i) && Extends(m, m') && SetsGrow(s, s', i) && n <= |s[i]|
    requires ClosedFirst(m, w, s, i, n)
    ensures ClosedFirst(m', w, s', i, n)
  {
    AllInCores(h, m, w, s, i);
    forall a {:trigger s'[i][a]} | 0 <= a < n && a < |s'[i]| ensures ItemClosed(m', w, s', i, s'[i][a]) {
      assert s'[i][a] == s[i][a];
      ClosedGrows(rs, m, m', w, s, s', i, i, s[i][a]);
    }
  }

  lemma ScannedGrows(h: set<Rule>, rs: seq<Rule>, m: Machine, m': Machine, w: Word, s: seq<seq<Item>>, s': seq<seq<Item>>, i: nat, it: Item)
    requires MachineOk(rs, m) && SetsOk(h, m, w, s, i) && Extends(m, m') && SetsGrow(s, s', i)
    requires it.state in m.coreOf && Scanned(m, w, s, i, it)
    ensures Scanned(m', w, s', i, it)
  {
    if i < |w| {
      ReachedGrows(rs, m, m', s, s', i, Edge(it.state, Some(w[i])), i + 1, it.parent);
    }
  }

  /** What the scanner adds is sound: a token derives itself. */
  lemma ScanSound(h: set<Rule>, rs: seq<Rule>, m: Machine, m': Machine, w: Word, it: Item, i: nat, k: nat)
    requires SoundContext(h, rs, m') && ItemSound(h, m, w, it, i) && Extends(m, m')
    requires i < |w| && w[i].Sym?
    requires Edge(it.state, Some(w[i])) in m'.edges && m'.edges[Edge(it.state, Some(w[i]))] == Some(k)
    ensures ItemSound(h, m', w, Item(k, it.parent), i + 1)
  {
    SoundExtends(h, m, m', w, it, i);
    DerivesSelf(h, w[i]);
    assert w[i..i + 1] == [w[i]];
    EdgeSound(h, rs, m', w, it, i, w[i], k, i + 1);
  }

  // ----- from the first set to the verdict

  /** State 1 is the kernel state after the marker that opens the start rule, and
      state 2 is its nonkernel state. */
  ghost predicate StartOk(rs: seq<Rule>, m: Machine, start: Symbol) {
    && start.Sym? && 1 in m.coreOf && 1 < |m.states|
    && Rule(START, [BOF, start]) in rs
    && (forall r :: r in rs && r.lhs == START ==> UnmarkRule(r) == Rule(START, [BOF, start]))
    && Dotted(Rule(START, [BOF, start]), 0) in m.states[0].items
    && m.coreOf[1] == Kernel(multiset(Advance(m.states[0].items, BOF)))
    && (Edge(1, None) in m.edges ==> m.edges[Edge(1, None)] == Some(2))
  }

  lemma StartExtends(rs: seq<Rule>, m: Machine, m': Machine, start: Symbol)
    requires StartOk(rs, m, start) && Extends(m, m') && CoresOk(m) && CoresOk(m')
    ensures StartOk(rs, m', start)
  {
    assert m'.states[0] == m.states[0];
    assert Edge(1, None) in m.edges <==> Edge(1, None) in m'.edges;
  }

  lemma FirstItems(rs: seq<Rule>, m: Machine, start: Symbol, e: Dotted)
    requires MachineOk(rs, m) && StartOk(rs, m, start)
    ensures e in m.states[1].items <==> exists d :: d in m.states[0].items && NextIs(d, BOF) && Step(d) == e
  {
    assert CoreOk(rs, m.states[1], m.coreOf[1]);
    AdvanceMember(m.states[0].items, BOF, e);
    assert e in m.states[1].items <==> e in multiset(m.states[1].items);
    assert e in Advance(m.states[0].items, BOF) <==> e in multiset(Advance(m.states[0].items, BOF));
  }

  lemma FirstItemSound(h: set<Rule>, rs: seq<Rule>, m: Machine, w: Word, start: Symbol)
    requires SoundContext(h, rs, m) && StartOk(rs, m, start)
    ensures ItemSound(h, m, w, Item(1, 0), 0)
  {
    assert w[0..0] == [];
    forall e | e in m.states[1].items ensures DotDerives(h, e, w[0..0]) {
      FirstItems(rs, m, start, e);
      var d :| d in m.states[0].items && NextIs(d, BOF) && Step(d) == e;
      MarkedRunDerivesEmpty(h, d.rule, 1, e.pos);
    }
  }

  /** Set i is finished: go on to set i + 1. */
  lemma NextSet(h: set<Rule>, m: Machine, w: Word, s: seq<seq<Item>>, i: nat)
    requires SetsOk(h, m, w, s, i) && i < |w| && ClosedFirst(m, w, s, i, |s[i]|)
    ensures SetsOk(h, m, w, s + [[]], i + 1)
  {
    var s' := s + [[]];
    forall j, it | 0 <= j < |s'| && it in s'[j] ensures ItemSound(h, m, w, it, j) && ItemPlaced(m, s', j, it) {
      assert ItemSound(h, m, w, it, j) && ItemPlaced(m, s, j, it);
    }
    forall j, it | 0 <= j < i + 1 && it in s'[j] ensures ItemClosed(m, w, s', j, it) {
      if j == i {
        var a :| 0 <= a < |s[i]| && s[i][a] == it;
      }
      assert ItemSound(h, m, w, it, j) && ItemClosed(m, w, s, j, it);
      ClosedPads(m, w, s, s', j, it);
    }
  }

  lemma ClosedPads(m: Machine, w: Word, s: seq<seq<Item>>, s': seq<seq<Item>>, j: nat, it: Item)
    requires s <= s' && j + 1 < |s| && ItemClosed(m, w, s, j, it)
    ensures ItemClosed(m, w, s', j, it)
  {
    if it.parent < j && it.state < |m.states| {
      forall r | r in m.states[it.state].complete ensures RuleCompleted(m, s', j, it.parent, r) {
        assert RuleCompleted(m, s, j, it.parent, r);
      }
    }
  }

  ghost predicate YieldsFollowMarks(h: set<Rule>) {
    forall t :: ValidTree(h, t) ==> (Root(t).Eps? <==> Yield(t) == [])
  }

  /** Completeness from the first item. */
  lemma StartIsFollowed(h: set<Rule>, rs: seq<Rule>, m: Machine, w: Word, s: seq<seq<Item>>, start: Symbol)
    requires Finished(h, rs, m, w, s) && StartOk(rs, m, start) && Item(1, 0) in s[0]
    requires Derives(h, start, w)
    ensures var e := Edge(1, Some(start)); e in m.edges && m.edges[e].Some? && Item(m.edges[e].value, 0) in s[|w|]
  {
    var t :| TreeFor(h, start, w, t);
    var d := Dotted(Rule(START, [BOF, start]), 0);
    assert NextIs(d, BOF) && Step(d) == Dotted(d.rule, 1);
    FirstItems(rs, m, start, Step(d));
    assert w[0..|w|] == w;
    TreeIsFollowed(h, rs, m, w, s, Item(1, 0), 0, Step(d), |w|, t);
  }

  /** The recogniser's verdict on finished sets is right. */
  lemma VerdictIsRight(h: set<Rule>, rs: seq<Rule>, m: Machine, w: Word, s: seq<seq<Item>>, start: Symbol)
    requires SoundContext(h, rs, m) && YieldsFollowMarks(h) && StartOk(rs, m, start)
    requires SetsOk(h, m, w, s, |w|) && ClosedFirst(m, w, s, |w|, |s[|w|]|) && Item(1, 0) in s[0]
    requires Edge(1, Some(start)) in m.edges && m.edges[Edge(1, Some(start))].Some?
    ensures Item(m.edges[Edge(1, Some(start))].value, 0) in s[|w|] <==> Derives(h, start, w)
  {
    var k := m.edges[Edge(1, Some(start))].value;
    assert AllClosed(m, w, s) by {
      forall j, it | 0 <= j <= |w| && it in s[j] ensures ItemClosed(m, w, s, j, it) {
        if j == |w| {
          var a :| 0 <= a < |s[j]| && s[j][a] == it;
        }
      }
    }
    if Derives(h, start, w) {
      StartIsFollowed(h, rs, m, w, s, start);
    }
    if Item(k, 0) in s[|w|] {
      var d := Dotted(Rule(START, [BOF, start]), 0);
      FirstItems(rs, m, start, Step(d));
      EdgeTarget(rs, m, 1, start, k, Step(Step(d)));
      assert ItemSound(h, m, w, Item(k, 0), |w|);
      assert w[0..|w|] == w && Body(Step(Step(d))) == [start];
      SingleDerives(h, start, w);
    }
  }

  /** When a set comes out empty before the end, the word is not derivable. */
  lemma EmptySetRejects(h: set<Rule>, rs: seq<Rule>, m: Machine, w: Word, s: seq<seq<Item>>, i: nat, start: Symbol)
    requires SoundContext(h, rs, m) && YieldsFollowMarks(h) && StartOk(rs, m, start)
    requires SetsOk(h, m, w, s, i) && s[i] == [] && s[i + 1] == [] && Item(1, 0) in s[0] && i < |w|
    ensures !Derives(h, start, w)
  {
    var pad := seq(|w| - i, a => []);
    var s' := s + pad;
    assert AllClosed(m, w, s') by {
      forall j, it | 0 <= j <= |w| && it in s'[j] ensures ItemPlaced(m, s', j, it) && ItemClosed(m, w, s', j, it) {
        assert j < i;
        assert ItemPlaced(m, s, j, it) && ItemClosed(m, w, s, j, it);
        ClosedPads(m, w, s, s', j, it);
      }
    }
    if Derives(h, start, w) {
      StartIsFollowed(h, rs, m, w, s', start);
    }
  }
}
