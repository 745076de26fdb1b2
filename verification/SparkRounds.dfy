/** The parser's state while it runs over the tokens, including the item it always puts
    into the first set for a state 2 that may not exist. */
module ParserRounds {
  import opened Common
  import opened Grammar
  import opened EpsilonRewrite
  import opened RewriteFacts
  import opened EarleyMachine
  import opened EarleySets

  /** The sets parse starts from.  The item for state 2 is there even when the
      automaton has no nonkernel state for state 1. */
  const FIRST: seq<Item> := [Item(1, 0), Item(2, 0)]

  /** Nothing is predicted from state 1. */
  predicate Bare(m: Machine) { Edge(1, None) !in m.edges }

  /** The sets without the item that parse puts into the first set for a state 2 that
      nothing leads to. */
  function Live(m: Machine, sets: seq<seq<Item>>): seq<seq<Item>> {
    if Bare(m) && sets != [] then sets[0 := [Item(1, 0)]] else sets
  }

  /** The automaton of a grammar whose start symbol predicts nothing: state 2 is missing,
      or was reached from state 1 over the start symbol, and no edge leaves it. */
  ghost predicate Stump(m: Machine, start: Symbol) {
    var e := Edge(1, Some(start));
    m.edges.Keys == {e} && ((|m.states| == 2 && m.edges[e] == None) || (|m.states| == 3 && m.edges[e] == Some(2)))
  }

  ghost predicate StumpOk(m: Machine, start: Symbol) {
    Bare(m) ==> Stump(m, start)
  }

  lemma FirstSets(h: set<Rule>, rs: seq<Rule>, m: Machine, w: Word, start: Symbol)
    requires SoundContext(h, rs, m) && StartOk(rs, m, start)
    ensures SetsOk(h, m, w, Live(m, [FIRST, []]), 0)
  {
    var s := Live(m, [FIRST, []]);
    FirstItemSound(h, rs, m, w, start);
    assert CoreOk(rs, m.states[1], m.coreOf[1]);
    if !Bare(m) {
      NonkernelEdge(rs, m, 1);
      NonkernelSound(h, rs, m, w, 1, 2, 0);
      assert ItemPlaced(m, s, 0, Item(2, 0));
    }
    assert ItemPlaced(m, s, 0, Item(1, 0));
    assert forall j, it :: 0 <= j < |s| && it in s[j] ==> j == 0 && (it == Item(1, 0) || (it == Item(2, 0) && !Bare(m)));
  }

  /** The only item that is not live has no edge to follow. */
  lemma IdleItem(m: Machine, start: Symbol, sets: seq<seq<Item>>, j: nat, it: Item)
    requires StumpOk(m, start) && j < |sets| && sets[0] == FIRST && it in sets[j] && it !in Live(m, sets)[j]
    ensures Bare(m) && j == 0 && it == Item(2, 0) && forall x :: Edge(2, x) !in m.edges
  {
  }

  /** Only the start rule is in state 1, with the start symbol next or marked behind the dot. */
  lemma FirstNext(rs: seq<Rule>, m: Machine, start: Symbol, d: Dotted)
    requires MachineOk(rs, m) && StartOk(rs, m, start)
    requires d in m.states[1].items
    ensures d.rule.lhs == START && |d.rule.rhs| == 2 && 1 <= d.pos <= 2
    ensures d.pos == 1 ==> d.rule.rhs[1] == start
  {
    FirstItems(rs, m, start, d);
    var d0 :| d0 in m.states[0].items && NextIs(d0, BOF) && Step(d0) == d;
    assert UnmarkRule(d0.rule).rhs[1] == start;
  }

  /** The state reached from state 1 over the start symbol is a new one. */
  lemma StartTargetIsNew(rs: seq<Rule>, m: Machine, start: Symbol)
    requires MachineOk(rs, m) && StartOk(rs, m, start)
    ensures m.coreOf[1] != Kernel(multiset(Advance(m.states[1].items, start)))
  {
    var d := Dotted(Rule(START, [BOF, start]), 1);
    FirstItems(rs, m, start, d);
    assert NextIs(Dotted(d.rule, 0), BOF) && Step(Dotted(d.rule, 0)) == d;
    assert CoreOk(rs, m.states[1], m.coreOf[1]);
    assert d in multiset(m.states[1].items);
    if d in Advance(m.states[1].items, start) {
      AdvanceMember(m.states[1].items, start, d);
      FirstItems(rs, m, start, Dotted(d.rule, 0));
    }
    assert d in multiset(Advance(m.states[1].items, start)) <==> d in Advance(m.states[1].items, start);
  }

  lemma StartEdge(rs: seq<Rule>, m: Machine, start: Symbol)
    requires MachineOk(rs, m) && StartOk(rs, m, start)
    ensures Edge(1, Some(start)) in m.edges
  {
    var d := Dotted(Rule(START, [BOF, start]), 0);
    assert NextIs(d, BOF) && Step(d) == Dotted(d.rule, 1);
    FirstItems(rs, m, start, Step(d));
    assert NextIs(Step(d), start);
    assert EdgesFrom(rs, m, 1, 0);
  }

  lemma FirstStump(rs: seq<Rule>, m: Machine, start: Symbol)
    requires MachineOk(rs, m) && StartOk(rs, m, start)
    requires Bare(m) ==> |m.states| == 2
    ensures StumpOk(m, start)
  {
    hide StatesOk, Grouped, StartOk;
    StartEdge(rs, m, start);
    var first := Edge(1, Some(start));
    if Bare(m) {
      forall e | e in m.edges ensures e == first {
        assert EdgeOk(rs, m, e, m.edges[e]);
        if e.sym.Some? {
          var d :| d in m.states[1].items && NextIs(d, e.sym.value);
          FirstNext(rs, m, start, d);
        }
      }
      assert EdgeOk(rs, m, first, m.edges[first]);
      StartTargetIsNew(rs, m, start);
    }
  }

  /** A state whose items are all complete has no nonkernel state. */
  lemma NothingPredictedNoEdge(rs: seq<Rule>, m: Machine, k: nat)
    requires MachineOk(rs, m) && k in m.coreOf && forall d :: d in m.states[k].items ==> d.pos >= |d.rule.rhs|
    ensures Edge(k, None) !in m.edges
  {
    var e := Edge(k, None);
    assert e in m.edges ==> EdgeOk(rs, m, e, m.edges[e]);
  }

  /** Resolving the only edge there is builds state 2, from which no edge leaves. */
  lemma StumpResolved(rs: seq<Rule>, m: Machine, m': Machine, start: Symbol)
    requires MachineOk(rs, m) && MachineOk(rs, m') && StartOk(rs, m, start)
    requires Bare(m) && Stump(m, start) && |m.states| == 2 && Extends(m, m')
    requires m'.edges.Keys >= m.edges.Keys && m'.edges[Edge(1, Some(start))] == Some(2)
    requires Edge(2, None) !in m'.edges ==> |m'.states| == 3
    ensures Stump(m', start)
  {
    var first := Edge(1, Some(start));
    assert EdgeOk(rs, m', first, Some(2));
    assert CoreOk(rs, m'.states[2], m'.coreOf[2]);
    forall d | d in m'.states[2].items ensures d.pos >= |d.rule.rhs| {
      EdgeTarget(rs, m', 1, start, 2, d);
      var d0 :| d0 in m'.states[1].items && NextIs(d0, start) && Step(d0) == d;
      FirstNext(rs, m, start, d0);
    }
    NothingPredictedNoEdge(rs, m', 2);
    forall e | e in m'.edges ensures e == first {
      assert EdgeOk(rs, m', e, m'.edges[e]);
      if e.from < 2 { assert e in m.edges; }
    }
  }

  lemma BareStays(rs: seq<Rule>, m: Machine, m': Machine, start: Symbol)
    requires StartOk(rs, m, start) && Extends(m, m')
    ensures Bare(m) <==> Bare(m')
  {
  }

  /** The only edge there can be to resolve is the one on the start symbol. */
  lemma StumpTarget(rs: seq<Rule>, m: Machine, e: Edge, start: Symbol)
    requires MachineOk(rs, m) && StartOk(rs, m, start) && StumpOk(m, start) && Bare(m)
    requires e in m.edges && m.edges[e] == None
    ensures e == Edge(1, Some(start)) && |m.states| == 2
    ensures Kernel(multiset(Advance(m.states[1].items, start))) !in m.cores
  {
    hide StatesOk, EdgesOk;
    StartTargetIsNew(rs, m, start);
  }

  lemma StumpStep(rs: seq<Rule>, m: Machine, m': Machine, e: Edge, k: nat, start: Symbol)
    requires MachineOk(rs, m) && MachineOk(rs, m') && StartOk(rs, m, start) && StumpOk(m, start)
    requires Extends(m, m') && m'.edges.Keys >= m.edges.Keys && e.sym.Some?
    requires e in m.edges && m.edges[e] == None && m'.edges[e] == Some(k) && e.from < |m.states|
    requires Kernel(multiset(Advance(m.states[e.from].items, e.sym.value))) !in m.cores ==>
               k == |m.states| && (Edge(k, None) !in m'.edges ==> |m'.states| == k + 1)
    ensures StumpOk(m', start)
  {
    hide MachineOk, StartOk, Extends;
    if Bare(m) {
      StumpTarget(rs, m, e, start);
      BareStays(rs, m, m', start);
      StumpResolved(rs, m, m', start);
    }
  }

  lemma StatesCount(rs: seq<Rule>, m: Machine, start: Symbol)
    requires MachineOk(rs, m) && StartOk(rs, m, start) && StumpOk(m, start)
    ensures |m.states| >= 2 && (Bare(m) || |m.states| > 2)
  {
    if !Bare(m) { NonkernelEdge(rs, m, 1); }
  }

  lemma BareStart(rs: seq<Rule>, m: Machine, start: Symbol)
    requires MachineOk(rs, m) && StartOk(rs, m, start)
    ensures start in Nonterminals(rs) ==> !Bare(m)
  {
    var d := Dotted(Rule(START, [BOF, start]), 0);
    assert NextIs(d, BOF) && Step(d) == Dotted(d.rule, 1);
    FirstItems(rs, m, start, Step(d));
    assert CoreOk(rs, m.states[1], m.coreOf[1]);
    assert NextIs(Step(d), start) && HasNext(m.states[1].items, start);
    assert EdgesFrom(rs, m, 1, 0);
  }

  // ----- the first set when the start symbol predicts nothing

  predicate Untyped(token: Option<Token>) { token.None? || !token.value.typed }

  predicate BlindTo(start: Symbol, token: Option<Token>) {
    token.None? || (!token.value.typed && token.value.sym != start)
  }

  /** What has happened to the automaton of a grammar whose start symbol predicts nothing
      when n items of the first set are treated; it was m0 before. */
  ghost predicate BareRound(m0: Machine, m: Machine, start: Symbol, token: Option<Token>, i: nat, n: nat) {
    i == 0 && Bare(m0) ==>
      && (n == 0 ==> m == m0)
      && (n == 1 ==> (|m.states| == 2 <==> |m0.states| == 2 && (token.None? || token.value.sym != start)))
      && (n >= 2 ==> !(|m0.states| == 2 && BlindTo(start, token)))
  }

  // ----- one step of the parser

  /** The rules as rewritten, the automaton and the Earley sets. */
  datatype Snapshot = Snapshot(rs: seq<Rule>, newrules: map<Symbol, seq<Rule>>, m: Machine, start: Symbol, sets: seq<seq<Item>>)

  /** Rules and automaton go together. */
  ghost predicate Sane(rs: seq<Rule>, newrules: map<Symbol, seq<Rule>>, m: Machine, start: Symbol) {
    && Grouped(rs, newrules) && START in Nonterminals(rs) && YieldsFollowMarks(Elements(rs))
    && SoundContext(Elements(rs), rs, m) && StartOk(rs, m, start) && StumpOk(m, start)
  }

  function LiveSets(s: Snapshot): seq<seq<Item>> { Live(s.m, s.sets) }

  /** The invariant while set i is treated. */
  ghost predicate Fit(s: Snapshot, w: Word, i: nat) {
    && Sane(s.rs, s.newrules, s.m, s.start)
    && s.sets != [] && s.sets[0] == FIRST && SetsOk(Elements(s.rs), s.m, w, LiveSets(s), i)
  }

  /** From s to s' nothing was lost, and the invariant holds. */
  ghost predicate Round(s: Snapshot, s': Snapshot, w: Word, i: nat) {
    && s' == s.(m := s'.m, sets := s'.sets) && Fit(s', w, i)
    && Extends(s.m, s'.m) && SetsGrow(LiveSets(s), LiveSets(s'), i)
  }

  lemma RoundTransitive(s: Snapshot, s': Snapshot, s'': Snapshot, w: Word, i: nat)
    requires Round(s, s', w, i) && Round(s', s'', w, i)
    ensures Round(s, s'', w, i)
  {
    ExtendsTransitive(s.m, s'.m, s''.m);
    SetsGrowTransitive(LiveSets(s), LiveSets(s'), LiveSets(s''), i);
  }

  /** The automaton grows while the sets stay as they are. */
  lemma RoundStarts(s: Snapshot, m': Machine, w: Word, i: nat)
    requires Fit(s, w, i) && Sane(s.rs, s.newrules, m', s.start) && Extends(s.m, m')
    ensures Round(s, s.(m := m'), w, i) && Live(m', s.sets) == LiveSets(s)
  {
    assert Live(m', s.sets) == LiveSets(s);
    MachineGrows(Elements(s.rs), s.rs, s.m, m', w, LiveSets(s), i);
  }

  /** Adding a sound kernel item and the nonkernel item that goes with it. */
  lemma AddRound(s: Snapshot, w: Word, i: nat, j: nat, k: nat, parent: nat)
    requires Fit(s, w, i) && (j == i || j == i + 1) && 0 < j <= |w|
    requires ItemSound(Elements(s.rs), s.m, w, Item(k, parent), j)
    ensures Edge(k, None) in s.m.edges ==> s.m.edges[Edge(k, None)].Some?
    ensures var s' := s.(sets := AddBoth(s.m, s.sets, j, k, parent));
            Round(s, s', w, i) && Present(s.m, LiveSets(s'), j, k, parent)
  {
    hide MachineOk, Grouped, MarksDeriveEmpty, YieldsFollowMarks;
    AddBothOk(Elements(s.rs), s.rs, s.m, w, LiveSets(s), i, j, k, parent);
    assert Live(s.m, AddBoth(s.m, s.sets, j, k, parent)) == AddBoth(s.m, LiveSets(s), j, k, parent);
  }

  /** What following an edge is about to add is sound. */
  lemma FollowSound(s: Snapshot, m': Machine, w: Word, i: nat, p: Item, a: nat, sym: Symbol, k: nat, j: nat)
    requires Fit(s, w, i) && Sane(s.rs, s.newrules, m', s.start) && Extends(s.m, m')
    requires a < |s.sets| && p in s.sets[a] && a <= j <= |w|
    requires Edge(p.state, Some(sym)) in s.m.edges && Derives(Elements(s.rs), sym, w[a..j])
    requires Edge(p.state, Some(sym)) in m'.edges && m'.edges[Edge(p.state, Some(sym))] == Some(k)
    ensures ItemSound(Elements(s.rs), m', w, Item(k, p.parent), j)
  {
    var h := Elements(s.rs);
    if p !in LiveSets(s)[a] { IdleItem(s.m, s.start, s.sets, a, p); }
    assert ItemSound(h, s.m, w, p, a);
    SoundExtends(h, s.m, m', w, p, a);
    EdgeSound(h, s.rs, m', w, p, a, sym, k, j);
  }

  /** The item of set i that the completer treats is sound, and so is what it completes. */
  lemma CompletionSound(s: Snapshot, w: Word, i: nat, item: Item)
    requires Fit(s, w, i) && item in LiveSets(s)[i]
    ensures |s.sets| == i + 2 && item.state < |s.m.states| && item.parent <= i <= |w|
    ensures forall r :: r in s.m.states[item.state].complete && r.lhs != START ==> Derives(Elements(s.rs), r.lhs, w[item.parent..i])
  {
    assert ItemSound(Elements(s.rs), s.m, w, item, i);
    forall r | r in s.m.states[item.state].complete && r.lhs != START ensures Derives(Elements(s.rs), r.lhs, w[item.parent..i]) {
      CompletedDerives(Elements(s.rs), s.rs, s.m, w, item, i, r);
    }
  }

  /** No state has the start symbol itself next. */
  lemma NothingOnStart(s: Snapshot, w: Word, i: nat, state: nat)
    requires Fit(s, w, i)
    ensures Edge(state, Some(START)) !in s.m.edges
  {
    NoEdgeOnStart(Elements(s.rs), s.rs, s.m, state);
  }

  lemma FollowedNext(s: Snapshot, s': Snapshot, w: Word, i: nat, pitems: seq<Item>, b: nat, parent: nat, sym: Symbol)
    requires Fit(s, w, i) && Round(s, s', w, i) && parent < i && b < |pitems| && s.sets[parent] == pitems
    requires ReachedFirst(s.m, LiveSets(s), pitems, b, sym, i)
    requires Reached(s'.m, LiveSets(s'), Edge(pitems[b].state, Some(sym)), i, pitems[b].parent)
    ensures s'.sets[parent] == pitems && ReachedFirst(s'.m, LiveSets(s'), pitems, b + 1, sym, i)
  {
    hide MachineOk, Grouped, MarksDeriveEmpty, YieldsFollowMarks;
    assert LiveSets(s)[parent] == LiveSets(s')[parent];
    forall c | 0 <= c < b ensures pitems[c].state in s.m.coreOf || Edge(pitems[c].state, Some(sym)) !in s'.m.edges {
      if pitems[c] in LiveSets(s)[parent] {
        assert ItemSound(Elements(s.rs), s.m, w, pitems[c], parent);
      } else {
        IdleItem(s.m, s.start, s.sets, parent, pitems[c]);
      }
    }
    ReachedFirstGrows(s.rs, s.m, s'.m, LiveSets(s), LiveSets(s'), i, pitems, b, sym);
  }

  /** Every live item of the parent set is among those followed. */
  lemma RuleDone(s: Snapshot, w: Word, i: nat, parent: nat, r: Rule)
    requires Fit(s, w, i) && parent < i
    requires ReachedFirst(s.m, LiveSets(s), s.sets[parent], |s.sets[parent]|, r.lhs, i)
    ensures RuleCompleted(s.m, LiveSets(s), i, parent, r)
  {
    forall p | p in LiveSets(s)[parent] ensures Reached(s.m, LiveSets(s), Edge(p.state, Some(r.lhs)), i, p.parent) {
      var c :| 0 <= c < |s.sets[parent]| && s.sets[parent][c] == p;
    }
  }

  lemma CompletedNext(s: Snapshot, s': Snapshot, w: Word, i: nat, item: Item, rules: seq<Rule>, n: nat)
    requires Fit(s, w, i) && Round(s, s', w, i) && n < |rules|
    requires item in LiveSets(s)[i] && item.parent < i && CompletedFirst(s.m, LiveSets(s), i, item.parent, rules, n)
    requires RuleCompleted(s'.m, LiveSets(s'), i, item.parent, rules[n])
    ensures item in LiveSets(s')[i] && CompletedFirst(s'.m, LiveSets(s'), i, item.parent, rules, n + 1)
  {
    CompletedFirstGrows(Elements(s.rs), s.rs, s.m, s'.m, w, LiveSets(s), LiveSets(s'), i, item.parent, rules, n);
  }

  /** An item whose state does not exist is the one parse puts into the first set. */
  lemma ItemState(s: Snapshot, w: Word, i: nat, j: nat, it: Item)
    requires Fit(s, w, i) && j <= i && it in s.sets[j]
    ensures i + 1 < |s.sets| && it.state >= 1 && (it in LiveSets(s)[j] ==> it.state in s.m.coreOf && it.parent <= j)
    ensures it !in LiveSets(s)[j] || it.state >= |s.m.states| ==> Bare(s.m) && j == 0 && it == Item(2, 0)
  {
    if it in LiveSets(s)[j] {
      assert ItemSound(Elements(s.rs), s.m, w, it, j);
    } else {
      IdleItem(s.m, s.start, s.sets, j, it);
    }
  }

  /** What the scanner got for a token, in terms of the word. */
  ghost predicate Looked(s: Snapshot, m': Machine, token: Option<Token>, state: nat, ks: seq<Option<nat>>) {
    if token.Some? && (token.value.typed || token.value.sym !in Nonterminals(s.rs))
    then Targets(m', Edge(state, Some(token.value.sym)), ks) else ks == []
  }

  /** What the scanner is about to add is sound. */
  lemma ScanStarts(s: Snapshot, m': Machine, w: Word, i: nat, it: Item, token: Option<Token>, ks: seq<Option<nat>>)
    requires Fit(s, w, i) && Sane(s.rs, s.newrules, m', s.start) && Extends(s.m, m')
    requires it in s.sets[i] && TokenAt(s.rs, token, w, i) && Looked(s, m', token, it.state, ks)
    ensures Round(s, s.(m := m'), w, i)
    ensures if i < |w| then Targets(m', Edge(it.state, Some(w[i])), ks) else ks == []
    ensures forall k :: k in ks && k.Some? ==> ItemSound(Elements(s.rs), m', w, Item(k.value, it.parent), i + 1)
  {
    hide MachineOk, Grouped, MarksDeriveEmpty, YieldsFollowMarks;
    RoundStarts(s, m', w, i);
    NoEdgeOnStart(Elements(s.rs), s.rs, m', it.state);
    forall k | k in ks && k.Some? ensures ItemSound(Elements(s.rs), m', w, Item(k.value, it.parent), i + 1) {
      if it in LiveSets(s)[i] {
        assert ItemSound(Elements(s.rs), s.m, w, it, i);
        ScanSound(Elements(s.rs), s.rs, s.m, m', w, it, i, k.value);
      } else {
        IdleItem(s.m, s.start, s.sets, i, it);
      }
    }
  }

  /** Scanned and then completed. */
  lemma ItemTreated(s0: Snapshot, s: Snapshot, s': Snapshot, w: Word, i: nat, it: Item)
    requires Round(s0, s, w, i) && Round(s, s', w, i) && it in LiveSets(s0)[i]
    requires Scanned(s.m, w, LiveSets(s), i, it) && Completed(s'.m, LiveSets(s'), i, it)
    ensures Round(s0, s', w, i) && ItemClosed(s'.m, w, LiveSets(s'), i, it)
  {
    RoundTransitive(s0, s, s', w, i);
    GrowMember(LiveSets(s0), LiveSets(s), i, i, it);
    assert ItemSound(Elements(s.rs), s.m, w, it, i);
    ScannedGrows(Elements(s.rs), s.rs, s.m, s'.m, w, LiveSets(s), LiveSets(s'), i, it);
  }

  lemma LiveBounded(s: Snapshot, w: Word, i: nat)
    requires Fit(s, w, i)
    ensures |s.sets| == i + 2 && |s.sets[i]| <= MaxStates(s.rs) * (i + 1) + 1
  {
    SetBounded(Elements(s.rs), s.rs, s.m, w, LiveSets(s), i, i);
  }

  /** The first n items of set i are treated, with what that means for a bare automaton,
      which was m0 when the set was begun. */
  ghost predicate Treated(s: Snapshot, m0: Machine, w: Word, i: nat, token: Option<Token>, n: nat)
    requires i + 1 < |s.sets|
  {
    && n <= |s.sets[i]| && Extends(m0, s.m) && 1 < |m0.states|
    && ClosedFirst(s.m, w, LiveSets(s), i, n) && BareRound(m0, s.m, s.start, token, i, n)
  }

  lemma TreatedStarts(s: Snapshot, w: Word, i: nat, token: Option<Token>)
    requires Fit(s, w, i)
    ensures |s.sets| == i + 2 && Treated(s, s.m, w, i, token, 0)
  {
  }

  /** The set's treated part grows by the item at idx, which is the idle one if it is not live. */
  lemma ClosedNext(s: Snapshot, s': Snapshot, w: Word, i: nat, idx: nat)
    requires Fit(s, w, i) && Round(s, s', w, i) && idx < |s.sets[i]|
    requires ClosedFirst(s.m, w, LiveSets(s), i, idx)
    requires s.sets[i][idx] in LiveSets(s)[i] ==> ItemClosed(s'.m, w, LiveSets(s'), i, s.sets[i][idx])
    ensures idx < |s'.sets[i]| && ClosedFirst(s'.m, w, LiveSets(s'), i, idx + 1)
  {
    hide MachineOk, Grouped, MarksDeriveEmpty, YieldsFollowMarks;
    var t, t' := LiveSets(s), LiveSets(s');
    ClosedFirstGrows(Elements(s.rs), s.rs, s.m, s'.m, w, t, t', i, idx);
    if idx < |t'[i]| {
      SameAt(s, s', w, i, idx);
      assert ItemClosed(s'.m, w, t', i, t'[i][idx]);
    }
  }

  lemma SameAt(s: Snapshot, s': Snapshot, w: Word, i: nat, idx: nat)
    requires Fit(s, w, i) && Round(s, s', w, i) && idx < |s.sets[i]|
    ensures idx < |s'.sets[i]|
    ensures idx < |LiveSets(s')[i]| ==> idx < |LiveSets(s)[i]| && LiveSets(s')[i][idx] == LiveSets(s)[i][idx] == s.sets[i][idx]
  {
    assert LiveSets(s)[i] <= LiveSets(s')[i];
  }

  lemma TreatedNext(s: Snapshot, s': Snapshot, m0: Machine, w: Word, i: nat, token: Option<Token>, idx: nat)
    requires Fit(s, w, i) && Round(s, s', w, i) && idx < |s.sets[i]| && TokenAt(s.rs, token, w, i)
    requires Treated(s, m0, w, i, token, idx)
    requires !(Untyped(token) && s.sets[i][idx].state >= |s.m.states|)
    requires s.sets[i][idx] in LiveSets(s)[i] ==> ItemClosed(s'.m, w, LiveSets(s'), i, s.sets[i][idx])
    requires s.sets[i][idx].parent == i && (token.None? || Edge(s.sets[i][idx].state, Some(token.value.sym)) !in s.m.edges) ==> s'.m == s.m
    ensures Treated(s', m0, w, i, token, idx + 1)
  {
    hide Sane, SetsOk;
    ClosedNext(s, s', w, i, idx);
    ExtendsTransitive(m0, s.m, s'.m);
    BareRoundNext(s, s', m0, w, i, token, idx);
  }

  /** Only the item for the missing state 2 makes the scanner fail. */
  lemma CrashSource(s: Snapshot, m0: Machine, w: Word, i: nat, token: Option<Token>, idx: nat)
    requires Fit(s, w, i) && idx < |s.sets[i]| && Untyped(token) && s.sets[i][idx].state >= |s.m.states|
    requires Treated(s, m0, w, i, token, idx)
    ensures i == 0 && Bare(m0) && |m0.states| == |s.m.states| == 2 && BlindTo(s.start, token)
  {
    ItemState(s, w, i, i, s.sets[i][idx]);
  }

  /** What one more item of the first set does to the automaton. */
  lemma BareRoundNext(s: Snapshot, s': Snapshot, m0: Machine, w: Word, i: nat, token: Option<Token>, idx: nat)
    requires Fit(s, w, i) && Round(s, s', w, i) && idx < |s.sets[i]| && TokenAt(s.rs, token, w, i)
    requires Extends(m0, s.m) && 1 < |m0.states| && BareRound(m0, s.m, s.start, token, i, idx)
    requires var it := s.sets[i][idx];
      && !(Untyped(token) && it.state >= |s.m.states|)
      && (it in LiveSets(s)[i] ==> ItemClosed(s'.m, w, LiveSets(s'), i, it))
      && (it.parent == i && (token.None? || Edge(it.state, Some(token.value.sym)) !in s.m.edges) ==> s'.m == s.m)
    ensures BareRound(m0, s'.m, s.start, token, i, idx + 1)
  {
    if i == 0 && Bare(m0) {
      assert Bare(s.m) && Bare(s'.m);
      BareStart(s.rs, s.m, s.start);
      assert s.sets[0] == FIRST && idx < 2;
      if idx == 0 && token.Some? && token.value.sym == s.start {
        assert Scanned(s'.m, w, LiveSets(s'), 0, Item(1, 0));
        assert w[0] == s.start;
      }
    }
  }

  lemma AllTreated(s: Snapshot, s': Snapshot, w: Word, i: nat, token: Option<Token>, n: nat)
    requires Fit(s, w, i) && Round(s, s', w, i) && n >= |s'.sets[i]| && Treated(s', s.m, w, i, token, n)
    ensures !(i == 0 && Bare(s.m) && |s.m.states| == 2 && BlindTo(s.start, token))
    ensures ClosedFirst(s'.m, w, LiveSets(s'), i, |s'.sets[i]|)
  {
  }

  // ----- the loop over the tokens

  /** The first round does not follow an edge on the start symbol before it looks up the
      terminals of state 2. */
  predicate Blind(start: Symbol, ts: seq<Token>) {
    ts == [] || (!ts[0].typed && ts[0].sym != start)
  }

  /** A run that starts with automaton m looks up a state that does not exist. */
  predicate CrashesOn(m: Machine, start: Symbol, ts: seq<Token>) {
    Bare(m) && |m.states| == 2 && Blind(start, ts)
  }

  /** Before round i, with automaton m0 at the start: the sets so far, and an empty one, fit. */
  ghost predicate Building(s: Snapshot, m0: Machine, w: Word, ts: seq<Token>, i: nat) {
    && w == SeenWord(Nonterminals(s.rs), ts) && Sane(s.rs, s.newrules, m0, s.start)
    && |s.sets| == i + 1 && Fit(s.(sets := s.sets + [[]]), w, i) && Extends(m0, s.m)
    && (if i == 0 then s.m == m0 else !CrashesOn(m0, s.start, ts))
  }

  lemma FirstRound(s: Snapshot, w: Word, ts: seq<Token>)
    requires Sane(s.rs, s.newrules, s.m, s.start) && s.sets == [FIRST] && w == SeenWord(Nonterminals(s.rs), ts)
    ensures Building(s, s.m, w, ts, 0)
  {
    assert s.sets + [[]] == [FIRST, []];
    FirstSets(Elements(s.rs), s.rs, s.m, w, s.start);
  }

  lemma LivePads(m: Machine, sets: seq<seq<Item>>)
    requires sets != []
    ensures Live(m, sets + [[]]) == Live(m, sets) + [[]]
  {
  }

  /** The set at i is finished, and the next round can begin. */
  lemma NextRound(s: Snapshot, s': Snapshot, m0: Machine, w: Word, ts: seq<Token>, i: nat)
    requires Building(s, m0, w, ts, i) && Round(s.(sets := s.sets + [[]]), s', w, i) && i < |ts|
    requires ClosedFirst(s'.m, w, LiveSets(s'), i, |s'.sets[i]|)
    requires i == 0 ==> !(Bare(s.m) && |s.m.states| == 2 && BlindTo(s.start, Some(ts[0])))
    ensures Building(s', m0, w, ts, i + 1)
  {
    hide Sane, SetsOk;
    ExtendsTransitive(m0, s.m, s'.m);
    LivePads(s'.m, s'.sets);
    NextSet(Elements(s.rs), s'.m, w, LiveSets(s'), i);
  }

  // ----- the verdict

  /** What the recogniser's verdict comes to, on the word as the scanner sees it. */
  ghost predicate AcceptsSeen(rs: seq<Rule>, m: Machine, start: Symbol, w: Word) {
    (w == [] && (Bare(m) || |Filter(rs, START)| == 2)) || Derives(Elements(rs), start, w)
  }

  datatype Outcome = Accepted | Rejected | Crashed

  ghost function SeenResult(rs: seq<Rule>, m: Machine, start: Symbol, ts: seq<Token>): Outcome {
    if CrashesOn(m, start, ts) then Crashed
    else if AcceptsSeen(rs, m, start, SeenWord(Nonterminals(rs), ts)) then Accepted
    else Rejected
  }

  /** The sets built when parse leaves its loop: the last but one is where the final item
      is looked up. */
  ghost predicate SetsDone(s: Snapshot, m0: Machine, w: Word, ts: seq<Token>) {
    && w == SeenWord(Nonterminals(s.rs), ts) && Sane(s.rs, s.newrules, m0, s.start) && !CrashesOn(m0, s.start, ts)
    && 2 <= |s.sets| <= |w| + 2 && Fit(s, w, |s.sets| - 2) && Extends(m0, s.m)
    && (if |s.sets| == |w| + 2 then ClosedFirst(s.m, w, LiveSets(s), |w|, |s.sets[|w|]|)
        else s.sets[|s.sets| - 2] == [] && s.sets[|s.sets| - 1] == [])
  }

  /** The set at i came out empty. */
  lemma LeavesEarly(s: Snapshot, m0: Machine, w: Word, ts: seq<Token>, i: nat)
    requires Building(s, m0, w, ts, i) && i < |ts| && s.sets[i] == []
    ensures SetsDone(s.(sets := s.sets + [[]]), m0, w, ts)
  {
    assert (s.sets + [[]])[0] == FIRST;
  }

  /** The set after the last token is finished. */
  lemma LastRound(s: Snapshot, s': Snapshot, m0: Machine, w: Word, ts: seq<Token>)
    requires Building(s, m0, w, ts, |ts|) && Round(s.(sets := s.sets + [[]]), s', w, |ts|)
    requires ClosedFirst(s'.m, w, LiveSets(s'), |ts|, |s'.sets[|ts|]|)
    requires ts == [] ==> !(Bare(s.m) && |s.m.states| == 2)
    ensures SetsDone(s', m0, w, ts)
  {
    hide Sane, SetsOk;
    ExtendsTransitive(m0, s.m, s'.m);
  }

  lemma DoneSane(s: Snapshot, m0: Machine, w: Word, ts: seq<Token>)
    requires SetsDone(s, m0, w, ts)
    ensures Sane(s.rs, s.newrules, s.m, s.start) && 2 <= |s.sets|
  {
  }

  /** In the sets built, the final item decides. */
  lemma FinalItemDecides(s: Snapshot, m0: Machine, m': Machine, w: Word, ts: seq<Token>)
    requires SetsDone(s, m0, w, ts) && Sane(s.rs, s.newrules, m', s.start) && Extends(s.m, m')
    requires Edge(1, Some(s.start)) in m'.edges && m'.edges[Edge(1, Some(s.start))].Some?
    requires w == [] ==> |Filter(s.rs, START)| != 2
    ensures Item(m'.edges[Edge(1, Some(s.start))].value, 0) in s.sets[|s.sets| - 2] <==> AcceptsSeen(s.rs, m0, s.start, w)
  {
    hide MachineOk, SetsOk, Grouped, MarksDeriveEmpty, YieldsFollowMarks;
    StatesCount(s.rs, m0, s.start);
    assert Bare(m0) <==> Bare(s.m);
    var i := |s.sets| - 2;
    if i < |w| {
      StoppedRejects(s, m0, w, ts);
    } else if w == [] && Bare(s.m) {
      assert m'.edges[Edge(1, Some(s.start))] == Some(2);
    } else {
      FullSetsDecide(s, m0, m', w, ts);
    }
  }

  lemma StoppedRejects(s: Snapshot, m0: Machine, w: Word, ts: seq<Token>)
    requires SetsDone(s, m0, w, ts) && |s.sets| < |w| + 2
    ensures !Derives(Elements(s.rs), s.start, w)
  {
    hide MachineOk, SetsOk, Grouped, MarksDeriveEmpty, YieldsFollowMarks;
    EmptySetRejects(Elements(s.rs), s.rs, s.m, w, LiveSets(s), |s.sets| - 2, s.start);
  }

  lemma FullSetsDecide(s: Snapshot, m0: Machine, m': Machine, w: Word, ts: seq<Token>)
    requires SetsDone(s, m0, w, ts) && Sane(s.rs, s.newrules, m', s.start) && Extends(s.m, m')
    requires |s.sets| == |w| + 2 && !(w == [] && Bare(s.m))
    requires Edge(1, Some(s.start)) in m'.edges && m'.edges[Edge(1, Some(s.start))].Some?
    ensures Item(m'.edges[Edge(1, Some(s.start))].value, 0) in s.sets[|w|] <==> Derives(Elements(s.rs), s.start, w)
  {
    hide MachineOk, SetsOk, Grouped, MarksDeriveEmpty, YieldsFollowMarks;
    var h, t := Elements(s.rs), LiveSets(s);
    RoundStarts(s, m', w, |w|);
    ClosedFirstGrows(h, s.rs, s.m, m', w, t, t, |w|, |s.sets[|w|]|);
    VerdictIsRight(h, s.rs, m', w, t, s.start);
  }

  /** The state finalState answers: state 1 for an empty input of a nullable start symbol,
      otherwise the target of state 1 over the start symbol. */
  ghost predicate IsFinal(rs: seq<Rule>, m: Machine, start: Symbol, ts: seq<Token>, k: nat) {
    if |Filter(rs, START)| == 2 && ts == [] then k == 1
    else Edge(1, Some(start)) in m.edges && m.edges[Edge(1, Some(start))] == Some(k)
  }

  function FinalOutcome(k: nat, last: seq<Item>): Outcome {
    if Item(k, 0) in last then Accepted else Rejected
  }

  lemma VerdictIs(s: Snapshot, m0: Machine, m': Machine, w: Word, ts: seq<Token>, k: nat)
    requires SetsDone(s, m0, w, ts) && Sane(s.rs, s.newrules, m', s.start) && Extends(s.m, m')
    requires IsFinal(s.rs, m', s.start, ts, k)
    ensures SeenResult(s.rs, m0, s.start, ts) == FinalOutcome(k, s.sets[|s.sets| - 2])
  {
    hide Sane, SetsOk;
    if ts == [] && |Filter(s.rs, START)| == 2 {
      assert s.sets[|s.sets| - 2] == FIRST;
    } else {
      FinalItemDecides(s, m0, m', w, ts);
    }
  }

  /** After a run without a crash state 2 is there. */
  lemma State2Exists(s: Snapshot, m0: Machine, m': Machine, w: Word, ts: seq<Token>, k: nat)
    requires SetsDone(s, m0, w, ts) && Sane(s.rs, s.newrules, m', s.start) && Extends(s.m, m')
    requires IsFinal(s.rs, m', s.start, ts, k)
    ensures |m'.states| > 2
  {
    hide MachineOk, SetsOk, Grouped, MarksDeriveEmpty, YieldsFollowMarks;
    StatesCount(s.rs, m0, s.start);
    StatesCount(s.rs, m', s.start);
  }
}
