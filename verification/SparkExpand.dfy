/** One round of the state-building loop: what it has collected from the items it
    has treated so far. */
module StateExpansion {
  import opened Common
  import opened Grammar
  import opened EpsilonRewrite
  import opened RewriteFacts
  import opened EarleyMachine

  /** The rules whose left-hand side is not in p. */
  function Outside(rs: seq<Rule>, p: set<Symbol>): seq<Rule> {
    if rs == [] then []
    else Outside(rs[..|rs| - 1], p) + (if rs[|rs| - 1].lhs in p then [] else [rs[|rs| - 1]])
  }

  lemma {:induction false} OutsideShrinks(rs: seq<Rule>, p: set<Symbol>, x: Symbol)
    requires x !in p
    ensures |Outside(rs, p)| == |Outside(rs, p + {x})| + |Filter(rs, x)|
  {
    if rs != [] { OutsideShrinks(rs[..|rs| - 1], p, x); }
  }

  lemma {:induction false} OutsideNothing(rs: seq<Rule>)
    ensures Outside(rs, {}) == rs
  {
    if rs != [] {
      OutsideNothing(rs[..|rs| - 1]);
      assert rs == rs[..|rs| - 1] + [rs[|rs| - 1]];
    }
  }

  /** The items of a nonkernel state while it is built: those of the symbols
      predicted so far, one for each rule. */
  ghost predicate NonkernelItems(rs: seq<Rule>, p: set<Symbol>, nk: seq<Dotted>) {
    && p <= Nonterminals(rs) && START !in p
    && (forall d :: d in nk <==> PredictedItem(rs, p, d))
    && |nk| + |Outside(rs, p)| == |rs|
  }

  /** The edges of state x found so far: one, with no target yet, for each symbol
      that a treated item has next. */
  ghost predicate FreshEdges(x: nat, done: seq<Dotted>, before: map<Edge, Option<nat>>, now: map<Edge, Option<nat>>) {
    && (forall e :: e in before ==> e.from != x && e in now && now[e] == before[e])
    && (forall e :: e in now && e !in before ==> e.from == x && e.sym.Some? && HasNext(done, e.sym.value) && now[e] == None)
    && (forall s :: HasNext(done, s) ==> Edge(x, Some(s)) in now)
  }

  /** What the loop over a state's items has built up. */
  datatype Collected = Collected(T: seq<Symbol>, complete: seq<Rule>, edges: map<Edge, Option<nat>>,
                                 predicted: set<Symbol>, nk: seq<Dotted>)

  ghost predicate CollectedOk(rs: seq<Rule>, x: nat, done: seq<Dotted>, before: map<Edge, Option<nat>>, c: Collected) {
    && CompleteOk(done, c.complete) && TerminalsOk(rs, done, c.T)
    && FreshEdges(x, done, before, c.edges)
    && Predicts(rs, done, c.predicted) && NonkernelItems(rs, c.predicted, c.nk)
  }

  lemma GroupedKeys(rs: seq<Rule>, newrules: map<Symbol, seq<Rule>>, x: Symbol)
    requires Grouped(rs, newrules)
    ensures x in newrules <==> x in Nonterminals(rs)
    ensures x in newrules ==> newrules[x] == Filter(rs, x)
  {
    assert Lookup(newrules, x) == Filter(rs, x);
    if x in newrules {
      FilterMember(rs, x, newrules[x][0]);
    }
    if x in Nonterminals(rs) {
      var r :| r in rs && r.lhs == x;
      FilterMember(rs, x, r);
    }
  }

  lemma NonkernelItemOk(rs: seq<Rule>, p: set<Symbol>, nk: seq<Dotted>, d: Dotted)
    requires NonkernelItems(rs, p, nk) && d in nk
    ensures ItemOk(rs, d)
  {
    assert PredictedItem(rs, p, d);
  }

  lemma CollectedItems(rs: seq<Rule>, x: nat, done: seq<Dotted>, before: map<Edge, Option<nat>>, c: Collected)
    requires CollectedOk(rs, x, done, before, c)
    ensures NonkernelItems(rs, c.predicted, c.nk)
    ensures |c.nk| <= |rs| && forall d :: d in c.nk ==> ItemOk(rs, d)
  {
    forall d | d in c.nk ensures ItemOk(rs, d) {
      NonkernelItemOk(rs, c.predicted, c.nk, d);
    }
  }

  lemma HasNextSnoc(done: seq<Dotted>, d: Dotted, x: Symbol)
    ensures HasNext(done + [d], x) <==> HasNext(done, x) || NextIs(d, x)
  {
    if HasNext(done, x) {
      var e :| e in done && NextIs(e, x);
      assert e in done + [d];
    }
    if NextIs(d, x) {
      assert d in done + [d];
    }
  }

  lemma FreshEdgesSnoc(x: nat, done: seq<Dotted>, before: map<Edge, Option<nat>>, now: map<Edge, Option<nat>>, d: Dotted)
    requires FreshEdges(x, done, before, now)
    ensures d.pos >= |d.rule.rhs| ==> FreshEdges(x, done + [d], before, now)
    ensures d.pos < |d.rule.rhs| ==> FreshEdges(x, done + [d], before, now[Edge(x, Some(d.rule.rhs[d.pos])) := None])
    ensures d.pos < |d.rule.rhs| && Edge(x, Some(d.rule.rhs[d.pos])) in now ==> FreshEdges(x, done + [d], before, now)
  {
    forall s ensures HasNext(done + [d], s) <==> HasNext(done, s) || NextIs(d, s) {
      HasNextSnoc(done, d, s);
    }
  }

  lemma CompleteSnoc(done: seq<Dotted>, complete: seq<Rule>, d: Dotted)
    requires CompleteOk(done, complete) && d.pos <= |d.rule.rhs|
    ensures if d.pos == |d.rule.rhs| then CompleteOk(done + [d], complete + [d.rule]) else CompleteOk(done + [d], complete)
  {
  }

  lemma TerminalsSnoc(rs: seq<Rule>, done: seq<Dotted>, ts: seq<Symbol>, d: Dotted)
    requires TerminalsOk(rs, done, ts)
    ensures d.pos >= |d.rule.rhs| ==> TerminalsOk(rs, done + [d], ts)
    ensures d.pos < |d.rule.rhs| ==>
      var s := d.rule.rhs[d.pos];
      && (s in Nonterminals(rs) || s in ts ==> TerminalsOk(rs, done + [d], ts))
      && (s !in Nonterminals(rs) ==> TerminalsOk(rs, done + [d], ts + [s]))
  {
    forall s ensures HasNext(done + [d], s) <==> HasNext(done, s) || NextIs(d, s) {
      HasNextSnoc(done, d, s);
    }
  }

  lemma PredictsSnoc(rs: seq<Rule>, done: seq<Dotted>, p: set<Symbol>, d: Dotted)
    requires Predicts(rs, done, p)
    ensures d.pos >= |d.rule.rhs| || d.rule.rhs[d.pos] !in Nonterminals(rs) || d.rule.rhs[d.pos] in p ==> Predicts(rs, done + [d], p)
    ensures d.pos < |d.rule.rhs| ==> Predicts(rs, done + [d], p + {d.rule.rhs[d.pos]})
  {
    forall s ensures HasNext(done + [d], s) <==> HasNext(done, s) || NextIs(d, s) {
      HasNextSnoc(done, d, s);
    }
  }

  lemma PredictsSomethingSnoc(rs: seq<Rule>, done: seq<Dotted>, d: Dotted)
    requires PredictsSomething(rs, done) || (d.pos < |d.rule.rhs| && d.rule.rhs[d.pos] in Nonterminals(rs))
    ensures PredictsSomething(rs, done + [d])
  {
    var x :| x in Nonterminals(rs) && (HasNext(done, x) || NextIs(d, x));
    HasNextSnoc(done, d, x);
  }

  lemma PredictedMore(rs: seq<Rule>, p: set<Symbol>, nk: seq<Dotted>, x: Symbol, more: seq<Dotted>)
    requires NonkernelItems(rs, p, nk) && x !in p && x in Nonterminals(rs) && x != START
    requires |more| == |Filter(rs, x)| && forall i :: 0 <= i < |more| ==> more[i] == Dotted(Filter(rs, x)[i], SkipTo(Filter(rs, x)[i], 0))
    ensures NonkernelItems(rs, p + {x}, nk + more)
  {
    OutsideShrinks(rs, p, x);
    forall d ensures d in nk + more <==> PredictedItem(rs, p + {x}, d) {
      FilterMember(rs, x, d.rule);
      if PredictedItem(rs, p + {x}, d) && d.rule.lhs == x {
        var i :| 0 <= i < |Filter(rs, x)| && Filter(rs, x)[i] == d.rule;
        assert more[i] == d;
      }
      if d in more {
        var i :| 0 <= i < |more| && more[i] == d;
        assert d.rule in Filter(rs, x);
      }
    }
  }

  // ----- adding what was collected to the automaton

  function WithState(m: Machine, st: State, core: Core, edges: map<Edge, Option<nat>>): Machine {
    Machine(m.states + [st], edges, m.cores[core := |m.states|], m.coreOf[|m.states| := core])
  }

  function WithNonkernel(m: Machine, k: nat, nk: nat): Machine {
    m.(edges := m.edges[Edge(k, None) := Some(nk)])
  }

  lemma AddStateCores(m: Machine, st: State, core: Core, edges: map<Edge, Option<nat>>)
    requires CoresOk(m) && core !in m.cores
    ensures CoresOk(WithState(m, st, core, edges))
  {
  }

  lemma AddStateStates(rs: seq<Rule>, m: Machine, st: State, core: Core, edges: map<Edge, Option<nat>>)
    requires CoresOk(m) && StatesOk(rs, m) && core !in m.cores
    requires StateOk(rs, st) && CoreOk(rs, st, core)
    ensures CoresOk(WithState(m, st, core, edges)) && StatesOk(rs, WithState(m, st, core, edges))
  {
    var m' := WithState(m, st, core, edges);
    AddStateCores(m, st, core, edges);
    forall s | s in m'.coreOf ensures StateOk(rs, m'.states[s]) && CoreOk(rs, m'.states[s], m'.coreOf[s]) {
      if s != |m.states| {
        assert m'.states[s] == m.states[s] && m'.coreOf[s] == m.coreOf[s];
        assert StateOk(rs, m.states[s]) && CoreOk(rs, m.states[s], m.coreOf[s]);
      }
    }
  }

  lemma AddState(rs: seq<Rule>, m: Machine, pending: nat, st: State, core: Core, edges: map<Edge, Option<nat>>)
    requires MachineOkBut(rs, m, pending) && (core.Kernel? ==> pending == 0)
    requires StateOk(rs, st) && CoreOk(rs, st, core) && core !in m.cores
    requires FreshEdges(|m.states|, st.items, m.edges, edges)
    ensures MachineOkBut(rs, WithState(m, st, core, edges), if core.Kernel? then |m.states| else pending)
    ensures Extends(m, WithState(m, st, core, edges))
  {
    var m' := WithState(m, st, core, edges);
    var pending' := if core.Kernel? then |m.states| else pending;
    AddStateStates(rs, m, st, core, edges);
    forall e | e in m'.edges ensures e.from in m'.coreOf && EdgeOk(rs, m', e, m'.edges[e]) {
      if e in m.edges {
        assert EdgeOk(rs, m, e, m.edges[e]);
      }
    }
    forall s | s in m'.coreOf ensures EdgesFrom(rs, m', s, pending') {
      if s != |m.states| {
        assert EdgesFrom(rs, m, s, pending);
      }
    }
  }

  lemma AddNonkernelEdge(rs: seq<Rule>, m: Machine, k: nat, nk: nat)
    requires MachineOkBut(rs, m, k) && k in m.coreOf && m.coreOf[k].Kernel? && Edge(k, None) !in m.edges
    requires nk in m.coreOf && m.coreOf[nk].Predicted? && Predicts(rs, m.states[k].items, m.coreOf[nk].syms)
    requires PredictsSomething(rs, m.states[k].items)
    ensures MachineOk(rs, WithNonkernel(m, k, nk))
  {
    var m' := WithNonkernel(m, k, nk);
    forall s | s in m'.coreOf ensures StateOk(rs, m'.states[s]) && CoreOk(rs, m'.states[s], m'.coreOf[s]) {
      assert StateOk(rs, m.states[s]) && CoreOk(rs, m.states[s], m.coreOf[s]);
    }
    forall e | e in m'.edges ensures e.from in m'.coreOf && EdgeOk(rs, m', e, m'.edges[e]) {
      if e in m.edges {
        assert EdgeOk(rs, m, e, m.edges[e]);
      }
    }
    forall s | s in m'.coreOf ensures EdgesFrom(rs, m', s, 0) {
      assert EdgesFrom(rs, m, s, k);
    }
  }

  lemma NothingPredicted(rs: seq<Rule>, m: Machine, k: nat)
    requires MachineOkBut(rs, m, k) && k in m.coreOf && !PredictsSomething(rs, m.states[k].items)
    ensures MachineOk(rs, m)
  {
    forall s | s in m.coreOf ensures EdgesFrom(rs, m, s, 0) {
      assert EdgesFrom(rs, m, s, k);
    }
  }

  /** Nothing collected for the nonkernel state means nothing was predicted. */
  lemma NoItemsNothingPredicted(rs: seq<Rule>, p: set<Symbol>, items: seq<Dotted>)
    requires NonkernelItems(rs, p, []) && Predicts(rs, items, p)
    ensures !PredictsSomething(rs, items)
  {
    forall x | x in p ensures false {
      var r :| r in rs && r.lhs == x;
      assert PredictedItem(rs, p, Dotted(r, SkipTo(r, 0)));
    }
  }

  lemma FreshOn(x: nat, items: seq<Dotted>, before: map<Edge, Option<nat>>, local: map<Edge, Option<nat>>)
    requires FreshEdges(x, items, map[], local) && forall e :: e in before ==> e.from != x
    ensures FreshEdges(x, items, before, before + local)
  {
  }

  lemma KernelItemsOk(rs: seq<Rule>, items: seq<Dotted>, x: Symbol)
    requires forall d :: d in items ==> d.rule in rs
    ensures forall e :: e in Advance(items, x) ==> ItemOk(rs, e)
  {
    forall e | e in Advance(items, x) ensures ItemOk(rs, e) {
      AdvanceMember(items, x, e);
    }
  }

  lemma SourceItems(rs: seq<Rule>, m: Machine, s: nat)
    requires MachineOk(rs, m) && s < |m.states|
    ensures |m.states[s].items| <= |rs| && forall d :: d in m.states[s].items ==> d.rule in rs
  {
    if s > 0 {
      assert s in m.coreOf && StateOk(rs, m.states[s]);
      assert forall d :: d in m.states[s].items ==> ItemOk(rs, d);
    }
  }

  lemma StartCollecting(rs: seq<Rule>, x: nat, edges: map<Edge, Option<nat>>, p: set<Symbol>, nk: seq<Dotted>)
    requires forall e :: e in edges ==> e.from != x
    requires NonkernelItems(rs, p, nk) || (p == {} && nk == [])
    ensures CollectedOk(rs, x, [], edges, Collected([], [], edges, p, nk))
  {
    OutsideNothing(rs);
  }

  /** Extends, but for the edge from k to its nonkernel state. */
  ghost predicate ExtendsBut(m: Machine, m': Machine, k: nat) {
    && m.states <= m'.states
    && (forall s :: s in m.coreOf ==> s in m'.coreOf && m'.coreOf[s] == m.coreOf[s])
    && (forall e: Edge :: e.from < |m.states| && e != Edge(k, None) ==> (e in m.edges <==> e in m'.edges))
    && KeepsEdges(m, m')
  }

  ghost predicate KeepsEdges(m: Machine, m': Machine) {
    forall e :: e in m.edges ==> e in m'.edges && m'.edges[e] == m.edges[e]
  }

  /** If k's nonkernel state is new, it is the state after k. */
  ghost predicate NonkernelTarget(m: Machine, m': Machine, k: nat) {
    Edge(k, None) in m'.edges ==>
      var t := m'.edges[Edge(k, None)];
      t.Some? && t.value != k && (t.value == k + 1 || t.value in m.coreOf)
  }

  lemma ExtendsThroughKernel(m: Machine, m': Machine, m'': Machine)
    requires Extends(m, m') && KeepsEdges(m, m') && ExtendsBut(m', m'', |m.states|)
    requires m'.coreOf.Keys == m.coreOf.Keys + {|m.states|} && NonkernelTarget(m', m'', |m.states|)
    ensures Extends(m, m'') && KeepsEdges(m, m'') && NonkernelTarget(m, m'', |m.states|)
  {
  }

  lemma NewKernel(rs: seq<Rule>, m: Machine, kitems: seq<Dotted>, c: Collected, st: State)
    requires MachineOk(rs, m) && |kitems| <= |rs| && forall d :: d in kitems ==> ItemOk(rs, d)
    requires Kernel(multiset(kitems)) !in m.cores
    requires CollectedOk(rs, |m.states|, kitems, m.edges, c) && st == State(kitems, c.T, c.complete)
    ensures MachineOkBut(rs, WithState(m, st, Kernel(multiset(kitems)), c.edges), |m.states|)
    ensures Extends(m, WithState(m, st, Kernel(multiset(kitems)), c.edges))
    ensures KeepsEdges(m, WithState(m, st, Kernel(multiset(kitems)), c.edges))
    ensures Edge(|m.states|, None) !in c.edges
  {
    AddState(rs, m, 0, st, Kernel(multiset(kitems)), c.edges);
  }

  lemma NonkernelStateOk(rs: seq<Rule>, x: nat, c: Collected, st: State)
    requires CollectedOk(rs, x, c.nk, map[], c) && st == State(c.nk, c.T, c.complete)
    ensures StateOk(rs, st) && CoreOk(rs, st, Predicted(c.predicted))
  {
    forall d | d in c.nk ensures ItemOk(rs, d) {
      NonkernelItemOk(rs, c.predicted, c.nk, d);
    }
  }

  lemma OldNonkernel(rs: seq<Rule>, m: Machine, k: nat, nk: nat, p: set<Symbol>)
    requires MachineOkBut(rs, m, k) && k in m.coreOf && m.coreOf[k].Kernel? && Edge(k, None) !in m.edges
    requires Predicted(p) in m.cores && m.cores[Predicted(p)] == nk && Predicts(rs, m.states[k].items, p)
    requires PredictsSomething(rs, m.states[k].items)
    ensures MachineOk(rs, WithNonkernel(m, k, nk))
    ensures ExtendsBut(m, WithNonkernel(m, k, nk), k) && NonkernelTarget(m, WithNonkernel(m, k, nk), k)
  {
    AddNonkernelEdge(rs, m, k, nk);
  }

  /** Where the two states end up when both are new. */
  function WithBoth(m: Machine, k: nat, c: Collected, st: State): Machine {
    Machine(m.states + [st], m.edges[Edge(k, None) := Some(k + 1)] + c.edges,
            m.cores[Predicted(c.predicted) := k + 1], m.coreOf[k + 1 := Predicted(c.predicted)])
  }

  lemma NewNonkernel(rs: seq<Rule>, m: Machine, k: nat, c: Collected, st: State)
    requires MachineOkBut(rs, m, k) && k + 1 == |m.states| && k in m.coreOf && m.coreOf[k].Kernel?
    requires Edge(k, None) !in m.edges
    requires CollectedOk(rs, k + 1, c.nk, map[], c) && Predicted(c.predicted) !in m.cores
    requires Predicts(rs, m.states[k].items, c.predicted) && PredictsSomething(rs, m.states[k].items)
    requires st == State(c.nk, c.T, c.complete)
    ensures MachineOk(rs, WithBoth(m, k, c, st)) && ExtendsBut(m, WithBoth(m, k, c, st), k)
    ensures NonkernelTarget(m, WithBoth(m, k, c, st), k)
  {
    NonkernelStateAdded(rs, m, k, c, st);
    SameAsBoth(m, k, c, st);
    AddNonkernelEdge(rs, WithState(m, st, Predicted(c.predicted), m.edges + c.edges), k, k + 1);
    BothExtends(m, k, c, st);
  }

  lemma SameAsBoth(m: Machine, k: nat, c: Collected, st: State)
    requires k + 1 == |m.states| && Edge(k, None) !in c.edges
    ensures WithNonkernel(WithState(m, st, Predicted(c.predicted), m.edges + c.edges), k, k + 1) == WithBoth(m, k, c, st)
  {
    assert m.edges[Edge(k, None) := Some(k + 1)] + c.edges == (m.edges + c.edges)[Edge(k, None) := Some(k + 1)];
  }

  lemma BothExtends(m: Machine, k: nat, c: Collected, st: State)
    requires CoresOk(m) && k + 1 == |m.states| && Edge(k, None) !in m.edges
    requires forall e :: e in m.edges ==> e.from in m.coreOf
    requires FreshEdges(k + 1, c.nk, map[], c.edges)
    ensures ExtendsBut(m, WithBoth(m, k, c, st), k) && NonkernelTarget(m, WithBoth(m, k, c, st), k)
  {
  }

  lemma NonkernelStateAdded(rs: seq<Rule>, m: Machine, k: nat, c: Collected, st: State)
    requires MachineOkBut(rs, m, k) && k + 1 == |m.states| && k in m.coreOf && m.coreOf[k].Kernel?
    requires Edge(k, None) !in m.edges
    requires CollectedOk(rs, k + 1, c.nk, map[], c) && Predicted(c.predicted) !in m.cores
    requires st == State(c.nk, c.T, c.complete)
    ensures Edge(k, None) !in c.edges
    ensures var m1 := WithState(m, st, Predicted(c.predicted), m.edges + c.edges);
            MachineOkBut(rs, m1, k) && Extends(m, m1)
  {
    NonkernelStateOk(rs, k + 1, c, st);
    assert forall e :: e in m.edges ==> e.from in m.coreOf;
    FreshOn(k + 1, c.nk, m.edges, c.edges);
    AddState(rs, m, k, st, Predicted(c.predicted), m.edges + c.edges);
  }

  function WithTarget(m: Machine, e: Edge, k: nat): Machine {
    Machine(m.states, m.edges[e := Some(k)], m.cores, m.coreOf)
  }

  /** Recording the target of an edge once its state is known. */
  lemma SetTarget(rs: seq<Rule>, m: Machine, e: Edge, k: nat)
    requires MachineOk(rs, m) && e in m.edges && m.edges[e] == None && e.sym.Some?
    requires k in m.coreOf && e.from in m.coreOf && m.coreOf[k] == Kernel(multiset(Advance(m.states[e.from].items, e.sym.value)))
    ensures MachineOk(rs, WithTarget(m, e, k)) && Extends(m, WithTarget(m, e, k))
  {
    SameStates(rs, m, m.edges[e := Some(k)]);
    TargetEdges(rs, m, e, k);
  }

  /** Cores and states do not depend on the edges. */
  lemma SameStates(rs: seq<Rule>, m: Machine, edges: map<Edge, Option<nat>>)
    requires CoresOk(m) && StatesOk(rs, m)
    ensures CoresOk(m.(edges := edges)) && StatesOk(rs, m.(edges := edges))
  {
  }

  lemma TargetEdges(rs: seq<Rule>, m: Machine, e: Edge, k: nat)
    requires CoresOk(m) && CoresOk(WithTarget(m, e, k)) && EdgesOk(rs, m, 0) && e in m.edges && e.sym.Some?
    requires k in m.coreOf && m.coreOf[k] == Kernel(multiset(Advance(m.states[e.from].items, e.sym.value)))
    ensures EdgesOk(rs, WithTarget(m, e, k), 0)
  {
    var m' := WithTarget(m, e, k);
    forall f | f in m'.edges ensures EdgeOk(rs, m', f, m'.edges[f]) {
      assert EdgeOk(rs, m, f, m.edges[f]);
    }
    forall s | s in m'.coreOf ensures EdgesFrom(rs, m', s, 0) {
      assert EdgesFrom(rs, m, s, 0);
    }
  }
}
