/** The automaton the parser builds while it runs: what its states, edges and
    cores must satisfy, and why there are only finitely many states. */
module EarleyMachine {
  import opened Common
  import opened Grammar
  import opened EpsilonRewrite
  import opened RewriteFacts

  const START := Sym("START")
  const BOF := Sym("|-")

  datatype Dotted = Dotted(rule: Rule, pos: nat)
  datatype State = State(items: seq<Dotted>, T: seq<Symbol>, complete: seq<Rule>)
  /** What identifies a state: the items of an epsilon-kernel state, or the symbols
      an epsilon-nonkernel state predicts. */
  datatype Core = Kernel(items: multiset<Dotted>) | Predicted(syms: set<Symbol>)
  datatype Edge = Edge(from: nat, sym: Option<Symbol>)
  datatype Machine = Machine(states: seq<State>, edges: map<Edge, Option<nat>>, cores: map<Core, nat>, coreOf: map<nat, Core>)

  /** The first position from pos on whose symbol is not marked. */
  function SkipTo(r: Rule, pos: nat): (p: nat)
    requires pos <= |r.rhs|
    ensures pos <= p <= |r.rhs|
    ensures p < |r.rhs| ==> r.rhs[p].Sym?
    ensures forall j :: pos <= j < p ==> r.rhs[j].Eps?
    decreases |r.rhs| - pos
  {
    if pos < |r.rhs| && r.rhs[pos].Eps? then SkipTo(r, pos + 1) else pos
  }

  predicate NextIs(d: Dotted, x: Symbol) {
    d.pos < |d.rule.rhs| && d.rule.rhs[d.pos] == x
  }

  function Step(d: Dotted): Dotted
    requires d.pos < |d.rule.rhs|
  {
    Dotted(d.rule, SkipTo(d.rule, d.pos + 1))
  }

  /** The items that follow from moving the dot over x. */
  function Advance(items: seq<Dotted>, x: Symbol): (r: seq<Dotted>)
    ensures |r| <= |items|
  {
    if items == [] then []
    else
      var d := items[|items| - 1];
      Advance(items[..|items| - 1], x) + (if NextIs(d, x) then [Step(d)] else [])
  }

  lemma {:induction false} AdvanceMember(items: seq<Dotted>, x: Symbol, e: Dotted)
    ensures e in Advance(items, x) <==> exists d :: d in items && NextIs(d, x) && Step(d) == e
  {
    if items != [] {
      var n := |items| - 1;
      AdvanceMember(items[..n], x, e);
      assert items == items[..n] + [items[n]];
    }
  }

  function Nonterminals(rs: seq<Rule>): set<Symbol> { set r | r in rs :: r.lhs }

  ghost predicate HasNext(items: seq<Dotted>, x: Symbol) {
    exists d :: d in items && NextIs(d, x)
  }

  ghost predicate PredictedItem(rs: seq<Rule>, p: set<Symbol>, d: Dotted) {
    d.rule in rs && d.rule.lhs in p && d.pos == SkipTo(d.rule, 0)
  }

  ghost predicate ItemOk(rs: seq<Rule>, d: Dotted) {
    && d.rule in rs && d.pos <= |d.rule.rhs|
    && (d.pos < |d.rule.rhs| ==> d.rule.rhs[d.pos].Sym?)
    && (d.rule.lhs == START ==> d.pos > 0)
  }

  ghost predicate CompleteOk(items: seq<Dotted>, complete: seq<Rule>) {
    forall r :: r in complete <==> Dotted(r, |r.rhs|) in items
  }

  ghost predicate TerminalsOk(rs: seq<Rule>, items: seq<Dotted>, ts: seq<Symbol>) {
    forall x :: x in ts <==> x !in Nonterminals(rs) && HasNext(items, x)
  }

  ghost predicate StateOk(rs: seq<Rule>, st: State) {
    && |st.items| <= |rs|
    && (forall d :: d in st.items ==> ItemOk(rs, d))
    && CompleteOk(st.items, st.complete)
    && TerminalsOk(rs, st.items, st.T)
  }

  /** All nonterminals that some item has next are among those predicted. */
  ghost predicate Predicts(rs: seq<Rule>, items: seq<Dotted>, p: set<Symbol>) {
    forall x :: x in Nonterminals(rs) && HasNext(items, x) ==> x in p
  }

  ghost predicate CoreOk(rs: seq<Rule>, st: State, c: Core) {
    match c
    case Kernel(m) => m == multiset(st.items)
    case Predicted(p) =>
      && p <= Nonterminals(rs) && START !in p
      && (forall d :: d in st.items <==> PredictedItem(rs, p, d))
      && Predicts(rs, st.items, p)
  }

  ghost predicate EdgeOk(rs: seq<Rule>, m: Machine, e: Edge, target: Option<nat>)
    requires e.from < |m.states| && e.from in m.coreOf
  {
    match e.sym
    case Some(x) =>
      && HasNext(m.states[e.from].items, x)
      && (target.Some? ==> target.value in m.coreOf && m.coreOf[target.value] == Kernel(multiset(Advance(m.states[e.from].items, x))))
    case None =>
      && m.coreOf[e.from].Kernel? && PredictsSomething(rs, m.states[e.from].items)
      && target.Some? && target.value in m.coreOf && m.coreOf[target.value].Predicted?
      && Predicts(rs, m.states[e.from].items, m.coreOf[target.value].syms)
  }

  /** State s has an edge for every symbol it has next and, if it is a kernel state
      that predicts something, an edge to its nonkernel state; this last edge may
      still be missing from the state named pending. */
  ghost predicate EdgesFrom(rs: seq<Rule>, m: Machine, s: nat, pending: nat)
    requires s < |m.states| && s in m.coreOf
  {
    && (forall x :: HasNext(m.states[s].items, x) ==> Edge(s, Some(x)) in m.edges)
    && (s != pending && m.coreOf[s].Kernel? && PredictsSomething(rs, m.states[s].items) ==> Edge(s, None) in m.edges)
  }

  ghost predicate PredictsSomething(rs: seq<Rule>, items: seq<Dotted>) {
    exists x :: x in Nonterminals(rs) && HasNext(items, x)
  }

  ghost predicate CoresOk(m: Machine) {
    && |m.states| >= 1
    && (forall s :: s in m.coreOf <==> 1 <= s < |m.states|)
    && (forall c :: c in m.cores ==> m.cores[c] in m.coreOf && m.coreOf[m.cores[c]] == c)
    && (forall s :: s in m.coreOf ==> m.coreOf[s] in m.cores && m.cores[m.coreOf[s]] == s)
  }

  ghost predicate StatesOk(rs: seq<Rule>, m: Machine)
    requires CoresOk(m)
  {
    && (forall d :: d in m.states[0].items ==> d.rule in rs && d.rule.lhs == START && d.pos == 0)
    && |m.states[0].items| <= |rs|
    && (forall s {:trigger StateOk(rs, m.states[s])} :: s in m.coreOf ==> StateOk(rs, m.states[s]))
    && (forall s {:trigger CoreOk(rs, m.states[s], m.coreOf[s])} :: s in m.coreOf ==> CoreOk(rs, m.states[s], m.coreOf[s]))
  }

  ghost predicate EdgesOk(rs: seq<Rule>, m: Machine, pending: nat)
    requires CoresOk(m)
  {
    && (forall e :: e in m.edges ==> e.from in m.coreOf)
    && (forall e {:trigger EdgeOk(rs, m, e, m.edges[e])} :: e in m.edges ==> EdgeOk(rs, m, e, m.edges[e]))
    && (forall s {:trigger EdgesFrom(rs, m, s, pending)} :: s in m.coreOf ==> EdgesFrom(rs, m, s, pending))
  }

  ghost predicate MachineOkBut(rs: seq<Rule>, m: Machine, pending: nat) {
    CoresOk(m) && StatesOk(rs, m) && EdgesOk(rs, m, pending)
  }

  /** The invariant of the automaton; no state has number 0 among those with a core. */
  ghost predicate MachineOk(rs: seq<Rule>, m: Machine) {
    MachineOkBut(rs, m, 0)
  }

  /** m' has all of m: states, the edges between them, and every target found so far. */
  ghost predicate Extends(m: Machine, m': Machine) {
    && m.states <= m'.states
    && (forall s :: s in m.coreOf ==> s in m'.coreOf && m'.coreOf[s] == m.coreOf[s])
    && (forall e: Edge :: e.from < |m.states| ==> (e in m.edges <==> e in m'.edges))
    && (forall e :: e in m.edges && m.edges[e].Some? ==> e in m'.edges && m'.edges[e] == m.edges[e])
  }

  lemma ExtendsTransitive(a: Machine, b: Machine, c: Machine)
    requires Extends(a, b) && Extends(b, c)
    ensures Extends(a, c)
  {
    forall e: Edge | e.from < |a.states| ensures e in a.edges <==> e in c.edges {
      assert e in a.edges <==> e in b.edges;
    }
  }

  // ----- the number of states is bounded

  function Bags(dots: set<Dotted>, n: nat): set<multiset<Dotted>> {
    if n == 0 then {multiset{}}
    else Bags(dots, n - 1) + (set m, d | m in Bags(dots, n - 1) && d in dots :: m + multiset{d})
  }

  lemma {:induction false} BagsComplete(dots: set<Dotted>, n: nat, s: seq<Dotted>)
    requires |s| <= n && forall d :: d in s ==> d in dots
    ensures multiset(s) in Bags(dots, n)
  {
    if s == [] {
      if n > 0 { BagsComplete(dots, n - 1, s); }
    } else {
      var k := |s| - 1;
      BagsComplete(dots, n - 1, s[..k]);
      assert s == s[..k] + [s[k]];
      assert multiset(s) == multiset(s[..k]) + multiset{s[k]};
      assert s[k] in s;
    }
  }

  function AllDotted(rs: seq<Rule>): set<Dotted> {
    set r, p: nat | r in rs && p <= |r.rhs| :: Dotted(r, p)
  }

  function AllCores(rs: seq<Rule>): set<Core> {
    (set m | m in Bags(AllDotted(rs), |rs|) :: Kernel(m)) + (set p | p <= Nonterminals(rs) :: Predicted(p))
  }

  lemma CoreIsListed(rs: seq<Rule>, st: State, c: Core)
    requires StateOk(rs, st) && CoreOk(rs, st, c)
    ensures c in AllCores(rs)
  {
    match c
    case Kernel(m) =>
      forall d | d in st.items ensures d in AllDotted(rs) {
        assert ItemOk(rs, d);
      }
      BagsComplete(AllDotted(rs), |rs|, st.items);
    case Predicted(p) =>
  }

  lemma {:induction false} DistinctCores(m: Machine, n: nat)
    requires CoresOk(m) && 1 <= n <= |m.states|
    ensures |set s: nat | 1 <= s < n :: m.coreOf[s]| == n - 1
  {
    var cs := set s: nat | 1 <= s < n :: m.coreOf[s];
    if n > 1 {
      DistinctCores(m, n - 1);
      var ds := set s: nat | 1 <= s < n - 1 :: m.coreOf[s];
      assert cs == ds + {m.coreOf[n - 1]};
      forall s: nat | 1 <= s < n - 1 ensures m.coreOf[s] != m.coreOf[n - 1] {
        assert m.cores[m.coreOf[s]] == s;
      }
      assert m.coreOf[n - 1] !in ds;
    } else {
      assert cs == {};
    }
  }

  /** A bound on the number of states of any automaton for the rules. */
  function MaxStates(rs: seq<Rule>): nat { |AllCores(rs)| + 1 }

  lemma StatesBounded(rs: seq<Rule>, m: Machine)
    requires MachineOk(rs, m)
    ensures |m.states| <= MaxStates(rs)
  {
    var n := |m.states|;
    var cs := set s: nat | 1 <= s < n :: m.coreOf[s];
    DistinctCores(m, n);
    forall c | c in cs ensures c in AllCores(rs) {
      var s: nat :| 1 <= s < n && m.coreOf[s] == c;
      CoreIsListed(rs, m.states[s], c);
    }
    SubsetSize(cs, AllCores(rs));
  }

  lemma {:induction false} SubsetSize<A>(a: set<A>, b: set<A>)
    requires a <= b
    ensures |a| <= |b|
  {
    if a != {} {
      var x :| x in a;
      SubsetSize(a - {x}, b - {x});
    }
  }
}
