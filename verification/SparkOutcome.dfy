/** What parse answers for every grammar and input, and exactly when that is right. */
module ParseOutcome {
  import opened Common
  import opened Grammar
  import opened EpsilonRewrite
  import opened RewriteFacts
  import opened EarleyMachine
  import opened EarleySets
  import opened ParserRounds

  ghost predicate GrammarOk(rules: map<Symbol, seq<Rule>>, start: Symbol) {
    && start.Sym? && start != START && start != BOF
    && BOF !in rules
    && START in rules && rules[START] == [Rule(START, [BOF, start])]
    && (forall a :: a in rules ==> |rules[a]| > 0 && a.Sym?)
    && (forall a, r :: a in rules && r in rules[a] ==> r.lhs == a && AllSym(r.rhs))
    && (forall a, r :: a in rules && r in rules[a] && a != START ==> START !in r.rhs && BOF !in r.rhs)
  }

  ghost predicate HasNonemptyRule(rules: map<Symbol, seq<Rule>>, x: Symbol) {
    x in rules && exists r :: r in rules[x] && r.rhs != []
  }

  function Symbols(ts: seq<Token>): (w: Word)
    ensures |w| == |ts|
  {
    seq(|ts|, i requires 0 <= i < |ts| => ts[i].sym)
  }

  /** The tokens are derivable from the start symbol, and none of those without a type
      is named like a symbol with a nonempty rule. */
  ghost predicate InLanguage(rules: map<Symbol, seq<Rule>>, start: Symbol, ts: seq<Token>) {
    && (forall t :: t in ts && HasNonemptyRule(rules, t.sym) ==> t.typed)
    && Derives(RuleSet(rules), start, Symbols(ts))
  }

  /** What parse answers.  Warm says that an earlier run on the same rules did not crash. */
  ghost function Result(rules: map<Symbol, seq<Rule>>, start: Symbol, warm: bool, ts: seq<Token>): Outcome {
    if !HasNonemptyRule(rules, start) && !warm && Blind(start, ts) then Crashed
    else if !HasNonemptyRule(rules, start) && ts == [] then Accepted
    else if InLanguage(rules, start, ts) then Accepted
    else Rejected
  }

  ghost predicate Right(rules: map<Symbol, seq<Rule>>, start: Symbol, warm: bool, ts: seq<Token>) {
    Result(rules, start, warm, ts) == if InLanguage(rules, start, ts) then Accepted else Rejected
  }

  /** Exactly when parse answers what it should. */
  lemma RightExactly(rules: map<Symbol, seq<Rule>>, start: Symbol, warm: bool, ts: seq<Token>)
    requires GrammarOk(rules, start)
    ensures Right(rules, start, warm, ts) <==>
              HasNonemptyRule(rules, start) || (if warm then ts != [] || start in rules else !Blind(start, ts))
  {
    if ts == [] {
      assert Symbols(ts) == [];
      EmptyWord(rules, start);
    }
  }

  /** Without a nonempty rule the start symbol derives the empty word just when it has a rule. */
  lemma EmptyWord(rules: map<Symbol, seq<Rule>>, start: Symbol)
    requires GrammarOk(rules, start)
    ensures !HasNonemptyRule(rules, start) ==> (Derives(RuleSet(rules), start, []) <==> start in rules)
  {
    if !HasNonemptyRule(rules, start) {
      if start in rules {
        var r := rules[start][0];
        assert r in rules[start] && r in RuleSet(rules);
        NullableByRule(RuleSet(rules), r);
      }
    }
  }

  /** The rules a new parser has: its start symbol, and no rule for it. */
  function Augmented(start: Symbol): map<Symbol, seq<Rule>> {
    map[START := [Rule(START, [BOF, start])]]
  }

  /** The grammar with the one rule that its start symbol is empty: the first run on the
      empty input crashes, although the input is derivable. */
  lemma EmptyRuleCrashes(start: Symbol)
    requires start.Sym? && start != START && start != BOF
    ensures var rules := Augmented(start)[start := [Rule(start, [])]];
            GrammarOk(rules, start) && InLanguage(rules, start, []) && Result(rules, start, false, []) == Crashed
  {
    var rules := Augmented(start)[start := [Rule(start, [])]];
    assert GrammarOk(rules, start);
    assert Symbols([]) == [];
    EmptyWord(rules, start);
  }

  /** A start symbol without rules: once another input was parsed, the empty input is
      accepted, although it is not derivable. */
  lemma NoRuleAccepts(start: Symbol)
    requires start.Sym? && start != START && start != BOF
    ensures var rules := Augmented(start);
            GrammarOk(rules, start) && !InLanguage(rules, start, []) && Result(rules, start, true, []) == Accepted
  {
    var rules := Augmented(start);
    assert GrammarOk(rules, start);
    assert Symbols([]) == [];
    EmptyWord(rules, start);
  }

  /** Whether the automaton has its state 2 after these runs on the same rules. */
  ghost predicate WarmAfter(rules: map<Symbol, seq<Rule>>, start: Symbol, runs: seq<seq<Token>>) {
    runs != [] &&
      var n := |runs| - 1;
      Result(rules, start, WarmAfter(rules, start, runs[..n]), runs[n]) != Crashed
  }

  /** A run crashes exactly if the start symbol has no nonempty rule and every run so far,
      this one included, was blind. */
  lemma {:induction false} CrashesUntilSighted(rules: map<Symbol, seq<Rule>>, start: Symbol, runs: seq<seq<Token>>)
    ensures WarmAfter(rules, start, runs) <==>
              runs != [] && (HasNonemptyRule(rules, start) || exists k :: 0 <= k < |runs| && !Blind(start, runs[k]))
  {
    if runs != [] {
      var n := |runs| - 1;
      CrashesUntilSighted(rules, start, runs[..n]);
      if k :| 0 <= k < n && !Blind(start, runs[k]) {
        assert runs[..n][k] == runs[k];
      }
    }
  }

  // ----- what the rewriting gives the recogniser

  lemma RewrittenGrammar(rules: map<Symbol, seq<Rule>>, start: Symbol, n: set<Symbol>, rs: seq<Rule>)
    requires GrammarOk(rules, start) && ExactNullables(RuleSet(rules), n) && IsRewriting(RuleSet(rules), n, Elements(rs))
    ensures MarksDeriveEmpty(Elements(rs)) && StartNeverNext(Elements(rs)) && YieldsFollowMarks(Elements(rs))
    ensures Rule(START, [BOF, start]) in rs && START in Nonterminals(rs)
    ensures forall r :: r in rs && r.lhs == START ==> UnmarkRule(r) == Rule(START, [BOF, start])
  {
    var g, h := RuleSet(rules), Elements(rs);
    assert PlainRules(g);
    forall r, j | r in h && 0 <= j < |r.rhs| && r.rhs[j].Eps? ensures Derives(h, r.rhs[j], []) {
      assert HasSource(g, n, r);
      var r0 :| r0 in g && IsVariant(n, r0, r);
      MarkedSymbolsDeriveOnlyEmpty(g, n, h, Unmark(r.rhs[j]), []);
    }
    forall t | ValidTree(h, t) ensures Root(t).Eps? <==> Yield(t) == [] {
      YieldByMark(g, n, h, t);
    }
    forall r | r in h ensures START !in r.rhs && (r.lhs == START ==> UnmarkRule(r) == Rule(START, [BOF, start])) {
      assert HasSource(g, n, r);
      var r0 :| r0 in g && IsVariant(n, r0, r);
      assert UnmarkRule(r) == r0;
      forall j | 0 <= j < |r.rhs| ensures r.rhs[j] != START {
        assert Unmark(r.rhs[j]) == r0.rhs[j] && r0.rhs[j] in r0.rhs;
      }
    }
    var sr := Rule(START, [BOF, start]);
    assert sr in rules[START] && sr in g;
    assert UnmarkSeq(sr.rhs) == sr.rhs && !AllEps(sr.rhs) by { assert sr.rhs[0].Sym?; }
    assert IsVariant(n, sr, sr);
    assert HasSource(g, n, sr) && sr in h;
  }

  /** The plain symbols with rules left are those with a nonempty rule. */
  lemma RulesLeft(rules: map<Symbol, seq<Rule>>, start: Symbol, n: set<Symbol>, rs: seq<Rule>, x: Symbol)
    requires GrammarOk(rules, start) && IsRewriting(RuleSet(rules), n, Elements(rs)) && x.Sym?
    ensures x in Nonterminals(rs) <==> HasNonemptyRule(rules, x)
  {
    if HasNonemptyRule(rules, x) {
      var r :| r in rules[x] && r.rhs != [];
      assert r in RuleSet(rules);
      assert UnmarkSeq(r.rhs) == r.rhs && !AllEps(r.rhs) by { assert r.rhs[0].Sym?; }
      assert IsVariant(n, r, r) && HasSource(RuleSet(rules), n, r);
      assert r in Elements(rs);
    }
    if x in Nonterminals(rs) {
      var v :| v in rs && v.lhs == x;
      assert v in Elements(rs) && HasSource(RuleSet(rules), n, v);
      var r :| r in RuleSet(rules) && IsVariant(n, r, v);
      assert !AllEps(v.rhs) && |r.rhs| == |v.rhs|;
      var a :| a in rules && r in rules[a];
    }
  }

  /** State 1 predicts something just when the start symbol has a nonempty rule. */
  lemma BareExactly(rules: map<Symbol, seq<Rule>>, start: Symbol, n: set<Symbol>, rs: seq<Rule>, m: Machine)
    requires GrammarOk(rules, start) && IsRewriting(RuleSet(rules), n, Elements(rs))
    requires MachineOk(rs, m) && StartOk(rs, m, start)
    ensures Bare(m) <==> !HasNonemptyRule(rules, start)
  {
    RulesLeft(rules, start, n, rs, start);
    BareStart(rs, m, start);
    if !Bare(m) {
      assert EdgeOk(rs, m, Edge(1, None), m.edges[Edge(1, None)]);
      var x :| x in Nonterminals(rs) && HasNext(m.states[1].items, x);
      var e :| e in m.states[1].items && NextIs(e, x);
      FirstNext(rs, m, start, e);
    }
  }

  /** What the rewritten grammar derives, put in terms of the original one. */
  lemma StartLanguage(rules: map<Symbol, seq<Rule>>, start: Symbol, n: set<Symbol>, rs: seq<Rule>, w: Word)
    requires GrammarOk(rules, start) && ExactNullables(RuleSet(rules), n) && IsRewriting(RuleSet(rules), n, Elements(rs))
    ensures Derives(RuleSet(rules), start, w) <==> (start in n && w == []) || Derives(Elements(rs), start, w)
  {
    assert start in n <==> Nullable(RuleSet(rules), start);
    PlainSymbolsKeepNonemptyWords(RuleSet(rules), n, Elements(rs), start, w);
  }

  lemma {:induction false} StartNotInYield(h: set<Rule>, t: Tree)
    requires StartNeverNext(h) && ValidTree(h, t) && Root(t) != START
    ensures START !in Yield(t)
  {
    match t
    case Leaf(_) =>
    case Node(r, kids) =>
      StartNotInYields(h, kids);
  }

  lemma {:induction false} StartNotInYields(h: set<Rule>, f: Forest)
    requires StartNeverNext(h) && ValidForest(h, f) && START !in Roots(f)
    ensures START !in Yields(f)
  {
    match f
    case Nil =>
    case Cons(t, rest) =>
      assert Roots(f)[0] == Root(t) && Roots(f)[1..] == Roots(rest);
      StartNotInYield(h, t);
      StartNotInYields(h, rest);
  }

  /** The word as the scanner sees it is derivable just when the tokens are in the language. */
  lemma SeenLanguage(rules: map<Symbol, seq<Rule>>, start: Symbol, n: set<Symbol>, rs: seq<Rule>, ts: seq<Token>)
    requires GrammarOk(rules, start) && ExactNullables(RuleSet(rules), n) && IsRewriting(RuleSet(rules), n, Elements(rs))
    requires forall t :: t in ts ==> t.sym.Sym?
    ensures InLanguage(rules, start, ts) <==>
              (start in n && ts == []) || Derives(Elements(rs), start, SeenWord(Nonterminals(rs), ts))
  {
    var w := SeenWord(Nonterminals(rs), ts);
    StartLanguage(rules, start, n, rs, Symbols(ts));
    RewrittenGrammar(rules, start, n, rs);
    forall t | t in ts ensures t.sym in Nonterminals(rs) <==> HasNonemptyRule(rules, t.sym) {
      RulesLeft(rules, start, n, rs, t.sym);
    }
    if i :| 0 <= i < |ts| && !ts[i].typed && HasNonemptyRule(rules, ts[i].sym) {
      assert ts[i] in ts && w[i] == START && START in w;
      if Derives(Elements(rs), start, w) {
        var t :| TreeFor(Elements(rs), start, w, t);
        StartNotInYield(Elements(rs), t);
      }
    } else {
      assert w == Symbols(ts);
    }
  }

  /** The flags are the nullable symbols, and the rules emitted are the rewriting. */
  ghost predicate RewrittenTo(rules: map<Symbol, seq<Rule>>, start: Symbol, nullable: map<Symbol, bool>, emitted: seq<Rule>) {
    && nullable.Keys == rules.Keys
    && ExactNullables(RuleSet(rules), Flagged(nullable))
    && IsRewriting(RuleSet(rules), Flagged(nullable), Elements(emitted))
    && |Filter(emitted, START)| == (if start in Flagged(nullable) then 2 else 1)
  }

  /** The recogniser's outcome on the word as the scanner sees it is the one described. */
  lemma OutcomeIs(rules: map<Symbol, seq<Rule>>, start: Symbol, nullable: map<Symbol, bool>, rs: seq<Rule>, newrules: map<Symbol, seq<Rule>>,
                  m: Machine, warm: bool, ts: seq<Token>)
    requires GrammarOk(rules, start) && RewrittenTo(rules, start, nullable, rs) && Sane(rs, newrules, m, start)
    requires (forall t :: t in ts ==> t.sym.Sym?) && (Bare(m) ==> (warm <==> |m.states| > 2))
    ensures Result(rules, start, warm, ts) == SeenResult(rs, m, start, ts)
  {
    BareExactly(rules, start, Flagged(nullable), rs, m);
    SeenLanguage(rules, start, Flagged(nullable), rs, ts);
  }
}
