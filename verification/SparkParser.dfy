module SparkParser {
  import opened Common
  import opened Grammar
  import opened EpsilonRewrite
  import opened RewriteFacts
  import opened EarleyMachine
  import opened EarleySets
  import opened ParserRounds
  import opened ParseOutcome
  import opened StateExpansion

  class GenericParser {
    const start: Symbol
    var rules: map<Symbol, seq<Rule>>
    var nullable: map<Symbol, bool>
    var newrules: map<Symbol, seq<Rule>>
    var new2old: map<Rule, Rule>
    var states: seq<State>
    var edges: map<Edge, Option<nat>>
    var cores: map<Core, nat>
    var sets: seq<seq<Item>>
    var ruleschanged: bool
    ghost var emitted: seq<Rule>
    ghost var coreOf: map<nat, Core>

    ghost function M(): Machine
      reads `states, `edges, `cores, `coreOf
    {
      Machine(states, edges, cores, coreOf)
    }

    ghost predicate Ready()
      reads `emitted, `newrules, `states, `edges, `cores, `coreOf
    {
      Grouped(emitted, newrules) && StartNeverNext(Elements(emitted)) && MachineOk(emitted, M())
    }

    /** What parse builds the first time it runs on a set of rules. */
    ghost predicate Built()
      reads this
    {
      RewrittenTo(rules, start, nullable, emitted) && Context()
    }

    ghost predicate Valid()
      reads this
    {
      GrammarOk(rules, start) && (!ruleschanged ==> Built())
    }

    /** The automaton for the present rules has its state 2. */
    predicate Warm()
      reads `ruleschanged, `states
    {
      !ruleschanged && |states| > 2
    }

    constructor (start: Symbol)
      requires start.Sym? && start != START && start != BOF
      ensures Valid() && !Warm() && this.start == start && rules == Augmented(start)
    {
      this.start := start;
      rules := map[START := [Rule(START, [BOF, start])]];
      ruleschanged := true;
    }

    method AddRule(lhs: Symbol, rhs: seq<Symbol>)
      requires Valid() && lhs.Sym? && lhs != START && lhs != BOF && AllSym(rhs) && START !in rhs && BOF !in rhs
      modifies `rules, `ruleschanged
      ensures Valid() && RuleSet(rules) == old(RuleSet(rules)) + {Rule(lhs, rhs)}
      ensures lhs in rules && Rule(lhs, rhs) in rules[lhs] && !Warm()
    {
      hide RewrittenTo, Sane;
      ghost var before := rules;
      var rule := Rule(lhs, rhs);
      if lhs in rules {
        rules := rules[lhs := rules[lhs] + [rule]];
      } else {
        assert [] + [rule] == [rule];
        rules := rules[lhs := [rule]];
      }
      ruleschanged := true;
      RuleSetGrows(before, rules, rule);
    }

    /** The automaton is sound for the rewritten grammar. */
    ghost predicate Context()
      reads `emitted, `newrules, `states, `edges, `cores, `coreOf
    {
      Sane(emitted, newrules, M(), start)
    }

    ghost function Now(): Snapshot
      reads `emitted, `newrules, `states, `edges, `cores, `coreOf, `sets
    {
      Snapshot(emitted, newrules, M(), start, sets)
    }

    method ComputeNull()
      requires GrammarOk(rules, start)
      modifies `nullable
      ensures nullable.Keys == rules.Keys
      ensures ExactNullables(RuleSet(rules), Flagged(nullable))
    {
      ghost var g := RuleSet(rules);
      nullable := map[];
      var tbd: seq<Rule> := [];
      var todo := rules.Keys;
      while todo != {}
        invariant todo <= rules.Keys
        invariant nullable.Keys == rules.Keys - todo
        invariant SoundFlags(g, nullable) && OnlyNonterminals(rules, tbd)
        invariant forall a, r :: a in rules && a !in todo && r in rules[a] ==> Covered(rules.Keys, nullable, tbd, r)
      {
        var a :| a in todo;
        tbd := FirstLook(rules[a], tbd);
        todo := todo - {a};
      }
      CloseNullable(tbd);
    }

    /** One round of the first loop of computeNull: the rules of one nonterminal. */
    method FirstLook(rulelist: seq<Rule>, tbd0: seq<Rule>) returns (tbd: seq<Rule>)
      requires GrammarOk(rules, start)
      requires |rulelist| > 0 && rulelist[0].lhs in rules && rules[rulelist[0].lhs] == rulelist
      requires SoundFlags(RuleSet(rules), nullable) && OnlyNonterminals(rules, tbd0)
      requires rulelist[0].lhs !in nullable
      modifies `nullable
      ensures nullable.Keys == old(nullable.Keys) + {rulelist[0].lhs}
      ensures SoundFlags(RuleSet(rules), nullable) && OnlyNonterminals(rules, tbd)
      ensures forall r :: Covered(rules.Keys, old(nullable), tbd0, r) ==> Covered(rules.Keys, nullable, tbd, r)
      ensures forall r :: r in rulelist ==> Covered(rules.Keys, nullable, tbd, r)
    {
      tbd := tbd0;
      var lhs := rulelist[0].lhs;
      nullable := nullable[lhs := false];
      for j := 0 to |rulelist|
        invariant nullable.Keys == old(nullable.Keys) + {lhs}
        invariant SoundFlags(RuleSet(rules), nullable) && OnlyNonterminals(rules, tbd)
        invariant forall r :: Covered(rules.Keys, old(nullable), tbd0, r) ==> Covered(rules.Keys, nullable, tbd, r)
        invariant forall k :: 0 <= k < j ==> Covered(rules.Keys, nullable, tbd, rulelist[k])
      {
        var rule := rulelist[j];
        assert rule in rules[lhs] && rule.lhs == lhs;
        if |rule.rhs| == 0 {
          NullableByRule(RuleSet(rules), rule);
          nullable := nullable[lhs := true];
        } else {
          var all := AllNonterminals(rule.rhs);
          if all {
            tbd := tbd + [rule];
          }
        }
      }
    }

    /** The second half of computeNull: pass over the remaining rules until a pass changes nothing. */
    method CloseNullable(tbd: seq<Rule>)
      requires GrammarOk(rules, start) && nullable.Keys == rules.Keys
      requires SoundFlags(RuleSet(rules), nullable) && OnlyNonterminals(rules, tbd)
      requires forall a, r :: a in rules && r in rules[a] ==> Covered(rules.Keys, nullable, tbd, r)
      modifies `nullable
      ensures nullable.Keys == rules.Keys
      ensures ExactNullables(RuleSet(rules), Flagged(nullable))
    {
      ghost var g := RuleSet(rules);
      var changes := true;
      while changes
        invariant nullable.Keys == rules.Keys && SoundFlags(g, nullable) && FlagsGrow(old(nullable), nullable)
        invariant !changes ==> forall r :: r in tbd ==> ClosedUnder(Flagged(nullable), r)
        decreases rules.Keys - Flagged(nullable), changes
      {
        changes := NullablePass(tbd);
      }
      forall r | r in g ensures ClosedUnder(Flagged(nullable), r) {
        assert Covered(rules.Keys, old(nullable), tbd, r);
      }
      ClosedIsExact(g, Flagged(nullable));
    }

    /** The for-else loops of computeNull over one right-hand side. */
    method AllNonterminals(rhs: seq<Symbol>) returns (all: bool)
      ensures all <==> forall i :: 0 <= i < |rhs| ==> rhs[i] in rules
    {
      for i := 0 to |rhs|
        invariant forall k :: 0 <= k < i ==> rhs[k] in rules
      {
        if rhs[i] !in rules { return false; }
      }
      return true;
    }

    method AllNullable(rhs: seq<Symbol>) returns (all: bool)
      requires forall i :: 0 <= i < |rhs| ==> rhs[i] in nullable
      ensures all <==> forall i :: 0 <= i < |rhs| ==> rhs[i] in Flagged(nullable)
    {
      for i := 0 to |rhs|
        invariant forall k :: 0 <= k < i ==> rhs[k] in Flagged(nullable)
      {
        if !nullable[rhs[i]] { return false; }
      }
      return true;
    }

    method NullablePass(tbd: seq<Rule>) returns (changes: bool)
      requires GrammarOk(rules, start) && nullable.Keys == rules.Keys
      requires SoundFlags(RuleSet(rules), nullable) && OnlyNonterminals(rules, tbd)
      modifies `nullable
      ensures nullable.Keys == rules.Keys
      ensures SoundFlags(RuleSet(rules), nullable) && FlagsGrow(old(nullable), nullable)
      ensures changes ==> Flagged(old(nullable)) < Flagged(nullable)
      ensures !changes ==> nullable == old(nullable) && forall r :: r in tbd ==> ClosedUnder(Flagged(nullable), r)
    {
      changes := false;
      for j := 0 to |tbd|
        invariant nullable.Keys == rules.Keys
        invariant SoundFlags(RuleSet(rules), nullable) && FlagsGrow(old(nullable), nullable)
        invariant changes ==> exists a :: a in rules && nullable[a] && !old(nullable)[a]
        invariant !changes ==> nullable == old(nullable)
        invariant !changes ==> forall k :: 0 <= k < j ==> ClosedUnder(Flagged(nullable), tbd[k])
      {
        var rule := tbd[j];
        if !nullable[rule.lhs] {
          var all := AllNullable(rule.rhs);
          if all {
            NullableByRule(RuleSet(rules), rule);
            nullable := nullable[rule.lhs := true];
            changes := true;
          }
        }
      }
      if changes {
        ghost var a :| a in rules && nullable[a] && !old(nullable)[a];
        assert a in Flagged(nullable) && a !in Flagged(old(nullable));
      }
    }

    /** The worklist makeNewRules starts from: every rule, nothing treated yet. */
    method InitialWorklist() returns (worklist: seq<Entry>)
      requires GrammarOk(rules, start) && nullable.Keys == rules.Keys
      ensures EntriesOk(worklist)
      ensures forall v :: v in Pending(Flagged(nullable), worklist) <==>
                          HasSource(RuleSet(rules), Flagged(nullable), v)
      ensures |Filter(Pending(Flagged(nullable), worklist), START)| == (if start in Flagged(nullable) then 2 else 1)
    {
      hide GrammarOk, HasSource, Pending, Filter;
      worklist := [];
      ghost var n := Flagged(nullable);
      var todo := rules.Keys;
      FiledRules(rules, start);
      NothingPending(n, START);
      while todo != {}
        invariant todo <= rules.Keys
        invariant AllFresh(worklist)
        invariant forall r :: r in Sources(worklist) <==> r.lhs in rules && r.lhs !in todo && r in rules[r.lhs]
        invariant |Filter(Pending(n, worklist), START)| == (if START in todo then 0 else if start in n then 2 else 1)
      {
        var a :| a in todo;
        worklist := AddFresh(worklist, rules[a], n);
        todo := todo - {a};
      }
      FreshIsAll(rules, n, worklist);
    }

    method AddFresh(worklist0: seq<Entry>, rulelist: seq<Rule>, ghost n: set<Symbol>) returns (worklist: seq<Entry>)
      requires GrammarOk(rules, start) && n <= rules.Keys
      requires |rulelist| > 0 && rulelist[0].lhs in rules && rules[rulelist[0].lhs] == rulelist
      requires AllFresh(worklist0)
      ensures AllFresh(worklist) && Sources(worklist) == Sources(worklist0) + Elements(rulelist)
      ensures |Filter(Pending(n, worklist), START)| == |Filter(Pending(n, worklist0), START)| +
                (if rulelist[0].lhs == START then if start in n then 2 else 1 else 0)
    {
      hide GrammarOk, Pending, Filter;
      FiledRules(rules, start);
      worklist := worklist0;
      for j := 0 to |rulelist|
        invariant AllFresh(worklist)
        invariant Sources(worklist) == Sources(worklist0) + Elements(rulelist[..j])
        invariant |Filter(Pending(n, worklist), START)| == |Filter(Pending(n, worklist0), START)| +
                    (if rulelist[0].lhs == START && j > 0 then if start in n then 2 else 1 else 0)
      {
        var e: Entry := Task(rulelist[j], 0, true, rulelist[j]);
        EntryStartCount(rules, start, n, rulelist[j]);
        AddFreshEntry(n, worklist, e, START);
        assert Elements(rulelist[..j + 1]) == Elements(rulelist[..j]) + {rulelist[j]};
        worklist := worklist + [e];
      }
      assert rulelist[..|rulelist|] == rulelist;
    }

    /** One entry of the rewriting worklist: queue a copy for every nullable symbol
        it can mark; what is left is the rule to emit. */
    method QueueCopies(worklist0: seq<Entry>, idx: nat, ghost n: set<Symbol>) returns (worklist: seq<Entry>, rule: Rule)
      requires nullable.Keys == rules.Keys && n == Flagged(nullable)
      requires idx < |worklist0| && EntriesOk(worklist0)
      ensures worklist0 <= worklist && EntriesOk(worklist)
      ensures multiset{rule} + multiset(Pending(n, worklist[idx + 1..])) == multiset(Pending(n, worklist0[idx..]))
      ensures UnmarkRule(rule) == worklist0[idx].oldrule
    {
      worklist := worklist0;
      var e := worklist[idx];
      ghost var total := multiset(Pending(n, worklist0[idx..]));
      QueueingStarts(n, worklist0, idx);
      while e.i < |e.rule.rhs|
        invariant Queueing(n, worklist0, idx, worklist, e, total)
        decreases |e.rule.rhs| - e.i
      {
        var sym := e.rule.rhs[e.i];
        QueueingNext(n, worklist0, idx, worklist, e, total);
        if sym in rules && nullable[sym] {
          worklist := worklist + [Copy(e)];
        }
        e := Keep(e);
      }
      QueueingEnds(n, worklist0, idx, worklist, e, total);
      rule := if e.candidate then Rule(Mark(e.rule.lhs), e.rule.rhs) else e.rule;
    }

    method Emit(rule: Rule, oldrule: Rule)
      requires Emitted(emitted, newrules, new2old) && UnmarkRule(rule) == oldrule
      modifies `newrules, `new2old, `emitted
      ensures Emitted(emitted, newrules, new2old) && emitted == old(emitted) + [rule]
    {
      EmittedSnoc(emitted, newrules, new2old, rule);
      newrules := AddRuleTo(newrules, rule);
      new2old := new2old[rule := oldrule];
      emitted := emitted + [rule];
    }

    method MakeNewRules()
      requires GrammarOk(rules, start)
      requires nullable.Keys == rules.Keys && newrules == map[] && new2old == map[]
      modifies `newrules, `new2old, `emitted
      ensures Emitted(emitted, newrules, new2old)
      ensures IsRewriting(RuleSet(rules), Flagged(nullable), Elements(emitted))
      ensures |Filter(emitted, START)| == (if start in Flagged(nullable) then 2 else 1)
    {
      hide GrammarOk, Emitted, IsRewriting;
      emitted := [];
      NothingEmitted();
      ghost var n := Flagged(nullable);
      var worklist := InitialWorklist();
      ghost var total := Pending(n, worklist);
      assert worklist[0..] == worklist;
      var idx := 0;
      while idx < |worklist|
        invariant idx <= |worklist| && EntriesOk(worklist)
        invariant Emitted(emitted, newrules, new2old)
        invariant AllTogether(n, emitted, worklist[idx..], total)
        decreases |total| - |emitted|
      {
        var oldrule := worklist[idx].oldrule;
        ghost var ws := worklist[idx..];
        var rule;
        worklist, rule := QueueCopies(worklist, idx, n);
        idx := idx + 1;
        EmitStep(n, emitted, ws, rule, worklist[idx..], total);
        Emit(rule, oldrule);
      }
      AllEmitted(RuleSet(rules), n, emitted, total, START);
    }

    method Skip(rule: Rule, pos0: nat) returns (pos: nat)
      requires pos0 <= |rule.rhs|
      ensures pos == SkipTo(rule, pos0)
    {
      pos := pos0;
      while pos < |rule.rhs| && rule.rhs[pos].Eps?
        invariant pos <= |rule.rhs| && SkipTo(rule, pos0) == SkipTo(rule, pos)
      {
        pos := pos + 1;
      }
    }

    /** The items of every rule for a newly predicted symbol. */
    method Predict(prules: seq<Rule>, nk0: seq<Dotted>) returns (nk: seq<Dotted>)
      ensures |nk| == |nk0| + |prules| && nk[..|nk0|] == nk0
      ensures forall i :: 0 <= i < |prules| ==> nk[|nk0| + i] == Dotted(prules[i], SkipTo(prules[i], 0))
    {
      nk := nk0;
      for i := 0 to |prules|
        invariant |nk| == |nk0| + i && nk[..|nk0|] == nk0
        invariant forall j :: 0 <= j < i ==> nk[|nk0| + j] == Dotted(prules[j], SkipTo(prules[j], 0))
      {
        var ppos := Skip(prules[i], 0);
        nk := nk + [Dotted(prules[i], ppos)];
      }
    }

    /** The body of makeState's loop, for one item of state x. */
    method ExpandItem(x: nat, d: Dotted, ghost done: seq<Dotted>, ghost edges0: map<Edge, Option<nat>>, c0: Collected)
      returns (c: Collected)
      requires Grouped(emitted, newrules) && StartNeverNext(Elements(emitted)) && ItemOk(emitted, d)
      requires CollectedOk(emitted, x, done, edges0, c0)
      ensures CollectedOk(emitted, x, done + [d], edges0, c)
      ensures c0.predicted <= c.predicted && c0.nk <= c.nk && |c.nk| <= |emitted|
      ensures c.nk == c0.nk || (d.pos < |d.rule.rhs| && d.rule.rhs[d.pos] in Nonterminals(emitted))
    {
      c := c0;
      CompleteSnoc(done, c.complete, d);
      FreshEdgesSnoc(x, done, edges0, c.edges, d);
      TerminalsSnoc(emitted, done, c.T, d);
      PredictsSnoc(emitted, done, c.predicted, d);
      if d.pos == |d.rule.rhs| {
        return c.(complete := c.complete + [d.rule]);
      }
      var nextSym := d.rule.rhs[d.pos];
      var key := Edge(x, Some(nextSym));
      GroupedKeys(emitted, newrules, nextSym);
      if nextSym !in newrules {
        if key !in c.edges {
          c := c.(edges := c.edges[key := None], T := c.T + [nextSym]);
        }
      } else {
        c := c.(edges := c.edges[key := None]);
        if nextSym !in c.predicted {
          var nk := Predict(newrules[nextSym], c.nk);
          PredictedMore(emitted, c.predicted, c.nk, nextSym, nk[|c.nk|..]);
          assert nk == c.nk + nk[|c.nk|..];
          c := c.(predicted := c.predicted + {nextSym}, nk := nk);
        }
      }
    }

    /** The loop of makeState over the items of the kernel state. */
    method ExpandKernel(x: nat, kitems: seq<Dotted>, c0: Collected) returns (c: Collected)
      requires Grouped(emitted, newrules) && StartNeverNext(Elements(emitted))
      requires forall d :: d in kitems ==> ItemOk(emitted, d)
      requires CollectedOk(emitted, x, [], c0.edges, c0) && c0.nk == []
      ensures CollectedOk(emitted, x, kitems, c0.edges, c)
      ensures c.nk != [] ==> PredictsSomething(emitted, kitems)
    {
      c := c0;
      for i := 0 to |kitems|
        invariant CollectedOk(emitted, x, kitems[..i], c0.edges, c)
        invariant c.nk != [] ==> PredictsSomething(emitted, kitems[..i])
      {
        c := ExpandItem(x, kitems[i], kitems[..i], c0.edges, c);
        assert kitems[..i + 1] == kitems[..i] + [kitems[i]];
        if c.nk != [] { PredictsSomethingSnoc(emitted, kitems[..i], kitems[i]); }
      }
      assert kitems[..|kitems|] == kitems;
    }

    /** The same loop over the items of the nonkernel state, to which it adds. */
    method ExpandNonkernel(x: nat, c0: Collected) returns (c: Collected)
      requires Grouped(emitted, newrules) && StartNeverNext(Elements(emitted))
      requires CollectedOk(emitted, x, [], c0.edges, c0)
      ensures CollectedOk(emitted, x, c.nk, c0.edges, c)
      ensures c0.predicted <= c.predicted && (c0.nk == [] ==> c == c0)
    {
      hide Grouped, StartNeverNext, CollectedOk, ItemOk;
      c := c0;
      CollectedItems(emitted, x, [], c0.edges, c0);
      var i := 0;
      while i < |c.nk|
        invariant i <= |c.nk| <= |emitted|
        invariant CollectedOk(emitted, x, c.nk[..i], c0.edges, c)
        invariant c0.predicted <= c.predicted && (c0.nk == [] ==> c == c0)
        decreases |emitted| - i
      {
        ghost var nk0 := c.nk;
        CollectedItems(emitted, x, c.nk[..i], c0.edges, c);
        c := ExpandItem(x, c.nk[i], nk0[..i], c0.edges, c);
        assert c.nk[..i + 1] == nk0[..i] + [nk0[i]];
        i := i + 1;
      }
      assert c.nk[..i] == c.nk;
    }

    /** The items of the kernel state reached from a state over sym. */
    method KernelItems(items: seq<Dotted>, sym: Symbol) returns (kitems: seq<Dotted>)
      ensures kitems == Advance(items, sym)
    {
      kitems := [];
      for i := 0 to |items|
        invariant kitems == Advance(items[..i], sym)
      {
        assert items[..i + 1][..i] == items[..i];
        if items[i].pos < |items[i].rule.rhs| && items[i].rule.rhs[items[i].pos] == sym {
          var pos := Skip(items[i].rule, items[i].pos + 1);
          kitems := kitems + [Dotted(items[i].rule, pos)];
        }
      }
      assert items[..|items|] == items;
    }

    /** The second half of makeState: the nonkernel state that goes with kernel state k. */
    method AddNonkernel(k: nat, predicted: set<Symbol>, nk: seq<Dotted>)
      requires Grouped(emitted, newrules) && StartNeverNext(Elements(emitted))
      requires MachineOkBut(emitted, M(), k) && k + 1 == |states| && k in coreOf && coreOf[k].Kernel?
      requires Edge(k, None) !in edges
      requires NonkernelItems(emitted, predicted, nk) && Predicts(emitted, states[k].items, predicted)
      requires nk != [] ==> PredictsSomething(emitted, states[k].items)
      modifies `states, `edges, `cores, `coreOf
      ensures Ready() && ExtendsBut(old(M()), M(), k)
      ensures NonkernelTarget(old(M()), M(), k)
      ensures Edge(k, None) !in edges ==> |states| == |old(states)|
    {
      hide StatesOk, EdgesOk, Grouped, StartNeverNext, CollectedOk;
      ghost var m := M();
      StartCollecting(emitted, k + 1, map[], predicted, nk);
      var c := ExpandNonkernel(k + 1, Collected([], [], map[], predicted, nk));
      if c.nk == [] {
        CollectedItems(emitted, k + 1, [], map[], c);
        NoItemsNothingPredicted(emitted, c.predicted, states[k].items);
        NothingPredicted(emitted, m, k);
      } else {
        CommitNonkernel(k, c);
      }
    }

    method CommitNonkernel(k: nat, c: Collected)
      requires Grouped(emitted, newrules) && StartNeverNext(Elements(emitted))
      requires MachineOkBut(emitted, M(), k) && k + 1 == |states| && k in coreOf && coreOf[k].Kernel?
      requires Edge(k, None) !in edges
      requires CollectedOk(emitted, k + 1, c.nk, map[], c) && Predicts(emitted, states[k].items, c.predicted)
      requires PredictsSomething(emitted, states[k].items)
      modifies `states, `edges, `cores, `coreOf
      ensures Ready() && ExtendsBut(old(M()), M(), k)
      ensures NonkernelTarget(old(M()), M(), k) && Edge(k, None) in edges
    {
      hide StatesOk, EdgesOk, Grouped, StartNeverNext, CollectedOk, Predicts, PredictsSomething;
      ghost var m := M();
      var tcore := Predicted(c.predicted);
      if tcore in cores {
        OldNonkernel(emitted, m, k, cores[tcore], c.predicted);
        edges := edges[Edge(k, None) := Some(cores[tcore])];
        assert M() == WithNonkernel(m, k, cores[tcore]);
        return;
      }
      var NK := State(c.nk, c.T, c.complete);
      NewNonkernel(emitted, m, k, c, NK);
      cores := cores[tcore := k + 1];
      edges := edges[Edge(k, None) := Some(k + 1)] + c.edges;
      states := states + [NK];
      coreOf := coreOf[k + 1 := tcore];
      assert M() == WithBoth(m, k, c, NK);
    }

    /** The state reached from a state over sym: found by its core, or built together
        with its nonkernel state. */
    method MakeState(state: nat, sym: Symbol) returns (k: nat)
      requires Ready() && state < |states|
      modifies `states, `edges, `cores, `coreOf
      ensures Ready() && Extends(old(M()), M()) && KeepsEdges(old(M()), M())
      ensures k in coreOf && coreOf[k] == Kernel(multiset(Advance(states[state].items, sym)))
      ensures Kernel(multiset(Advance(states[state].items, sym))) !in old(cores) ==>
                k == |old(states)| && NonkernelTarget(old(M()), M(), k) && (Edge(k, None) !in edges ==> |states| == k + 1)
    {
      var kitems := KernelItems(states[state].items, sym);
      var tcore := Kernel(multiset(kitems));
      if tcore in cores {
        return cores[tcore];
      }
      SourceItems(emitted, M(), state);
      KernelItemsOk(emitted, states[state].items, sym);
      k := AddKernel(kitems);
    }

    /** The part of makeState that builds a new kernel state and its nonkernel state. */
    method AddKernel(kitems: seq<Dotted>) returns (k: nat)
      requires Ready() && |kitems| <= |emitted| && (forall d :: d in kitems ==> ItemOk(emitted, d))
      requires Kernel(multiset(kitems)) !in cores
      modifies `states, `edges, `cores, `coreOf
      ensures Ready() && Extends(old(M()), M()) && KeepsEdges(old(M()), M())
      ensures k in coreOf && coreOf[k] == Kernel(multiset(kitems)) && k == |old(states)|
      ensures NonkernelTarget(old(M()), M(), k) && (Edge(k, None) !in edges ==> |states| == k + 1)
    {
      k := |states|;
      ghost var m := M();
      var c := CommitKernel(kitems);
      ghost var m' := M();
      AddNonkernel(k, c.predicted, c.nk);
      ExtendsThroughKernel(m, m', M());
    }

    method CommitKernel(kitems: seq<Dotted>) returns (c: Collected)
      requires Ready() && |kitems| <= |emitted| && (forall d :: d in kitems ==> ItemOk(emitted, d))
      requires Kernel(multiset(kitems)) !in cores
      modifies `states, `edges, `cores, `coreOf
      ensures MachineOkBut(emitted, M(), |old(states)|) && Extends(old(M()), M()) && KeepsEdges(old(M()), M())
      ensures states == old(states) + [State(kitems, c.T, c.complete)] && Edge(|old(states)|, None) !in edges
      ensures coreOf == old(coreOf)[|old(states)| := Kernel(multiset(kitems))]
      ensures NonkernelItems(emitted, c.predicted, c.nk) && Predicts(emitted, kitems, c.predicted)
      ensures c.nk != [] ==> PredictsSomething(emitted, kitems)
    {
      var k := |states|;
      ghost var m := M();
      StartCollecting(emitted, k, edges, {}, []);
      c := ExpandKernel(k, kitems, Collected([], [], edges, {}, []));
      var K := State(kitems, c.T, c.complete);
      NewKernel(emitted, m, kitems, c, K);
      cores, states, edges := cores[Kernel(multiset(kitems)) := k], states + [K], c.edges;
      coreOf := coreOf[k := Kernel(multiset(kitems))];
      assert M() == WithState(m, K, Kernel(multiset(kitems)), c.edges);
    }

    method Goto(state: nat, sym: Option<Symbol>) returns (rv: Option<nat>)
      requires Context()
      modifies `states, `edges, `cores, `coreOf
      ensures Context() && Extends(old(M()), M())
      ensures Edge(state, sym) in old(edges) ==> rv.Some? && Edge(state, sym) in edges && edges[Edge(state, sym)] == rv
      ensures Edge(state, sym) !in old(edges) ==> rv == None
      ensures Edge(state, sym) !in old(edges) || sym.None? ==> M() == old(M())
    {
      var key := Edge(state, sym);
      if key !in edges {
        return None;
      }
      assert EdgeOk(emitted, M(), key, edges[key]);
      rv := edges[key];
      if rv.None? {
        var k := Resolve(state, sym.value);
        rv := Some(k);
      }
    }

    method Resolve(state: nat, sym: Symbol) returns (k: nat)
      requires Context() && state < |states| && Edge(state, Some(sym)) in edges && edges[Edge(state, Some(sym))] == None
      modifies `states, `edges, `cores, `coreOf
      ensures Context() && Extends(old(M()), M())
      ensures Edge(state, Some(sym)) in edges && edges[Edge(state, Some(sym))] == Some(k)
    {
      hide StatesOk, Grouped, MarksDeriveEmpty, YieldsFollowMarks, StumpOk;
      ghost var m := M();
      k := MakeState(state, sym);
      ghost var m' := M();
      SetTarget(emitted, m', Edge(state, Some(sym)), k);
      edges := edges[Edge(state, Some(sym)) := Some(k)];
      assert M() == WithTarget(m', Edge(state, Some(sym)), k);
      ExtendsTransitive(m, m', M());
      StartExtends(emitted, m, M(), start);
      StumpStep(emitted, m, M(), Edge(state, Some(sym)), k, start);
    }

    method GotoT(state: nat, t: Symbol) returns (rv: seq<Option<nat>>)
      requires Context()
      modifies `states, `edges, `cores, `coreOf
      ensures Context() && Extends(old(M()), M()) && Targets(M(), Edge(state, Some(t)), rv)
      ensures Edge(state, Some(t)) !in old(edges) ==> M() == old(M())
    {
      var k := Goto(state, Some(t));
      rv := [k];
    }

    /** For a token without a type: it is compared with the terminals the state has next.  At
        the end of the input there is no token, and no terminal equals it. */
    method GotoST(state: nat, st: Option<Symbol>) returns (rv: seq<Option<nat>>)
      requires Context() && 1 <= state < |states|
      modifies `states, `edges, `cores, `coreOf
      ensures Context() && Extends(old(M()), M())
      ensures if st.Some? && st.value !in Nonterminals(emitted) then Targets(M(), Edge(state, st), rv) else rv == []
      ensures st.None? || Edge(state, st) !in old(edges) ==> M() == old(M())
    {
      hide StatesOk, EdgesOk, Grouped, MarksDeriveEmpty, YieldsFollowMarks, StartOk, StumpOk;
      rv := [];
      ghost var m := M();
      var ts := states[state].T;
      for a := 0 to |ts|
        invariant Context() && Comparing(m, M(), Edge(state, st), ts[..a], rv)
      {
        ghost var m' := M();
        assert ts[..a + 1] == ts[..a] + [ts[a]];
        if st == Some(ts[a]) {
          TerminalEdge(emitted, m, state, ts[a]);
          var k := Goto(state, Some(ts[a]));
          ComparingNext(m, m', M(), Edge(state, st), ts[..a], rv, ts[a]);
          rv := rv + [k];
        } else {
          ComparingNext(m, m', m', Edge(state, st), ts[..a], rv, ts[a]);
        }
      }
      assert ts[..|ts|] == ts;
      MatchedTargets(emitted, m, M(), state, st, rv);
    }

    method Add(j: nat, item: Item)
      requires j < |sets|
      modifies `sets
      ensures sets == AddTo(old(sets), j, item)
    {
      if item !in sets[j] {
        sets := sets[j := sets[j] + [item]];
      }
    }

    /** Adding a kernel item to a set, and the nonkernel item that goes with it. */
    method AddReached(k: nat, parent: nat, j: nat, ghost w: Word, ghost i: nat)
      requires Fit(Now(), w, i) && (j == i || j == i + 1) && 0 < j <= |w|
      requires ItemSound(Elements(emitted), M(), w, Item(k, parent), j)
      modifies `states, `edges, `cores, `coreOf, `sets
      ensures M() == old(M()) && Round(old(Now()), Now(), w, i)
      ensures Present(M(), LiveSets(Now()), j, k, parent)
    {
      hide Sane, SetsOk;
      AddRound(Now(), w, i, j, k, parent);
      Add(j, Item(k, parent));
      var nk := Goto(k, None);
      if nk.Some? {
        Add(j, Item(nk.value, j));
      }
      assert sets == AddBoth(old(M()), old(sets), j, k, parent);
    }

    /** Following the edge on sym from item p of set a, when sym derives the tokens up to j. */
    method Follow(p: Item, a: nat, sym: Symbol, j: nat, ghost w: Word, ghost i: nat)
      requires Fit(Now(), w, i) && (j == i || j == i + 1) && a <= i && a <= j <= |w| && 0 < j && p in sets[a]
      requires Edge(p.state, Some(sym)) in edges ==> Derives(Elements(emitted), sym, w[a..j])
      modifies `states, `edges, `cores, `coreOf, `sets
      ensures Round(old(Now()), Now(), w, i)
      ensures Reached(M(), LiveSets(Now()), Edge(p.state, Some(sym)), j, p.parent)
    {
      hide Sane, SetsOk;
      ghost var s := Now();
      var k := Goto(p.state, Some(sym));
      ghost var s' := Now();
      RoundStarts(s, s'.m, w, i);
      if k.Some? {
        FollowSound(s, s'.m, w, i, p, a, sym, k.value, j);
        AddReached(k.value, p.parent, j, w, i);
        RoundTransitive(s, s', Now(), w, i);
      }
    }

    /** The completer for one completed rule: follow the left-hand side from every item of the parent set. */
    method CompleteRule(item: Item, rule: Rule, ghost w: Word, i: nat)
      requires Fit(Now(), w, i) && item in LiveSets(Now())[i] && item.parent < i
      requires item.state < |states| && rule in states[item.state].complete
      modifies `states, `edges, `cores, `coreOf, `sets
      ensures Round(old(Now()), Now(), w, i)
      ensures RuleCompleted(M(), LiveSets(Now()), i, item.parent, rule)
    {
      hide Sane, SetsOk;
      ghost var s := Now();
      CompletionSound(s, w, i, item);
      var pitems := sets[item.parent];
      RoundStarts(s, s.m, w, i);
      for b := 0 to |pitems|
        invariant Round(s, Now(), w, i) && sets[item.parent] == pitems
        invariant ReachedFirst(M(), LiveSets(Now()), pitems, b, rule.lhs, i)
      {
        ghost var s' := Now();
        FollowNext(pitems, b, item.parent, rule.lhs, w, i);
        RoundTransitive(s, s', Now(), w, i);
      }
      RuleDone(Now(), w, i, item.parent, rule);
    }

    /** The same for one item of the parent set, after those before it. */
    method FollowNext(pitems: seq<Item>, b: nat, parent: nat, sym: Symbol, ghost w: Word, i: nat)
      requires Fit(Now(), w, i) && parent < i <= |w| && sets[parent] == pitems && b < |pitems|
      requires sym != START ==> Derives(Elements(emitted), sym, w[parent..i])
      requires ReachedFirst(M(), LiveSets(Now()), pitems, b, sym, i)
      modifies `states, `edges, `cores, `coreOf, `sets
      ensures Round(old(Now()), Now(), w, i)
      ensures sets[parent] == pitems && ReachedFirst(M(), LiveSets(Now()), pitems, b + 1, sym, i)
    {
      hide Sane, SetsOk;
      ghost var s := Now();
      if sym == START {
        NothingOnStart(s, w, i, pitems[b].state);
      }
      Follow(pitems[b], parent, sym, i, w, i);
      FollowedNext(s, Now(), w, i, pitems, b, parent, sym);
    }

    method Complete(item: Item, ghost w: Word, i: nat)
      requires Fit(Now(), w, i) && item in LiveSets(Now())[i] && item.parent < i
      modifies `states, `edges, `cores, `coreOf, `sets
      ensures Round(old(Now()), Now(), w, i)
      ensures Completed(M(), LiveSets(Now()), i, item)
    {
      hide Sane, SetsOk;
      ghost var s := Now();
      CompletionSound(s, w, i, item);
      RoundStarts(s, s.m, w, i);
      var complete := states[item.state].complete;
      for a := 0 to |complete|
        invariant Round(s, Now(), w, i) && item in LiveSets(Now())[i]
        invariant CompletedFirst(M(), LiveSets(Now()), i, item.parent, complete, a)
      {
        ghost var s' := Now();
        CompleteRule(item, complete[a], w, i);
        CompletedNext(s', Now(), w, i, item, complete, a);
        RoundTransitive(s, s', Now(), w, i);
      }
    }

    /** The scanner for one item: follow the edge on the token, if there is a token.  A token
        without a type, or none, needs the terminals of the item's state, and with no such
        state the lookup fails. */
    method Scan(item: Item, token: Option<Token>, ghost w: Word, i: nat) returns (crashed: bool)
      requires Fit(Now(), w, i) && item in sets[i] && TokenAt(emitted, token, w, i)
      modifies `states, `edges, `cores, `coreOf, `sets
      ensures Round(old(Now()), Now(), w, i)
      ensures crashed <==> Untyped(token) && item.state >= |old(states)|
      ensures !crashed ==> Scanned(M(), w, LiveSets(Now()), i, item)
      ensures crashed || token.None? || Edge(item.state, Some(token.value.sym)) !in old(edges) ==> M() == old(M())
    {
      hide Sane, SetsOk;
      ghost var s := Now();
      ItemState(s, w, i, i, item);
      RoundStarts(s, s.m, w, i);
      if Untyped(token) && item.state >= |states| {
        return true;
      }
      crashed := false;
      var add := Look(token, item.state);
      ghost var s' := Now();
      ScanStarts(s, s'.m, w, i, item, token, add);
      AddScanned(add, item, w, i);
      RoundTransitive(s, s', Now(), w, i);
    }

    /** The scanner's choice between tokens with and without a type. */
    method Look(token: Option<Token>, state: nat) returns (add: seq<Option<nat>>)
      requires Context() && 1 <= state && (Untyped(token) ==> state < |states|)
      modifies `states, `edges, `cores, `coreOf
      ensures Context() && Extends(old(M()), M())
      ensures Looked(old(Now()), M(), token, state, add)
      ensures token.None? || Edge(state, Some(token.value.sym)) !in old(edges) ==> M() == old(M())
    {
      hide Sane, SetsOk;
      if Untyped(token) {
        add := GotoST(state, if token.Some? then Some(token.value.sym) else None);
      } else {
        add := GotoT(state, token.value.sym);
      }
    }

    method AddScanned(add: seq<Option<nat>>, item: Item, ghost w: Word, i: nat)
      requires Fit(Now(), w, i)
      requires if i < |w| then Targets(M(), Edge(item.state, Some(w[i])), add) else add == []
      requires forall k :: k in add && k.Some? ==> ItemSound(Elements(emitted), M(), w, Item(k.value, item.parent), i + 1)
      modifies `states, `edges, `cores, `coreOf, `sets
      ensures M() == old(M()) && Round(old(Now()), Now(), w, i)
      ensures Scanned(M(), w, LiveSets(Now()), i, item)
    {
      hide Sane, SetsOk;
      ghost var s := Now();
      RoundStarts(s, s.m, w, i);
      for a := 0 to |add|
        invariant M() == s.m && Round(s, Now(), w, i)
        invariant (exists b :: 0 <= b < a && add[b].Some?) ==> Scanned(M(), w, LiveSets(Now()), i, item)
      {
        if add[a].Some? {
          ghost var s' := Now();
          assert add[a] in add;
          AddReached(add[a].value, item.parent, i + 1, w, i);
          RoundTransitive(s, s', Now(), w, i);
        }
      }
    }

    /** One Earley set: scan and complete every item, including those added on the way. */
    method MakeSet(token: Option<Token>, ghost w: Word, i: nat) returns (crashed: bool)
      requires Fit(Now(), w, i) && TokenAt(emitted, token, w, i)
      modifies `states, `edges, `cores, `coreOf, `sets
      ensures Round(old(Now()), Now(), w, i)
      ensures crashed <==> i == 0 && Bare(old(M())) && |old(states)| == 2 && BlindTo(start, token)
      ensures crashed ==> |states| == 2
      ensures !crashed ==> ClosedFirst(M(), w, LiveSets(Now()), i, |sets[i]|)
    {
      hide Sane, SetsOk;
      ghost var s := Now();
      RoundStarts(s, s.m, w, i);
      TreatedStarts(s, w, i, token);
      var idx := 0;
      while idx < |sets[i]|
        invariant Round(s, Now(), w, i) && Treated(Now(), s.m, w, i, token, idx)
        decreases MaxStates(emitted) * (i + 1) + 1 - idx
      {
        ghost var s' := Now();
        crashed := TreatNext(idx, token, w, i, s.m);
        RoundTransitive(s, s', Now(), w, i);
        if crashed {
          return;
        }
        idx := idx + 1;
      }
      crashed := false;
      AllTreated(s, Now(), w, i, token, idx);
    }

    method TreatNext(idx: nat, token: Option<Token>, ghost w: Word, i: nat, ghost m0: Machine) returns (crashed: bool)
      requires Fit(Now(), w, i) && idx < |sets[i]| && TokenAt(emitted, token, w, i)
      requires Treated(Now(), m0, w, i, token, idx)
      modifies `states, `edges, `cores, `coreOf, `sets
      ensures Round(old(Now()), Now(), w, i) && idx <= MaxStates(emitted) * (i + 1)
      ensures crashed ==> i == 0 && Bare(m0) && |m0.states| == |states| == 2 && BlindTo(start, token)
      ensures !crashed ==> Treated(Now(), m0, w, i, token, idx + 1)
    {
      hide Sane, SetsOk;
      ghost var s := Now();
      LiveBounded(s, w, i);
      crashed := TreatItem(sets[i][idx], token, w, i);
      if crashed {
        CrashSource(s, m0, w, i, token, idx);
      } else {
        TreatedNext(s, Now(), m0, w, i, token, idx);
      }
    }

    method TreatItem(item: Item, token: Option<Token>, ghost w: Word, i: nat) returns (crashed: bool)
      requires Fit(Now(), w, i) && item in sets[i] && TokenAt(emitted, token, w, i)
      modifies `states, `edges, `cores, `coreOf, `sets
      ensures Round(old(Now()), Now(), w, i)
      ensures crashed <==> Untyped(token) && item.state >= |old(states)|
      ensures !crashed && item in old(LiveSets(Now())[i]) ==> ItemClosed(M(), w, LiveSets(Now()), i, item)
      ensures item.parent == i && (crashed || token.None? || Edge(item.state, Some(token.value.sym)) !in old(edges)) ==> M() == old(M())
    {
      hide Sane, SetsOk;
      ghost var s0 := Now();
      ItemState(s0, w, i, i, item);
      crashed := Scan(item, token, w, i);
      if crashed || item.parent == i {
        return;
      }
      ghost var s := Now();
      GrowMember(LiveSets(s0), LiveSets(s), i, i, item);
      Complete(item, w, i);
      ItemTreated(s0, s, Now(), w, i, item);
    }

    method MakeState0() returns (s0: State)
      requires START in newrules && Grouped(emitted, newrules)
      ensures |s0.items| <= |emitted| && forall d :: d in s0.items <==> d.rule in Filter(emitted, START) && d.pos == 0
    {
      var rs := newrules[START];
      var items: seq<Dotted> := [];
      for a := 0 to |rs|
        invariant |items| == a && forall b :: 0 <= b < a ==> items[b] == Dotted(rs[b], 0)
      {
        items := items + [Dotted(rs[a], 0)];
      }
      s0 := State(items, [], []);
      assert Lookup(newrules, START) == rs;
      FilterSize(emitted, START);
      forall d ensures d in items <==> d.rule in rs && d.pos == 0 {
        if d.rule in rs && d.pos == 0 {
          var b :| 0 <= b < |rs| && rs[b] == d.rule;
          assert items[b] == d;
        }
      }
    }

    /** The first part of parse: rewrite the grammar and start the automaton. */
    method Build()
      requires GrammarOk(rules, start)
      modifies `nullable, `newrules, `new2old, `ruleschanged, `states, `edges, `cores, `emitted, `coreOf
      ensures Built() && !ruleschanged && (Bare(M()) ==> |states| == 2)
    {
      hide RewrittenTo, Sane, Grouped, StartNeverNext, MarksDeriveEmpty, YieldsFollowMarks;
      RewriteGrammar();
      ruleschanged := false;
      StartAutomaton();
    }

    method RewriteGrammar()
      requires GrammarOk(rules, start)
      modifies `nullable, `newrules, `new2old, `emitted
      ensures RewrittenTo(rules, start, nullable, emitted) && Grouped(emitted, newrules)
      ensures MarksDeriveEmpty(Elements(emitted)) && StartNeverNext(Elements(emitted))
      ensures Rule(START, [BOF, start]) in emitted && START in Nonterminals(emitted) && YieldsFollowMarks(Elements(emitted))
      ensures forall r :: r in emitted && r.lhs == START ==> UnmarkRule(r) == Rule(START, [BOF, start])
    {
      ComputeNull();
      newrules := map[];
      new2old := map[];
      MakeNewRules();
      RewrittenGrammar(rules, start, Flagged(nullable), emitted);
    }

    method StartAutomaton()
      requires Grouped(emitted, newrules)
      requires MarksDeriveEmpty(Elements(emitted)) && StartNeverNext(Elements(emitted))
      requires forall r :: r in emitted && r.lhs == START ==> UnmarkRule(r) == Rule(START, [BOF, start])
      requires start.Sym? && Rule(START, [BOF, start]) in emitted && START in Nonterminals(emitted) && YieldsFollowMarks(Elements(emitted))
      modifies `states, `edges, `cores, `coreOf
      ensures Context() && (Bare(M()) ==> |states| == 2)
    {
      edges, cores, coreOf := map[], map[], map[];
      GroupedKeys(emitted, newrules, START);
      var s0 := MakeState0();
      states := [s0];
      FirstState(emitted, s0);
      assert M() == Machine([s0], map[], map[], map[]);
      var k := MakeState(0, BOF);
      FilterMember(emitted, START, Rule(START, [BOF, start]));
      assert states[0] == s0;
      FirstStump(emitted, M(), start);
    }

    method FinalState(tokens: seq<Token>) returns (rv: Option<nat>)
      requires Context() && START in rules && rules[START] == [Rule(START, [BOF, start])]
      modifies `states, `edges, `cores, `coreOf
      ensures Context() && Extends(old(M()), M())
      ensures rv.Some? && IsFinal(emitted, M(), start, tokens, rv.value)
    {
      GroupedKeys(emitted, newrules, START);
      if |newrules[START]| == 2 && |tokens| == 0 {
        return Some(1);
      }
      var s := rules[START][0].rhs[1];
      StartEdge(emitted, M(), start);
      rv := Goto(1, Some(s));
    }

    /** One round of parse's loop over the tokens; it stops at an empty set. */
    method BuildNextSet(tokens: seq<Token>, ghost w: Word, i: nat, ghost m0: Machine) returns (stopped: bool, crashed: bool)
      requires Building(Now(), m0, w, tokens, i) && i < |tokens| && tokens[i].sym.Sym?
      modifies `sets, `states, `edges, `cores, `coreOf
      ensures stopped ==> !crashed && SetsDone(Now(), m0, w, tokens)
      ensures crashed ==> CrashesOn(m0, start, tokens) && Context() && |states| == 2
      ensures !stopped && !crashed ==> Building(Now(), m0, w, tokens, i + 1)
    {
      hide Sane, SetsOk;
      ghost var s := Now();
      sets := sets + [[]];
      stopped, crashed := sets[i] == [], false;
      if stopped {
        LeavesEarly(s, m0, w, tokens, i);
        return;
      }
      crashed := MakeSet(Some(tokens[i]), w, i);
      if !crashed {
        NextRound(s, Now(), m0, w, tokens, i);
      }
    }

    /** The loop of parse over the tokens. */
    method BuildSets(tokens: seq<Token>, ghost w: Word) returns (crashed: bool)
      requires Context() && (forall t :: t in tokens ==> t.sym.Sym?) && w == SeenWord(Nonterminals(emitted), tokens)
      requires sets == [FIRST]
      modifies `sets, `states, `edges, `cores, `coreOf
      ensures crashed ==> CrashesOn(old(M()), start, tokens) && Context() && |states| == 2
      ensures !crashed ==> SetsDone(Now(), old(M()), w, tokens)
    {
      hide Sane, SetsOk;
      ghost var m := M();
      FirstRound(Now(), w, tokens);
      var i := 0;
      while i < |tokens|
        invariant i <= |tokens| && Building(Now(), m, w, tokens, i)
      {
        var stopped;
        stopped, crashed := BuildNextSet(tokens, w, i, m);
        if stopped || crashed {
          return;
        }
        i := i + 1;
      }
      crashed := BuildLastSet(tokens, w, m);
    }

    method BuildLastSet(tokens: seq<Token>, ghost w: Word, ghost m0: Machine) returns (crashed: bool)
      requires Building(Now(), m0, w, tokens, |tokens|)
      modifies `sets, `states, `edges, `cores, `coreOf
      ensures crashed ==> CrashesOn(m0, start, tokens) && Context() && |states| == 2
      ensures !crashed ==> SetsDone(Now(), m0, w, tokens)
    {
      hide Sane, SetsOk;
      ghost var s := Now();
      sets := sets + [[]];
      crashed := MakeSet(None, w, |tokens|);
      if !crashed {
        LastRound(s, Now(), m0, w, tokens);
      }
    }

    /** The recogniser.  Its outcome is known for every grammar and every input; with a
        nonempty rule for the start symbol it accepts exactly the token strings that the
        grammar derives. */
    method Parse(tokens: seq<Token>) returns (outcome: Outcome)
      requires Valid() && forall t :: t in tokens ==> t.sym.Sym?
      modifies this
      ensures Valid() && !ruleschanged && rules == old(rules)
      ensures outcome == Result(rules, start, old(Warm()), tokens)
      ensures Warm() <==> outcome != Crashed
    {
      hide Sane, SetsOk, GrammarOk, RewrittenTo;
      ghost var warm := Warm();
      StartParse();
      OutcomeIs(rules, start, nullable, emitted, newrules, M(), warm, tokens);
      outcome := Recognise(tokens, SeenWord(Nonterminals(emitted), tokens));
    }

    method StartParse()
      requires Valid()
      modifies this
      ensures GrammarOk(rules, start) && Built() && !ruleschanged && rules == old(rules)
      ensures sets == [FIRST]
      ensures Bare(M()) ==> (old(Warm()) <==> |states| > 2)
    {
      sets := [FIRST];
      if ruleschanged {
        Build();
      }
    }

    /** The rest of parse, once the grammar is rewritten. */
    method Recognise(tokens: seq<Token>, ghost w: Word) returns (outcome: Outcome)
      requires Context() && GrammarOk(rules, start)
      requires (forall t :: t in tokens ==> t.sym.Sym?) && w == SeenWord(Nonterminals(emitted), tokens)
      requires sets == [FIRST]
      modifies `sets, `states, `edges, `cores, `coreOf
      ensures Context() && (|states| > 2 <==> outcome != Crashed)
      ensures outcome == SeenResult(emitted, old(M()), start, tokens)
    {
      hide Sane, SetsOk;
      ghost var m := M();
      var crashed := BuildSets(tokens, w);
      if crashed {
        return Crashed;
      }
      outcome := Verdict(tokens, w, m);
    }

    /** The last part of parse: is the final item in the last set built? */
    method Verdict(tokens: seq<Token>, ghost w: Word, ghost m0: Machine) returns (outcome: Outcome)
      requires SetsDone(Now(), m0, w, tokens) && GrammarOk(rules, start)
      modifies `states, `edges, `cores, `coreOf
      ensures Context() && |states| > 2
      ensures outcome == SeenResult(emitted, m0, start, tokens)
    {
      hide Sane, SetsOk;
      ghost var s := Now();
      DoneSane(s, m0, w, tokens);
      var fs := FinalState(tokens);
      outcome := if fs.Some? && Item(fs.value, 0) in sets[|sets| - 2] then Accepted else Rejected;
      VerdictIs(s, m0, M(), w, tokens, fs.value);
      State2Exists(s, m0, M(), w, tokens, fs.value);
    }
  }

  /** The rewritten rules, their grouping by left-hand side, and for each the rule it came from. */
  ghost predicate Emitted(emitted: seq<Rule>, newrules: map<Symbol, seq<Rule>>, new2old: map<Rule, Rule>) {
    && Grouped(emitted, newrules)
    && (forall v :: v in new2old <==> v in emitted)
    && (forall v :: v in new2old ==> new2old[v] == UnmarkRule(v))
  }

  lemma NothingEmitted()
    ensures Emitted([], map[], map[])
  {
  }

  lemma EmittedSnoc(emitted: seq<Rule>, newrules: map<Symbol, seq<Rule>>, new2old: map<Rule, Rule>, rule: Rule)
    requires Emitted(emitted, newrules, new2old)
    ensures Emitted(emitted + [rule], AddRuleTo(newrules, rule), new2old[rule := UnmarkRule(rule)])
  {
    GroupedSnoc(emitted, newrules, rule);
  }

  /** Only the start rule gives rise to rules for the start symbol, and it gives
      two when the grammar's own start symbol is nullable. */
  lemma FiledRules(rules: map<Symbol, seq<Rule>>, start: Symbol)
    requires GrammarOk(rules, start)
    ensures START in rules && |rules[START]| == 1 && forall a :: a in rules ==> |rules[a]| > 0 && a.Sym?
    ensures forall a, r :: a in rules && r in rules[a] ==> r.lhs == a && AllSym(r.rhs)
  {
  }

  lemma EntryStartCount(rules: map<Symbol, seq<Rule>>, start: Symbol, n: set<Symbol>, r: Rule)
    requires GrammarOk(rules, start) && r.lhs in rules && r in rules[r.lhs] && n <= rules.Keys
    ensures |Filter(Variants(n, r, 0, true), START)| == (if r.lhs == START then if start in n then 2 else 1 else 0)
  {
    var vs := Variants(n, r, 0, true);
    if r.lhs == START {
      assert r == Rule(START, [BOF, start]);
      var kept := [r];
      assert Variants(n, r, 2, false) == [r];
      assert vs == Variants(n, r, 1, false);
      if start in n {
        var m := MarkAt(r, 1);
        assert Variants(n, m, 2, false) == [m];
        assert vs == [m] + [r];
        assert vs[..1] == [m] && [m][..0] == [];
        assert Filter([m], START) == [m];
      } else {
        assert vs == [r] && vs[..0] == [];
      }
    } else if Filter(vs, START) != [] {
      var v := Filter(vs, START)[0];
      FilterMember(vs, START, v);
      VariantsFrom(n, r, 0, true, v);
    }
  }

  ghost predicate SoundFlags(g: set<Rule>, nullable: map<Symbol, bool>) {
    forall a :: a in nullable && nullable[a] ==> Nullable(g, a)
  }

  ghost predicate FlagsGrow(before: map<Symbol, bool>, now: map<Symbol, bool>) {
    forall a :: a in before && before[a] ==> a in now && now[a]
  }

  ghost predicate OnlyNonterminals(rules: map<Symbol, seq<Rule>>, tbd: seq<Rule>) {
    forall r :: r in tbd ==> r in RuleSet(rules) && r.lhs in rules && forall i :: 0 <= i < |r.rhs| ==> r.rhs[i] in rules
  }

  /** The first loop of computeNull has dealt with r: an empty rule is recorded as
      a flag, and a rule with only nonterminals on the right is kept for later. */
  ghost predicate Covered(keys: set<Symbol>, nullable: map<Symbol, bool>, tbd: seq<Rule>, r: Rule) {
    if r.rhs == [] then r.lhs in nullable && nullable[r.lhs]
    else (forall i :: 0 <= i < |r.rhs| ==> r.rhs[i] in keys) ==> r in tbd
  }

  lemma RuleSetGrows(before: map<Symbol, seq<Rule>>, now: map<Symbol, seq<Rule>>, rule: Rule)
    requires now == before[rule.lhs := (if rule.lhs in before then before[rule.lhs] else []) + [rule]]
    ensures RuleSet(now) == RuleSet(before) + {rule}
  {
    forall r ensures r in RuleSet(now) <==> r in RuleSet(before) || r == rule {
      if r in RuleSet(before) {
        var a :| a in before && r in before[a];
        assert a in now && r in now[a];
      }
      if r == rule {
        assert rule.lhs in now && r in now[rule.lhs];
      }
    }
  }

  lemma {:induction false} FilterSize(s: seq<Rule>, x: Symbol)
    ensures |Filter(s, x)| <= |s|
  {
    if s != [] { FilterSize(s[..|s| - 1], x); }
  }

  lemma FirstState(rs: seq<Rule>, s0: State)
    requires |s0.items| <= |rs| && forall d :: d in s0.items <==> d.rule in Filter(rs, START) && d.pos == 0
    ensures MachineOk(rs, Machine([s0], map[], map[], map[]))
  {
    forall d | d in s0.items ensures d.rule in rs && d.rule.lhs == START {
      FilterMember(rs, START, d.rule);
    }
  }


}
