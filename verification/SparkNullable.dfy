/** Facts about the nullable-symbol fixpoint and the rewriting worklist that the
    parser class relies on. */
module RewriteFacts {
  import opened Common
  import opened Grammar
  import opened EpsilonRewrite

  /** The dictionary of rules as a set of rules. */
  function RuleSet(rules: map<Symbol, seq<Rule>>): set<Rule> {
    set a, r | a in rules && r in rules[a] :: r
  }

  /** The symbols a dictionary of flags marks as nullable. */
  function Flagged(nullable: map<Symbol, bool>): set<Symbol> {
    set a | a in nullable && nullable[a]
  }

  ghost predicate ClosedUnder(n: set<Symbol>, r: Rule) {
    (forall i :: 0 <= i < |r.rhs| ==> r.rhs[i] in n) ==> r.lhs in n
  }

  lemma {:induction false} NullableString(g: set<Rule>, a: seq<Symbol>)
    requires forall i :: 0 <= i < |a| ==> Nullable(g, a[i])
    ensures DerivesSeq(g, a, [])
  {
    if a == [] {
      DerivesEmpty(g);
    } else {
      NullableString(g, a[1..]);
      DerivesSingle(g, a[0], []);
      assert [a[0]] + a[1..] == a;
      DerivesConcat(g, [a[0]], [], a[1..], []);
    }
  }

  /** A rule whose right-hand side is nullable throughout makes its left-hand side nullable. */
  lemma NullableByRule(g: set<Rule>, r: Rule)
    requires r in g && forall i :: 0 <= i < |r.rhs| ==> Nullable(g, r.rhs[i])
    ensures Nullable(g, r.lhs)
  {
    NullableString(g, r.rhs);
    DerivesByRule(g, r, []);
  }

  lemma {:induction false} EmptyYieldInClosed(g: set<Rule>, n: set<Symbol>, t: Tree)
    requires forall r :: r in g ==> ClosedUnder(n, r)
    requires ValidTree(g, t) && Yield(t) == []
    ensures Root(t) in n
  {
    match t
    case Leaf(_) =>
    case Node(r, kids) =>
      EmptyYieldsInClosed(g, n, kids);
      assert ClosedUnder(n, r);
  }

  lemma {:induction false} EmptyYieldsInClosed(g: set<Rule>, n: set<Symbol>, f: Forest)
    requires forall r :: r in g ==> ClosedUnder(n, r)
    requires ValidForest(g, f) && Yields(f) == []
    ensures forall i :: 0 <= i < |Roots(f)| ==> Roots(f)[i] in n
  {
    match f
    case Nil =>
    case Cons(t, rest) =>
      EmptyYieldInClosed(g, n, t);
      EmptyYieldsInClosed(g, n, rest);
      assert Roots(f) == [Root(t)] + Roots(rest);
  }

  /** A set of nullable symbols closed under the rules holds all nullable symbols. */
  lemma ClosedIsExact(g: set<Rule>, n: set<Symbol>)
    requires forall x :: x in n ==> Nullable(g, x)
    requires forall r :: r in g ==> ClosedUnder(n, r)
    ensures ExactNullables(g, n)
  {
    forall x | Nullable(g, x) ensures x in n {
      var t :| TreeFor(g, x, [], t);
      EmptyYieldInClosed(g, n, t);
    }
  }

  // ----- the rewriting worklist

  datatype Task = Task(rule: Rule, i: nat, candidate: bool, oldrule: Rule)

  type Entry = t: Task | t.i <= |t.rule.rhs| witness Task(Rule(Sym(""), []), 0, false, Rule(Sym(""), []))

  /** What is left of an entry is plain, and what is done only added marks. */
  ghost predicate EntryOk(e: Entry) {
    && e.rule.lhs.Sym? && e.oldrule.lhs.Sym? && AllSym(e.oldrule.rhs)
    && (forall j :: e.i <= j < |e.rule.rhs| ==> e.rule.rhs[j].Sym?)
    && UnmarkRule(e.rule) == e.oldrule
  }

  ghost predicate EntriesOk(ws: seq<Entry>) {
    forall j :: 0 <= j < |ws| ==> EntryOk(ws[j])
  }

  function EntryVariants(n: set<Symbol>, e: Entry): seq<Rule> {
    Variants(n, e.rule, e.i, e.candidate)
  }

  /** The rules the entries of a worklist still give rise to. */
  function Pending(n: set<Symbol>, ws: seq<Entry>): seq<Rule> {
    if ws == [] then [] else EntryVariants(n, ws[0]) + Pending(n, ws[1..])
  }

  lemma {:induction false} PendingSnoc(n: set<Symbol>, ws: seq<Entry>, e: Entry)
    ensures Pending(n, ws + [e]) == Pending(n, ws) + EntryVariants(n, e)
  {
    if ws == [] {
      assert (ws + [e])[1..] == [];
    } else {
      assert (ws + [e])[1..] == ws[1..] + [e];
      PendingSnoc(n, ws[1..], e);
    }
  }

  lemma {:induction false} VariantsNonempty(n: set<Symbol>, r: Rule, i: nat, cand: bool)
    requires i <= |r.rhs|
    ensures |Variants(n, r, i, cand)| > 0
    decreases |r.rhs| - i
  {
    if i < |r.rhs| { VariantsNonempty(n, r, i + 1, false); }
  }

  /** The rules with left-hand side x, in order. */
  function Filter(s: seq<Rule>, x: Symbol): seq<Rule> {
    if s == [] then []
    else Filter(s[..|s| - 1], x) + (if s[|s| - 1].lhs == x then [s[|s| - 1]] else [])
  }

  lemma {:induction false} FilterMember(s: seq<Rule>, x: Symbol, r: Rule)
    ensures r in Filter(s, x) <==> r in s && r.lhs == x
  {
    if s != [] {
      FilterMember(s[..|s| - 1], x, r);
      assert s == s[..|s| - 1] + [s[|s| - 1]];
    }
  }

  lemma FilterSnoc(s: seq<Rule>, r: Rule, x: Symbol)
    ensures Filter(s + [r], x) == Filter(s, x) + (if r.lhs == x then [r] else [])
  {
    assert (s + [r])[..|s|] == s;
  }

  lemma {:induction false} FilterConcat(a: seq<Rule>, b: seq<Rule>, x: Symbol)
    ensures Filter(a + b, x) == Filter(a, x) + Filter(b, x)
  {
    if b == [] {
      assert a + b == a;
    } else {
      var c, r := b[..|b| - 1], b[|b| - 1];
      assert a + b == (a + c) + [r] && b == c + [r];
      FilterSnoc(a + c, r, x);
      FilterConcat(a, c, x);
      FilterSnoc(c, r, x);
    }
  }

  lemma FilterRemove(b: seq<Rule>, k: nat, x: Symbol)
    requires k < |b|
    ensures |Filter(b, x)| == |Filter(b[..k] + b[k + 1..], x)| + (if b[k].lhs == x then 1 else 0)
    ensures multiset(b[..k] + b[k + 1..]) == multiset(b) - multiset{b[k]}
  {
    var d, r, e := b[..k], b[k], b[k + 1..];
    assert b == (d + [r]) + e;
    FilterConcat(d, e, x);
    FilterSnoc(d, r, x);
    FilterConcat(d + [r], e, x);
  }

  lemma {:induction false} FilterPermutation(a: seq<Rule>, b: seq<Rule>, x: Symbol)
    requires multiset(a) == multiset(b)
    ensures |Filter(a, x)| == |Filter(b, x)|
  {
    if a == [] {
      assert |multiset(b)| == 0;
    } else {
      var n := |a| - 1;
      assert a[n] in multiset(b);
      var k :| 0 <= k < |b| && b[k] == a[n];
      FilterRemove(a, n, x);
      FilterRemove(b, k, x);
      FilterPermutation(a[..n] + a[n + 1..], b[..k] + b[k + 1..], x);
    }
  }

  function Lookup(newrules: map<Symbol, seq<Rule>>, x: Symbol): seq<Rule> {
    if x in newrules then newrules[x] else []
  }

  /** The dictionary newrules holds the emitted rules, grouped by left-hand side, in order. */
  ghost predicate Grouped(emitted: seq<Rule>, newrules: map<Symbol, seq<Rule>>) {
    forall x: Symbol {:trigger Lookup(newrules, x)} :: (x in newrules ==> newrules[x] != []) && Lookup(newrules, x) == Filter(emitted, x)
  }

  function AddRuleTo(newrules: map<Symbol, seq<Rule>>, rule: Rule): map<Symbol, seq<Rule>> {
    newrules[rule.lhs := Lookup(newrules, rule.lhs) + [rule]]
  }

  lemma GroupedSnoc(emitted: seq<Rule>, newrules: map<Symbol, seq<Rule>>, rule: Rule)
    requires Grouped(emitted, newrules)
    ensures Grouped(emitted + [rule], AddRuleTo(newrules, rule))
  {
    var m := AddRuleTo(newrules, rule);
    forall x: Symbol ensures (x in m ==> m[x] != []) && Lookup(m, x) == Filter(emitted + [rule], x) {
      FilterSnoc(emitted, rule, x);
      assert Lookup(newrules, x) == Filter(emitted, x);
    }
  }

  function Elements(s: seq<Rule>): set<Rule> { set v | v in s }

  /** The rules emitted and those the worklist still gives rise to are the rules in total. */
  ghost predicate AllTogether(n: set<Symbol>, emitted: seq<Rule>, ws: seq<Entry>, total: seq<Rule>) {
    multiset(emitted) + multiset(Pending(n, ws)) == multiset(total)
  }

  lemma EmitStep(n: set<Symbol>, emitted: seq<Rule>, ws: seq<Entry>, r: Rule, ws': seq<Entry>, total: seq<Rule>)
    requires AllTogether(n, emitted, ws, total)
    requires multiset{r} + multiset(Pending(n, ws')) == multiset(Pending(n, ws))
    ensures AllTogether(n, emitted + [r], ws', total) && |emitted| < |total|
  {
    assert |multiset(total)| == |multiset(emitted)| + 1 + |multiset(Pending(n, ws'))|;
  }

  lemma AllEmitted(g: set<Rule>, n: set<Symbol>, emitted: seq<Rule>, total: seq<Rule>, x: Symbol)
    requires AllTogether(n, emitted, [], total)
    requires forall v :: v in total <==> HasSource(g, n, v)
    ensures IsRewriting(g, n, Elements(emitted)) && |Filter(emitted, x)| == |Filter(total, x)|
  {
    FilterPermutation(emitted, total, x);
    SameElements(emitted, total);
    assert forall v :: v in Elements(total) <==> v in total;
  }

  /** An entry under treatment and the entries after it give rise to the rules in total. */
  ghost predicate Conserved(n: set<Symbol>, e: Entry, ws: seq<Entry>, total: multiset<Rule>) {
    multiset(EntryVariants(n, e)) + multiset(Pending(n, ws)) == total
  }

  function Keep(e: Entry): Entry
    requires e.i < |e.rule.rhs|
  {
    Task(e.rule, e.i + 1, false, e.oldrule)
  }

  function Copy(e: Entry): Entry
    requires e.i < |e.rule.rhs|
  {
    Task(MarkAt(e.rule, e.i), e.i + 1, e.candidate, e.oldrule)
  }

  /** Marking position i in a queued copy and keeping it in the entry at hand
      accounts for all rules the entry gives rise to. */
  lemma QueueCopy(n: set<Symbol>, e: Entry, ws: seq<Entry>, total: multiset<Rule>)
    requires e.i < |e.rule.rhs| && e.rule.rhs[e.i] in n
    requires Conserved(n, e, ws, total)
    ensures Conserved(n, Keep(e), ws + [Copy(e)], total)
  {
    PendingSnoc(n, ws, Copy(e));
    var kept, copied := EntryVariants(n, Keep(e)), EntryVariants(n, Copy(e));
    assert EntryVariants(n, e) == copied + kept;
    assert multiset(copied + kept) == multiset(copied) + multiset(kept);
  }

  /** Marking a position does not change what the entry came from. */
  lemma CopyOk(e: Entry)
    requires EntryOk(e) && e.i < |e.rule.rhs|
    ensures EntryOk(Copy(e)) && EntryOk(Keep(e))
  {
    assert UnmarkSeq(Copy(e).rule.rhs) == UnmarkSeq(e.rule.rhs);
  }

  lemma KeepSymbol(n: set<Symbol>, e: Entry, ws: seq<Entry>, total: multiset<Rule>)
    requires EntryOk(e) && e.i < |e.rule.rhs| && e.rule.rhs[e.i] !in n
    requires Conserved(n, e, ws, total)
    ensures Conserved(n, Keep(e), ws, total) && EntryOk(Keep(e))
  {
  }

  lemma EmitsOne(n: set<Symbol>, e: Entry, ws: seq<Entry>, total: multiset<Rule>)
    requires e.i == |e.rule.rhs| && Conserved(n, e, ws, total)
    ensures var r := if e.candidate then Rule(Mark(e.rule.lhs), e.rule.rhs) else e.rule;
            multiset{r} + multiset(Pending(n, ws)) == total
  {
  }

  /** Where the treatment of entry idx stands: e is what is left of it, and copies were queued behind ws0. */
  ghost predicate Queueing(n: set<Symbol>, ws0: seq<Entry>, idx: nat, ws: seq<Entry>, e: Entry, total: multiset<Rule>) {
    && idx < |ws0| && ws0 <= ws && EntriesOk(ws) && EntryOk(e) && e.oldrule == ws0[idx].oldrule
    && Conserved(n, e, ws[idx + 1..], total)
  }

  lemma QueueingStarts(n: set<Symbol>, ws: seq<Entry>, idx: nat)
    requires idx < |ws| && EntriesOk(ws)
    ensures Queueing(n, ws, idx, ws, ws[idx], multiset(Pending(n, ws[idx..])))
  {
    assert ws[idx..][0] == ws[idx] && ws[idx..][1..] == ws[idx + 1..];
  }

  lemma QueueingNext(n: set<Symbol>, ws0: seq<Entry>, idx: nat, ws: seq<Entry>, e: Entry, total: multiset<Rule>)
    requires Queueing(n, ws0, idx, ws, e, total) && e.i < |e.rule.rhs|
    ensures Queueing(n, ws0, idx, if e.rule.rhs[e.i] in n then ws + [Copy(e)] else ws, Keep(e), total)
  {
    var later := ws[idx + 1..];
    if e.rule.rhs[e.i] in n {
      QueueCopy(n, e, later, total);
      CopyOk(e);
      var ws2 := ws + [Copy(e)];
      CopyQueued(ws, Copy(e), idx);
      assert Conserved(n, Keep(e), ws2[idx + 1..], total);
    } else {
      KeepSymbol(n, e, later, total);
    }
  }

  lemma CopyQueued(ws: seq<Entry>, c: Entry, idx: nat)
    requires idx < |ws| && EntriesOk(ws) && EntryOk(c)
    ensures EntriesOk(ws + [c]) && (ws + [c])[idx + 1..] == ws[idx + 1..] + [c]
  {
  }

  lemma QueueingEnds(n: set<Symbol>, ws0: seq<Entry>, idx: nat, ws: seq<Entry>, e: Entry, total: multiset<Rule>)
    requires Queueing(n, ws0, idx, ws, e, total) && e.i >= |e.rule.rhs| && e.i <= |e.rule.rhs|
    ensures ws0 <= ws && EntriesOk(ws)
    ensures var r := if e.candidate then Rule(Mark(e.rule.lhs), e.rule.rhs) else e.rule;
            multiset{r} + multiset(Pending(n, ws[idx + 1..])) == total && UnmarkRule(r) == ws0[idx].oldrule
  {
    EmitsOne(n, e, ws[idx + 1..], total);
  }

  // ----- the worklist at the start

  ghost function Sources(ws: seq<Entry>): set<Rule> { set e | e in ws :: e.rule }

  /** No position of any rule has been treated. */
  ghost predicate AllFresh(ws: seq<Entry>) {
    forall j :: 0 <= j < |ws| ==> ws[j].i == 0 && ws[j].candidate && ws[j].oldrule == ws[j].rule && ws[j].rule.lhs.Sym? && AllSym(ws[j].rule.rhs)
  }

  lemma NothingPending(n: set<Symbol>, x: Symbol)
    ensures Filter(Pending(n, []), x) == []
  {
  }

  lemma AddFreshEntry(n: set<Symbol>, ws: seq<Entry>, e: Entry, x: Symbol)
    requires AllFresh(ws) && AllFresh([e])
    ensures AllFresh(ws + [e]) && Sources(ws + [e]) == Sources(ws) + {e.rule}
    ensures |Filter(Pending(n, ws + [e]), x)| == |Filter(Pending(n, ws), x)| + |Filter(EntryVariants(n, e), x)|
  {
    PendingSnoc(n, ws, e);
    FilterConcat(Pending(n, ws), EntryVariants(n, e), x);
    assert forall f :: f in ws + [e] <==> f in ws || f == e;
  }

  /** With every rule as an entry, the rewriting is pending. */
  lemma FreshIsAll(rules: map<Symbol, seq<Rule>>, n: set<Symbol>, ws: seq<Entry>)
    requires AllFresh(ws) && forall r :: r in Sources(ws) <==> r.lhs in rules && r in rules[r.lhs]
    requires forall a, r :: a in rules && r in rules[a] ==> r.lhs == a
    ensures forall v :: v in Pending(n, ws) <==> HasSource(RuleSet(rules), n, v)
  {
    assert Sources(ws) == RuleSet(rules);
    forall v ensures v in Pending(n, ws) <==> HasSource(RuleSet(rules), n, v) {
      FreshPending(n, ws, v);
    }
  }

  lemma {:induction false} FreshPending(n: set<Symbol>, ws: seq<Entry>, v: Rule)
    requires AllFresh(ws)
    ensures v in Pending(n, ws) <==> HasSource(Sources(ws), n, v)
  {
    if ws != [] {
      FreshPending(n, ws[1..], v);
      VariantsAreVariants(n, ws[0].rule, v);
      assert ws == [ws[0]] + ws[1..];
      assert Sources(ws) == {ws[0].rule} + Sources(ws[1..]);
    }
  }
}
