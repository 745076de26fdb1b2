/** Context-free grammars as the SPARK parser generator sees them, and what it
    means for a grammar to derive a word, by parse trees. */
module Grammar {

  /** A grammar symbol.  SPARK writes the symbol that stands for "A, deriving the
      empty string" as the name of A behind a reserved prefix; here that is Eps. */
  datatype Symbol = Sym(name: string) | Eps(name: string)

  datatype Rule = Rule(lhs: Symbol, rhs: seq<Symbol>)

  datatype Tree = Leaf(sym: Symbol) | Node(rule: Rule, kids: Forest)
  datatype Forest = Nil | Cons(head: Tree, tail: Forest)

  type Word = seq<Symbol>

  function Root(t: Tree): Symbol {
    match t
    case Leaf(s) => s
    case Node(r, _) => r.lhs
  }

  function Roots(f: Forest): seq<Symbol> {
    match f
    case Nil => []
    case Cons(t, rest) => [Root(t)] + Roots(rest)
  }

  function Yield(t: Tree): Word {
    match t
    case Leaf(s) => [s]
    case Node(_, kids) => Yields(kids)
  }

  function Yields(f: Forest): Word {
    match f
    case Nil => []
    case Cons(t, rest) => Yield(t) + Yields(rest)
  }

  /** A parse tree of grammar g: every inner node applies a rule of g. */
  ghost predicate ValidTree(g: set<Rule>, t: Tree) {
    match t
    case Leaf(s) => s.Sym?
    case Node(r, kids) => r in g && Roots(kids) == r.rhs && ValidForest(g, kids)
  }

  ghost predicate ValidForest(g: set<Rule>, f: Forest) {
    match f
    case Nil => true
    case Cons(t, rest) => ValidTree(g, t) && ValidForest(g, rest)
  }

  ghost predicate TreeFor(g: set<Rule>, x: Symbol, w: Word, t: Tree) {
    ValidTree(g, t) && Root(t) == x && Yield(t) == w
  }

  ghost predicate ForestFor(g: set<Rule>, alpha: seq<Symbol>, w: Word, f: Forest) {
    ValidForest(g, f) && Roots(f) == alpha && Yields(f) == w
  }

  /** Symbol x derives the word w in grammar g. */
  ghost predicate Derives(g: set<Rule>, x: Symbol, w: Word) {
    exists t :: TreeFor(g, x, w, t)
  }

  /** The symbol string alpha derives the word w in grammar g. */
  ghost predicate DerivesSeq(g: set<Rule>, alpha: seq<Symbol>, w: Word) {
    exists f :: ForestFor(g, alpha, w, f)
  }

  function Append(f: Forest, g: Forest): Forest {
    match f
    case Nil => g
    case Cons(t, rest) => Cons(t, Append(rest, g))
  }

  lemma {:induction false} AppendForest(g: set<Rule>, e: Forest, f: Forest)
    requires ValidForest(g, e) && ValidForest(g, f)
    ensures ValidForest(g, Append(e, f))
    ensures Roots(Append(e, f)) == Roots(e) + Roots(f)
    ensures Yields(Append(e, f)) == Yields(e) + Yields(f)
  {
    match e
    case Nil =>
    case Cons(t, rest) =>
      AppendForest(g, rest, f);
      assert Roots(Append(e, f)) == [Root(t)] + (Roots(rest) + Roots(f));
      assert Yields(Append(e, f)) == Yield(t) + (Yields(rest) + Yields(f));
  }

  /** Derivations of two strings side by side. */
  lemma DerivesConcat(g: set<Rule>, a: seq<Symbol>, u: Word, b: seq<Symbol>, v: Word)
    requires DerivesSeq(g, a, u) && DerivesSeq(g, b, v)
    ensures DerivesSeq(g, a + b, u + v)
  {
    var e :| ForestFor(g, a, u, e);
    var f :| ForestFor(g, b, v, f);
    AppendForest(g, e, f);
    assert ForestFor(g, a + b, u + v, Append(e, f));
  }

  lemma DerivesSingle(g: set<Rule>, x: Symbol, w: Word)
    requires Derives(g, x, w)
    ensures DerivesSeq(g, [x], w)
  {
    var t :| TreeFor(g, x, w, t);
    var f := Cons(t, Nil);
    assert Roots(f.tail) == [] && Yields(f.tail) == [];
    assert Roots(f) == [Root(t)] + Roots(f.tail) && Yields(f) == Yield(t) + Yields(f.tail);
    assert ForestFor(g, [x], w, f);
  }

  lemma DerivesEmpty(g: set<Rule>)
    ensures DerivesSeq(g, [], [])
  {
    assert ForestFor(g, [], [], Nil);
  }

  /** The only derivation of a one-symbol string is a derivation of that symbol. */
  lemma SingleDerives(g: set<Rule>, x: Symbol, w: Word)
    requires DerivesSeq(g, [x], w)
    ensures Derives(g, x, w)
  {
    var f :| ForestFor(g, [x], w, f);
    assert f.Cons?;
    assert Roots(f)[0] == Root(f.head);
    assert |Roots(f)| == 1 + |Roots(f.tail)|;
    assert f.tail.Nil?;
    assert Yields(f.tail) == [];
    assert Yields(f) == Yield(f.head) + Yields(f.tail);
    assert TreeFor(g, x, w, f.head);
  }

  /** Applying a rule of the grammar to a derivation of its right-hand side. */
  lemma DerivesByRule(g: set<Rule>, r: Rule, w: Word)
    requires r in g && DerivesSeq(g, r.rhs, w)
    ensures Derives(g, r.lhs, w)
  {
    var f :| ForestFor(g, r.rhs, w, f);
    assert TreeFor(g, r.lhs, w, Node(r, f));
  }

  lemma DerivesSelf(g: set<Rule>, x: Symbol)
    requires x.Sym?
    ensures Derives(g, x, [x])
  {
    assert TreeFor(g, x, [x], Leaf(x));
  }
}
