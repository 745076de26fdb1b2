# Verified models of the algorithms in this repository

The repository holds AFL 2.52b, the uncompyle2 decompiler with its SPARK parser, and notes with
code. This project models the parts of it that are hard to get right and proves what each of them
is for. Where the code changes fields, buffers or maps step by step, the model is a class or a
method on arrays that does the same, proved against definitions on values; the protocol is a step
system.

| files | what they model |
|---|---|
| `SparkGrammar`, `SparkRewrite`, `SparkNullable`, `SparkAutomaton`, `SparkExpand`, `SparkRecogniser`, `SparkRounds`, `SparkOutcome`, `SparkParser` | SPARK's Earley parser: nullable symbols, the rewriting that isolates the empty word, the automaton built on demand, the recogniser, its outcome for every grammar |
| `Graphs`, `Kruskal` | the listing of Kruskal's algorithm with path compression |
| `TminSpec`, `TminPasses`, `Tmin` | afl-tmin's minimizer around an arbitrary target |
| `Bytecode`, `Deobfuscate` | removal of NOPs from Python bytecode with its jumps retargeted |
| `Common`, `ByteStrings` | what several models share |
| `ForkServer` | fuzzer, fork server, child, pipes and timer, in all interleavings |
| `CoverageSpec`, `Coverage` | coverage maps, hit-count classes, unique crashes |
| `FavoredQueue` | the table of best entries, reference counts and the choice of favored entries |
| `Hash` | `hash32` in both forms |
| `DictionaryFile`, `DictionaryLines`, `TokenCapture`, `DictionaryLoader` | token files, written and read |
| `Extras`, `DictionaryStage` | the dictionaries and the overwrite stages |
| `Trim` | the trimmer of queue entries |
| `HavocSpec`, `HavocBytes`, `HavocChoice`, `Havoc` | the havoc stage and the score that sets its length |
| `DislocatorSpec`, `Dislocator` | the libdislocator allocator |

`dafny verify dfyconfig.toml` checks all of it. A `hide` statement keeps the
definitions a proof does not need away from the prover; it has no other meaning.

## What the main results say

- **Parser.** With a nonempty rule for the start symbol `Parse` accepts a token string if and only
  if the grammar derives it from the start symbol. This goes through exact nullables, a rewriting
  that keeps every symbol's nonempty words, soundness of every item placed, completeness of closed
  sets, and bounds on states and items that make every growing worklist end. Without such a rule the
  code can go wrong: the first set names a state 2 that was never built or that stands for something
  else, so a run can raise KeyError or accept the empty input wrongly. `ParseOutcome.Result` gives
  the outcome in every case, for first and later runs, and `RightExactly` says when it is right.
- **Tokens.** A token may carry a type or not, one by one. One without a type is compared with
  terminals only, so the name of a symbol that has nonempty rules is never accepted from it.
- **Kruskal.** The result is a spanning forest and no spanning forest of the graph weighs less. Which of
  several equally light edges it has, and in what order, is said of the edges as they are given.
- **afl-tmin.** For any target the loops end; for a deterministic one the result is a given function
  of target and input, ends as the input did, and is 1-minimal; skipping repeated blocks changes
  nothing, and every stage judges each block, symbol or byte once, in order. That no symbol and no
  byte can be replaced either is false of the code because of its exit at line 549, which is taken
  whenever the first pass changes anything: a lemma gives a target and an input. These two
  minimalities hold exactly if the loop without that exit would end with the same data, and always
  if zeroing bytes never makes a rejected input accepted.
- **Bytecode.** Removal fails exactly when a jump before the cut, read off its operand bytes, leaves
  the instructions before the cut; otherwise old and new code have the same runs up to NOP steps, for
  every meaning of the instructions that takes addresses from the next instruction, its own operand
  or the saved ones.
- **Fork server.** Safety and progress hold at every point of every run of the step system. That a
  child runs its body at most max_cnt times fails for a child that calls its loop again after the
  loop has ended, because the counter wraps; it holds exactly for children that do not.
- **Coverage.** Each answer of the word-wise scan is explained by the traces seen, and a crash is
  judged unique at most MAP_SIZE + 1 times.
- **Queue.** Reference counts, compact traces, winners and counters are right after every routine,
  and after a cull the favored entries are exactly the greedy choice, which covers every rated byte.
  A winner has the smallest time times length of all scored entries that cover its byte.
- **hash32.** In the 32-bit form one changed word always changes the hash. In the 64-bit form this
  holds for the state before the cut and fails after it; both are proved.
- **Dictionaries.** Collected tokens are loaded before the user's, which are not compared with them,
  so the two may overlap; they do exactly if a saved token equals one of the user's up to case, and
  nothing collected later adds to it.
- **Token files.** Writing and reading are inverse if and only if no captured text of fitting length
  starts with a NUL, in which case the reader stops at that line. Which lines give a token, and which
  are skipped, is stated as a grammar of their bytes, in both directions.
- **Havoc.** The stage ends for every target, after exactly as many runs as its plan says by then.
  Each edit is stated in bytes, and the edits that chance can bring are exactly those written out in
  `HavocChoice.Possible`.

## Assumptions

- A target that is called deterministic gives the same answer on every run with the same input.
- A machine word is the bytes it is made of, lowest first.
- `FavoredQueue.Fuzzer.Calibrate` and `Trimmed`: an entry that holds a slot hits the same bytes each
  time it is scored, which is what equal checksums stand for, and costs no more than before. A trim
  that is given up (`exploitaion/AFL/afl-2.52b/afl-fuzz.c:4503-4506`) leaves the entry shorter without
  scoring it; the entry is then cheaper than the model says, so until it is scored again a winner
  need not be the cheapest entry for its byte.
- `Dislocator`: `mmap` gives whole pages that no mapping made before has a byte of, and not page 0;
  `mprotect` works.
- Iteration over a Python dictionary may be in any order.
- Random numbers are any numbers, taken modulo the limit of each draw. Where C leaves the order of two
  draws in one expression open, the place comes first.

## Model

| member | source | states |
|---|---|---|
| `EpsilonRewrite.PlainSymbolsKeepNonemptyWords` | reverse/tools/uncompyle2/uncompyle2/spark.py:211-243 | in the rewritten grammar a plain symbol derives exactly the nonempty words it derived before, for every grammar and every word |
| `EpsilonRewrite.MarkedSymbolsDeriveOnlyEmpty` | reverse/tools/uncompyle2/uncompyle2/spark.py:211-243 | a marked copy derives the empty word and nothing else, and does so exactly when its symbol was nullable |
| `EpsilonRewrite.UnmarkTreeValid` | reverse/tools/uncompyle2/uncompyle2/spark.py:211-243 | taking the marks off a derivation tree of the rewritten grammar gives a tree of the original grammar |
| `EpsilonRewrite.MarkTreeValid` | reverse/tools/uncompyle2/uncompyle2/spark.py:211-243 | marking every subtree with an empty yield turns a tree of the original grammar into one of the rewritten grammar |
| `EpsilonRewrite.YieldByMark` | reverse/tools/uncompyle2/uncompyle2/spark.py:286-291 | in a tree of the rewritten grammar the yield is empty just under the marked symbols |
| `EpsilonRewrite.VariantsAreVariants` | reverse/tools/uncompyle2/uncompyle2/spark.py:217-243 | the rules one worklist entry gives rise to are exactly the markings of its rule |
| `RewriteFacts.ClosedIsExact` | reverse/tools/uncompyle2/uncompyle2/spark.py:160-194 | a set of nullable symbols that is closed under the rules is the set of all nullable symbols |
| `RewriteFacts.NullableByRule` | reverse/tools/uncompyle2/uncompyle2/spark.py:186-194 | a rule whose right-hand side is flagged throughout makes its left-hand side nullable |
| `RewriteFacts.QueueCopy` | reverse/tools/uncompyle2/uncompyle2/spark.py:228-234 | queueing a marked copy and going on with the entry at hand accounts for the same rules as before |
| `RewriteFacts.EmitsOne` | reverse/tools/uncompyle2/uncompyle2/spark.py:235-243 | what is left of a treated entry is one rule, and no rule is lost or doubled |
| `RewriteFacts.AllEmitted` | reverse/tools/uncompyle2/uncompyle2/spark.py:217-243 | when the worklist is used up the emitted rules are exactly the rewriting |
| `SparkParser.GenericParser.constructor` | reverse/tools/uncompyle2/uncompyle2/spark.py:156-158 | the augmented grammar with only its start rule |
| `SparkParser.GenericParser.AddRule` | reverse/tools/uncompyle2/uncompyle2/spark.py:141-147 | one more rule under its left-hand side; the automaton built before no longer counts |
| `SparkParser.GenericParser.ComputeNull` | reverse/tools/uncompyle2/uncompyle2/spark.py:160-194 | ends, with the flags set for exactly the nonterminals that derive the empty word |
| `SparkParser.GenericParser.FirstLook` | reverse/tools/uncompyle2/uncompyle2/spark.py:164-182 | the first loop flags the empty rules and keeps exactly the rules of nonterminals only |
| `SparkParser.GenericParser.CloseNullable` | reverse/tools/uncompyle2/uncompyle2/spark.py:183-194 | the second loop ends, with flags closed under the rules kept |
| `SparkParser.GenericParser.InitialWorklist` | reverse/tools/uncompyle2/uncompyle2/spark.py:212-215 | the worklist accounts for exactly the rules of the rewriting |
| `SparkParser.GenericParser.QueueCopies` | reverse/tools/uncompyle2/uncompyle2/spark.py:217-238 | one entry becomes one rule to emit and copies that account for all its other markings |
| `SparkParser.GenericParser.Emit` | reverse/tools/uncompyle2/uncompyle2/spark.py:239-243 | the emitted rule is filed under its left-hand side, with the rule it came from |
| `SparkParser.GenericParser.MakeNewRules` | reverse/tools/uncompyle2/uncompyle2/spark.py:211-243 | the worklist ends, and the new rules are exactly the markings of the old ones |
| `SparkParser.GenericParser.Skip` | reverse/tools/uncompyle2/uncompyle2/spark.py:293-299 | the first position from pos on without a marked symbol |
| `SparkParser.GenericParser.Predict` | reverse/tools/uncompyle2/uncompyle2/spark.py:346-349 | the items that predict a nonterminal, one for each of its rules |
| `SparkParser.GenericParser.KernelItems` | reverse/tools/uncompyle2/uncompyle2/spark.py:307-311 | the items of a state moved over a symbol |
| `SparkParser.GenericParser.ExpandItem` | reverse/tools/uncompyle2/uncompyle2/spark.py:329-349 | one item of a state under construction: completions, edges and predictions are those the item calls for |
| `SparkParser.GenericParser.MakeState` | reverse/tools/uncompyle2/uncompyle2/spark.py:301-376 | the state found or built is the one with this kernel; the automaton stays consistent and keeps all it had |
| `SparkParser.GenericParser.AddNonkernel` | reverse/tools/uncompyle2/uncompyle2/spark.py:360-376 | the nonkernel state is found by its predicted set or built, and its edges are committed only then |
| `SparkParser.GenericParser.Goto` | reverse/tools/uncompyle2/uncompyle2/spark.py:378-393 | follows an edge and builds its target on first use, without losing anything |
| `SparkParser.GenericParser.GotoT` | reverse/tools/uncompyle2/uncompyle2/spark.py:395-396 | the target of the edge on a token's type, if there is that edge |
| `SparkParser.GenericParser.GotoST` | reverse/tools/uncompyle2/uncompyle2/spark.py:398-403 | for a token without a type: the target of its edge if it equals a terminal of the state, and nothing if it is the name of a symbol with rules or there is no token |
| `SparkParser.GenericParser.Add` | reverse/tools/uncompyle2/uncompyle2/spark.py:405-414 | an item is added to a set once |
| `SparkParser.GenericParser.Scan` | reverse/tools/uncompyle2/uncompyle2/spark.py:419-434 | every item that the token moves, with or without a type, and what it predicts, is in the next set; it fails exactly if the terminals of a state that does not exist are needed |
| `SparkParser.GenericParser.Complete` | reverse/tools/uncompyle2/uncompyle2/spark.py:436-451 | every completed rule of the item has moved the items that waited for it |
| `SparkParser.GenericParser.MakeSet` | reverse/tools/uncompyle2/uncompyle2/spark.py:416-451 | the growing set is worked off to its end: every item is scanned and completed and every item placed is sound; or it fails, exactly in the first round of a grammar whose start symbol predicts nothing, when state 2 was never built and the token does not build it |
| `SparkParser.GenericParser.MakeState0` | reverse/tools/uncompyle2/uncompyle2/spark.py:196-200 | state 0 holds the start rules with the dot in front |
| `SparkParser.GenericParser.FinalState` | reverse/tools/uncompyle2/uncompyle2/spark.py:202-209 | state 1 for an empty input with a nullable start symbol, otherwise the target of the start symbol, built if need be |
| `SparkParser.GenericParser.Build` | reverse/tools/uncompyle2/uncompyle2/spark.py:256-264 | what the first parse builds: exact nullables, the rewriting, and a consistent automaton |
| `SparkParser.GenericParser.BuildSets` | reverse/tools/uncompyle2/uncompyle2/spark.py:266-274 | all sets are built and closed, or it stopped at an empty one, or it failed in the first round |
| `SparkParser.GenericParser.BuildNextSet` | reverse/tools/uncompyle2/uncompyle2/spark.py:266-271 | one round: the set is closed and the next one begun, or an empty set ends the loop, or the first round fails |
| `SparkParser.GenericParser.Verdict` | reverse/tools/uncompyle2/uncompyle2/spark.py:276-277 | the final item is in the last set exactly when the rewritten grammar derives the tokens, but for the empty input of a grammar whose start symbol predicts nothing, which is accepted |
| `SparkParser.GenericParser.Recognise` | reverse/tools/uncompyle2/uncompyle2/spark.py:266-277 | the run over the tokens accepts, rejects or fails as described for the rewritten grammar, and afterwards state 2 is there exactly if it did not fail |
| `SparkParser.GenericParser.Parse` | reverse/tools/uncompyle2/uncompyle2/spark.py:252-284 | for every grammar, every input and every earlier use of the parser the outcome is the one given by ParseOutcome.Result, and it ends |
| `ParseOutcome.RightExactly` | reverse/tools/uncompyle2/uncompyle2/spark.py:252-277 | the outcome is the right one, accepted for the words of the language and rejected for all others, exactly if the start symbol has a nonempty rule; or, without one, if in a first run the input begins with a typed token or the start symbol's name, and in a later run if the input is not empty or the start symbol has a rule |
| `ParseOutcome.EmptyRuleCrashes` | reverse/tools/uncompyle2/uncompyle2/spark.py:253-277 | with the only rule that the start symbol is empty the first run fails on the empty input, which is derivable |
| `ParseOutcome.NoRuleAccepts` | reverse/tools/uncompyle2/uncompyle2/spark.py:202-209 | without a rule for the start symbol a later run accepts the empty input, which is not derivable |
| `ParseOutcome.CrashesUntilSighted` | reverse/tools/uncompyle2/uncompyle2/spark.py:256-264 | over any runs on the same rules: a run fails exactly if the start symbol has no nonempty rule and neither this input nor one before began with a typed token or the start symbol's name |
| `ParseOutcome.OutcomeIs` | reverse/tools/uncompyle2/uncompyle2/spark.py:252-277 | what the recogniser does on the rewritten grammar is, in terms of the grammar as given, the outcome described |
| `ParseOutcome.SeenLanguage` | reverse/tools/uncompyle2/uncompyle2/spark.py:398-403 | a token without a type that is named like a symbol with nonempty rules is never scanned; but for that the words recognised are those derived from the start symbol |
| `ParseOutcome.BareExactly` | reverse/tools/uncompyle2/uncompyle2/spark.py:336-361 | state 1 has a nonkernel state exactly if the start symbol has a nonempty rule |
| `EarleyMachine.StatesBounded` | reverse/tools/uncompyle2/uncompyle2/spark.py:313-320 | the automaton never has more states than there are cores: makeState cannot go on for ever |
| `EarleyMachine.AdvanceMember` | reverse/tools/uncompyle2/uncompyle2/spark.py:307-311 | an item is in the moved kernel exactly when it is a step of an item before |
| `EarleySets.StepSound` | reverse/tools/uncompyle2/uncompyle2/spark.py:308-311 | moving the dot over a derived symbol, and over the marked ones behind it, keeps what stands before the dot derivable |
| `EarleySets.EdgeSound` | reverse/tools/uncompyle2/uncompyle2/spark.py:428-431 | following an edge over a derived symbol takes a sound item to a sound item |
| `EarleySets.CompletedDerives` | reverse/tools/uncompyle2/uncompyle2/spark.py:439-442 | a completed rule of a sound item is a derivation of its left-hand side from the tokens it spans |
| `EarleySets.ClosedGrows` | reverse/tools/uncompyle2/uncompyle2/spark.py:416-451 | what is scanned and completed stays so while sets and automaton grow |
| `EarleySets.TreeIsFollowed` | reverse/tools/uncompyle2/uncompyle2/spark.py:416-451 | in closed sets every derivation tree over a span of tokens leads from item to item |
| `EarleySets.ForestIsFollowed` | reverse/tools/uncompyle2/uncompyle2/spark.py:416-451 | the same for the rest of a right-hand side |
| `EarleySets.SetBounded` | reverse/tools/uncompyle2/uncompyle2/spark.py:425-451 | a set holds at most (number of cores + 1) times (position + 1) items, so the loop over a growing set ends |
| `EarleySets.VerdictIsRight` | reverse/tools/uncompyle2/uncompyle2/spark.py:276-277 | in closed, sound sets the final item is there if and only if the tokens are derivable |
| `EarleySets.EmptySetRejects` | reverse/tools/uncompyle2/uncompyle2/spark.py:269-270 | when a set comes out empty before the end the tokens are not derivable |
| `ParserRounds.FinalItemDecides` | reverse/tools/uncompyle2/uncompyle2/spark.py:276-277 | in the sets built, for any grammar, the final item is there exactly when the tokens are derivable, or the input is empty and nothing is predicted |
| `ParserRounds.StumpResolved` | reverse/tools/uncompyle2/uncompyle2/spark.py:378-393 | when nothing is predicted, following the start symbol builds state 2, which has no way out |
| `ParserRounds.CrashSource` | reverse/tools/uncompyle2/uncompyle2/spark.py:398-400 | the only item whose state can be missing is the second one of the first set |
| `StateExpansion.AddState` | reverse/tools/uncompyle2/uncompyle2/spark.py:320-322 | adding a kernel state under its new core keeps the automaton consistent |
| `StateExpansion.NewNonkernel` | reverse/tools/uncompyle2/uncompyle2/spark.py:373-376 | adding a nonkernel state with the edges found for it keeps the automaton consistent |
| `StateExpansion.OldNonkernel` | reverse/tools/uncompyle2/uncompyle2/spark.py:368-371 | so does using the nonkernel state that exists already |
| `StateExpansion.SetTarget` | reverse/tools/uncompyle2/uncompyle2/spark.py:386-393 | filling in the target of an edge keeps the automaton consistent |
| `Kruskal.FindParent` | algorithm/ds.md:203-206 | returns the root and points every entry on the way at it; every entry keeps its root; ends on every forest |
| `Kruskal.CompressKeepsRoots` | algorithm/ds.md:204-206 | pointing an entry at its root moves no entry to another tree |
| `Kruskal.LinkMovesTree` | algorithm/ds.md:217 | linking one root below another moves exactly the entries of the first tree |
| `Kruskal.LinkMatches` | algorithm/ds.md:212-217 | after a link the trees are the components of the graph with the new edge |
| `Kruskal.SkipMatches` | algorithm/ds.md:212-217 | an edge inside a tree leaves the components as they are |
| `Kruskal.JoinEnds` | algorithm/ds.md:212-217 | the ends are joined exactly when they were not connected before |
| `Kruskal.TreatEdge` | algorithm/ds.md:211-217 | the edge is taken exactly when it closes no cycle; tree and cost stay a lightest forest of the edges seen and its weight |
| `Kruskal.FewerHeavyWeighsLess` | algorithm/ds.md:199-219 | of two forests of one size the one with more light edges below every weight weighs no more |
| `Kruskal.MoreLightEdges` | algorithm/ds.md:199-219 | a forest that joins the ends of every edge by edges no heavier has, below every weight, as many edges as any other forest |
| `Kruskal.MinimumSpanningTree` | algorithm/ds.md:187-219 | a spanning forest of the graph, lightest among all its spanning forests, for every weighted graph; an edge is in it exactly if the lighter edges and the equally light ones listed earlier do not connect its ends, and the edges come in that order |
| `Kruskal.SortSorts` | algorithm/ds.md:199 | sorted by weight |
| `Kruskal.SortPermutes` | algorithm/ds.md:199 | the same edges |
| `Kruskal.SortLists` | algorithm/ds.md:199 | the sort is stable: the edges are listed by weight and, for equal weights, in the order given |
| `Kruskal.GreedyTaken` | algorithm/ds.md:211-217 | of the edges in order exactly those are taken whose ends the edges before them do not connect |
| `Tmin.Minimizer.RunTarget` | exploitaion/AFL/afl-2.52b/afl-tmin.c:353-397 | a run is kept exactly if it did not time out and, by status, exit code 86 and the options, crashed as the first run did or ended as ordinarily, with the checksum recorded unless crashes need not match; the others are counted as missed hangs, crashes or paths |
| `Tmin.Minimizer.TryCut` | exploitaion/AFL/afl-2.52b/afl-tmin.c:515-533 | the data loses the block exactly when the target accepts the data without it |
| `Tmin.Minimizer.DeletePass` | exploitaion/AFL/afl-2.52b/afl-tmin.c:487-535 | the pass that skips repeated blocks ends with the same data as one that tries every block, and runs the target exactly for the blocks it does not skip; it ends for any target; with blocks of one byte and no change no byte can go |
| `TminSpec.EqualBlocksSameCut` | exploitaion/AFL/afl-2.52b/afl-tmin.c:502-513 | deleting a block or the equal block behind it gives the same data |
| `TminSpec.PassSkip` | exploitaion/AFL/afl-2.52b/afl-tmin.c:507-513 | so a block equal to the rejected block before it would be rejected |
| `TminSpec.SweepAccepts` | exploitaion/AFL/afl-2.52b/afl-tmin.c:494-535 | block deletion keeps the data accepted |
| `Tmin.Minimizer.DeleteStage` | exploitaion/AFL/afl-2.52b/afl-tmin.c:480-542 | for a deterministic target the data becomes what the sweeps at all halved lengths give; without a change no single byte can be deleted |
| `Tmin.Minimizer.NormalizeBlocks` | exploitaion/AFL/afl-2.52b/afl-tmin.c:430-464 | for a deterministic target exactly those blocks are zeroed, in order, that are not zero and that the target lets go |
| `Tmin.Minimizer.TrySymbol` | exploitaion/AFL/afl-2.52b/afl-tmin.c:571-590 | a symbol is replaced throughout exactly when the target accepts it |
| `Tmin.Minimizer.MinimizeSymbols` | exploitaion/AFL/afl-2.52b/afl-tmin.c:555-592 | without a change no symbol can be replaced |
| `Tmin.Minimizer.MinimizeChars` | exploitaion/AFL/afl-2.52b/afl-tmin.c:608-627 | without a change no single byte can be replaced |
| `Tmin.Minimizer.Minimize` | exploitaion/AFL/afl-2.52b/afl-tmin.c:415-636 | ends for any target, with deletions and zeros only; for a deterministic one the result is TminPasses.Minimized, it is accepted if the input is, and no byte of it can be deleted |
| `TminPasses.MinimalExactly` | exploitaion/AFL/afl-2.52b/afl-tmin.c:549-629 | no symbol and no byte of the result can be replaced exactly if the loop without its early exit ends with the same result |
| `TminPasses.LateExitMinimal` | exploitaion/AFL/afl-2.52b/afl-tmin.c:629 | a run that leaves the loop at its end leaves nothing to replace |
| `TminPasses.LateExitExactly` | exploitaion/AFL/afl-2.52b/afl-tmin.c:549-629 | the loop is left at its end if and only if the first pass changes nothing |
| `TminPasses.MonotoneTargetMinimal` | exploitaion/AFL/afl-2.52b/afl-tmin.c:549-629 | if zeroing bytes never makes a rejected input accepted, nothing of the result can be replaced, on every input |
| `TminPasses.EarlyExitNotMinimal` | exploitaion/AFL/afl-2.52b/afl-tmin.c:549 | a target and an input for which the minimizer leaves the loop early with a byte and a symbol that could be replaced |
| `TminPasses.MinimizedAccepts` | exploitaion/AFL/afl-2.52b/afl-tmin.c:415-636 | the stages together keep an accepted input accepted |
| `TminPasses.PassShrinks` | exploitaion/AFL/afl-2.52b/afl-tmin.c:466-629 | every pass that changes anything lowers the length plus the number of bytes that are not zero |
| `Tmin.Minimizer.Run` | exploitaion/AFL/afl-2.52b/afl-tmin.c:353-397 | the first run decides whether there is anything to minimize; otherwise the result ends like the input, with the same checksum or as any crash, no single byte of it can be deleted without losing that, and its bytes are those of the input or the character 0 |
| `Tmin.Minimizer.KeptAlike` | exploitaion/AFL/afl-2.52b/afl-tmin.c:362-395 | what is accepted after the first run, in terms of the outcome of that run |
| `TminSpec.SweepJudges` | exploitaion/AFL/afl-2.52b/afl-tmin.c:494-535 | a deletion pass judges every block once, in order, and keeps it exactly if the target rejects the blocks kept before it together with all blocks behind it |
| `TminSpec.SymbolsJudged` | exploitaion/AFL/afl-2.52b/afl-tmin.c:571-592 | the symbol stage tries every symbol of the data once, in order, together with those replaced before |
| `TminSpec.CharsJudged` | exploitaion/AFL/afl-2.52b/afl-tmin.c:608-627 | the character stage tries every byte once, in order, with what was decided before it and the original behind it |
| `TminPasses.NormalizeJudges` | exploitaion/AFL/afl-2.52b/afl-tmin.c:437-464 | block normalisation tries every block once, in order, unless it is all zeros already |
| `TminPasses.FirstLengths` | exploitaion/AFL/afl-2.52b/afl-tmin.c:430-480 | the first block lengths: the least powers of two that are at least 4 and a 128th of the data, and a 16th of it |
| `TminPasses.SweepsHalve` | exploitaion/AFL/afl-2.52b/afl-tmin.c:482-542 | block deletion sweeps once at each power of two from the first length down to 1, or until nothing is left |
| `Tmin.NextP2` | exploitaion/AFL/afl-2.52b/afl-tmin.c:404-410 | the smallest power of two that is not smaller |
| `Deobfuscate.Scanner.FindCut` | reverse/tools/uncompyle2/uncompyle2/Scanner.py:95-99 | the cut is just behind the last instruction that ends code |
| `Deobfuscate.Scanner.DropNops` | reverse/tools/uncompyle2/uncompyle2/Scanner.py:107-118 | the kept instructions in order, with both position maps |
| `Deobfuscate.Scanner.RetargetAt` | reverse/tools/uncompyle2/uncompyle2/Scanner.py:122-134 | one jump gets the operand, low byte first, that leads to the new place of its target, or there is no such place |
| `Deobfuscate.Scanner.RetargetJumps` | reverse/tools/uncompyle2/uncompyle2/Scanner.py:121-134 | all jumps are retargeted, or some target is missing |
| `Deobfuscate.Scanner.Deobfuscate` | reverse/tools/uncompyle2/uncompyle2/Scanner.py:94-134 | the code is cut behind its last ending instruction; it fails exactly if some operand, read low byte first, gives no start of an instruction before the cut; otherwise the new code has the same instructions without NOPs, and every operand gives the new place of what the old one gave |
| `Deobfuscate.InsideInBytes` | reverse/tools/uncompyle2/uncompyle2/Scanner.py:124-137 | a jump stays inside exactly if its two operand bytes, low byte first and from behind the jump for a relative one, give the start of an instruction |
| `Deobfuscate.MovedInBytes` | reverse/tools/uncompyle2/uncompyle2/Scanner.py:124-141 | in the new code the two operand bytes of every jump give the new place of its target |
| `Deobfuscate.OperandFits` | reverse/tools/uncompyle2/uncompyle2/Scanner.py:128-134 | every rewritten operand, relative or absolute, fits in two bytes |
| `Deobfuscate.NewPosMonotone` | reverse/tools/uncompyle2/uncompyle2/Scanner.py:107-118 | positions keep their order and distances only shrink |
| `Bytecode.NoOverlap` | reverse/tools/uncompyle2/uncompyle2/Scanner.py:450-459 | instructions found by stepping through the code do not overlap |
| `Bytecode.StartsAre` | reverse/tools/uncompyle2/uncompyle2/Scanner.py:456-459 | instructions start at 0 and one or three bytes behind the start of another, by its opcode, and nowhere else |
| `Bytecode.OneRun` | reverse/tools/uncompyle2/uncompyle2/Scanner.py:94-133 | running is deterministic |
| `Bytecode.EffectShowsOperand` | reverse/tools/uncompyle2/uncompyle2/Scanner.py:120-141 | an effect shows the operand, low byte first, unless it is an address |
| `Bytecode.StepCorresponds` | reverse/tools/uncompyle2/uncompyle2/Scanner.py:94-134 | a step of the old code is no step, for a NOP, or the same step of the new code |
| `Bytecode.OldRunsInNew` | reverse/tools/uncompyle2/uncompyle2/Scanner.py:94-134 | every run of the old code is a run of the new code without the NOP steps |
| `Bytecode.NewRunsInOld` | reverse/tools/uncompyle2/uncompyle2/Scanner.py:94-134 | every run of the new code comes from a run of the old code with the same effects |
| `Bytecode.SameEffects` | reverse/tools/uncompyle2/uncompyle2/Scanner.py:94-134 | from the start both codes can have exactly the same sequences of effects, whatever the instructions do with data and with the places they know: the next instruction, their own target and any saved places |
| `Bytecode.PlaceMoves` | reverse/tools/uncompyle2/uncompyle2/Scanner.py:121-134 | every place an instruction can name moves with the code |
| `Bytecode.CutRunsInCode` | reverse/tools/uncompyle2/uncompyle2/Scanner.py:95-99 | a run of the cut code is a run of the whole code |
| `ForkServer.ServerKeepsInv` | exploitaion/AFL/afl-2.52b/llvm_mode/afl-llvm-rt.o.c:107-169 | every step of the fork server keeps the protocol's invariant |
| `ForkServer.FuzzerKeepsInv` | exploitaion/AFL/afl-2.52b/afl-fuzz.c:2269-2434 | every step of run_target keeps it |
| `ForkServer.AlarmKeepsInv` | exploitaion/AFL/afl-2.52b/afl-fuzz.c:6784-6798 | the timer may go off at any point |
| `ForkServer.ChildKeepsInv` | exploitaion/AFL/afl-2.52b/llvm_mode/afl-llvm-rt.o.c:176-226 | every step of the child and its persistent loop keeps it, a call after the loop has ended included |
| `ForkServer.RunsKeepInv` | exploitaion/AFL/afl-2.52b/llvm_mode/afl-llvm-rt.o.c:95-226 | the invariant holds at every point of every run |
| `ForkServer.AllRunsSafe` | exploitaion/AFL/afl-2.52b/llvm_mode/afl-llvm-rt.o.c:95-226 | at every point of every run: at most one child, none running while the bitmap is cleared or read, SIGCONT only to a stopped child, all children reaped before a fork, no mutual wait, and max_cnt bodies at most for a child that has not called its loop again after the end |
| `ForkServer.BodiesBoundedExactly` | exploitaion/AFL/afl-2.52b/llvm_mode/afl-llvm-rt.o.c:176-226 | a running child has kept within max_cnt bodies exactly if it has not called its loop again after the end |
| `ForkServer.WrapsAtCallsAgain` | exploitaion/AFL/afl-2.52b/llvm_mode/afl-llvm-rt.o.c:199-201 | the counter wraps around at such calls and at no other step |
| `ForkServer.SecondBody` | exploitaion/AFL/afl-2.52b/llvm_mode/afl-llvm-rt.o.c:199-207 | a run in which a child that was allowed one body runs two |
| `ForkServer.NeverStuck` | exploitaion/AFL/afl-2.52b/afl-fuzz.c:2360-2416 | some side can always go on, or a live child with an armed timer is waited for |
| `ForkServer.CallsEnd` | exploitaion/AFL/afl-2.52b/afl-fuzz.c:2261-2434 | a call of run_target takes at most 14 steps besides the child's own |
| `ForkServer.FreshPid` | exploitaion/AFL/afl-2.52b/llvm_mode/afl-llvm-rt.o.c:129 | fork can always find an unused process number |
| `CoverageSpec.AfterBit` | exploitaion/AFL/afl-2.52b/afl-fuzz.c:932 | after any run of traces a bit is left exactly when it was there and no trace had it |
| `CoverageSpec.OrderDoesNotMatter` | exploitaion/AFL/afl-2.52b/afl-fuzz.c:932 | the same traces in any order and number leave the same map |
| `CoverageSpec.VerdictMeans` | exploitaion/AFL/afl-2.52b/afl-fuzz.c:898-943 | 2 exactly for a tuple no trace of the run hit, nonzero exactly for a hit-count bit no trace had there |
| `CoverageSpec.NewsBounded` | exploitaion/AFL/afl-2.52b/afl-fuzz.c:898-943 | a run of any length brings news at most 8 times for each byte of the map |
| `CoverageSpec.UniqueMeans` | exploitaion/AFL/afl-2.52b/afl-fuzz.c:3248-3256 | on simplified traces: some tuple hit that none hit before, or missed that all hit before |
| `CoverageSpec.UniqueBounded` | exploitaion/AFL/afl-2.52b/afl-fuzz.c:3246-3274 | at most one crash more than the map has bytes is ever unique |
| `Coverage.HasNewBits` | exploitaion/AFL/afl-2.52b/afl-fuzz.c:878-945 | the word-wise scan gives the verdict of the bytewise definition and clears exactly the trace's bits |
| `Coverage.ScanWord` | exploitaion/AFL/afl-2.52b/afl-fuzz.c:904-934 | one word: its news joined to the answer so far, its bits cleared |
| `Coverage.ClassIsOneBit` | exploitaion/AFL/afl-2.52b/afl-fuzz.c:1114-1126 | a hit count's class is one bit, none for zero |
| `Coverage.ClassifiedNews` | exploitaion/AFL/afl-2.52b/afl-fuzz.c:1114-1169 | on classified traces there is news exactly when some tuple has a class no earlier trace gave it |
| `Coverage.ClassifiedTwiceExactly` | exploitaion/AFL/afl-2.52b/afl-fuzz.c:1114-1126 | classifying a trace twice is the same as once exactly if no count lies between 3 and 31 |
| `Coverage.InitCountClass16` | exploitaion/AFL/afl-2.52b/afl-fuzz.c:1131-1141 | the table classifies both halves of a pair |
| `Coverage.ClassifyCounts` | exploitaion/AFL/afl-2.52b/afl-fuzz.c:1146-1169 | every byte becomes the one that stands for its range of counts: 1, 2, 3, 4 to 7, 8 to 15, 16 to 31, 32 to 127, 128 and more |
| `Coverage.ClassBuckets` | exploitaion/AFL/afl-2.52b/afl-fuzz.c:1114-1126 | each class stands for one range of hit counts |
| `Coverage.SimplifyTrace` | exploitaion/AFL/afl-2.52b/afl-fuzz.c:1052-1081 | every byte becomes 1 for not hit or 128 for hit |
| `Coverage.CrashLog.constructor` | exploitaion/AFL/afl-2.52b/afl-fuzz.c:1349 | the crash map starts with all bits set |
| `Coverage.CrashLog.OnCrash` | exploitaion/AFL/afl-2.52b/afl-fuzz.c:3236-3274 | unique exactly when the crash hits a tuple no compared crash hit or misses one that all of them hit; the count is exact and bounded |
| `FavoredQueue.MinimizeBits` | exploitaion/AFL/afl-2.52b/afl-fuzz.c:1212-1221 | bit i mod 8, from the lowest, of byte i / 8 is set exactly if byte i is not zero |
| `FavoredQueue.Fuzzer.AddToQueue` | exploitaion/AFL/afl-2.52b/afl-fuzz.c:776-797 | a new entry at the end of the queue; all counts and ratings stay right |
| `FavoredQueue.Fuzzer.Contend` | exploitaion/AFL/afl-2.52b/afl-fuzz.c:1246-1276 | the byte goes to the entry exactly if it had no holder or the entry's time times length is no larger than the holder's; reference counts, compact traces and ranking stay right |
| `FavoredQueue.Fuzzer.UpdateBitmapScore` | exploitaion/AFL/afl-2.52b/afl-fuzz.c:1236-1278 | exactly the bytes of the trace that had no holder, or one whose time times length is not smaller, go to the entry, and the change of score is noted exactly then |
| `FavoredQueue.Fuzzer.Calibrate` | exploitaion/AFL/afl-2.52b/afl-fuzz.c:2551-2639 | a failed calibration is only counted; a good one scores the entry |
| `FavoredQueue.Fuzzer.Trimmed` | exploitaion/AFL/afl-2.52b/afl-fuzz.c:4556-4573 | a shortened entry is scored again on its clean trace |
| `FavoredQueue.Fuzzer.CullQueue` | exploitaion/AFL/afl-2.52b/afl-fuzz.c:1287-1336 | unless nothing changed, exactly the greedy choice becomes favored, and both counters are recounted |
| `FavoredQueue.Fuzzer.CullByte` | exploitaion/AFL/afl-2.52b/afl-fuzz.c:1312-1328 | the winner of a byte not covered yet is picked and its bytes are taken out |
| `FavoredQueue.Fuzzer.AbandonEntry` | exploitaion/AFL/afl-2.52b/afl-fuzz.c:6605-6609 | a calibrated entry becomes fuzzed, and the pending counts go down by as much as they should |
| `FavoredQueue.TakeSlot` | exploitaion/AFL/afl-2.52b/afl-fuzz.c:1248-1272 | a byte changing hands keeps counts, compact traces and ranking right |
| `FavoredQueue.PicksCover` | exploitaion/AFL/afl-2.52b/afl-fuzz.c:1312-1328 | the greedy choice covers every rated byte |
| `FavoredQueue.PickedOnce` | exploitaion/AFL/afl-2.52b/afl-fuzz.c:1312-1328 | no entry is picked twice |
| `FavoredQueue.FavoredCoverAll` | exploitaion/AFL/afl-2.52b/afl-fuzz.c:1287-1336 | from a cull until the next change of score, what any scored entry covers some favored entry covers |
| `FavoredQueue.Fuzzer.HoldersCheapest` | exploitaion/AFL/afl-2.52b/afl-fuzz.c:1236-1278 | between the steps, the holder of a byte has the smallest time times length of all scored entries that cover it |
| `FavoredQueue.PicksDecide` | exploitaion/AFL/afl-2.52b/afl-fuzz.c:1312-1328 | a winner is chosen exactly if it wins some byte that no winner chosen for an earlier byte covers |
| `Hash32.Hash` | exploitaion/AFL/afl-2.52b/hash.h:71-98 | the loop over the words and the finish compute the fold of the round, and the formula with the constants of the code |
| `Hash32.HashIsFormula` | exploitaion/AFL/afl-2.52b/hash.h:71-98 | the fold of undoable steps is the iterated mixing and the finish of the code, with its constants |
| `Hash32.RoundUndone` | exploitaion/AFL/afl-2.52b/hash.h:80-88 | state and word can each be got back from a round's result and the other |
| `Hash32.FinishUndone` | exploitaion/AFL/afl-2.52b/hash.h:92-96 | the finish is a bijection |
| `Hash32.OneWordChangesHash` | exploitaion/AFL/afl-2.52b/hash.h:71-98 | buffers of any length that differ in exactly one word have different hashes |
| `Hash32.EveryHashOnce` | exploitaion/AFL/afl-2.52b/hash.h:71-98 | with the other words fixed every 32-bit value is the hash for exactly one value of a word |
| `Hash32.OtherStartChangesHash` | exploitaion/AFL/afl-2.52b/hash.h:74 | so does another seed, or another length with the same words |
| `Hash64.Hash` | exploitaion/AFL/afl-2.52b/hash.h:36-63 | the loop over the words, the finish and the cut to 32 bits compute the fold of the round, and the formula with the constants of the code |
| `Hash64.StateIsFormula` | exploitaion/AFL/afl-2.52b/hash.h:36-63 | the fold of undoable steps is the iterated mixing and the finish of the code, with its constants |
| `Hash64.RoundUndone` | exploitaion/AFL/afl-2.52b/hash.h:45-53 | state and word can each be got back from a round's result and the other |
| `Hash64.FinishUndone` | exploitaion/AFL/afl-2.52b/hash.h:57-61 | the finish is a bijection |
| `Hash64.OneWordChangesAll64` | exploitaion/AFL/afl-2.52b/hash.h:36-63 | buffers that differ in exactly one word have different 64-bit states before the cut |
| `Hash64.EveryStateOnce` | exploitaion/AFL/afl-2.52b/hash.h:36-63 | with the other words fixed every state is reached by exactly one value of a word |
| `Hash64.CutCollides` | exploitaion/AFL/afl-2.52b/hash.h:63 | the cut to 32 bits loses this: for all other words two values of a word collide |
| `HashFold.OneWordChangesState` | exploitaion/AFL/afl-2.52b/hash.h:43-55 | one changed word changes the state after all later words, for any invertible round |
| `TokenCapture.Print` | exploitaion/AFL/afl-2.52b/libtokencap/libtokencap.so.c:101-131 | the token, cut at its first NUL if it is text, written byte by byte as it is or as a hexadecimal escape; no write passes the end of the buffer |
| `TokenCapture.Capture.Dump` | exploitaion/AFL/afl-2.52b/libtokencap/libtokencap.so.c:99-135 | a token of 3 to 32 bytes is appended as one line; the file is always the lines of all tokens captured |
| `DictionaryFile.LineRoundTrip` | exploitaion/AFL/afl-2.52b/afl-fuzz.c:1537-1653 | a written line is read back as its token; an empty token stops the reader |
| `DictionaryFile.FileRoundTrip` | exploitaion/AFL/afl-2.52b/afl-fuzz.c:1537-1653 | any list of tokens is read back exactly and in order, or the reader stops at the line of the first empty one |
| `DictionaryFile.CaptureRoundTrip` | exploitaion/AFL/afl-2.52b/libtokencap/libtokencap.so.c:99-135 | what any run of captures wrote is read back if and only if no text of fitting length starts with a NUL |
| `DictionaryFile.UnescapeUndoes` | exploitaion/AFL/afl-2.52b/afl-fuzz.c:1594-1639 | reading the escapes undoes writing them, for every byte string |
| `DictionaryFile.EscapedIsPlain` | exploitaion/AFL/afl-2.52b/libtokencap/libtokencap.so.c:109-127 | a written token has only printable characters and no quote |
| `DictionaryLoader.TrimLine` | exploitaion/AFL/afl-2.52b/afl-fuzz.c:1543-1550 | the line is trimmed in place |
| `DictionaryLoader.CopyKeyword` | exploitaion/AFL/afl-2.52b/afl-fuzz.c:1584-1639 | the keyword is unescaped or refused, within the space allocated for it |
| `DictionaryLoader.ParseLine` | exploitaion/AFL/afl-2.52b/afl-fuzz.c:1543-1651 | one line is skipped, refused or read as its definition says, in place in the line buffer; it gives a token exactly if it has the form of a labelled or unlabelled quoted text, and a line of this form is skipped exactly if its number exceeds the level |
| `DictionaryLoader.ReadLine` | exploitaion/AFL/afl-2.52b/afl-fuzz.c:1537 | as fgets: up to a newline or the size of the buffer |
| `DictionaryLoader.Dictionary.LoadExtrasFile` | exploitaion/AFL/afl-2.52b/afl-fuzz.c:1525-1655 | the file is read as its lines in turn, split as fgets does: the tokens of all lines are added in order, or the number and reason of the first bad line is given |
| `DictionaryLines.TokenLines` | exploitaion/AFL/afl-2.52b/afl-fuzz.c:1543-1651 | a line gives a token if and only if it has blanks, a label, perhaps @ and a number not above the level, a gap of blanks and equals signs, and between quotes a text that spells the token of at most 128 bytes |
| `DictionaryLines.PartsRead` | exploitaion/AFL/afl-2.52b/afl-fuzz.c:1564-1651 | what becomes of any line of this form: skipped exactly if the number exceeds the level, an empty text and a too long token end the program |
| `DictionaryLines.PlainLines` | exploitaion/AFL/afl-2.52b/afl-fuzz.c:1543-1562 | blank lines and comments are skipped, and of all other lines exactly those that do not end in a quote are refused for that |
| `DictionaryLines.ReadsSpelled` | exploitaion/AFL/afl-2.52b/afl-fuzz.c:1594-1639 | a text is read as t if and only if it spells t: printable bytes, a doubled backslash, a backslash before a quote, and hexadecimal escapes |
| `DictionaryLines.NumberRead` | exploitaion/AFL/afl-2.52b/afl-fuzz.c:1575 | the number after @ is the decimal value of its digits |
| `DictionaryLines.LinesRead` | exploitaion/AFL/afl-2.52b/afl-fuzz.c:1537-1653 | without a bad line, the tokens of all lines in order |
| `DictionaryLines.FirstBadLine` | exploitaion/AFL/afl-2.52b/afl-fuzz.c:1537-1653 | otherwise the first bad line, with its number |
| `DictionaryLines.SplitFile` | exploitaion/AFL/afl-2.52b/afl-fuzz.c:1537 | every file is a list of lines as fgets takes them |
| `DictionaryLines.WrittenEscaped` | exploitaion/AFL/afl-2.52b/libtokencap/libtokencap.so.c:109-127 | how a token is written, byte by byte |
| `Extras.QSort` | exploitaion/AFL/afl-2.52b/afl-fuzz.c:1508-1520 | the same elements in order |
| `Extras.MatchesSorted` | exploitaion/AFL/afl-2.52b/afl-fuzz.c:1812-1819 | looking only at tokens of the right length misses none, because they are sorted by length |
| `Extras.Dictionaries.LoadAuto` | exploitaion/AFL/afl-2.52b/afl-fuzz.c:1908-1946 | afterwards the collected tokens are, up to case, exactly the saved ones of fitting length that maybe_add_auto takes |
| `Extras.Dictionaries.LoadExtras` | exploitaion/AFL/afl-2.52b/afl-fuzz.c:1662-1752 | the user's tokens are added and sorted by length; the collected ones are not looked at |
| `Extras.SetUp` | exploitaion/AFL/afl-2.52b/afl-fuzz.c:7960-7964 | at the start of a session the two dictionaries have tokens in common, up to case, exactly if a saved token that is taken equals one of the user's |
| `Extras.SavedTokenClashes` | exploitaion/AFL/afl-2.52b/afl-fuzz.c:7960-7964 | a token that was saved and is in the user's dictionary is an instance of that |
| `Extras.Dictionaries.MaybeAddAuto` | exploitaion/AFL/afl-2.52b/afl-fuzz.c:1774-1875 | a token is recorded exactly if it is no run of one byte, no builtin value and none of the user's; recorded again it has one use more and all others keep theirs; collected tokens stay pairwise different up to case, none comes to match one of the user's, and the top ones are the most used and sorted by length |
| `Extras.NoNewClash` | exploitaion/AFL/afl-2.52b/afl-fuzz.c:1812-1819 | recording a token that matches none of the user's makes no match between the dictionaries |
| `Extras.AdditionMatches` | exploitaion/AFL/afl-2.52b/afl-fuzz.c:1837-1853 | while there is room a recorded token and everything there before can still be found |
| `Extras.AdditionCounts` | exploitaion/AFL/afl-2.52b/afl-fuzz.c:1829-1861 | what recording does to the use counts, and which token may be pushed out |
| `DictionaryStage.PasteOver` | exploitaion/AFL/afl-2.52b/afl-fuzz.c:5895-5920 | a paste over a shorter one leaves no trace of it |
| `DictionaryStage.ShorterPasteOver` | exploitaion/AFL/afl-2.52b/afl-fuzz.c:5895-5920 | a paste over a longer one is clean if and only if the rest of that one equals the original |
| `DictionaryStage.DictionariesFit` | exploitaion/AFL/afl-2.52b/afl-fuzz.c:1863-1873 | dictionaries sorted as load_extras and maybe_add_auto leave them are sorted as the stages need |
| `DictionaryStage.OverwriteStage.TryToken` | exploitaion/AFL/afl-2.52b/afl-fuzz.c:5900-5922 | a token is run or skipped, and a skipped one would have repeated the buffer or was not meant for this place |
| `DictionaryStage.OverwriteStage.Overwrite` | exploitaion/AFL/afl-2.52b/afl-fuzz.c:5885-5931 | each input run is the original with exactly one token pasted where it fits; every token meant for a place was run there or changes nothing new; the buffer is restored and the count of rounds adds up |
| `Trim.Trimmer.WriteWithGap` | exploitaion/AFL/afl-2.52b/afl-fuzz.c:2496-2518 | what is tested is the data without the block |
| `Trim.Trimmer.TryBlock` | exploitaion/AFL/afl-2.52b/afl-fuzz.c:4503-4541 | the block is gone exactly when the run without it had the recorded checksum, and what is kept is what was tested |
| `Trim.Trimmer.TrimPass` | exploitaion/AFL/afl-2.52b/afl-fuzz.c:4492-4548 | one sweep runs the target fewer than 1024 times |
| `Trim.Trimmer.TrimCase` | exploitaion/AFL/afl-2.52b/afl-fuzz.c:4463-4555 | ends for any target; the result is a subsequence with the first four bytes, has the recorded checksum if anything was cut or it had it before, and is what trying every block of every length gives |
| `Trim.FewBlocks` | exploitaion/AFL/afl-2.52b/afl-fuzz.c:4486 | no block length tried divides the data into more than 1024 blocks |
| `Trim.SweepSparesFirst` | exploitaion/AFL/afl-2.52b/afl-fuzz.c:4489-4548 | a sweep spares the first block and judges each of the others once, in order, with the blocks kept before it and all behind it |
| `Trim.TrimmedHalves` | exploitaion/AFL/afl-2.52b/afl-fuzz.c:4486-4553 | trimming sweeps once at each halved length, down to the last that is at least 4 and a 1024th of the length there is by then |
| `Trim.CutIsSubsequence` | exploitaion/AFL/afl-2.52b/afl-fuzz.c:4525-4526 | cutting a block leaves a subsequence |
| `HavocSpec.ScoreBounds` | exploitaion/AFL/afl-2.52b/afl-fuzz.c:4683-4754 | the score is never below 2 and never above 1600 |
| `HavocSpec.EditKeepsSize` | exploitaion/AFL/afl-2.52b/afl-fuzz.c:6096-6470 | an edit leaves at least one byte and at most MAX_FILE |
| `HavocSpec.FlipChanges` | exploitaion/AFL/afl-2.52b/afl-fuzz.c:6098-6102 | a flipped bit changes the data, and flipping it again restores it |
| `HavocSpec.XorChanges` | exploitaion/AFL/afl-2.52b/afl-fuzz.c:6265-6268 | an exclusive or with a nonzero byte changes the data, and done again restores it |
| `HavocSpec.NumberHasValue` | exploitaion/AFL/afl-2.52b/afl-fuzz.c:6112-6252 | writing a number in either byte order and reading it in the same order gives it back |
| `HavocBytes.MakesInBytes` | exploitaion/AFL/afl-2.52b/afl-fuzz.c:6096-6470 | every edit in bytes: the bit turned, the number read back in its byte order, the block moved, filled or deleted, and everything else as it was |
| `HavocBytes.InterestingFits` | exploitaion/AFL/afl-2.52b/config.h:217-248 | the values tried fit in their width with a sign |
| `HavocBytes.SpeedBands` | exploitaion/AFL/afl-2.52b/afl-fuzz.c:4693-4699 | the share for speed, with the fractions cross-multiplied |
| `HavocBytes.SizeBands` | exploitaion/AFL/afl-2.52b/afl-fuzz.c:4704-4709 | the share for coverage, rounded down |
| `HavocBytes.ScoreFactors` | exploitaion/AFL/afl-2.52b/afl-fuzz.c:4715-4743 | the factors for latecomers and depth, and the limit of 1600 |
| `HavocChoice.ExactlyPossible` | exploitaion/AFL/afl-2.52b/afl-fuzz.c:6096-6470 | the edits that some random numbers bring about are exactly the possible ones, written out kind by kind with the lengths and places that can come up |
| `HavocChoice.KindPossible` | exploitaion/AFL/afl-2.52b/afl-fuzz.c:6096-6470 | whatever the random numbers, the edit is a possible one |
| `HavocChoice.Brought` | exploitaion/AFL/afl-2.52b/afl-fuzz.c:6096-6470 | for every possible edit, random numbers that bring it about |
| `HavocChoice.LenDrawn` | exploitaion/AFL/afl-2.52b/afl-fuzz.c:4639-4669 | every block length up to the limit and to 32, 128 or 32768 can be drawn |
| `Havoc.HavocStage.ChooseBlockLen` | exploitaion/AFL/afl-2.52b/afl-fuzz.c:4639-4676 | the length that the random numbers give; at least one and at most the limit, and at most 32, 128 or 32768 by how far the session is |
| `Havoc.HavocStage.SetInteresting` | exploitaion/AFL/afl-2.52b/afl-fuzz.c:6104-6156 | a value from the table for the width is written in one byte order, unless the data is too short |
| `Havoc.HavocStage.Arith` | exploitaion/AFL/afl-2.52b/afl-fuzz.c:6158-6252 | a number of 1 to 35 is added, or subtracted as asked, wrapping around, in one byte order, unless the data is too short |
| `Havoc.HavocStage.DeleteBytes` | exploitaion/AFL/afl-2.52b/afl-fuzz.c:6264-6287 | a block is deleted, never all of the data, and nothing from data of one byte |
| `Havoc.HavocStage.GrowBytes` | exploitaion/AFL/afl-2.52b/afl-fuzz.c:6289-6338 | a block of the data or of one byte is inserted, unless that could reach MAX_FILE |
| `Havoc.HavocStage.OverwriteBytes` | exploitaion/AFL/afl-2.52b/afl-fuzz.c:6340-6364 | a block is overwritten with another or with one byte, unless there is only one byte |
| `Havoc.HavocStage.OverwriteExtra` | exploitaion/AFL/afl-2.52b/afl-fuzz.c:6369-6403 | a token overwrites a place it fits in; nothing is done only if the token chosen is too long |
| `Havoc.HavocStage.InsertExtra` | exploitaion/AFL/afl-2.52b/afl-fuzz.c:6405-6460 | a token is inserted; nothing is done only if it would reach MAX_FILE |
| `Havoc.HavocStage.EditOnce` | exploitaion/AFL/afl-2.52b/afl-fuzz.c:6096-6470 | the edit that the random numbers give is made, within the buffer; it is legal and does in bytes what its kind says |
| `Havoc.HavocStage.Restore` | exploitaion/AFL/afl-2.52b/afl-fuzz.c:6475-6480 | the buffer holds the original again, enlarged first if it became too small |
| `Havoc.HavocStage.Run` | exploitaion/AFL/afl-2.52b/afl-fuzz.c:6050-6499 | ends even if every run finds something: the plan is doubled at most ten times; the number of runs is the planned one, doubled once for each find as long as the score allows; every input run is a stack of legal edits of the original; the buffer is the original in the end |
| `Dislocator.Allocator.DislocatorAlloc` | exploitaion/AFL/afl-2.52b/libdislocator/libdislocator.so.c:89-143 | succeeds exactly when the limit allows it and mmap works; the zeroed block ends at its guard page; no other block changes |
| `Dislocator.Allocator.Calloc` | exploitaion/AFL/afl-2.52b/libdislocator/libdislocator.so.c:149-174 | refuses exactly the products that wrap around, and zeroes the block |
| `Dislocator.Allocator.Malloc` | exploitaion/AFL/afl-2.52b/libdislocator/libdislocator.so.c:182-194 | the same, with the block clobbered |
| `Dislocator.Allocator.Free` | exploitaion/AFL/afl-2.52b/libdislocator/libdislocator.so.c:201-225 | the base is recovered from address and length; the block is never readable again; freeing it twice crashes; an address that is no block's is caught by the canary test; no other block changes |
| `Dislocator.Allocator.Realloc` | exploitaion/AFL/afl-2.52b/libdislocator/libdislocator.so.c:231-251 | a new block with the bytes of the old one as far as both reach, which is freed; without room nothing changes; a freed block or a wrong address is caught by the canary test, after the new block was made |
| `Dislocator.CanaryBelow` | exploitaion/AFL/afl-2.52b/libdislocator/libdislocator.so.c:237-239 | making a block does not change what the canary test says of another address |
| `Dislocator.FreeReads` | exploitaion/AFL/afl-2.52b/libdislocator/libdislocator.so.c:209-220 | the canary can be read exactly below live blocks, and address and length give the base of the mapping |
| `Dislocator.Allocator.MmapFits` | exploitaion/AFL/afl-2.52b/libdislocator/libdislocator.so.c:111-131 | in the pages that mmap gives the block, ending where the guard page starts, touches nothing that was mapped before |
| `Dislocator.Allocator.LiveBlock` | exploitaion/AFL/afl-2.52b/libdislocator/libdislocator.so.c:111-137 | below every live block stand its length and the canary, low byte first, and it ends at a page boundary before a page that cannot be touched |
| `Dislocator.Allocator.FreedBlock` | exploitaion/AFL/afl-2.52b/libdislocator/libdislocator.so.c:213-220 | of a freed block nothing can be touched, guard page included |
| `DislocatorSpec.FewestPages` | exploitaion/AFL/afl-2.52b/libdislocator/libdislocator.so.c:62 | a block has as few pages as hold it and its header |
| `DislocatorSpec.AllocKeeps` | exploitaion/AFL/afl-2.52b/libdislocator/libdislocator.so.c:124-141 | a new block keeps every block, header and guard page as they were |
| `DislocatorSpec.FreeKeeps` | exploitaion/AFL/afl-2.52b/libdislocator/libdislocator.so.c:213-220 | so does freeing one |
| `DislocatorSpec.GuardPage` | exploitaion/AFL/afl-2.52b/libdislocator/libdislocator.so.c:118-141 | a live block ends at a page boundary, and the page behind it cannot be touched |
| `DislocatorSpec.FreedIsGone` | exploitaion/AFL/afl-2.52b/libdislocator/libdislocator.so.c:216-223 | no byte of a freed block can be touched |
| `DislocatorSpec.HeaderFits` | exploitaion/AFL/afl-2.52b/libdislocator/libdislocator.so.c:62-70 | the eight bytes below a block are in its mapping |
| `DislocatorSpec.OverflowCheck` | exploitaion/AFL/afl-2.52b/libdislocator/libdislocator.so.c:153-157 | the division check of calloc is exact |

## Left out

- SparkParser.GenericParser.Parse: tokens and grammar symbols are never the reserved symbols `START`, `|-` or names with the prefix of marked symbols, and a token equals one symbol at most. What the tree building makes of a wrongly accepted empty input is not modelled.
- SPARK's links, `buildTree`, `ambiguity`, `makeSet_fast`, pickling and reading of rules from docstrings: policy, a cache, or input handling.
- Tmin.Minimizer.Minimize: does not model Ctrl-C or the wrap-around of the 32-bit run counters.
- Kruskal.MinimumSpanningTree: node numbers are in range and weights are integers; `num_edges`, which the code does not use, negative list indices and Python's recursion limit are not modelled.
- Deobfuscate.Scanner.Deobfuscate: does not model line starts and variable names, which do not touch the code, nor EXTENDED_ARG, whose meaning the relocated operands would change.
- ForkServer.AllRunsSafe: max_cnt fits its 32 bits, process numbers are not used again, max_cnt is at least 1, a child stops itself only in its loop function, and errors of pipe calls, the first handshake, stop signals of the user and dumb mode are not modelled.
- The linked queue and its `next_100` shortcuts: the queue is a sequence. File names, redundancy marks on disk, depth and handicap of an entry are not part of it.
- Coverage.CrashLog.OnCrash: dumb mode, hangs and the files written are not modelled.
- FavoredQueue.Fuzzer.UpdateBitmapScore: times and the product of time and length are unbounded numbers.
- DictionaryFile.CaptureRoundTrip: the number after `@` is read without overflow, and `isspace`, `isalnum` and the like are those of the C locale.
- Extras.Dictionaries.MaybeAddAuto: tokens of two bytes, which no caller passes, are not modelled; the values other stages try anyway are a parameter.
- DictionaryStage.OverwriteStage.Overwrite: the effector map, chance and the end of work on an entry are parameters; the insertion stage is not modelled.
- Trim.Trimmer.TrimCase: writing the file back is not modelled; scoring the result is `FavoredQueue.Fuzzer.Trimmed`.
- Havoc.HavocStage.Run: the score uses real numbers where the code uses floating point; splicing, which only chooses another original, is not modelled.
- Dislocator.Allocator.Free: an address that is no live block's but has the canary below it, written there by the program itself, is not modelled, because the code then treats that memory as a block.
- Dislocator.Allocator.Realloc: such an address is not modelled either, nor one whose canary would be in the block just made; threads, the call depth of messages and failing `mprotect` are not modelled.
- Process spawning, resource limits, environment, directories, option parsing, screens and statistics; `afl-as`, `afl-showmap`, `afl-analyze`, `afl-gotcpu` and the QEMU shim; `Walker.py`, `Parser.py` and the rest of the decompiler; all other notes: input and output, tables, or nothing hard to prove.
