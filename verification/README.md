# A verified model of the Alloy core

A model, in Dafny, of the `als-core` translation: a resolved Alloy model goes through scopes, a universe of
atoms and relation bounds into a three-sorted relational IR, which is solved, decoded and enumerated as
instances or lasso traces. Nearly every phase has a simple meaning it must agree with; the project states
that meaning and proves the agreement.

Shared vocabulary: `Ir` (the IR as trees), `Arena` (the same IR as shared nodes), `Algebra`, `Closure` and
`LexOrder` (tuple sets), `Semantics` (the evaluator with its forbid-overflow guard), `Plain` (its meaning on
integer-free formulas), `Typing`.

Components:

- Lowering. `Surface` gives source formulas their lexical meaning, `Lowering` is the pass as functions,
  `Lowerer` the pass as the source writes it (a class over a binder stack, a polarity and growing tables).
  `LoweringExact`, `Skolemisation` and `SkolemTheorems` carry the theorems, `SkolemDuality` says which quantifiers
  skolemise and what is refused, `Reading` is the way higher-order bounds are read, `AbstractUpper` and
  `TotalOrder` are the static bounds and the order formula.
- Evaluation. `Folder`/`FolderSoundness`/`FolderDecides` (the constant folder: sound, and deciding exactly what
  rests on constants), `ForbidMode` and `Mentions` (what forbidding overflow means), `NegationNormalForm`,
  `Arithmetic` (wrapping, shifts and their flags), `FreeVariables`, `Arena` and `MemoEvaluator` (the free-variable-keyed memo). The
  analysis strips all of a comprehension's variables from all its bounds, which is right only if no bound
  reads its own or a later variable (`ForwardBoundChanges`); `LoweredScope` shows that none the lowerer
  builds does.
- Scopes and bounds. `Scopes`/`ScopeSolver` (the derivation fixpoint), `SigForest`/`Hierarchy` (where each sig
  stands), `AtomNames`/`Universe` (the walk that mints atoms), `BoundsBuilder`, `SizeWitness`, `SigBounds`,
  `HierarchyEmitter` (bounds, size formulas, constraints), `LoneScope`, and `ScopePipeline` across all of them.
- Traces. `TraceKey` (the canonical form), `Unrolling`, `Lasso`, `Traces`, `TraceEnumerator` (the stateful
  explorer over a live solver), `TemporalProblem`, `TemporalSweep`, `VacuousFork`.
- Instances. `Sat` (a live solver under its contract), `Decoding`, `Enumeration`.

Code that updates state in the source is a class or a method with loops here, proved against the functions
the lemmas speak of. Hypotheses are what the source relies on: resolved names, well-typed IR, allocated ids.

## Findings

Where the code does not meet the property a reader would expect, a lemma gives an input and the condition
under which it does hold is proved.

- `SkolemTheorems.CaptureOccurs`: the bound of a higher-order declaration is lowered again for every name of
  its group, under the names already pushed, so a bound that mentions one of them is captured. `Reading`
  gives source formulas that reading beside the lexical one; `SkolemisationReads` holds of every goal, and so
  (`SkolemisationExact`) the lowered goal means the source goal exactly where the two readings agree on it.
  They always do without captures (`CaptureFree`, checked on the syntax); `GroupExact` says when they do for
  one group.
- `FolderSoundness.IncapableCastOccurs` and `TurnedTestOccurs`: the folder is wrong on a cast that is not
  overflow-capable but overflows, and on a test that a surviving cast turns. Both conditions are exact.
- `NegationNormalForm.CrossedBoundChanges` and `ImplicationRewriteFails`: forbid-mode evaluation is not
  invariant where a negation crosses a bound in which a guard fires, nor under rewriting an implication.
  `CrossedQuantExact`, `CrossedCompareExact` and `ImplicationRewriteExact` say exactly when they agree.
- `LoneScope.LoneRaised`: a comment at crates/als-core/src/bounds_builder.rs:1003-1008 says `lone` is subsumed
  by the size cap; the walk may have raised the scope past 1, and then nothing enforces it. `LoneExact` is the
  exact condition and `DerivedScopeExact` its form for any scope.
- `VacuousFork.ForkHides`: a fork where no variable relation has a floating tuple answers exhausted after it has
  replaced the live length's solver and dropped it (crates/als-core/src/temporal_enum.rs:476-485), so a trace of
  that length not yet shown is lost: the next advance moves on. Where some variable relation has a floating tuple
  this never happens, and every allowed assignment is accounted for (`NextPathStep`).

## Model

| member | source | states |
|---|---|---|
| SkolemTheorems.SkolemisationReads | crates/als-core/src/lower.rs:3505-3616 | For every goal of the surface language (connectives, blocks, `if`, all/some/no/one/lone over declaration groups, `disj`, later bounds naming earlier names, marked higher-order bounds, relational and formula `let`s): lowering it at polarity p unblocked gives a formula that some values of the minted relations inside their bounds make p, if and only if the source goal, the bound of each skolemised higher-order group read again under the earlier names of the group, has value p |
| SkolemTheorems.SkolemisationExact | crates/als-core/src/lower.rs:3627-3724 | Hence that equivalence holds for the lexical meaning of the goal if and only if this reading and the lexical one give the goal the same truth value |
| SkolemTheorems.SkolemisationPreserves | crates/als-core/src/lower.rs:3505-3616 | In particular it holds for every goal none of whose higher-order groups captures a name of its own |
| Reading.LexicallyRead | crates/als-core/src/lower.rs:3627-3724 | Both readings agree at every environment on a formula without captured groups |
| Reading.GroupExact | crates/als-core/src/lower.rs:3627-3724 | For a `set` or `lone` group (without `disj`) both readings admit the same values if and only if no values the source admits for the group change what the bound denotes under them |
| SkolemTheorems.SkolemisationEvaluated | crates/als-core/src/lower.rs:2138-2172 | The equivalence of SkolemisationReads with the lowered formula read by the evaluator, in either overflow mode and whatever the bitwidth and Int atoms |
| SkolemTheorems.BlockedPreserves | crates/als-core/src/lower.rs:3505-3616 | With skolemisation blocked nothing is minted and the lowered goal has the source truth value outright, capture or not |
| SkolemTheorems.CaptureOccurs | crates/als-core/src/lower.rs:3627-3724 | The two readings do differ: `let r = A \| some r, s: set r \| not s in r` holds in the source while no values of its skolems satisfy the lowered goal |
| SkolemTheorems.PlainGoalMints | crates/als-core/src/lower.rs:3824-3855 | The theorem speaks of goals that do mint: `some x: A \| some x` meets its hypotheses and mints one relation bounded by A |
| SkolemDuality.NotAllIsSome | crates/als-core/src/lower.rs:3525-3529 | At every state, binder stack, polarity and blocking, `not all` over any declaration groups and `some .. not` are both lowered or both refused, leave the same tables, and their results hold alike in every instance |
| SkolemDuality.NotNoIsSome | crates/als-core/src/lower.rs:3525-3529 | The same for `not no` and `some` |
| SkolemDuality.SomeMints | crates/als-core/src/lower.rs:3627-3724 | An unblocked `some` at positive polarity whose first group ranges over tuples of a bound with a static upper mints, first of all, one relation for each of the group's names under exactly that upper |
| SkolemDuality.CheckMints | crates/als-core/src/lower.rs:3525-3529 | So does `not all`, the goal of a `check`: its counterexample has a relation for each name |
| SkolemDuality.UniversalMintsNone | crates/als-core/src/lower.rs:3525-3529 | An `all` or `no` at positive polarity, or a `some` at negative, mints nothing and accepts no marked group |
| SkolemDuality.FirstOrderLowers | crates/als-core/src/lower.rs:3505-3616 | A first-order formula whose names are in scope is never refused, at any state and polarity |
| SkolemDuality.HigherOrderTaken | crates/als-core/src/lower.rs:3627-3724 | A marked declaration of one name is accepted exactly where skolemisation is allowed, its marking is not `exactly`, and its bound has a static upper |
| Skolemisation.FormulaReflect | crates/als-core/src/lower.rs:2138-2172 | At any polarity and binder stack, under skolem values already chosen: if the lowered formula reaches its polarity then so does the source formula, read that way |
| Skolemisation.FormulaRealise | crates/als-core/src/lower.rs:2138-2172 | Conversely, when the source formula, read that way, reaches its polarity, the skolems it mints can be given values inside their bounds, leaving earlier ones as they are, so that the lowered formula reaches it too |
| Skolemisation.DeclReflect | crates/als-core/src/lower.rs:3627-3724 | Whatever a declaration is turned into (variables, constants, higher-order skolems), a binding that passes its bounds, membership and disjointness constraints gives its names values admissible for the source, a marked bound read again for every name |
| Skolemisation.DeclRealise | crates/als-core/src/lower.rs:3627-3724 | Every choice of values so admissible is reached by some skolem values and variable binding that pass the constraints, without changing any relation minted before |
| Skolemisation.SettledMints | crates/als-core/src/lower.rs:3505-3616 | A formula all of whose quantifiers are blocked or effectively universal mints no relation |
| LoweringExact.FormulaExact | crates/als-core/src/lower.rs:2138-2172 | Blocked lowering is exact under any valuation: the lowered node holds exactly when the source formula has that lexical meaning, through formula lets re-lowered under the truncated binder stack |
| LoweringExact.ExprExact | crates/als-core/src/lower.rs:2613-2900 | The same for relational expressions, with substituted lets and comprehensions over multi-name and `disj` groups |
| LoweringExact.QuantExact | crates/als-core/src/lower.rs:3505-3616 | all, some and no (as all-not) over any declaration groups mean their source quantifier |
| LoweringExact.CountExact | crates/als-core/src/lower.rs:3505-3616 | `one` and `lone` through the cardinality test of a comprehension mean exactly one and at most one choice of the declared names |
| LoweringFacts.FormulaFacts | crates/als-core/src/lower.rs:3767-3822 | Lowering only appends: ids grow, earlier skolems and variable bounds stay, the result mentions only allocated ids and no integer, and blocked lowering mints no relation |
| Capture.FormulaAgree | crates/als-core/src/lower.rs:5189-5274 | A source formula cannot tell apart environments that give its free names the same denotation |
| LowererRun.Lowerer.LowerFormula | crates/als-core/src/lower.rs:2138-2319 | The pass that pushes and pops binders, saves and restores the polarity and appends to its tables returns the specified formula and state, fails exactly when the specification does, and leaves stack and polarity as they were |
| LowererRun.Lowerer.LowerQuant | crates/als-core/src/lower.rs:3505-3616 | Quantifier lowering computes the specified formula, with the binder stack trimmed back |
| LowererRun.Lowerer.BindDeclsVars | crates/als-core/src/lower.rs:3627-3724 | Binding a declaration list produces the specified variables, constraints, disjointness formulas, stack and tables |
| LowererRun.Lowerer.PushLetBindings | crates/als-core/src/lower.rs:5140-5167 | The let bindings pushed are the specified ones, formula lets recording the depth they were bound at |
| LowererRun.Lowerer.LookupBinderFormula | crates/als-core/src/lower.rs:5189-5274 | A use of a formula let is lowered again under the stack truncated to its binding depth, and the stack is restored |
| LowererRun.Lowerer.LowerComprehension | crates/als-core/src/lower.rs:3205-3235 | Comprehension lowering is blocked, never skolemises and computes the specified expression |
| LowererRun.Lowerer.AllocSkolem | crates/als-core/src/lower.rs:3767-3822 | A minted skolem is the next relation id, recorded with its upper bound |
| LowererRun.Lowerer.AbstractUpper | crates/als-core/src/lower.rs:3921-3985 | The recursion through variable bounds ends, and returns the specified upper bound |
| AbstractUpper.UpperSound | crates/als-core/src/lower.rs:3921-3985 | For every instance inside the bounds and every environment inside the variable bounds, an expression denotes a subset of its abstract upper bound, through join, product, override, closure, earlier skolems and variables |
| AbstractUpper.UpperTight | crates/als-core/src/lower.rs:3921-3985 | And the bound gives nothing away: it is the value, where every relation takes all its own bound allows, of the expression with each difference relaxed to its left side, each override to a union, and each variable to its bound |
| AbstractUpper.MarkIrrelevant | crates/als-core/src/lower.rs:3921-3985 | The bound does not depend on the recursion mark used to show termination |
| Closure.ClosureBySquaring | crates/als-core/src/eval.rs:1151-1162 | Squaring until the size is stable ends and returns exactly the pairs joined by a path of length at least one |
| Closure.ClosureByExtension | crates/als-core/src/lower.rs:5716-5733 | Linear extension ends and returns the same set, so the two algorithms agree |
| Closure.ClosureIsLeast | crates/als-core/src/eval.rs:1151-1162 | That set contains the relation, is transitive, and is contained in every transitive superset |
| TotalOrder.TotalOrderExact | crates/als-core/src/lower.rs:5395-5514 | For first inside elem and next inside elem x elem, the hand-built formula holds exactly when some duplicate-free enumeration of elem starts at first and has next as its consecutive pairs |
| TotalOrder.PinOrdering | crates/als-core/src/bounds_builder.rs:694-705 | The pinned constants are the first atom and the consecutive pairs |
| TotalOrder.PinnedIsLinear | crates/als-core/src/bounds_builder.rs:694-705 | For a non-empty list of distinct atoms the pinned constants satisfy the order clauses |
| FolderSoundness.FormulaSound | crates/als-core/src/overflow_guard.rs:600-666 | In forbid mode, for every instance inside the bounds and every environment, a formula the folder decides evaluates to that value, provided every cast and test met satisfies its side condition |
| FolderSoundness.IntSound | crates/als-core/src/overflow_guard.rs:480-600 | A folded integer and its overflow flag are what the evaluator computes |
| FolderSoundness.RelSound | crates/als-core/src/overflow_guard.rs:348-475 | Empty and non-empty verdicts are true of the evaluated set |
| FolderSoundness.CastConditionExact | crates/als-core/src/overflow_guard.rs:379-383 | The folded verdict on a cast is right exactly when the cast is overflow-capable or its operand does not fold to an overflow |
| FolderSoundness.TestConditionExact | crates/als-core/src/overflow_guard.rs:632-641 | The folded verdict on a multiplicity test is right exactly when no surviving overflowing cast turns it |
| FolderSoundness.ShedOperandIsEmpty | crates/als-core/src/overflow_guard.rs:716-788 | An operand dropped by the union and override shedding rules contributes no tuple |
| FolderSoundness.SameExprEqual | crates/als-core/src/overflow_guard.rs:668-714 | Expressions the folder calls equal evaluate equally |
| FolderSoundness.GuardIsLastPull | crates/als-core/src/eval.rs:855-862 | A chain of guards keeps the raw answer unless a surviving cast overflows; then the last one decides, by whether the innermost enclosing bare-`Int` quantifier it mentions is universal |
| ForbidMode.ClassifyInnermost | crates/als-core/src/overflow_guard.rs:799-810 | The backwards search over the enclosing quantifiers answers yes exactly when the innermost one that ranges over bare `Int` and whose variable the operand mentions is effectively universal |
| ForbidMode.BareIntQuantifier | crates/als-core/src/eval.rs:890-901 | With overflow forbidden, a quantified comparison over bare `Int` whose operands both mention the variable is, at either polarity and under any quantifiers, `all` or `some` over the tuples at which neither operand overflows of the comparison of their values |
| ForbidMode.NestedBareInt | crates/als-core/src/eval.rs:890-901 | Of two nested bare-`Int` quantifiers the innermost one the operands mention decides: where neither overflows the comparison is that of the values, and elsewhere it is true if that quantifier is `all` and false if it is `some` |
| ForbidMode.CastsDecided | crates/als-core/src/eval.rs:855-862 | A test guarded by casts that belong to quantifiers of one kind keeps its raw answer when no surviving cast overflows, and is otherwise true under `all` and false under `some` |
| ForbidMode.NoneExcludes | crates/als-core/src/overflow_guard.rs:799-810 | Without such a quantifier an overflowing comparison is false where asserted and true under a negation |
| ForbidMode.SuccessorGrowsHolds | crates/als-core/src/eval.rs:890-901 | Hence `all x: Int \| plus[x, 1] > x` holds at every bitwidth with overflow forbidden |
| Mentions.GuardReadsFree | crates/als-core/src/eval.rs:885-925 | With unique binder ids the guard depends on an operand's free variables only, so variables bound inside it never count |
| FolderDecides.FormulaDecided | crates/als-core/src/overflow_guard.rs:600-666 | The folder decides a formula exactly when its truth rests on constants (told by the evaluator's values: one false conjunct, an unflagged comparison of settled integers, a test of a settled emptiness and so on), and then with the evaluated answer; otherwise it says it does not know |
| FolderDecides.IntDecided | crates/als-core/src/overflow_guard.rs:480-600 | The same for an integer with its flag: casts under a cardinality need only be settled up to the first that overflows |
| FolderDecides.RelDecided | crates/als-core/src/overflow_guard.rs:348-475 | The same for emptiness: an empty operand settles an intersection, join or product, a non-empty one a union |
| FolderDecides.CastsSurvive | crates/als-core/src/overflow_guard.rs:716-788 | Dropping the operands known to contribute nothing changes no value, and the casts the guard reads are all the capable ones left, in order |
| FolderDecides.TestCastsSurvive | crates/als-core/src/overflow_guard.rs:768-788 | A multiplicity test reads all of them, unless `lone` or `one` meets a settled empty set or `some` a settled non-empty one, and then none; `no` always reads them |
| FolderSoundness.IncapableCastOccurs | crates/als-core/src/overflow_guard.rs:379-383 | The cast condition is needed: a concrete two-bit cast folds to empty and evaluates to a non-empty set |
| FolderSoundness.TurnedTestOccurs | crates/als-core/src/overflow_guard.rs:632-641 | The test condition is needed: a concrete two-bit `no` test folds to true and evaluates to false |
| NegationNormalForm.NnfPreserves | crates/als-core/src/eval.rs:306-348 | Pushing a negation through not, and, or, quantifiers and ordered comparisons keeps the verdict for every polarity, quantifier stack and overflow pattern, when no guard can fire inside the bounds and operands it crosses |
| NegationNormalForm.AllowedCrossable | crates/als-core/src/eval.rs:306-348 | With overflow allowed that condition always holds |
| NegationNormalForm.CrossedQuantExact | crates/als-core/src/eval.rs:429-474 | At one crossed quantifier the rewrite keeps the verdict exactly when the quantifier gives the same answer over its bound read at either polarity |
| NegationNormalForm.CrossedCompareExact | crates/als-core/src/eval.rs:784-800 | Complementing one ordered comparison keeps the verdict exactly when it gives the same answer for its operands read at either polarity |
| NegationNormalForm.CrossedBoundChanges | crates/als-core/src/eval.rs:429-474 | A guard inside a crossed bound does change the verdict: a concrete overflowing comprehension bound |
| NegationNormalForm.ImplicationRewriteExact | crates/als-core/src/eval.rs:333-345 | Rewriting an implication to a disjunction keeps the verdict exactly when the consequent holds or the antecedent reads the same at both polarities |
| NegationNormalForm.ImplicationRewriteFails | crates/als-core/src/eval.rs:333-345 | A concrete overflowing antecedent for which the rewrite changes the verdict |
| FreeVariables.CoincideF | crates/als-core/src/freevars.rs:102-232 | With overflow allowed, environments that agree on the computed free variables give a formula one value, when no comprehension bound mentions its own or a later declaration's variable |
| FreeVariables.ForwardBoundChanges | crates/als-core/src/freevars.rs:178-196 | CoincideF needs that hypothesis: a comprehension whose first bound reads its second variable has no computed free variable and two values |
| LoweredScope.GoalScoped | crates/als-core/src/lower.rs:3205-3235 | Every formula lowering returns for a goal meets the hypotheses: no comprehension bound in it mentions its own or a later declaration's variable, and it has no free variable |
| LoweredScope.FormulaScoped | crates/als-core/src/lower.rs:2138-2319 | At any stage of the walk, when the binder stack's denotations see only given variables, the lowered formula is ordered and its free variables are among them |
| Arena.FreeVarsBuilder.FormulaOf | crates/als-core/src/freevars.rs:102-153 | Over an arena whose nodes stand above their children, the memoising builder returns and records the free variables of the tree the node unfolds to, keeping every slot filled before |
| Arena.FreeVarsBuilder.Build | crates/als-core/src/freevars.rs:37-72 | Every slot of the three arenas is filled with its node's free variables |
| MemoEvaluation.MemoEvaluator.EvalFormula | crates/als-core/src/eval.rs:261-304 | With the memo armed and overflow allowed, evaluation of any node under any environment that binds its free variables returns the unmemoised value, restores the environment and keeps every memo entry true |
| MemoEvaluation.MemoEvaluator.EvalQuant | crates/als-core/src/eval.rs:429-474 | Grounding a quantifier with save and restore of its variable gives the quantifier's value |
| MemoEvaluation.MemoEvaluator.ComprehensionRec | crates/als-core/src/eval.rs:618-652 | Nested grounding of a comprehension collects exactly its tuples |
| MemoEvaluation.MemoEvaluator.EvalInt | crates/als-core/src/eval.rs:666-716 | Integer evaluation gives the specified value and overflow flag |
| Arithmetic.ShlLoop | crates/als-core/src/overflow_guard.rs:213-245 | At every bitwidth from 1 to 30 the bit-level loop returns the wrap of a times two to the masked amount, flagged exactly when that product is out of range, or a bit above the mask is set and the result is neither 0 nor -1 |
| Arithmetic.FlagsAreExact | crates/als-core/src/overflow_guard.rs:166-211 | Every operator returns the wrapped exact value; its flag is set exactly when the exact value is out of range, apart from division by zero and a left shift by an amount with high bits |
| Arithmetic.RightShiftIsFloor | crates/als-core/src/overflow_guard.rs:247-264 | Arithmetic right shift is floor division of the value and logical right shift that of the bit pattern, amounts beyond the width included |
| Semantics.SumExact | crates/als-core/src/eval.rs:666-716 | `sum` is the unbounded sum, wrapped; it is unflagged exactly when every body is and every partial sum in the walk's order fits, and then it is the unbounded sum |
| Semantics.NegationExact | crates/als-core/src/eval.rs:687-690 | Negation flags exactly the value whose opposite does not fit, and undoes itself |
| Algebra.OverrideByAtom | crates/als-core/src/eval.rs:1120-1134 | Override works atom by atom: the rows of an atom are those of the right side if it has any, else those of the left |
| Typing.RelArity | crates/als-core/src/lower.rs:5319-5380 | A typed expression denotes only tuples of its static arity |
| Scopes.FixpointTotal | crates/als-core/src/scope.rs:467-479 | When the derivation succeeds every scopable sig has a scope, so the later check for one without cannot fail |
| Scopes.FixpointFails | crates/als-core/src/scope.rs:418-443 | Derivation fails exactly when no overall scope is in force and the abstract rule run to exhaustion leaves a top-level sig, other than a childless enum, unscoped |
| Scopes.FixpointJustified | crates/als-core/src/scope.rs:352-463 | Scopes set at the start are kept, and each derived scope satisfies one of the rules in the final table |
| Scopes.AbstractRunDerives | crates/als-core/src/scope.rs:384-412 | Every scope a run of the abstract rule sets is, in the run's result, the sum of the sig's children or the difference of its abstract parent's scope and its siblings', clamped at 0 |
| Scopes.FixpointOrigins | crates/als-core/src/scope.rs:352-372 | The abstract rule goes first: in the final table every derived scope is such a sum or difference, or was set by a run of the overall or parent rule that began at a table in which the abstract rule had nothing to set, the parent rule's also with every top-level sig scoped |
| Scopes.ParentRunsOn | crates/als-core/src/scope.rs:342-372 | Within one run of the parent rule the abstract rule is not consulted again: in a tower of three levels two sigs take 5 in one pass where, after the first, the abstract rule alone would have left the other 3 |
| Scopes.ParentPassTogether | crates/als-core/src/scope.rs:449-463 | One parent pass scopes every unscoped child of a scoped sig, all siblings alike |
| ScopeSolving.ScopeSolver.SeedExplicit | crates/als-core/src/scope.rs:261-316 | Explicit scopes are seeded, the last clause of a sig winning and one exact clause making it exact; when any clause is illegal the error standing first in the text is returned |
| ScopeSolving.ScopeSolver.ForceMultiplicities | crates/als-core/src/scope.rs:322-341 | A non-var `one` sig is forced to exactly 1 and an unscoped non-var `lone` sig to 1, nothing else changing |
| ScopeSolving.ScopeSolver.DeriveAbstract | crates/als-core/src/scope.rs:387-412 | One abstract pass over the table in place is the specified pass, with the specified change flag; every scope it sets is a children's sum or a clamped difference in the new table |
| ScopeSolving.ScopeSolver.RunFixpoint | crates/als-core/src/scope.rs:352-382 | The looped passes end in the fixpoint, or in the error exactly when it does not exist, and then only `some` sigs are raised to 1 |
| ScopeSolving.ScopeSolver.Compute | crates/als-core/src/scope.rs:176-200 | Scoping ends in an error exactly when a clause is illegal or a sig is stranded; otherwise every sig is scoped, explicit scopes are honoured, multiplicities are met and every other scope is justified, the abstract rule having gone first |
| SigForest.RunsTile | crates/als-core/src/scope.rs:644-680 | Each sig atom is minted by exactly one sig and the runs tile the whole interval of sig atoms |
| SigForest.BoundSizes | crates/als-core/src/bounds_builder.rs:248-289 | A lower bound lies in its upper bound; an exact sig has equal bounds of exactly its final scope, and a top-level sig an upper bound of that size |
| Hierarchy.ForestCovers | crates/als-core/src/scope.rs:498-502 | The walked forest holds exactly the scopable sigs, each at one place |
| UniverseMint.UniverseBuilder.Walk | crates/als-core/src/scope.rs:644-680 | The recursive walk raises every scope of a subtree to what its children need, mints the specified run for each sig under one fresh label, and returns the atom count |
| UniverseMint.UniverseBuilder.UniqueLabel | crates/als-core/src/scope.rs:685-697 | The search ends; the label is the given one when unused, else the first unused numbered one |
| UniverseMint.UniverseBuilder.MintRun | crates/als-core/src/scope.rs:660-680 | A run of consecutive atoms is minted under the sig's own label, or, when that is taken, under its first numbering that is free |
| UniverseMint.UniverseBuilder.Finish | crates/als-core/src/scope.rs:467-530 | The universe is sig atoms, then integers ascending, then string atoms, with all names distinct and every sig's run recorded; each run carries its own sig's label, or that label's first free numbering, and no two sigs share one |
| UniverseMint.MintStrings | crates/als-core/src/scope.rs:549-585 | Referenced literals come in order, padding ends with the larger of the scope and the number of literals, and no name is used twice |
| AtomNames.AtomNameInjective | crates/als-core/src/scope.rs:665-676 | Two atom names are equal only when their labels and their indices are |
| BoundsBuilding.BoundsBuilder.LowerOf | crates/als-core/src/bounds_builder.rs:248-262 | The bottom-up pass gives every sig of a subtree its specified lower bound |
| BoundsBuilding.BoundsBuilder.GrowChildren | crates/als-core/src/bounds_builder.rs:267-289 | The top-down pass gives every sig below its specified upper bound |
| BoundsBuilding.BoundsBuilder.ComputeAtomBounds | crates/als-core/src/bounds_builder.rs:230-243 | Both passes over all roots leave every sig of the forest with its two bounds |
| SizeWitness.AtMostMeaning | crates/als-core/src/bounds_builder.rs:886-930 | The nested existentials with overlapping witnesses hold exactly of one to n elements |
| SizeWitness.ExactMeaning | crates/als-core/src/bounds_builder.rs:936-1001 | With staged disjointness they hold exactly of n elements |
| SigBounds.SizeMeaning | crates/als-core/src/bounds_builder.rs:823-881 | The size formula emitted for a sig, or its absence, holds exactly when the sig has at most its final scope, and exactly it when exact |
| SigBounds.ForestEnforced | crates/als-core/src/bounds_builder.rs:730-743 | With every leaf and remainder inside its bound, the formulas of the whole forest hold exactly when every sig lies between its bounds, keeps its final scope, has disjoint children and its `one` or `some` multiplicity |
| SigBounds.DerivedScopeExact | crates/als-core/src/scope.rs:644-660 | An instance keeps the scope derived for a sig exactly when its children's lower bounds fit in that scope |
| SigBounds.LoneExact | crates/als-core/src/bounds_builder.rs:1003-1024 | A `lone` sig scoped to at most 1 has at most one atom exactly when its children need at most one |
| LoneScope.LoneRaised | crates/als-core/src/bounds_builder.rs:1003-1024 | For `lone sig A {} one sig B, C extends A {}` every instance that keeps the final scopes gives A two atoms |
| LoneScope.LoneInstance | crates/als-core/src/bounds_builder.rs:1003-1024 | And there is such an instance, every relation inside its bound |
| HierarchyEmission.HierarchyEmitter.AllocPrimRelations | crates/als-core/src/bounds_builder.rs:385-428 | Each leaf gets a fresh relation between its bounds, each concrete parent a remainder over its floating atoms, exact parents exactly so |
| HierarchyEmission.HierarchyEmitter.EmitSize | crates/als-core/src/bounds_builder.rs:823-881 | The specified size formula is appended with fresh variables; the assertion that only inexact sigs reach the cap holds |
| HierarchyEmission.HierarchyEmitter.EmitDisjointness | crates/als-core/src/bounds_builder.rs:790-814 | One formula per sibling pair is appended |
| HierarchyEmission.HierarchyEmitter.Build | crates/als-core/src/bounds_builder.rs:125-141 | For every instance inside the bounds built, the emitted constraints hold exactly when every sig of the forest keeps its scope contract |
| ScopePipeline.TranslateScopes | crates/als-core/src/scope.rs:176-200 | From a command to constraints: on success scoping meets its contract, atom names are distinct, and an instance inside the bounds satisfies the constraints exactly when every scopable sig, at its place in the forest, keeps its scope contract |
| TraceKey.KeyCanonical | crates/als-core/src/temporal_enum.rs:846-894 | Two lassos of any lengths and loop targets have equal keys exactly when they denote the same infinite sequence of states |
| TraceKey.KeyMinimal | crates/als-core/src/temporal_enum.rs:846-894 | The key's prefix and period are the least eventual prefix and period, and the period divides every eventual period |
| TraceKey.KeyShortest | crates/als-core/src/temporal_enum.rs:846-894 | Prefix plus period is at most the length of every lasso of the same trace |
| TraceKey.ComputeKey | crates/als-core/src/temporal_enum.rs:846-894 | The search and shrink loops compute that key |
| Traces.UnitsExact | crates/als-core/src/temporal_enum.rs:766-788 | Fixing a relation by unit clauses admits exactly the assignments that decode it to the value |
| Traces.DiffersExact | crates/als-core/src/temporal_enum.rs:790-805 | The difference clause admits exactly the assignments that decode it otherwise |
| TraceEnumeration.LockConfig | crates/als-core/src/temporal_enum.rs:747-753 | Locking a configuration keeps exactly the models with that configuration |
| TraceEnumeration.BlockConfig | crates/als-core/src/temporal_enum.rs:755-764 | Blocking a configuration keeps exactly the models with another one |
| TraceEnumeration.HoldPrefix | crates/als-core/src/temporal_enum.rs:430-494 | Holding a prefix keeps exactly the models whose first states are the base trace's |
| TraceEnumeration.TraceEnumerator.Explore | crates/als-core/src/temporal_enum.rs:342-353 | Every advance keeps the whole invariant (emitted keys are those of the history, no trace repeats across lengths, every length passed is covered for the current configuration), a spent budget always answers so and changes nothing, and each of the three commands has the outcome its step promises |
| TraceEnumeration.TraceEnumerator.NextPathStep | crates/als-core/src/temporal_enum.rs:355-398 | A shown trace answers the live question, has the sweep's configuration, is recorded with the assignment it was read from and has a key emitted at no shorter length; exhausted (outside a fork) means that every allowed assignment of the range in this configuration has either a key emitted at a shorter length or a trace shown at its own length, unless a vacuous fork cut that length off; after it nothing more is shown; without a budget the budget answer never comes |
| TraceEnumeration.TraceEnumerator.NextConfigStep | crates/als-core/src/temporal_enum.rs:405-428 | A new configuration differs from every blocked one and is adopted; exhausted means every static assignment with a solution was visited; without free statics the answer is that there is one configuration |
| TraceEnumeration.TraceEnumerator.ForkStep | crates/als-core/src/temporal_enum.rs:430-494 | A fork shown has the base's length and configuration, agrees with it on every earlier state and differs at the fork state; exhausted at once means no solution of that configuration does |
| TraceEnumeration.TraceEnumerator.Draw | crates/als-core/src/temporal_enum.rs:580-664 | A drawn assignment is allowed by the live question and is then blocked, so the admitted assignments strictly decrease |
| TraceEnumeration.TraceEnumerator.SolveCurrentStage | crates/als-core/src/temporal_enum.rs:580-664 | The drawing loop ends, with a trace not emitted at a shorter length or with the stage spent |
| TraceEnumeration.TraceEnumerator.Consider | crates/als-core/src/temporal_enum.rs:632-664 | A drawn assignment is shown exactly when no shorter length emitted its key, so two assignments of one length with one infinite trace are both shown |
| VacuousFork.ForkHides | crates/als-core/src/temporal_enum.rs:476-485 | That coverage can fail after a fork that can change nothing: with two loop targets for one two-state trace, the next path after the first trace is the second, but after such a fork it is the end |
| TemporalProblem.Translate | crates/als-core/src/temporal_solve.rs:285-336 | Unrolling, allocating the primaries and minting the selector in that order builds the specified encoding of a length |
| TemporalProblem.EncodeGood | crates/als-core/src/temporal_solve.rs:285-336 | The unrolled bounds, selector and goal clauses of any length make a good encoding: disjoint layout, mintable clauses, a selector that holds |
| TemporalProblem.EncodeAsks | crates/als-core/src/solve.rs:360-368 | The encoding asks the goal: its models are exactly the assignments of its variables that make one loop variable true and satisfy the goal's clauses |
| TemporalProblem.ProblemOfGood | crates/als-core/src/temporal_enum.rs:247-296 | Every range of lengths, goal clauses and cap over a good model is a problem the trace enumerator accepts |
| TemporalProblem.FreeSolutions | crates/als-core/src/temporal_solve.rs:285-336 | Without goal clauses every sequence of states inside the bounds that agrees on statics, with every loop target, is a solution |
| TemporalSweep.SolveTemporalCommand | crates/als-core/src/temporal_solve.rs:254-336 | The sweep returns a trace of the least satisfiable length, reports no trace only when no length has a solution, and answers unknown or over the cap at a length below which there is none |
| TemporalSweep.SolveCommand | crates/als-core/src/temporal_solve.rs:254-336 | On a model and a goal: a trace returned is read from an assignment that satisfies the goal's clauses at its length, and no assignment of a smaller length in range does; no trace means none of any length in range does |
| TemporalSweep.AllowedMeets | crates/als-core/src/temporal_enum.rs:532-549 | What the explorer may show at a length is exactly what meets the goal there |
| LassoMachinery.SelectorExact | crates/als-core/src/temporal.rs:255-265 | The selector's clauses hold exactly when exactly one loop variable is true |
| LassoMachinery.MintSelector | crates/als-core/src/temporal.rs:255-265 | The nested loops mint exactly those clauses |
| LassoMachinery.RecoverLoopState | crates/als-core/src/solve.rs:524-542 | Under the selector, recovery finds the one true loop variable |
| LassoMachinery.NormalizeMeaning | crates/als-core/src/temporal_solve.rs:189-209 | A normalised position holds the state of the infinite trace there, negative positions clamp to 0, and normalising commutes with the lasso successor |
| Unrolling.Unroll | crates/als-core/src/temporal.rs:117-181 | The loops bind each static relation once and each variable relation k times under its own bound |
| Unrolling.SplitStates | crates/als-core/src/temporal_solve.rs:356-384 | Splitting loops compute the k states |
| Unrolling.SplitInside | crates/als-core/src/temporal_solve.rs:356-384 | States split from an instance inside the unrolled bounds agree on statics and lie inside the original bounds |
| Unrolling.SplitInjective | crates/als-core/src/temporal_solve.rs:356-384 | Instances inside the unrolled bounds with the same states are equal |
| Unrolling.SplitOnto | crates/als-core/src/temporal_solve.rs:356-384 | Every sequence of states inside the bounds that agrees on statics is split from an instance inside the unrolled bounds |
| Unrolling.FlatInsideUnrolled | crates/als-core/src/temporal.rs:117-181 | Lying inside the unrolled bounds is lying inside the original bound copy by copy |
| Decoding.AllocatePrimaries | crates/als-core/src/solve.rs:256-279 | The allocation loops give one consecutive variable to each tuple between the bounds, relation by relation |
| Decoding.DecodeInside | crates/als-core/src/solve.rs:571-605 | Every decoded instance lies inside the bounds |
| Decoding.DecodeInjective | crates/als-core/src/solve.rs:571-605 | Assignments decode to the same instance exactly when they agree on the primary variables |
| Decoding.DecodeOnto | crates/als-core/src/solve.rs:571-605 | Every instance inside the bounds is decoded from some assignment |
| Decoding.TrivialDecode | crates/als-core/src/solve.rs:607-615 | The all-false assignment decodes to the lower bounds |
| Enumeration.TrivialIsLower | crates/als-core/src/solve.rs:607-615 | The instance answered before the solver is asked has exactly the bounded relations, each at its lower bound |
| Sat.BlockExcludes | crates/als-core/src/solve.rs:737-824 | The blocking clause excludes exactly the assignments that agree on the blocked variables |
| Enumeration.InstanceEnumerator.Next | crates/als-core/src/solve.rs:737-824 | Each answer is a new instance whose projection extends to a model, the trivial one first; an unexhausted end has yielded all of them; a budgeted stop reports exhausted and an unbudgeted one never does; the end is final |
| Enumeration.UnconstrainedGoal | crates/als-core/src/solve.rs:737-824 | With no clauses the instances to enumerate are exactly those inside the bounds |
| Enumeration.InstanceEnumerator.YieldedBounded | crates/als-core/src/solve.rs:737-824 | No more answers are yielded than there are instances |

## Left out

- FolderSoundness.SameExprEqual: equal trees stand for one arena node, so sharing is coarser than node identity.
- MemoEvaluation.MemoEvaluator.EvalFormula: forbid mode is outside it, because there a shared value depends on the polarity it was first met at; translation classes are not modelled, and the class carries no polarity or quantifier stack, which no value depends on here.
- SkolemTheorems.SkolemisationReads: goals with integer arithmetic, nested arrow multiplicities and integer-sorted sources are not in the surface language.
- LowererRun.Lowerer.LowerFormula: a use of a formula `let` carries the formula the resolver found; spans, diagnostics and skolem display names are not kept.
- TraceEnumeration.TraceEnumerator.ForkStep: says nothing past the first exhausted answer, after which the `restricted` flag stays set and a later advance reopens only the least length (crates/als-core/src/temporal_enum.rs:367-375).
- TraceEnumeration.TraceEnumerator.NextPathStep: lowering errors, the self-check of each answer and spans are left out; the goal's clauses at each length are parameters.
- Arithmetic.FlagsAreExact: the value of a division by zero is as in the code, and only its flag is stated.
- SigBounds.ForestEnforced: `lone` is not part of it, see Findings.
- UniverseMint.UniverseBuilder.Finish: the referenced literals are a parameter, collecting them from the syntax is not modelled; labels are assumed to start with no quote.
- The CNF encoder, the symmetry-breaking predicate, translation-class validation and the elimination of temporal operators: the enumerators take the clauses of a goal as given.
- Temporal connectives and primed expressions: they never reach the phases modelled here.
- The solver: `LiveSolver` searches all assignments; its callers use only its contract. DRAT checking, DIMACS output and instrumentation are not modelled.
- Effort prices: a charged solve may fail at any point when there is a budget, whatever it costs.
- Subset sigs, field bounds, declaration-level `disj` fields, `seq` fields, sort classification and the minimum-literal peephole: they have no independent meaning to prove or would add easy members.
- The scope of `steps` on a static command and `maxseq`: one comparison each.
- The evaluator's diagnostic overflow flag, and tuple-set arities, which well-typed IR makes redundant.
- Name resolution, type checking, the metamodel, and all of `als-conform` and the visualiser.
