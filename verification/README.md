# The structural decision of the schema algebra

A schema denotes a set of Python values. The decision answers whether one schema's
set is inside another's with `Holds`, `Fails` or `Unknown`, by matching
constructors against each other under a step budget, a bound on the levels held
open, a trail of goals assumed, and two stacks of things read as empty while they
are resolved. This project models that procedure, its emptiness recursion and
everything the two read off a term, gives schemas a set semantics, and proves that
no answer is wrong: `Holds` is inclusion, `Fails` is a value of the subject outside
the supertype, for every pair, every contractive table of definitions, every
truthful oracle, every budget and every depth.

## How it is laid out

**Terms and values.** `Schemas` holds the terms and the derived order their member
sets are kept in, `SortedLists` the canonical lists, `Constructors` the folding
union, meet and complement. `Values` has the finite value trees and membership,
recursive on the value, the rank of the references exposed, and the term. A
`Meaning` is a table of definitions with a rank that strictly falls along
unguarded references. `GuardCheck` proves that such a rank exists for exactly the
tables the repository's own guardedness walk accepts, and `Guards` that without it
the rules prove contradictory inclusions. `Oracles` states when an oracle is
truthful of a meaning; `Worlds` is one, drawn from bytes and proved truthful.

**Readings.** `Kinds` and `Readings` (the seven-part regions), `KindWalk`,
`Disjointness`, `Tables` (constants), `Shapes`, `Bounds` (lengths and orders) and
`Narrowing` are what is read off terms with no goal asked.

**Emptiness.** `Emptiness` is the recursion over values: what it reads, what it
spends, whether a bound stopped it. `Weights`, `EmptinessSound` and
`EmptinessRight` prove it right by the least-height argument, with definitions
being resolved and meets being unfolded read as empty. `EmptinessFuel` proves that
a reading no bound stopped does not depend on the bounds, and `EmptinessEnds` that
every reading ends without them.

**Inclusion.** `Rules` states each rule as a plan, a finite tree of questions
and of what each answer leads to. `Decision` runs plans under the budget and the
trail. `Claims` says what an answer under hypotheses claims and what taking a
goal off the trail keeps; `RulesSound`, `ProductsSound`, `UnionsSound` and
`SequencesSound` prove that each plan keeps its promise, `DecisionSound` that
running one does, and `AnyReading` that it does over any right reading of
emptiness. `Productivity` and `Trails` prove that a goal met again has crossed a
constructor since it was assumed. `DecisionFuel` and `DecisionWork` are about
the budget. `Unbounded`, `Closure`, `RulesFall` and `DecisionEnds` prove that
the recursion ends without one: what a goal asks is drawn from a finite space of
terms, and falls. `Respelling` and `Root` are the root question: the spellings a
declined pair is asked in, the bounds read last, and the second asking. `Laws`,
`Universal` and `RootEnds` are the laws of the order it answers.

**The objects.** `Contexts` holds the budget, the query's context and the memos a
thread's queries share, as classes. `EmptinessRun`, `GoalRun` and `RootRun` are
the recursions on them: they push and pop the trail, `visiting` and the open
meets, draw on the budget, read questions back from the memo and keep a root's
answers. Each is proved to answer what the recursion over values answers, to spend
the same and to give every stack back, whatever the memos hold, so every theorem
about the functions is one about them. `HeldVerdicts` is the memo of emptiness
verdicts.

**Beside the decision.** `Polarity` is the one-step unfolding of a recursive schema
cut to the top or the bottom. `Reindex` is the renumbering of a term when two
validators are composed.

## Reading the statements

An answer is a `Ran` (the relation, the steps left, whether a bound was met, the
steps taken in all) or a `Read` (the same for emptiness, with the regions). `met`
stands for the count of bounds having moved since the question began. A `Setting`
is what a query reads and never changes: the oracle, the definitions, the depth
bound, the allowance of a respelled pair, and `gate`, which says for which terms a
complement law may fold. Every denotation holds for every gate, because every term
of the model denotes a set. Integers are unbounded where the source counts steps
in 32 bits: the budget is a parameter, and no step count grows past it.

`Room(w, depth, steps, n)` says that `n` levels, steps and allowance are left; `Enough`
and `Needs` are amounts of it no emptiness reading and no goal ever uses up, and
`Limit` and `TheAnswer` what they read past it. `Alike` settings differ in their
bounds alone.

Renumbering twice is once through the composed table only under a condition, which
`Reindex.TwiceIsOnceExactly` states exactly. The repository's own law is stated on
shifts of terms in any order, where it holds (`Reindex.IncreasingTablesNeverReturn`).

## Model

| member | source | states |
|---|---|---|
| Root.TheRelationIsSound | crates/valgebra-core/src/decision.rs:988-1009 | For every pair, contractive definitions table, truthful oracle, budget, depth bound and allowance, `Holds` is inclusion and `Fails` is a value of the subject outside the supertype, the second asking included |
| DecisionSound.TheDecisionIsSound | crates/valgebra-core/src/decision.rs:1638-1765 | The goal recursion with no hypothesis open answers with facts at any steps, level and narrowing: a proof is inclusion of the two sets, a refutation a value of one outside the other |
| DecisionSound.AGoalIsSound | crates/valgebra-core/src/decision.rs:1685-1765 | Under any open trail an answer is what it claims if the goals assumed are lent to it: a proof value by value, a refutation of a true trail |
| DecisionSound.TheRulesAreSound | crates/valgebra-core/src/decision.rs:1701-1765 | Before the witness, a proof holds under the trail and a refutation is a mismatch: a spilled value if the subject has any |
| DecisionSound.TheWitnessIsReal | crates/valgebra-core/src/decision.rs:1592-1652 | A mismatch read against the subject: believed of a shape that holds a value, and otherwise what the subject's own emptiness says, so a proof where it holds none |
| DecisionSound.RunKeepsThePromise | crates/valgebra-core/src/decision.rs:2574-2768 | Whatever a rule's questions answer, in any order and at any budget, its answer keeps the rule's promise |
| DecisionSound.DecideIsValid | crates/valgebra-core/src/decision.rs:2296-2340 | Tables, the universe, a pushed complement, the shapes and then the bounds: every path of the decision keeps the goal's promise |
| DecisionSound.InsideIsOutsideTheComplement | crates/valgebra-core/src/decision.rs:2715-2722 | A proof of `A <= B` under hypotheses is a refutation of `A <= not B` for a subject with a value, and a proof of it for one with none |
| AnyReading.AnyGoalIsSound | crates/valgebra-core/src/decision.rs:1870-1897 | However the emptiness questions are answered rightly (read again, read back from a memo or declined), whatever facts narrowed meets are answered with and wherever bounds stop the run, an answer is what the goals lent entail |
| AnyReading.AnswersWithNothingAssumedAreFacts | crates/valgebra-core/src/decision.rs:1870-1897 | So with nothing assumed every such run answers with a fact of the two sets |
| AnyReading.AGoalIsOne | crates/valgebra-core/src/decision.rs:1638-1765 | And the goal recursion, at any steps, depth and trail, answers as one of those runs |
| Claims.PoppingHolds | crates/valgebra-core/src/decision.rs:3217-3230 | Taking a goal off the trail keeps its proof: greatest fixpoint, by induction on the value, where the unfolded pair exposes fewer references |
| Claims.PoppingFails | crates/valgebra-core/src/decision.rs:3217-3230 | Taking a goal off the trail keeps its refutation: refuted under its own assumption, the goal is false whichever way the assumption falls |
| RulesSound.UnfoldIsValid | crates/valgebra-core/src/decision.rs:1938-1976 | A goal assumed while the pair its reference unfolds to is asked: both answers carry over, the unfolding exposing strictly less |
| RulesSound.UnionBelowIsValid | crates/valgebra-core/src/decision.rs:2431-2463 | A union below a schema: each member's proof together, any member's refutation, or two tables read at once |
| RulesSound.MeetBelowIsValid | crates/valgebra-core/src/decision.rs:2188-2290 | A meet below a schema, by a member or a branch that holds it, by its kinds, by a merged split and by the member that is the meet |
| RulesSound.TheMemberThatIsTheMeetIsValid | crates/valgebra-core/src/decision.rs:282-326 | A member below all the others is the meet, read so only with no hypothesis open |
| RulesSound.NarrowedMeetBelowIsValid | crates/valgebra-core/src/decision.rs:581-649 | The narrowed meet below a supertype answers the meet's question, proofs and refutations |
| UnionsSound.BelowAUnionIsValid | crates/valgebra-core/src/decision.rs:1993-2100 | Below a union: the branches asked once each, then the split, the product decomposition, the narrowing and the reduction |
| UnionsSound.NarrowingIsExact | crates/valgebra-core/src/decision.rs:2134-2188 | Narrowing a union to the branches the subject can meet carries both answers over, and where every branch is dropped a subject with a value spills |
| SequencesSound.LinearBelowIsValid | crates/valgebra-core/src/decision/products.rs:199-296 | Prefix and tail against prefix and tail, position by position, a repeated pair asked once, an empty tail never repeating |
| ProductsSound.ProductPlanIsValid | crates/valgebra-core/src/decision/products.rs:41-158 | The product decomposition proves and refutes: a tuple of values, one a component, outside every branch, is what a refutation names |
| DecisionEnds.TheRulesEnd | crates/valgebra-core/src/decision.rs:56-69 | Without any budget the rule recursion still ends: for every pair and every table of definitions there are steps, levels and an allowance past which no bound is ever met |
| DecisionEnds.EveryGoalEnds | docs/dev/02-decision.md:1516-1544 | The same of every goal under every trail: a path draws its goals from a finite space, and between two unfoldings they only get smaller |
| RulesFall.TheRulesFall | docs/dev/02-decision.md:1516-1544 | Every goal the rules ask of a pair of the space is a smaller pair of the space, but the one a reference unfolds to, asked with the pair assumed |
| DecisionEnds.AnUnstoppedAnswerIsTheAnswer | crates/valgebra-core/src/decision.rs:142-181 | Whatever the bounds, a question none of them stopped is answered as it is with none |
| EmptinessEnds.EveryReadingEnds | docs/dev/02-decision.md:1545-1590 | The emptiness recursion ends without its bounds, under any hypotheses: each reading asks smaller terms or opens one more of finitely many definitions and meets |
| EmptinessEnds.AnUnstoppedReadingIsTheLimit | crates/valgebra-core/src/decision.rs:504-516 | Whatever the bounds, a reading none of them stopped is the reading with none |
| Productivity.TheRulesAreProductive | crates/valgebra-core/src/decision.rs:1754-1758 | Every question the rules ask under a trail exposes no more references than its pair or is about the parts of its two sides, and an unfolding exposes fewer |
| Trails.AGoalMetAgainHasCrossed | crates/valgebra-core/src/decision.rs:1754-1758 | Down every path of a run, a goal answered by its own hypothesis has crossed a sequence or a set since the call that assumed it |
| DecisionFuel.MoreForAGoal | crates/valgebra-core/src/decision.rs:142-224 | Monotonicity in every bound: a run that met none answers alike with more steps, and under any depth bound and allowance as wide, its extra steps left over, exact exhaustion inside a union counted as a bound |
| Root.MoreBudgetAnswersAlike | crates/valgebra-core/src/decision.rs:142-181 | A root question whose asking met no bound has the same answer on every larger budget, the spellings and the bounds read last included |
| Root.TheBoundsAreReadAlready | crates/valgebra-core/src/decision.rs:1214-1245 | A pair declined with its last step spent and no bound met is read no emptier on a budget of its own |
| DecisionWork.WorkOfAGoal | crates/valgebra-core/src/decision.rs:581-649 | Total work with the side questions counted: at most `1 + respelling` steps for each one charged, and none past the charge inside another's narrowed question |
| DecisionWork.AGoalAsksOnce | crates/valgebra-core/src/decision.rs:2574-2768 | A goal asks at most one narrowed meet of its own along any path of its rules |
| Root.OneAskingIsBounded | crates/valgebra-core/src/decision.rs:139-194 | One asking of a root question, spellings and narrowed meets counted, takes at most `(1 + r) * (steps + 3 * r)` steps for an allowance `r` |
| Runs.EachBelowIsTheConjunction | crates/valgebra-core/src/decision.rs:2417-2428 | Stopped at the first decline on spent steps, a union's answer is Kleene's conjunction over every member, each asked in turn |
| Runs.ASpentGoalNeverFails | crates/valgebra-core/src/decision.rs:1716-1725 | A goal asked with no steps left is never refuted |
| Laws.TheRelationIsReflexive | fuzz/src/lib.rs:364-374 | Every schema is below itself and equivalent to itself at every budget, none included |
| Laws.TheTopIsAbove | fuzz/src/lib.rs:375-378 | Everything is below the top, given one step and one level |
| Laws.TheBottomIsBelow | fuzz/src/lib.rs:379-382 | The bottom is below every schema, given one step and two levels |
| Laws.EmptinessAndInclusionAgree | fuzz/src/lib.rs:391-396 | A schema the emptiness reading one level down proves empty, stopped by no bound, is answered below every supertype |
| Laws.WithRoomTheyAgree | fuzz/src/lib.rs:391-396 | So with room enough whatever reads empty with no bounds is answered below every supertype |
| Universal.AUniversalSupertypeIsAbove | fuzz/src/lib.rs:397-402 | A supertype whose complement is read empty, at any bounds, is with room enough answered above every subject that holds a value and every subject that reads empty |
| Universal.AReadUniverseIsAbove | crates/valgebra-core/src/decision.rs:1790-1857 | With room, so is every supertype whose regions cover the universe or whose flattened complements read, with no bound in the way, as meeting in nothing |
| Universal.TheRulesProveTheUniverse | crates/valgebra-core/src/decision.rs:1790-1857 | On any budget and depth but none, the rules prove a supertype they read as the universe above every subject with a value, or decline at a bound, which only the meet of complements meets |
| Universal.TheUniverseIsAbove | crates/valgebra-core/src/decision.rs:1790-1805 | A supertype whose regions cover the universe is answered above every subject with a value, given one step and one level |
| Laws.AUniversalSupertypeIsNeverRefuted | fuzz/src/lib.rs:397-402 | And on any budget at all a supertype whose complement is proved empty is refuted below no subject |
| RootEnds.AQuestionEnds | crates/valgebra-core/src/decision.rs:56-69 | A root question ends too: with room for the pair and its spellings one asking meets no bound and leaves a step |
| RootEnds.OneAnswer | crates/valgebra-core/src/decision.rs:142-181 | And with that room it is answered alike on every budget and allowance |
| RootEnds.EquivalenceIsMutualInclusion | fuzz/src/lib.rs:403-418 | With room for both questions equivalence is answered exactly where both inclusions are |
| RootEnds.EquivalentIsBelow | fuzz/src/lib.rs:403-411 | On any budget an equivalence answered is the first inclusion answered |
| RootEnds.EquivalentIsAbove | fuzz/src/lib.rs:403-411 | And the second answered, where the two were asked with no bound met and a step left |
| RootEnds.MutualInclusionIsEquivalence | fuzz/src/lib.rs:412-418 | Two inclusions answered are an equivalence on one budget, where asking the second on what the first left meets no bound and leaves a step |
| RootEnds.ASpentBudgetForgetsTheSecond | crates/valgebra-core/src/decision.rs:2940-2966 | And may be none on a budget the first spends: two steps answer each inclusion of `set[int]` and `set[bool | int]` and leave their equivalence undecided |
| Root.TheEquivalenceIsSound | crates/valgebra-core/src/decision.rs:2952-2966 | `Holds` is the two sets being one and `Fails` that they differ, the two directions sharing one budget |
| Root.NoTwoAnswersContradict | fuzz/src/lib.rs:324-335 | No truthful oracle, budget or allowance refutes what another proves: the blind answer and the seeing one never contradict |
| Respelling.RespellingIsSound | crates/valgebra-core/src/decision.rs:1247-1441 | Every spelling of a declined pair -- a kind spilled, a complement pushed, a table's difference, complements moved across, two meets together -- answers the pair itself |
| Respelling.MovingKeepsTheQuestion | crates/valgebra-core/src/decision.rs:1362-1388 | Moving complement members across turns `a <= b or not c` into `a and c <= b` with the same truth, both ways |
| Respelling.FlatMembersOf | crates/valgebra-core/src/decision.rs:557-579 | The worklist ends and yields every member that is no union, at any nesting, exactly once |
| EmptinessRight.EmptinessIsRightAtTheRoot | crates/valgebra-core/src/decision.rs:2979-3012 | With nothing open, `Empty` is no value and `Inhabited` a real one, at any steps and depth |
| EmptinessRight.EmptinessIsRight | crates/valgebra-core/src/decision/emptiness.rs:407-640 | Under any definitions being resolved and meets open: empty as far as the hypotheses lend it, and inhabited outright |
| EmptinessSound.NoLeastValue | crates/valgebra-core/src/decision.rs:1899-1920 | The least-height argument: a term none of whose values can be its first has none |
| EmptinessSound.ADefinitionResolved | crates/valgebra-core/src/decision/emptiness.rs:444-470 | A definition empty while it is read as empty is empty |
| EmptinessSound.AMeetClosed | crates/valgebra-core/src/decision/emptiness.rs:1264-1391 | A meet whose every branch is empty while the meet itself is read as empty is empty, each branch's meet standing lower |
| EmptinessRight.DistributedIsRight | crates/valgebra-core/src/decision/emptiness.rs:1299-1391 | Unfolding a reference or distributing a union among a meet's members is right, the meet held open or counted within its clauses |
| EmptinessRight.RefinementIsRight | crates/valgebra-core/src/decision/emptiness.rs:1578-1673 | A refinement by its base, its bounds, its branches and the lengths its shape holds |
| EmptinessFuel.MoreSteps | crates/valgebra-core/src/decision/emptiness.rs:407-421 | An emptiness reading that met no bound is the reading under any bounds as wide, the verdict, the regions and the steps spent; and one that has a step left is the reading with more steps, whatever bound it met |
| GoalRun.IsSubtypeRun | crates/valgebra-core/src/decision.rs:1685-1765 | The recursion on a live budget, trail and memos answers, spends and meets bounds as the recursion over values does, and gives the trail, the stacks and the level back as they stood |
| GoalRun.RunPlan | crates/valgebra-core/src/decision.rs:2574-2768 | A rule's questions asked one after another on the query's own state, as its plan says |
| GoalRun.Assuming | crates/valgebra-core/src/decision.rs:3217-3230 | The goal is on the trail while its pair is decided and off it after |
| GoalRun.NarrowedMeetRun | crates/valgebra-core/src/decision.rs:581-649 | A narrowed meet inside another's question runs on its steps and trail; outside, as a question of its own charged to nothing |
| GoalRun.ReadBackOrAsked | crates/valgebra-core/src/decision.rs:613-648 | Memo transparency: a question read back answers what asking it again under that allowance would, and its bound counts as met |
| GoalRun.OwnQuestion | crates/valgebra-core/src/decision.rs:632-662 | The question runs on a fresh budget and trail, open while it runs, and what was open before is open after |
| Contexts.Thread.Remember | crates/valgebra-core/src/decision.rs:640-648 | An answer kept, the full table emptied first, leaves every held answer what recomputing for its query number gives |
| GoalRun.EachBelowRun | crates/valgebra-core/src/decision.rs:2477-2538 | The loop over a union's members equals the fold, stopping where it does, and at a root keeps the members placed |
| GoalRun.BelowEachMemberRun | crates/valgebra-core/src/decision.rs:2344-2383 | The loop over a meet supertype's members, and at a root the members the subject was placed below |
| GoalRun.EachBranchRun | crates/valgebra-core/src/decision.rs:2385-2415 | The loop over a union supertype's branches, and at a root the branches that refuted |
| RootRun.WhatIsKeptIsAFact | crates/valgebra-core/src/decision.rs:3048-3121 | Each pair a root placed is an inclusion, and each branch it refuted holds a value of the subject outside |
| HeldVerdicts.AHeldVerdictIsRight | crates/valgebra-core/src/decision/emptiness.rs:1016-1061 | A verdict held for a query is a fact of its meet, and a held decline is what every reading with room gives |
| HeldVerdicts.ReadBackLosesNothing | crates/valgebra-core/src/decision/emptiness.rs:1025-1036 | Read back, a held verdict is the one any reading that decides with no bound met would give: the memo takes no answer away |
| HeldVerdicts.Held.VerdictOf | crates/valgebra-core/src/decision/emptiness.rs:1062-1101 | With nothing open a meet is read back or read, and held where it decided or no bound was met; the full table is emptied first |
| EmptinessRun.EmptyAndRegionRun | crates/valgebra-core/src/decision/emptiness.rs:407-421 | The emptiness recursion on the live stacks reads what the recursion over values reads |
| EmptinessRun.RespelledMeetRun | crates/valgebra-core/src/decision.rs:244-259 | An allowance of the steps left, and the query charged exactly what was spent of it |
| RootRun.SubtypeRelationRun | crates/valgebra-core/src/decision.rs:988-1009 | A root question on fresh objects is asked at most twice, answers as the recursion over values whatever the thread's memos hold, and takes no more steps than the two askings |
| RootRun.AskedInside | crates/valgebra-core/src/decision.rs:3051-3064 | A query a callback starts inside another is answered as it would be outside it, and leaves the outer one its trail, its number, its open question and a thread whose every held answer is still right |
| RootRun.EquivalenceRelationRun | crates/valgebra-core/src/decision.rs:2918-2966 | Both directions on one budget, the second only where the first holds, asked again at most once |
| Kinds.RegionOperations | crates/valgebra-core/src/kind.rs:53-110 | Union, meet and complement of the seven bits are the set operations on the parts, and keep the eighth bit clear |
| Kinds.RegionInclusion | crates/valgebra-core/src/kind.rs:88-110 | `subset_of`, emptiness and equality of the bits decide inclusion, emptiness and equality of the sets of parts |
| Readings.RegionsAreExact | crates/valgebra-core/src/decision/readings.rs:849-905 | The region fold denotes exactly the values of every scalar Boolean combination |
| Readings.RegionsDecideInclusion | crates/valgebra-core/src/decision.rs:1737-1746 | On that fragment inclusion of the region sets is inclusion of the schemas, both ways |
| Readings.StoppingChangesNothing | crates/valgebra-core/src/kind.rs:112-157 | A fold stopped at the absorbing `Unknown` is the fold read to the end |
| KindWalk.WholeIsSound | crates/valgebra-core/src/decision/readings.rs:1206-1241 | A kind read whole is held whole, through references, to the walk's bound |
| KindWalk.PossiblyIsSound | crates/valgebra-core/src/decision/readings.rs:1243-1308 | A kind not possibly held is held nowhere |
| Disjointness.DisjointIsApart | crates/valgebra-core/src/decision/readings.rs:52-170 | The two discriminants read apart share no value: tags, literals, element kinds and meets |
| Tables.TablesBelow | crates/valgebra-core/src/decision/literals.rs:505-592 | A table below a table is decided by membership, a constant told apart from every one listed naming the refutation |
| Tables.TheTablesAreRead | crates/valgebra-core/src/decision/literals.rs:82-143 | A meet of finite tables is read empty or held rightly |
| Tables.AnEndlessKindSpills | crates/valgebra-core/src/decision/literals.rs:260-291 | A subject that holds an endless kind whole spills past every finite table |
| Shapes.MergedSplitDenotes | crates/valgebra-core/src/decision.rs:366-451 | Whenever a split is merged the term denotes the union of the members, conjuncts flattened through meets nested to any depth |
| Shapes.APlacementHolds | crates/valgebra-core/src/decision.rs:326-345 | What the terms alone place by membership is included |
| Narrowing.NarrowedMeetDenotes | crates/valgebra-core/src/decision/emptiness.rs:1100-1190 | Dropping from each union of a meet the branches that share no value with a member beside it leaves the same set |
| Bounds.UnsatisfiableHoldsNothing | crates/valgebra-core/src/decision/constraints.rs:95-180 | Bounds that cross, in the oracle's order or between two integers, are met by no value |
| Bounds.EntailedIsSatisfied | crates/valgebra-core/src/decision/constraints.rs:262-330 | A constraint entailed by another's bounds holds of every value they admit |
| Values.UnionDenotes | crates/valgebra-core/src/ir.rs:1176-1250 | The join denotes the union of its members' sets, whichever laws it folds |
| Values.MeetDenotes | crates/valgebra-core/src/ir.rs:1255-1320 | The meet denotes their intersection, whichever laws it folds |
| Schemas.Order | crates/valgebra-core/src/ir.rs:815-850 | The derived order on terms is strict and total, whatever the nesting |
| Verdicts.All | crates/valgebra-core/src/verdict.rs:217-238 | The loop that stops at the first refutation answers Kleene's strong conjunction |
| GuardCheck.GuardedTablesAreContractive | crates/valgebra-core/src/ir.rs:2033-2110 | The tables no definition of which reaches itself unguarded are exactly those a rank makes contractive: what the decision requires is what the check accepts |
| GuardCheck.OccursUnguardedUnder | crates/valgebra-core/src/ir.rs:2052-2080 | From nothing entered, the check finds a definition in itself exactly where a walk of unguarded references leads back to it |
| Guards.AnUnguardedReferenceIsProvedBothWays | crates/valgebra-core/src/decision.rs:1754-1758 | With a definition that exposes itself, the rules prove `str` below it and it below `bytes`, so the guard is needed |
| Polarity.UnfoldingBrackets | crates/valgebra-core/src/ir/transform.rs:277-341 | At every depth of unfolding, the schema cut to the bottom lies within it and it within the schema cut to the top, the side flipped under a complement alone |
| Polarity.AnUncutValueRefutes | crates/valgebra-core/src/decision.rs:780-815 | A value of the widened difference at such a kind refutes the inclusion |
| Polarity.TheDifferencesDecide | crates/valgebra-core/src/decision.rs:679-909 | Whatever stands the two differences rightly decides the pair soundly: empty widened proves, inhabited narrowed or uncut refutes |
| Reindex.TwiceIsOnceExactly | crates/valgebra-core/src/index_laws.rs:253-272 | Renumbering twice is renumbering once through the composed table exactly where every set that leaves its order and returns to it is canonical |
| Reindex.CanonicalTermsReturnCanonical | crates/valgebra-core/src/index_laws.rs:253-272 | Every canonical term meets that condition, through any two tables, reversing or collapsing |
| Reindex.IncreasingTablesNeverReturn | crates/valgebra-core/src/index_laws.rs:253-272 | So does every term whatever its order, through tables that send no slot down, as shifts do |
| Reindex.ARawSetMayReturnSorted | crates/valgebra-core/src/index_laws.rs:253-272 | A set written out of order, a table and its inverse, where twice is not once |
| Reindex.EveryIndexMoves | crates/valgebra-core/src/index_laws.rs:274-296 | The pool indices after are exactly the image of those before through the table, and the definitions exactly their shift: none missed, none moved twice |
| Reindex.IndexSets | crates/valgebra-core/src/index_laws.rs:152-250 | The walk that pushes every payload, sorted and deduplicated after, is the set of indices the term holds, pool and definitions apart |
| Reindex.RenumberedSetsAreCanonical | crates/valgebra-core/src/index_laws.rs:298-317 | Every set is sorted and distinct after any table, order-reversing and collapsing ones included |
| Reindex.TheIdentityMovesNothing | crates/valgebra-core/src/index_laws.rs:319-329 | The identity table at no shift leaves the term as it stands |
| Reindex.RenumberingPreservesMeaning | crates/valgebra-core/src/ir/transform.rs:509-527 | The renumbered term denotes under the renumbered pool what the term denotes under its own |
| Worlds.TheWorldIsTruthful | fuzz/src/world.rs:325-457 | Every answer of a drawn world is a fact about it, so every theorem above holds of its oracle |
| Worlds.DrawClasses | fuzz/src/world.rs:198-250 | The table filled in place: each class as its two bytes draw it from those before, deriving from an earlier one and keeping its layout and its hook |
| Worlds.LineageOf | fuzz/src/world.rs:261-268 | The chain grown a parent at a time is the class and everything it derives from, nearest first |
| Worlds.DerivationIsAnOrder | fuzz/src/world.rs:155-168 | Derivation is reflexive, transitive and antisymmetric, and hooks and layouts are inherited along it |
| Worlds.NoIntegerIsBetween | fuzz/src/world.rs:376-401 | The floor and ceiling test is exact: it answers that no integer lies between exactly where none does |
| Worlds.TheOrderIsTheNumbers | fuzz/src/world.rs:358-364 | The order read between two operands is the order their bounds cut the values in |
| Worlds.AskedPairwise | fuzz/src/world.rs:366-374 | Asked pair by pair, two tables are told apart exactly where no pair shares a value, and declined where a pair is |

## Left out

- The set representation (`descr`, the lowering, the automata and map lattices): the readings of a goal by it, of a pair whole or by its parts and leaves, of a pair's texts and of lengths as interval sets are read here as declines. Polarity stops at the unfolding and its two readings.
- Keyed maps, attribute records and self-reference markers, with the rules that read them: the record splits, the tag pairing of discriminated unions, the dict kind's top, a class beside attributes.
- Instances of a class that derives from a builtin: an object of the value universe has no kind, which a class laid out as a builtin is read with all the same.
- Predicates, patterns and hooked classes as anything but a set the meaning names: a constraint of those kinds is satisfied or not, once and for all. The walk that finds a callback is the parameter `gate`.
- Emptiness rules not modelled: a pattern beside its complement, a meet read by its constants one by one, bounded integers counted, sets of distinct members of each length, differences of records.
- Inclusion rules not modelled: one item outside every branch, refined branches and lengths refused or entailed for sets, refutation by a multiple, `divides`.
- Stack sizes, instruction counts, the addresses memos are keyed by (a narrowed meet's question is keyed by the meet itself, a root's record names which of the three roots kept it), and queries that run on two threads.
- Guards against unwinding: the value open before a question is put back at the end of the call.
- The frontend, parsing, reporting, and the fuzz generator's byte cursor: a drawn class takes its two bytes as a parameter.
- Guards.AnUnguardedReferenceIsProvedBothWays: is one table, the least, because a table the guard refuses may still be decided rightly.
- RootRun.SubtypeRelationRun: the steps counted are those of the two askings and of the bounds read on budgets of their own, at most `8 * budget`.
- Contexts.Cx.Spend: counts steps without the 32-bit width, because a budget only falls.
- EmptinessRun.EmptyAndRegionRun: reads no held verdict back, because that changes the steps a query spends and so which pairs it decides; `HeldVerdicts` is the memo beside it, without the read-back charged as read and the verdicts held under an open meet, and `AnyReading` proves the decision right whatever right verdicts are read back in it.
- Goals asked while a definition is being resolved (the differences of records) are left out with the records.
- Universal.AUniversalSupertypeIsAbove: asks that the supertype's union nest no union, as the constructors leave it, because a nested one cancels whole against its complement where its members, which the rules flatten, need not; and that the subject holds a value or reads empty, because a subject with neither proved may be mismatched by shape and declined.
- RootEnds.EquivalentIsAbove: asks that no bound was met, because an answer found past a bound need not be found again on another budget.
- RootEnds.MutualInclusionIsEquivalence: asks that the second question meets no bound on the steps the first left, because the two share one budget (`RootEnds.ASpentBudgetForgetsTheSecond` is one that fails); with room for both, `RootEnds.EquivalenceIsMutualInclusion` asks nothing.
- RootRun.AskedInside: the outer query's record of its root may be replaced by the inner one's, as in the source, because a thread holds one; the readers of that record are the set representation's, and only its content is proved (`RootRun.WhatIsKeptIsAFact`).
- Worlds.TheWorldIsTruthful: holds of worlds where no value of the universe is an instance of a class laid out as a builtin, because the universe has no such instances.
- DecisionSound.DecideIsValid: the interval sets of lengths and the set representation's readings, at the places the source asks them, are declines.
