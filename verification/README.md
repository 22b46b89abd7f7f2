# Verified model of an And-Inverter-Graph toolchain

This project models tools that read, transform and check And-Inverter Graphs (AIGs), and two parallel SAT
front ends, and proves what they promise. A model has inputs, latches with reset and next-state literals,
two-input AND gates, and bad, constraint, justice and fairness literals (the AIGER format, version 20071012,
and its 1.9 extension). `Aiger.dfy` gives the semantics once, as runs of valuations; every tool is proved
against it. `dafny verify dfyconfig.toml` checks everything.

| files | program |
|---|---|
| `Aiger` | models, valuations, runs, re-encoded models |
| `BmcSpec`, `Cnf`, `BmcEncoding`, `BmcSoundness`, `BmcCompleteness`, `Bmc`, `BmcMain`, `BmcListing` | `aigbmc`: bounded model checking with liveness lassos |
| `LassoCheck`, `WitnessCheck`, `WitnessFails` | `aigsim`: simulation and witness checking; witnesses of `aigbmc` under `aigsim` |
| `Rewrite`, `HashChains`, `HashCons`, `SmvExpr`, `SmvCheck`, `SmvNesting` | `smvtoaig`: rewriting AND constructor, hash consing, expression compiler and the checks before it |
| `PgCnf` | `aigtocnf`: polarity-aware CNF |
| `Graph`, `CycleCheck`, `ReencodeSpec`, `Reencode`, `ReencodeTool`, `ReencodeRuns`, `Binary` | the AIGER library: cycle check, re-encoding, binary AND section |
| `SimpSpec`, `SimpCounts`, `SimpJobs`, `SimpAig` | `simpaig`: reference counting, structural hashing, shift and substitution |
| `UnrollSpec`, `Unroll`, `UnrollTool` | `aigunroll`: time-frame expansion |
| `AigerBuild`, `MiterSpec`, `Miter`, `MiterTool` | `aigmiter`: sequential and combinational miters |
| `Move`, `MoveRuns` | `aigmove`: folding of environment constraints |
| `Coi` | `blimc`: cone of influence |
| `ClauseQueue` | `plingeling`: the queue of shared clauses |
| `CubeTree` | `treengeling`: cube-and-conquer search tree |

Code that changes state is modelled by classes and loops with the source's fields; each method is tied to a
specification function or relation, and the properties are proved about that. Parts that the source obtains
from elsewhere are parameters: a SAT solver is a function assumed to answer correctly (`BmcMain.Correct`,
`CubeTree.Correct`, `CubeTree.ParallelCorrect`), hash functions are arbitrary, and in the clause queue any
sequence of operations may happen, one at a time, since each holds the mutex throughout.

## Where the code does not do what one would expect

Each of these is kept in the model as the code has it, shown by a concrete input, and delimited by a condition
for when it happens.

- `aigbmc` reports a justice property that has no literals, in a model without fairness, on any run that meets
  the constraints, lasso or not (`BmcSpec.UngroundedReportIsSpurious`). Call a model grounded if it has a fairness
  literal or every justice property has a literal. `BmcSpec.SpuriousExactly`: a reported run is no witness iff the
  model is not grounded, and the run neither ends in a bad state nor closes a loop. A model that is not grounded
  is decided at bound 0: `BmcMain.BoundedModelCheck` reports iff some initial frame meets the constraints, and
  all such reports are genuine iff every such frame is bad or changes no latch (`BmcSpec.GenuineAtOnce`; so
  it is in every model without latches).
- `aigbmc` may list a justice property whose own literals recur but which is not fair, next to a bad state, when
  there are several justice properties: on a reported run, property p can be listed iff it has a loop of its own
  (`BmcListing.ListedExactly`). `aigsim` does not let such a witness pass; `WitnessCheck.Confirmed` says which
  witnesses pass, and `WitnessFails.UnfairWitnessFails` gives a model, an answer of the solver and the printed
  witness that does not. Grounded models with no bad literal, at most one justice property or no fairness
  literal cannot have this (`BmcListing.OnlyFairListed`, `WitnessCheck.FindAndCheck`); for the others it depends
  on the runs, as `BmcListing.ListedExactly` says.
- `smvtoaig` checks the nesting of `next` in expressions but not in definitions by themselves, all of which it
  compiles: two definitions on top of each other reach time slice 2, for which there is no cache entry
  (`SmvNesting.NestedDefinitionsPass`, `SmvNesting.StaysInTwoSlices`).
- The delta reader tests the sixth byte, not the fifth: some five-byte codes are accepted and truncated, and a
  sixth byte below 8 is shifted by 35 bits, which C leaves undefined (`Binary.TruncatedCodeAccepted`,
  `Binary.ReadIsCanonical`, `Binary.UndefinedShift`). The shifted operand is a signed integer, so that a fifth
  byte of 8 or more, shifted by 28, overflows too; the model takes the bits that 32-bit compilers deliver. What
  the writer wrote is read back without any such overflow iff the number is below 2 to the 31
  (`Binary.ShiftsFitInt`), hence whenever all literals of the model are (`Binary.SectionShiftsFit`).
- Writing into a string returns the byte as a signed character, so that byte 0xff is taken for a failure on
  platforms with signed `char` (`Binary.StringRejects255`, `Binary.PutAllExact`).
- The test for already re-encoded models admits an AND that is its own operand (`ReencodeTool.SelfOperandPasses`),
  and nothing else that is not re-encoded (`ReencodeTool.OrderedExactly`); for acyclic models it is exact
  (`ReencodeTool.OrderedIsReencoded`).
- `aigmove` folds constraints over the whole past only if the model has latches; without latches each frame
  counts by itself, and an output can be 1 after a violation (`MoveRuns.ViolationForgotten`). The two foldings
  differ on some run iff one frame can violate a constraint and another can meet all of them and be bad
  (`MoveRuns.PerFrameSufficesExactly`).

## Model

| member | source | states |
|---|---|---|
| Aiger.ConsistentUnique | aiger-1.9.3/aigsim.c:515-525 | in a re-encoded model the constant, inputs and latches determine the value of every gate |
| Aiger.ConsistentExists | aiger-1.9.3/aigsim.c:515-525 | every choice of inputs and latch values extends to a valuation that respects all gates |
| Aiger.RunDeterministic | aiger-1.9.3/aigsim.c:471-633 | two runs with the same inputs and the same initial latches coincide on every defined variable at every step |
| BmcSpec.ReportedMeaning | aiger-1.9.3/aigbmc.c:236-312 | for grounded models the encoding looks for exactly the genuine witnesses; for the others it accepts every run that meets the constraints |
| BmcSpec.SpuriousExactly | aiger-1.9.3/aigbmc.c:236-312 | a run to be reported is no witness iff the model is not grounded, the end is not bad and no loop is closed |
| BmcSpec.ReportedAtOnce | aiger-1.9.3/aigbmc.c:260-312 | not grounded: the one-frame reports are exactly the initial frames that meet the constraints, and every report begins with one |
| BmcSpec.GenuineAtOnce | aiger-1.9.3/aigbmc.c:260-312 | not grounded: the one-frame reports are all genuine iff every legal initial frame is bad or changes no latch |
| BmcSpec.UngroundedReportIsSpurious | aiger-1.9.3/aigbmc.c:260-281 | concrete model: a justice property without literals, and no fairness, is reported on a run that closes no lasso |
| Bmc.Encoder.NewVar | aiger-1.9.3/aigbmc.c:126 | solver variables are numbered consecutively, each for one recorded purpose |
| Bmc.Encoder.Unit | aiger-1.9.3/aigbmc.c:141 | the formula gains exactly this literal |
| Bmc.Encoder.Binary | aiger-1.9.3/aigbmc.c:143 | the formula gains exactly the disjunction of the two literals |
| Bmc.Encoder.Ternary | aiger-1.9.3/aigbmc.c:145-147 | the formula gains exactly the disjunction of the three literals |
| Bmc.Encoder.And | aiger-1.9.3/aigbmc.c:153-157 | the formula gains exactly: left side if and only if both operands |
| Bmc.Encoder.ImportList | aiger-1.9.3/aigbmc.c:128-139 | model literals become the literals of the frame, never 0 |
| Bmc.Encoder.EncodeLatches | aiger-1.9.3/aigbmc.c:173-193 | first latches are constants or fresh variables by reset value, later ones the previous next-state literals; gives up exactly on other reset literals |
| Bmc.Encoder.EncodeInputs | aiger-1.9.3/aigbmc.c:195-197 | one fresh variable per input |
| Bmc.Encoder.EncodeAnds | aiger-1.9.3/aigbmc.c:199-205 | one fresh variable per gate, and clauses that say exactly that it is the conjunction of its imported operands |
| Bmc.Encoder.EncodeNexts | aiger-1.9.3/aigbmc.c:207-208 | next-state literals are the imported next functions |
| Bmc.Encoder.EncodeBad | aiger-1.9.3/aigbmc.c:212-222 | the one-bad variable implies that some bad literal holds |
| Bmc.Encoder.EncodeConstraints | aiger-1.9.3/aigbmc.c:224-234 | sane implies all constraints now and sane before; the assumption implies sane |
| Bmc.Encoder.EncodeLoop | aiger-1.9.3/aigbmc.c:246-258 | clauses of the join and loop variables against the shared join state |
| Bmc.Encoder.EquivUnder | aiger-1.9.3/aigbmc.c:251-258 | under the guard the shared join variables equal the given state literals |
| Bmc.Encoder.Track | aiger-1.9.3/aigbmc.c:261-270 | a tracked literal is satisfied only if it was before, or holds now inside the loop |
| Bmc.Encoder.EncodeAllJustice | aiger-1.9.3/aigbmc.c:260-275 | tracking and satisfaction clauses of all justice properties |
| Bmc.Encoder.EncodeOneJustified | aiger-1.9.3/aigbmc.c:276-281 | the shared justification literal implies that some property is satisfied |
| Bmc.Encoder.EncodeFairness | aiger-1.9.3/aigbmc.c:284-306 | tracking of fairness, and justification implies all of it |
| Bmc.Encoder.EncodeGoal | aiger-1.9.3/aigbmc.c:308-312 | the assumption implies a bad state or a justified lasso |
| Bmc.Encoder.EncodeFrame | aiger-1.9.3/aigbmc.c:159-316 | one call adds exactly the clauses of one frame, with the literals laid out as the next frame needs them |
| Bmc.Encoder.Encode | aiger-1.9.3/aigbmc.c:159-316 | appends one frame; fails exactly on the first frame for a reset value it cannot handle |
| BmcSoundness.ExtractedRun | aiger-1.9.3/aigbmc.c:173-208 | every assignment that satisfies the clauses reads back as a run of the model from reset |
| BmcSoundness.ExtractedConstrained | aiger-1.9.3/aigbmc.c:224-234 | under the last assumption, that run meets all constraints in all frames |
| BmcSoundness.LoopWasJoined | aiger-1.9.3/aigbmc.c:246-250 | a true loop variable goes back to a frame where the loop was joined |
| BmcSoundness.JoinClosesLoop | aiger-1.9.3/aigbmc.c:251-258 | a joined frame has the latch state that follows the last frame |
| BmcSoundness.JusticeWasSeen | aiger-1.9.3/aigbmc.c:260-271 | a satisfied tracking variable goes back to a frame of the loop where the literal held |
| BmcSoundness.FairWasSeen | aiger-1.9.3/aigbmc.c:284-298 | the same for fairness literals |
| BmcSoundness.TrackedLasso | aiger-1.9.3/aigbmc.c:246-306 | literals tracked from different join points meet on one lasso |
| BmcSoundness.OneJustifiedIsFair | aiger-1.9.3/aigbmc.c:276-306 | the justification literal certifies one justice property and all of fairness |
| BmcSoundness.SatisfyingRunReported | aiger-1.9.3/aigbmc.c:159-316 | soundness: a satisfying assignment under the last assumption is a run to be reported |
| BmcCompleteness.CanonMatches | aiger-1.9.3/aigbmc.c:173-208 | the assignment that gives every variable the value it was allocated for reproduces the run frame by frame |
| BmcCompleteness.SeenRecurrence | aiger-1.9.3/aigbmc.c:260-271 | being seen inside the loop satisfies the recurrence of the tracking clauses |
| BmcCompleteness.CanonLoop | aiger-1.9.3/aigbmc.c:246-258 | that assignment satisfies the loop clauses |
| BmcCompleteness.CanonJustice | aiger-1.9.3/aigbmc.c:260-275 | ... and those of all justice properties |
| BmcCompleteness.CanonFair | aiger-1.9.3/aigbmc.c:284-306 | ... and those of fairness |
| BmcCompleteness.CanonGoal | aiger-1.9.3/aigbmc.c:308-312 | ... and, for a run to be reported, the goal clause |
| BmcCompleteness.ReportedRunSatisfies | aiger-1.9.3/aigbmc.c:159-316 | completeness: every run to be reported satisfies all clauses and the last assumption |
| BmcCompleteness.EncodingExact | aiger-1.9.3/aigbmc.c:159-316 | for every bound k, frames 0..k with earlier assumptions negated are satisfiable under the assumption of k iff some run of k+1 frames is to be reported |
| BmcMain.Start | aiger-1.9.3/aigbmc.c:397-402 | the formula starts with the constant variable alone, the join variables allocated |
| BmcMain.UnsatMeansNoRun | aiger-1.9.3/aigbmc.c:403-408 | an unsatisfiable answer excludes every run of that length |
| BmcMain.TryBound | aiger-1.9.3/aigbmc.c:403-408 | one iteration: a model of all clauses, or no run of this length, after which the formula is exactly that of the next iteration |
| BmcMain.Print | aiger-1.9.3/aigbmc.c:409-432 | the witness printed is that of the solver's answer: true bad literals, satisfied justice properties, first latch values, inputs of all frames; and it is genuine |
| BmcMain.PrintsGenuine | aiger-1.9.3/aigbmc.c:409-432 | such a witness belongs to a run to be reported which it replays, and its property lines are honest |
| BmcMain.BoundedModelCheck | aiger-1.9.3/aigbmc.c:387-437 | returns the least bound with a run to be reported together with a genuine witness, which is the one printed for a satisfying answer; otherwise none exists up to the limit; a model that is not grounded is decided at bound 0 by the existence of a legal initial frame |
| BmcMain.ReplayUnique | aiger-1.9.3/aigbmc.c:423-430 | the printed initial state and inputs determine the run |
| BmcMain.ReplayReported | aiger-1.9.3/aigbmc.c:414-430 | every run that replays a printed witness is itself to be reported |
| BmcMain.ReportedJusticeHonest | aiger-1.9.3/aigbmc.c:417-419 | a listed justice property closes a loop with its own literals, and a fair one when it is the reason of the report |
| BmcMain.UnfairJusticeMayBeReported | aiger-1.9.3/aigbmc.c:417-419 | with several justice properties the solver may list any whose own literals recur, without fairness, next to a genuine reason |
| BmcMain.UnfairReportExists | aiger-1.9.3/aigbmc.c:417-419 | concrete model and run: reported, property 0 may be listed, and it is not fair |
| BmcListing.ListedExactly | aiger-1.9.3/aigbmc.c:260-281 | on a run to be reported, some answer of the solver lists property p iff p has a loop of its own (several properties) or is justified (a single one) |
| BmcListing.OneLoop | aiger-1.9.3/aigbmc.c:246-270 | literals that recur on two loops recur together on the longer one |
| BmcListing.OnlyFairListed | aiger-1.9.3/aigbmc.c:260-306 | grounded, and no bad literal or one justice property or no fairness: whatever may be listed is fair |
| LassoCheck.LastTrueExact | aiger-1.9.3/aigsim.c:539-551 | a time stamp exceeds p iff the literal was true at or after p |
| LassoCheck.FirstLoopSuffices | aiger-1.9.3/aigsim.c:711-743 | checking a justice property at the first fair loop point only decides whether any loop point serves |
| LassoCheck.TraceIsRun | aiger-1.9.3/aigsim.c:471-633 | a simulated trace is a run from reset on which all constraints hold |
| LassoCheck.TraceStarts | aiger-1.9.3/aigsim.c:437-466 | in frame 0 a latch is 1 iff its reset literal is 1, so every uninitialised one is 0; in a trace from a witness it has the given bit |
| LassoCheck.TraceReads | aiger-1.9.3/aigsim.c:492-535 | the inputs of each frame are the line of the stimulus, and all constraints hold |
| LassoCheck.ViolationMeans | aiger-1.9.3/aigsim.c:527-535 | a violation: under the next line of the stimulus, the frame that follows the trace makes some constraint false |
| LassoCheck.Simulator.constructor | aiger-1.9.3/aigsim.c:428-466 | latches start with their reset values, 0 if uninitialised, or with the state line of the witness |
| LassoCheck.Simulator.SetInputs | aiger-1.9.3/aigsim.c:492-513 | inputs are overwritten, nothing else |
| LassoCheck.Simulator.SimulateAnds | aiger-1.9.3/aigsim.c:515-525 | after the pass all gates hold, inputs and latches are untouched |
| LassoCheck.Simulator.CheckConstraints | aiger-1.9.3/aigsim.c:527-535 | reports exactly whether some constraint fails |
| LassoCheck.Simulator.Record | aiger-1.9.3/aigsim.c:537-573 | time stamps, stored states and bad flags describe the longer trace |
| LassoCheck.Simulator.Advance | aiger-1.9.3/aigsim.c:619-633 | all latches take their next values at once |
| LassoCheck.Simulator.Frame | aiger-1.9.3/aigsim.c:471-687 | one time frame: the trace grows by its only continuation, or a constraint is violated there |
| LassoCheck.Simulator.Simulate | aiger-1.9.3/aigsim.c:471-687 | the whole stimulus is simulated unless a frame violates a constraint |
| LassoCheck.Simulator.IsLoopPoint | aiger-1.9.3/aigsim.c:714-723 | a point is accepted iff its latches equal the state after the trace and all fairness was seen since |
| LassoCheck.Simulator.FindLoop | aiger-1.9.3/aigsim.c:705-729 | finds the first fair loop point if there is one and no constraint was violated |
| LassoCheck.Simulator.FoundJustice | aiger-1.9.3/aigsim.c:733-743 | at the first loop point, the property is found iff the trace witnesses it |
| LassoCheck.Simulator.Passes | aiger-1.9.3/aigsim.c:691-743 | the verdict is: every expected property found, and a loop if a justice property is expected |
| LassoCheck.Check | aiger-1.9.3/aigsim.c:420-766 | what is said about a trace is exact: the start values, a run, bad states seen, loop point, justice properties, violations and the verdict |
| WitnessCheck.SameLassos | aiger-1.9.3/aigsim.c:705-743 | the simulator accepts exactly the fair lassos the model checker searches for |
| WitnessCheck.TraceAgrees | aiger-1.9.3/aigsim.c:430-633 | simulating a printed witness goes through the frames of the run it was printed for |
| WitnessCheck.NoViolation | aiger-1.9.3/aigsim.c:527-535 | ... without violating a constraint |
| WitnessCheck.Confirmed | aiger-1.9.3/aigsim.c:691-766 | the witness passes iff every listed justice property has a fair lasso in the run; listed bad states are always found |
| WitnessCheck.UsuallyFair | aiger-1.9.3/aigbmc.c:414-419 | which is so for grounded models unless a bad state is listed together with one of several justice properties |
| WitnessCheck.FairByModel | aiger-1.9.3/aigbmc.c:414-419 | grounded models without bad literals, with at most one justice property or without fairness: all listed properties are fair |
| WitnessCheck.FindAndCheck | aiger-1.9.3/aigbmc.c:387-437 | model checking followed by simulation: every witness found is confirmed in this sense, and passes if the model has no bad literal, at most one justice property or no fairness, and is grounded |
| WitnessFails.UnfairWitnessFails | aiger-1.9.3/aigbmc.c:260-281 | an encoded frame, an answer of the solver that meets all clauses, and the genuine witness printed from it, which the simulator does not let pass |
| Rewrite.OneLevelSound | aiger-1.9.3/smvtoaig.c:2139-2157 | the one-level rules return the conjunction under every valuation |
| Rewrite.TwoLevelSound | aiger-1.9.3/smvtoaig.c:2161-2308 | so do the two-level rules |
| Rewrite.RestartSound | aiger-1.9.3/smvtoaig.c:2325-2450 | each restart keeps the conjunction and replaces one operand |
| Rewrite.RestartShrinks | aiger-1.9.3/smvtoaig.c:2325-2450 | and does so by one of its own children, so the loop terminates |
| Rewrite.RulesCommute | aiger-1.9.3/smvtoaig.c:2139-2450 | if no rule applies to (a, b), none applies to (b, a) |
| Rewrite.NormalizeSound | aiger-1.9.3/smvtoaig.c:2313-2475 | at every optimisation level the outcome is the conjunction: an existing reference, or an ordered pair to which no rule applies |
| Rewrite.NoTrivialOperands | aiger-1.9.3/smvtoaig.c:2139-2157 | an ordered pair to which no rule applies has no constant, equal or complementary operands |
| Rewrite.NoChildOperand | aiger-1.9.3/smvtoaig.c:2161-2450 | in terms of children, level by level: which operands may not stand next to a conjunction or a negated one |
| Rewrite.NoRelatedChildren | aiger-1.9.3/smvtoaig.c:2236-2450 | in terms of children, level by level: which shared or complementary children two (negated) conjunctions may not have |
| HashChains.Lookup | aiger-1.9.3/smvtoaig.c:2019-2042 | walking one chain finds the key iff it is stored |
| HashChains.Rehash | aiger-1.9.3/smvtoaig.c:1983-2005 | doubling the table keeps exactly the same entries, each in the slot of its key |
| HashCons.Aigs.Find | aiger-1.9.3/smvtoaig.c:2019-2042 | finds a node iff one with this key is stored |
| HashCons.Aigs.Enlarge | aiger-1.9.3/smvtoaig.c:1983-2005 | the table is doubled and stays correct |
| HashCons.Aigs.Intern | aiger-1.9.3/smvtoaig.c:2457-2474 | returns the node with this key, added only if there was none |
| HashCons.Aigs.NewVar | aiger-1.9.3/smvtoaig.c:2312-2323 | variables are interned by symbol and slice |
| HashCons.Aigs.NewAnd | aiger-1.9.3/smvtoaig.c:2313-2475 | the constructor with its restart loop computes the normal form and interns it |
| HashCons.BuiltSound | aiger-1.9.3/smvtoaig.c:2313-2475 | the result has the value of the conjunction, and the node list stays well-formed, duplicate-free and irreducible |
| HashCons.RebuildIsIdentity | aiger-1.9.3/smvtoaig.c:3288-3310 | rebuilding a stored AND from its children, in either order, returns that very node |
| HashCons.OneAndPerPair | aiger-1.9.3/smvtoaig.c:2452-2474 | at most one AND is stored per unordered pair of operands |
| HashCons.StoredPatterns | aiger-1.9.3/smvtoaig.c:2139-2475 | every stored AND avoids these patterns: trivial operands, an operand that is a child of the other, complementary children, and from level 4 shared children |
| HashCons.Aigs.CheckRebuild | aiger-1.9.3/smvtoaig.c:3288-3310 | the debugging check succeeds on every stored node and changes nothing |
| SmvCheck.Checker.CheckSymbol | aiger-1.9.3/smvtoaig.c:1798-1813 | reports an error only on a cycle; otherwise the symbol is finished after all it depends on |
| SmvCheck.Checker.CheckExpr | aiger-1.9.3/smvtoaig.c:1781-1794 | all symbols an expression mentions are finished |
| SmvCheck.DependsMeans | aiger-1.9.3/smvtoaig.c:1781-1813 | a symbol depends on another iff a trail of operands leads to it from the definition or from the initial value |
| SmvCheck.Checker.CheckNonCyclicDefinitions | aiger-1.9.3/smvtoaig.c:1817-1826 | succeeds iff no symbol depends on itself through definitions and initial values; marks are cleared |
| SmvCheck.FinishedIsRanked | aiger-1.9.3/smvtoaig.c:1798-1826 | a finishing order ranks all definitions and excludes cycles |
| SmvNesting.DeepestSlice | aiger-1.9.3/smvtoaig.c:2563-2628 | compiling an expression meets exactly as many time slices as its nesting level says |
| SmvNesting.Counter.CountExpr | aiger-1.9.3/smvtoaig.c:1834-1855 | the memoised count is the nesting level, through definitions |
| SmvNesting.Counter.CountSymbol | aiger-1.9.3/smvtoaig.c:1860-1871 | the same for symbols, each counted once |
| SmvNesting.MovedTransition | aiger-1.9.3/smvtoaig.c:1925-1932 | turning an assignment into a conjunct of TRANS keeps the transition relation |
| SmvNesting.CheckNextNotNested | aiger-1.9.3/smvtoaig.c:1878-1940 | succeeds iff no checked expression nests too deeply; moves exactly the assignments that mention the next state, keeping the transition relation |
| SmvNesting.UnnestedMeans | aiger-1.9.3/smvtoaig.c:1889-1935 | the bounds in numbers: level 1 for properties and initial values, at most 2 for transition constraints and assignments; moved are exactly the assignments of level 2 |
| SmvNesting.StaysInTwoSlices | aiger-1.9.3/smvtoaig.c:1878-1940 | after the check, compilation stays in slices 0 and 1 iff no definition nests twice, which is not checked |
| SmvNesting.NestedDefinitionsPass | aiger-1.9.3/smvtoaig.c:1878-1940 | concrete program that passes both checks although compiling its definitions reaches slice 2 |
| SmvExpr.Builder.Or | aiger-1.9.3/smvtoaig.c:2502-2506 | the reference computes the disjunction |
| SmvExpr.Builder.Implies | aiger-1.9.3/smvtoaig.c:2518-2522 | ... the implication |
| SmvExpr.Builder.Xor | aiger-1.9.3/smvtoaig.c:2510-2514 | ... the exclusive disjunction |
| SmvExpr.Builder.Iff | aiger-1.9.3/smvtoaig.c:2526-2530 | ... the equivalence |
| SmvExpr.Builder.Ite | aiger-1.9.3/smvtoaig.c:2534-2538 | ... the choice |
| SmvExpr.Builder.SymbolAig | aiger-1.9.3/smvtoaig.c:2483-2489 | a symbol denotes its definition, or the variable in this slice |
| SmvExpr.Builder.BuildCases | aiger-1.9.3/smvtoaig.c:2540-2559 | a case list denotes the first case whose condition holds, TRUE if none does |
| SmvExpr.Builder.BuildUncached | aiger-1.9.3/smvtoaig.c:2563-2614 | each kind of expression is compiled to what it denotes |
| SmvExpr.Builder.BuildExpr | aiger-1.9.3/smvtoaig.c:2619-2628 | for acyclic definitions and nesting plus slice at most 2, the result denotes the expression under every valuation of the two slices; terminates and never leaves slices 0 and 1 |
| SmvExpr.Builder.Combine | aiger-1.9.3/smvtoaig.c:2594-2614 | for each binary operator, the reference built has the value this operator gives to those of the operands |
| SmvExpr.SolutionUnique | aiger-1.9.3/smvtoaig.c:2563-2614 | values that obey the operators one by one are those an expression denotes: acyclic definitions leave one solution |
| SmvExpr.SolutionExists | aiger-1.9.3/smvtoaig.c:2563-2614 | and there always is one |
| SmvExpr.CompiledSolves | aiger-1.9.3/smvtoaig.c:2619-2628 | a compiled reference has the value that its expression has in every such solution |
| SmvExpr.ConstantMeans | aiger-1.9.3/smvtoaig.c:2571-2575 | a compiled constant evaluates to it |
| SmvExpr.VariableMeans | aiger-1.9.3/smvtoaig.c:2483-2489 | a compiled symbol without definition evaluates to its variable in this slice |
| SmvExpr.UnaryMeans | aiger-1.9.3/smvtoaig.c:2577-2590 | in terms of the reference of the operand: a definition is replaced, `next` moves one slice on, negation negates |
| SmvExpr.BinaryMeans | aiger-1.9.3/smvtoaig.c:2585-2614 | in terms of the references of the operands: conjunction, disjunction, difference, equality and implication |
| SmvExpr.FirstCaseDecides | aiger-1.9.3/smvtoaig.c:2540-2559 | in a solution, a case list of any length has the value of the first branch whose condition holds, TRUE if none does |
| SmvExpr.CaseMeans | aiger-1.9.3/smvtoaig.c:2540-2559 | the same in terms of the references of conditions and branches |
| PgCnf.CountRefs | aiger-1.9.3/aigtocnf.c:150-169 | a literal has a reference iff a trail of operands with matching polarity leads to it from the output |
| PgCnf.ClosedTrail | aiger-1.9.3/aigtocnf.c:154-169 | the backward pass counts every literal on a trail from the output |
| PgCnf.CostIsNeeded | aiger-1.9.3/aigtocnf.c:193-195 | the predicted clauses are those of the needed polarities: two for a gate, one for its negation |
| PgCnf.VariableOccurs | aiger-1.9.3/aigtocnf.c:201-227 | the number of every variable in use occurs in some clause |
| PgCnf.MapExact | aiger-1.9.3/aigtocnf.c:177-192 | a literal is mapped iff it or its negation is needed |
| PgCnf.BuildMap | aiger-1.9.3/aigtocnf.c:177-196 | used variables are numbered 1, 2, ..., one number each; the predicted clause count is that of the polarities |
| PgCnf.Emit | aiger-1.9.3/aigtocnf.c:198-227 | exactly as many clauses as predicted, only mapped literals, and together they say what the polarities demand |
| PgCnf.ForcedTrue | aiger-1.9.3/aigtocnf.c:203-225 | in a model, every literal in use whose image holds is true in the circuit |
| PgCnf.ModelSatisfies | aiger-1.9.3/aigtocnf.c:201-227 | every circuit valuation with a true output is a model |
| PgCnf.Equisatisfiable | aiger-1.9.3/aigtocnf.c:142-227 | satisfiable iff some input makes the output true; the inputs of any model do |
| PgCnf.FalseOutput | aiger-1.9.3/aigtocnf.c:142-144 | a constant false output gives the empty clause |
| PgCnf.TrueOutput | aiger-1.9.3/aigtocnf.c:145-147 | a constant true output gives the empty formula |
| PgCnf.ToCnf | aiger-1.9.3/aigtocnf.c:118-227 | which models are refused, and for the others: equisatisfiable, model-preserving, no unmapped literal; the header variables are exactly those that occur, and the header clause count is that of the needed polarities and of what is emitted |
| Graph.RankedIsAcyclic | aiger-1.9.3/aiger.c:810-885 | a ranking of the gates excludes cycles |
| CycleCheck.MetAgain | aiger-1.9.3/aiger.c:838-843 | meeting a marked gate that is on the stack exhibits a cycle |
| CycleCheck.Expand | aiger-1.9.3/aiger.c:851-866 | the prefix step keeps the search invariant |
| CycleCheck.Finish | aiger-1.9.3/aiger.c:868-880 | the postfix step keeps it, and operands are finished before their gate |
| CycleCheck.Drop | aiger-1.9.3/aiger.c:845-849 | so does dropping what is no gate or finished |
| CycleCheck.Search | aiger-1.9.3/aiger.c:830-881 | the traversal from one gate ends with that gate finished, or a cycle |
| CycleCheck.CheckForCycles | aiger-1.9.3/aiger.c:810-885 | from clear marks: terminates, and reports an error iff the AND graph has a cycle |
| ReencodeTool.MaxInputOrLatch | aiger-1.9.3/aiger.c:1282-1305 | the greatest input or latch literal |
| ReencodeTool.IsReencoded | aiger-1.9.3/aiger.c:1307-1351 | true exactly for consecutively numbered, ordered models |
| ReencodeTool.OrderedIsReencoded | aiger-1.9.3/aiger.c:1307-1351 | without cycles this test is the full invariant, left sides strictly above operands included |
| ReencodeTool.OrderedExactly | aiger-1.9.3/aiger.c:1307-1351 | a model with defined literals is re-encoded iff it passes the test and no AND is its own first operand |
| ReencodeTool.SelfOperandPasses | aiger-1.9.3/aiger.c:1344-1350 | concrete model that passes the test and is not re-encoded |
| Reencode.Reencoder.NumberLeaves | aiger-1.9.3/aiger.c:1498-1522 | inputs, then latches, get the first codes |
| Reencode.Reencoder.NewCode | aiger-1.9.3/aiger.c:1353-1362 | the next variable gets the next pair of codes |
| Reencode.Reencoder.PushOperands | aiger-1.9.3/aiger.c:1416-1440 | pushes operand gates, the greater variable first |
| Reencode.Reencoder.Expand | aiger-1.9.3/aiger.c:1400-1441 | expanding a gate keeps the stack invariant |
| Reencode.Reencoder.Number | aiger-1.9.3/aiger.c:1442-1451 | a gate is numbered after everything above its marker |
| Reencode.Reencoder.Search | aiger-1.9.3/aiger.c:1387-1452 | terminates with the gate numbered, and numbers only what it needs, operands first |
| Reencode.Reencoder.ReencodeLit | aiger-1.9.3/aiger.c:1364-1468 | returns the code of the literal after numbering its cone |
| Reencode.Reencoder.ReencodeLatches | aiger-1.9.3/aiger.c:1527-1536 | next and reset literals are replaced by their codes |
| Reencode.Reencoder.ReencodeList | aiger-1.9.3/aiger.c:1538-1574 | property literals are replaced by their codes |
| Reencode.Reencoder.ReencodeLists | aiger-1.9.3/aiger.c:1538-1574 | ... for all property lists, only gates of cones being numbered |
| ReencodeTool.ExactCones | aiger-1.9.3/aiger.c:1524-1605 | the gates that are numbered are exactly those in some cone |
| ReencodeTool.Compact | aiger-1.9.3/aiger.c:1578-1605 | keeps exactly the gates with a code, renumbered, without duplicates |
| ReencodeTool.SortByLhs | aiger-1.9.3/aiger.c:1607 | the same gates, sorted by left side |
| ReencodeTool.GatesInPlace | aiger-1.9.3/aiger.c:1578-1607 | after sorting, left sides are consecutive |
| ReencodeTool.Assemble | aiger-1.9.3/aiger.c:1609-1655 | inputs and latches take consecutive literals |
| ReencodeTool.ReencodeModel | aiger-1.9.3/aiger.c:1478-1670 | an ordered model is returned as it is; otherwise the result is the renumbered model with exactly the gates of some cone; always re-encoded |
| ReencodeSpec.ResultIsReencoded | aiger-1.9.3/aiger.c:1578-1611 | consecutive left sides, every gate above its ordered operands |
| ReencodeSpec.RenumberConsistent | aiger-1.9.3/aiger.c:1478-1670 | renumbering a valuation of the old model gives one of the new model |
| ReencodeSpec.ReencodingKeepsValues | aiger-1.9.3/aiger.c:1478-1670 | for all inputs and states, every next, reset, output, bad, constraint, justice and fairness literal keeps its value |
| ReencodeRuns.AcyclicConsistent | aiger-1.9.3/aiger.c:1478-1670 | in an acyclic model every choice of inputs and latches has a valuation |
| ReencodeRuns.RunsOn | aiger-1.9.3/aiger.c:1478-1670 | every run of the old model is matched by a run of the new one |
| ReencodeRuns.RunsBack | aiger-1.9.3/aiger.c:1478-1670 | and the other way round |
| Binary.DeltaIsCode | aiger-1.9.3/aiger.c:950-969 | the bytes written for a number are a code of it |
| Binary.GateFormat | aiger-1.9.3/aiger.c:1705-1711 | a gate is written as two codes: left side minus greater operand, greater minus smaller operand |
| Binary.RoundTrip | aiger-1.9.3/aiger.c:950-969 | every 32-bit number takes at most five bytes and is read back exactly, wherever it stands |
| Binary.DecodeCode | aiger-1.9.3/aiger.c:2288-2331 | a code of at most five bytes is read as its number modulo 2^32 |
| Binary.AcceptsExactly | aiger-1.9.3/aiger.c:2288-2331 | the reader accepts exactly the codes of at most five bytes |
| Binary.FailureMeans | aiger-1.9.3/aiger.c:2294-2325 | which error is reported: the end of the file within fewer than six continued bytes, an invalid code iff five are continued and the sixth is 8 or more |
| Binary.ReadIsCanonical | aiger-1.9.3/aiger.c:2288-2331 | what was read is what the writer writes iff there is no superfluous zero byte and no bit beyond 32 |
| Binary.UndefinedShift | aiger-1.9.3/aiger.c:2322-2325 | the reader shifts by 35 exactly on five continued bytes followed by one below 8 |
| Binary.ShiftsFitInt | aiger-1.9.3/aiger.c:2311-2325 | on the code of a 32-bit number all shifts stay within a signed integer iff the number is below 2 to the 31, that is, iff there is no fifth byte of 8 or more |
| Binary.SectionShiftsFit | aiger-1.9.3/aiger.c:1695-1714 | which holds for all deltas of a model whose literals are below 2 to the 31 |
| Binary.TruncatedCodeAccepted | aiger-1.9.3/aiger.c:2322-2325 | concrete input: a fifth byte above 15 is accepted and truncated |
| Binary.PutAllExact | aiger-1.9.3/aiger.c:912-927 | writing succeeds iff the bytes fit and, for strings, none is 0xff; then exactly they were appended |
| Binary.StringRejects255 | aiger-1.9.3/aiger.c:918-927 | concrete input: writing delta 255 to a roomy string fails |
| Binary.Sink.WriteDelta | aiger-1.9.3/aiger.c:950-969 | puts the code of the number, stopping at a failure |
| Binary.Sink.WriteAnds | aiger-1.9.3/aiger.c:1695-1714 | puts the codes of all gates in order |
| Binary.Reader.ReadDelta | aiger-1.9.3/aiger.c:2288-2331 | reads one number, moving just behind it, with the error cases of the source |
| Binary.Reader.ReadAnd | aiger-1.9.3/aiger.c:2346-2368 | reads one gate: any gate whose code stands here is read back with exactly its bytes, and what is read without failure lies above its ordered operands |
| Binary.GateMeans | aiger-1.9.3/aiger.c:2346-2368 | the operands are the left side minus one number and that minus the next; refused for the first number that cannot be read or is too large |
| Binary.Reader.ReadAnds | aiger-1.9.3/aiger.c:2333-2372 | reads all gates or stops at the first error |
| Binary.SectionRoundTrip | aiger-1.9.3/aiger.c:2333-2372 | reading a section that stands anywhere in a file gives its gates and stops right behind it |
| Binary.WriteThenRead | aiger-1.9.3/aiger.c:1695-1714 | writing a re-encoded model and reading it back gives the identical gates and consumes exactly the bytes written |
| Binary.ReadIsConsecutive | aiger-1.9.3/aiger.c:2333-2372 | whatever is read without error is consecutive and ordered |
| SimpCounts.CountedInc | aiger-1.9.3/simpaig.c:261-267 | one more reference keeps every count equal to parent edges plus outside references |
| SimpCounts.CountedDec | aiger-1.9.3/simpaig.c:345-358 | one reference less keeps it, unless the last one of an AND goes |
| SimpCounts.CountedFree | aiger-1.9.3/simpaig.c:357-367 | then its two edges become references to be dropped |
| SimpCounts.CountedNew | aiger-1.9.3/simpaig.c:427-436 | a new node and its two edges keep it |
| SimpCounts.StaysReferenced | aiger-1.9.3/simpaig.c:345-379 | what was referenced stays so while outside references only grow |
| SimpCounts.NothingReferenced | aiger-1.9.3/simpaig.c:231-252 | without outside references no node is referenced |
| SimpAig.Manager.constructor | aiger-1.9.3/simpaig.c:219-229 | a fresh manager satisfies the invariant and has no nodes |
| SimpAig.Manager.Inc | aiger-1.9.3/simpaig.c:261-267 | one more outside reference to this node, nothing else |
| SimpAig.Manager.Dec | aiger-1.9.3/simpaig.c:345-379 | one reference less; unreferenced nodes are deleted with all that only they referenced, the table holding exactly the live nodes |
| SimpAig.Manager.Unlink | aiger-1.9.3/simpaig.c:369-378 | the node leaves its chain, and only it |
| SimpAig.Manager.Enlarge | aiger-1.9.3/simpaig.c:305-329 | rehashing keeps the stored nodes |
| SimpAig.Manager.Variable | aiger-1.9.3/simpaig.c:387-406 | the one node of this variable and slice, referenced once more |
| SimpAig.Manager.AndOf | aiger-1.9.3/simpaig.c:408-440 | a constant, an operand, or the one node of this unordered pair |
| SimpAig.AndSound | aiger-1.9.3/simpaig.c:408-440 | its value is the conjunction and it has no other variables |
| SimpAig.Manager.Or | aiger-1.9.3/simpaig.c:442-446 | by De Morgan through the AND |
| SimpAig.Manager.Assign | aiger-1.9.3/simpaig.c:482-495 | the variable gets a right side; both are referenced |
| SimpAig.Memo.Push | aiger-1.9.3/simpaig.c:515-523 | an entry of the cache or the assignment, with one reference to each end |
| SimpAig.Manager.Reset | aiger-1.9.3/simpaig.c:497-543 | all entries are dropped and their references returned |
| SimpAig.Manager.ShiftRec | aiger-1.9.3/simpaig.c:611-647 | the memoised recursion yields the image under the shift and accounts for every reference |
| SimpAig.Manager.Shift | aiger-1.9.3/simpaig.c:649-663 | the function with all variables moved by delta slices; the cache is empty again |
| SimpAig.Manager.SubstRec | aiger-1.9.3/simpaig.c:545-589 | the memoised recursion yields the image under the substitution, also when right sides contain assigned variables |
| SimpAig.Manager.Substitute | aiger-1.9.3/simpaig.c:591-609 | recursive substitution; afterwards cache and assignment are empty |
| SimpAig.Manager.AssignIndicesRec | aiger-1.9.3/simpaig.c:677-691 | post-order indices: children have smaller ones |
| SimpAig.Manager.ResetIndices | aiger-1.9.3/simpaig.c:700-717 | all indices and their references are gone |
| SimpJobs.ImageAnd | aiger-1.9.3/simpaig.c:573-580 | the AND of the images of the children is an image |
| SimpJobs.ImageAssigned | aiger-1.9.3/simpaig.c:563-569 | an assigned variable has the image of its right side |
| SimpSpec.SupportDecides | aiger-1.9.3/simpaig.c:408-440 | a node depends on the variables of its support only |
| Unroll.Unroller.Make | aiger-1.9.3/aigunroll.c:93-125 | the node of a variable: constant, variable at slice 0, or AND of its operands |
| Unroll.Unroller.BuildAll | aiger-1.9.3/aigunroll.c:141-145 | nodes for all variables |
| Unroll.Unroller.AssignInitial | aiger-1.9.3/aigunroll.c:147-155 | initialised latches of slice 0 are assigned their constants, the others nothing |
| Unroll.Unroller.AssignSlices | aiger-1.9.3/aigunroll.c:157-169 | latches of slices 1 to k are assigned their next functions of the slice before |
| Unroll.Unroller.Disjoin | aiger-1.9.3/aigunroll.c:172-181 | the disjunction of the output over slices 0 to k |
| Unroll.Unroller.Solve | aiger-1.9.3/aigunroll.c:303-307 | substitution turns it into the expanded function |
| Unroll.Unroller.Release | aiger-1.9.3/aigunroll.c:519-521 | after dropping all variables no node is left |
| UnrollSpec.BuiltValue | aiger-1.9.3/aigunroll.c:93-125 | the node of a variable has the value the frame gives it |
| UnrollSpec.LaterValue | aiger-1.9.3/aigunroll.c:162-164 | a literal shifted by t slices has its value in frame t |
| UnrollSpec.SimulationLinked | aiger-1.9.3/aigunroll.c:147-169 | simulation solves all assigned equations |
| UnrollSpec.SubstitutionExpands | aiger-1.9.3/aigunroll.c:303-307 | after substitution only inputs and uninitialised latches of slice 0 remain, and the value is that of simulation |
| UnrollTool.Copier.CopyAig | aiger-1.9.3/aigunroll.c:364-406 | copies a node once, after its children, so that every variable is defined once |
| UnrollTool.CopyOutput | aiger-1.9.3/aigunroll.c:408-420 | the output of the copy has the value of the graph |
| UnrollTool.NotYetDefined | aiger-1.9.3/aigunroll.c:364-406 | a node that was not copied has neither an input nor a gate in the copy |
| UnrollTool.CopyDefined | aiger-1.9.3/aigunroll.c:364-420 | the output and all operands of the copy are the constant, inputs or gates of it |
| UnrollTool.Expand | aiger-1.9.3/aigunroll.c:408-420 | a copy of the cone; the manager is as before |
| UnrollTool.CopyExpands | aiger-1.9.3/aigunroll.c:408-420 | the copy is an expansion of the model |
| UnrollTool.RunOfFrame | aiger-1.9.3/aigunroll.c:322-336 | every assignment of the expanded inputs comes from a run |
| UnrollTool.ExpansionExact | aiger-1.9.3/aigunroll.c:157-181 | the expanded model has a satisfying input iff some run makes the output true at some step up to k |
| UnrollTool.UnrollModel | aiger-1.9.3/aigunroll.c:502-525 | which models are refused; otherwise a combinational expansion over inputs of slices 0..k and uninitialised latches of slice 0, each variable defined once and nothing undefined used, and zero nodes left |
| AigerBuild.Builder.Import | aiger-1.9.3/aiger.c:338-351 | the highest variable index covers every literal mentioned |
| AigerBuild.EvaluateFresh | aiger-1.9.3/aigmiter.c:99-108 | added gates always have values |
| MiterSpec.NoCollision | aiger-1.9.3/aigmiter.c:71-87 | variables of the second model land on variables of the first only if shared, and never on one another |
| MiterSpec.JointGates | aiger-1.9.3/aigmiter.c:192-205 | the exported gates hold iff the original ones do in both parts |
| MiterSpec.JoinFrames | aiger-1.9.3/aigmiter.c:71-87 | two frames that agree on shared variables fit into one |
| Miter.And | aiger-1.9.3/aigmiter.c:99-108 | a literal with the value of the conjunction |
| Miter.Implies | aiger-1.9.3/aigmiter.c:110-112 | ... of the implication |
| Miter.Xnor | aiger-1.9.3/aigmiter.c:114-116 | ... of the equivalence |
| Miter.AllEqual | aiger-1.9.3/aigmiter.c:206-244 | a literal that holds iff all compared pairs are equal |
| MiterTool.Build | aiger-1.9.3/aigmiter.c:171-248 | the constructed model is the miter, in both modes |
| MiterTool.SplitFrame | aiger-1.9.3/aigmiter.c:182-246 | every frame of the miter consists of a frame of each model |
| MiterTool.JoinFrame | aiger-1.9.3/aigmiter.c:182-246 | and conversely |
| MiterTool.OutputTellsApart | aiger-1.9.3/aigmiter.c:206-246 | the output is 1 iff some compared pair differs, next states included in combinational mode |
| MiterTool.OutputMeans | aiger-1.9.3/aigmiter.c:206-246 | the output is 1 iff the values of some output differ or, in combinational mode, those of the next state of some latch |
| MiterTool.SharedAgree | aiger-1.9.3/aigmiter.c:206-220 | the two parts of a frame have the inputs in common, and in combinational mode the latches |
| MiterTool.CombinationalMiter | aiger-1.9.3/aigmiter.c:206-246 | the combinational miter can be 1 iff for some inputs and some state the models differ in an output or in a next state |
| MiterTool.MiterInterface | aiger-1.9.3/aigmiter.c:171-237 | inputs and latches of the miter: shared inputs, and the latches of both models, or in combinational mode those of the first as further inputs |
| MiterTool.MiterRun | aiger-1.9.3/aigmiter.c:221-246 | every run of the sequential miter is a pair of runs with the same inputs, its output 1 at t iff some output has different values at t |
| MiterTool.PairOfRuns | aiger-1.9.3/aigmiter.c:221-246 | every pair of runs under the same inputs, whatever the uninitialised latches, is such a run |
| Move.ChainValue | aiger-1.9.3/aigmove.c:145-158 | the chain is the conjunction of its start and the constraints |
| Move.FoldedValue | aiger-1.9.3/aigmove.c:139-164 | the gate of a bad literal is true iff it, the start of the chain and all constraints are |
| Move.Copy | aiger-1.9.3/aigmove.c:120-130 | inputs, latches and gates are copied unchanged |
| Move.FoldWithLatch | aiger-1.9.3/aigmove.c:140-164 | the result with the additional latch |
| Move.FoldWithoutLatch | aiger-1.9.3/aigmove.c:152-164 | the result without latches |
| Move.MoveModel | aiger-1.9.3/aigmove.c:109-168 | what is refused, and which of the four results is produced |
| MoveRuns.FrameOutputs | aiger-1.9.3/aigmove.c:152-164 | without latches: each new output is its bad literal and all constraints of the same frame |
| MoveRuns.PerFrameDiffersExactly | aiger-1.9.3/aigmove.c:152-164 | without latches, output and folding over the past differ at t iff the output is 1 at t after a violation before t |
| MoveRuns.PerFrameSufficesExactly | aiger-1.9.3/aigmove.c:139-164 | they differ on some run iff some frame violates a constraint and some frame meets all of them in a bad state |
| MoveRuns.ViolationForgotten | aiger-1.9.3/aigmove.c:152-164 | concrete run of two frames: the constraint fails at 0 and the output is 1 at 1 |
| MoveRuns.LatchRemembers | aiger-1.9.3/aigmove.c:140-151 | the valid literal holds at t iff all constraints held at all times up to t |
| MoveRuns.OutputsMean | aiger-1.9.3/aigmove.c:139-164 | with latches: each new output is 1 at t iff its bad literal is and every constraint held at times 0..t |
| MoveRuns.RunOfSource | aiger-1.9.3/aigmove.c:119-168 | every run of the result is a run of the source model with the same latches |
| MoveRuns.RunOfResult | aiger-1.9.3/aigmove.c:119-168 | and every run of the source model is one of the result |
| Coi.RoomLeft | lingeling-bcj/blimc.c:279-306 | the fixed stack has room whenever a variable is unmarked |
| Coi.DependsOnMeans | lingeling-bcj/blimc.c:289-307 | a gate depends on its two operands, a latch on its next state, and nothing else on anything |
| Coi.Marker.Visit | lingeling-bcj/blimc.c:294-306 | marks and stacks a variable once |
| Coi.Marker.Expand | lingeling-bcj/blimc.c:289-307 | all dependencies of a variable become marked |
| Coi.Marker.Traverse | lingeling-bcj/blimc.c:274-317 | terminates within the stack and marks exactly the variables that influence the bad literal |
| Coi.RunsAgree | lingeling-bcj/blimc.c:244-251 | for any closed set: runs that agree on its inputs and initial latches agree on it at every step |
| Coi.SliceCompletes | lingeling-bcj/blimc.c:244-251 | for any closed set: every run of the sliced logic is part of a run of the whole model |
| Coi.SliceIsEnough | lingeling-bcj/blimc.c:244-251 | for any closed set: a literal of it can be true at step k of a run iff it can in the slice |
| Coi.MarkedIsClosed | lingeling-bcj/blimc.c:274-317 | what the worklist marks is closed under dependencies and contains the bad variable |
| Coi.ConeDecides | lingeling-bcj/blimc.c:274-317 | two runs with the same marked inputs and marked initial latches agree on the bad literal at every step |
| Coi.ConeIsEnough | lingeling-bcj/blimc.c:244-317 | the bad literal can be true at step k of a run iff it can when only the marked variables are constrained |
| ClauseQueue.PassedAdvance | lingeling-bcj/plingeling.c:596-599 | moving a cursor changes the number of passed cursors of one slot by one |
| ClauseQueue.PassedRewound | lingeling-bcj/plingeling.c:568-575 | rewinding keeps the number of passed cursors of every remaining slot |
| ClauseQueue.CountsTake | lingeling-bcj/plingeling.c:599-605 | a count reaches the limit only for the first clause in the queue |
| ClauseQueue.CollectedOk | lingeling-bcj/plingeling.c:560-578 | collection keeps prefix, allocation and counts |
| ClauseQueue.Queue.constructor | lingeling-bcj/plingeling.c:1172-1178 | the empty queue, leaving behind a quarter of the consumers |
| ClauseQueue.Queue.Produce | lingeling-bcj/plingeling.c:495-531 | appends one clause; nothing else changes, and every clause stays accounted for |
| ClauseQueue.Queue.DeleteCls | lingeling-bcj/plingeling.c:533-539 | only an allocated clause is freed |
| ClauseQueue.Queue.DeleteDead | lingeling-bcj/plingeling.c:591 | the clause the worker took out is freed once |
| ClauseQueue.Queue.PassNull | lingeling-bcj/plingeling.c:596-598 | the cursor passes a cleared slot |
| ClauseQueue.Queue.PassClause | lingeling-bcj/plingeling.c:596-605 | the count goes up; the clause is taken out exactly when as many readers as count have passed it, and is then the first one |
| ClauseQueue.Queue.GarbageCollect | lingeling-bcj/plingeling.c:551-580 | every clause that is freed had been passed by at most gclim cursors, and the one that is then the first by more; the gap is closed and cursors rewound; clauses taken out by workers survive |
| ClauseQueue.Queue.Step | lingeling-bcj/plingeling.c:596-609 | one slot is passed |
| ClauseQueue.Queue.CollectIfWorthwhile | lingeling-bcj/plingeling.c:606-608 | collects exactly when more than 10000 slots are in use and more than one in nconsumers + 1 of them is cleared; the others keep their positions or go to the new front |
| ClauseQueue.Queue.NextForeign | lingeling-bcj/plingeling.c:589-611 | goes to the next foreign clause, or to the end of the queue; what lies between was skipped rightly |
| ClauseQueue.AccountedOn | lingeling-bcj/plingeling.c:582-627 | every clause before a worker's cursor is its own, was delivered to it, or left the queue with a known fate: kept by every step |
| ClauseQueue.Queue.Consume | lingeling-bcj/plingeling.c:582-627 | each worker gets the next foreign clause, in order of production and at most once; what it skips is its own, had been read by as many as count, or was collected when at most gclim cursors had passed it; what it got earlier, or was denied, stays accounted for over the whole run |
| ClauseQueue.Queue.DeleteAll | lingeling-bcj/plingeling.c:541-549 | at the end nothing stays allocated |
| CubeTree.LeafClauseExcludes | lingeling-bcj/treengeling.c:921-932 | a leaf clause excludes exactly its cube |
| CubeTree.PartitionSplit | lingeling-bcj/treengeling.c:1531-1539 | splitting keeps: every assignment satisfies exactly one open or closed cube |
| CubeTree.PartitionClose | lingeling-bcj/treengeling.c:1788-1792 | so does closing a node |
| CubeTree.PartitionSwap | lingeling-bcj/treengeling.c:1487-1495 | and exchanging nodes |
| CubeTree.AllClosedUnsat | lingeling-bcj/treengeling.c:1795-1803 | without open nodes, refuted closed cubes mean unsatisfiability |
| CubeTree.ImpliedHarmless | lingeling-bcj/treengeling.c:972-999 | a right answer for the formula and implied clauses is one for the formula |
| CubeTree.Tree.NewNode | lingeling-bcj/treengeling.c:815-853 | a clone with one more decision: exactly the assignments of the parent's cube that agree with it; positions and identifiers stay right |
| CubeTree.Tree.SplitNode | lingeling-bcj/treengeling.c:1531-1554 | node and child get the lookahead literal and its negation |
| CubeTree.Tree.EnqNewLeafFromNode | lingeling-bcj/treengeling.c:921-970 | the queued clause excludes exactly the assignments of the node's cube |
| CubeTree.Tree.DelNode | lingeling-bcj/treengeling.c:871-893 | the last node takes the place, positions stay right |
| CubeTree.Tree.CloseNode | lingeling-bcj/treengeling.c:1788-1792 | a refuted node becomes a leaf clause |
| CubeTree.Tree.Flush | lingeling-bcj/treengeling.c:1779-1805 | exactly the refuted nodes leave; 20 iff all were, and then the formula is unsatisfiable |
| CubeTree.Tree.RunJobs | lingeling-bcj/treengeling.c:1361-1373 | every node without result gets what its job reports, and no other node changes |
| CubeTree.JobMeans | lingeling-bcj/treengeling.c:1331-1424 | search and simplification yield a result, lookahead a literal, all of them may refute; the cube stays |
| CubeTree.Tree.LookAhead | lingeling-bcj/treengeling.c:1471-1523 | lookahead literals of the round before are forgotten, and every node without result may get a new one |
| CubeTree.Tree.SwapNodes | lingeling-bcj/treengeling.c:1485-1496 | exchanging nodes keeps the invariant |
| CubeTree.Tree.Split | lingeling-bcj/treengeling.c:1556-1584 | every undecided node that has a lookahead literal is split, no other changes, and the new nodes are their siblings |
| CubeTree.SplitMeans | lingeling-bcj/treengeling.c:1556-1584 | such a node gets the literal, and some new node its cube with the negated literal |
| CubeTree.Tree.Finish | lingeling-bcj/treengeling.c:1895-1940 | 20 iff all nodes were refuted; otherwise 10 iff some remaining node is satisfiable; otherwise the answer of the parallel solver; and this is right |
| CubeTree.Tree.Round | lingeling-bcj/treengeling.c:2324-2334 | if it does not refute the last node: simplification, flush, lookahead, split, simplification of the new nodes, flush and search, in this order, each with its whole effect |
| CubeTree.Tree.Solve | lingeling-bcj/treengeling.c:2316-2337 | the round loop answers correctly, whatever leaf clauses the parallel solver takes in between; 0 only if in every round some node remained, none was satisfiable and the parallel solver had no answer, each round starting from the nodes of the one before, simplified, split and searched |
| CubeTree.Tree.DeqLeaf | lingeling-bcj/treengeling.c:956-968 | leaf clauses are taken in order, and are implied by the formula |

## Left out

- SimpAig.Manager.Inc: counts are unbounded; the saturation of reference counts at `UINT_MAX` is not modelled.
- SimpAig.Manager.Unlink: the second search with exchanged children is not modelled, because the first one always finds the node.
- SimpAig.Manager.NewNode: a deleted node's address is never used again; the hash function therefore does not see reused addresses.
- SimpAig.Manager.Substitute: requires levels that fall from an assigned variable to its right side, which the source needs to terminate; `UnrollSpec` provides them.
- Unroll.Unroller.Make: the recursion of `build_rec` is not modelled, because all calls come in increasing order and find their operands built.
- UnrollTool.UnrollModel: symbol names of the inputs are not modelled; which variable and slice an input stands for is recorded instead.
- BmcMain.BoundedModelCheck: the model is taken as re-encoded and the solver as complete, so that no value is printed as `x`; the option that turns outputs into bad literals is left out.
- Bmc.Encoder.EncodeLatches: other reset literals end the program; here the result is `Unsupported`.
- LassoCheck.Check: ground mode only; three-valued simulation, random stimuli, and the comparison with results of earlier witnesses in the same file are left out.
- PgCnf.ToCnf: default mode only; `--no-pg` is left out, and re-encoding before it is covered by `ReencodeTool`.
- ReencodeTool.SortByLhs: insertion sort stands for the library's `qsort`.
- ReencodeTool.ReencodeModel: works on values for the gate list and the property lists; only the code table and the flags are changed in place. The type records of the result are not modelled.
- CycleCheck.CheckForCycles: stated for clear marks, since the flags are never cleared.
- Binary.Reader.ReadAnds: the header, symbols and comments around the section, and character counts in messages, are left out.
- Rewrite.NormalizeSound: stated for optimisation levels as numbers; level 0, which the source excludes by an assertion, behaves like 1.
- SmvCheck.Checker.CheckNonCyclicDefinitions: the parser, declarations and the checks for undeclared variables are left out.
- SmvNesting.CheckNextNotNested: the TRANS constraint is a list of conjuncts instead of a chain of conjunctions.
- SmvExpr.Builder.BuildExpr: INIT and TRANS determinisation, LTL and the later substitution of definitions are left out.
- MiterTool.Build: the final re-encoding is covered by `ReencodeTool`; names are left out, and so is the comparison of reset values in combinational mode.
- Move.MoveModel: names are left out; several justice or fairness properties are dropped with `-i`, as in the source.
- Coi.Marker.Traverse: the solver calls, time shifting of clauses and the bound loop of `blimc` are left out.
- ClauseQueue.Queue.Produce: capacity of the array, memory statistics and the truncation of the cursor to `int` are not modelled; addresses of freed clauses are never used again.
- ClauseQueue.Queue.GarbageCollect: closing the gap is a slice of the sequence instead of a loop of moves.
- CubeTree.Tree.Solve: nodes are values in a sequence; the number of rounds is a parameter; the units the parallel solver exchanges are not modelled; memory limits and the choice of nodes to search or split are the oracle's.
- CubeTree.Tree.SwapNodes: sorting is modelled by the exchanges it consists of.
- Files, pipes, options, messages, signals, timers, statistics and custom allocators of all programs.
- `bliftoaig`, `aigjoin`, `aigdd`, `aigflip`, the fuzzers and the small dump, copy and format tools: they repeat the above or would only add easy members.
- The SAT solvers are not part of this model.
