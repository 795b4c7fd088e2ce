# Gab's mid-level compiler, in Dafny

This project models the middle of the Gab compiler: the control-flow graph that function bodies are lowered
into, the passes over that graph, and the data structures and front-end parts whose own guarantees are hard.
The files fall into these groups:

- **The graph.** `Mir` holds instructions, places, blocks and bodies; `Scalars` the 32-bit, 8-bit, 64-bit and
  boolean arithmetic; `Machine` runs a graph one instruction at a time; `Function` is a body edited in place.
- **Lowering.** `Source` is a big-step semantics of the scalar source language with owning locals, whose trace
  tells when each of them is opened, initialised, filled field by field, released and ended. `Lower` is lowering as
  a function and `Lowerer` the object that does it in place. `LowerFrame`, `LowerShape`, `LowerRun`, `LowerSteps`,
  `LowerSimulation`, `LowerMeaning` and `LowerBalance` prove the shape of the graph, that it means what the source
  means, and that every owning local lives one life in order. `LowerDominance`, `LoweredBodies` and `LoweredDrops`
  show that what lowering builds is what the later passes ask for, and what they then give together.
- **Drop elaboration.** `DropMeaning` says what a body releases before the pass, `DropFlow` and `DropSolver` are the
  dataflow and its loop, `DropRewrite` and `DropPaths` what the rewriting does on paths, `DropElaborate` the
  rewriting in place.
- **Borrow checking.** `Slots` and `SlotBounds` are the tree-shaped knowledge and its join, `Flow` and `FlowFacts`
  what an instruction does to it, `BorrowPaths`, `BorrowUses` and `BorrowFields` what it says of moves on paths,
  `BorrowFrees` and `BorrowMisses` what it says of references to what has ended, `Borrowck` the checker's loop.
- **Liveness.** `LivePaths` defines it on paths, `LiveObserved` and `LiveMeaning` say what that is worth to a run,
  `Liveness` packs it into words, `LivenessSolver` solves it.
- **Constant folding.** `Fold`, `FoldFacts`, `FoldMeaning`, `FoldComplete` for what is left, and `FoldPass` in place.
- **Printing and parsing.** `Syntax` and `ExprSyntax` hold the printer and the parser as functions, `RoundTrip`,
  `ReadBack` and `Lookahead` what one makes of the other's output, `Levels` a second printer that writes only the
  parentheses that the levels of the operators demand, `Parser` the parser that moves along the tokens.
- **Supporting structures.** `HashMap`, `TypeRegistry`, `Containment` and `ContainmentSearch`, `Arena`, `Worklist`.

Calls into the system become parameters or choices: the address that `malloc` gives, what instantiating a
template makes of its body, the addresses that type hashes mix in.

## Findings

Where the code does not meet a property everywhere, the project keeps the code as it is, shows an input, and
proves exactly when the property holds.

- **A flagged drop that no event precedes.** `DropPaths.UntouchedParameterIsMissed`: an owning parameter that is
  given away on one branch only is not released on the other. `DropPaths.ElaborationPreservesReleases` holds
  exactly where every flagged drop follows an event on its place.
- **A use after a move that the borrow checker accepts.** `BorrowFields.MaybeUninitialisedIsMissed`: another way to
  the use brings the value uninitialised, and nothing is reported. Whole uses are reported exactly when some path
  moves the value and none leaves it uninitialised (`Borrowck.CheckBorrows`).
- **A field revived by its sibling.** `BorrowFields.RevivedSiblingIsMissed`: after a move, storing one field lets
  another be read. Reads of fields are exact if no store names a field of the value
  (`BorrowFields.MovedPartReadExactly`).
- **A dangling reference that the borrow checker accepts.** `BorrowMisses.OutlivedReferenceIsMissed`: a reference to
  a local that holds a reference is tied only to what the local refers to, and reading it after the local's end is
  not reported. What is reported is never a false alarm (`BorrowFrees.FreedIsLapsed`); a use of a value that a path
  has made name something else, and then ended that, is reported unless the value may also arrive moved or
  uninitialised (`BorrowMisses.OverdueIsReported`, `BorrowMisses.OverduePartIsReported`).
- **A store that hides a read.** A store one step below a value that is not to a known field, through a reference
  (`LiveMeaning.StoredThroughIsNotLive`) or to one element of an array, counts as a write of the whole. Liveness is
  exact if and only if a body has no such store (`LiveObserved.LiveExactly`).
- **A comparison read as a call.** `Levels.ComparisonIsMisread`: `a < b > (c == d)`. Expressions written with the
  fewest parentheses are read back exactly if nothing in them looks like that (`Levels.SpelledIsReadBack`).
- **Owning parameters.** `LowerBalance.FallingOffLeaksParameters`: a body that falls off its end does not release
  them. `LowerBalance.BalancedExactly` says when nothing stays unreleased.
- **Folding `usize`.** `Fold.UsizeFoldCanBeWrong`; right exactly if wrapping the result to 32 bits loses nothing
  (`Fold.UsizeFoldIsExact`).
- **Printed expressions.** `Lookahead.PrefixTargetIsMisread` and `Lookahead.DerefOfCallIsMisread`; the printed text
  gives the tree back exactly under the condition of `NumberFields.TextRoundTrip`.
- **Type arguments in expressions.** After a name they are recognised exactly if none contains a qualified name or
  two references in a row (`Lookahead.ArgumentsAreRecognised`).
- **Oversized arena requests.** `Arenas.OversizedIsHandedOutTwice`: a rewind takes back an oversized piece older
  than its checkpoint. `Arenas.Arena.RunScope` says exactly which pieces survive.
- **A hash table of one cell** fills up with its first key (`HashMaps.OneCellIsTooFew`).

## Model

| member | source | states |
|---|---|---|
| LowerMeaning.LoweringPreservesResults | src/mir/mir_lower.c:1220-1407 | for every scoped body and arguments, the graph returns a value with a trace of what happens to owning locals (opened, initialised, each field set to which value, released, ended) if and only if the source semantics gives them |
| LowerMeaning.LoweringPreservesFailure | src/mir/mir_lower.c:1220-1407 | the graph gets stuck exactly if the source does something undefined, and runs forever exactly if the source does |
| LowerSimulation.StmtRuns | src/mir/mir_lower.c:1099-1350 | a run of a lowered statement arrives where its outcome says: past it, at the loop's exit or post step, returned, or stuck, with the variables agreeing and the scopes left released |
| LowerRun.ExprRuns | src/mir/mir_lower.c:447-521 | a lowered expression leaves its value in the value named, or sticks exactly where it is undefined, short-circuit operators included |
| LowerShape.EveryBlockIsFinished | src/mir/mir_lower.c:221-231 | every block of a lowered function has exactly one terminator, last, naming existing blocks |
| Lowerers.BuildFunction | src/mir/mir_lower.c:1359-1407 | the object that lowers in place builds the same graph as the function the theorems are about |
| LowerBalance.AnswersAreBalanced | src/mir/mir_lower.c:1002-1038 | each owning local is opened, then initialised, then its fields are set in order, then it is released once, innermost first, and only then may its storage end; owning parameters are released too by a return, and only by one |
| LowerBalance.BalancedExactly | src/mir/mir_lower.c:1179-1218 | nothing stays unreleased if and only if the call returns or no parameter owns |
| LowerBalance.ReturningRunsAreBalanced | src/mir/mir_lower.c:1317-1350 | the same of every run of the graph that returns |
| LowerBalance.FallingOffLeaksParameters | src/mir/mir_lower.c:1395-1407 | the empty body with an owning parameter ends without releasing it |
| LoweredBodies.LoweredIsSound | src/mir/mir_lower.c:179-219 | in the graph of a well-typed function without `usize` arithmetic every computed value is computed once and before each use on every path, and operand types agree |
| LoweredBodies.LoweredIsWellFormed | src/mir/mir_lower.c:1359-1407 | a lowered function meets what drop elaboration and the borrow checker ask of a body |
| LoweredBodies.FoldingLoweredPreservesAnswers | src/mir/mir_fold.c:225-287 | lowering and then folding a well-typed function returns exactly what the source gives |
| LoweredDrops.LetLocalsAreCovered | src/mir/mir_lower.c:1063-1082 | however the loads of a lowered function are read, on every path each drop of a local it declares comes after the local's initialisation, so that its flag works |
| LoweredDrops.ElaborationOfLoweredReleases | src/mir/mir_drop.c:373-411 | without owning parameters, what lowering builds releases after elaboration, on every path, exactly what the body means |
| DropFlow.AlwaysSettles | src/mir/mir_drop.c:102-181 | from any round the three-valued iteration reaches a table that repeats itself, within a bound that each changing round lowers, although its rounds are no ascending chain |
| DropFlow.SettledIsUnique | src/mir/mir_drop.c:129-181 | the table it stops at is determined by the body |
| DropSolver.EntryHoldings | src/mir/mir_drop.c:129-181 | the nested loops over the tables end, with a settled table |
| DropPaths.KeptBodyReleases | src/mir/mir_drop.c:322-352 | removing the drops of places that are always empty changes no release on any path |
| DropPaths.KeptSettles | src/mir/mir_drop.c:279-352 | the settled table of a body stays the settled table once those drops are gone |
| DropPaths.ElaborationPreservesReleases | src/mir/mir_drop.c:229-352 | every path stays, and releases the same places in the same order if and only if each flagged drop on it follows an event on its place; otherwise exactly one release is missing for each that does not |
| DropPaths.UntouchedParameterIsMissed | src/mir/mir_drop.c:229-277 | a body for which elaboration loses a release |
| DropElaborate.FindEmptyDrops | src/mir/mir_drop.c:183-207 | the drops noted are exactly those of places that hold nothing, in order |
| DropElaborate.NulledKeepsMeaning | src/mir/mir_drop.c:376-402 | on every path the body with a `Null` after each moving load of an owner releases what the original means, where such a load itself takes the object away |
| DropElaborate.ElaborateDrops | src/mir/mir_drop.c:373-411 | the in-place edits keep every path, and the new body releases what the original one means, moves included, in the same order exactly on covered paths |
| Slots.MergeCommutes | src/mir/mir_state.c:148-184 | on well-formed slots merging in either order gives the same knowledge |
| Slots.MergeAssociates | src/mir/mir_state.c:148-184 | and in either grouping, with missing fields as initialised as their parent |
| Slots.MergeIdempotent | src/mir/mir_state.c:148-184 | merging a slot with itself adds nothing |
| Slots.EqualsMeansSame | src/mir/mir_state.c:216-234 | counting borrows and looking them up one way decides equality of the sets |
| SlotBounds.MergeUsesUp | src/mir/mir_state.c:148-184 | a merge that changes a slot uses up a bounded supply, so states cannot change forever |
| Borrowck.MergeSettles | src/mir/mir_borrowck.c:604-642 | if merging leaves a state equal to what it was, everything merged in was already known |
| Borrowck.AbsorptionStays | src/mir/mir_state.c:186-200 | what a state has absorbed stays absorbed under further merges |
| Borrowck.EveryBodyIsBounded | src/mir/mir_borrowck.c:604-642 | every body has bounds on tracked fields, so that the checker ends on every body |
| Borrowck.ReachedExactly | src/mir/mir_borrowck.c:604-642 | a block is marked reached if and only if a path from the entry leads to it |
| BorrowPaths.RecordedBelowPath | src/mir/mir_borrowck.c:354-549 | the recorded level of a value at a block is at most that of every path to it |
| BorrowUses.MovedReadExactly | src/mir/mir_borrowck.c:320-352 | a read of a whole value is complained of as moved if and only if some path brings it moved and none uninitialised |
| BorrowUses.MovedArgExactly | src/mir/mir_borrowck.c:488-513 | so it is for each value handed to a call, a copy or a slice |
| BorrowUses.NoUseAfterMove | src/mir/mir_borrowck.c:354-549 | any use of a moved value or of a part of it is complained of, unless some path brings the value possibly uninitialised |
| BorrowFields.MovedPartReadExactly | src/mir/mir_borrowck.c:78-102 | reads of parts are complained of under the same exact condition if no store names a field of the value |
| BorrowFields.MovedReadIsStale | src/mir/mir_borrowck.c:320-352 | no complaint about a read is a false alarm: some path moves the value and gives the part read nothing new |
| BorrowFrees.FreedIsLapsed | src/mir/mir_state.c:203-215 | a complaint that memory was freed is no false alarm: some path comes past the end of something that a value used there might name by then, without giving the value anew |
| BorrowMisses.OverdueIsReported | src/mir/mir_borrowck.c:172-263 | a value used where some path has made it name something and then ended that is reported as freed, unless some path brings it uninitialised, or it is reported as moved |
| BorrowMisses.OverduePartIsReported | src/mir/mir_borrowck.c:320-352 | so it is for any part of a value, where the part or the whole value is used, unless some path moves what holds it or leaves doubt of its initialisation |
| BorrowMisses.SegmentIsReported | src/mir/mir_borrowck.c:354-549 | within a block, a reference taken, what it was taken of ended and the reference used is reported as freed whatever other paths bring |
| BorrowMisses.NeverSetExactly | src/mir/mir_borrowck.c:330-352 | a reference read is reported as never set if and only if some path brings it uninitialised |
| BorrowMisses.OutlivedReferenceIsMissed | src/mir/mir_borrowck.c:174-205 | a body that reads a reference past the end of what it was taken of, on which nothing is reported |
| BorrowFields.MaybeUninitialisedIsMissed | src/mir/mir_borrowck.c:320-352 | a body with a use after a move on which nothing is complained of |
| BorrowFields.RevivedSiblingIsMissed | src/mir/mir_borrowck.c:104-132 | a moved field that can be read after its sibling is stored to |
| Borrowck.CheckBorrows | src/mir/mir_borrowck.c:573-661 | the loop ends with states that running any reached block does not change; reports of moves are exact for whole values, handed values and unsplit values, never false for parts, and if there are none no use follows a move unless possibly uninitialised; reports of freed memory are never false and miss no use of what a path has made name what it ended, short of doubts from other paths; reports of references never set are exact |
| LivePaths.LiveBefore | src/mir/mir_liveness.c:76-106 | liveness before an instruction, from liveness after it, for the path definition |
| LiveObserved.LiveExactly | src/mir/mir_liveness.c:76-106 | every slot is live exactly where some run, under some interpretation of the instructions, can tell what it holds, if and only if no store goes one step below a value to other than a known field of it |
| LiveMeaning.DeadValuesDoNotMatter | src/mir/mir_liveness.c:76-106 | machines that differ only in values that are not live stay so at every step and end alike |
| LiveMeaning.DeadValueDoesNotMatter | src/mir/mir_liveness.c:76-106 | changing a value that is not live changes no result of a run from there |
| LiveMeaning.StoredThroughIsNotLive | src/mir/mir_liveness.c:81-92 | a body where what a reference holds is returned although the reference is not live |
| LivenessPass.IndexIsInjective | src/mir/mir_liveness.c:7-24 | the numbering by running sums gives every value and field its own bit |
| LivenessSolver.ClosedFindsUses | src/mir/mir_liveness.c:108-201 | in a table that nothing more flows into, everything some path reads before writing is present |
| LivenessSolver.SurvivorsAreLive | src/mir/mir_liveness.c:76-106 | and whatever survives walking a block backwards is read on some path before it is written |
| LivenessSolver.Liveness.constructor | src/mir/mir_liveness.c:108-201 | the fixpoint ends, and each row holds exactly what is live there |
| LivenessSolver.Liveness.LiveAfter | src/mir/mir_liveness.c:203-288 | a value or field is said to be live after an instruction if and only if some path from there reads it before writing it, and, under the condition of LiveExactly, if and only if some run from there can tell what it holds |
| Fold.FoldBinaryMeans | src/mir/mir_fold.c:144-223 | a folded operator has the value that running it gives, wrapping and truncation included |
| Fold.UsizeFoldIsExact | src/mir/mir_fold.c:187-223 | a folded `usize` operator is right if and only if wrapping its exact result to 32 bits loses nothing |
| Fold.UsizeFoldCanBeWrong | src/mir/mir_fold.c:187-223 | a sum for which it is wrong |
| Fold.FoldNegMeans | src/mir/mir_fold.c:55-72 | folded negation is right exactly under that condition |
| Fold.OperatorsFoldExactly | src/mir/mir_fold.c:144-223 | an operator on two constants is left as it is if and only if the types differ, are no integers, or it is a division of unsigned numbers or one without a value |
| Fold.PrefixesFoldExactly | src/mir/mir_fold.c:55-84 | a negation or inversion of a constant is left exactly if the constant is no integer or no bool |
| FoldComplete.FoldingLeavesNothing | src/mir/mir_fold.c:225-287 | after the pass every operator whose operands are constants placed before it is one that is to be left |
| FoldComplete.KeptConstantsAreRead | src/mir/mir_fold.c:85-142 | every constant that is left is named by something that is left |
| FoldMeaning.FoldingKeepsEveryStep | src/mir/mir_fold.c:225-287 | at every step the folded body agrees with the original in its events, its stores and every value that still has a definition |
| FoldMeaning.FoldingPreservesResults | src/mir/mir_fold.c:225-287 | the folded body ends in a result if and only if the original does |
| FoldMeaning.NoOperandNamesADroppedConstant | src/mir/mir_fold.c:85-142 | no operand, base or index that is left names a constant that was removed |
| FoldPass.MirFold | src/mir/mir_fold.c:225-287 | the pass in place gives the folded body, in which no operator that could fold is left on constants |
| HashMaps.Probe | src/util/hash_map.h:52-70 | every probe ends, at the live cell with the key or, if there is none, where the key may be put |
| HashMaps.PutKeeps | src/util/hash_map.h:87-105 | putting a key where its probe ended, tombstone or not, adds it to the contents and hides no other key |
| HashMaps.BuryKeeps | src/util/hash_map.h:110-121 | a tombstone removes one key and hides no other |
| HashMaps.HashMap.Insert | src/util/hash_map.h:87-105 | insertion adds exactly the absent key; some cell stays empty, and the capacity stays within the larger of the initial one and eight times the peak size |
| HashMaps.HashMap.Resize | src/util/hash_map.h:71-86 | resizing keeps the contents and leaves no tombstone |
| HashMaps.HashMap.Lookup | src/util/hash_map.h:106-109 | lookup answers for the map the operations so far have built |
| HashMaps.HashMap.Delete | src/util/hash_map.h:110-121 | deletion removes exactly the key |
| HashMaps.OneCellIsTooFew | src/util/hash_map.h:87-105 | with one cell the first insertion leaves no cell empty |
| Containment.OrderedHasNoCycle | src/ast/resolve.c:1711-1820 | structs that only contain earlier finished ones lie on no cycle |
| Containment.CyclesCannotBeLaidOut | src/ast/resolve.c:1820-1829 | structs one of which contains itself, arrays seen through, cannot be laid out |
| ContainmentSearch.AllFinished | src/ast/resolve.c:2920-2924 | once the search is over, something was reported if and only if some struct contains itself, and if and only if the structs cannot be laid out, each nesting deeper than what it holds |
| ContainmentSearch.Resolver.ReportContainmentCycle | src/ast/resolve.c:1685-1703 | what is reported is a chain of structs each containing the next, and the last the first |
| ContainmentSearch.Resolver.ResolveTypeBodies | src/ast/resolve.c:2920-2924 | cycles are reported exactly if there are any, each report is one, the fields kept can be laid out, and a struct fails exactly if it reaches one, unless a sizeless array was refused |
| TypeRegistries.SameObjectIffSameTree | src/type/type_registry.c:298-395 | two types are the same object if and only if they are equal all the way down |
| TypeRegistries.TypeRegistry.SameIffEqual | src/type/type_registry.c:298-395 | so it is after any history of constructor calls on a registry |
| TypeRegistries.StructuralHash | src/type/type.c:122-178 | the hash is a function of what equality compares, so equal types hash equally |
| TypeRegistries.StructurallyEquals | src/type/type.c:180-208 | the table's comparison is equality of kind and pointee, or of kind, declaration and arguments |
| TypeRegistries.TypeRegistry.Intern | src/type/type_registry.c:298-310 | interning finds the type that is there or adds one, and moves no other |
| TypeRegistries.TypeRegistry.RawOf | src/type/type_registry.c:665-675 | the result stands for a raw pointer to the tree of the element |
| TypeRegistries.TypeRegistry.Instantiate | src/type/type_registry.c:632-659 | the result stands for the declaration applied to the trees of the arguments |
| Arenas.Arena.Alloc | src/memory/arena.c:88-107 | a new piece is 8-aligned, lies inside one block, shares no byte with any piece not taken back, and leaves the blocks before it alone |
| Arenas.Arena.Reset | src/memory/arena.c:109-121 | everything is taken back and every block is empty |
| Arenas.Arena.Rewind | src/memory/arena.c:127-142 | exactly the pieces before the checkpoint stay |
| Arenas.Arena.Run | src/memory/arena.c:88-142 | no nesting of allocations and checkpoints takes back a piece that no later dedicated block held |
| Arenas.Arena.RunScope | src/memory/arena.c:123-142 | of the pieces older than a checkpoint exactly those survive its rewind that no dedicated block past the one being filled holds, and no later one with a byte does |
| Arenas.OversizedIsHandedOutTwice | src/memory/arena.c:30-46 | an oversized piece older than a checkpoint is handed out again after the rewind |
| Worklists.Finished | src/ast/pending.c:26-56 | the list overflows if and only if more than 256 instances are demanded, and otherwise holds exactly the demanded ones |
| Worklists.CallsAreAsked | src/mir/mir_build.c:36-56 | the functions collected from a body are exactly those that an instruction of it calls or a drop may run |
| Worklists.PendingBodies.Instantiate | src/ast/pending.c:26-56 | a function is listed once, if it is instantiable and there is room; only a full list overflows |
| Worklists.PendingBodies.Build | src/mir/mir_build.c:58-103 | building ends even when templates demand endlessly many, with at most 256 distinct instances and a body for each that has a template |
| TypeParser.TypeRoundTrip | src/driver/interface.c:10-53 | a printed and lexed type parses to itself, runs of `&` paired by the lexer and split again included |
| RoundTrip.ExprRoundTrip | src/driver/interface.c:205-349 | the printed tokens of a printable expression parse to it, whatever may follow |
| ReadBacks.PrintedIsReadBack | src/syntax/parser.c:1589-1872 | the printed tokens of any plain expression parse to the one printable tree that prints the same, which is the expression itself exactly if it is printable |
| Levels.SpelledIsReadBack | src/syntax/parser.c:1660-1686 | an expression written with no more parentheses than the table of levels and grouping from the left demand parses to itself, if and only if no comparison in it looks like type arguments |
| Levels.OperatorsGroup | src/syntax/parser.c:1849-1872 | of two operators between three numbers the second takes the middle number exactly if it is the tighter one |
| Levels.ComparisonIsMisread | src/syntax/parser.c:1371-1414 | two comparisons before a parenthesis are read as a call of a generic function |
| NumberFields.TextRoundTrip | src/syntax/lexer.c:165-199 | with the lexer's joining of numbers and dots, the text gives the tree back if and only if it is printable and no field is taken of what ends in a number |
| NumberFields.ExprFloats | src/syntax/parser.c:1617-1872 | the parser makes exactly one float literal of each float token it takes |
| RoundTrip.RightOperandIsBlocked | src/syntax/parser.c:1371-1414 | what the printer writes after `<` is never taken for type arguments |
| Lookahead.ScansType | src/syntax/parser.c:1371-1414 | the lookahead gets past a printed type exactly if the type is plain |
| Lookahead.ArgumentsAreRecognised | src/syntax/parser.c:1371-1414 | type arguments that lead to a call or `::` are recognised if and only if all of them are plain |
| Lookahead.PrefixTargetIsMisread | src/driver/interface.c:285-288 | a printed field of a negation parses as the negation of the field |
| Lookahead.DerefOfCallIsMisread | src/syntax/parser.c:1416-1450 | a printed dereference of a call by name parses as a conversion |
| Parsers.Parser.Expression | src/syntax/parser.c:1660-1686 | the parser that moves along the tokens makes the tree, and stops where, the parse function does |

## Left out

- `release_before_overwrite` (src/mir/mir_drop.c:27-85), which decides what a first store is by the order of
  blocks, and `resolve_endings` (src/mir/mir_drop.c:354-370).
- Complaints that a borrow outlives what it names, and those about what is returned.
- BorrowMisses.OverdueIsReported: a reference to a local that some path lends something is not counted as one to the
  local itself, for the reason BorrowMisses.OutlivedReferenceIsMissed shows, nor is one to a place that some path
  leaves moved.
- BorrowUses.NoUseAfterMove: for uses of parts it says when a complaint must come and BorrowFields.MovedReadIsStale
  when it cannot; between them a store to one field changes what is known of its untracked siblings, so that for
  values stored to by field whether a complaint comes depends on which fields other paths have made the checker track.
- Aliasing of slots between states that the C code shares by pointer: states are values here.
- LowerMeaning.LoweringPreservesResults: covers scalar expressions and statements and owning struct locals, and has
  events for the owning ones; calls, references, slices, temporaries and struct reads are not lowered in this model,
  and nothing follows a statement that always jumps.
- LoweredBodies.LoweredIsSound: takes functions without `usize` arithmetic, which folding may get wrong.
- LowerShape.EveryBlockIsFinished: takes graphs whose block ids fit in 32 bits, as the source's ids do.
- DropElaborate.ElaborateDrops: asks that value ids do not run out of 32 bits, and uses the value that means
  "none" for a drop without a flag, where the C code leaves 0.
- Floats: neither folded nor run.
- LivenessSolver.Liveness.constructor: 64-bit words are sets of bit positions.
- HashMaps.HashMap.Insert: `&` with the capacity less one is written as a remainder, and the load factors as integer
  comparisons.
- Requests to the arena so large that an offset and a size pass 64 bits. The list of blocks is a sequence, not linked.
- TypeRegistries.TypeRegistry.Instantiate: arguments that are numbers are `i32` ones, as the resolver makes them;
  layouts, conformances and substitution are not modelled.
- ContainmentSearch.Resolver.ResolveTypeBodies: non-generic structs, with fields that are structs or arrays of them;
  slices and type arguments hold nothing by value. The text of the report is not modelled.
- Worklists.PendingBodies.Build: what a dropped type's destroy methods are, and what instantiating makes of a body,
  are parameters. Borrow checking of the bodies built is a separate pass here.
- ReadBacks.PrintedIsReadBack: float, string and struct literals, qualified names, names with type arguments and
  conversions other than to a plainly named raw run are not among the plain expressions; their printed form depends
  on facts of the checker or has the shape of another expression.
- Lexing starts from words, numbers and single marks; characters, comments and spacing are not modelled. The parser's
  error recovery and messages are not modelled.
- LLVM emission, symbols, linking, the driver and reading files.
