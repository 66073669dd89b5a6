# Verified model of AIRECE's decision procedures

AIRECE answers questions about binaries from an SSA representation of their code: does
data flow from here to there, along which path, what does this value amount to, which
operations does this statement depend on. This project models the procedures behind the
answers and proves what the answers are worth. Operations, blocks, edges and terminators of
the representation are datatypes; what the code keeps in objects and updates in place are
classes, arrays and loops with invariants; what it computes by recursion are functions.

## Directed flow

`TaintTags` is the tag table with its merge rule. `TaintProgram` gives dependency as a
relation: a chain of steps from operand to result, argument to parameter, call argument to
callee, return value to caller, and store to load at compatible offsets, each step with its
call crossings. `TaintTheory` shows that a table that is justified by chains, has all seeds
and is closed under steps holds exactly the reachable slots with the least number of
crossings. `TaintEngine` is the chaotic iteration, proved to keep the table justified, to
end with all budgets disabled, and to be closed when it ends complete. `TaintVerdict` adds
the two kinds of influences and the verdict. `PathSearch` and `PathQuery` are the path
search with its return stacks and context histories: what it lists is a beginning of the
walks to the goal in the order of length and then of edge ids, and unless it is cut short
these are exactly the first ones up to the path limit. `PathMatch` describes those walks
without a search, by the calls that returns answer, and shows the two descriptions equal.

Cancellation and the clock are an arbitrary signal at every check.

Three observations about the code came out of this:

- A no-flow verdict for a *reach* target is not sound. Ending the path search at the path
  limit, or by cancellation or time, does not touch the completion, so influences that only
  further paths show are missed without notice. With `max_paths` and `max_states` both zero
  the limit is one path. `TaintLimits.NoFlowIsRight` says in terms of the graph, the targets
  and the limit for which queries the verdict is right whatever the program and the taint,
  `TaintLimits.CutNoFlowIsRight` says it for interrupted searches, and
  `TaintLimits.PathLimitHidesDetour` and `TaintLimits.InterruptionHidesDetour` are queries
  whose verdict is wrong. For value targets the verdict is sound.
- Context keys are 64-bit numbers; `PathSearch.KeysInjective` says exactly when they tell
  contexts apart.
- Storage offsets are only as good as the program is consistent: `Offsets` shows that every
  recovered offset agrees with every consistent assignment, whatever the visiting order and
  whether or not 32 passes were enough. And they are distances to the stack pointer only in
  the bits of the narrowest value on the way: the code looks at no widths.
  `OffsetMeaning.KeepsExactly` says which operations keep the full distance of 64 bits,
  `OffsetMeaning.TruncatedPointer` is a truncation that does not, and
  `OffsetMeaning.CutIsRecovered` is a block for which recovery records that offset.

## Expression recovery

`Ssa` and `ExprMeaning` say what an execution is: values, memory before each operation, and
what each operation computes. `ExprTree` turns one operation into a tree with holes for its
operands, with the collapse of comparisons against boolean constants, of casts, and of flags
into comparisons. `ExprRender` fills holes as far as the safety of loads, use counts and the
budget allow. `ExprSound` proves that the tree of a value, evaluated with memory as it is
just before the value's operation, is the value in every execution. `ExprBudget` bounds the
tree and shows that an untruncated one does not depend on the budget. `ExprPrint` is the
precedence printer with a parser that reads its output back. `ExprNegate` is the composition
of text with the rewriting of negated comparisons, and `ExprResult` puts all of it together
behind the character limit and the cache.

- Printing is lossless exactly for trees without a select as the condition of a select
  (`ExprPrint.PrintReads`): the condition is printed without brackets.
- Negating a comparison exchanges the first operator of a table that the *text* contains.
  `ExprNegate.NegationExact` says exactly when that is the comparison's own operator;
  `ExprNegate.MissedNegation` is a comparison of a comparison whose negation comes out
  wrong, and `ExprResult.MissedRecovered` a module from which it is recovered. Comparisons
  without comparisons in their operands are always negated rightly. That every negation
  hits is enough for the whole text to be right but not necessary: misses can make up for
  each other (`ExprNegate.MissesMakeUp`).

## Slices, paths, stack addresses

`Slice` is the backward slice: the worklist finds exactly the operations that the seed
depends on, and lists them in order up to the seed. `CfgPath` is the breadth-first search
of the path command. `Affine` recovers stack addresses with overflow guards; `Offsets` and
`Copies` are the storage offsets and the copies through block parameters; `Variables` marks
overlapping slots and makes names unique. `OffsetMeaning` says what storage offsets are in
an execution of the module.

- An addition that would leave 64 bits is refused, exactly then (`Affine.GuardExact`); in the
  compact view and the flow query the same addition is done without a guard, and the model
  lets it wrap.
- Two slots that share a byte are not found to overlap when one ends above the largest
  offset (`Variables.OverlapExact`).
- On a cycle of copies every value resolves to itself, whatever its length
  (`Copies.CycleSplits`); a copy resolves like its source if and only if it is not on one
  (`Copies.ResolvesWithSource`).

## Presentation and protocol

`Regions` orders the blocks, finds control regions and shows what walks do in a sequence.
`Paging` collects, orders and cuts the statements of the compact view, with one page of the
calls. `Simplify` is the string algebra of the agent view. `Protocol` is the JSON tool
protocol against an arbitrary model, and `Evidence` the choice of tool results for its
final answer.

- The collapse of nested masks strips outer brackets without asking whether they belong
  together. `Simplify.SimplifiesUnlessMisfiring` says exactly when: the result is the text of
  an expression, and of one with the right value, if and only if the left operand is not an
  operation on two bracketed operands the second of which is a masking that the new mask
  allows to drop. `Simplify.MisfireExample` and `Simplify.MisfireValues` show what happens
  otherwise.
- Constants are folded in signed 64-bit arithmetic, whose overflow has no defined result in
  the source; the model lets it wrap.
- Following the printed continuation does not always lead to all calls. When as many other
  statements stand in front of a call as the statement limit allows, the page has no calls
  and the same offset is printed again; and the printed command leaves the limit at its
  default of 128. `Paging.FollowPages` says exactly which calls are visited, and
  `Paging.CallIsNeverShown` is a block whose call is not.
- The branch of the protocol that answers a tool request with an exhausted budget cannot be
  reached, because every reply after exhaustion is taken as final; the model does not have it.

`Basics` and `Texts` hold what several modules share.

## Model

| member | source | states |
|---|---|---|
| TaintTags.AddRepresents | src/semantic/directed_flow.cpp:316-346 | offering a tag to the table's lists (merge under the same key, append unless the budget is used up, drop otherwise) is offering it to the map from slots to tags |
| TaintTags.RepresentsUpdate | src/semantic/directed_flow.cpp:324-345 | replacing one value's list moves the map exactly as it moves the look-ups by key; keys within a value stay unique |
| TaintProgram.StepWithLess | src/semantic/directed_flow.cpp:786-816 | a configuration that takes a step also takes it with fewer call crossings made, and arrives with no more |
| TaintProgram.ChainDepth | src/semantic/directed_flow.cpp:786-816 | no dependency chain makes more call crossings than the function depth |
| TaintTheory.Fixpoint | src/semantic/directed_flow.cpp:1669-1681 | a table whose tags are all justified by chains, that has the seeds and is closed under steps, holds exactly the reachable slots, each with the least number of crossings |
| TaintTheory.ChainCovered | src/semantic/directed_flow.cpp:1669-1681 | in a closed table every chain ends at a slot stored with no more crossings |
| TaintTheory.SoundIsBounded | src/semantic/directed_flow.cpp:316-346 | a justified table uses slots of a finite universe fixed by the program |
| TaintTheory.PutProgress | src/semantic/directed_flow.cpp:316-346 | offering a tag reports a change exactly if a new slot is taken or the sum of range ends and depths falls; otherwise depths stay as they are |
| TaintTheory.PutCovers | src/semantic/directed_flow.cpp:316-346 | an offered tag is covered afterwards unless the state budget is used up |
| TaintTheory.PutSound | src/semantic/directed_flow.cpp:316-346 | merging keeps every tag justified by a chain with just its number of crossings |
| TaintTransfer.LeavingFrom | src/semantic/directed_flow.cpp:820-905 | whatever leaves an operation is one of its operands' tags, shifted, loaded or re-keyed for storage |
| TaintTransfer.LeavingHas | src/semantic/directed_flow.cpp:820-905 | every operand tag that the operation lets through leaves it |
| TaintEngine.Analysis.constructor | src/semantic/directed_flow.cpp:1608-1625 | an empty table is a valid one |
| TaintEngine.Analysis.AddTag | src/semantic/directed_flow.cpp:316-346 | the new table, the state count and the reported change, in terms of the map from slots to tags |
| TaintEngine.Analysis.MovePairs | src/semantic/directed_flow.cpp:786-816 | copying tags between paired values keeps the table justified and, unless it is full, leaves every copy covered; crossings at the depth limit are not made |
| TaintEngine.Analysis.PropagateCall | src/semantic/directed_flow.cpp:775-817 | arguments reach the callee's parameters and return values the call's results, with one crossing more |
| TaintEngine.Analysis.PropagateData | src/semantic/directed_flow.cpp:818-914 | after the input-to-output summary of an operation the table is closed under it unless it is full |
| TaintEngine.Analysis.PropagateOperation | src/semantic/directed_flow.cpp:757-915 | the table stays justified, only grows, reports every progress, and is closed under the operation when nothing changed |
| TaintEngine.Analysis.PropagateBranches | src/semantic/directed_flow.cpp:916-952 | the same for the arguments of all terminators |
| TaintEngine.Analysis.SeedLoad | src/semantic/directed_flow.cpp:954-1002 | a load from the constant addresses of a memory source offers each of its scalar results one tag, with the range of the bytes it reads; the new table is given exactly |
| TaintEngine.SeededBytes | src/semantic/directed_flow.cpp:984-995 | that range is exactly the source's bytes that the load reads, if and only if its end does not wrap around |
| TaintEngine.Analysis.SeedAll | src/semantic/directed_flow.cpp:1643-1667 | all seeds are covered unless the table is full |
| TaintEngine.Analysis.Stopped | src/semantic/directed_flow.cpp:355-372 | a stop is reported exactly with a completion that is not complete, for cancellation, time or states |
| TaintEngine.Analysis.Round | src/semantic/directed_flow.cpp:1671-1680 | one round is closed under all operations and branches if it was complete and changed nothing |
| TaintEngine.Analysis.Run | src/semantic/directed_flow.cpp:1669-1681 | the iteration ends with all budgets disabled; if it ends complete the table is exact; it ends otherwise only by a signal or the state budget |
| PathSearch.WalkConsistent | src/semantic/directed_flow.cpp:1022-1095 | along a walk recorded nodes are joined by the recorded edges, open calls never exceed the depth, the depth never exceeds the limit, and contexts are distinct and below the number of contexts |
| PathSearch.WalkPrefix | src/semantic/directed_flow.cpp:1042-1095 | beginnings of a walk are walks that have not reached the goal |
| PathSearch.KeysInjective | src/semantic/directed_flow.cpp:1050-1090 | the 64-bit keys tell all contexts apart if and only if there are no more than 2^64 of them |
| PathMatch.WalksAreMatched | src/semantic/directed_flow.cpp:1042-1095 | the search's walks are exactly the matched ones: every return goes to the continuation of the call it answers, or where its edge leads if it answers none, no call at the depth limit, no context twice, nothing beyond the goal |
| PathMatch.AnsweredIfOpen | src/semantic/directed_flow.cpp:1072-1082 | a return answers a call if and only if the return stack is not empty |
| PathMatch.AnswersInnermost | src/semantic/directed_flow.cpp:1072-1082 | a return answers at most one call, the innermost open one |
| PathQuery.GoalFrontier | src/semantic/directed_flow.cpp:1042-1048 | taking an item at the goal off the queue keeps the found paths and waiting items in the order of the walks, and complete |
| PathQuery.ExpandFrontier | src/semantic/directed_flow.cpp:1049-1094 | so does replacing another item by its continuations |
| PathQuery.ExpandWeighsLess | src/semantic/directed_flow.cpp:1049-1094 | expanding an item lowers the weighted sum over the queue, because every continuation has one context less to enter |
| PathQuery.FindPaths | src/semantic/directed_flow.cpp:1004-1096 | every result is a walk to the goal, walks are listed in the order of length and edge ids and everything missing comes later, a drained queue means all were found, the search ends early only by a signal, the state budget or the path limit, and otherwise the list is exactly that of the first walks up to the limit |
| PathQuery.FullListing | src/semantic/directed_flow.cpp:1042-1048 | a list of n walks, or of all, is that of the walks that have fewer than n others before them |
| PathQuery.ExhaustiveUnlessCrowded | src/semantic/directed_flow.cpp:1042-1048 | such a list is exhaustive if and only if no more than n walks lead to the goal |
| TaintVerdict.Controls | src/semantic/directed_flow.cpp:1724-1732 | a path is controlled by a source exactly if a condition along it is tagged with the source |
| TaintVerdict.ReadValues | src/semantic/directed_flow.cpp:1683-1700 | the value influences are exactly the tags of the value targets |
| TaintVerdict.SearchPairs | src/semantic/directed_flow.cpp:1702-1764 | control influences are shown by walks among the first ones; a search that found nothing and was not interrupted leaves none of these controlled; a search that is interrupted at once adds nothing |
| TaintVerdict.DirectedTaint | src/semantic/directed_flow.cpp:1665-1772 | every value influence is a dependency chain, and a complete answer reports every chain into a value target; no flow is answered if and only if the query is complete, no chain leads into a value target and no source flows into a condition of the walks that its searches listed, however they ended; without interruption these are the first walks up to the path limit, and with searches interrupted at once there are none; without budgets and interruptions the query is decided |
| TaintVerdict.FirstUnlessCrowded | src/semantic/directed_flow.cpp:1702-1764 | then no walk to a reach target is influenced, unless there are more than the path limit |
| TaintLimits.NoFlowIsRight | src/semantic/directed_flow.cpp:1702-1768 | no flow is right for every program and every taint if and only if every condition on a walk to a reach target is on one of the first walks, up to the path limit, from the same source to some reach target, or is itself a value target |
| TaintLimits.NoFlowIsRightForOne | src/semantic/directed_flow.cpp:1702-1768 | with a single reach target: if and only if the first walks have all conditions |
| TaintLimits.CutNoFlowIsRight | src/semantic/directed_flow.cpp:1032-1033 | with the path searches interrupted: if and only if all conditions on the walks are value targets |
| TaintLimits.PathLimitHidesDetour | src/semantic/directed_flow.cpp:1709-1710 | with all budgets disabled and no interruption a query answers no flow although the source decides a branch on the way |
| TaintLimits.TwoPathsFindDetour | src/semantic/directed_flow.cpp:1709-1710 | with two paths it finds the influence |
| TaintLimits.InterruptionHidesDetour | src/semantic/directed_flow.cpp:1032-1033 | cancelled after the fixpoint it answers no flow again |
| OffsetMeaning.KeepsExactly | src/semantic/directed_flow.cpp:670-688 | the distance of the result is the recovered one for all words of 64 bits if and only if the operation extends by zeros, adds or extends by the sign at 64 bits and more, does nothing, or leaves 64 bits or the whole word |
| OffsetMeaning.ResultIsMeaning | src/semantic/directed_flow.cpp:670-688 | the operations that pass offsets on compute what the last row speaks of in every execution |
| OffsetMeaning.TruncatedPointer | src/semantic/directed_flow.cpp:670-674 | a pointer of 2^32 cut to 32 bits gets offset 0 and is 2^32 away |
| OffsetMeaning.OperationMeaning | src/semantic/directed_flow.cpp:670-688 | in every execution the result of an operation is its operand plus what recovery adds, modulo two to the narrowest width of result and operands |
| OffsetMeaning.TrailMeaning | src/semantic/directed_flow.cpp:659-724 | so it is along trails of operations and passed arguments, from the entry pointer, modulo the narrowest width on the trail |
| OffsetMeaning.OffsetMeaning | src/semantic/directed_flow.cpp:659-724 | every recovered offset comes from such a trail, and where nothing on it is narrower than 64 bits it is exactly the distance |
| OffsetMeaning.CutIsRecovered | src/semantic/directed_flow.cpp:659-724 | for a block that cuts the stack pointer to 32 bits, recovery records offset 0, and in an execution of the module the value is 2^32 away |
| Offsets.EntryPointers | src/semantic/directed_flow.cpp:633-658 | the entry pointers are exactly the values named like the stack pointer among the parameters of nodes that only calls lead to |
| Offsets.Pass | src/semantic/directed_flow.cpp:659-722 | a pass keeps every offset traced from the entry, changes none that is known, reports a change exactly if it added one, and if it reports none the table is closed |
| Offsets.Recover | src/semantic/directed_flow.cpp:629-724 | recovered offsets are sums along trails of equations from the entry; every value on a trail of at most 32 steps is recovered, and every value on any trail unless each of the 32 passes recovered another one |
| Offsets.OffsetsAgree | src/semantic/directed_flow.cpp:659-724 | every recovered offset is the one that every consistent assignment has, whatever the order and the cut-off |
| Offsets.OffsetsMeetEquations | src/semantic/directed_flow.cpp:659-724 | after convergence the recovered offsets of a consistent program meet every equation they reach |
| Offsets.OrderIsFree | src/semantic/compact_view.cpp:525-591 | two converged recoveries of a consistent program over the same items, in any order, give the same table |
| Offsets.UsersAgree | src/semantic/compact_view.cpp:506-591 | operations first or block by block makes no difference |
| Copies.RecordEdge | src/semantic/compact_view.cpp:431-450 | recording one edge's arguments keeps the sources and the conflicts those of all pairs so far |
| Copies.RecordCopies | src/semantic/compact_view.cpp:429-456 | a parameter is a copy of a value if and only if that value, and no other, is passed to it |
| Copies.Resolve | src/semantic/compact_view.cpp:457-465 | following copies ends, at the first value that is an original or was met before |
| Copies.ResolveAlike | src/semantic/compact_view.cpp:457-465 | values that resolve alike are equal whenever parameters equal what is passed to them |
| Copies.ResolutionUnique | src/semantic/compact_view.cpp:457-465 | a value resolves to one value only |
| Copies.ResolvesWithSource | src/semantic/compact_view.cpp:457-465 | a copy and its source resolve alike if and only if the copy is not on a cycle of two or more copies |
| Copies.CycleSplits | src/semantic/compact_view.cpp:457-465 | a value that copies lead back to resolves to itself |
| ExprMeaning.CollapsedMeaning | src/semantic/expression_view.cpp:423-448 | what remains of a comparison with a boolean constant has the comparison's value |
| ExprMeaning.ComparisonMeaning | src/semantic/expression_view.cpp:423-459 | the shape of a comparison has its value, collapsed or not |
| ExprMeaning.XorMeaning | src/semantic/expression_view.cpp:623-638 | the shape of an exclusive or has its value, also as a negation |
| ExprMeaning.CastMeaning | src/semantic/expression_view.cpp:662-690 | removing casts to the same type and truncations of extensions keeps the value |
| ExprMeaning.FlagMeaning | src/semantic/expression_view.cpp:461-521 | a flag in terms of the operands has the flag's value: zero of a subtraction is equality, its borrow is the unsigned comparison |
| ExprMeaning.ReadMeaning | src/semantic/expression_view.cpp:706-711 | a rendered load reads the memory it is evaluated with |
| ExprMeaning.ShapeMeaning | src/semantic/expression_view.cpp:565-762 | the tree of one operation over its operands has the value that the operation computes |
| ExprSound.QuietStretch | src/semantic/expression_view.cpp:250-263 | memory does not change over a stretch of operations none of which clobbers loads |
| ExprSound.SafeLoad | src/semantic/expression_view.cpp:265-287 | a load that is found safe sees the memory that there is before the operation it is moved to |
| ExprSound.RenderMeaning | src/semantic/expression_view.cpp:330-363 | the tree of a value, at any depth and in any state, is the value when evaluated with the horizon's memory |
| ExprSound.RecoverMeaning | src/semantic/expression_view.cpp:289-371 | the recovered tree, with memory as it is just before the root operation, is the SSA value in every execution |
| ExprBudget.RecoverLarger | src/semantic/expression_view.cpp:289-363 | if nothing was truncated, a larger budget with the same rules gives the same tree, operations and values |
| ExprBudget.RecoverBounded | src/semantic/expression_view.cpp:297-302 | expanded nodes and the height of the tree stay within the limits |
| ExprBudget.RenderNodes | src/semantic/expression_view.cpp:330-363 | no expansion happens beyond the node limit |
| ExprBudget.RenderHeight | src/semantic/expression_view.cpp:330-371 | the height is bounded by what is left of the depth |
| ExprPrint.ReadFull | src/semantic/expression_view.cpp:373-387 | the parser reads a printed tree back, whatever follows |
| ExprPrint.ReadOperator | src/semantic/expression_view.cpp:373-387 | operands bracketed by precedence, the right one at one level more, are read back as grouped to the left |
| ExprPrint.ReadsAsSeen | src/semantic/expression_view.cpp:697-704 | any printed tree is read back as the tree it looks like, with a select behind a select's condition attached to the inner one |
| ExprPrint.PrintReads | src/semantic/expression_view.cpp:210-213 | a printed tree is read back unchanged if and only if no select is the condition of a select |
| ExprPrint.PrintsAlike | src/semantic/expression_view.cpp:210-213 | two trees print alike if and only if they look alike; readable ones only if they are equal |
| ExprNegate.ParenthesizePrinted | src/semantic/expression_view.cpp:210-213 | bracketing a composed text is printing the tree at that level |
| ExprNegate.ReplacedIsOpposite | src/semantic/expression_view.cpp:407-421 | exchanging the operator found gives the opposite comparison if and only if it is the comparison's own and not in the left operand |
| ExprNegate.NegationExact | src/semantic/expression_view.cpp:407-421 | negating the text of a comparison gives the text of its negation if and only if the table's first find is the comparison's own operator |
| ExprNegate.NegationOfOthers | src/semantic/expression_view.cpp:407-421 | other expressions are negated rightly |
| ExprNegate.CleanCode | src/semantic/expression_view.cpp:330-387 | if every negation hits, the composed text is the printed form of the tree with negated comparisons replaced |
| ExprNegate.FreeOperands | src/semantic/expression_view.cpp:407-421 | a comparison without comparisons in its operands is always hit |
| ExprNegate.SettleMeaning | src/semantic/expression_view.cpp:407-421 | replacing negated comparisons keeps the value |
| ExprNegate.MissedNegation | src/semantic/expression_view.cpp:407-421 | the negation of `(a == b) u< c` is written as an expression with the opposite value |
| ExprNegate.MissesMakeUp | src/semantic/expression_view.cpp:407-421 | `(a == b) == c` negated three times is written rightly although the first negation misses |
| ExprResult.BuildFits | src/semantic/expression_view.cpp:790-800 | the text respects the character limit, a cut is reported, and a cut text begins like the full one |
| ExprResult.BuildLarger | src/semantic/expression_view.cpp:763-808 | an answer that was not truncated is the same under every larger budget |
| ExprResult.CodeReads | src/semantic/expression_view.cpp:330-387 | the composed text of a recovered tree is read back as that tree, up to the two exceptions |
| ExprResult.TextMeaning | src/semantic/expression_view.cpp:763-808 | from the module to the text and back: reading the text of a value gives the value in every execution |
| ExprResult.MissedRecovered | src/semantic/expression_view.cpp:330-421 | for a well-formed module of four operations, reading the recovered text gives the opposite value |
| ExprResult.Recovery.Build | src/semantic/expression_view.cpp:810-826 | the cache makes no difference to any answer |
| ExprResult.Recovery.Clear | src/semantic/expression_view.cpp:868-870 | forgetting all answers leaves the cache right, so later answers are the same |
| Slice.Layout | src/cli/main.cpp:1014-1028 | the operations in block order, with the last position of every operation and block |
| Slice.SeedPosition | src/cli/main.cpp:1029-1062 | the last position at the address, else of a seed operation, else of the seed's block |
| Slice.Incoming | src/cli/main.cpp:1063-1086 | exactly the arguments that edges within the function pass to each parameter |
| Slice.CoveredIsAll | src/cli/main.cpp:1099-1119 | with an empty worklist, the visited values and selected operations are exactly the dependencies |
| Slice.ReachedIsLeast | src/cli/main.cpp:1099-1119 | the dependencies are the least set with the seed's values that is closed under dependency |
| Slice.Close | src/cli/main.cpp:1087-1119 | the worklist ends, on cyclic parameter graphs too, with exactly the dependencies and their operations |
| Slice.BackwardSlice | src/cli/main.cpp:1014-1149 | the slice lists, in order, exactly the selected operations up to the seed |
| CfgPath.PathCovered | src/cli/main.cpp:1316-1336 | a path to a node is no shorter than the node's depth, or longer than the depth of the queue's front |
| CfgPath.Expand | src/cli/main.cpp:1328-1335 | giving parents to the new successors of a node keeps the tree of parents and the order of the queue |
| CfgPath.Search | src/cli/main.cpp:1316-1336 | a discovered goal is at its least distance; an undiscovered one is unreachable unless a budget, a cancellation or the clock ended the search |
| CfgPath.ReadBack | src/cli/main.cpp:1347-1352 | following parents ends at the start with a path as long as the goal's depth |
| CfgPath.FindPath | src/cli/main.cpp:1316-1352 | a reported path is a shortest one; the reasons for reporting none are right |
| Affine.Recovered | src/semantic/variable_view.cpp:364-437 | an offset never leaves 64 bits |
| Affine.Recover | src/semantic/variable_view.cpp:364-442 | the recursion with the shared set of values under way computes that function and leaves the set as it was |
| Affine.GuardExact | src/semantic/variable_view.cpp:404-431 | the guards refuse exactly the sums and differences that leave 64 bits, and do not overflow themselves |
| Affine.ConstantAgrees | src/semantic/variable_view.cpp:340-362 | the sign-extended constant agrees with the constant's value in all its bits up to 64 |
| Affine.ChainMeaning | src/semantic/variable_view.cpp:388-433 | along casts and constant sums, a value is the last one plus the sum, modulo the narrowest width |
| Affine.StackAddressMeaning | src/semantic/variable_view.cpp:364-442 | in every execution a value is the recovered register plus the recovered offset, modulo two to the narrowest width on the way |
| Affine.StackAddressExact | src/semantic/variable_view.cpp:364-442 | exactly the values are recovered from which casts and constant sums lead to a stack register within the depth limit and 64-bit offsets; of two constant registers that are added the first is taken |
| Affine.NeverBack | src/semantic/variable_view.cpp:364-371 | a chain to a register never comes back to a value, so the set of values under way cuts off nothing |
| Variables.OverlapExact | src/semantic/variable_view.cpp:770-788 | slots are found to overlap if and only if they share a byte and neither ends above the largest offset |
| Variables.MarkOverlaps | src/semantic/variable_view.cpp:1102-1114 | a slot is marked if and only if it clashes with another one of its base |
| Variables.ContiguousArguments | src/semantic/variable_view.cpp:1271-1272 | the number of arguments before the first gap |
| Variables.FreeText | src/semantic/variable_view.cpp:1303-1319 | a taken name gets the first candidate that is free, and there is one |
| Variables.MakeUnique | src/semantic/variable_view.cpp:1303-1319 | each variable gets the first text that no earlier one has; no two have the same |
| Regions.BlockOrder | src/semantic/control_view.cpp:600-625 | the block order lists the node set, and repeats a node only if the reverse postorder does |
| Regions.EdgeTables | src/semantic/control_view.cpp:627-646 | the tables hold exactly the function's edges other than calls, by source and counted by destination |
| Regions.ControlView.AddRegion | src/semantic/control_view.cpp:525-537 | the view shows the first regions up to the cap and counts the others |
| Regions.ControlView.LoopRegions | src/semantic/control_view.cpp:687-732 | one region for each loop, with just its members |
| Regions.ControlView.BranchRegions | src/semantic/control_view.cpp:734-834 | one region of its own for each switch and each two-way branch, in block order, and no others |
| Regions.ControlView.SequenceRegions | src/semantic/control_view.cpp:836-866 | the sequences are exactly the longest runs of linked blocks, and disjoint |
| Regions.ControlView.SingleRegions | src/semantic/control_view.cpp:877-885 | afterwards every block is in a region |
| Regions.Build | src/semantic/control_view.cpp:600-885 | every block of the order is in a region that was found; sequences are linear and disjoint; linked blocks are in one sequence |
| Regions.RunIsLinear | src/semantic/control_view.cpp:839-851 | in a sequence an edge leaves a block if and only if it enters the next |
| Regions.EnteredAtHead | src/semantic/control_view.cpp:836-866 | every walk that starts outside a sequence enters it at its head and passes through it in order |
| Regions.LeftAtEnd | src/semantic/control_view.cpp:836-866 | every walk in a sequence goes on to its end unless it stops |
| Simplify.SpelledUnique | src/emit/agent_json.cpp:70-76 | no two expressions are spelled alike |
| Simplify.CollapseFinds | src/emit/agent_json.cpp:94-105 | unless it misfires, the collapse finds exactly the maskings that keep all bits of the new mask |
| Simplify.BetweenBrackets | src/emit/agent_json.cpp:94-105 | with two bracketed operands, it finds something exactly if the second is such a masking |
| Simplify.RewrittenTerm | src/emit/agent_json.cpp:106-129 | constant folding, doubling, tripling and adding a negative constant keep the value in 64-bit arithmetic that wraps |
| Simplify.SimplifiedTerm | src/emit/agent_json.cpp:78-130 | unless the collapse misfires, the result is the text of an expression with the value of the operation, for all values of the words |
| Simplify.SimplifiesUnlessMisfiring | src/emit/agent_json.cpp:78-130 | that is so if and only if it does not misfire |
| Simplify.MisfireExample | src/emit/agent_json.cpp:94-105 | masking `(a \| b) + (y & 16)` with 16 gives `(a \| b) + (y) & 16` |
| Simplify.MisfireValues | src/emit/agent_json.cpp:94-105 | for a = 15, b = 0, y = 1 the operation gives 0, and neither reading of that text does |
| Protocol.OmissionShorter | benchmarks/airece_bench/lmstudio.py:669-676 | what stands for a long result is shorter than the result |
| Protocol.Fit | benchmarks/airece_bench/lmstudio.py:650-684 | compaction ends; the request sent is the one with the fewest omissions that fits; if there is none, none of the others fits either |
| Protocol.RunJsonProtocol | benchmarks/airece_bench/lmstudio.py:636-776 | at most the allowed calls and three turns more; no request above the limit; tools only while there are any left, each result in full in the transcript; the first reply after exhaustion ends the run |
| Protocol.AfterDuplicate | benchmarks/airece_bench/lmstudio.py:748-757 | a corollary of the run's order: after a duplicate result there is at most one more request, without tools, and no call |
| Protocol.AfterLastCall | benchmarks/airece_bench/lmstudio.py:636-640 | another one: nor is there after the last allowed call |
| Paging.StableSort | src/semantic/compact_view.cpp:1040-1051 | a permutation of the positions, ordered by key, with equal keys in their order |
| Paging.AscendingStays | src/semantic/compact_view.cpp:1040-1051 | what ascends already is not reordered by stable sorting |
| Paging.KeptCalls | src/semantic/compact_view.cpp:765-773 | of the calls exactly those on the page are kept |
| Paging.Collect | src/semantic/compact_view.cpp:723-980 | statements in block order with their evidence; kept and omitted calls make up the total |
| Paging.ArrangedInOrder | src/semantic/compact_view.cpp:1025-1060 | statements follow the block order, and returns, traps and faults come last in their block |
| Paging.CutOff | src/semantic/compact_view.cpp:1062-1075 | the branches and calls that are cut off are counted |
| Paging.Build | src/semantic/compact_view.cpp:1025-1100 | the view is the beginning of the arrangement; evidence stays with its statement; shown and omitted calls make up the total; calls are shown from the offset on without gaps, and exactly those behind fewer calls of the page and other statements than the limit |
| Paging.CallOfPage | src/semantic/compact_view.cpp:1036-1060 | in the order of the view a call of the page stands behind the earlier calls of the page and the other statements that sorting puts in front of it, whatever calls are left out |
| Paging.FollowPages | src/emit/semantic_text.cpp:118-122 | following the printed offsets visits the calls one after the other, each once, and exactly those that the first page shows or that have fewer other statements in front of them than the limit of the next pages; all of them if and only if this is so of all |
| Paging.SameLimits | src/emit/semantic_text.cpp:118-122 | with the same limits on all pages only the latter counts |
| Paging.CallIsNeverShown | src/emit/semantic_text.cpp:118-122 | behind 128 other statements a call is never visited with default limits |
| Evidence.Candidates | benchmarks/airece_bench/lmstudio.py:49-79 | the candidates are exactly the complete results that no earlier event has and that are no listing beside a baseline; all other events are counted as omitted |
| Evidence.SortedByPriority | benchmarks/airece_bench/lmstudio.py:74-81 | the order has every candidate once, by priority and within a priority by call |
| Evidence.PickedIfFits | benchmarks/airece_bench/lmstudio.py:80-85 | a record is picked if and only if it fits with those picked before it |
| Evidence.CompactToolEvidence | benchmarks/airece_bench/lmstudio.py:46-88 | the selection is in call order and within the budget, every event is selected or counted as omitted, and going by priority each candidate is selected if and only if it fits with those selected before it |

## Left out

- TaintVerdict.DirectedTaint: points that resolve to no node, with which the code fails, are left out; how many walks an interrupted search lists is stated only for a search interrupted at once.
- TaintLimits.NoFlowIsRight: no flow is taken as an uninterrupted complete query answers it; a state budget makes some of these queries incomplete instead.
- OffsetMeaning.OffsetMeaning: speaks of executions in which the arguments on the trail were passed, and takes it that known constants are right in the bits of their values.
- Simplify.RewrittenTerm: signed overflow in constant folding is undefined in the source and wraps here.
- Simplify.SimplifiesUnlessMisfiring: spellings of the same number are not told apart, so equal operands that are spelled differently count as equal here and are folded with the same value there.
- Regions.Build: asks that the analysis lists no block twice; conditions, joins, cases, induction variables and the kinds of branch regions are left out.
- A load is taken to do nothing but read: whether a load is safe to move asks only if it is volatile or atomic, so one with a write or barrier effect of its own is outside the model.
- Paging.Build: the text, addresses and identifiers of statements are contents without structure.
- The exactness flag of byte ranges: a flip of it is not reported as a change, so closure is stated on value, key and depth only.
- Transform labels of tags and influences.
- The symbolic mode of flow queries, and everything that XAIR, Zydis and Z3 compute.
- How selectors resolve to values and nodes, and how a callee is found; the model is given both.
- `resolved_storage_offset`'s fallback for values without a recovered offset; the flow model is given its results.
- The spelling of leaves, addresses, literals and indirect callees, source spans and confidence, and caller-given names of values in expressions.
- The final generation and repair phase of the protocol, and usage accounting; in the evidence for it, digests, repetition marks and encoded sizes are parameters.
- Induction-variable recovery, pseudocode, interpretation of x86 instructions, and cutting of rendered texts to a byte limit.
- Names and argument identities carried through block parameters in the compact view.
- Threads and mutexes: caches are used by one caller at a time.
- Command lines, files, the network, API models, corpus and scoring code.
