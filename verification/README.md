# Verification of Predator's and Forester's core algorithms

This project models seven self-contained algorithms of the Predator / Forester / Code Listener code base and proves them
correct with Dafny 4.11. `dafny verify dfyconfig.toml` checks all of it. Code that changes objects step by step is a
class or a method with loops here, proved against a specification written as functions and predicates; what the
algorithm is for is then proved about that specification.

## What is modelled

**Inclusion of tree automata** (`TreeAutomata`, `StateCache`, `Buckets`, `Antichain`, `Odometer`, `RenamedUnion`,
`InclusionRuns`, `InclusionVerdicts`, `Inclusion`, `DroppedFinals`, `RepeatedChildren`). A worklist of pairs of a state
of one automaton and a set of states of the other, of which only the minimal ones are kept. The sets are shared and
counted; comparisons of sets are memoised under their addresses and forgotten when an address is given up, so that it
may be handed out again. Successors are met through an index that lists a transition under the first occurrence of each
child state, by an odometer over the stored sets. Both automata are copied into one, under new numbers, before.

Proved, when no left-hand side of the left automaton lists a state twice: the pruned search ends, and answers whether
both inclusion and tracking hold of the two parts of the union that it runs on, where tracking means that the right
automaton labels every tree that the left one labels; for a trim left automaton that is exactly inclusion
(`Inclusion.CheckUnion`). But the copy of the left automaton has lost its final states, so as it is called the check
answers exactly whether the right automaton tracks the left one (`Inclusion.Subseteq`). Negative answers are right for
trim left automata. Affirmative ones mean inclusion, whatever is on the left, if and only if the right automaton accepts
every tree that it labels (`AffirmsInclusionIff`).

The condition on left-hand sides is exact, left-hand side by left-hand side: `AffirmsRightlyIffDistinct` says that
affirmative answers can be relied on, whatever the automata in which no other left-hand side repeats a state, if and
only if the left-hand side does not either; this holds of the check as written, and would of one that keeps final
states. For every left-hand side that repeats a state there are two automata on which the check itself affirms although
neither tracking nor inclusion holds (`MisledVerdict`).

**Unification of points-to nodes** (`PointsToGraph`, `PointsToUnify`, `PointsToConstraints`, `PointsToPhase1`). Nodes
with one successor at most are joined until successors agree. Proved: the result is the quotient by the least
equivalence that has the given pair and relates the successors of related nodes. Handling all pointer assignments and
returns of a function once leaves a graph that abstracts every run of them, in any order and with any repetition, from
any memory that it abstracts, where each assignment between pointers is executed, whatever its access paths; and that is
the least of all graphs that meet their constraints, so nothing is merged that does not have to be.

**Variable killer** (`Liveness`, `Execution`, `VarKiller`, `KillCommit`, `KillerRuns`). The backward fixed point is
exactly liveness by paths; an instruction kills exactly what it touches and no path after it needs. What instructions
read and write is defined apart from the killer, by where access paths lead; the events that the killer sees tell the
same of plain operands (`EventsTell`), and along a path with constant indices they do so for all aliases if and only if
the path is plain (`PathTellsIff`). With plain operands, runs with the kills, whatever killed variables come to hold,
read the same values, go the same way and do the same to everything else as runs without; nothing is killed twice
without being touched in between. The ordered walk that adds kills on branches for untouched variables stops when the
branch's own set is exhausted: `EdgeKillsComplete` says exactly when it misses one, `UntouchedFugitiveSurvives` shows a
graph on which it does.

**Root graph of a forest automaton** (`RootGraph`, `RootTraversal`, `Signatures`, `BackwardMaps`, `CutpointMerge`,
`ConnectionGraphs`, `Normalization`). The traversal goes forward along signatures and climbs backward along one selector
at a time, and yet visits the least set closed under edges both ways; it lists every root once, marks those not referred
to exactly once, and marks none without a reason. Backward maps stay the exact inverse of the signatures of the forest's
roots under every operation, including the merge of a root into the only one that refers to it, where the lower of two
selectors wins and `MergedRecord` tells what the merged signature says of each root. The whole normalization (scan,
merging, renumbering) keeps that, what the scan delivers is what the merging needs, kept roots are numbered in the order
given, and a root kept refers to just those kept roots to which references led before, if need be through roots merged.

**Loops and jumps** (`BlockGraph`, `LoopScan`, `LoopAnalyser`, `JumpThreading`, `JumpFinalize`). Both depth-first
searches mark edges, or blocks, on every reachable cycle and on cycles only, the first although it tracks only blocks
with several ways in. Compiled code starts every marked block with an instruction that is no jump, so resolving chains
of jumps ends, and the resolved code does what the blocks do, in the same order, for any outcomes of conditions.

**Switch unfolding** (`Labels`, `SwitchEvents`, `CallbackGrammar`, `Unswitch`, `SwitchSandwich`, `SwitchPassage`,
`SwitchMeaning`). A filter turns a switch into comparisons and branches with labels of its own, between two filters that
rename labels. Proved: a stream in order, with labels in order, comes out in order, with labels in order, where order is
that of nested files, functions, blocks, calls and switches (`InOrderIffNested`); callbacks that belong to no switch come
out once each, in order, with labels replaced one to one; and for every value the comparisons lead to the label of the
first case whose range has the value, or else to the default, wherever that stood, and so does the stored table.

**Box store and configuration strings** (`BoxStore`, `ConfigParser`). The store keeps an antichain under each signature,
covers all that it covered, and counts what it holds until it is cleared. The parser accepts a string if and only if it
is a list of bindings as printed, and gives each key its last value.

## Where the code differs from what it is said to do

- The inclusion check does not decide inclusion. It passes an offset where `renamedUnion` hands on whether final states
  are to be copied (`fa/treeaut.hh:1582`, `fa/treeaut.hh:1462`); the offset is 0, so the left automaton has no final
  states in the union, and what either automaton accepts makes no difference to the answer. `DroppedVerdict` is an
  input on which it affirms although a leaf is accepted by the left automaton only; `AffirmsInclusionIff` says for which
  right automata affirmative answers mean inclusion all the same.
- It is sound, in either sense, only for left-hand sides without repeated states (`AffirmsRightlyIffDistinct`).
- It answers negatively also when the second automaton cannot label a tree that takes part in accepting none
  (`DeadStateUntracked`).
- Per-target kills are not complete (see above).
- Reading a field through a pointer whose target is known does not count as a read of the target, so the target can be
  killed before (`HiddenReadHarmed`); a second dereference, or writing an array element through such a pointer, is not
  told rightly either. `PlainPath` says which access paths are (`PathTellsIff`).
- The filter that checks the order of callbacks takes the closing of a function for the opening of a file and the other
  way round (`ClosedForOpened`); apart from that it accepts just what is nested.
- A second default of a switch traps in the storage and wins in the unfolding (`SecondDefaultWins`).
- Clearing the box store leaves its counter alone, so the reported size is right only if the store was empty
  (`BoxStore.BoxAntichain.Clear`).
- What `visit` tests after climbing, whether it came back to the root it started from, cannot be: that root is visited,
  and climbing leads over roots not visited (`RootTraversal.Traversal.VisitAncestor`).

## Model

| member | source | states |
|---|---|---|
| Inclusion.Subseteq | fa/antichainext.hh:184-300 | ends with an answer that the search on the union can give; without repeated child states the answer is exactly whether the right automaton labels every tree that the left one labels; a negative one comes with a tree that only the left one labels; a trim automaton that is included gets an affirmative one |
| Inclusion.CheckUnion | fa/antichainext.hh:193-300 | on any union: an affirmative answer rests on a saturated set of harmless elements, a negative one on a tree that tells the two parts apart; without repeated child states it is exactly inclusion and tracking of the parts, and for a trim left part exactly inclusion |
| RenamedUnion.RenamedUnion | fa/treeaut.hh:1571-1584 | the union has a copy of the first automaton with its final states, and behind it one of the second, with its final states only if an offset other than 0 was given |
| RenamedUnion.Reduce | fa/treeaut.hh:1457-1480 | adds the transitions of one automaton under the numbers of the index, states being numbered as they are met, and its final states exactly if that is asked for |
| RenamedUnion.Index.TranslateOTF | fa/utils.hh:100-103 | the number of a state, where a state met for the first time gets the next one |
| RenamedUnion.Index.TranslateAll | fa/utils.hh:120-128 | the numbers of the states of a left-hand side, from an offset on |
| RenamedUnion.NumberedKeeps | fa/utils.hh:100-103 | numbers given stay as they are; all are different, without gaps, and exactly the states met have one |
| RenamedUnion.UnionParts | fa/treeaut.hh:1571-1584 | the transitions into states from the size of the first copy on are the copy of the second automaton, the others that of the first |
| RenamedUnion.StatesCounted | fa/treeaut.hh:598-613 | the states that occur in the union are as many as both automata have, so they are just the numbers below that |
| RenamedUnion.CopyReaches | fa/treeaut.hh:1457-1480 | where an automaton gives a tree a state, its copy gives it the number of the state |
| RenamedUnion.CopyReachesOnly | fa/treeaut.hh:1457-1480 | whatever a copy gives a tree is the number of a state that the automaton gives it |
| RenamedUnion.CopyAccepts | fa/treeaut.hh:1457-1480 | a copy accepts what the automaton accepts if it has the final states, and otherwise nothing |
| RenamedUnion.CopiesTrack | fa/treeaut.hh:1571-1584 | one automaton tracks another if and only if the copies do, final states or not |
| InclusionVerdicts.VerdictMeans | fa/antichainext.hh:184-300 | without repeated child states an answer on the union is affirmative if and only if the right automaton tracks the left one, and includes it in case the final states are kept |
| InclusionVerdicts.VerdictAsWritten | fa/antichainext.hh:184-300 | without the final states of the left automaton: exactly tracking; a negative answer has a tree that only the left one labels, and is right for a trim left automaton |
| InclusionVerdicts.VerdictWithFinals | fa/antichainext.hh:184-300 | if the union kept all final states, the answer would be inclusion and tracking, and inclusion alone for a trim left automaton |
| InclusionVerdicts.VerdictExists | fa/antichainext.hh:184-300 | any two automata have a union and an answer on it, so what is said of answers is never empty |
| DroppedFinals.AffirmsInclusionIff | fa/treeaut.hh:1571-1584 | affirmative answers mean inclusion for all left automata without repeated child states, if and only if the right automaton accepts every tree that it labels |
| DroppedFinals.DecidesInclusion | fa/antichainext.hh:184-300 | for such right automata and trim left ones without repeated child states the check as written decides inclusion |
| DroppedFinals.DroppedVerdict | fa/antichainext.hh:184-300 | the check affirms on a trim automaton that accepts one leaf and one that labels it and accepts nothing |
| DroppedFinals.RejectedTree | fa/treeaut.hh:1571-1584 | every tree that the right automaton labels and does not accept makes a left automaton that is tracked and not included |
| DroppedFinals.TreeAutomatonMeans | fa/treeaut.hh:1571-1584 | the automaton with a state for each node of a tree accepts that tree only, and labels only its subtrees |
| InclusionRuns.VerdictMeaning | fa/antichainext.hh:184-300 | if an affirmative verdict rests on a saturation and a negative one on a distinguishing tree, then without repeated child states the verdict is inclusion and tracking, and inclusion alone for a trim left automaton |
| Inclusion.AntichainExt.Run | fa/antichainext.hh:235-300 | the whole check is a search from the leaves on, answered affirmatively when nothing is pending any more, negatively at a harmful leaf or tuple |
| Inclusion.AntichainExt.Start | fa/antichainext.hh:235-254 | a leaf refutes inclusion, or the elements of all leaves are offered to an empty store |
| Inclusion.AntichainExt.Continue | fa/antichainext.hh:258-299 | goes on until nothing is pending or a round refutes inclusion, and is a search up to that moment |
| Inclusion.AntichainExt.RunRound | fa/antichainext.hh:258-298 | one round files an element of the lowest state and offers its successors, which continues the search and comes closer to its end, or finds a harmful tuple |
| Inclusion.AntichainExt.Pick | fa/antichainext.hh:258-296 | files a pending element of the lowest state and meets all tuples with it at an indexed place, or finds one whose successor is not harmless |
| Inclusion.AntichainExt.MeetElement | fa/antichainext.hh:260-296 | for every transition listed under the state, all combinations with the element there are met, their successors collected and harmless; or one of them is not |
| Inclusion.AntichainExt.MeetRow | fa/antichainext.hh:265-295 | for the transitions listed at one child position, all combinations with the element there are met, or a successor that is not harmless is found |
| Inclusion.AntichainExt.MeetTransition | fa/antichainext.hh:266-295 | for one transition, all combinations of processed elements with the picked one in its place are met; a label unknown to the right automaton, or a successor that is not harmless, refutes |
| Inclusion.AntichainExt.MeetCombinations | fa/antichainext.hh:274-294 | the odometer meets every combination, or one whose successor is not harmless |
| Inclusion.AntichainExt.MeetCombination | fa/antichainext.hh:276-290 | the successor over the current combination, refused exactly if it is empty or only the left automaton accepts there |
| Inclusion.AntichainExt.NewElement | fa/antichainext.hh:276-282 | the states that the listed transitions fire into, and whether only the left automaton accepts |
| Inclusion.AntichainExt.LeafElement | fa/antichainext.hh:244-247 | the states that the right automaton gives a leaf, and whether only the left one accepts it |
| Inclusion.AntichainExt.MeetLeaves | fa/antichainext.hh:237-253 | the elements of all leaves of the left automaton, each harmless; or there is a leaf whose element is not, as when the right automaton lacks the label |
| Inclusion.AntichainExt.SimInsert | fa/antichainext.hh:38-58 | a state simulated by one there changes nothing; else it replaces those it simulates and clears the flag if it accepts |
| Inclusion.AntichainExt.SortTransitions | fa/antichainext.hh:209-233 | the transitions of the union are told apart by the states they lead to; the index lists each transition under its child states at their first places; leaves and the rest are found by label |
| Inclusion.AAddTransition | fa/antichainext.hh:62-76 | the transition is added to the rows of exactly the first places of its child states |
| Inclusion.AddedIndexed | fa/antichainext.hh:62-76 | after adding a transition the index still lists each transition exactly at the first places of its child states |
| Inclusion.AllCombinationsMet | fa/antichainext.hh:265-295 | having met all combinations means having met all tuples of processed elements with the picked one in its place |
| Inclusion.CombinationIsTuple | fa/antichainext.hh:137-161 | every laid out combination is a tuple of processed elements that has the picked set in its place |
| Inclusion.TupleIsCombination | fa/antichainext.hh:137-161 | every tuple of processed elements with the picked set in its place is one of the laid out combinations |
| Inclusion.RowsMeetAll | fa/antichainext.hh:262-296 | having met the rows listed for a state means having met every transition at each first place of that state |
| Inclusion.PostOfFound | fa/antichainext.hh:270-282 | the transitions found under a label fire into the same states as all transitions of the right automaton |
| InclusionRuns.RoundProgress | fa/antichainext.hh:258-298 | a round keeps that every anchored tuple over the processed elements is covered, all elements harmless and witnessed |
| InclusionRuns.TurnShrinks | fa/antichainext.hh:258-298 | a round leaves fewer elements that nothing stored covers, or as many and fewer pending, so the loop ends |
| InclusionRuns.AnswerRests | fa/antichainext.hh:184-300 | an affirmative answer of any search rests on a saturation by the tuples met, a negative one on a tree that tells the automata apart |
| InclusionRuns.SearchProgresses | fa/antichainext.hh:258-298 | at every moment of a search the processed elements are closed under the tuples met so far, up to what is pending, harmless, and stem from trees |
| InclusionRuns.SearchGoesOn | fa/antichainext.hh:258-298 | a search with something pending is refuted or can go on, and comes closer to its end |
| InclusionRuns.SearchAnswers | fa/antichainext.hh:184-300 | every pair of automata has an answer, so what is said of answers is never empty |
| InclusionRuns.OfferedShrinks | fa/antichain.hh:198-211 | offers leave both stores as they are, or strictly shrink the finite set of elements that nothing stored covers |
| InclusionRuns.OfferedCovers | fa/antichain.hh:198-211 | an element covered before the offers, or among them, is covered after them |
| Odometer.ResponseExt.Get | fa/antichainext.hh:137-161 | lays out the processed sets of each child state, one of them fixed; fails exactly if a child state has none |
| Odometer.ResponseExt.Next | fa/antichainext.hh:163-171 | goes to the combination with the next rank, or after the last one turns back to the first and says so |
| Odometer.ResponseExt.Match | fa/antichainext.hh:173-181 | true exactly if the transition fires over the sets of the current combination |
| Odometer.RankInjective | fa/antichainext.hh:104-171 | no two rows of positions have the same rank, so that counting through the ranks meets every combination exactly once |
| Odometer.RankCarry | fa/antichainext.hh:111-117 | turning back the first positions and advancing the next adds one to the rank |
| Odometer.RankOfLast | fa/antichainext.hh:163-171 | a row with all positions at their ends has the last rank, so that nothing is missed when the odometer turns back |
| TreeAutomata.SaturationProvesInclusion | fa/antichainext.hh:184-300 | a set of harmless elements closed under successors proves inclusion and tracking |
| TreeAutomata.SaturationCoversTree | fa/antichainext.hh:184-300 | a set of elements closed under successors has, for each tree and each state the left automaton gives it, an element whose set the right automaton reaches with that tree |
| TreeAutomata.SuccessorWitnessed | fa/antichainext.hh:274-294 | the successor of elements that stem from trees stems from a tree |
| TreeAutomata.HarmfulWitnessDistinguishes | fa/antichainext.hh:283-290 | an element that is not harmless and comes from a tree yields a tree that tells the automata apart |
| TreeAutomata.DistinguishedMeansNot | fa/antichainext.hh:184-300 | a distinguishing tree exists if and only if inclusion or tracking fails |
| TreeAutomata.EveryTupleMetIffDistinct | fa/antichainext.hh:62-76 | listing a left-hand side under first occurrences meets every tuple, whatever is processed that the store may hold and in whatever order, if and only if it repeats no state |
| TreeAutomata.LinearMeetsAll | fa/antichainext.hh:62-76 | for left-hand sides without repetition, closure under the tuples met is closure under all |
| RepeatedChildren.AffirmsRightlyIffDistinct | fa/antichainext.hh:62-76 | for every left-hand side: an affirmative answer means tracking, and inclusion if final states are kept, in all automata in which no other left-hand side repeats a state, if and only if it repeats none |
| RepeatedChildren.MisledVerdict | fa/antichainext.hh:184-300 | for every left-hand side that repeats a state the check answers affirmatively on two automata, although the left one accepts a tree that the right one does not even label |
| RepeatedChildren.MisledAnswer | fa/antichainext.hh:184-300 | the search on the union of such automata cannot end otherwise, in whatever order their transitions are listed and with or without final states |
| RepeatedChildren.NeverRefuted | fa/antichainext.hh:62-76 | however the states of such automata are numbered and the search goes, it is not refuted |
| RepeatedChildren.MetLabelled | fa/antichainext.hh:66-75 | the one tuple that is not labelled has its last processed element at a place that is not indexed, so it is never met |
| RepeatedChildren.SearchCalm | fa/antichainext.hh:258-298 | the second set of the repeated state is stored only after the first one and those of all other states of the left-hand side were processed |
| RepeatedChildren.MisledTree | fa/antichainext.hh:184-300 | a tree that the left one of these automata leads to its final state and that the right one does not label |
| TreeAutomata.TrimInclusionTracks | fa/antichainext.hh:287-290 | for a trim left automaton inclusion forces tracking, so the exit at an empty set is right |
| TreeAutomata.DeadStateUntracked | fa/antichainext.hh:241-243 | with a state that helps accept nothing, inclusion can hold while tracking fails |
| Antichain.Antichain.constructor | fa/antichain.hh:177-182 | a new store over a preorder is valid and empty, with a cache and a memo table of its own |
| Antichain.Antichain.Lte | fa/antichain.hh:55-77 | the answer, memoised or not, is the true relation of the two live sets |
| Antichain.Antichain.Check | fa/antichain.hh:90-102 | true exactly if some element of the given store is below the given one |
| Antichain.Antichain.DropIfAbove | fa/antichain.hh:131-136 | drops a listing exactly if the given element is below it, and releases its reference; counts keep being the numbers of listings |
| Antichain.Antichain.RefineBucket | fa/antichain.hh:131-136 | leaves of a bucket, in order, exactly the listings that the given element is not below; references are conserved |
| Antichain.Antichain.RefineState | fa/antichain.hh:128-138 | the same for the bucket of a state, which is forgotten when it becomes empty |
| Antichain.Antichain.Refine | fa/antichain.hh:126-140 | leaves in the whole store exactly the elements that the given one is not below; references are conserved, no bucket is empty, the other store is untouched |
| Antichain.Antichain.Hold | fa/antichain.hh:200-200 | takes a reference for the caller, counted as such; stored elements stay the same |
| Antichain.Antichain.Discard | fa/antichain.hh:203-203 | gives the caller's reference back, freeing the set with the last one; stored elements stay the same |
| Antichain.Antichain.Replace | fa/antichain.hh:206-209 | the element becomes pending with the reference held, and what it is below is gone from both stores |
| Antichain.Antichain.Admit | fa/antichain.hh:199-210 | stores exactly what nothing stored is below; counts are conserved and the stores an antichain |
| Antichain.Antichain.Update | fa/antichain.hh:184-211 | after a number of offers: everything covered before is covered, all offered elements are covered, nothing else came in, and the stores are the same if all was covered |
| Antichain.Antichain.NextElement | fa/antichain.hh:230-237 | moves the first listing of the lowest state that has one from the pending to the processed elements, or says that none is pending; references and antichain are kept |
| Buckets.AdmitIncomparable | fa/antichain.hh:198-211 | removing what a new element is below and then storing it keeps an antichain, if nothing stored is below it |
| Buckets.AdmitCovers | fa/antichain.hh:198-211 | and everything covered before is covered afterwards, as is the new element |
| Buckets.OfferOne | fa/antichain.hh:199-210 | what a number of offers may do is kept by admitting one element more |
| Buckets.DropCounted | fa/antichain.hh:131-136 | dropping a listing and releasing its reference keeps every count equal to the number of listings |
| Buckets.TakeReference | fa/antichain.hh:200-200 | taking a reference for the caller keeps counts equal to listings and held references, verdicts true, elements the same |
| Buckets.GiveBackReference | fa/antichain.hh:203-203 | giving it back does so too; an entry freed by it is listed nowhere |
| Buckets.MoveMinimal | fa/antichain.hh:230-237 | moving the first listing of the lowest bucket between the stores conserves all counts, the antichain, and that no bucket is empty |
| Buckets.ReleaseCoherent | fa/antichain.hh:153-167 | after a release every remembered verdict is still about live sets and true of them |
| StateCache.CachedBinaryOp.Lookup | fa/cache.hh:145-155 | answers from the table, or computes and records; the index lists exactly the pairs that mention a key |
| StateCache.CachedBinaryOp.Invalidate | fa/cache.hh:121-130 | removes exactly the verdict about one pair; the index lists exactly the pairs that mention a key |
| StateCache.CachedBinaryOp.InvalidateKey | fa/cache.hh:132-143 | removes exactly the verdicts about pairs that mention the key, and the key from the index |
| StateCache.Cache.Lookup | fa/cache.hh:70-73 | one address per stored set; one reference more, or a new entry at any address not in use |
| StateCache.Cache.AddRef | fa/cache.hh:75-78 | raises the count of one entry and changes nothing else |
| StateCache.Cache.Release | fa/cache.hh:80-90 | one reference less; with the last one the entry is freed, after the listener forgot its address |
| PointsToUnify.JoinFixPointS | cl/pointsto.cc:131-148 | ends with the quotient by the least congruence that relates the pair, and nothing left to be joined |
| PointsToUnify.JoinPending | cl/pointsto.cc:137-143 | one join keeps the graph a quotient up to the one pending pair, and gets closer to the end |
| PointsToUnify.JoinPartial | cl/pointsto.cc:150-238 | absorbing one node, in all its cases, leaves a quotient but for the pair of successors it leaves to be joined |
| PointsToUnify.JoinOutcome | cl/pointsto.cc:131-238 | after a join twice the live nodes plus the pending pairs have become less, and the graph is a quotient but for what is pending |
| PointsToUnify.JoinForced | cl/pointsto.cc:150-238 | every congruence that relates the two joined nodes also relates the pair that the join leaves |
| PointsToUnify.KernelCongruence | cl/pointsto.cc:131-238 | when nothing is pending, the identified nodes form an equivalence that relates successors of related nodes |
| PointsToUnify.KernelLeast | cl/pointsto.cc:131-238 | every congruence with the given pair identifies at least what was identified: nothing else is merged |
| PointsToGraph.BuildCtx.JoinNodesS | cl/pointsto.cc:150-238 | absorbs one node: its items, the edges into and out of it, self-loops and mutual edges included, and the pair of successors left over |
| PointsToGraph.BuildCtx.AbsorbEdges | cl/pointsto.cc:166-237 | all edges into and out of the absorbed node are turned to the other, and two successors are left to be joined |
| PointsToGraph.BuildCtx.AbsorbItems | cl/pointsto.cc:162-164 | the items of the absorbed node live in the other, all others stay where they are |
| PointsToGraph.BuildCtx.TakeEdges | cl/pointsto.cc:166-209 | edges into the absorbed node lead to the other, the edge out of it is taken away and reported; both edge sets keep telling the same edges |
| PointsToGraph.BuildCtx.SettleOutput | cl/pointsto.cc:211-237 | the other node gets the successor if it has none; otherwise the two successors are left to be joined, a self-loop being turned first |
| PointsToGraph.Graph.HarvestEdges | cl/pointsto.cc:168-182 | takes out exactly the edges at a node and lists each of them once |
| PointsToGraph.Graph.RedirectEdges | cl/pointsto.cc:195-209 | puts the listed incoming edges back to the other node and reports the outgoing one |
| PointsToGraph.Graph.MoveVariables | cl/pointsto.cc:162-164 | every item listed by one node is mapped to the other and listed there; other lists stay |
| PointsToGraph.Graph.AddEdge | cl/pointsto.cc:46-50 | both edge sets gain exactly the one edge |
| PointsToGraph.Graph.ClearEdgeS | cl/pointsto.cc:52-61 | both edge sets lose exactly the one edge |
| PointsToGraph.Graph.GetOutputS | cl/pointsto.cc:364-369 | finds the one successor, if the node has one |
| PointsToGraph.Graph.BindItem | cl/pointsto.cc:112-129 | the item is mapped to the node and listed there once |
| PointsToGraph.Graph.AllocNodeForItem | cl/pointsto.cc:283-294 | a node not used before, with the item as its only one; nothing else changes |
| PointsToPhase1.FicsPhase1 | cl/pointsto_fics.cc:532-547 | a function handled once: fails exactly on what cannot be handled; else, for every run from a memory that the graph abstracts, in which each assignment between pointer-related variables and each return of one is executed, what may point is in the graph, and the graph is the least that meets all constraints |
| PointsToPhase1.MayPointMeans | cl/pointsto_fics.cc:532-547 | in the resulting graph one item may point to another if and only if it does so in every graph that meets all constraints |
| PointsToPhase1.Phase1Block | cl/pointsto_fics.cc:532-547 | the instructions of a block in order: fails exactly if one of them cannot be handled; else all their constraints and all earlier ones hold, and nothing was added that they do not need |
| PointsToPhase1.Phase1HandleInsn | cl/pointsto_fics.cc:378-471 | meets the constraint of the instruction, breaks none, adds or merges nothing that the constraint does not need; when it fails and when it changes anything |
| PointsToPhase1.HandleAssign | cl/pointsto_fics.cc:448-466 | the constraint of an assignment, with any access paths on both sides, holds afterwards; earlier ones still do; every graph that meets it and has what was there before has all that is there now |
| PointsToPhase1.HandleRet | cl/pointsto_fics.cc:409-426 | the same for a returned pointer, as an assignment to the item of the function; nothing is done if both nodes are one |
| PointsToPhase1.ConnectS | cl/pointsto_fics.cc:452-465 | the nodes of both sides agree afterwards; wherever they could agree before, there is place for the new graph |
| PointsToPhase1.PrepareS | cl/pointsto_fics.cc:452-462 | the two sides agree already, or the one pair that would make them agree is left to be joined |
| PointsToPhase1.Settle | cl/pointsto_fics.cc:465-465 | runs the pending join, if there is one, and makes the two sides agree |
| PointsToPhase1.NodeAccessS | cl/pointsto.cc:384-425 | follows an access path, making only the nodes that it needs; parts are skipped and a reference ends it |
| PointsToPhase1.AppendNodeS | cl/pointsto.cc:353-362 | makes a node the successor of another, or leaves it to be joined with the successor there |
| PointsToPhase1.PreventEndingS | cl/pointsto.cc:100-109 | the node has a successor afterwards, a new one only if it had none |
| PointsToPhase1.AppendEmptyS | cl/pointsto.cc:376-382 | a new node becomes the successor; nothing else changes |
| PointsToPhase1.GetNode | cl/pointsto.cc:313-321 | the node of an item, a new one only if the item had none |
| PointsToPhase1.ExecutionAbstracted | cl/pointsto_fics.cc:429-466 | executing an assignment whose constraint holds keeps the graph an abstraction of the memory |
| PointsToPhase1.RunAbstracted | cl/pointsto_fics.cc:502-551 | if the constraints of all instructions hold, a graph that abstracts the memory at the start abstracts it after any number of steps, in any order |
| PointsToPhase1.RunsMayPoint | cl/pointsto_fics.cc:502-551 | whatever address is in a variable at the end of a run from a memory that the graph abstracts, its item is listed by the node that the variable's node points to |
| PointsToPhase1.QuotientKeepsPrivate | cl/pointsto.cc:131-238 | joining other nodes leaves the node of the return value apart from all others |
| PointsToConstraints.MorphismSatisfied | cl/pointsto_fics.cc:429-466 | a constraint met by a graph is met by every graph grown or merged from it, so later joins break none |
| PointsToConstraints.AssignmentNeeded | cl/pointsto_fics.cc:448-466 | what handling an assignment adds or merges is there in every graph that meets its constraint |
| PointsToConstraints.StepNeeded | cl/pointsto.cc:402-410 | a successor made on an access path is there in every graph in which the path leads somewhere |
| PointsToConstraints.QuotientPlaced | cl/pointsto.cc:131-148 | the quotient goes into every graph that identifies the two joined nodes |
| PointsToConstraints.JoinNeeded | cl/pointsto_fics.cc:459-465 | every graph in which the two sides agree identifies what the join identifies |
| KillCommit.AnalyzeFnc | cl/killer.cc:598-636 | the fixed point is exactly liveness by paths, and the kills planted are those of the plan |
| KillCommit.CommitBlocks | cl/killer.cc:631-635 | every block gets exactly the kills of the plan |
| KillCommit.BlockCommit.CommitBlock | cl/killer.cc:435-508 | each instruction kills what it touches and is not live after it; each branch kills what other targets need and its own does not, as far as the ordered walk gets |
| KillCommit.BlockCommit.CommitInsn | cl/killer.cc:358-433 | with all later instructions done, one more: what is live before it, its own kills, and for each branch what was not yet killed for all |
| KillCommit.BlockCommit.CommitVar | cl/killer.cc:383-432 | one variable touched: killed by the instruction if it was dead, on branches if only they lack it; live before it exactly if read first |
| KillCommit.BlockCommit.CommitTouched | cl/killer.cc:375-432 | the same for all variables that an instruction touches, in any order |
| KillCommit.BlockCommit.CollectLive | cl/killer.cc:445-460 | live at the end is what some target needs, and in an exit what pointers lead to; for several targets also what each needs |
| KillCommit.BlockCommit.KillVariablePerTarget | cl/killer.cc:353-354 | one kill more on one branch, the others unchanged; what is noted along with it about pointers to the variable is left out |
| KillCommit.BlockCommit.KillWhereDead | cl/killer.cc:426-431 | on each branch: killed exactly if not in the target's set, in which it is afterwards |
| KillCommit.BlockCommit.FinishTarget | cl/killer.cc:478-507 | the ordered walk kills exactly what is live, not in the target's set, and below some member of that set |
| KillCommit.BlockCommit.FinishTargets | cl/killer.cc:470-507 | after the walk for every target the kills on all branches are those of the plan |
| KillCommit.InsnKillsExactly | cl/killer.cc:383-395 | an instruction kills a variable if and only if it touches it and no path after it reads it before overwriting it |
| KillCommit.LiveFromMeans | cl/killer.cc:445-468 | what is live at a point of a block is what some path from there reads before overwriting |
| KillCommit.EdgeKillsComplete | cl/killer.cc:478-507 | a branch kills all that dies on it, if and only if the greatest variable live or touched is needed by its target or touched |
| KillCommit.UntouchedFugitiveSurvives | cl/killer.cc:484-507 | a graph in which a variable, needed by one target only, dies on the branch to the other and is not killed there |
| KillerRuns.KillsAreHarmless | cl/killer.cc:358-508 | runs of the control-flow graph: if its operands are plain, then for any number of steps a run with the kills reads the same, goes the same way and does the same to globals, heap and input, whatever killed variables come to hold |
| KillerRuns.AgreeStep | cl/killer.cc:358-508 | if two runs are at the same place, agree on what is live and share everything else, they read the same and do so again after executing the next instruction, one of them with kills |
| KillerRuns.NoDoubleKill | cl/killer.cc:406-432 | on every walk through the graph, between two kills of a variable, by instructions or on branches, some instruction touches it |
| KillerRuns.KillMeansDead | cl/killer.cc:383-432 | an instruction's kill is of something it touches that is dead after it; a branch's kill of something dead beyond the branch and not dead before it |
| KillerRuns.DeadAlong | cl/killer.cc:383-432 | a variable dead at one point of a walk is dead as long as nothing touches it |
| VarKiller.VarKiller.ComputeFixPoint | cl/killer.cc:309-325 | ends, whichever block is picked next, and then a variable is in a block's set if and only if some path from its start needs it |
| VarKiller.VarKiller.UpdateBlock | cl/killer.cc:279-307 | adds what the targets need and the block does not overwrite; schedules the predecessors exactly on a change |
| VarKiller.VarKiller.UpdateFromTarget | cl/killer.cc:286-298 | adds what one target needs and the block does not overwrite, and says whether that changed anything |
| VarKiller.VarKiller.ScanBlocks | cl/killer.cc:611-625 | every block is summarized by itself and scheduled |
| VarKiller.VarKiller.ScanBlock | cl/killer.cc:612-622 | a block's summary is that of its instructions in order, with what must stay alive at an exit |
| VarKiller.VarKiller.PresetLive | cl/killer.cc:584-596 | targets of pointers stay alive where control leaves the function, unless overwritten |
| VarKiller.UpdateKeepsWorking | cl/killer.cc:279-307 | blocks not scheduled have all their targets need, and nothing is there that no path needs |
| VarKiller.UpdateFills | cl/killer.cc:279-307 | an update changes nothing, or strictly shrinks what is missing from the solution, so the loop ends |
| VarKiller.WorkedOut | cl/killer.cc:309-325 | with nothing scheduled the sets solve the equations and are the least such: liveness by paths |
| VarKiller.BlockData.ScanInsn | cl/killer.cc:235-277 | summarizes the reads and overwrites of an instruction, operands from the last to the first |
| VarKiller.BlockData.ScanOperand | cl/killer.cc:179-233 | of an operand: its indices, its variable, the alias of what it dereferences |
| VarKiller.BlockData.ScanAccessors | cl/killer.cc:188-219 | the indices in an access path are read first; whether the path dereferences or selects a part |
| VarKiller.BlockData.ScanTarget | cl/killer.cc:161-177 | reading or overwriting through a pointer with a known alias reads or overwrites the alias |
| VarKiller.BlockData.ScanVar | cl/killer.cc:135-159 | one variable read or overwritten; writing a part of a composite is neither |
| Liveness.GenReadFirst | cl/killer.cc:135-159 | a variable is in the summary exactly if some read of it has no overwrite before it |
| Liveness.GenAppend | cl/killer.cc:235-277 | the summary of a block is the composition of those of its instructions |
| Liveness.ClosedHasPath | cl/killer.cc:309-325 | whatever sets are closed under the equations have all that some path needs |
| RootTraversal.Traversal.Visit | fa/connection_graph.cc:593-646 | visits the least set around the visited roots closed both ways, lists each new root once, leaves unmarked only new roots with exactly one reference, which counts for one, and marks no root without a reason |
| RootTraversal.Traversal.VisitForward | fa/connection_graph.cc:613-621 | after the loop over the signature all its roots are visited and marked as their references ask for |
| RootTraversal.Traversal.VisitAndMark | fa/connection_graph.cc:615-620 | visits a root referred to and marks it if the reference counts for several |
| RootTraversal.Traversal.VisitBackward | fa/connection_graph.cc:623-645 | after the loop over the backward map all roots in it are visited, which completes the contract of the visit |
| RootTraversal.Traversal.VisitAncestor | fa/connection_graph.cc:625-644 | after one climb and one visit from where it ended, the root that the selector leads back to is visited; the climb never ends at the root it started from |
| RootTraversal.Traversal.Climb | fa/connection_graph.cc:687-718 | ends at a root from which a forward path over roots not visited leads back, and which every closed set around the start has |
| RootTraversal.Traversal.VisitPlain | fa/connection_graph.cc:648-685 | the version that neither lists nor marks visits the same least set closed both ways |
| RootTraversal.Traversal.VisitBackwardPlain | fa/connection_graph.cc:665-684 | its loop over the backward map visits all roots in it |
| RootTraversal.Traversal.VisitAncestorPlain | fa/connection_graph.cc:667-683 | one selector of it, followed by climbing and visiting |
| RootTraversal.Traversal.Traverse | fa/normalization.cc:76-103 | the least closed set around what the variables refer to, listed, and marked: unmarked are roots with just one reference that counts for one, and each mark has its reason |
| RootTraversal.Traversal.TraverseFrom | fa/normalization.cc:92-101 | one more variable: the least closed set around its root too, the root marked |
| RootTraversal.Traversal.TraversePlain | fa/normalization.cc:106-125 | visits the least set closed both ways around what the variables refer to |
| RootTraversal.Traversal.CheckGarbage | fa/normalization.cc:128-159 | true exactly if some root of the forest was not visited |
| RootTraversal.Check | fa/normalization.cc:162-170 | garbage is reported if and only if a root of the forest lies outside the least closed set |
| RootGraph.LeastClosedUnique | fa/connection_graph.cc:593-685 | there is only one least closed set, so both traversals visit the same roots |
| RootGraph.FreshPathExplored | fa/connection_graph.cc:687-718 | an exploration from the start of a forward path over roots not visited gets to its end, which is why climbing to one ancestor is enough |
| RootGraph.MidwayForward | fa/connection_graph.cc:613-621 | what holds between two steps of a visit is kept by following one reference |
| RootGraph.MidwayClimbed | fa/connection_graph.cc:634-644 | what holds between two steps of a visit is kept by climbing and visiting from the root reached |
| RootGraph.MidwayDone | fa/connection_graph.cc:593-646 | what holds between two steps, with nothing left to follow, is the contract of the visit |
| RootGraph.MarksJoin | fa/connection_graph.cc:617-620 | marks that tell, of two sets of references, which new roots are referred to once tell it of both together |
| Signatures.NormalizeSignature | fa/connection_graph.cc:504-550 | in place: one record for each root, saying what all its records said together |
| Signatures.RepresentsJoined | fa/connection_graph.cc:522-546 | joining a further record gives the record that says what all of them say: capped count, all selectors, the lowest backward selector, all definitions |
| Signatures.NormalFormFirst | fa/connection_graph.cc:515-520 | appending the first record of a root keeps a normal form of what was read |
| Signatures.NormalFormJoined | fa/connection_graph.cc:522-546 | joining a further record of a root keeps a normal form of what was read |
| Signatures.DefinesStayDisjoint | fa/connection_graph.cc:541-542 | what the source asserts when it joins two records holds: they define no selector twice |
| BackwardMaps.InvalidatedExact | fa/connection_graph.cc:813-834 | erasing what a root's signature names, and its flag, keeps backward maps the exact inverse of the signatures of valid roots |
| BackwardMaps.UpdatedExact | fa/connection_graph.cc:786-810 | entering what the signature of an invalid root names, and its flag, does so too, if no selector is taken |
| BackwardMaps.InvalidateUndoesUpdate | fa/connection_graph.cc:786-834 | entering a root and making it invalid again gives back the graph as it was |
| BackwardMaps.LookupFinds | fa/connection_graph.cc:827-827 | what the source asserts before it erases an entry holds: the entry is there and leads to the root |
| BackwardMaps.ExactIsCoherent | fa/connection_graph.cc:593-685 | with exact backward maps, edges lead only within the forest, and backward only where there is a way forward: what the traversal needs |
| ConnectionGraphs.ConnectionGraph.Invalidate | fa/connection_graph.cc:813-834 | exactly the selectors that the root's signature names are gone, its flag is off, and the maps are exact |
| ConnectionGraphs.ConnectionGraph.UpdateBackwardData | fa/connection_graph.cc:786-810 | exactly the selectors that the root's signature names lead to it, its flag is on, and the maps are exact |
| ConnectionGraphs.ConnectionGraph.MergeCutpoint | fa/connection_graph.cc:392-501 | the merged signature in normal form, the maps exact for the forest without the root taken over |
| ConnectionGraphs.ConnectionGraph.HandOver | fa/connection_graph.cc:423-495 | every entry of the root taken over is handed on with the selectors of the reference, and every backward map has its selector moved or dropped |
| ConnectionGraphs.ConnectionGraph.MoveSelector | fa/connection_graph.cc:440-493 | one backward selector of the root taken over: dropped if the reference has none, else handed on, the lower of two competing ones staying |
| ConnectionGraphs.ConnectionGraph.FindTo | fa/connection_graph.cc:467-475 | finds a selector that leads to the given root, if there is one |
| ConnectionGraphs.ConnectionGraph.FinishNormalization | fa/connection_graph.cc:721-755 | the numbered roots are moved to their places with all references renamed; nothing else is left, all are valid, and the maps are exact |
| ConnectionGraphs.RenumberedExact | fa/connection_graph.cc:721-755 | renaming roots one to one keeps backward maps the exact inverse of signatures |
| CutpointMerge.MergedExact | fa/connection_graph.cc:392-501 | the moved backward maps are the exact inverse of the merged signature for the forest without the root taken over |
| CutpointMerge.MergedSelTo | fa/connection_graph.cc:498-500 | the merged signature has the lower of the two selectors, or that of the root itself if nothing leads back |
| CutpointMerge.SettledMap | fa/connection_graph.cc:477-493 | the three cases in which a selector is handed on all leave the lower of the two, and no other, leading to the root |
| CutpointMerge.OwnSelector | fa/connection_graph.cc:467-475 | exactly the selector that a root's signature names leads back to it, so the first one found is the only one |
| CutpointMerge.SplicedIsProper | fa/connection_graph.cc:541-542 | the spliced signature defines no selector of a root twice, which the source asserts when it normalizes it |
| Normalization.Scan | fa/normalization.cc:234-260 | without the extended scan: reports garbage if and only if there is some; otherwise orders the forest and leaves marks that the merging can rely on, each for a forbidden root or for a reason |
| Normalization.MarksAreEnough | fa/normalization.cc:234-260 | after a traversal an unmarked root is referred to by one root only and not by itself |
| Normalization.MoreMarksOrdered | fa/normalization.cc:254-275 | marking further roots, as for a forbidden set, keeps what the merging relies on |
| Normalization.Normalize | fa/normalization.cc:279-340 | merges every unmarked root and numbers the marked ones, the numbers going up along the order; maps exact, references between kept roots preserved, merged told; the result is in the canonical form, in which only what is behind the order is cut off |
| Normalization.NormalizeRoots | fa/normalization.cc:303-339 | outside the canonical form: the roots are merged one after another, the kept ones put to their numbers in the order given, and references between them lead where they led |
| Normalization.NormalizeNext | fa/normalization.cc:308-310 | one more root of the order is normalized, and the marked roots stay in the forest |
| Normalization.NumberNext | fa/normalization.cc:312-321 | a marked root gets the next number, above all given before; an unmarked one none |
| Normalization.Normalizer.NormalizeRoot | fa/normalization.cc:173-210 | ends although it recurses along changing signatures; afterwards only marked roots are referred to |
| Normalization.Normalizer.NormalizeTarget | fa/normalization.cc:187-209 | one target of the root on top is normalized and, if unmarked, taken over; the targets still to be seen are those of the copied signature |
| Normalization.Normalizer.TakeOver | fa/normalization.cc:191-208 | an unmarked target that was normalized is merged; every other signature stays, and maps are exact |
| Normalization.NotYetNormalized | fa/normalization.cc:187-194 | an unmarked target was not normalized before, so it is not on the stack of calls either |
| Normalization.MergeKeepsMergeables | fa/normalization.cc:208-208 | after a merge unmarked roots still have one referring root at most, and no selector is defined twice |
| Normalization.MergeKeepsWays | fa/connection_graph.cc:392-501 | a merge changes nothing of which marked roots references lead to from a root of the forest, through unmarked ones |
| Normalization.RenamedWays | fa/normalization.cc:324-334 | after merging and renumbering a root kept refers to exactly the kept roots to which references led before |
| Normalization.OrderNormalized | fa/normalization.cc:308-317 | an unmarked root of the order has been normalized, for the sake of the root that refers to it, by the time its turn comes |
| Normalization.CanonicalExact | fa/normalization.cc:293-298 | if the order is 0, 1, 2, … and all are marked, cutting off what is behind keeps the maps exact |
| LoopScan.AnalyzeFnc | cl/loopscan.cc:70-142 | every reachable block is completed once; marked edges close loops; without them no edge leads to a block completed later; each block reports its marked targets |
| LoopScan.LoopClosingEdgesCutAllCycles | cl/loopscan.cc:70-142 | every cycle that can be reached from the entry has a marked edge |
| LoopScan.OnStackIsTracked | cl/loopscan.cc:78-115 | a target that is on the stack is among the tracked blocks, so tracking only blocks with several ways in pushes no block twice |
| LoopScan.SkipTarget | cl/loopscan.cc:101-105 | stepping over a target that is completed, or an edge marked before, keeps the invariant |
| LoopScan.Nest | cl/loopscan.cc:107-115 | a target neither completed nor tracked is not on the stack, and pushing it keeps the invariant |
| LoopScan.MarkTarget | cl/loopscan.cc:117-140 | a target that is tracked is on the stack, so the marked edge closes a loop, and marking it keeps the invariant |
| LoopScan.Pop | cl/loopscan.cc:91-99 | a block whose targets were all looked at was not completed before, and completing it keeps the invariant |
| LoopScan.AdvanceGoesOn | cl/loopscan.cc:101-140 | each of the three ways to look at a target keeps the invariant and brings the search closer to its end |
| LoopScan.PopGoesOn | cl/loopscan.cc:91-99 | completing a block keeps the invariant and brings the search closer to its end |
| BlockGraph.CutsAllCycles | cl/loopscan.cc:70-142 | if every edge is cut or leads to a block completed earlier, every cycle has a cut edge |
| LoopAnalyser.LoopAnalyser.Visit | fa/compiler.cc:274-296 | afterwards the block is completed, or it is among its own callers and marked; uncut edges fall in the order of completion; every marked block is on a cycle |
| LoopAnalyser.LoopAnalyser.Init | fa/compiler.cc:306-311 | everything reachable is completed, edges lead to marked or earlier completed blocks, and marked blocks are on cycles |
| LoopAnalyser.ListReaches | fa/compiler.cc:237-244 | a block found in the linked list of callers reaches the latest caller |
| LoopAnalyser.MarkedOnCycle | fa/compiler.cc:283-287 | a block that is visited again while in the list of its callers lies on a cycle |
| JumpFinalize.EveryCycleMarked | fa/compiler.cc:274-296 | every reachable cycle of blocks has a marked block |
| JumpThreading.Compiler.CompileFunction | fa/compiler.cc:2125-2167 | every reachable block is compiled once, marked ones and the first with an abstraction in front; the code starts with the prologue and a jump to the entry; code and jumps are such that they can be resolved |
| JumpThreading.Compiler.CompileBlock | fa/compiler.cc:2028-2047 | appends the code of the block: an abstraction if asked for, then that of its instructions in order |
| JumpThreading.Compiler.CompileInsns | fa/compiler.cc:2037-2046 | appends the code of the instructions one after another |
| JumpThreading.Compiler.CompileInstruction | fa/compiler.cc:1606-1610 | appends the code of one instruction, for a goto a single jump |
| JumpThreading.Compiler.CompileCond | fa/compiler.cc:1784-1821 | of a condition, whose two outcomes are code of their own that ends with a jump |
| JumpThreading.BlockIsSane | fa/compiler.cc:2028-2047 | the code of a block is not empty, starts with an abstraction if asked for, and with a jump only to one of its targets |
| JumpThreading.EmitBlock | fa/compiler.cc:2139-2163 | compiling the first block of the queue keeps every known block placed, every target known, and jumps to known blocks only |
| JumpThreading.AllEmitted | fa/compiler.cc:2139-2163 | with an empty queue exactly the blocks that the entry reaches are compiled, each once, and every jump leads to one of them |
| JumpFinalize.Finalizer.FinalizeJmp | fa/jump.cc:33-45 | the loop ends, at the instruction other than a jump that executing the jumps one by one comes to |
| JumpFinalize.Finalizer.FinalizeCond | fa/microcode.cc:68-86 | both loops end, at the instructions that executing the jumps of either outcome one by one comes to |
| JumpFinalize.Finalizer.Finalize | fa/sequentialinstruction.cc:25-38 | every instruction gets as successors what executing jumps one by one from its next ones comes to |
| JumpFinalize.JumpFalls | fa/jump.cc:39-42 | from a block that starts with a jump to another such block the position in the order of completion falls |
| JumpFinalize.JumpOn | fa/jump.cc:39-42 | following a jump lowers a rank, so every chain of jumps ends |
| JumpFinalize.ResolvesDetermined | fa/jump.cc:37-42 | a chain of jumps ends at one instruction only |
| JumpFinalize.FinalizedRunsTheSame | fa/jump.cc:33-45 | for any outcomes of conditions, the instructions executed by the resolved code are exactly those executed with jumps taken one by one |
| SwitchMeaning.UnfoldedSwitchLeadsTheSame | cl/clf_unswitch.cc:64-98 | for every value of the operand the comparisons of an unfolded switch, all of that operand, lead to the label of the first case whose range has it, or else to the default, wherever that stood |
| SwitchMeaning.SandwichLeadsTheSame | cl/clf_unswitch.cc:241-246 | for a switch anywhere in a stream, behind all three filters: for every value of its operand, the part made of it leads to the label that the switch leads to, twice renamed |
| SwitchMeaning.ChainLeads | cl/clf_unswitch.cc:172-223 | from the i-th comparison on, control gets to the label of the first remaining value that fits, or else to the default |
| SwitchMeaning.UnfoldSwitch | cl/clf_unswitch.cc:64-98 | a whole switch is unfolded to the comparisons of its values in order and a jump to the last default |
| SwitchMeaning.UnfoldCases | cl/clf_unswitch.cc:71-91 | the cases of a switch are unfolded to one comparison for each value of their ranges, in order |
| SwitchMeaning.FlattenLeads | cl/clf_unswitch.cc:71-91 | taking the values of all ranges one by one leads to the same label as the ranges do |
| SwitchMeaning.RenamedRunAt | cl/clf_unilabel.cc:48-97 | comparisons with labels renamed one to one lead to the renamed label, for every value |
| SwitchMeaning.BetweenSwitches | cl/clf_unswitch.cc:93-98 | outside a switch the filter has counted no case and keeps no default |
| SwitchMeaning.LeadsToOne | cl/clf_unswitch.cc:64-98 | a switch leads to one label only, for each value |
| SwitchMeaning.SwitchBuilder.Store | cl/cl_storage.cc:688-760 | the table has the values and targets in order and the default at index 0; refused exactly if a second default comes |
| SwitchMeaning.SwitchBuilder.StoreCase | cl/cl_storage.cc:743-759 | one entry for each value of the range, in order, value and target at the same index; none for swapped bounds, where a debug build stops before this loop |
| SwitchMeaning.SwitchBuilder.StoreDefault | cl/cl_storage.cc:717-726 | the first default is kept at index 0, a second one is refused |
| SwitchMeaning.TableLeadsTheSame | cl/cl_storage.cc:707-760 | for every value the first entry with it, or else index 0, has the label that the switch leads to |
| SwitchMeaning.SecondDefaultWins | cl/clf_unswitch.cc:77-83 | for two different defaults the storage refuses the switch and the unfolding leads to the second |
| SwitchSandwich.SandwichIsAccepted | cl/clf_unswitch.cc:241-246 | a stream in which both checking filters find no error, and every switch has a default, comes out of the three filters as one in which they find none |
| SwitchSandwich.Sandwich.Run | cl/clf_unswitch.cc:241-246 | the three filters in a row rename, unfold and rename; they stop exactly if a switch has no default |
| SwitchSandwich.Sandwich.Callback | cl/clf_unswitch.cc:241-246 | one callback passed through renaming, unfolding and renaming, labels named before keeping their names |
| SwitchSandwich.Rename | cl/clf_unilabel.cc:48-97 | every label of a callback replaced by its number, the rest unchanged, numbers given before kept |
| SwitchSandwich.RenameAll | cl/clf_unilabel.cc:48-97 | the same for a stream of callbacks |
| SwitchSandwich.RenamedTraps | cl/clf_unswitch.cc:224-228 | behind a renaming, where no label is empty, the unfolding stops if and only if some switch has no default |
| SwitchSandwich.RenamedIsUser | cl/clf_unilabel.cc:129-146 | no renamed label is one that the unfolding makes |
| SwitchSandwich.RenamingKeepsOrder | cl/clf_unilabel.cc:48-97 | callbacks come in order after a renaming if and only if they do before |
| SwitchSandwich.RenamingKeepsLabels | cl/clf_unilabel.cc:48-97 | labels are defined once, and before a function is closed, after a renaming if and only if they are before |
| Unswitch.ClfUnfoldSwitch.Callback | cl/clf_unswitch.cc:64-98 | what each callback becomes and the counters, operand and default kept after it; the filter stops only at the close of a switch without a default |
| Unswitch.ClfUnfoldSwitch.SwitchCaseCallback | cl/clf_unswitch.cc:85-90 | one comparison for each value of the range, the counter of cases raised by as many |
| Unswitch.ClfUnfoldSwitch.EmitCase | cl/clf_unswitch.cc:172-223 | a comparison with the value, a branch to the label or to a new block, and the opening of that block |
| Unswitch.ClfUnfoldSwitch.EmitDefault | cl/clf_unswitch.cc:225-237 | a jump to the default, which is forgotten; a stop if there is none |
| Unswitch.UnfoldKeepsOrder | cl/clf_unswitch.cc:64-98 | a stream whose callbacks come in order is unfolded to one whose callbacks do, a switch counting as one block |
| Unswitch.UnfoldKeepsLabels | cl/clf_unswitch.cc:64-98 | a stream in order, with labels defined once and before they are due, is unfolded to one with labels so, whatever new ones it has |
| Unswitch.NextAuxIsNew | cl/clf_unswitch.cc:208-213 | the next label made is none of the user's and none made before |
| Labels.DecimalInjective | cl/clf_unilabel.cc:129-134 | two numbers written alike are equal |
| Labels.NumberedInjective | cl/clf_unilabel.cc:129-134 | two numbered labels that are alike have the same number |
| Labels.AuxInjective | cl/clf_unswitch.cc:208-211 | two labels of the unfolding that are alike are of the same case of the same switch |
| Labels.AuxNotNumbered | cl/clf_unswitch.cc:208-211 | no label of the unfolding is a numbered one |
| Labels.ClfUniLabel.LabelLookup | cl/clf_unilabel.cc:136-146 | the number of a label; a new label gets the next one, no number is given twice |
| Labels.ClfUniLabel.ResolveLabel | cl/clf_unilabel.cc:129-134 | the label of the number that the name has, or gets now |
| SwitchEvents.ClfCbSeqChk.SetState | cl/clf_intchk.cc:358-424 | an error is counted exactly if the new state may not follow the old one; the new state is taken, except that the filter stops once all is destroyed |
| SwitchEvents.ClfCbSeqChk.Check | cl/clf_intchk.cc:426-526 | an error is counted exactly if the instruction is not allowed in the state |
| SwitchEvents.ClfCbSeqChk.Callback | cl/clf_intchk.cc:81-125 | one error more exactly if the callback was not expected; the state it leads to, or a stop exactly if it sets the state after all is destroyed |
| SwitchEvents.ClfCbSeqChk.Run | cl/clf_intchk.cc:358-526 | over a whole stream no error is counted if and only if every callback comes in order; it stops exactly where the state is set after all is destroyed |
| SwitchEvents.InOrderJoin | cl/clf_intchk.cc:358-526 | a stream made of two is in order exactly if the first is, and the second is from the state after it |
| SwitchEvents.ClfLabelChk.DefineLabel | cl/clf_intchk.cc:542-552 | the label is defined, and an error counted exactly if it was so before |
| SwitchEvents.ClfLabelChk.ReqLabel | cl/clf_intchk.cc:554-560 | the label is known to be led to, and no error counted |
| SwitchEvents.ClfLabelChk.EmitWarnings | cl/clf_intchk.cc:562-576 | errors are counted exactly if something leads to a label that is not defined |
| SwitchEvents.ClfLabelChk.Run | cl/clf_intchk.cc:530-576 | over a whole stream, no error is counted if and only if no label is defined twice and all that are led to are defined when a function is closed |
| SwitchEvents.LabelsJoin | cl/clf_intchk.cc:530-576 | labels of a stream made of two are fine exactly if those of the first are, and those of the second after it |
| BoxStore.BoxAntichain.Get | fa/boxman.cc:98-136 | a stored box above, or the box itself, stored in place of what is below it; antichains and the size kept; whether it changed anything |
| BoxStore.BoxAntichain.Lookup | fa/boxman.cc:139-156 | finds a box above exactly if there is one, which is exactly if storing would change nothing |
| BoxStore.BoxAntichain.Clear | fa/boxman.hh:128-131 | no box is stored any more and the reported size is the same as before, which is right if and only if none was stored |
| BoxStore.AddedAntichains | fa/boxman.cc:114-131 | removing what is below a new box, and adding it, keeps each list free of comparable boxes |
| BoxStore.AddedCovers | fa/boxman.cc:114-131 | every box below some stored one is so after another box was added |
| BoxStore.WalkNext | fa/boxman.cc:106-126 | what the source asserts in the loop holds: after a removal nothing further is above the box |
| BoxStore.WalkEnd | fa/boxman.cc:129-133 | when the walk ends no stored box is above the new one, the list is that of the store with it, and the count is right |
| ConfigParser.ParseConfigString | cl/cl_factory.cc:117-196 | the loop over the characters accepts and yields exactly what the automaton does |
| ConfigParser.AcceptedIsPrinted | cl/cl_factory.cc:117-196 | accepted exactly if it is bindings as printed, spaces after them; the last value of each key wins |
| ConfigParser.PrintedIsParsed | cl/cl_factory.cc:117-196 | any valid bindings printed, with spaces anywhere allowed, are parsed to the map in which the last binding of each key wins |
| ConfigParser.CutIsRejected | cl/cl_factory.cc:195-195 | printed bindings cut anywhere inside the last one, from after the first character of its key to before its last quote, are rejected |
| ConfigParser.RunEscape | cl/cl_factory.cc:170-192 | a value with quotes and backslashes escaped is read back as it was |
| ConfigParser.ReadIsPrinted | cl/cl_factory.cc:129-194 | whatever is read without failing is some valid bindings printed, followed by the beginning of one |
| TreeAutomata.ReachedIsLabelled | fa/antichainext.hh:173-181 | a state is among those reached with a tree if and only if some run of the automaton labels the root of the tree with it |
| PointsToPhase1.PointerRules | cl/pointsto_fics.cc:448-466 | every graph that meets the constraints obeys the textbook rules for taking an address, copying, loading, storing and returning a pointer |
| PointsToPhase1.StepAbstracted | cl/pointsto_fics.cc:379-471 | whatever an instruction of any kind executes, a graph that meets its constraint and abstracts the memory before abstracts it afterwards |
| Execution.EventsTell | cl/killer.cc:179-277 | of an instruction with plain operands: it reads nothing but what its events use before they overwrite it, they overwrite just what it overwrites as a whole, and what they use beyond is known aliases and variables written in part |
| Execution.PathTellsIff | cl/killer.cc:188-232 | along an access path with constant indices the events tell the truth for all aliases, if and only if the path is plain |
| Execution.SourceUsed | cl/killer.cc:179-233 | what the value of a plain operand depends on, its indices, its variable or the alias it leads to, is used |
| Execution.DestinationWritten | cl/killer.cc:179-233 | a plain destination is overwritten exactly if it is the whole of a variable, and what is needed to find it is used |
| KillerRuns.HiddenReadHarmed | cl/killer.cc:230-232 | a function on which kills do harm: reading a field through a pointer with a known alias does not count as a read of the alias, which is killed before |
| KillerRuns.PerformAgrees | cl/killer.cc:375-404 | two environments that agree on what is live before an instruction give the same values to what is live after it |
| RootTraversal.TraversedReasons | fa/normalization.cc:92-101 | no mark without a reason: a variable, several references, one that counts for several, an own one, or a climb |
| RootGraph.ReasonsThroughRef | fa/connection_graph.cc:615-620 | the marks made for a reference and by the visit of its target all have a reason |
| RootGraph.ReasonsClimbed | fa/connection_graph.cc:634-643 | so have those made by a climb and the visit from its end |
| RootGraph.ReasonsJoin | fa/connection_graph.cc:593-646 | marks that have reasons for two sets of references have them for both together |
| CutpointMerge.MergedRecord | fa/connection_graph.cc:412-500 | the merged signature root by root: selectors, definitions, counts and the backward selector of its record in terms of the entries of both signatures; an entry taken over has the forward selectors of the reference to the root taken over |
| Normalization.InPlaceOrdered | fa/normalization.cc:293-301 | a normalized forest, with its roots in place, is in the canonical form |
| Normalization.InOrderMore | fa/normalization.cc:321-321 | the number that a marked root gets is above all given before |
| JumpFinalize.FunctionRunsBlocks | fa/compiler.cc:2028-2167 | whatever a compiled and finalized function does, for any outcomes of conditions, its blocks do in the same order, a true condition leading to the first target of a branch and a false one to the second |
| JumpFinalize.BlocksRunInFunction | fa/compiler.cc:2028-2167 | and whatever its blocks do, the compiled and finalized function does |
| JumpFinalize.BlocksDone | fa/compiler.cc:2028-2047 | from the start of any block on, what a number of blocks do is what the code does when jumps are taken one by one |
| JumpFinalize.BranchDone | fa/compiler.cc:1784-1821 | a compiled condition loads its operand, is tested, kills what dies on the outcome and goes on with the block for that outcome |
| SwitchPassage.SandwichPasses | cl/clf_unswitch.cc:53-98 | the callbacks that belong to no switch come out once each and in order, their labels replaced one to one and in place; what stands between them is only what switches have become |
| SwitchPassage.WithoutSwitchesTheSame | cl/clf_unswitch.cc:53-98 | a stream without switches comes out as it is but for its labels |
| CallbackGrammar.InOrderIffNested | cl/clf_intchk.cc:358-526 | a stream is in order and complete if and only if it is that of nested files, functions, blocks, calls and switches, up to confusing the opening of a file with the closing of a function |
| CallbackGrammar.InOrderCompletes | cl/clf_intchk.cc:358-526 | whatever is in order and does not end all can be completed to such a stream |
| CallbackGrammar.ClosedForOpened | cl/clf_intchk.cc:69-72 | a function closed without having been opened passes for a file |
| CallbackGrammar.LabelsOkMeans | cl/clf_intchk.cc:542-576 | labels are in order if and only if no function defines one twice, and each has defined all that its jumps, conditions and switches lead to when it is closed |

## Left out

Inclusion:
- Simulation indexes: the relation is the identity that the source passes, though the antichain store is proved for every
  preorder.
- The transitions of an automaton are given in the order in which a traversal of their set meets them; that the set is
  sorted is not used.
- A label has one arity in both automata, as the source's label types have it.
- Duplicate transitions in a row are not removed; `finalizeTransitions` only does that.
- `initialize` is `update` on an empty set of processed elements; the multimap of pending elements is a map from states to
  lists; of equal keys the first inserted comes first.
- `find`, `clear` and the overloads of `check` and `refine` for lists; `CachedBinaryOpExt` and the commented-out LRU cache.
- The sets are numbers' sets and addresses are numbers; an address not in use may be handed out again at any time.

Points-to:
- Phases 2 and 3, `bindVarList`, black holes, the list of globals, plotting.
- FicsPhase1: is about one function; a call takes no step in the runs considered, and a returned constant is not modelled,
  since the source reads a variable there.
- Absorbed nodes are kept as numbers that are in no edge; the source does not free them either.

Variable killer:
- The alias map is an input, and runs assume that it tells the truth: a dereferenced pointer with an alias stands for it,
  and one without leads to no local variable.
- KillVariablePerTarget: leaves out the flag that limits a kill to variables not pointed at (`isPointedUid`), which depends
  on the variable alone; a kill not carried out is one after which the variable holds what it held, which is among what
  `KillsAreHarmless` allows.
- Statistics, debug output.

Root graph:
- The tree automata behind the roots: `computeSignatures`, `updateRoot`, `mergeRoot`, relabelling of references.
- Scan: leaves out the extended scan (`selfReachable`), which only adds marks; `MoreMarksOrdered` says that these do no
  harm.
- Bit vectors are the sets of their true indexes.
- That no selector of a root is defined twice is an assumption, where the source asserts it.

Loops and jumps:
- CompileFunction: is about one function; jumps into other functions, execution and reversal of microinstructions and what
  each of them does are left out.
- The debug output that looks for the location of an edge.

Switch:
- Locations, types of case values and the traps on them, cloning of the operand, the register that holds a comparison.
- StoreCase: takes a range whose bounds are swapped for empty, where the storage breaks into the debugger; case values are
  unbounded integers.
- Unreachable labels, of which the label filter only warns; scopes other than the global one in the renaming.

Boxes and configuration:
- Boxes are numbers with a signature, and the comparison is any transitive relation; `asVector`, iteration.
- The second parser of the factory, for lists of filters; a string ends at its end and not at a zero character.

Elsewhere: folding, abstraction, the fixed-point driver, the GCC and LLVM front-ends, C wrappers, pretty-printing.
