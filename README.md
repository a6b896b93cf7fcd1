# Hopcroft DFA minimisation, modelled and proved in Dafny

This project models `solution/main.py`, a Python implementation of
Hopcroft's partition-refinement algorithm for minimising a DFA. The
automaton arrives in inverse form: `inv[(a, t)]` is the set of states that
move to `t` on symbol `a`. The model covers two functions:

- `_get_all_states` builds the universe Q. Q is the accepting states, every
  target key and every state in a predecessor set.
- `hopcroft_minimize`:
  - splits Q into F (accepting) and Q - F;
  - returns early when one of them is empty;
  - otherwise keeps a partition `P`, a block index `block_of` and a worklist
    `W` of splitter blocks, and refines `P` until `W` is empty.

Modules:

- `Collector` (collector.dfy): the universe and `GetAllStates`, the loop of
  `_get_all_states`.
- `Partitions` (partitions.dfy): partitions, the block index (`Indexed`)
  and what one split does to both.
- `Automaton` (automaton.dfy): predecessor sets, complete DFAs, acceptance
  of words, Myhill–Nerode equivalence and stability. It proves that, for a
  complete DFA, a stable partition that separates accepting states groups
  only equivalent states. It also proves that the partition into
  equivalence classes is unique.
- `Refinement` (refinement.dfy): the loop invariant `Inv` of the worklist
  loop, and a lemma for each step that preserves it. The invariant carries
  the classic smaller-half argument, for a complete DFA only. In that case
  every block that is neither queued nor inside the current splitter has a
  set of states against which the partition is already stable, and
  equivalent states always share a block.
- `Hopcroft` (hopcroft.dfy): the algorithm itself as methods with loops.
  - `Minimize` is `hopcroft_minimize`.
  - `Refine` is the `while W` loop.
  - `ProcessSplitter` is the loop over the alphabet, and `ProcessSymbol`
    one pass of it.
  - `GroupPredecessors` is the loop that fills `affected`.
  - `SplitAffected` is the loop over `affected`.
  - `Retarget` and `Requeue` update `block_of` and `W` after a split.
- `Scenarios` (scenarios.dfy): calls of `Minimize` on the automata of
  `solution/test.py`, each with the partition the test expects as its
  postcondition. That result is proved from `Minimize`'s contract alone.
  The module also follows the loop steps on an incomplete automaton
  (`IncompleteRun`, `GapPass`). There the result is not the partition into
  classes.

What `Minimize` guarantees for every input:

- the result is a partition of the universe;
- no block mixes accepting and rejecting states;
- the result is empty exactly when the universe is;
- the result is `{Q}` when all states accept or all reject.

When the input describes a complete deterministic automaton, the result is
also stable and its blocks are exactly the Myhill–Nerode classes. The loop
terminates with the measure `(|Q| - |P|, |W|)`.

Wherever the Python code pops from a set or iterates over a set or dict,
the model picks an arbitrary element with `:|`. Every property therefore
holds for every iteration order.

The worklist seed on a tie: line 44 of `solution/main.py` seeds the
worklist with F when |F| <= |Q - F|, so a tie picks F. The model does the
same (`RefineTwoBlocks`).

## Model

| member | source | states |
|---|---|---|
| Collector.Preds | solution/main.py:53-55 | an absent `(symbol, target)` entry reads as no predecessors |
| Collector.GetAllStates | solution/main.py:5-12 | the loop returns exactly the universe: the accepting states, every target key and every state of every predecessor set |
| Collector.UniverseMembers | solution/main.py:7-11 | a state is in the universe iff it is accepting, or it is the target or a predecessor of some entry |
| Collector.PredsInUniverse | solution/main.py:8-11 | every predecessor set lies in the universe, and so does a target that has predecessors |
| Collector.UniverseEmpty | solution/main.py:20-22 | the universe is empty iff there are no accepting states and no entries |
| Partitions.IndexedIsPartition | solution/main.py:37-40 | a block index that is consistent with `P` (each state maps to the block of `P` that holds it) makes `P` a partition of Q |
| Partitions.PartitionSize | solution/main.py:46-87 | a partition of Q has at most \|Q\| blocks, which bounds the number of splits |
| Partitions.SameSizeSubset | solution/main.py:66-67 | an overlap inside Y with Y's size is Y, so the length test detects a whole block |
| Partitions.SplitParts | solution/main.py:69-74 | both parts of a split are non-empty, different from each other and from every other block |
| Partitions.SplitCount | solution/main.py:72-74 | replacing Y by its two parts adds exactly one block |
| Partitions.SplitIndexed | solution/main.py:69-79 | after the split and both retargeting loops, `block_of` indexes the new partition |
| Automaton.EquivalentAccepting | solution/main.py:24-31 | equivalent states agree on acceptance, so the initial split separates only inequivalent states |
| Automaton.PreDifference | solution/main.py:81-87 | in a DFA the predecessors of X - Y are those of X minus those of Y; this is why queuing only the smaller half suffices |
| Automaton.UniverseStable | solution/main.py:43-44 | in a complete DFA every partition is stable against the whole universe |
| Automaton.StableSound | solution/main.py:89 | a stable partition of a complete DFA that separates accepting states groups only equivalent states |
| Automaton.MyhillNerodeUnique | solution/main.py:89 | two partitions of the universe into equivalence classes are equal |
| Refinement.RequeuedAt | solution/main.py:81-87 | after a split, other blocks keep their worklist status; a queued Y is replaced by both parts; otherwise exactly one part is added |
| Refinement.SplitQueue | solution/main.py:81-87 | the worklist stays a subset of the partition across a split |
| Refinement.InitInv | solution/main.py:24-44 | the two-block partition, its index and the seeded worklist satisfy the loop invariant |
| Refinement.PopInv | solution/main.py:46-47 | popping a splitter keeps the invariant |
| Refinement.SplitInv | solution/main.py:65-87 | splitting an affected block Y into its overlap and the rest, retargeting `block_of` and requeuing keeps the invariant, and adds one block |
| Refinement.FinishInv | solution/main.py:49-87 | once every symbol is handled, the partition is stable against the splitter and the invariant holds again |
| Refinement.FinalInv | solution/main.py:46-89 | with an empty worklist over a complete DFA, the partition is stable and its blocks are the Myhill–Nerode classes |
| Refinement.HomogeneousClasses | solution/main.py:33-34 | when all states accept or all reject, {Q} is stable and is the partition into classes, so the early return is right |
| Hopcroft.GroupIndexed | solution/main.py:51-59 | the keys of `affected` are exactly the blocks that meet the predecessors, and each value is its key's share of them |
| Hopcroft.PredecessorsHaveBlocks | solution/main.py:56-59 | under the invariant every looked-up predecessor has a block, so the `None` branch is never taken |
| Hopcroft.Requeue | solution/main.py:81-87 | the worklist update after a split, as the branches of lines 81-87 |
| Hopcroft.Retarget | solution/main.py:76-79 | every state of the part now maps to the part; other states keep their block |
| Hopcroft.IndexBlocks | solution/main.py:37-40 | the loop builds a block index consistent with the partition |
| Hopcroft.GroupPredecessors | solution/main.py:51-59 | `affected` groups the splitter's predecessors on the symbol by their block |
| Hopcroft.HandledSplit | solution/main.py:64-87 | splitting one more affected block replaces exactly that block by its share and the rest, leaves every other block and its worklist status alone, and queues the parts as lines 81-87 say |
| Hopcroft.HandledRefines | solution/main.py:69-74 | once the affected blocks are handled, every block lies inside a block of the old partition |
| Hopcroft.SplitAffected | solution/main.py:64-87 | the new `P` is exactly the old one with each affected block whose share is not all of it replaced by the share and the rest; unsplit blocks keep their worklist status and the parts are queued as lines 81-87 say; the invariant holds; `P` is stable against the splitter on the symbol and refines the old partition; `P` grows unless nothing changed |
| Hopcroft.ProcessSymbol | solution/main.py:50-87 | one symbol's pass has exactly the effect of handling every affected block: each cut block is replaced by its share and the rest, and nothing else changes. It keeps the invariant, makes `P` stable against the splitter on that symbol and refines the old partition. Two states that shared a block and agree on being predecessors stay together. Worklist statuses change only as `StatusKept` allows |
| Hopcroft.HandledStatus | solution/main.py:81-87 | after the affected blocks are handled: a surviving old block keeps its worklist status; every part of a queued block is queued; and an unqueued block leaves at most one part off the worklist |
| Hopcroft.StatusKeptTrans | solution/main.py:49-87 | these three worklist facts, holding for each symbol's pass, hold for the passes together, measured against the partition and worklist the loop over the alphabet started from |
| Hopcroft.HandledTogether | solution/main.py:64-79 | two states of one block that are both predecessors, or both not, still share a block after the split loop |
| Hopcroft.ProcessSplitter | solution/main.py:49-87 | after all symbols the invariant holds with the splitter handled for the whole alphabet, and every new block lies inside an old block. Two states that shared a block and have the same predecessor signature (the symbols on which they move into the splitter) still share one. A block of the old partition that is still a block keeps its worklist status. Every block inside a queued old block is queued. Inside an unqueued old block, at most one block is off the worklist. `P` grows unless `W` is unchanged |
| Hopcroft.StableSplitterKeeps | solution/main.py:64-67 | let the old partition already be stable against the splitter on every symbol. Then a refinement of it that keeps together the states with the same predecessor signature is the old partition itself. With ProcessSplitter's contract, this means that such a pass leaves `P` unchanged |
| Hopcroft.Refine | solution/main.py:46-87 | the worklist loop terminates with an empty worklist and the invariant |
| Hopcroft.OneBlock | solution/main.py:27-34 | the initial partition has at most one block iff F or Q - F is empty |
| Hopcroft.EarlyReturn | solution/main.py:33-34 | the early result is {Q}: a partition that separates accepting states, and the class partition of a complete DFA |
| Hopcroft.NonEmptyPartition | solution/main.py:20-22 | a partition is empty iff its universe is |
| Hopcroft.RefineTwoBlocks | solution/main.py:37-89 | from two non-empty blocks the refined result is a partition that separates accepting states, is stable and is the class partition of a complete DFA |
| Hopcroft.Minimize | solution/main.py:15-89 | result is a partition of the universe; it separates accepting states; it is empty iff the universe is; it is {Q} when Q is homogeneous; for a complete DFA it is stable and equals the Myhill–Nerode classes |
| Scenarios.TwoClasses | solution/main.py:15-89 | for a complete DFA whose accepting/rejecting split is already stable, the minimiser returns exactly that split |
| Scenarios.Empty | solution/test.py:39-40 | no states give the empty partition |
| Scenarios.SingleAccept | solution/test.py:42-44 | one accepting state gives {{0}} |
| Scenarios.SingleReject | solution/test.py:46-48 | one rejecting state gives {{0}} |
| Scenarios.NoAlphabet | solution/test.py:50-52 | an empty alphabet still gives {{0}} |
| Scenarios.EndsWithB | solution/test.py:75-78 | the "ends with b" automaton gives {{0}, {1}} |
| Scenarios.AllAcceptCycle | solution/test.py:111-114 | an accepting 3-cycle gives {{0, 1, 2}} |
| Scenarios.ParallelRejectStates | solution/test.py:116-121 | the two rejecting states merge: {{0}, {1, 2}} |
| Scenarios.SelfLoopsAllAccept | solution/test.py:134-137 | three accepting self-loops give {{0, 1, 2}} |
| Scenarios.SelfLoopAcceptVsReject | solution/test.py:175-178 | an accepting and a rejecting self-loop give {{0}, {1}} |
| Scenarios.StringStates | solution/test.py:185-188 | string-named states are separated in the same way |
| Scenarios.RingStates | solution/test.py:238-242 | the states of a ring of size n are exactly 0 .. n - 1 |
| Scenarios.RingPreds | solution/test.py:231-242 | the inverse ring makes i the one 'a'-predecessor of (i + 1) % n for every state i of 0 .. n - 1, as the test's dictionary does |
| Scenarios.RingAllAccept | solution/test.py:238-242 | a ring of n accepting states gives one block, {0 .. n - 1}, for every n > 0 (the test takes n = 1000), and the empty partition for n = 0 |
| Scenarios.WorklistHeuristic | solution/test.py:271-283 | two identical two-cycles give {{1, 2}, {0, 3}} |
| Scenarios.AcceptingStateNotInTransitions | solution/test.py:285-289 | an accepting state that no entry mentions still counts: {{0, 1}} |
| Scenarios.IncompleteCounterexample | solution/main.py:43-89 | the input facts for an automaton where state 1 has no edges. The universe is {0, 1, 2}. The seeded splitter {2} has no predecessor on either symbol. The automaton is not complete. The word "a" separates 0 from 1, so {{0, 1}, {2}} is not the class partition |
| Scenarios.IncompleteRun | solution/main.py:24-89 | on that automaton the steps of the minimiser compute the universe, the two-block start and the seed {2}. They pop {2} and pass over the alphabet, which ends with `P` = {{0, 1}, {2}} and an empty worklist. So line 89 returns {{0, 1}, {2}}, the partition that IncompleteCounterexample shows is not the class partition |
| Scenarios.GapPass | solution/main.py:46-87 | once {2} is popped from the seeded worklist, the pass over the alphabet leaves {{0, 1}, {2}} and an empty worklist |

## Left out

- The `__main__` demo block (solution/main.py:92-100) only prints.
- The O(n·|Σ|·log n) running-time bound of the smaller-half policy is not stated. The model proves only that the policy is correct.
- Python's hashing and object identity of frozensets are not modelled. Blocks are compared by value, as the Python code does.
- The iteration order of sets and dicts is not modelled. Every pop and every iteration is an arbitrary choice.
- The local variables `P`, `block_of` and `W` are modelled as values. The inner loops take them in and return the new values.
- `input_alphabet` is modelled as a set of symbols.
- Hopcroft.Minimize: the coarsest-partition claim (the Myhill–Nerode classes) is proved only when the inputs describe a complete deterministic automaton. For other inputs, only the partition, acceptance-separation, emptiness and homogeneous-case properties are proved. This is because the Python code itself does not return the classes on other inputs: with missing edges the smaller-half worklist can skip a needed splitter. Scenarios.IncompleteRun follows the loop steps on such an input and proves that they end with a partition that Scenarios.IncompleteCounterexample shows is not the class partition.
- Some tests of solution/test.py are not restated as concrete scenarios:
  - Tests that check only that the result is a partition without empty blocks (54-68, 195-199, 206-224) are covered for every input by `Minimize`'s partition postcondition.
  - Tests that only separate an accepting from a rejecting state (144-147, 190-193) are covered for every input by its acceptance postcondition.
  - Tests that separate two states that agree on acceptance, or that count more than two blocks, need a distinguishing word for each such pair. These are 80-94, 149-173 and the ring with one accepting state (231-236).
  - Tests that put two states into one block (101-109, 123-132, 244-250) need a proof that the two states are equivalent over all words. So does the counter (252-263), which asserts fewer blocks than states.
- Hopcroft.Requeue: its contract is the worklist update itself. What the update means is stated by Refinement.RequeuedAt and Refinement.SplitQueue.
