# A verified model of the garbled-circuit VOPRF and its MP-SPDZ back end

This project models the algorithms at the core of the repository in Dafny and proves what they are for. Each component
sets an optimised, mutable or distributed algorithm against the simple meaning it has to keep:

- **The VOPRF session** (`Voprf.dfy` with `GarbledCircuit`, `Serialization`, `ProbeResilient`, `Bits`, `Bytes`,
  `Blocks`, `Merkle`). Server and client run over a queue of 16-byte blocks: garbling, message framing, label sharing,
  masking by random transfer, unmasking, evaluation, decoding, hashing. AES and SHA-256 are arbitrary functions, so
  every result holds for every hash; oblivious transfer is its ideal contract; the verdict of the proof checker is a
  parameter.
- **n-party BMR** (`Bmr.dfy`, `BmrProtocol.dfy`, `BmrMpc.dfy`). The dealer, the parties and the phases are separate runs
  over one program with FIFO queues between them; keys are blocks with a signal bit, the PRF is an arbitrary function.
- **The compiler back end** (`Graph`, `Instructions`, `Dependencies`, `Rounds`, `Placement`, `Replay`, `Shortcuts`,
  `Merging`, `Merger`, `Registers`, `RegisterAllocation`, `BlockAllocator`): dependency analysis, placement and merging
  into rounds, topological sort, reverse linear scan register allocation and the free-block allocator.
- **Oblivious graph algorithms** (`Oram`, `HeapQ`, `Dijkstra`, `Matching`): heap with reverse index, shortest paths
  with a fixed number of iterations, stable matching. An oblivious RAM is a list of optional cells.
- **Decision trees** (`GroupOps`, `TreeLayout`, `DecisionTree`, `TreeTraining`): group operations on sorted samples,
  training layer by layer, prediction.
- **Networks and arithmetic** (`OddEvenMergeSort`, `PrefixNetworks`, `Adders`, `CarryTree`, `RingArithmetic`, `Powers`):
  Batcher's sort, parallel prefix, carries, masked comparison and truncation modulo 2^R.

Objects that the source updates in place are classes whose methods state the new state; pure code is functions; both
are tied to specification functions about which the lemmas speak. `dafny verify dfyconfig.toml` checks everything.

Three results contradict what a reader of the source may expect, and are stated with the input and the condition:

- Dijkstra's exhausted queue returns vertex 0, and the remaining iterations keep taking edges out of it. The distances
  are exact if and only if vertex 0 is reachable or these edges are harmless; `UnreachableZero` is a graph where they
  are not.
- Labels of inputs are taken from the final `wire0`, so a gate that reads an input wire and a later gate (or the same
  one) that drives it make the evaluator start from the wrong label. `GarblingIsCorrect` asks that no input wire be
  read before it is driven, which can be read off the gate list; `OverwrittenInputDecodesWrongly` and
  `OverwrittenInputMayDecodeRight` show that without it the result may be wrong or right.
- The search for a round is said to find the first one that has the right type and is not full. Its shortcuts are kept
  per kind, but the type of a round is a merge id, which for vector instructions includes the size. So independent
  openings of sizes 1, 2, 3 and 2 take four rounds where three would do (`ShortcutMissesRound`, `FourRounds`,
  `ThreeRoundsWouldDo`). `HarmlessIfSimple` says for which sets of kinds and merge ids this cannot happen.

## Model

| member | source | states |
|---|---|---|
| Voprf.RunSession | voprf-bench/voprf_e2e.cpp:136-510 | An honest session with equal batch sizes, an accepted proof that carries the hash of the tables behind its public part and binding hash, and ideal transfer returns, for every input, the hash of the input with the plain evaluation of the circuit on the key and H1 of the input, and counts as passed exactly when all of these equal F_k; if the circuit computes AES they do. A proof that is not accepted, carries another hash or has at most 16 bytes gives no results; different batch sizes are reported as a mismatch and nothing else is |
| Voprf.RunServer | voprf-bench/voprf_e2e.cpp:174-284 | What goes into the channel is exactly the framed session: commitment, batch size and table hashes, tables online or offline, key labels, masked share labels in transfer order, proof |
| Voprf.RunClient | voprf-bench/voprf_e2e.cpp:368-479 | From that channel and the pads its choices select, the client computes the session's outcome; it stops with a mismatch exactly when the batch sizes differ |
| Voprf.BindsCarried | voprf-bench/voprf_e2e.cpp:428-439 | A proof laid out as length, public part, binding hash, circuit hash and rest binds exactly if the circuit hash is the announced one and that of the tables; no proof of 16 bytes or fewer binds |
| Voprf.ClientFinish | voprf-bench/voprf_e2e.cpp:428-479 | Whatever readable tables arrived: nothing is evaluated unless the proof is accepted and binds, evaluation stops at the first tables that do not have the announced hash, and the results up to there are tallied against F_k |
| Voprf.PassesExactly | voprf-bench/voprf_e2e.cpp:446-481 | The run passes if and only if the proof is accepted and every turn, on tables with the announced hash, gives F_k of its input |
| Voprf.EvaluationIsPlain | voprf-bench/voprf_e2e.cpp:446-479 | Evaluating and decoding circuit i on the recombined labels gives the plain result on the server's key bits and the bits of H1 of the client's input |
| Voprf.UnmaskedAreOffers | voprf-bench/voprf_e2e.cpp:386-397 | Taking the received pad off the chosen one of the two masked labels leaves exactly the label offered for that choice bit |
| Voprf.AesGivesWanted | voprf-bench/plaintext_oprf.hpp:69-73 | If the circuit's output bits are those of AES on all keys and plaintexts, the reference results are F_k of the inputs |
| Voprf.GcHashBinds | voprf-bench/gc_mmo.hpp:428-434 | Two lists of AND tables with one circuit hash are equal or expose a collision of the hash |
| ProbeResilient.EncodeShares | voprf-bench/probe_resilient.hpp:18-28 | The shares of every bit are the random bit and its sum with the bit, in wire order |
| ProbeResilient.SharesReconstruct | voprf-bench/probe_resilient.hpp:34-46 | Labels of the two shares of a bit combine to the label of the bit, whatever the randomness |
| Serialization.RoundTrip | voprf-bench/voprf_ser.hpp:31-95 | Reading a serialised table message gives the message back, for all table and decode-vector lengths below 2^64 |
| Serialization.DeserializeTables | voprf-bench/voprf_ser.hpp:73-95 | The reader with its running offset returns the message whose serialisation it was given |
| Serialization.BlobArrives | voprf-bench/voprf_e2e.cpp:76-98 | A blob sent in blocks arrives with its exact length and contents, and what follows it in the channel stays |
| Bits.BytesRoundTrip | voprf-bench/gc_mmo.hpp:283-297 | Writing a block out as bits in wire order and packing them again is the identity |
| Bits.BlockBit | voprf-bench/gc_mmo.hpp:283-297 | Wire i of a block is bit i mod 8 of byte 15 - i / 8 |
| Merkle.MerkleRootPairs | voprf-bench/gc_mmo.hpp:335-360 | The loop over levels computes the recursive root, duplicating the last node of an odd level |
| Merkle.RootCommits | voprf-bench/gc_mmo.hpp:335-360 | Two lists of equally many label pairs with one root are equal or expose a collision of the hash |
| Merkle.RootOfPadded | voprf-bench/gc_mmo.hpp:335-360 | The number of pairs is not committed to: repeating the last of an odd number of pairs keeps the root |
| Merkle.SmallRoots | voprf-bench/gc_mmo.hpp:335-360 | The roots of one, two and three pairs written out: first label before second, left pair before right, the odd one doubled |
| GarbledCircuit.GarblingIsCorrect | voprf-bench/gc_mmo.hpp:362-492 | For every circuit that reads no input wire before driving it, every hash, every offset with signal bit 1 and all inputs, decoding the evaluated labels gives the plain outputs, and there is one table per AND gate |
| GarbledCircuit.GatesCarry | voprf-bench/gc_mmo.hpp:372-421 | After every gate each settled wire's active label is its zero-label shifted by its plain value, with the two AND counters in step |
| GarbledCircuit.AndGateCorrect | voprf-bench/gc_mmo.hpp:384-403 | The evaluator's half gates give the zero-label shifted by the conjunction, whatever the hash function |
| GarbledCircuit.TweakSeparates | voprf-bench/gc_mmo.hpp:173-181 | Below 2^32 gates, one label is tweaked alike only for one gate and one side of it |
| GarbledCircuit.GarbleCircuit | voprf-bench/gc_mmo.hpp:362-443 | The in-place garbler produces the tables, zero-labels and decode bits of the recursive definition that the correctness lemmas are about |
| GarbledCircuit.EvalCircuitLabels | voprf-bench/gc_mmo.hpp:450-483 | The in-place evaluator returns the labels of the recursive definition, and refuses exactly inputs of the wrong size |
| GarbledCircuit.EvalCircuitPlain | voprf-bench/gc_mmo.hpp:266-279 | The in-place evaluation in the clear refuses exactly inputs of the wrong size and otherwise gives the plain outputs |
| GarbledCircuit.OverwrittenInputDecodesWrongly | voprf-bench/voprf_e2e.cpp:280-280 | A two-wire circuit that negates its input in place decodes to 0 where the plain result is 1 |
| GarbledCircuit.OverwrittenInputMayDecodeRight | voprf-bench/voprf_e2e.cpp:280-280 | Negating it twice decodes right although the condition fails: the condition is not necessary |
| BmrProtocol.RunBmr | MP-SPDZ-master/BMR/Register.cpp:36-832 | For every number of parties, every program of AND, XOR, input, public, random and output operations that reads only assigned registers, every PRF and all inputs: no key check fails, every party gets the plain outputs, and every queue is empty at the end |
| BmrDealer.TrustedProgramParty.RandomPhase | MP-SPDZ-master/BMR/Register.cpp:688-788 | The random phase sends each party exactly its keys and input masks of every operation in program order, and keeps the wires and output masks |
| BmrDealer.TrustedProgramParty.GarbleAnd | MP-SPDZ-master/BMR/Register.cpp:303-425 | The in-place accumulation over parties gives the four rows: output key chosen by the masked product, padded with all parties' PRF values |
| BmrDealer.TrustedProgramParty.GarblingPhase | MP-SPDZ-master/BMR/Register.cpp:294-301 | Over the whole program the phase uses up every party's PRF queue and yields one garbled gate per AND, numbered in order |
| BmrParty.ProgramParty.PrfPhase | MP-SPDZ-master/BMR/Register.cpp:427-490 | The PRF phase consumes all keys the dealer sent and leaves the wires and PRF values of every operation in program order |
| BmrCircuit.RowOpens | MP-SPDZ-master/BMR/Register.cpp:217-292 | Taking all parties' padding off row (a, b) leaves, for every party, the output key for the hidden bit |
| BmrParty.ProgramParty.EvalGate | MP-SPDZ-master/BMR/Register.cpp:217-292 | If both inputs represent values, the opened entry represents their conjunction: the external bit is the value masked, and the keys are all parties' keys for it |
| BmrParty.ProgramParty.EvalOutput | MP-SPDZ-master/BMR/Register.cpp:771-781 | The signal-key check passes exactly if the party's key is the one the external value stands for, and only then there is an output; on a wire that represents a value it passes and the value is appended |
| BmrMpc.Garble | MP-SPDZ-master/BMR/RealProgramParty.hpp:165-209 | For any sequence of AND gates and any multiplication right on bits, the opened values are the dealer's rows, and every value put into the input and product queues is taken out again |
| BmrMpc.GarbleRun | MP-SPDZ-master/BMR/RealProgramParty.hpp:165-209 | Garbling the AND gates of a whole run without a dealer opens exactly the circuit the dealer's garbling phase sends, row after row |
| BmrMpc.GatesAreDealers | MP-SPDZ-master/BMR/RealGarbleWire.hpp:10-31 | Gate by gate, with the run's wires, masks and gate numbers, the rows are those of the dealer's circuit |
| BmrMpc.MiddleRound | MP-SPDZ-master/BMR/RealGarbleWire.hpp:39-64 | The products queued for a gate are every party's offset times the bit that says which output key row k hides |
| BmrMpc.LastRound | MP-SPDZ-master/BMR/RealGarbleWire.hpp:66-87 | From one key and 4n PRF values per party and 4n products, exactly one gate's worth is consumed and the dealer's four rows come out |
| Scheduling.Optimize | MP-SPDZ-master/Compiler/allocator.py:231-297 | The schedule contains every instruction once, keeps conflicting instructions (registers, and the order on every channel) in program order, merges only independent ones of one merge id, and leaves every register and every channel's log as the block does. Every mergeable instruction is in a round above its dependencies that has its merge id and room for it, no such round before is passed by unless a shortcut of its kind skips it, and none is if the classes of the block are simple; the depths are those of the turn-by-turn analysis. The round count is the number of depths with merged instructions and, with one merge class and no parallel limit, the longest dependency chain of them; without any, the block stays as it is |
| Scheduling.Merger.LongestPathsMerge | MP-SPDZ-master/Compiler/allocator.py:253-297 | The same for the in-place object, given an analysed block |
| Scheduling.Merger.Analyse | MP-SPDZ-master/Compiler/allocator.py:432-510 | One turn of the analysis: the graph is exactly the dependencies of the instructions so far, depths never fall along an edge and rise into mergeable instructions, each round has one type and the recorded weight, and the instruction is placed |
| Scheduling.Merger.FindDepth | MP-SPDZ-master/Compiler/allocator.py:467-482 | From the first round above the dependencies on, the search tries exactly the rounds the shortcuts lead to, all blocked but the last; the tables take up the new type, the weight, and the shortcut from every round tried |
| Replay.PlacementIsUnique | MP-SPDZ-master/Compiler/allocator.py:467-482 | The block and the limit determine the round of every instruction |
| Shortcuts.HarmlessIfSimple | MP-SPDZ-master/Compiler/allocator.py:467-482 | All blocks over a set of merge classes have every instruction in the first round that fits if and only if every kind has one merge id, or rounds hold one instruction, or there are at most two merge ids and no limit |
| Shortcuts.ShortcutMissesRound | MP-SPDZ-master/Compiler/allocator.py:467-482 | Four independent instructions, the last three of one kind with merge ids a, b, a: the last one jumps past the round of its own merge id |
| Scheduling.FourRounds | MP-SPDZ-master/Compiler/allocator.py:467-482 | For these four the scheduler takes four rounds |
| Shortcuts.ThreeRoundsWouldDo | MP-SPDZ-master/Compiler/allocator.py:467-482 | Three rounds would do for them, everything in the first round that fits |
| Scheduling.Merger.KeepOrder | MP-SPDZ-master/Compiler/allocator.py:399-406 | An instruction on a channel is linked to the last one on it; with that all dependencies of the instruction are linked |
| Scheduling.Merger.DoMerge | MP-SPDZ-master/Compiler/allocator.py:231-251 | Merging a set of peers keeps edges ascending, every dependency between representatives and everything outside the set |
| Scheduling.Merger.MergeNodes | MP-SPDZ-master/Compiler/allocator.py:520-530 | The graph is contracted: the edges of j go to i, self-loops do not arise, successor and predecessor tables stay in step |
| Dependencies.ConflictsAscend | MP-SPDZ-master/Compiler/allocator.py:334-353 | Linking only to last writers and readers suffices: any numbering that grows along these edges grows along all conflicts |
| Merging.MergeStep | MP-SPDZ-master/Compiler/allocator.py:520-530 | One merge of two peers preserves the invariant that makes the merged graph acyclic and covering |
| Merging.SortedIsFaithful | MP-SPDZ-master/Compiler/allocator.py:289-295 | Any topological order of the merged graph, removed nodes dropped, is a faithful schedule |
| Merging.FaithfulKeepsMeaning | MP-SPDZ-master/Compiler/allocator.py:253-297 | A faithful schedule computes the same state as the block from every start state |
| Instructions.ReorderingKeepsMeaning | MP-SPDZ-master/Compiler/allocator.py:289-295 | Any order that keeps conflicting instructions in place computes the same state |
| Instructions.MergedIsSequential | MP-SPDZ-master/Compiler/allocator.py:241-248 | A merged instruction of independent parts does what its parts do one after the other |
| Rounds.ChainFitsRounds | MP-SPDZ-master/Compiler/allocator.py:460-482 | No chain of dependent mergeable instructions is longer than the number of rounds |
| Rounds.ChainNeedsRounds | MP-SPDZ-master/Compiler/allocator.py:460-482 | With tight depths some chain needs all rounds |
| TopologicalSorting.TopologicalSort | MP-SPDZ-master/Compiler/graph.py:105-154 | On every finite graph the iterative search ends; it returns an order, a permutation of the nodes with all edges forward, if and only if the graph has no cycle, and otherwise names a node on one |
| SparseGraph.SparseDiGraph.RemoveNode | MP-SPDZ-master/Compiler/graph.py:64-76 | The node leaves its neighbours' tables while its own successor list stays, as in the source |
| SparseGraph.SparseDiGraph.AddEdge | MP-SPDZ-master/Compiler/graph.py:78-82 | The edge is entered in both tables, once |
| RegisterAllocation.Allocate | MP-SPDZ-master/Compiler/allocator.py:63-169 | On every single-assignment program the scan never reports a double write. On success overlapping bases get disjoint blocks, every instruction of the renamed program reads what the original reads, and the registers used of a type are the sum over the sizes of the greatest number of bases of that type and size live at once, times the size. It overflows only if that sum exceeds n for some type; with unit sizes it succeeds if and only if at every instruction at most n bases of each type are live, and then uses no register beyond the least number that suffices |
| RegisterAllocation.StraightlineAllocator.Process | MP-SPDZ-master/Compiler/allocator.py:137-169 | The same for the in-place object and its tables |
| RegisterAllocation.StraightlineAllocator.AllocReg | MP-SPDZ-master/Compiler/allocator.py:74-97 | A new base gets a free block of its size if there is one, and only otherwise the usage grows by the size; no other base moves; it fails exactly if no block of that size is free and the usage of the type has reached n |
| RegisterAllocation.StraightlineAllocator.DeallocReg | MP-SPDZ-master/Compiler/allocator.py:99-135 | The element is marked; the block becomes free exactly when the last element of its base is marked, and nothing else changes |
| RegisterAllocation.StuckNeedsMore | MP-SPDZ-master/Compiler/allocator.py:74-97 | A scan that is stuck has a type whose peak use exceeds n registers |
| RegisterAllocation.PeakCountIsGreatest | MP-SPDZ-master/Compiler/allocator.py:74-97 | The peak count of a type and size is the greatest number of its bases live at one instruction |
| VirtualRegisters.RenamingKeepsMeaning | MP-SPDZ-master/Compiler/allocator.py:137-169 | If no location is overwritten while its element is still to be read, all reads of the renamed program agree |
| FreeBlocks.Run | MP-SPDZ-master/Compiler/allocator.py:15-61 | Over every sequence of requests and returns, free and taken cells are always disjoint and together the initial memory; every request is met by the front of a block that fits if there is one, and every returned block joins the one behind it |
| FreeBlocks.BlockAllocator.Push | MP-SPDZ-master/Compiler/allocator.py:26-33 | The free blocks afterwards are the old ones with the freed block and the free block right behind it as one; both indexes keep describing the same disjoint blocks; exactly when the sum exceeds the bucket range the call fails and the neighbour is lost, as in the source |
| FreeBlocks.BlockAllocator.Pop | MP-SPDZ-master/Compiler/allocator.py:35-61 | Returns nothing if and only if every free block is too small; otherwise the front of one block leaves and its rest stays, a block of the very size if there is one, else one of the lowest bucket that has a block large enough |
| FreeBlocks.PushThenPop | MP-SPDZ-master/Compiler/allocator.py:26-61 | Right after a successful push a block as large as the freed one and its neighbour together can be had |
| FreeBlocks.FloorLog2Is | MP-SPDZ-master/Compiler/allocator.py:21-24 | The integer logarithm l of s is the one with 2^l at most s and 2^(l + 1) above it |
| FreeBlocks.FloorLog2Buckets | MP-SPDZ-master/Compiler/allocator.py:21-24 | The integer logarithm is one of the bucket functions the allocator is proved for |
| DijkstraSearch.Dijkstra | MP-SPDZ-master/Compiler/dijkstra.py:218-263 | With at least one iteration per edge out of a reachable vertex, distances and predecessors are exact and unreachable vertices empty if and only if vertex 0 is reachable or the edges of vertex 0 taken in the iterations left over each end at a vertex reached within their weight |
| DijkstraSearch.UnreachableZero | MP-SPDZ-master/Compiler/dijkstra.py:218-263 | A graph of three vertices and three iterations for which the result is wrong |
| DijkstraSearch.ConvertGraph | MP-SPDZ-master/Compiler/dijkstra.py:265-275 | The flattened edge list has every vertex's edges in order with the last one marked, in the layout the search needs |
| ShortestPaths.EdgesSuffice | MP-SPDZ-master/Compiler/dijkstra.py:242-242 | The default number of iterations is enough |
| ShortestPaths.RelaxStep | MP-SPDZ-master/Compiler/dijkstra.py:252-262 | Relaxing an edge keeps all certificates; popped vertices keep their distances |
| PriorityQueue.HeapQ.Pop | MP-SPDZ-master/Compiler/dijkstra.py:117-150 | Returns and removes a value of least priority, heap order and reverse index kept; on an empty queue it returns 0 and leaves at most a stale index to the root |
| PriorityQueue.HeapQ.Update | MP-SPDZ-master/Compiler/dijkstra.py:151-161 | Inserts a value or lowers its priority, changing nothing else in the queue |
| PriorityQueue.HeapQ.BubbleUp | MP-SPDZ-master/Compiler/dijkstra.py:97-115 | Starting from the lowest level below the changed entry, heap order is restored and the contents stay |
| Matching.Matchmaker.Match | MP-SPDZ-master/Compiler/gs.py:194-240 | Ends within n * n proposals, as many as counted, in a perfect stable matching in which every man gets the best partner he has in any stable matching |
| Matching.Matchmaker.Propose | MP-SPDZ-master/Compiler/gs.py:173-191 | A woman takes the proposer if she is free or prefers him, and whoever she turns down is on the stack |
| Matching.Matchmaker.NextProposal | MP-SPDZ-master/Compiler/gs.py:217-233 | One pass of the loop is one round of the specification, proposals counted; no man runs off his list |
| OddEvenMergeSort.OddEvenMergeSort | MP-SPDZ-master/Compiler/library.py:517-531 | In place: lists whose length is a power of two become a sorted permutation, all others are refused untouched |
| OddEvenMergeSort.MergedSorted | MP-SPDZ-master/Compiler/library.py:504-515 | Merging two sorted halves gives a sorted list |
| OddEvenMergeSort.MergedElements | MP-SPDZ-master/Compiler/library.py:504-515 | Merging loses, invents and duplicates nothing, whatever the input |
| StablePartition.DestIs | MP-SPDZ-master/Compiler/decision_tree.py:48-61 | The destination of an entry is its rank among the zeros, or behind all zeros its rank among the ones |
| StablePartition.DestPermutes | MP-SPDZ-master/Compiler/decision_tree.py:48-61 | The destinations are a permutation |
| PermutedSums.ApplyInverse | MP-SPDZ-master/Compiler/decision_tree.py:54-61 | unapply undoes apply and apply undoes unapply |
| Vectors.PrefixSumInverse | MP-SPDZ-master/Compiler/decision_tree.py:25-46 | Differences undo prefix sums from either end |
| GroupOps.GroupSumIs | MP-SPDZ-master/Compiler/decision_tree.py:102-110 | At every position the result is the sum over the position's group |
| GroupOps.GroupPrefixSumIs | MP-SPDZ-master/Compiler/decision_tree.py:112-119 | At every position the result is the sum from the head of its group on |
| GroupMaximum.GroupMax | MP-SPDZ-master/Compiler/decision_tree.py:121-158 | At every position: the group's greatest key, and every payload column at one and the same place that attains it |
| GroupOps.GroupFirstOneIs | MP-SPDZ-master/Compiler/decision_tree.py:227-230 | One exactly at the first one of every group |
| GroupOps.GroupSameIs | MP-SPDZ-master/Compiler/decision_tree.py:217-225 | One exactly where all of the group's bits agree |
| TestSelection.GlobalTestSelection | MP-SPDZ-master/Compiler/decision_tree.py:301-353 | Every position gets attribute and threshold of a test of its group with the highest score over all attributes |
| TreeLayout.LayoutKept | MP-SPDZ-master/Compiler/decision_tree.py:375-399 | From layer to layer equal node numbers stay contiguous, heads are marked, and numbers lie in 1 to 2^k |
| DecisionTree.PicksGroup | MP-SPDZ-master/Compiler/decision_tree.py:484-491 | Picking by node number from a formatted and cropped layer gives the entry of the number's group |
| DecisionTree.RunDecisionTree | MP-SPDZ-master/Compiler/decision_tree.py:493-518 | Prediction is the leaf label picked by the node number that the recursive walk reaches |
| TreeTraining.TreeTrainer.TrainLayer | MP-SPDZ-master/Compiler/decision_tree.py:375-399 | One layer: at every position the test is attribute 0 with MIN_VALUE exactly if the labels of its group agree, and otherwise a candidate with the best score over all attributes and positions of the group; packed layer, new numbers, one stable sort of all columns; the layout is kept |
| TreeTraining.TrainedIsBest | MP-SPDZ-master/Compiler/decision_tree.py:355-399 | What the layers record says of the tree: at every layer the node a sample reaches has no test if the labels of the samples reaching it agree, and else one with the best score of all attributes and samples there |
| TreeTraining.Train | MP-SPDZ-master/Compiler/decision_tree.py:432-468 | For every training set, depth and scoring of tests: every node that training samples reach has the best test for them or none, and predicting any training sample gives the strict majority label of the samples that reach its leaf |
| PrefixNetworks.AllAgree | MP-SPDZ-master/Compiler/floatingpoint.py:141-185 | For every associative operation and list, the three networks agree with the sequential prefixes |
| PrefixNetworks.NetworkStands | MP-SPDZ-master/Compiler/floatingpoint.py:141-157 | Parts of an operand that the flag lets a combination skip are never used |
| Adders.BitAdd | MP-SPDZ-master/Compiler/floatingpoint.py:242-263 | The k + 1 result bits are the sum; no skipped propagate bit is read |
| CarryTree.CarryOutRaw | MP-SPDZ-master/Compiler/comparison.py:399-457 | The tree's carry is the carry of the addition, carry-in included, for every length |
| CarryTree.BitLTL | MP-SPDZ-master/Compiler/comparison.py:470-484 | One exactly if the clear number's low bits are less than the bit-wise number |
| RingArithmetic.LtzRing | MP-SPDZ-master/Compiler/comparison.py:85-104 | One exactly for negative k-bit numbers, for every mask |
| RingArithmetic.Mod2mRing | MP-SPDZ-master/Compiler/comparison.py:230-242 | The remainder modulo 2^m, for every mask |
| RingArithmetic.TruncRing | MP-SPDZ-master/Compiler/comparison.py:127-165 | The quotient by 2^m rounded down, signed or not, for every pair of masks |
| RingArithmetic.TruncLeakyInRing | MP-SPDZ-master/Compiler/comparison.py:176-202 | The same with one mask |
| RingArithmetic.TruncPrRing | MP-SPDZ-master/Compiler/floatingpoint.py:497-541 | The quotient of a + lower by 2^m, whatever the upper mask bits |
| RingArithmetic.RoundingUp | MP-SPDZ-master/Compiler/floatingpoint.py:497-541 | Exactly a mod 2^m of the 2^m values of lower round up |

## Left out

- Scheduling.Optimize: the orders kept for text input and raw input (keep_text_order, keep_merged_order) and for memory
  instructions are not part of the model; the memory tables of the source add no edge between two writes, and vectors
  beyond 100 cells are not ordered at all, so preserving meaning does not hold for them. A register is its own and only
  duplicate, no instruction is both on a channel and mergeable, dead-code elimination, edge weights and statistics are
  omitted, and topological_sort is called without a preference. Where shortcuts are not harmless for the classes of a
  block, the block itself may still be placed well; the exact condition is one on classes with positive weights.
- RegisterAllocation.Allocate: the exact condition for success is stated for blocks of size 1; a larger block may still
  start below n and end above it, so success only means that the use is below n plus the largest size, and overflow that
  the peak use exceeds n. Linked registers (duplicates) and a pool left over from an earlier block are omitted.
- GarbledCircuit.GarblingIsCorrect: the condition on input wires is sufficient; an exact one would depend on what the
  hash does to a stale label.
- Voprf.RunSession: labels travel by an ideal random transfer, sockets keep order and lose nothing, the prover and its
  verifier are one Boolean and one check on the bytes of the proof; at least one evaluation; lengths below 2^64.
- BmrProtocol.RunBmr: parties run in lockstep; the gate function is AND; programs assign a register before reading it;
  threads, SPDZ wires, dynamic memory and the conversion of public bits are omitted.
- BmrMpc.Garble: shared values are modelled by the secrets they stand for, so authentication and opening are not.
- FreeBlocks.BlockAllocator.Pop: the order in which the sizes of a bucket are tried is left open; the bucket function is
  any monotone one with 64 values, since the source computes it in floating point.
- DijkstraSearch.Dijkstra: at least two vertices, every vertex with an outgoing edge (as convert_graph assumes); the
  access pattern of the oblivious RAM is not modelled; an access out of range has no effect, as in the linear one. Calls
  with fewer iterations than edges out of reachable vertices are not covered.
- Matching.Matchmaker.Match: as many men as women, complete lists; the variant with a fixed number of loops is omitted.
- TreeTraining.Train: the scores (modified Gini) and candidate thresholds of an attribute are abstract, the multi-key
  sort is its result, leaves are not limited in number, and the secret comparison is any function right on k-bit
  differences; entries are unbounded integers.
- RingArithmetic.LtzRing: the use_split branches are omitted; numbers have at least two bits.
- RingArithmetic.TruncPrRing: numbers as wide as the ring and the trunc_pr instruction are omitted.
- CarryTree.CarryOutRaw: the linear_rounds branch is omitted; it ignores the carry-in.
- Adders.BitAdd: all result bits are computed; the parameter that selects some is omitted.
- OddEvenMergeSort.OddEvenMergeSort: elements are integers; the chunked and threaded variants are omitted.
- The Yao evaluator and garbler with the PPSS reconstruction, the STARK circuit, floating-point and fixed-point
  protocols, ml.py, mpc_math.py and the tree-based oblivious RAMs are not part of this model.
- RegintOptimizer and the instruction tables of the compiler are not part of this model.
