# StripeMerge: a verified model

StripeMerge turns narrow erasure-coded stripes (`k` data blocks, `m` parity blocks, each on a node of its
own) into wide ones by merging them in pairs. Which pairs are merged decides how many blocks have to
travel. This project models the parts of the program that decide and carry out that migration, and proves
what they promise. `dafny verify dfyconfig.toml` checks all of it.

**Matching and planning** (`src/matching_generator.cc`, `src/stripe.cc`)

| file | what it holds |
|---|---|
| `Stripes.dfy`, `CostTerms.dfy` | placements, the cost of merging two stripes, and that cost term by term |
| `BitTricks.dfy` | the enumeration of `k`-element masks with word operations |
| `Keys.dfy` | partial parity keys, and when two stripes share one |
| `CostTable.dfy` | the triangular memo table of pair costs |
| `Matchings.dfy` | marks of matched stripes, the greedy guarantee, and what follows from it |
| `SearchIndex.dfy` | the index of stripes by parity placement and by partial key, cleaned up lazily |
| `SearchSteps.dfy` | the steps of the indexed search |
| `PlainSearch.dfy`, `PlainChoice.dfy` | the same search as plain scans over all stripes, without index, bit tricks and clean-up |
| `GreedySteps.dfy`, `GreedyOrder.dfy` | the steps of the exhaustive greedy, and the order that determines its result |
| `Optimizer.dfy` | re-pairing costly pairs with free ones |
| `Bookkeeping.dfy`, `OptimizerEnd.dfy`, `SwapChoice.dfy` | what the search records for the optimiser, which swaps it makes, and where it stops |
| `Transfers.dfy`, `PlanShape.dfy`, `Spread.dfy` | the transfer plan of one pair, transfer by transfer, and what it does to the blocks |
| `Schemes.dfy` | the transfer plan of a whole matching |
| `Generator.dfy` | the class `MatchingGenerator`: StripeMerge-G and StripeMerge-P from end to end |
| `Migration.dfy`, `Arithmetic.dfy` | one transfer; integer division |

**Baseline scheme** (`src/ncscale_simulation.cc`): `NCScale.dfy`.

**Block pipeline of a helper node** (`src/tcp_server.cc`, `include/thread_pool.hh`, `src/memory_pool.cc`,
`src/compute_worker.cc`, `src/write_worker.cc`)

| file | what it holds |
|---|---|
| `Pipeline.dfy` | the threads as a transition system; every section under a mutex is one step |
| `PipelineRuns.dfy` | what every run keeps, that every run ends, and that none gets stuck |
| `PipelineDrain.dfy` | exactly when every run writes everything it received |
| `PipelineOrder.dfy` | in which order, and what the files hold |
| `Pools.dfy` | the pools as objects, and the loop of a worker while others go on |

## Main results

* The cost of a pair is the number of misaligned parity blocks plus the number of blocks that find their
  node taken. It is between zero and `k + m`, zero exactly for aligned parities and disjoint data nodes, and
  it depends on the order of the two stripes (`CostIsNotSymmetric`). A parity block takes a free node whenever
  one of its two nodes is free (`CostTerms.FreeNodeTaken`). The program copes because it computes a
  cost with the smaller index first and plans a pair in the same order.
* After round `c` of StripeMerge-P no two unmatched stripes cost `c` or less, although it only looks at
  stripes that share a key, stops early, caches tentative partners that may have been matched meanwhile, and
  removes matched stripes from its lists late.
* StripeMerge-P's indexed search marks the same pairs and records the same entries as plain scans over all
  stripes in index order (`PlainSearch.Rounds`): keys, masks from bit tricks, lazily cleaned lists and the
  shrinking list of remaining stripes make no difference.
* StripeMerge-G is the greedy in the order (cost, smaller index, larger index): of any two stripes that are not
  partners, one is in a pair that comes before theirs. There is only one such matching
  (`GreedyOrder.IndexGreedyUnique`), so the returned total is determined.
* For any number of stripes, both algorithms match all of them (all but one if the number is odd), with true
  costs, so that no two stripes would both be better off with each other. From that alone: the matching saves
  at least half the blocks that any other matching saves, and has at every cost level at least half as many
  pairs up to that level.
* The optimiser lowers the total by exactly what the candidates that find a swap cost before, and leaves no pair
  of aligned parities and a cost from 1 to `m - 1` that could still be freed by re-pairing it with a free pair.
* The greedy's return value, the printed total and the size of the transfer plan are one number.
* In every state that any run of the pipeline reaches, for any number of threads, every memory block is in
  exactly one place and every chunk on its way to a file is in the right buffer, encoded the right number of
  times. No run gets stuck and every run ends. What is taken from a connection is the beginning of its input,
  up to the first header with equal ends; queues are first in, first out, and with one worker of each kind the
  chunks of a connection are written in the order of its input.
* The pipeline writes every received chunk exactly once, in all its complete runs, exactly when there is one
  compute worker or nothing to encode. In any case it leaves fewer chunks unwritten than there are compute
  workers.

## Where the code differs from what it is meant to do

* **Relocation targets** (`src/matching_generator.cc:431-432`). The program takes a relocation's target from
  the front of the list of free nodes but removes an entry from its back, so all relocations of a pair go to
  one node. The model keeps that. The blocks of the wide stripe end up on different nodes if and only if at
  most one block has to be relocated (`Spread.DistinctNodesIff`; `Spread.TwoMovesCollide` is the
  smallest failure). `Spread` proves that they do for every choice of different free targets, and for no
  other, and that `nodeNum >= 2k + m` always leaves such a choice. The number of transfers is the same.
* **Sealing the write queue** (`src/compute_worker.cc:33-38`). Every compute worker that finds its queue
  sealed and empty seals the write queue, even while another one still holds a chunk. If the write workers
  leave before that chunk is passed on, it is never written. The model keeps that; `PipelineDrain.LosslessIff`
  says for which configurations it matters, and `PipelineDrain.LossIsLimited` how much can be lost. A node
  starts as many compute workers as there are nodes (`src/tcp_node.cc:67`).

## Model

| member | source | states |
|---|---|---|
| Stripes.CountDataOverflow | src/stripe.cc:36-48 | the first loop counts the data blocks whose node is already taken: count and distinct nodes add up to `2k` |
| Stripes.PlaceParity | src/stripe.cc:53-65 | one parity block: misaligned, it costs one and goes to the first stripe's node unless that is taken, else to the second's; a taken destination costs one more; exactly the destination gets occupied |
| Stripes.CountParityCost | src/stripe.cc:50-66 | the second loop's cost is the misaligned parities plus the parity blocks that find their node taken |
| Stripes.ComputeCost | src/stripe.cc:32-68 | the result is misaligned parities plus `2k + m` minus the number of occupied nodes |
| Stripes.FirstStripeCovered | src/stripe.cc:52-65 | every node of the first stripe and every data node of the second ends up holding a block |
| Stripes.CostBounds | src/stripe.cc:32-68 | misaligned parities <= cost <= `k` + misaligned parities, and cost <= `k + m`, so cost-indexed tables are never overrun |
| Stripes.FreeMergeIff | src/stripe.cc:32-68 | a pair is free if and only if its parities are aligned and its data nodes are disjoint |
| Stripes.CostIsNotSymmetric | src/stripe.cc:52-66 | two well-placed stripes whose costs in the two orders are 3 and 2 |
| CostTerms.FreeNodeTaken | src/stripe.cc:53-65 | a parity block takes the first stripe's node if free, else the second's; no node is added if and only if both were taken |
| CostTerms.CostTerms | src/stripe.cc:32-68 | the cost is the number of common data nodes plus misaligned parities plus positions both of whose nodes were taken |
| CostTerms.MismatchesCount | src/stripe.cc:55-57 | the misaligned parities are counted position by position |
| Keys.MakeKey | src/matching_generator.cc:30-39 | the loop yields the parity nodes at the mask's positions followed by the mask |
| Keys.SameKeyIff | src/matching_generator.cc:30-45 | two stripes have the same key if and only if the masks are equal and the parities agree on the mask's positions |
| Keys.SharedKey | src/matching_generator.cc:245-263 | stripes with at least `k` aligned parities have the key of some `k`-element mask in common |
| BitTricks.NextCombShape | src/matching_generator.cc:264-266 | the step moves the top one of the lowest run of ones up by one place and the rest of the run to the bottom |
| BitTricks.NextCombIsSuccessor | src/matching_generator.cc:264-266 | the step yields the next larger word with as many one bits and skips none, for any word width |
| BitTricks.MasksFromComplete | src/matching_generator.cc:250-267 | from any mask on, the loop lists all larger masks of the same size in increasing order, once each, and ends |
| BitTricks.FirstMask | src/matching_generator.cc:247 | `(1 << k) - 1` is the least word with `k` one bits |
| BitTricks.MasksVisitEveryKSubset | src/matching_generator.cc:247-267 | the loop visits every `k`-element mask of `m` positions exactly once, and nothing else |
| BitTricks.OnlyFullMaskIsFull | src/matching_generator.cc:236-250 | the guard `comb < all_one` cuts off no mask with fewer than `m` elements |
| CostTable.TriIndexInRow | src/matching_generator.cc:51-55 | the index formula addresses the pair's cell in row `i` of the triangle |
| CostTable.TriIndexInjective | src/matching_generator.cc:51-55 | indices are within the table and different pairs have different cells |
| CostTable.TriIndexOnto | src/matching_generator.cc:51-55 | every cell belongs to a pair |
| CostTable.TableSize | src/matching_generator.cc:9-11 | the rows of the triangle add up to the allocated `n(n-1)/2` cells |
| CostTable.FillKeepsTable | src/matching_generator.cc:56-60 | filling a cell keeps every cell empty or equal to its own pair's cost |
| CostTable.PairCostFacts | src/matching_generator.cc:50-61 | a pair, in index order, costs at least its misaligned parities and at most `k + m`; a free pair is aligned |
| Generator.MatchingGenerator.constructor | src/matching_generator.cc:3-12 | nothing is matched or indexed, and the memo table is empty |
| Generator.MatchingGenerator.GetCost | src/matching_generator.cc:50-61 | over any sequence of calls, in either order of the arguments, the result is the cost of the pair in index order |
| Generator.MatchingGenerator.MarkMatched | src/matching_generator.cc:67-85 | marks both stripes; if asked to, puts a free pair at the front of its parity list and appends an aligned costly pair to the candidates, and nothing else |
| Matchings.SelectKeeps | src/matching_generator.cc:67-71 | selecting a cheapest unselected pair keeps the pairing and the greedy guarantee |
| Matchings.AlmostEveryoneSelected | src/matching_generator.cc:159-172 | when no unselected pair is left at any cost, at most one stripe is unselected |
| Matchings.LeftoverParity | src/matching_generator.cc:67-71 | the number of stripes left over has the parity of the number of stripes |
| Matchings.GuardedStable | src/matching_generator.cc:159-172 | built by cheapest selections until at most one stripe is left, a matching has no two stripes that would both be better off together |
| Matchings.HalfOptimal | src/matching_generator.cc:121-185 | such a matching is worth at least half of any other, for every valuation under which cheaper pairs are worth no less |
| Matchings.HalfOptimalSaving | src/matching_generator.cc:121-185 | it saves at least half of the blocks any other matching saves |
| Matchings.HalfOptimalLevels | src/matching_generator.cc:159-172 | at every cost level it has at least half as many pairs up to that level as any other matching |
| Matchings.SelectAddsCost | src/matching_generator.cc:163-166 | a selection adds its cost to the total |
| Matchings.TotalIsPairSum | src/matching_generator.cc:93-119 | the total of the selected stripes is the sum over the pairs of the matching, each counted once |
| Matchings.VisitPair | src/matching_generator.cc:96-101 | the flag test picks exactly the smaller index of every pair |
| SearchIndex.EraseAll | src/matching_generator.cc:225-229 | emptying a clean-up queue removes exactly its stripes and keeps the order of the others |
| SearchIndex.AppendParity | src/matching_generator.cc:21-27 | listing a stripe by parity keeps every list free of repetition and under its own key, and lists all stripes so far |
| SearchIndex.AppendPartial | src/matching_generator.cc:30-45 | the same for one partial key of a stripe |
| SearchIndex.ShrinkParityList | src/matching_generator.cc:215-229 | dropping stripes that are no longer to be matched from a parity list keeps the index complete for the others |
| SearchIndex.ShrinkPartialList | src/matching_generator.cc:215-229 | the same for a list of a partial key |
| SearchIndex.LiveStripesOfKey | src/matching_generator.cc:15-47 | an unmatched stripe is in its own list, and another one is there too if and only if their parities agree on the mask |
| SearchIndex.CheapPairsMeet | src/matching_generator.cc:245-263 | two stripes of cost at most `c` share the key of some mask of `m - c` positions |
| SearchIndex.MasksCoverAll | src/matching_generator.cc:245-268 | once all masks of `m - c` positions are searched, no unmatched stripe of cost at most `c` is left |
| SearchSteps.ScanMeans | src/matching_generator.cc:191-230 | what a scan of one list, stopped early or not, establishes for the stripe and the list |
| SearchSteps.CleanUp | src/matching_generator.cc:215-229 | the erasures remove exactly the new pair and the matched stripes that were passed |
| SearchSteps.MaskSearched | src/matching_generator.cc:260-263 | searching one key's list settles its mask and keeps every unmatched stripe listed |
| SearchSteps.ShortList | src/matching_generator.cc:260-263 | a list with at most one stripe may be skipped |
| SearchSteps.ParitySearched | src/matching_generator.cc:238-243 | searching the parity list settles cost zero |
| SearchSteps.MaskTurn | src/matching_generator.cc:250-267 | one turn of the mask loop leaves no smaller mask of the size unsearched |
| SearchSteps.AllMasksDone | src/matching_generator.cc:245-268 | when the mask loop fails, the stripe costs more than the target with every unmatched stripe |
| SearchSteps.AfterMarking | src/matching_generator.cc:300-303 | marking the pair that was found keeps the index, the tentative candidates, the guarantee and the optimiser's bookkeeping |
| SearchSteps.RoundStep | src/matching_generator.cc:281-305 | handling one stripe keeps what the round has established for the stripes before it |
| SearchSteps.RoundDone | src/matching_generator.cc:280-311 | after round `c` no two unmatched stripes cost `c` or less and no tentative candidate does |
| SearchSteps.SweepDone | src/matching_generator.cc:306-310 | the round's clean-up drops every stripe matched before the round and no unmatched one |
| PlainSearch.BestOfWithout | src/matching_generator.cc:191-214 | stripes matched already make no difference to a scan, wherever they are in the list |
| PlainSearch.ListSearch | src/matching_generator.cc:187-231 | searching a list that lost only matched stripes is searching the full list |
| PlainSearch.MaskListSearch | src/matching_generator.cc:255-263 | the index's list for a mask gives what a scan of all stripes that agree on the mask gives, also when it is too short to be searched |
| PlainSearch.ParityListSearch | src/matching_generator.cc:238-243 | the same for the parity list |
| PlainSearch.OneMask | src/matching_generator.cc:250-267 | the bit step skips only words that are no masks of the size |
| PlainSearch.EndMasks | src/matching_generator.cc:250-268 | when the mask loop ends, the search is that over all masks |
| PlainSearch.RoundWithout | src/matching_generator.cc:281-310 | stripes matched already make no difference to a round |
| PlainSearch.RoundOverRemaining | src/matching_generator.cc:280-311 | a round over the remaining stripes is a round over all of them |
| PlainSearch.NobodyLeft | src/matching_generator.cc:280 | once all stripes are matched, further rounds change nothing |
| PlainChoice.FirstBest | src/matching_generator.cc:191-214 | if nobody costs less than the target, the scan that stops at the target finds the first of the cheapest stripes of the whole list |
| Generator.MatchingGenerator.Scan | src/matching_generator.cc:191-214 | the scan finds the cheapest unmatched partner among those seen, if it beats the tentative one, and queues the matched ones; its choice is that of the plain scan |
| Generator.MatchingGenerator.SingleSearch | src/matching_generator.cc:187-231 | either a partner of the target cost, or the certainty that the list has none and a true tentative candidate, as the plain search of that list |
| Generator.MatchingGenerator.SearchKey | src/matching_generator.cc:260-263 | searching the list of a key settles its mask and keeps every unmatched stripe listed |
| Generator.MatchingGenerator.SearchMask | src/matching_generator.cc:250-263 | one mask, its list searched or skipped: the outcome is that of scanning all stripes that agree on the mask |
| Generator.MatchingGenerator.SearchParity | src/matching_generator.cc:238-243 | the parity list, searched or skipped: the outcome is that of scanning all stripes of this parity placement |
| Generator.MatchingGenerator.TryMask | src/matching_generator.cc:250-267 | one turn of the mask loop: a partner, or one more mask settled and none skipped |
| Generator.MatchingGenerator.MaskLoop | src/matching_generator.cc:250-267 | the loop ends with a partner or with all masks settled, and leads to the plain search's outcome |
| Generator.MatchingGenerator.SearchMasks | src/matching_generator.cc:244-268 | a partner of exactly the target cost, or everyone unmatched costs more; the outcome is that of trying all masks of `m - target` positions in increasing order |
| Generator.MatchingGenerator.SearchForMatching | src/matching_generator.cc:233-270 | the same for every target below `m` |
| Generator.MatchingGenerator.FindPartner | src/matching_generator.cc:288-299 | a tentative candidate of the round's cost is used if still free, and otherwise dropped and searched again |
| Generator.MatchingGenerator.ProcessStripe | src/matching_generator.cc:288-304 | the stripe gets matched and noted for the optimiser, or costs more than the round with everyone; marks and records are those of the plain visit |
| Generator.MatchingGenerator.VisitStripe | src/matching_generator.cc:281-305 | the stripe is handled as the round demands; it is queued for removal only if matched by then, and always if matched before |
| Generator.MatchingGenerator.VisitNext | src/matching_generator.cc:281-305 | one turn of the round's loop keeps the round's guarantee and the clean-up queue, and is one visit of the plain round |
| Generator.MatchingGenerator.Round | src/matching_generator.cc:280-311 | after round `c` no two unmatched stripes cost `c` or less; every stripe matched before the round leaves the list, no unmatched one does, and the order stays; marks and records are those of a plain round over all stripes |
| Generator.MatchingGenerator.IndexMasks | src/matching_generator.cc:30-45 | the stripe is listed once under each of its `2^m - 1` partial keys |
| Generator.MatchingGenerator.BuildMap | src/matching_generator.cc:15-47 | the index lists every stripe exactly once under each of its keys and under no other |
| Generator.MatchingGenerator.RunRounds | src/matching_generator.cc:280-311 | after the rounds no two unmatched stripes cost less than `m`, all of them are in the remaining list, and marks and records are those of the plain rounds |
| Generator.MatchingGenerator.RoundLoop | src/matching_generator.cc:280-311 | the rounds end at cost `m`, or earlier when no stripe remains |
| Generator.MatchingGenerator.DistBasedSearch | src/matching_generator.cc:272-358 | for any number of stripes: all matched but one of an odd number, true costs, no blocking pair. The plain rounds' pairs are kept and the rest is matched greedily in index order; the optimiser's result of that has no swap left, makes nobody pay more, and lowers the total by exactly what the swapped candidates cost |
| GreedySteps.GreedySelect | src/matching_generator.cc:163-166 | one selection keeps pairing, guarantee and flags, adds its cost, and there is always one left to count down |
| GreedySteps.LevelDone | src/matching_generator.cc:159-172 | once a level is exhausted, no unselected pair of its cost is left |
| GreedySteps.EnoughToSelect | src/matching_generator.cc:154-157 | selecting half the listed stripes leaves at most one, even if the list also has matched stripes |
| GreedySteps.AddUp | src/matching_generator.cc:173-181 | the loop returns the costs weighted by their counts |
| GreedyOrder.NoDifference | src/matching_generator.cc:131-171 | a pair that only one of two index-order greedy matchings has leads to an earlier one that only the other has |
| GreedyOrder.IndexGreedyUnique | src/matching_generator.cc:131-171 | there is only one such matching of all stripes, and so one total |
| GreedyOrder.PushKeepsSorted | src/matching_generator.cc:131-137 | pushing a pair behind its level keeps every level in index order |
| GreedyOrder.TakePair | src/matching_generator.cc:160-166 | selecting a pair whose stripes are both free keeps every pair resolved that had its turn |
| GreedyOrder.SkipPair | src/matching_generator.cc:160-169 | so does passing over one |
| GreedyOrder.GreedyEnds | src/matching_generator.cc:160-172 | after the last level every pair is resolved |
| Generator.MatchingGenerator.BuildLevels | src/matching_generator.cc:129-152 | the levels hold every pair of unmatched stripes under its cost, in index order, and nothing else |
| Generator.MatchingGenerator.SelectPair | src/matching_generator.cc:163-169 | the pair is selected if both stripes are there, and every pair that had its turn stays resolved; count and total grow by its cost |
| Generator.MatchingGenerator.SelectLevel | src/matching_generator.cc:160-171 | one level leaves no unselected pair of its cost and all its pairs resolved in index order, and the counts follow the total |
| Generator.MatchingGenerator.BasicGreedy | src/matching_generator.cc:121-185 | for any number of stripes: earlier pairs are kept, and of any two other stripes that are not partners at the end one is in a pair before theirs in the order (cost, smaller index, larger index); true costs, no blocking pair; the return value is the total cost; too few nodes are rejected |
| Optimizer.NoteKeeps | src/matching_generator.cc:67-85 | every zero-list entry stands for a different free pair and every candidate for a different costly aligned one, before and after a selection |
| Optimizer.FindSwapInList | src/matching_generator.cc:367-380 | the scan finds a free pair that allows a swap unless there is none in the list |
| Optimizer.RewireKeepsZeroMap | src/matching_generator.cc:370-371 | after a swap every zero-list entry still stands for a different free pair |
| Optimizer.RewireSaves | src/matching_generator.cc:370-376 | a swap keeps the pairs and their true costs and lowers the total by exactly the cost of the pair it frees |
| Optimizer.SwapKeeps | src/matching_generator.cc:369-379 | a swap keeps the remaining candidates and their costs, leaves the same stripes matched and makes none worse |
| Optimizer.OptimizeOneKeeps | src/matching_generator.cc:363-382 | handling a candidate keeps all of that and saves its cost exactly when it swaps |
| Optimizer.UnswappedIsStuck | src/matching_generator.cc:366-381 | a candidate is left alone only when no free pair of its parity placement could be re-paired with it |
| Bookkeeping.MarkKeepsRecorded | src/matching_generator.cc:74-84 | every free pair of the search has an entry in its parity list and every aligned pair of cost 1 to `m - 1` is a candidate, also after one more is marked |
| Bookkeeping.RestKeepsRecorded | src/matching_generator.cc:352-358 | the greedy for the rest, which records nothing, leaves that true |
| Optimizer.OptimizeAllKeeps | src/matching_generator.cc:360-384 | the whole pass keeps the pairs and their true costs, makes no stripe worse and lowers the total by exactly what the candidates that swap cost before |
| Optimizer.NoWorseKeepsStable | src/matching_generator.cc:357-384 | lower costs create no blocking pair |
| SwapChoice.OneInTurn | src/matching_generator.cc:363-382 | a candidate is re-paired with the first entry of its parity list that fits, straight rather than crossed, and is left alone only if none does; marks and list afterwards, outright |
| SwapChoice.CandidatesInTurn | src/matching_generator.cc:360-384 | the pass handles the candidates in order, each on what the ones before it left |
| OptimizerEnd.CandidateStuck | src/matching_generator.cc:360-384 | a candidate that pays to the end fits with no free pair that kept its partners |
| OptimizerEnd.OptimizerFinishes | src/matching_generator.cc:360-384 | afterwards no pair of aligned parities and a cost from 1 to `m - 1` could be freed by re-pairing it with a free pair, those that swaps have made included |
| Generator.MatchingGenerator.SwapPairs | src/matching_generator.cc:370-371 | two pairs become two other pairs of cost zero, one of them a new zero-list entry |
| Generator.MatchingGenerator.TrySwap | src/matching_generator.cc:369-379 | the straight swap, else the crossed one, else nothing |
| Generator.MatchingGenerator.TryList | src/matching_generator.cc:367-380 | the first free pair of the list that allows a swap gets it, and only that one |
| Generator.MatchingGenerator.OptimizeCandidate | src/matching_generator.cc:363-382 | one candidate is handled as `OptimizeOneKeeps` describes |
| Generator.MatchingGenerator.MakeOptimization | src/matching_generator.cc:360-384 | all candidates in order; the same stripes matched, none worse, the total lower by exactly what the swapped candidates cost |
| Generator.MatchingGenerator.FinishedSavesHalf | src/matching_generator.cc:272-358 | the result of either algorithm saves at least half of what any other matching saves |
| Generator.MatchingGenerator.FinishedHasHalfTheLevel | src/matching_generator.cc:121-185 | the result of either algorithm has at every level at least half as many pairs up to that level |
| Generator.MatchingGenerator.Visit | src/matching_generator.cc:443-444 | the pair is visited at its smaller index |
| Generator.MatchingGenerator.PrintStatics | src/matching_generator.cc:93-119 | the printed total is the total cost of the matching |
| Transfers.CountData | src/matching_generator.cc:387-395 | the counters hold the number of data blocks of every node |
| Transfers.PlaceParity | src/matching_generator.cc:398-412 | a misaligned block travels from the first stripe's node to the second's if the first's is taken, and else the other way; an aligned one stays; the counters follow |
| Transfers.PlaceParities | src/matching_generator.cc:397-413 | afterwards the counters are the loads of the `2k + m` blocks and the plan has one transfer per misaligned parity |
| Transfers.Classify | src/matching_generator.cc:418-424 | the queues hold exactly the overfull and the free nodes |
| Transfers.MoveOff | src/matching_generator.cc:430-435 | the surplus of a node goes to the front of the list of free nodes while the list loses its back |
| Transfers.Relocate | src/matching_generator.cc:427-436 | every block beyond a node's first is moved, to one and the same node; the list never runs out |
| Transfers.RelocationsMatchCost | src/matching_generator.cc:414-436 | the blocks to relocate are the overflow of the cost, and `nodeNum >= 2k + m` leaves at least as many free nodes |
| Transfers.PlanSizeIsCost | src/matching_generator.cc:386-437 | the plan of a pair has exactly as many transfers as the pair costs |
| PlanShape.ParityPart | src/matching_generator.cc:397-413 | the plan starts with one transfer per misaligned position, in order: source, target and coefficient |
| PlanShape.MovesPart | src/matching_generator.cc:427-436 | after them the relocations, all to the target with coefficient zero, by ascending source |
| Spread.FinalLoad | src/matching_generator.cc:386-437 | every transfer can be carried out, and where all blocks are afterwards |
| Spread.DistinctNodesIff | src/matching_generator.cc:427-436 | the blocks end up on different nodes if and only if at most one is relocated |
| Spread.TwoMovesCollide | src/matching_generator.cc:431-432 | two stripes of cost two whose plan puts two blocks on one node |
| Transfers.GetOneScheme | src/matching_generator.cc:386-437 | for every outcome of the shuffle, the plan is a `PairPlan` whose target is a node without a block |
| Spread.ProgramsTargets | src/matching_generator.cc:427-436 | the program's plan is the plan with the same target for every relocation |
| Spread.LoadWith | src/matching_generator.cc:427-436 | where all blocks are after a plan with any free targets |
| Spread.SpreadIff | src/matching_generator.cc:427-436 | the blocks end up on different nodes if and only if every relocation has a target of its own |
| Spread.EnoughTargets | src/matching_generator.cc:414-436 | with `nodeNum >= 2k + m` such targets exist, at the same number of transfers |
| Schemes.FreePairPlan | src/matching_generator.cc:445-447 | skipping a pair of cost zero is the same as planning it |
| Schemes.SchemeSize | src/matching_generator.cc:439-452 | the plans of the first stripes have as many transfers as their pairs cost |
| Schemes.PlansInOrder | src/matching_generator.cc:442-449 | the transfers of a pair stand together, after those of all stripes before it |
| Generator.MatchingGenerator.PlanPair | src/matching_generator.cc:443-448 | a pair is planned once, at its smaller index |
| Generator.MatchingGenerator.GetSendingScheme | src/matching_generator.cc:439-452 | the plans of all pairs in index order, as many transfers as the matching costs; a second call returns the first result |
| Generator.MatchingGenerator.Report | src/matching_generator.cc:93-119 | the printed total is the size of the plan |
| Generator.StripeMergeG | src/matching_main.cc:66-72 | from any placement to the index-order greedy matching, whose returned total, printed total and plan size agree |
| Generator.StripeMergeP | src/matching_main.cc:37-48 | from any placement to the optimised form of what the plain search finds and the index-order greedy completes; no swap is left; printed total and plan size are its total |
| NCScale.SkipEmpty | src/ncscale_simulation.cc:48-53 | the skipping loop ends at the next index with something left, and only passes exhausted ones |
| NCScale.TakeTurn | src/ncscale_simulation.cc:47-60 | in a round robin over equal quotas the next index always has something left, so nothing is skipped |
| NCScale.Migrations | src/ncscale_simulation.cc:44-60 | transfer `t` goes from node `t % n + 1` to node `t % k + n + 1` with coefficient 0, and every old node sends and every new node receives exactly its quota |
| NCScale.OneAheadStep | src/ncscale_simulation.cc:64-98 | the receiving index stays one ahead of the sending one, with the same quota left |
| NCScale.Deltas | src/ncscale_simulation.cc:61-112 | transfer `t` goes from node `t % n + 1` to node `(t + 1) % n + 1` with coefficient 1, every old node sends and receives exactly its quota, never to itself; collision and repair are never reached |
| NCScale.BatchDivides | src/ncscale_simulation.cc:5-10 | the constructor's divisions are exact |
| NCScale.TotalsAgree | src/ncscale_simulation.cc:18-65 | what old nodes send is what new nodes receive, and with the deltas it is the total cost |
| NCScale.NCScaleSimulation.constructor | src/ncscale_simulation.cc:3-14 | batch size, scaling factor, total and quotas in terms of `k` and `m`, and that they fit together |
| NCScale.NCScaleSimulation.GetSimilarBatchSize | src/ncscale_simulation.cc:22-25 | the largest number of full batches that fits, with the same ratio |
| NCScale.NCScaleSimulation.GetScheme | src/ncscale_simulation.cc:27-114 | exactly `ratio` times the total cost in transfers, each in closed form, every quota met exactly, no transfer from a node to itself; less than a batch is rejected |
| Pipeline.StepConserves | src/tcp_server.cc:43-75 | a step passes tasks on; only a receiver makes one and only a write worker retires one |
| Pipeline.StepKeepsOwned | src/memory_pool.cc:18-37 | every memory block stays in exactly one place, and free blocks and tasks add up to the size of the pool |
| Pipeline.StepKeepsAccounted | src/write_worker.cc:15-37 | every task a receiver made is in flight or written, as often as it was made, and so many tasks altogether |
| Pipeline.StepKeepsReceived | src/tcp_server.cc:43-75 | what a receiver has taken and will take is its input up to the shutdown signal, in order |
| PipelineRuns.StepKeepsBuffered | src/compute_worker.cc:29-63 | a task's block holds its own chunk, raw before the compute step and encoded once after it |
| PipelineRuns.StepKeepsOrdered | src/tcp_server.cc:127-143 | who may have left, by how far the main thread has come |
| PipelineRuns.EveryRunKeepsInv | src/tcp_server.cc:34-143 | all of these hold in every state that any run of any configuration reaches |
| PipelineRuns.NoSharedBuffer | src/tcp_server.cc:60-74 | in every reachable state no two tasks have the same memory block and no task's block is free |
| PipelineRuns.TakenIsPrefix | src/tcp_server.cc:49-58 | in every run no task has a header with equal ends, and what is taken from a connection is the beginning of its input |
| PipelineRuns.TakenUpToSignal | src/tcp_server.cc:49-58 | once the receivers are joined, each has taken its whole input, or all up to the first header with equal ends |
| PipelineRuns.StepLeavesLess | include/thread_pool.hh:26-66 | every step leaves less of unread chunks, queued and held tasks and live threads |
| PipelineRuns.RunsAreBounded | src/tcp_server.cc:127-143 | no run is longer than the work it starts with |
| PipelineRuns.SomeoneMoves | src/memory_pool.cc:18-26 | before the end some thread can move, even when the memory pool is empty or one compute worker is held up |
| PipelineRuns.NoDeadlock | include/thread_pool.hh:33-45 | no reachable state before the end is stuck, for any number of threads |
| PipelineDrain.StepKeepsCalm | src/compute_worker.cc:33-38 | with one compute worker or nothing to encode, nothing is computed once the write queue is sealed and nothing is queued once a write worker has left |
| PipelineDrain.CompleteRunsDrain | src/tcp_server.cc:127-143 | in these configurations every complete run has written every received chunk once and returned every block |
| PipelineDrain.SomeoneComputes | include/thread_pool.hh:33-45 | a chunk that has to be encoded reaches a compute worker |
| PipelineDrain.OthersLeave | src/compute_worker.cc:33-38 | while one compute worker holds a chunk, all other workers can leave |
| PipelineDrain.SomeRunLosesAChunk | src/compute_worker.cc:33-62 | with two compute workers and a chunk to encode, some complete run does not write it |
| PipelineDrain.LosslessIff | src/tcp_server.cc:127-143 | all complete runs drain if and only if there is one compute worker or nothing to encode |
| PipelineDrain.LossIsLimited | src/compute_worker.cc:33-62 | every complete run of any configuration leaves fewer tasks unwritten than there are compute workers, all of them in the write queue |
| PipelineDrain.CanFinish | src/tcp_server.cc:127-143 | from every reachable state the program can still finish |
| PipelineOrder.FirstInFirstOut | include/thread_pool.hh:26-45 | in every run the tasks leave a queue in the order in which they joined it |
| PipelineOrder.StepOnWay | src/tcp_server.cc:70-74 | with one worker of each kind, every step keeps the order of a connection's chunks from the files back to the receiver |
| PipelineOrder.WrittenInOrder | src/tcp_server.cc:43-75 | with one worker of each kind, the coded chunks of a connection are written in the order of its input, and so are its plain ones |
| PipelineOrder.FileIsChunk | src/compute_worker.cc:55-59 | every file of every run holds the chunk its task was made for, encoded once if it has a coefficient and else as it came |
| PipelineOrder.MadeIsWrittenOrUnderway | src/tcp_server.cc:43-75 | as multisets, the tasks made are those written and those on their way |
| PipelineOrder.EveryTaskIsWritten | src/tcp_server.cc:127-143 | with one compute worker or nothing to encode, a complete run writes every task made exactly once and frees two blocks per connection |
| Pools.MemoryPool.constructor | src/memory_pool.cc:3-10 | addresses and block numbers correspond one to one, and all blocks are free, in order |
| Pools.MemoryPool.GetBlock | src/memory_pool.cc:18-26 | the block that has been free longest is handed out |
| Pools.MemoryPool.ReleaseBlock | src/memory_pool.cc:28-37 | a known address appends its block number to the free queue; an unknown one is reported and changes nothing |
| Pools.ThreadPool.AddTask | include/thread_pool.hh:26-31 | the task is last in the queue |
| Pools.ThreadPool.GetTask | include/thread_pool.hh:33-45 | first in, first out, also after the seal; the empty message only when sealed and empty |
| Pools.ThreadPool.SetFinished | include/thread_pool.hh:61-66 | the pool is sealed and keeps its tasks |
| Pools.NextTask | include/thread_pool.hh:33-45 | whatever others add meanwhile, the worker gets the next of all jobs, and the empty message only when all have been taken |
| Pools.RunCompute | src/compute_worker.cc:29-63 | one worker, while others still add jobs or seal: every block queued or still coming keeps its header, is encoded once more and is passed on in order, and then the write queue is sealed |
| Pools.RunWrite | src/write_worker.cc:15-37 | one worker, while others still add jobs or seal: every block queued or still coming is written as it is, in order, and its number is appended to the free queue |
| Pools.Drain | src/tcp_server.cc:141-143 | with one thread of each kind, the shutdown writes everything queued, a raw coded block as its header encoded once, and appends every block to the free queue in order |

## Left out

- Sockets, connection setup, start flags, the master's command connection and the client: a receiver is the finite list of the headers it will read.
- File reading and writing, chunk copy loops, configuration, timing and printing; `print_statics` is modelled up to the total it returns.
- The arithmetic of `ec_encode_data`, `get_gf_pow` and `init_ec_table`: the compute step is recorded as one encoding of a buffer, and nothing is claimed about the code words; multiplication in the field is foreign code.
- `src/blossom.cc`: no target links it. The half-of-optimum results compare against every matching instead of against its output.
- `random_match`, `build_map_test`, and `generate_random_distributions` apart from what it guarantees: `k + m` different nodes below `nodeNum` for each stripe. A shuffle is an arbitrary permutation.
- Machine words: counters and sizes are unbounded naturals. The 8-bit ones cannot wrap for `1 <= m <= 7` and `k + m <= 254`, which the model of the generator requires; block and batch counts have no bound. Node numbers are naturals instead of 16-bit words, and a packed pair of stripe indices is a pair.
- The function-local static constants of `get_cost` and `search_for_matching` are taken per generator; in the program the first generator's values are used by all.
- Generator.StripeMergeG, Generator.StripeMergeP and the reports they make require an even number of stripes: the stripe left over of an odd number has no partner or a stale one, and `print_statics` and `get_sending_scheme` index their flags by it (src/matching_generator.cc:97, 443). The two algorithms are modelled for any number.
- Pools.RunCompute: what other threads add to the next queue meanwhile, and other workers that take from the same queue, are not in this contract; `Pipeline` has all interleavings.
- Pools.RunWrite: as for `Pools.RunCompute`, other workers that take from the same queue are not in this contract.
- Pools.Drain: runs one compute worker and then one write worker on queues nobody adds to any more, where the program's workers run concurrently; what concurrent pools do is stated by `PipelineDrain`.
- A second `dist_based_search` on the same generator, or `basic_greedy(false)` on one that has already matched stripes: the program does neither.
- A node's failing file operations end the process; they are not steps of the pipeline.
- A stripe's placement never changes, so it is a value (`Dist`); the fields that matching updates are a second record (`Mark`), kept in one sequence. `std::list`, `std::map` and `std::deque` are sequences and maps with their erasure and iteration order. The counters of `get_one_scheme` are a sequence.
- Condition variables: a wait is a step that is not enabled, or a precondition in `Pools`; lost and spurious wake-ups are not modelled. Fairness is not needed: every run is finite.
- In `GetSendingScheme` the plan is not recomputed after the matching changes, as in the program; nothing is claimed about that plan.
