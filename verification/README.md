# Verification model of the trading core

A Dafny model of the limit order book, the matching engine and the lock-free queues, with machine-checked proofs of what
they keep true. `dafny verify dfyconfig.toml` checks all of it.

The order book is a stack of aliased structures: two slot pools with intrusive free lists, two AVL trees that share one
pool of price levels, a cached best level and a dense price table per side, a linear-probing id map, and FIFO lists
threaded through the order slots. All of it stands for something small: the live orders, and for each side the queue of
ids at each price. The model keeps the stack as it is (classes and arrays, changed in place, the same branches in the
same order) and proves every operation against that small value, `BookSpec.Book`. The hard statements are then theorems
about the value.

How the layers build on one another:

- `ObjectPool`, `AvlSpec`/`AvlTree`, `FlatPriceArray`, `FlatHashMap`: each structure with its own abstract value. Trees
  are refined rotation by rotation: `AvlTree.Rep` says that pool slots, parent links and stored heights show a ghost tree.
- `BookSide`: a tree, a best-level cache and a dense table that agree on one directory of prices.
- `BookRep`/`OrderBook`: pools, trees, lists and id map together represent a book; each mutation changes it to exactly
  the value that `BookSpec` prescribes.
- `MatchSpec`/`MatchingEngine`: the nested sweep loops compute the recursive price-time sweep; `PriceTime` says what that
  sweep means without mentioning it (who is filled, in which order, for how much).
- `Crossing`: two crossing limit orders from a new engine on, for all quantities and prices.
- `Totals`, `MatchLaws`, `Statuses`, `FillOrKill`, `Runs`, `Replay`, `BookLaws`, `BookDigest`: consequences over single operations
  and over all runs (never crossed, quantity conserved, determinism, canonical digest, queue positions).
- `MatchTerms`, `UpdateLaws`, `AvlRotations`, `BookWords`: the same operations told in plain prices, queues, heights and
  words, independently of the definitions the implementation is proved against.
- `BookMemory`: the pool slots alone determine the book, and split exactly into free lists, trees and orders.
- `Admission`, `EngineRun`: when a match fits, by the book before it, and whole runs through the engine object.
- `SpscMachine`, `SpscQueue`: the ring buffer as a system of interleaved atomic steps with stale loads and wrapping
  counters, and the calls as runs of that system.
- `MpscQueue`, `MpscMachine`: round-robin polling over lines of items with a fairness theorem, and the system of all
  rings, producers and the polling consumer, which refines it.

Where the code does not do what its documentation promises, the code is modelled, a concrete counterexample is proved,
and the exact condition under which the promise holds is proved:

- A fill-or-kill order is promised to be checked against the quantity at acceptable prices (implementation_plan.md:735).
  The scan takes no price, so such an order can be filled in part (`FillOrKill.FokCanFillInPart`);
  `FillOrKill.FokAllOrNothing` gives the exact condition.
- Level totals are 32-bit sums; a wrapped total hides liquidity from the scan (`FillOrKill.ScanMissesWrappedLevel`).
  `FillOrKill.ScanIsExact` says exactly when the scan is right.
- `size` of the single-producer queue, asked by a thread that owns neither counter, can be far above the capacity
  (`SpscMachine.ObserverCanOvershoot`); `SpscMachine.SizeByObserver` gives the exact condition.
- A replacement, or an order added past the matcher, can cross the book (`Runs.ReplaceCanCross`);
  `Runs.StepUncrossed` says exactly which events keep it uncrossed.

Conventions: an index is `INVALID` for the all-ones 32-bit sentinel; prices and quantities are `u32`, ids and trade
numbers `u64`, with wrap-around written out (`Wrap32`, `Succ64`, `Sub64`). Assertions the code makes of its callers are
`requires` clauses (`OrderBook.CanAdd`, `OrderBook.Accepts`, `MatchingEngine.Takes`, `Runs.Legal`): a nonzero fresh id,
positive price and quantity, a price below the dense window of 10000, a free order slot, a free level slot for a new
price, an id map below three quarters of its capacity, at most 1000 trades in a match. Clock readings and the risk
verdict are arbitrary. Where code does not compile as written (the counter `levels_destroyed`, the update kind
`ReplaceOrder`) the evident meaning is modelled.

## Model

| member | source | states |
|---|---|---|
| ObjectPools.FreeChainSplits | include/tradecore/memory/object_pool.hpp:108-119 | free list and live slots split the pool: together all slots, none in both |
| ObjectPools.FreeChainCounts | include/tradecore/memory/object_pool.hpp:108-119 | the entries of the free list and the live slots together number the capacity |
| ObjectPools.ObjectPool.constructor | include/tradecore/memory/object_pool.hpp:17-19 | a new pool is consistent and has no live slot |
| ObjectPools.ObjectPool.Reset | include/tradecore/memory/object_pool.hpp:70-77 | afterwards the free list runs through all slots and none is live |
| ObjectPools.ObjectPool.Allocate | include/tradecore/memory/object_pool.hpp:29-52 | fails exactly when all slots are live; otherwise hands out a slot that was not live, and touches no other |
| ObjectPools.ObjectPool.Deallocate | include/tradecore/memory/object_pool.hpp:54-68 | exactly the given live slot stops being live; the free list stays acyclic and complete |
| ObjectPools.FreeChainKept | include/tradecore/memory/object_pool.hpp:92-100 | writing to live objects through `at` cannot disturb the free list |
| AvlSpec.RebalanceRepairs | include/tradecore/orderbook/avl_tree.hpp:92-130 | a node off balance by at most two becomes balanced, is left alone exactly when it already was, and loses at most one in height |
| AvlSpec.RebalanceKeeps | include/tradecore/orderbook/avl_tree.hpp:38-86 | every rotation keeps the price order and the set of (price, slot) entries |
| AvlSpec.RebalanceDistinct | include/tradecore/orderbook/avl_tree.hpp:92-130 | no slot is duplicated by rebalancing |
| AvlSpec.InsertAdds | include/tradecore/orderbook/avl_tree.hpp:168-194 | inserting a fresh price adds exactly one entry and keeps the strict price order |
| AvlSpec.InsertOccupies | include/tradecore/orderbook/avl_tree.hpp:168-194 | exactly the new slot joins the tree, once |
| AvlSpec.InsertBalances | include/tradecore/orderbook/avl_tree.hpp:168-194 | the tree stays balanced, grows by at most one in height, and the four rotation counters rise by at most one in total |
| AvlRotations.HeightIsLongest | include/tradecore/orderbook/avl_tree.hpp:21-36 | the height is the number of nodes on a longest way down |
| AvlRotations.WhoComesUp | include/tradecore/orderbook/avl_tree.hpp:92-130 | which node a rebalance brings up, by heights alone: the taller child, or its inner child if that is strictly the taller grandchild; nothing moves when the heights differ by at most one |
| AvlRotations.CounterOfRoot | include/tradecore/orderbook/avl_tree.hpp:101-127 | the counter that rises is named by the node that comes up: left child ll, its right child lr, right child rr, its left child rl |
| AvlRotations.InsertVisitsWay | include/tradecore/orderbook/avl_tree.hpp:185-193 | an insertion rebalances every node on the way to the new leaf, bottom up, and no other |
| AvlRotations.InsertTally | include/tradecore/orderbook/avl_tree.hpp:182-194 | an insertion raises each counter by the number of these nodes at which the named node comes up |
| AvlRotations.InsertRaisesOne | include/tradecore/orderbook/avl_tree.hpp:168-194 | in a balanced tree that is at most one counter, by one |
| AvlRotations.ThreeInserts | tests/unit/orderbook/test_phase3b.cpp:62-121 | the four rotation tests for all prices: each order of three levels that forces a rotation raises its own counter once, and the middle price comes up |
| AvlSpec.RemoveDrops | include/tradecore/orderbook/avl_tree.hpp:199-262 | removal, successor splice included, takes out exactly the target's entry and keeps the order |
| AvlSpec.RemoveReleases | include/tradecore/orderbook/avl_tree.hpp:220-262 | exactly the target's slot leaves the tree and no slot is used twice, although the successor's slot moves to the root |
| AvlSpec.RemoveBalances | include/tradecore/orderbook/avl_tree.hpp:199-262 | removal keeps every node balanced and lowers the height by at most one |
| AvlRotations.RemoveVisitsWay | include/tradecore/orderbook/avl_tree.hpp:207-261 | a removal rebalances every node above the target and, for a target with two children, the least greater price in its place and every node between there and where that was |
| AvlRotations.RemoveTally | include/tradecore/orderbook/avl_tree.hpp:199-262 | a removal raises each counter by the number of these nodes at which the named node comes up |
| AvlSpec.LeftmostIsLeast | include/tradecore/orderbook/avl_tree.hpp:132-140 | the leftmost node is the unique level with the least price |
| AvlSpec.RightmostIsGreatest | include/tradecore/orderbook/avl_tree.hpp:142-150 | the rightmost node is the unique level with the greatest price |
| AvlSpec.HeightBound | include/tradecore/orderbook/avl_tree.hpp:92-130 | a balanced tree of height h has at least Fib(h+2) - 1 levels |
| AvlHeight.HeightIsLogarithmic | tests/unit/orderbook/test_phase3b.cpp:311-318 | height is at most 1.45 * log2(levels + 1), raised to the 29th power so that it is a statement about integers; the test allows two more |
| BookSides.BookSide.HeightWithinBound | tests/unit/orderbook/test_phase3b.cpp:311-318 | that bound for the tree of any valid side, in terms of its own level count |
| AvlTree.Reparent | include/tradecore/orderbook/avl_tree.hpp:208-216 | writing a subtree root's parent link is all it takes to hang it under another node |
| AvlTree.RotateRight | include/tradecore/orderbook/avl_tree.hpp:45-61 | in place, the slots now show the rotated tree with right links, parents and heights; other slots and all payloads are untouched |
| AvlTree.RotateLeft | include/tradecore/orderbook/avl_tree.hpp:70-86 | the mirror image |
| AvlTree.Rebalance | include/tradecore/orderbook/avl_tree.hpp:92-130 | the slots show the rebalanced tree, with exact stored heights; of the four counters exactly that of the node that comes up rises, by one, and none when the root stays |
| AvlTree.FindMin | include/tradecore/orderbook/avl_tree.hpp:134-140 | the slot of the leftmost level, the sentinel for an empty tree |
| AvlTree.FindMax | include/tradecore/orderbook/avl_tree.hpp:144-150 | the slot of the rightmost level, the sentinel for an empty tree |
| AvlTree.Find | include/tradecore/orderbook/avl_tree.hpp:154-163 | the slot of the level at a price, the sentinel when the tree has no such price |
| AvlTree.Insert | include/tradecore/orderbook/avl_tree.hpp:168-194 | in place, the slots show the tree with the level added; only tree metadata of this tree's slots and the new slot changes; counters as specified |
| AvlTree.SpliceSuccessor | include/tradecore/orderbook/avl_tree.hpp:246-261 | the successor takes over the removed node's place, subtrees and parent |
| AvlTree.Remove | include/tradecore/orderbook/avl_tree.hpp:199-262 | in place, the slots show the tree without the level, the removed slot's links are cleared, payloads and all slots outside the tree keep everything |
| AvlTree.RemoveBranching | include/tradecore/orderbook/avl_tree.hpp:239-261 | the two-child case |
| AvlTree.UpdateStatsHeight | include/tradecore/orderbook/avl_tree.hpp:266-272 | the reported tree height is the true height, the maximum never falls |
| FlatPriceArrays.FlatPriceArray.Find | include/tradecore/orderbook/flat_price_array.hpp:30-34 | the level stored for the tick of a price, the sentinel outside the window |
| FlatPriceArrays.FlatPriceArray.Insert | include/tradecore/orderbook/flat_price_array.hpp:36-41 | exactly one tick is set, and the cached tick is still the highest occupied one |
| FlatPriceArrays.FlatPriceArray.Remove | include/tradecore/orderbook/flat_price_array.hpp:43-48 | exactly one tick is cleared, and the cached tick is still the highest occupied one |
| FlatPriceArrays.FlatPriceArray.Rescan | include/tradecore/orderbook/flat_price_array.hpp:76-85 | the scan finds the highest occupied tick, or none |
| BookSides.ExtremeIsBest | include/tradecore/orderbook/book_side.hpp:78-83 | the rightmost bid or leftmost ask is the best price of the side |
| BookSides.BboInsert | include/tradecore/orderbook/book_side.hpp:155-168 | comparing a new level with the cached best one is enough to stay at the best |
| BookSides.BboRemove | include/tradecore/orderbook/book_side.hpp:72-83 | removing a level that is not the best one leaves the best one cached |
| BookSides.SidesApart | include/tradecore/orderbook/order_book.hpp:238-243 | two sides in one pool never share a level slot |
| BookSides.BookSide.FindByPrice | include/tradecore/orderbook/book_side.hpp:126-136 | for every 32-bit price, inside or outside the window, the level of that price exactly when there is one: what the tree search alone would answer |
| BookSides.BookSide.CreateLevel | include/tradecore/orderbook/book_side.hpp:29-46 | an empty level in a slot that was free, not yet in the tree |
| BookSides.BookSide.InsertLevel | include/tradecore/orderbook/book_side.hpp:49-61 | table, tree, best level, level count and height agree on the old prices plus the new one; counters and tree are those of the insertion, with at most one rotation, and the recorded maximum never falls |
| BookSides.BookSide.UpdateBboOnInsert | include/tradecore/orderbook/book_side.hpp:155-168 | the cached index is the best level after the insertion |
| BookSides.BookSide.RemoveLevel | include/tradecore/orderbook/book_side.hpp:64-85 | table, tree, best level, level count and height agree on the old prices minus the removed one; counters and tree are those of the removal |
| BookSides.BookSide.DestroyLevel | include/tradecore/orderbook/book_side.hpp:88-102 | the emptied, unlinked level gives its slot back |
| BookSides.BookSide.CloseLevel | include/tradecore/orderbook/book_side.hpp:105-109 | unlinking and freeing a level leaves the other side and every other level as they were, tree metadata aside |
| FlatHashMaps.NextIsMasked | include/tradecore/orderbook/flat_hash_map.hpp:40 | stepping with wrap-around is adding one modulo the capacity |
| FlatHashMaps.StopsAtKey | include/tradecore/orderbook/flat_hash_map.hpp:50-58 | with unbroken probe chains, probing stops at the key exactly when the map has it |
| FlatHashMaps.LoadLeavesHole | include/tradecore/orderbook/flat_hash_map.hpp:33-41 | the load limit leaves an unused slot, so that every probe loop ends |
| FlatHashMaps.LiftChained | include/tradecore/orderbook/flat_hash_map.hpp:110-114 | taking out an entry under the repair scan breaks no chain behind it |
| FlatHashMaps.NeverAhead | include/tradecore/orderbook/flat_hash_map.hpp:115 | a displaced entry never comes to rest ahead of the scan |
| FlatHashMaps.RepairDone | include/tradecore/orderbook/flat_hash_map.hpp:107-118 | when the scan meets an unused slot, every probe chain is whole again |
| FlatHashMaps.EraseOpens | include/tradecore/orderbook/flat_hash_map.hpp:67-70 | erasing one slot of an intact table endangers only the entries of its own cluster |
| FlatHashMaps.FlatHashMap.constructor | include/tradecore/orderbook/flat_hash_map.hpp:21-27 | an empty map whose capacity is the next power of two |
| FlatHashMaps.FlatHashMap.Probe | include/tradecore/orderbook/flat_hash_map.hpp:38-41 | terminates at the key or at the first unused slot behind its home |
| FlatHashMaps.FlatHashMap.Insert | include/tradecore/orderbook/flat_hash_map.hpp:30-47 | under any hash function, the map gains or updates exactly this key; refused exactly when one more entry would reach three quarters of the capacity |
| FlatHashMaps.FlatHashMap.Find | include/tradecore/orderbook/flat_hash_map.hpp:50-58 | the value of the key, the sentinel when absent |
| FlatHashMaps.FlatHashMap.Erase | include/tradecore/orderbook/flat_hash_map.hpp:61-76 | the map loses exactly this key, and says whether it was there |
| FlatHashMaps.FlatHashMap.Reinsert | include/tradecore/orderbook/flat_hash_map.hpp:109-116 | the insertion whose result the code ignores always succeeds, and the map is unchanged |
| FlatHashMaps.FlatHashMap.RehashFrom | include/tradecore/orderbook/flat_hash_map.hpp:107-118 | repairs all chains behind an erased slot without changing the map, and terminates |
| FlatHashMaps.FlatHashMap.Clear | include/tradecore/orderbook/flat_hash_map.hpp:86-90 | the map is empty again |
| BookSpec.AddWellFormed | include/tradecore/orderbook/order_book.hpp:37-87 | adding a fresh order keeps every order in exactly the queue of its side and price, and no level empty |
| BookSpec.DropWellFormed | include/tradecore/orderbook/order_book.hpp:118-132 | so does removing one, with its level when it was the last there |
| BookSpec.ReduceWellFormed | include/tradecore/orderbook/order_book.hpp:89-110 | so does reducing one, also to nothing |
| BookSpec.ModifyWellFormed | include/tradecore/orderbook/order_book.hpp:147-171 | so does modifying one in either direction |
| BookSpec.SumSetQty | include/tradecore/orderbook/order_book.hpp:96-103 | taking a quantity off an order takes the same off the sum of its level |
| BookSpec.DropCounts | include/tradecore/orderbook/order_book.hpp:199-204 | a removal frees one order entry, and one level when its price disappears |
| BookRep.LiveCounts | include/tradecore/orderbook/order_book_verifier.hpp:132-302 | the pools hold exactly as many live slots as there are orders and levels |
| BookRep.OrdersInSlots | include/tradecore/orderbook/order_book_verifier.hpp:132-302 | live order slots and orders correspond one to one: each order has the slot the map names, and each live slot is the slot of the order it holds |
| BookRep.LevelsInSlots | include/tradecore/orderbook/order_book_verifier.hpp:132-302 | live level slots and levels correspond one to one, by side and price |
| BookRep.AppendRep | include/tradecore/orderbook/order_book.hpp:58-83 | slot, map entry, old tail's link, level ends, total and count together represent the book with the order at its tail |
| BookRep.SetQtyRep | include/tradecore/orderbook/order_book.hpp:96-103 | the two quantity writes together represent the reduced order |
| BookRep.OrderPlace | include/tradecore/orderbook/order_book.hpp:90-102 | the id map and the price lead to the slot and the level of a live order |
| BookRep.DetachRep | include/tradecore/orderbook/order_book.hpp:176-200 | bypassing the order in its list, freeing its slot and dropping its map entry represent the book without it |
| BookRep.OpenRep | include/tradecore/orderbook/order_book.hpp:49-53 | a fresh empty level represents one more price |
| BookRep.CloseRep | include/tradecore/orderbook/order_book.hpp:202-204 | freeing an emptied level represents one price less |
| BookMemory.SlotsDetermine | include/tradecore/orderbook/order_book_verifier.hpp:132-302 | the pool slots alone determine the book, the id map and both directories: the same memory cannot represent two books |
| BookMemory.SameMemory | include/tradecore/orderbook/order_book.hpp:238-243 | two valid books whose pools hold the same slots have the same contents |
| BookMemory.LevelSlotsSplit | include/tradecore/orderbook/order_book.hpp:238-243 | every slot of the level pool is on the free list, in the bid tree or in the ask tree, and in one of them only |
| BookMemory.OrderSlotsSplit | include/tradecore/orderbook/order_book.hpp:238-243 | every slot of the order pool is either on the free list or the slot of exactly one live order, found under its id |
| BookMemory.OrderReads | include/tradecore/orderbook/order_book.hpp:59-66 | the slot the id map gives for a live order holds its id, side, price and remaining quantity |
| BookMemory.LevelReads | include/tradecore/orderbook/order_book.hpp:74-83 | the level slot at a price holds price, side, number of orders and their total modulo 2^32, and its list starts at the first order and ends at the last |
| BookMemory.CachedBest | include/tradecore/orderbook/book_side.hpp:139-151 | the cached best bid slot holds the highest bid price and the cached best ask slot the lowest ask price; there is none exactly when the side is empty |
| OrderBooks.OrderBook.constructor | include/tradecore/orderbook/order_book.hpp:22 | a new book is consistent and empty |
| OrderBooks.OrderBook.AddOrder | include/tradecore/orderbook/order_book.hpp:37-87 | all structures together represent the book with the order at the tail of its price, its level created on demand, and the order slot holds the fields of the update; no step fails |
| OrderBooks.OrderBook.CancelOrder | include/tradecore/orderbook/order_book.hpp:89-110 | all structures represent the book with the order reduced, or gone when nothing is left of it |
| OrderBooks.OrderBook.ExecuteOrder | include/tradecore/orderbook/order_book.hpp:112-116 | the same as a cancellation |
| OrderBooks.OrderBook.DeleteOrder | include/tradecore/orderbook/order_book.hpp:118-132 | all structures represent the book without the order |
| OrderBooks.OrderBook.ReplaceOrder | include/tradecore/orderbook/order_book.hpp:134-145 | the old order is gone, the new id waits at the tail of its new price |
| OrderBooks.OrderBook.RoomAfterDrop | include/tradecore/orderbook/order_book.hpp:156-169 | removing an order leaves an order slot, map room and a level slot to add it again, even when its level was destroyed |
| OrderBooks.OrderBook.ModifyOrder | include/tradecore/orderbook/order_book.hpp:147-171 | needs no room of its caller and never fails; the resulting book is the modified one |
| OrderBooks.OrderBook.Predecessor | include/tradecore/orderbook/order_book.hpp:185-196 | the walk from the head ends at the order in front of the given one |
| OrderBooks.OrderBook.UnlinkOrder | include/tradecore/orderbook/order_book.hpp:176-200 | head, middle and tail cases: the list bypasses the order, whose slot is freed |
| OrderBooks.OrderBook.DeleteOrderInternal | include/tradecore/orderbook/order_book.hpp:176-205 | with the order's quantity already off its level, list, map, pools and tree lose exactly this order and an emptied level |
| OrderBooks.OrderBook.Dispatch | include/tradecore/orderbook/order_book.hpp:25-31 | every update kind has its effect on the book, and kinds without a handler have none; `UpdateLaws` says what these effects are |
| UpdateLaws.OrdersAfter | include/tradecore/orderbook/order_book.hpp:37-171 | for every kind of update, which orders are live afterwards with which side, price and quantity; a replacement brings in the new id |
| UpdateLaws.QueuesAfter | include/tradecore/orderbook/order_book.hpp:37-205 | for every kind of update, side and price, who waits in which place afterwards: newcomers and growing orders at the tail, reduced orders in place, removed ones gone, nobody else moved |
| UpdateLaws.ReducePlacement | include/tradecore/orderbook/order_book.hpp:89-116 | a cancellation or execution leaves an order with something left in its place |
| BookLaws.SameBook | include/tradecore/orderbook/order_book.hpp:202-204 | because no empty level survives, the orders and the queues determine the book |
| BookLaws.DropPlacement | include/tradecore/orderbook/order_book.hpp:176-205 | removing an order strikes its id from its queue and moves nobody else at any price |
| BookLaws.AddPlacement | include/tradecore/orderbook/order_book.hpp:74-83 | adding puts the id behind everyone at its price and moves nobody else |
| BookLaws.AddThenDrop | include/tradecore/orderbook/order_book.hpp:37-132 | deleting an order just added restores the book exactly, levels included |
| BookLaws.DropsCommute | include/tradecore/orderbook/order_book.hpp:118-132 | two deletions give the same book in either order |
| BookLaws.ReducesCompose | include/tradecore/orderbook/order_book.hpp:89-116 | two cancellations or executions amount to one of their sum, also when the second removes the order |
| BookLaws.ModifyPlacement | include/tradecore/orderbook/order_book.hpp:147-171 | for every new quantity: nothing removes the order; otherwise it gets that quantity and keeps its place unless it grows, in which case it goes to the tail of its own price; nobody else changes or moves |
| BookLaws.ReplacePlacement | include/tradecore/orderbook/order_book.hpp:134-145 | a replacement strikes the old id and puts the new one at the tail of its price; nobody else moves |
| BookLaws.GrowThenShrink | include/tradecore/orderbook/order_book.hpp:152-170 | growing an order and shrinking it back restores all orders but costs it its place |
| PricePriority.RankedUnique | include/tradecore/matching/matching_engine.hpp:109-119 | a set of prices has one strict best-first ranking |
| PriceTime.ServeFirst | include/tradecore/matching/matching_engine.hpp:149-152 | serving the first order of a side takes the head off the line, or leaves the line as it was |
| PriceTime.SweepServesLine | include/tradecore/matching/matching_engine.hpp:106-155 | price-time priority: the fills serve the opposite orders from the head of the best-first, first-come line without a gap, at their prices, all but the last completely, until filled, empty or not crossing |
| MatchingEngines.MatchingEngine.constructor | include/tradecore/matching/matching_engine.hpp:41-42 | a new engine has an empty, consistent book and trade number 1 |
| MatchingEngines.ResumeStep | include/tradecore/matching/matching_engine.hpp:123-153 | one iteration of the inner loop moves the sweep one fill on |
| MatchingEngines.MatchingEngine.NextAttack | include/tradecore/matching/matching_engine.hpp:149-152 | the next order, read before the book changes, is the first one afterwards, or the level is gone |
| MatchingEngines.MatchingEngine.FillFirst | include/tradecore/matching/matching_engine.hpp:124-152 | one trade and the matching execution in the book |
| MatchingEngines.MatchingEngine.SweepLevel | include/tradecore/matching/matching_engine.hpp:121-153 | the inner loop makes the fills of the sweep at one price and ends; the incoming quantity strictly falls |
| MatchingEngines.MatchingEngine.MatchCore | include/tradecore/matching/matching_engine.hpp:106-155 | the two nested loops compute exactly the sweep, whose limits, order and amounts are those of `MatchTerms`: book, fills, rest and next trade number |
| MatchingEngines.MatchingEngine.Match | include/tradecore/matching/matching_engine.hpp:44-99 | risk gate, pre-scan, sweep, residual and status compute exactly the abstract outcome, and every trade carries the fields of its fill, whatever the clock reads |
| MatchTerms.LimitHolds | include/tradecore/matching/matching_engine.hpp:112-119 | no buy trades above and no sell below its limit, market orders aside; and what an action that went ahead leaves unfilled faces only prices beyond its limit, or for a market order an empty side |
| MatchTerms.MatchTradesAll | include/tradecore/matching/matching_engine.hpp:109-154 | every action that passes the risk rules trades the smaller of its quantity and everything within its limit; a fill-or-kill order does if the scan finds its quantity, and trades nothing otherwise |
| MatchTerms.MatchNumbers | include/tradecore/matching/matching_engine.hpp:129 | trades are numbered one by one from the counter on, under the incoming id, and the counter ends behind the last |
| MatchTerms.NobodyOvertaken | include/tradecore/matching/matching_engine.hpp:109-153 | an order waiting ahead of one that trades, at a better price or earlier at the same price, was filled completely before it |
| MatchTerms.FillsInOrder | include/tradecore/matching/matching_engine.hpp:121-153 | fills go from better prices to worse and from earlier orders to later ones, at the resting prices |
| Admission.FillsBounded | include/tradecore/matching/matching_engine.hpp:123-153 | a sweep makes at most one fill per unit and at most one per opposite order |
| Admission.SweepMakesRoom | include/tradecore/matching/matching_engine.hpp:138-152 | a sweep adds no order and no price and leaves the own side alone |
| Admission.FitsBeforehand | include/tradecore/matching/matching_engine.hpp:44-81 | what the caller must ensure of a match, in terms of the book before it: at most 1000 units or opposite orders, and room to add a limit order as it stands |
| Statuses.StatusTells | include/tradecore/matching/matching_engine.hpp:83-94 | each of the five statuses holds if and only if a condition on risk verdict, order type and the sum of the fills holds; a rejection leaves book and trade numbers untouched |
| Statuses.SweepAccounts | include/tradecore/matching/matching_engine.hpp:24-32 | fills and rest add up to the quantity, and a sweep with any fill trades a positive quantity |
| MatchLaws.SweepTakesFills | include/tradecore/matching/matching_engine.hpp:126-152 | every resting order loses exactly the quantity of its own fills, and no order appears or changes side or price |
| MatchLaws.SweepKeepsOwnSide | include/tradecore/matching/matching_engine.hpp:107 | a sweep leaves every queue of the aggressor's own side as it was |
| MatchLaws.MatchTakesFills | include/tradecore/matching/matching_engine.hpp:44-81 | over a whole match, orders lose exactly their fills, and the only newcomer is the unfilled rest of a limit order, behind everyone at its limit; nobody else on its side moves |
| Crossing.Crosses | tests/unit/matching/test_matching_engine.cpp:31-91 | a limit order that meets a single resting order trades the smaller quantity at the resting price, and the rest of the larger order survives in the book |
| Crossing.SellThenBuy | tests/unit/matching/test_matching_engine.cpp:31-91 | the full-fill, partial-fill and residual tests for all quantities and crossing prices: from a new engine, both calls report exactly these statuses, trades and final book |
| TreeOrder.VisitIsRanked | include/tradecore/orderbook/book_digest.hpp:58-82 | the side-directed in-order traversal meets the prices in their one ranking, whatever the tree's shape |
| LiquidityAnalyzers.ScanTree | include/tradecore/matching/liquidity_analyzer.hpp:33-67 | finds the smaller of the wanted quantity and the tree's total; found plus remaining is constant, so nothing overflows |
| LiquidityAnalyzers.TreeTotalIsDepth | include/tradecore/matching/liquidity_analyzer.hpp:39-63 | the totals met in the tree are the depth of the book at its ranked prices |
| LiquidityAnalyzers.HasLiquidity | include/tradecore/matching/liquidity_analyzer.hpp:11-30 | true exactly when the opposite side is not empty and its level totals sum to at least the quantity, at whatever price |
| FillOrKill.ScanCounts | include/tradecore/matching/liquidity_analyzer.hpp:28-29 | the scan never sees more than rests on the side, and all of it if and only if no level total overflows |
| FillOrKill.ScanIsExact | include/tradecore/matching/liquidity_analyzer.hpp:11-30 | the scan is right for every positive 32-bit quantity (it succeeds exactly when the side holds that much) if and only if no level total overflows or the scan sees at least 2^32 - 1 in spite of it |
| FillOrKill.ScanMissesWrappedLevel | include/tradecore/matching/liquidity_analyzer.hpp:47 | a level total that wraps to zero hides its orders |
| FillOrKill.FokAllOrNothing | include/tradecore/matching/matching_engine.hpp:57-70 | all or nothing exactly unless the scan passes and the quantity within the limit is positive but too small |
| FillOrKill.FokAdmittingAll | include/tradecore/matching/matching_engine.hpp:57-66 | with a limit that admits every opposite level: filled completely, or rejected with the book unchanged, by the verdict of the scan; by the total quantity whenever the scan is right |
| FillOrKill.FokCanFillInPart | implementation_plan.md:735 | the promised price check is missing: a fill-or-kill order that trades five of ten |
| Totals.TradesAll | include/tradecore/matching/matching_engine.hpp:109-154 | a match trades the smaller of its quantity and everything within its limit |
| Totals.SweepTotal | include/tradecore/matching/matching_engine.hpp:138-152 | a sweep takes its fills off the orders it may reach and nothing off the others |
| Runs.MatchConserves | include/tradecore/matching/matching_engine.hpp:24-32 | fills plus rest are the initial quantity, the opposite side shrinks by exactly the fills, the own side grows by exactly the resting residual |
| Runs.StepBalanced | include/tradecore/matching/matching_engine.hpp:44-99 | one action or update keeps the balance: submitted = resting + 2 * traded + removed |
| Runs.RunBalanced | include/tradecore/matching/matching_engine.hpp:44-99 | so does every run |
| Runs.UncrossedIsBest | include/tradecore/orderbook/book_side.hpp:139-151 | uncrossed means best bid strictly below best ask |
| Runs.MatchUncrossed | include/tradecore/matching/matching_engine.hpp:106-155 | matching never leaves an uncrossed book crossed, residual included |
| Runs.AddUncrossed | include/tradecore/orderbook/order_book.hpp:37-87 | an added order keeps the book uncrossed exactly when its price crosses nothing |
| Runs.StepUncrossed | include/tradecore/orderbook/order_book.hpp:25-171 | an event keeps an uncrossed book uncrossed if and only if it is an action, an update without a new price, or an addition or replacement that crosses nothing |
| Runs.RunUncrossed | include/tradecore/matching/matching_engine.hpp:44-99 | over every run of such events the book is never crossed |
| Runs.ReplaceCanCross | include/tradecore/orderbook/order_book.hpp:134-145 | a replacement bypasses the matcher and can cross the book |
| Runs.FromStart | include/tradecore/matching/matching_engine.hpp:41-99 | never crossed on passive runs and balanced on every run, for the abstract runs of a new engine |
| EngineRuns.Handle | include/tradecore/orderbook/order_book.hpp:25-31 | one action through the matcher or one update through the dispatcher takes the engine to exactly the next state |
| EngineRuns.Play | include/tradecore/matching/matching_engine.hpp:44-103 | a whole mixed run through the engine object ends in the state of the abstract run, keeps the quantity balance, and after passive events leaves the cached best bid strictly below the cached best ask |
| EngineRuns.UncrossedBbo | include/tradecore/orderbook/book_side.hpp:139-151 | in a valid uncrossed book the level in the best-bid slot is priced below the level in the best-ask slot |
| BookDigests.HashCombine | include/tradecore/orderbook/book_digest.hpp:28-36 | mixes the eight bytes of the word, least significant first |
| BookDigests.HashVisit | include/tradecore/orderbook/book_digest.hpp:58-82 | hashing a tree in service order is hashing one subtree, the root level and the other subtree |
| BookDigests.HashList | include/tradecore/orderbook/book_digest.hpp:91-97 | walking the slots of a level's list hashes its queue of ids and quantities |
| BookDigests.TraverseBids | include/tradecore/orderbook/book_digest.hpp:59-69 | the fold over the levels in descending price order |
| BookDigests.TraverseAsks | include/tradecore/orderbook/book_digest.hpp:72-82 | the fold over the levels in ascending price order |
| BookDigests.Compute | include/tradecore/orderbook/book_digest.hpp:15-25 | the digest is a function of the abstract book, that of `BookWords`: equal contents hash equally, whatever tree shapes, slot numbers and histories |
| BookWords.DigestHashesWords | include/tradecore/orderbook/book_digest.hpp:15-99 | the digest is the FNV-1a hash of the bytes of a list of words: for each bid level from the highest and each ask level from the lowest, price, side, total, then id and quantity of each order, oldest first |
| BookWords.WordsDetermine | include/tradecore/orderbook/book_digest.hpp:15-99 | for books whose level totals fit 32 bits, equal words mean equal books: nothing of a book is left out of what is hashed |
| BookWords.BytesMakeWord | include/tradecore/orderbook/book_digest.hpp:29-31 | the bytes mixed for a word, put together, are the word |
| BookWords.FnvConstants | include/tradecore/orderbook/book_digest.hpp:11-16 | the constants are those of 64-bit FNV-1a, and an empty book hashes to the offset basis |
| Replays.Replay | include/tradecore/matching/matching_engine.hpp:44-99 | a stream of actions yields exactly the abstract outcomes, action by action, and the trade counter ends behind the last trade of the stream |
| Replays.StreamNumbers | include/tradecore/matching/matching_engine.hpp:129 | the k-th trade of a whole stream of actions has the k-th number from the start on, modulo 2^64 |
| Replays.StreamNumbersDiffer | include/tradecore/matching/matching_engine.hpp:129 | two trades of a stream fewer than 2^64 trades apart have different numbers |
| Replays.ReplayTwice | include/tradecore/matching/matching_engine.hpp:157-159 | two engines with the same contents, whatever their clocks, pool sizes, layouts and hash functions, report the same statuses and trades and end with the same digest |
| SpscMachine.SlotOfWrapped | include/tradecore/lockfree/spsc_queue.hpp:39 | masking a counter that wrapped at 2^64 gives the slot of the true count |
| SpscMachine.WrappedDifference | include/tradecore/lockfree/spsc_queue.hpp:31-34 | unsigned differences of wrapped counters are the true differences |
| SpscMachine.NoOverwrite | include/tradecore/lockfree/spsc_queue.hpp:39-40 | the slot the producer writes holds no unread item |
| SpscMachine.ReadsPublished | include/tradecore/lockfree/spsc_queue.hpp:72-73 | the slot the consumer reads holds a published item, the oldest one not yet popped |
| SpscMachine.StepInv | include/tradecore/lockfree/spsc_queue.hpp:28-75 | every atomic step of either thread, with loads that may be stale, keeps the invariant |
| SpscMachine.RunInv | include/tradecore/lockfree/spsc_queue.hpp:28-75 | so does every interleaving |
| SpscMachine.FifoSafety | include/tradecore/lockfree/spsc_queue.hpp:28-75 | in every interleaving the items popped followed by those in flight are the items pushed, and at most Capacity are in flight |
| SpscMachine.PushRefused | include/tradecore/lockfree/spsc_queue.hpp:34-36 | a push is refused exactly when the queue is full by the head just loaded |
| SpscMachine.PopRefused | include/tradecore/lockfree/spsc_queue.hpp:67-69 | a pop is refused exactly when the queue is empty by the tail just loaded |
| SpscMachine.SizeByOwner | include/tradecore/lockfree/spsc_queue.hpp:77-81 | asked by one of the two threads, with the other running in between, size is the difference of the loaded counters and within Capacity; never below the true size for the producer, never above it for the consumer |
| SpscMachine.SizeByObserver | include/tradecore/lockfree/spsc_queue.hpp:77-81 | asked by any other thread, size is within Capacity if and only if the pops have not overtaken the loaded tail, but for whole turns of the counter; otherwise the difference wraps |
| SpscMachine.ObserverCanOvershoot | include/tradecore/lockfree/spsc_queue.hpp:77-81 | a run in which an observer gets 2^64 - 1 from a queue of any capacity |
| SpscQueues.PushIsRun | include/tradecore/lockfree/spsc_queue.hpp:28-42 | an uninterrupted push is a run of the step system and ends in the stated state |
| SpscQueues.PopIsRun | include/tradecore/lockfree/spsc_queue.hpp:61-75 | an uninterrupted pop likewise |
| SpscQueues.SpscQueue.constructor | include/tradecore/lockfree/spsc_queue.hpp:21 | a new queue is empty |
| SpscQueues.SpscQueue.Push | include/tradecore/lockfree/spsc_queue.hpp:28-42 | refused exactly when full; otherwise the item joins the end; the fields move as the step system says |
| SpscQueues.SpscQueue.Pop | include/tradecore/lockfree/spsc_queue.hpp:61-75 | refused exactly when empty; otherwise the oldest item leaves |
| SpscQueues.SpscQueue.Size | include/tradecore/lockfree/spsc_queue.hpp:77-81 | with both threads at rest, the wrapped difference is the number of waiting items |
| MpscQueues.TurnIsModulo | include/tradecore/lockfree/mpsc_queue.hpp:38-40 | polling order is addition modulo the number of producers |
| MpscQueues.TakeApproaches | include/tradecore/lockfree/mpsc_queue.hpp:36-45 | a pop serves queue q or strictly lowers the cyclic distance to it |
| MpscQueues.ProducerFifo | include/tradecore/lockfree/mpsc_queue.hpp:25-45 | in every run of offers and takes over the lines each producer's items come out in push order, none lost, none twice, even when polls miss items; `MpscMachine.RunRefines` ties these runs to the steps of the rings |
| MpscQueues.FairPolling | include/tradecore/lockfree/mpsc_queue.hpp:36-45 | while the polls see its items, a producer is served within as many pops as there are producers, oldest item first |
| MpscQueues.PollReaches | include/tradecore/lockfree/mpsc_queue.hpp:37-42 | when the queues polled so far are empty, the next one that is not is the one served |
| MpscMachine.StepInv | include/tradecore/lockfree/mpsc_queue.hpp:21-45 | every atomic step of any producer or of the polling consumer keeps every ring intact, and the consumer busy at one ring at most |
| MpscMachine.RunProjects | include/tradecore/lockfree/mpsc_queue.hpp:25-45 | in every interleaving of all producers and the consumer, what happens at one ring is a run of the single-queue protocol |
| MpscMachine.ProducerFifo | include/tradecore/lockfree/mpsc_queue.hpp:25-45 | in every such interleaving, what was received from a producer followed by what is in flight in its ring is what it got accepted, and no ring exceeds its capacity |
| MpscMachine.ReleaseServes | include/tradecore/lockfree/mpsc_queue.hpp:37-42 | the queue a pop takes from is the first one holding an item of those it has not passed over |
| MpscMachine.RunRefines | include/tradecore/lockfree/mpsc_queue.hpp:25-45 | every interleaving is a run of the polled lines: an item appears when it is published and leaves when it is released |
| MpscMachine.ServedInTime | include/tradecore/lockfree/mpsc_queue.hpp:36-45 | in every interleaving, a producer with a waiting item that is never taken for empty is served within as many items as there are producers, oldest first |
| MpscQueues.MpscQueue.constructor | include/tradecore/lockfree/mpsc_queue.hpp:15-19 | separate empty queues, one per producer |
| MpscQueues.MpscQueue.Push | include/tradecore/lockfree/mpsc_queue.hpp:25-28 | only the producer's own queue changes; refused exactly when it is full |
| MpscQueues.MpscQueue.Pop | include/tradecore/lockfree/mpsc_queue.hpp:36-45 | the loop serves the first non-empty queue in round-robin order and moves the starting point behind it; refused exactly when all are empty |

## Left out

- The debug verifier `OrderBookVerifier` as code: it names undeclared variables and scans raw pool slots; its checks 3 to 9 appear as `BookRep.Rep`.
- ITCH parsing, MoldUDP64 framing, endian helpers, arena allocator and huge pages: slicing and bump arithmetic that would only add easy members.
- Replay engine and replay clock: data sources and real time; runs are sequences of actions instead.
- Risk rules: simple thresholds; the risk pipeline is an arbitrary predicate on actions.
- Telemetry, cache-line padding, alignment and `noexcept`.
- Fields `prev_in_level`, `qty`, `filled_qty`, `state`, `symbol` and `flags` of an order: the book never maintains them.
- The counters `insertions`, `deletions`, `levels_created`, `levels_recycled`, `levels_destroyed` and `average_depth`: the first two are bumped once per recursion frame and count no operations.
- `set_anchor`, `best_index` and `best_price` of the dense table, `best_bid` and `best_ask` snapshots: unused by the book or mere field reads. The dense table keeps its anchor 0 and tick 1.
- The debug-only post-checks of a match are not code here; what they assert follows from `Runs.MatchConserves` and `Statuses.SweepAccounts`.
- Sides are the datatype `Buy`/`Sell`, so the values 2 to 255 of the side byte, which the book would treat as asks, do not occur.
- The table masks with capacity - 1 and hashes by multiplication; the model takes any hash function and proves the map for all of them.
- The load test in single-precision floating point is modelled as 4 * (size + 1) >= 3 * capacity, with which it agrees for tables up to 2^24 slots.
- Stored AVL heights are natural numbers, not 32-bit: with the proved height bound they stay far below any limit.
- Pool and list indices are natural numbers below the sentinel; pool sizes up to the sentinel are admitted.
- Freed slots hold only their link in the model; stale object bytes left in them are not represented.
- Memory ordering beyond loads that may return an older value: reordering of plain buffer accesses across the acquire and release operations is excluded, as those operations promise.
- The two queue classes run one call at a time; interleavings of steps inside calls are the subject of `SpscMachine` and `MpscMachine`.
- Move and copy variants of `push` and the in-place construction variants of `allocate` are one operation each.
- ObjectPools.ObjectPool.Deallocate: requires a live slot, where the code only checks that the pointer lies in the pool.
- OrderBooks.OrderBook.AddOrder: requires room in the pools and the map and a price inside the dense window, which the code asserts or assumes along the way.
- MatchingEngines.MatchingEngine.Match: requires at most 1000 trades, the capacity of the result's trade vector, and room for a residual; `Admission.FitsBeforehand` derives both from the book before the call.
- SpscQueues.SpscQueue.Size: covers a queue at rest; `SpscMachine.SizeByOwner` and `SpscMachine.SizeByObserver` cover loads taken while the threads run.
- BookDigests.Compute: different books are not claimed to have different digests, only different words (`BookWords.WordsDetermine`).
