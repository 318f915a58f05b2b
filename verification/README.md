# Order book cache, channels and snapshots

A Dafny model of the caches that this repository keeps for a market data feed, of the channels that
publish them, and of the way in which sessions subscribe. The main results are:

- **The book.** One book is kept in four linked forms (two sorted price lists, a map from price to order,
  and the two best quotes). Every well-formed message keeps them in agreement, and the price map alone
  determines the other three (`OrderBooks`). The class `MblCaches.MBLCache` edits all four in place, on
  array-backed slices whose `append` may overwrite a shared array, and is proved against that book.
- **Depth channels.** For a limit L, a reader of the depth channel holds exactly the best L orders of each
  side after any message of inserts or updates, of any length. After a message of deletes it does so if
  and only if no delete is *late*, that is, if no order that the message lets into the view is itself
  deleted later in that message (`DepthViews`, `DepthStreams`). `LateDelete` is the smallest failing input.
- **Failing messages.** A message that fails part of the way changes the book and is not published. For the
  channel of every depth it is proved which messages nevertheless leave a reader in step, and which leave
  the book consistent (`FailedDeltas`, `InSteps.DeltaInStepIff`).
- **Merging.** A partial that reaches a cache with a book becomes three messages. They are well formed
  whatever order the deleted prices come in, and leave exactly the prices and sizes of the partial
  (`Merging`). The deletes go through if and only if every side that has orders keeps one of its prices. On a
  depth channel the order in which the set yields the deleted prices can decide whether the readers are
  kept or broken; it cannot if and only if each delete is timely among all of them (`MergeOrders`).
- **Every input.** `InSteps.InputInStepIff` puts these together: an input that the cache can handle keeps the
  book consistent and the reader of a channel in step, whatever order a set yields its prices in, if and
  only if a guard on the book and the input holds.
- **Replicas.** The clients of this repository feed what they receive to a cache of their own. On channel 0
  that cache rebuilds the book in all four forms (`Replicas`). On a depth channel it holds the best levels
  after a delta if and only if no delete is late and none takes the last order of a side of the view; for
  merges and whole runs the same is decided exactly (`DepthReplicas`). Either way the partial it starts
  with must list both sides, or loading it panics.
- **Whole runs.** Over every interleaving of producers, the cache loop, the dispatcher and any number of
  sessions, the labels of the run alone decide the state: requests are handled in the order in which they were
  made, the book is what the handled inputs lead to, and the queue holds exactly what they make. Every list
  of inputs that can be handled has such a run (`Runs`).
- **End to end.** Over every interleaving, a session that has got a fresh partial holds exactly the view of the
  book that the cache had when the last message it got was made. On channel 0 what it rebuilds from that
  partial on is that book, its lists and quotes included, unless the partial lacked a side. Once nothing is
  on its way any more, the book is the one that the inputs lead to (`Channels`, `Emissions`, `Protocol`,
  `Sessions`). Before the partial, inputs need only leave the book consistent.
- **Smaller cores.** The trimmed trade history cannot be told from the full log (`TradeCaches`), removal by
  a list of indices is right if and only if no index is harmfully repeated (`RangeSlices`), and heartbeats
  are conserved between two parties (`Heartbeats`).

The modules follow the source files. Each class is paired with value-level functions that its methods are
proved against; the theorems are lemmas about those functions. `dafny verify dfyconfig.toml` checks all
modules together.

Where the code and what it says about itself differ, the model follows the code:

- `Join` returns a copy of its receiver (utils/set_float.go:77-89), not the intersection that utils/set.go:9
  documents. `FloatSets.Float64Set.Join` says when the two agree; merging does not depend on it.
- A first partial is published on channel 0 only (utils/cache_mbl.go:332-342), so that a reader of a depth
  channel is not in step after it (`InSteps.FirstPartialIff`).
- A handler that reports an error has often changed the cache already: the price map on a delete or an insert
  (utils/cache_mbl.go:468, :510), and the quote of an empty side on an update (utils/cache_mbl.go:525-531).
  `OrderBooks.DeleteInvIff`, `OrderBooks.InsertInvIff` and `OrderBooks.UpdateInvIff` say exactly when the
  four forms still agree, `FailedDeltas.MessageInvIff` says so for a whole message, and
  `OrderBooks.WrongSideUpdate` is the smallest failing update.
- Loading a partial that lacks a side panics (utils/cache_mbl.go:327-330), and a subscriber of a cache that is
  empty or has orders on one side only is sent such a partial (`Snapshots.SnapshotLoadsIff`,
  `Sessions.OneSidedSnapshot`). A book that has both sides keeps them (`InSteps.InputKeepsSides`).
- A client keeps the 25-level table in a cache of the same kind (client/client.go:20-25). That cache can index
  an empty list on a message with which a reader of the table would be in step: a delete of all that one side
  of the view holds comes before its makeup (`DepthReplicas.LastInView`).
- A message that fails part of the way is not published although its first orders are applied
  (`InSteps.FailedDelta`). A reader of channel 0 stays in step with a failing insert if and only if its first
  price is cached (`InSteps.InsertInStepIff`), with a failing delete if and only if its first price is not
  (`InSteps.DeleteInStepIff`), and with a failing update if and only if every price ends up with the size it
  had (`InSteps.UpdateInStepIff`, `InSteps.DistinctUpdatesIff`).
- A second partial may keep or break the readers of a depth channel as Go's map iteration happens to go
  (`MergeOrders.OrderDecides`, `InSteps.MergeByChance`); a broken reader stays broken until the next partial
  it gets.
- `RangeSlice` removes too much for a repeated index, such as 1 listed twice (`RangeSlices.HarmfulTwice`).
- A later partial of trades replaces the history without being published (`TradeCaches.ReaderLosesLog`).

Terms: a delta is *well formed* for a book when an insert names a known side and a new price, and a delete
or an update names a cached order on its own side, a delete leaving that side at least one order. It is
*safe* when handleDelete never indexes an empty list and UniPriceAdd gets, as its comment demands, a sorted
list without the price; in a consistent book only a delete can be unsafe. A *view* at limit L maps the best L
prices of each side to their orders; at limit 0 it is the whole map. An input is *accepted* on a channel when
the guard of `InSteps.InputInStepIff` holds, and a partial is *fresh* when it was queued since the last input
that was not accepted. A *replica* is a cache that starts empty: its first partial is loaded, a later one is
merged, and deltas are applied.

## Model

| member | source | states |
|---|---|---|
| Slices.Append | utils/common.go:123-124 | append extends the slice by one element; with spare capacity it writes into the shared array right behind the slice, and nowhere else |
| Slices.AppendAll | utils/common.go:120-123 | append of a whole slice yields both contents one after the other, in place or in a new array, and leaves the second slice as it was |
| Slices.Copy | utils/common.go:226 | copy overwrites exactly the window of the destination |
| Slices.Reverse | utils/slice.go:41-46 | reverses the window in place and touches nothing outside it |
| Slices.ReversedAt | utils/slice.go:41-46 | element k of the reversed list is element n-1-k of the list |
| Slices.ReversedTwice | utils/slice.go:41-46 | reversing twice restores the list, as snapshot and load do to the bids |
| PriceLists.UniPriceSearch | utils/common.go:72-89 | an index found holds the price; in a sorted list -1 means exactly that the price is absent |
| PriceLists.FindSlot | utils/common.go:118-204 | the bisection ends (end - start decreases) at the one index that keeps the list sorted, in either direction |
| PriceLists.UniPriceAdd | utils/common.go:92-205 | sorted insertion: old[..idx] + [price] + old[idx..], although the list's own array is overwritten |
| PriceLists.UniPriceRemove | utils/common.go:208-229 | removes the price at the index found, in place, or changes nothing |
| PriceLists.InsertedSorted | utils/common.go:92-205 | inserting an absent price into a strictly sorted list keeps it strictly sorted |
| PriceLists.InsertedPrices | utils/common.go:92-205 | the list then holds the price and what it held before, and nothing else |
| PriceLists.RemovedPrices | utils/common.go:208-229 | removal takes away that price and no other |
| PriceLists.RemoveAfterAdd | utils/common.go:92-229 | removing the price just added restores the list, at the index it was added |
| PriceLists.AddAfterRemove | utils/common.go:92-229 | adding back the price just removed restores the list and the index |
| PriceLists.RankCountsBetter | utils/cache_mbl.go:441-458 | the distance of a price from the end of its list is one more than the number of strictly better prices |
| OrderBooks.OrderKeepsInv | utils/cache_mbl.go:428-555 | a well-formed order is applied without an error, keeps the four forms in agreement and changes the map as a patch by price does |
| OrderBooks.OrdersKeepInv | utils/cache_mbl.go:241-298 | the same for messages of any length |
| OrderBooks.BookDetermined | utils/cache_mbl.go:15-31 | two consistent books with the same price map are the same book: lists and quotes hold nothing of their own |
| OrderBooks.DeleteInvIff | utils/cache_mbl.go:428-471 | a delete keeps the four forms in agreement if and only if its price is absent or it names the side of the cached order |
| OrderBooks.InsertInvIff | utils/cache_mbl.go:473-513 | an insert keeps them in agreement if and only if its price is cached already or its side is known |
| OrderBooks.UpdateInvIff | utils/cache_mbl.go:515-555 | an update keeps them in agreement unless it names the wrong side, that side is empty and the size is not zero, and then it does not |
| OrderBooks.WrongSideUpdate | utils/cache_mbl.go:525-546 | with one bid in the book, resizing it as an ask is refused and leaves a quote on the empty ask side |
| OrderBooks.SafeLeavesBest | utils/cache_mbl.go:441-464 | in a consistent book a delete that never indexes an empty list leaves its side an order, at whatever depth it hits |
| OrderBooks.OthersSafe | utils/cache_mbl.go:428-555 | in a consistent book inserts and updates are always safe, over messages of any length |
| OrderBooks.OrderErrorIff | utils/cache_mbl.go:428-555 | a handler reports an error exactly for the orders that are not well formed |
| OrderBooks.MessageErrorIff | utils/cache_mbl.go:241-298 | applyData reports an error exactly for the messages that are not well formed, one of an invalid action without orders included |
| OrderBooks.DepthIsRank | utils/cache_mbl.go:441-536 | the depth a handler returns is one plus the number of strictly better prices, before a delete or an update and after an insert |
| OrderBooks.OrderOnDepthInvertsRank | utils/cache_mbl.go:176-207 | GetOrderOnDepth finds an order for every depth up to the length of the side, and finds the order p exactly at the rank of p |
| DepthViews.InsertView | utils/cache_mbl.go:260-276 | an insert ranked beyond the limit leaves the view alone; otherwise the view gains it and loses exactly the makeup order, if there is one |
| DepthViews.DeleteView | utils/cache_mbl.go:242-259 | a delete hits the view exactly when its rank is within the limit; the view then loses it and gains exactly the makeup order, which was not in view |
| DepthViews.UpdateView | utils/cache_mbl.go:277-288 | an update changes the view exactly when its rank is within the limit, and only the size of that order |
| DepthStreams.InsertBatch | utils/cache_mbl.go:260-276 | all in-view inserts and then all makeup deletes of a message of any length take the old view to the new one, an order inserted early and pushed out later included |
| DepthStreams.DeleteBatch | utils/cache_mbl.go:242-259 | all in-view deletes and then all makeup inserts give the new view if and only if no delete is late, which holds if and only if no makeup order is deleted in the same message |
| DepthStreams.NotLateIsSeen | utils/cache_mbl.go:249-257 | a delete is not late exactly when, if it is in the current view, its order was in the view when the message came; lateness compares ranks in the book before the message |
| DepthStreams.UpdateBatch | utils/cache_mbl.go:277-288 | updates need no makeup and take the old view to the new one |
| DepthStreams.PrimaryRanks | utils/cache_mbl.go:249-252 | the in-view response of a well-formed message lists exactly the orders that rank within the limit, each in its turn (before a delete or an update, after an insert), in the order of the message |
| DepthStreams.MakeupInTurn | utils/cache_mbl.go:253-257 | with each order the makeup response grows by exactly the orders that enter the view by a delete or leave it by an insert, as they are cached |
| DepthStreams.BatchIff | utils/cache_mbl.go:119-133 | what dispatchRsp sends for a well-formed message takes the reader to the new view, except that a message with a late delete is refused |
| DepthStreams.DeletesPaired | utils/cache_mbl.go:242-259 | for a delete message of any length, each delete paired at once with its makeup keeps the reader on the view |
| DepthStreams.LateDelete | utils/cache_mbl.go:119-133 | three asks seen at depth 1, the best two deleted in one message: the reader is told to delete an order it has not seen |
| Snapshots.LoadInvIff | utils/cache_mbl.go:307-343 | a book loaded from a partial that lists both sides is consistent if and only if the partial is strictly descending on each side and no price is on both; loading any other partial panics |
| Snapshots.SnapshotView | utils/cache_mbl.go:71-106 | a snapshot at a depth lists exactly the orders of the view at that depth |
| Snapshots.SnapshotLaidOut | utils/cache_mbl.go:93-103 | place by place: first the asks that are taken, from the worst to the best, then the bids, from the best to the worst, min(depth, length) of each or all for a depth of 0 or less, each order as cached, also in a cache that may disagree |
| Snapshots.SnapshotLoadsIff | utils/cache_mbl.go:327-330 | the snapshot of a consistent book, at any depth, can be loaded if and only if the book has both sides |
| Snapshots.SnapshotRoundTrip | utils/cache_mbl.go:71-106 | of a book with both sides, and of no other, the snapshot can be loaded: this gives the best min(depth, length) levels of each side in the same order with the same quotes, and for a depth of 0 or less the book itself |
| Snapshots.Replication | utils/cache_mbl.go:209-299 | a run of well-formed deltas keeps the book consistent; a cache that loads a full snapshot, which it can if and only if the book has both sides, and gets the same run is the source's book in all four forms |
| FloatSets.Float64Set.constructor | utils/set_float.go:121-131 | the set of the given elements |
| FloatSets.Float64Set.Append | utils/set_float.go:25-29 | adds the elements and removes none |
| FloatSets.Float64Set.Values | utils/set_float.go:31-39 | every element once, in some order |
| FloatSets.Float64Set.Copy | utils/set_float.go:15-23 | a new set with the same elements |
| FloatSets.Float64Set.Add | utils/set_float.go:65-75 | union, in a new set |
| FloatSets.Float64Set.Sub | utils/set_float.go:91-103 | difference, in a new set |
| FloatSets.Float64Set.Join | utils/set_float.go:77-89 | a copy of the receiver, which is the documented intersection if and only if the other set contains the receiver |
| Merging.MergeWellFormed | utils/cache_mbl.go:345-426 | the delete, insert and update messages of a merge are well formed in their turn, whatever order the deleted prices come in: no internal applyData fails |
| Merging.MergeLists | utils/cache_mbl.go:382-420 | the deletes list the cached orders that the partial drops, in the order in which their prices come; the inserts and the updates list exactly the new and the resized orders of the partial, in its order |
| Merging.MergeResult | utils/cache_mbl.go:345-426 | the merged book is consistent and holds exactly the partial's prices; a price it had keeps its order and takes the new size, a new one takes the whole order |
| Merging.MergeSides | utils/cache_mbl.go:345-426 | each side holds exactly the prices that the partial lists for it |
| Merging.MergeDeterminate | utils/cache_mbl.go:382-394 | the order in which Values yields the deleted prices does not show in the book |
| Merging.MergeIsLoad | utils/cache_mbl.go:307-426 | merging a partial that lists both sides leaves the lists, sizes and quotes that loading it into an empty cache would |
| Merging.LoadedEntry | utils/cache_mbl.go:311-323 | of the orders that a first partial lists at one price, the map keeps the last |
| Merging.MergeSafeIff | utils/cache_mbl.go:382-394 | the deletes of a merge never empty a side if and only if the partial repeats a price of every side that has orders |
| Merging.SafeKeepsSides | utils/cache_mbl.go:441-464 | a message of any action and length that never indexes an empty list, whether it fails or not, never takes the last price of a side, in any cache |
| FailedDeltas.RunLeaves | utils/cache_mbl.go:241-288 | what a run of well-formed orders leaves in the map: the inserted orders added, the deleted prices gone, the last size of each updated price |
| FailedDeltas.FailsAtFirstBad | utils/cache_mbl.go:241-288 | which order of a message is refused can be told from the book and the message before; the orders before it are applied, and nothing after it |
| FailedDeltas.RefusedLeaves | utils/cache_mbl.go:428-555 | a refused order leaves both price lists as they were; a refused delete still drops its price from the map, and a refused insert of a new price is still cached |
| FailedDeltas.FailedDeltaIff | utils/cache_mbl.go:243-281 | a message that fails leaves the view at a depth as it was if and only if no applied insert ranks within it, no delete up to the refused one is in it, or every price in it ends up with the size it had; at depth 0 a refused insert must be refused at once, for a cached price |
| FailedDeltas.MessageInvIff | utils/cache_mbl.go:428-555 | a message leaves the four forms in agreement if and only if it is well formed or its refused order does no damage |
| MergeOrders.TimelyIff | utils/cache_mbl.go:382-394 | no delete of a merge is late in any order that the set may yield if and only if each deleted price is in view, or stays below it when all the other deleted prices are gone |
| MergeOrders.OrderDecides | utils/cache_mbl.go:382-394 | for one partial and one book, one order of the deleted prices has a late delete and another has none |
| Emissions.DeltaSilentIff | utils/cache_mbl.go:119-133 | a well-formed delta sends nothing to a depth channel if and only if no order of it ranks within the depth in its turn |
| Emissions.PublishedNotEmpty | utils/cache_mbl.go:127 | no input puts a message without orders on a depth channel |
| Emissions.MergeOnZero | utils/cache_mbl.go:386-425 | on channel 0 a merge is its deletes, then its inserts, then its updates, each in one message unless there are none |
| Emissions.LastMarksNext | utils/cache_mbl.go:136-160 | the book that a reader should have after the last message of a delta, and on channel 0 of any input, is the cache's book after the input |
| InSteps.DeltaInStep | utils/cache_mbl.go:119-133 | what a well-formed delta publishes on the channel of any depth brings a reader from the old view to the new one, or breaks the reader if it has a late delete |
| InSteps.BrokenStays | utils/cache_mbl.go:119-133 | no later delta mends a broken reader |
| InSteps.DeltaInStepIff | utils/cache_mbl.go:136-160 | a delta, failing or not, leaves the reader of any channel in step if and only if it is well formed without a late delete, or fails without anything of it being seen |
| InSteps.InsertInStepIff | utils/cache_mbl.go:260-276 | on channel 0 an insert message leaves a reader in step if and only if it is well formed or its first price is cached |
| InSteps.DeleteInStepIff | utils/cache_mbl.go:242-259 | on channel 0 a delete message leaves a reader in step if and only if it is well formed or its first price is not cached |
| InSteps.UpdateInStepIff | utils/cache_mbl.go:277-288 | on channel 0 an update message leaves a reader in step if and only if it is well formed or every price ends up with the size it had |
| InSteps.DistinctUpdatesIff | utils/cache_mbl.go:277-288 | when no price is named twice, this means that every order before the refused one repeats the cached size |
| InSteps.FailedDelta | utils/cache_mbl.go:260-264 | an insert sent twice in one message is applied once and published to no channel |
| InSteps.MergeInStep | utils/cache_mbl.go:370-425 | the three messages of a merge bring a reader from the old view to the new one, in step after each, if its deletes come without a late one; otherwise they leave the reader broken |
| InSteps.MergeByChance | utils/cache_mbl.go:382-394 | one partial, on one book, keeps or breaks the reader of the depth-1 channel as the set yields its prices |
| InSteps.FirstPartialIff | utils/cache_mbl.go:332-342 | a first partial that lists both sides leaves the reader of a channel in step if and only if it is channel 0 |
| InSteps.ConsistentIff | utils/cache_mbl.go:136-160 | an input that the cache can handle, failing or not, leaves the book consistent, in whatever order a set yields its prices, if and only if a guard on the book and the input holds |
| InSteps.InputKeepsSides | utils/cache_mbl.go:307-471 | an input that the cache can handle never empties a side, and a first partial fills both |
| InSteps.InputInStep | utils/cache_mbl.go:136-160 | every accepted input keeps the book consistent and the reader of the channel in step, after each of its messages |
| InSteps.InputInStepIff | utils/cache_mbl.go:136-160 | an input that the cache can handle does so in every order that a set may yield if and only if it is accepted, which a caller can check before |
| Replicas.InputRebuilt | utils/cache_mbl.go:136-160 | what an accepted input publishes on channel 0 takes a replica of the book to the next book, in all four forms, through every book on the way; a merge reaches it as three deltas and a first partial as a snapshot |
| Replicas.RebuildAnyOrder | utils/cache_mbl.go:382-394 | a message leaves a replica the same book in whatever order its own sets yield their prices |
| Replicas.SelfMerge | utils/cache_mbl.go:345-426 | a replica that gets a second snapshot of the book it holds merges it, and nothing changes |
| DepthReplicas.TrimInv | utils/cache_mbl.go:71-106 | the best levels of a consistent book are a consistent book, whose map is the view |
| DepthReplicas.DeltaTrimIff | client/client.go:20-25 | what a well-formed delta publishes on a depth channel takes a cache with the best levels of the book to the best levels of the next book, in all four forms, if and only if no delete is late and none takes the last order of a side of the view; otherwise that cache indexes an empty list or keeps an order that was deleted |
| DepthReplicas.MergeTrimIff | utils/cache_mbl.go:370-425 | the three messages of a merge do so if and only if its deletes do |
| DepthReplicas.MergeTrimAlways | utils/cache_mbl.go:382-394 | they do so in every order that the set may yield if and only if each deleted price is timely and each side of the view keeps a price |
| DepthReplicas.DepthReplication | client/client.go:525-543 | a cache that loads a snapshot at a depth and gets what a run of deltas publishes on the channel of that depth holds the best levels of the book after every message if and only if every message of the run carries them over |
| DepthReplicas.LastInView | client/client.go:20-25 | three asks seen at depth 1, the best one deleted: a reader by price is in step, and a cache with the best level indexes an empty list |
| MblCaches.MBLCache.constructor | utils/cache_mbl.go:573-598 | starts with the empty, consistent book |
| MblCaches.MBLCache.HandleDelete | utils/cache_mbl.go:428-471 | the whole new state, depth and error of a delete, error paths included, on a cache that may already disagree, whenever it does not index an empty list or miss its new best price in the map, which it only looks for when it takes the price for the best one |
| MblCaches.MBLCache.HandleInsert | utils/cache_mbl.go:473-513 | the whole new state, depth and error of an insert, error paths included, whenever UniPriceAdd gets what it asks for |
| MblCaches.MBLCache.HandleUpdate | utils/cache_mbl.go:515-555 | the whole new state, depth and error of an update, error paths included |
| MblCaches.MBLCache.GetOrderOnDepth | utils/cache_mbl.go:176-207 | the cached order at the depth counted from the best price, or none |
| MblCaches.MBLCache.Limit | utils/cache_mbl.go:249-257 | every channel that can see the order, and no other, gets it and its makeup order |
| MblCaches.MBLCache.ApplyDelta | utils/cache_mbl.go:209-299 | the orders of a message are applied up to the first error, and without an error every channel's in-view and makeup orders are collected, on a cache that may already disagree, whenever each order in its turn is safe |
| MblCaches.MBLCache.DispatchRsp | utils/cache_mbl.go:108-134 | channel 0 gets the message; each depth channel gets its in-view orders if there are any, then its makeup orders if there are any, and nothing else, in whatever order the channels come |
| MblCaches.MBLCache.TakeSnapshot | utils/cache_mbl.go:71-106 | place by place: the best asks from the deepest to the best, then the best bids from the best down, min(depth, length) of each, each as cached |
| MblCaches.MBLCache.ApplyAndDispatch | utils/cache_mbl.go:136-160 | an error publishes nothing; otherwise channel 0 grows by the message, and a depth channel, which never gets an empty message, grows if and only if some order ranks within its depth in its turn |
| MblCaches.MBLCache.ApplyStage | utils/cache_mbl.go:386-394 | one stage of a merge, skipped when it has no orders |
| MblCaches.MBLCache.Compare | utils/cache_mbl.go:345-382 | the prices to delete, once each, and the sets that the merge looks prices up in |
| MblCaches.MBLCache.Select | utils/cache_mbl.go:396-405 | the orders to insert and to update, in the order of the partial |
| MblCaches.MBLCache.MergePartial | utils/cache_mbl.go:345-426 | a merge leaves a consistent book, the one that its three messages make, and publishes those messages on every channel; on channel 0 the deletes, then the inserts, then the updates, each unless empty |
| MblCaches.MBLCache.LoadPartial | utils/cache_mbl.go:308-343 | loads a partial that lists both sides, which it otherwise panics on, and publishes a full snapshot on channel 0 alone |
| MblCaches.MBLCache.HandlePartial | utils/cache_mbl.go:307-426 | an empty cache loads the partial, any other merges it |
| MblCaches.MBLCache.HandleInput | utils/cache_mbl.go:136-160 | the book and every channel after one input of the cache; no depth channel gets an empty message |
| MblCaches.Collect | utils/cache_mbl.go:311-323 | the two lists and the map of a first partial; orders of an unknown side are skipped |
| Channels.Delivery | utils/channel.go:229-254 | over every log of processed inputs, a session has been sent exactly the messages that are broadcast or addressed to it between its registration and its end, in order; it is a destination exactly while registered, and its queue is closed exactly when it has registered and is registered no more |
| Channels.PlacesInLog | utils/channel.go:229-254 | the messages that a session gets stand at strictly increasing places of the log: each at most once, and in order |
| Channels.DeliveryStep | utils/channel.go:283-323 | one processed input adds its message to what a registered session got, or adds nothing |
| Channels.BeforeRegistration | utils/channel.go:139-152 | a session whose breakpoint has not been processed has been sent nothing |
| Channels.RspChannel.constructor | utils/cache_mbl.go:585-590 | starts without destinations |
| Channels.RspChannel.PublishData | utils/channel.go:101-111 | puts a broadcast at the end of the queue, unless the channel is closed |
| Channels.RspChannel.PublishDataToDestination | utils/channel.go:113-124 | puts a directed message at the end of the queue, unless the channel is closed |
| Channels.RspChannel.RetriveData | utils/channel.go:139-152 | draws a session that was never used and queues its registration, unless the channel is closed |
| Channels.RspChannel.ShutdownRetrive | utils/channel.go:154-174 | queues the removal of the session, unless the channel is closed; the caller's wait for the answer is left out |
| Channels.RspChannel.DispatchNext | utils/channel.go:229-254 | one round of the dispatcher: the whole new state, without a send to a closed destination, and for a shutdown whether the session was found |
| Channels.RspChannel.DispatchDestinations | utils/channel.go:283-323 | every addressed destination gets the message, except those that time out, which are closed and removed |
| Protocol.Reachable | utils/cache.go:135-161 | in every state that any interleaving reaches, the book is consistent, the stream since the last input that was not accepted leads to its view, a book with both sides keeps them and all its partials can be loaded, sessions register once and before anything is addressed to them, and the dispatcher has processed the front of the queue |
| Runs.RunTraced | utils/cache.go:135-161 | over every interleaving, from the labels alone: the requests are handled in the order in which they were made, as many as the loop had turns; the book is the result of the inputs among them; what was queued and what is still to be queued is exactly what they make, each from the book of its moment; registrations and shutdowns stand where they were asked for; the dispatcher has processed the front of the queue, each input with the timeouts of its round |
| Runs.Drain | utils/channel.go:229-254 | from every state that is reached, sends and dispatches alone lead to one in which nothing is on its way any more, with the same book |
| Runs.Realised | utils/cache.go:235-237 | every list of inputs that can be handled one after the other is handled by some run, which delivers all that they make |
| Sessions.EndToEnd | server/server.go:229-236 | over every interleaving, with any inputs before that the cache can handle and that leave the book consistent, a session that has got a fresh partial holds exactly the view of the book that the cache had when the last message it got was made; on channel 0 its replica, started with that partial, is that book if the partial lists both sides and has panicked if not |
| Sessions.CaughtUp | server/server.go:229-236 | over every interleaving, once nothing is on its way any more, a registered session with a fresh partial holds the view of the book that the inputs handled so far lead to, and on channel 0 that book, if the partial lists both sides |
| Sessions.ReplicaIsBook | utils/cache_mbl.go:71-106 | over every interleaving, if the book has both sides at the start, a session of channel 0 that feeds what it gets, from a fresh partial on, to a cache of its own has the cache's price lists, map and best quotes of its last message |
| Sessions.PartialForgets | client/client.go:525-543 | a reader by price holds the same whether or not it discards what came before a partial |
| Sessions.FreshSince | utils/cache.go:135-161 | if every input since a state with an empty outbox was accepted, every partial queued since is fresh |
| Sessions.OneSidedSnapshot | utils/cache_mbl.go:327-330 | in one run, on any consistent book, a session subscribes and gets its snapshot; the cache it feeds it to panics if and only if the book lacks a side |
| Sessions.ReachableDelivery | utils/channel.go:229-254 | over every interleaving, each session has been sent exactly what is addressed to it between its registration and its end, in the order of the queue |
| Sessions.SnapshotReflects | utils/cache.go:196-221 | over every interleaving, a directed snapshot carries the view of the cache's book at that moment, which is exactly what a reader holds that was in step after the last input that was not accepted and got every broadcast queued from there up to the snapshot |
| Sessions.SnapshotFindsSession | server/server.go:229-232 | over every interleaving, a directed snapshot finds its session registered, unless a shutdown or a timed-out write has ended the registration |
| TradeCaches.HistoryEndsLog | utils/cache_trade.go:61-91 | over every run the kept history is the end of the log since the last partial, is all of it or at least 300 trades, and after an insert at most 600 |
| TradeCaches.RunTrims | utils/cache_trade.go:61-91 | in every run an insert that makes more than 600 trades leaves the last 300 of the log, any other insert leaves all that was kept and the new ones, and a partial leaves just its own |
| TradeCaches.SnapshotOfLog | utils/cache_trade.go:23-38 | a snapshot of the kept history equals the same snapshot of the full log, at every depth: the end of the log, as many trades as there are, but at most 200 and at most a positive depth |
| TradeCaches.ReaderInStepIff | utils/cache_trade.go:40-59 | a reader of what is published has the full log after every message if and only if no partial that comes to a history with trades says anything new |
| TradeCaches.MinInts | utils/common.go:59-69 | the least of the numbers, or the largest 64-bit integer if there are none |
| TradeCaches.TrimLen | utils/cache_trade.go:26-33 | at most the history, 200 and a positive depth, and equal to one of them |
| TradeCaches.TradeCache.TakeSnapshot | utils/cache_trade.go:23-38 | the end of the log: as many trades as there are, but at most 200 and at most a positive depth |
| TradeCaches.TradeCache.ApplyData | utils/cache_trade.go:61-91 | the new history, trimmed to 300 trades when an insert makes more than 600 and still the end of the log; publishes inserts, and partials that come to an empty history |
| TradeCaches.TradeCache.HandleInput | utils/cache_trade.go:40-59 | publishes the message exactly when it is an insert, or a partial that comes to an empty history |
| TradeCaches.ReaderLosesLog | utils/cache_trade.go:64-71 | an insert and then a partial with another trade: the log is replaced and the reader is not told |
| RangeSlices.RemoveAllIff | utils/slice.go:12-24 | removing in place with the shifting offsets keeps exactly the elements whose index is not listed if and only if every repeated index in range has all smaller indices listed as well |
| RangeSlices.DistinctExact | utils/slice.go:5-29 | with distinct indices in any order, negative and out-of-range ones included, exactly the elements whose index is not listed remain, in order |
| RangeSlices.HarmfulTwice | utils/slice.go:12-24 | index 1 listed twice removes the element at index 0 as well |
| RangeSlices.RestPastEnd | utils/slice.go:20-22 | stopping at the first index past the end loses nothing |
| RangeSlices.RemoveInPlace | utils/slice.go:24 | moves the rest down by one in the same array |
| RangeSlices.TrimAll | utils/slice.go:10-25 | the loop with its counters does the removals one after the other |
| RangeSlices.RangeSlice | utils/slice.go:6-29 | sorts the caller's indices and leaves the promised elements, in the source's own array, if and only if no index is harmfully repeated |
| Heartbeats.HeartbeatConserved | client/client.go:353-389 | over every interleaving and every pattern of failed writes, the pinging side counts the pings and pongs in flight, plus one ping whose reply failed, so never below zero; the replying side counts 0; a side with a positive limit closes for a mismatch exactly when its count reaches the limit |
| Heartbeats.HeartbeatsBalance | client/client.go:353-389 | over every interleaving, from the labels alone: every tick is a ping that waits, was put on the wire or closed its side, and every ping that arrived waits, was answered or closed its side; a side has failed to send if and only if it handled a ping whose write failed; a side with a limit below one closes at its first heartbeat |
| Heartbeats.NextLinkInv | server/session.go:174-202 | every step of either side keeps that balance |
| Heartbeats.RunInLink | server/session.go:174-202 | a run of the loop of either side is a run of steps of the connection: the same side, the same heartbeats on the wire, the other side untouched |
| Heartbeats.RunKeepsBalance | client/client.go:353-389 | so the loops keep that balance, however long they run |
| Heartbeats.HeartbeatLoop.constructor | server/session.go:138-142 | starts open with a count of 0 |
| Heartbeats.HeartbeatLoop.Handle | client/client.go:354-388 | one heartbeat: what is sent, the new count and whether the side closes; a ping whose write fails closes either side and sends nothing |
| Heartbeats.HeartbeatLoop.Run | server/session.go:174-202 | the loop handles the queue up to the heartbeat that closes the side |

## Left out

- Sessions.EndToEnd: one channel is observed in each run, and queues are unbounded. An input on which the cache panics, or that leaves the book inconsistent, ends a run. What a session holds between an input that was not accepted and its next partial is not stated; InSteps.InputInStepIff shows that no weaker guard will do. On a depth channel the book is only compared after the last response of each message, and the cache of a client is followed by DepthReplicas over runs of deltas and single merges.
- MblCaches.MBLCache.HandleInput: a merge into a cache that an earlier failed message left in disagreement, an insert into a list that is not sorted or has the price already, and what a panic leaves behind are not modelled; utils/common.go:91 demands a sorted list with unique prices.
- Merging.MergeResult: a partial that lists a price twice or moves a price to the other side is not modelled.
- Channels.RspChannel.ShutdownRetrive: that it waits for the breakpoint is left out; DispatchNext states the answer it waits for.
- PriceLists.UniPriceSearch: sort.Search is modelled by its documented result, the first index for which the condition holds.
- PriceLists.UniPriceAdd: the two directions are written once, with the comparison as a parameter.
- RangeSlices.RangeSlice: sort.Sort is modelled by its result.
- Channels.RspChannel.DispatchDestinations: timers are left out; any set of destinations may time out at each message.
- Heartbeats.HeartbeatConserved: client and session are in the same mode; tickers are steps that may happen at any time, and the receive timeout is left out.
- Shared orders: the source's queued messages share their orders with the cache, so that a later update can change a message before it is read; the model copies orders.
- Floating point: prices and sizes are real numbers, without NaN and rounding.
- Integer widths: depths, ids and counters are unbounded, except in MinInts.
- lastPrice and lastSize of a quote, and IsQuoteChange: they only feed a debug line.
- Table names, symbols, time stamps and log messages.
- Child channels (Connect, dispatchSubChannels), Close, Stop, and the end of a context: shutdown races with publishers.
- NewDepthChannel, which always starts channel 25: depth channels are taken as installed, at any set of positive depths.
- Websockets, HTTP, JSON and the parsing of requests: a session is a number, and its messages are values.
- InstrumentCache, linq.go, set_string.go, the kafka, mock, config and notify packages: they would only add easy members.
