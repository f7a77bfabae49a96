# A verified model of the node's mempool, header sync and peer bookkeeping

This project models, in Dafny 4.11, the stateful core of the node and proves what that core keeps over
every run. `dafny verify dfyconfig.toml` checks all of it.

**The mempool** (`src/mempool/`). The pool is a transaction graph with redundant views: the entry map, the
parent and child links, the ancestor and descendant totals cached in each entry, the outpoint index `spends`,
and the running size and fee totals. The bookkeeping is local: an insertion sums what its direct parents
record, and a removal corrects direct parents and direct children only. The proofs relate it to the true
transitive closure. `Pool.dfy` states the operations as functions on pool values and the invariant `Sound`;
`PoolRemoval`, `PoolInsertion`, `PoolOperations` and `PoolRuns` prove that every call, failing ones included,
keeps it, and that every run does; `Admission` says exactly which transactions get in and which error the
others get; `PoolHistory` follows one entry through a run. `AncestorWalk` is the
depth-first walk; `BlockTemplate`, `TemplateLimit` and `TemplateOrder` are about the greedy packer that uses
it. `Witnesses` and `TemplateWitnesses` hold concrete runs. `Mempool.dfy` is the object itself, a class with
the same fields, whose methods are proved to take the specified steps.

**Headers-first sync** (`src/p2p/legacy.rs`). `Headers` is the 80-byte record log, `HeaderChain` the header
tree and its rebuild from disk, `HeaderScan` exactly where a batch stops, `HeaderLine` when the vector of headers is a chain, `HeaderLog` what batches
add to the file when writes may be cut short, `Locator` the exponential block locator, `Downloads` the windowed
block scheduler, `HeadersFirst` the event loop as a step relation over the whole state, the header file
included; `HeaderPhase` says when the headers are in, `DownloadPlan` which blocks are queued when,
`RequestTimeouts` how long a request stays with a peer, `Starvation` follows requests that are
overwritten, and `SyncWitnesses` holds concrete runs. `HeaderStore`, `Downloader` and `PeerManager` are the
corresponding classes. `ChainParams` is the checkpoint table.

**Two smaller indexes.** `AddressTables`, `AddressHistory` and `AddressManager` model `src/addrman.rs`; `Inventory.dfy` models
`src/p2p/inventory.rs`.

How things are modelled:

- Every public operation is one atomic step. Iteration over a hash map or set, and the way a sort breaks
  ties, are arbitrary: the specification functions take the order as an argument, the methods return the one
  they met as a ghost result, and the theorems hold for every order. A set that is not changed in between is
  iterated in the same order each time.
- Counts, sizes, fees and heights are mathematical integers. A clamp or a saturation in the source is written
  out, and `PoolRemoval.RemovedCutsOut` proves that the clamps of the entry updates never bite.
- Block hashes and bucket hashes are arbitrary functions. No collision resistance is assumed, and no relation
  between a transaction and its identifier.
- Time is a parameter. The kernel's verdict on a transaction is a boolean parameter, a random choice is an
  arbitrary one, and a failed write to the header log is a parameter that says how many bytes reached the file.

Where the code does not do what its comments suggest, the model follows the code:

- "Include all ancestors first" (`src/mempool/txmempool.rs:296`): the ancestors come before the transaction,
  but not in order among themselves, and their weights are compared with the limit one at a time.
  `TemplateOrder.TemplateOrderedIff` says exactly when the whole template is in order at a given limit,
  and `TemplateOrder.RoomyTemplateOrderedIff` does so from the order alone when the whole pool fits.
  `TemplateOrder.TemplateFitsIff` says exactly when a given limit is respected, `TemplateLimit.WithinLimitIff`
  for which orders every limit is, and `TemplateLimit.AncestorsFirstIff` for which pools every such order is.
  `TemplateWitnesses.TemplateOvershootsAndReverses` is a run after which neither holds.
- A rejected `add_tx` can change the pool, because conflicts are removed before the ancestor check.
  `PoolOperations.RejectionKeepsPool` says exactly when it does not; `Witnesses.RejectionLosesConflict` is a run.
- A replacement whose required bump is zero may lower the pool's fees, contrary to rule 3 of "Implementation
  Details" in BIP 125. `Policy.RbfFeeRule` gives the exact rule; `Witnesses.ReplacementLowersFees` is a run.
- `add_tx` reports success for a transaction that eviction takes out again before it returns.
  `PoolHistory.AddedStaysIff` says exactly when it stays; `Witnesses.AddedIsEvicted` is a run.
- "Only retry a few times" (`src/p2p/inventory.rs:217`): every request counts as the first attempt, so the
  limit of three is never reached (`Inventories.LateIsRetried`).
- A known header resets the tip that the next one must link to, so a header that forks below the tip is
  appended at the end, and the headers form a tree rooted at genesis, not a chain.
  `HeaderLine.ExtendLinearIff` and `HeaderLine.RunLinearIff` say exactly when the vector stays a chain;
  `SyncWitnesses.ForkHappens` is a run after which it is not.
- A fragment left at the end of the header file is ignored when the file is loaded but never trimmed, so
  later appends are misread. `HeadersFirst.RestartResumesIff` says, for every file and every run, exactly when
  a restart gives the chain back; `HeadersFirst.RestartResumes` and `HeadersFirst.RestartAfterFragment` say
  what that comes to for a file without a fragment, and for complete writes after one.
  `SyncWitnesses.RestartDiffers` is a run.
- The blocks to download are queued once, when the headers are in. A header that is accepted later extends the
  chain but queues nothing, although the node asks its peers to announce new blocks by headers
  (`src/p2p/legacy.rs:156-160`): its block is never requested unless some peer also sends an inv
  (`DownloadPlan.LateHeaderNeverRequested`). `DownloadPlan.RangeIsCoveredIff` says exactly when the whole range
  above the start height is being downloaded; `SyncWitnesses.LateBlockRun` is a run in which it is not.
- Every timed-out block is queued again and counted again, so the total of the progress display is not the
  number of planned blocks (`Downloads.TotalExact`, `DownloadPlan.PlanIsPartitioned`).
- A block queued twice can be requested from a second peer while the first request is in flight. The first
  peer's count is then never lowered again (`Starvation.CountNeverRecovers`). `Downloads.AssignDisplacesIff`
  says exactly which assignments do that; `SyncWitnesses.StarvedRun` is a run of two peers after which the first
  is refused work for good (`Starvation.StarvedForGood`) while nothing is in flight.

## Model

| member | source | states |
|---|---|---|
| Policy.RateFloor | src/mempool/entry.rs:85-92 | a floor-division fee rate of at least r means a fee of at least r for every virtual byte, and conversely for positive sizes |
| Policy.FeeFloorsAgree | src/mempool/policy.rs:99-111 | the rate test and the minimum fee for a size accept the same transactions up to the saturation point |
| Policy.RbfFeeRule | src/mempool/policy.rs:150-170 | the replacement check passes if and only if replacement is enabled and either the bump is zero or the fee covers the conflicts plus the bump |
| Ancestry.AncestorUnfold | src/mempool/txmempool.rs:388-410 | the closure of the parent links satisfies the recursion the walk follows: a parent, or an ancestor of a parent |
| Ancestry.NotOwnAncestor | src/mempool/txmempool.rs:388-410 | links that run from younger to older admit no cycle |
| PoolRemoval.RemovedCutsOut | src/mempool/txmempool.rs:203-225 | a removal cuts exactly the links to the removed entry, corrects exactly its direct parents and children, and never reaches the clamp at zero |
| PoolRemoval.CutSlack | src/mempool/txmempool.rs:215-225 | the exact growth, by a removal, of the gap between recorded and true ancestor totals: the weight of the ancestors it cut off other than a removed direct parent |
| PoolRemoval.CutLimits | src/mempool/txmempool.rs:215-225 | a removal makes no recorded ancestor total grow, so limits met once stay met |
| PoolRemoval.RemovedKeepsInv | src/mempool/txmempool.rs:191-232 | a removal keeps all views in agreement and all totals sound |
| PoolInsertion.GapStep | src/mempool/txmempool.rs:412-426 | each further parent adds to the over-count exactly its own slack and the weight of the family it shares with the parents before it |
| PoolInsertion.CountGapZero | src/mempool/txmempool.rs:412-426 | summing the parents' counts is exact if and only if their own counts are and no two of them share family |
| PoolInsertion.JoinSlackOfNew | src/mempool/txmempool.rs:141-155 | the new entry's recorded totals exceed the true ones by exactly the gap of its parents |
| PoolInsertion.InsertedKeepsInv | src/mempool/txmempool.rs:150-179 | an insertion keeps all views in agreement and all totals sound |
| PoolInsertion.RemoveUndoesInsert | src/mempool/txmempool.rs:150-232 | removing what was just inserted gives back the same pool in every view |
| PoolOperations.ConflictsAgreeWithScan | src/mempool/txmempool.rs:364-374 | the index lookup finds exactly the entries that a scan of the pool for a shared outpoint would |
| PoolOperations.NoDoubleSpend | src/mempool/txmempool.rs:157-160 | no two entries spend the same outpoint |
| PoolOperations.RemovedAllTotals | src/mempool/txmempool.rs:457-460 | removing a list takes out its distinct members and exactly their sizes and fees, however often each is repeated |
| PoolOperations.ListTotalCoversDistinct | src/mempool/txmempool.rs:434-444 | a total that counts a repeated conflict repeatedly is at least the total over the distinct conflicts, and equal without repeats |
| PoolOperations.AdmitSound | src/mempool/txmempool.rs:73-182 | every path through admission, failing or not, keeps the invariant |
| PoolOperations.RejectionKeepsPool | src/mempool/txmempool.rs:134-148 | a rejected transaction leaves the pool unchanged if and only if an early check failed or there was no conflict |
| PoolOperations.ReplacementRemovesConflicts | src/mempool/txmempool.rs:127-136 | an admission removes exactly the entries that share an outpoint with the new one, and all of them signal |
| PoolOperations.ReplacementRaisesFees | src/mempool/txmempool.rs:428-463 | an admission changes the pool's fees by the new fee less those of the distinct conflicts, and a positive bump makes the pool richer by at least that bump |
| Admission.AdmissionVerdict | src/mempool/txmempool.rs:73-148 | for every transaction in every sound pool, the first check that fails, in the order of the code and written in the fields of the transaction, the entries and the policy, names the error |
| Admission.AdmittedIff | src/mempool/txmempool.rs:73-148 | a transaction is admitted if and only if it is new, valid, within the size limit and pays the relay rate, has no rivals or opts in, pays the bump and all its rivals opt in, and respects both ancestor limits once its rivals are gone |
| Admission.ListedTotals | src/mempool/txmempool.rs:434-444 | the totals of the conflicts count the one entry that spends each input's output once for every input |
| PoolRuns.EvictedSuffix | src/mempool/txmempool.rs:479-489 | every removal that eviction tries succeeds, and it stops at the first point within the limit |
| PoolRuns.EvictionExact | src/mempool/txmempool.rs:465-492 | an entry survives eviction if and only if it and all after it in fee-rate order fit, and no survivor has a lower rate than an evicted entry |
| PoolRuns.ApplySound | src/mempool/txmempool.rs:73-360 | every public operation keeps the invariant |
| PoolRuns.RunSound | src/mempool/txmempool.rs:73-512 | every run from the empty pool keeps the invariant |
| PoolRuns.AncestorLimitsHold | src/mempool/policy.rs:114-129 | the true ancestor closure respects the count and size limits that were only checked against sums over direct parents |
| PoolRuns.PoolPaysFloor | src/mempool/txmempool.rs:119-125 | the running totals satisfy fees >= minimum relay rate * size |
| PoolRuns.DescendantsLowerBound | src/mempool/entry.rs:160-169 | the recorded descendant totals never exceed the true ones |
| PoolRuns.DescendantCountExact | src/mempool/txmempool.rs:162-172 | the recorded descendant count is the true one if and only if every descendant is a direct child |
| PoolRuns.RunWithinSize | src/mempool/txmempool.rs:184-185 | no run leaves the pool above its size limit |
| PoolRuns.ReachablePools | src/mempool/txmempool.rs:73-512 | of every reachable pool: the views agree, the links are acyclic, the ancestor count covers the closure and respects its limit, size and fee bounds hold |
| PoolHistory.ApplyKeepsDown | src/mempool/txmempool.rs:138-225 | no operation changes the transaction of an entry that stays, or makes its recorded ancestor totals grow |
| PoolHistory.RunKeepsDown | src/mempool/txmempool.rs:138-225 | the same over any stretch of any run during which the transaction stays in the pool |
| PoolHistory.EntryIsAsAdded | src/mempool/entry.rs:85-113 | an entry carries the transaction, fee, height and time of the call that added it |
| PoolHistory.ExpiryExact | src/mempool/txmempool.rs:494-512 | a transaction in the pool since a call at some time is taken out by expiry if and only if more than the expiry period has passed since |
| PoolHistory.NewCountExactIff | src/mempool/txmempool.rs:141-153 | the ancestor count given to a new entry is the true one if and only if its parents' counts are and no two parents share family |
| PoolHistory.AddedStaysIff | src/mempool/txmempool.rs:184-188 | a transaction reported as added is still there after eviction if and only if it and all after it in the order fit |
| AncestorWalk.ListingExact | src/mempool/txmempool.rs:388-410 | for every iteration order of the parent sets the walk lists exactly the transitive closure, never the start, each after what it was found from |
| AncestorWalk.ListingFirst | src/mempool/txmempool.rs:400-405 | the parent that is iterated first is listed first |
| BlockTemplate.TemplateClosed | src/mempool/txmempool.rs:285-331 | the template has no repeats and holds, with each transaction, all its in-pool ancestors |
| BlockTemplate.TemplateWeight | src/mempool/txmempool.rs:291-325 | the template weighs at most the ancestor limit times the weight limit |
| BlockTemplate.TemplateGrows | src/mempool/txmempool.rs:285-331 | later turns only append, and append nothing once the limit is passed |
| BlockTemplate.SelectedAfterAncestors | src/mempool/txmempool.rs:316-331 | a transaction taken at its own turn comes after all of its ancestors in the final template |
| BlockTemplate.TemplateMaximal | src/mempool/txmempool.rs:285-314 | for whatever was left out, it or one of its ancestors is missing and does not fit in the room left at the end |
| TemplateLimit.FitsWhenAncestorsFirst | src/mempool/txmempool.rs:291-314 | if the order puts ancestors first, the template is within the weight limit |
| TemplateLimit.WithinLimitIff | src/mempool/txmempool.rs:291-314 | the template is within the limit, for every limit, if and only if the order puts each transaction after its in-pool ancestors |
| TemplateLimit.AncestorsFirstIff | src/mempool/txmempool.rs:276-279 | however ties are broken, sorting by ancestor fee rate puts ancestors first if and only if every transaction's recorded ancestor fees over recorded ancestor size, in whole satoshis, are less than those of each of its ancestors |
| TemplateOrder.TemplateSelects | src/mempool/txmempool.rs:285-331 | which transactions the template holds after each turn, and their weight, does not depend on the order in which the walks meet the ancestors |
| TemplateOrder.TemplateFitsIff | src/mempool/txmempool.rs:285-331 | the template weighs at most the limit it is given if and only if, at every turn that takes something, the selection so far and the whole family taken weigh no more than the limit |
| TemplateOrder.TemplateOrderedIff | src/mempool/txmempool.rs:269-334 | the template lists ancestors first, for every iteration order of the parent sets, if and only if no turn that takes something finds a missing parent with a missing ancestor |
| TemplateOrder.RoomyTemplateOrderedIff | src/mempool/txmempool.rs:269-334 | when the whole pool fits, the template lists ancestors first if and only if each transaction of the order was drawn in by an earlier one, or has no parent not yet drawn in with an ancestor not yet drawn in |
| TemplateOrder.OrderedWhenAncestorsFirst | src/mempool/txmempool.rs:269-334 | a corollary of the exact condition: an order with ancestors first meets it at every limit |
| TemplateOrder.SoundTemplates | src/mempool/txmempool.rs:269-334 | for every pool that satisfies the invariant the template is closed, free of repeats, and within the ancestor limit times the weight limit |
| TemplateOrder.ReachableTemplates | src/mempool/txmempool.rs:269-334 | the same for the pool after any run |
| Witnesses.ReplacementLowersFees | src/mempool/txmempool.rs:447-455 | under the default policy a run reaches a pool in which a replacement of equal size gets in for a fifth of the fee |
| Witnesses.RejectionLosesConflict | src/mempool/txmempool.rs:134-148 | under the default policy a run reaches a pool in which a transaction turned down for its ancestors' size costs the pool its conflict |
| Witnesses.AddedIsEvicted | src/mempool/txmempool.rs:184-188 | with a small size limit a run reaches a pool in which a transaction is reported as added and evicted at once |
| TemplateWitnesses.TemplateOvershootsAndReverses | src/mempool/txmempool.rs:296-331 | a run reaches a chain of three whose every template exceeds a limit that fits one of them, and lists the second before the first |
| Mempools.Mempool.constructor | src/mempool/txmempool.rs:40-51 | a new pool is empty and valid |
| Mempools.Mempool.FindConflicts | src/mempool/txmempool.rs:364-374 | the spender recorded for each spent input, in input order, with repeats |
| Mempools.Mempool.FindParents | src/mempool/txmempool.rs:376-386 | the transactions spent from that the pool holds |
| Mempools.Mempool.CalculateAncestors | src/mempool/txmempool.rs:412-426 | the sums of what the given parents record |
| Mempools.Mempool.RemoveTx | src/mempool/txmempool.rs:191-232 | removes the entry from every view and returns it, or reports that it is not there |
| Mempools.Mempool.HandleReplacement | src/mempool/txmempool.rs:428-463 | removes the conflicts if all signal and the bump is paid; otherwise leaves the pool alone |
| Mempools.Mempool.MaybeEvict | src/mempool/txmempool.rs:465-492 | removes from the front of a fee-rate order until the pool fits |
| Mempools.Mempool.AddTx | src/mempool/txmempool.rs:73-188 | takes the pool to the specified admission followed by eviction, and answers with the verdict in raw fields |
| Mempools.Mempool.RemoveExpired | src/mempool/txmempool.rs:494-512 | removes exactly the expired entries and counts them |
| Mempools.Mempool.UpdateHeight | src/mempool/txmempool.rs:260-266 | records the height and takes the pool to the state that expiry gives |
| Mempools.Mempool.Clear | src/mempool/txmempool.rs:355-360 | empties every view |
| Mempools.Mempool.GetAncestors | src/mempool/txmempool.rs:388-410 | the walk lists exactly the transitive closure, never the start, each after what it was found from |
| Mempools.WalkAncestors | src/mempool/txmempool.rs:388-410 | the worklist terminates whatever the links are, yields the specified listing, and on a linked table the closure |
| Mempools.Mempool.GetBlockTemplate | src/mempool/txmempool.rs:269-334 | the pool's own transactions, none twice, with all their ancestors, at most the ancestor limit times the weight limit; they are the specified template for an order in which recorded ancestor fees over recorded ancestor size descend, and an iteration order of the parent sets |
| Mempools.SortBy | src/mempool/txmempool.rs:276-279 | each identifier once, in ascending key order |
| Headers.HeaderRoundTrip | src/p2p/legacy.rs:370-384 | decoding an encoded header gives it back |
| Headers.RecordRoundTrip | src/p2p/legacy.rs:318-347 | every 80-byte record is the encoding of what it decodes to |
| Headers.HeaderLayout | src/p2p/legacy.rs:370-384 | where each field stands in the 80 bytes: integers with the least significant byte first, the two hashes byte for byte |
| Headers.LogRoundTrip | src/p2p/legacy.rs:318-384 | loading the log of a list of headers gives the list back, also with a trailing fragment |
| Headers.FileIsLog | src/p2p/legacy.rs:318-347 | every file is the log of what it loads as, followed by its fragment |
| Headers.AppendLoadsOne | src/p2p/legacy.rs:370-384 | an append adds exactly one loaded header: the one the straddling bytes spell |
| Headers.AppendLoadsIff | src/p2p/legacy.rs:370-384 | an append loads as the appended header if and only if the file ended at a record boundary or the straddling bytes happen to spell it |
| Headers.FragmentIsMisread | src/p2p/legacy.rs:318-384 | a header of zeroes appended to a one-byte file loads as another header |
| Headers.LoadHeaders | src/p2p/legacy.rs:318-347 | the read loop yields the complete records in order |
| ChainParams.CheckpointAt | src/chainparams.rs:148-155 | in an ascending table the lookup finds every entry |
| ChainParams.LatestCheckpoint | src/chainparams.rs:158-172 | in an ascending table the last parseable entry before the first one above the height is the latest checkpoint at or below it, with none in between |
| ChainParams.GetLastCheckpointBefore | src/chainparams.rs:158-172 | for any table, the last parseable entry before the first one above the height; for an ascending one, the latest checkpoint at or below it |
| HeaderChain.ExtendInv | src/p2p/legacy.rs:715-806 | a batch keeps the views in agreement, hashes distinct, parents first and checkpoints matched, wherever it stops |
| HeaderChain.RunInv | src/p2p/legacy.rs:715-806 | every run of batches from genesis keeps that |
| HeaderChain.LeadsToGenesis | src/p2p/legacy.rs:772-778 | the parent map leads from every header to genesis in at most as many steps as its index |
| HeaderChain.ExtendTwice | src/p2p/legacy.rs:734-790 | a second pass over the same batch adds nothing and stops at the same index |
| HeaderScan.StopsAtFirstBreak | src/p2p/legacy.rs:734-769 | a batch stops at the first header, and only there, that is unknown at that point and either does not name the hash before it as its parent or misses the checkpoint of the next height |
| HeaderScan.EachIsTaken | src/p2p/legacy.rs:734-779 | every header before that is passed over if known at that point and otherwise appended to every view |
| HeaderScan.AcceptedWhole | src/p2p/legacy.rs:734-790 | a batch of new, linking headers that match every checkpoint they reach is accepted whole |
| HeaderLine.ExtendLinearIff | src/p2p/legacy.rs:734-790 | a batch leaves the vector a chain if and only if it was one and no header is accepted right after a known header other than the last |
| HeaderLine.RunLinearIff | src/p2p/legacy.rs:715-806 | after a run the vector is a chain if and only if every batch of the run kept it one |
| HeaderLine.ForkIsAppended | src/p2p/legacy.rs:738-741 | a known header followed by a new child of it is appended at the end even when it forks below the tip |
| HeaderChain.ReloadRestores | src/p2p/legacy.rs:407-421 | reloading the log after any run of batches rebuilds the same state in every view |
| HeaderStores.HeaderStore.constructor | src/p2p/legacy.rs:386-421 | the state rebuilt from the header file |
| HeaderLog.ScanStores | src/p2p/legacy.rs:772-785 | a batch appends to the file, in order, what was written of each header it accepts, and nothing else |
| HeaderLog.ReloadsIff | src/p2p/legacy.rs:318-384 | the file loads as the headers in memory if and only if its first fragment and the bytes written since begin with the log of the headers accepted since |
| HeaderLog.CleanReloadsIff | src/p2p/legacy.rs:318-384 | from a record boundary: if and only if every write went through |
| HeaderLog.FragmentReloadsIff | src/p2p/legacy.rs:318-384 | from a fragment, with complete writes: if and only if the log of what was accepted is that fragment over and over |
| HeaderStores.HeaderStore.ExtendHeaders | src/p2p/legacy.rs:715-806 | the specified scan of the batch, its count of additions, and the exact bytes of the file for every outcome of the writes |
| Locator.DepthCovers | src/p2p/legacy.rs:659-674 | for every depth some locator depth is at least as deep and at most twice as deep |
| Locator.BuildLocator | src/p2p/legacy.rs:652-684 | at most 33 entries ending in genesis; in a chain without repeats they strictly descend from the tip and bracket every fork up to depth 2^23+7 within a factor of two |
| Downloads.PushInv | src/p2p/legacy.rs:207-212 | queueing keeps the scheduler's invariant |
| Downloads.AssignInv | src/p2p/legacy.rs:221-237 | assignment keeps the invariant, also for a hash that is already in flight |
| Downloads.AssignExhausts | src/p2p/legacy.rs:221-237 | assignment hands out a prefix of the queue, and stops only when a window is full or the queue is empty |
| Downloads.AssignTouchesOne | src/p2p/legacy.rs:221-237 | assignment leaves every other peer's count alone |
| Downloads.CompleteInv | src/p2p/legacy.rs:238-245 | completion keeps the invariant |
| Downloads.RequeueInv | src/p2p/legacy.rs:246-264 | timing requests out and queueing them again loses no block and keeps the invariant |
| Downloads.AssignDisplacesIff | src/p2p/legacy.rs:221-237 | an assignment overwrites no request if and only if the blocks it hands out are all different and none is in flight |
| Downloads.RecordExactIff | src/p2p/legacy.rs:224-230 | the requests really in flight from a peer never exceed its count, which never exceeds the window; the two agree if and only if no request to it was overwritten |
| Downloads.StarvedIff | src/p2p/legacy.rs:222-226 | with work queued and nothing in flight, a peer gets none if and only if it lost its whole window to overwritten requests |
| Downloads.RequeueConserves | src/p2p/legacy.rs:246-264 | a timeout keeps the conservation law: every request handed out is in flight, answered, overwritten or timed out, and only one of these |
| Downloads.TotalExact | src/p2p/legacy.rs:207-245 | the total is what is queued, in flight and downloaded plus each overwritten and each timed-out request; progress never exceeds it, and reaches it if and only if nothing is outstanding and none was overwritten or timed out |
| Downloads.PartitionCounts | src/p2p/legacy.rs:185-264 | with distinct hashes the plan is the disjoint union of queued, in flight and received, the progress counter counts the received ones, and each peer's count is what it has in flight |
| Downloaders.Downloader.PushMany | src/p2p/legacy.rs:207-212 | appends to the queue and counts |
| Downloaders.Downloader.PollAssign | src/p2p/legacy.rs:221-237 | the specified assignment, returning what was handed out |
| Downloaders.Downloader.Complete | src/p2p/legacy.rs:238-245 | takes a block out of flight and counts it, if it was in flight |
| Downloaders.Downloader.ReassignTimeouts | src/p2p/legacy.rs:246-264 | takes out and lists exactly the overdue requests, each once, and lowers each peer's count by its share |
| Downloaders.Downloader.Tick | src/p2p/legacy.rs:903-903 | every overdue block goes back to the end of the queue |
| HeadersFirst.StepInv | src/p2p/legacy.rs:887-1110 | every event keeps the scheduler's invariant, an empty scheduler before the headers are in, known headers for all queued blocks, and a chain that is what its headers build |
| HeadersFirst.RunInv | src/p2p/legacy.rs:887-1110 | so does every run of events |
| HeadersFirst.RunChainSound | src/p2p/legacy.rs:887-1110 | from a sound chain every run of events keeps the header tree, its views and the checkpoints |
| HeadersFirst.RequestsAreSafe | src/p2p/legacy.rs:598-612 | over every run, from whatever the header file holds: only blocks with known headers are requested, none before the headers are in, both windows hold, no block is lost, blocks go out in queue order, and progress never exceeds the total |
| HeadersFirst.StepOnPlan | src/p2p/legacy.rs:887-1110 | every event but an announcement keeps each planned block in exactly one place |
| DownloadPlan.PlanIsFixed | src/p2p/legacy.rs:809-831 | in every run there is one moment at which the headers are in, and from then on the plan is the chain above the start height as it was at that moment |
| DownloadPlan.PlanIsPartitioned | src/p2p/legacy.rs:834-860 | in runs without announcements every planned block is queued, in flight or received and in only one of these, all received exactly when nothing is left, and the total is the size of the plan plus the number of timeouts |
| DownloadPlan.RangeIsCoveredIff | src/p2p/legacy.rs:809-860 | in runs without announcements the chain above the start height is queued, in flight or received if and only if no header above the start height was accepted since the headers were in |
| DownloadPlan.OnlyAnnouncementsQueue | src/p2p/legacy.rs:887-1110 | once the headers are in, no event but an announcement queues a block that was not queued before |
| DownloadPlan.LateHeaderNeverRequested | src/p2p/legacy.rs:947-1035 | a block whose header is accepted after that is never requested in any continuation without announcements |
| HeaderPhase.BestSeenExact | src/p2p/legacy.rs:560-563 | the best height is the largest that an added peer reported, 0 if none reported more |
| HeaderPhase.SyncedIff | src/p2p/legacy.rs:809-831 | after any run from any file the headers are in if and only if the file held a header or some headers message of other than 2000 left the chain within 144 of the best height reported before it |
| HeaderPhase.PlanIsRange | src/p2p/legacy.rs:834-860 | the plan is every hash above the start height, in chain order, at the moment the headers come in |
| HeaderPhase.AnnouncementQueues | src/p2p/legacy.rs:1036-1064 | once the headers are in an announcement queues exactly those of its blocks whose header is known; before that it does nothing |
| HeaderPhase.KnownConcat | src/p2p/legacy.rs:1045-1053 | announced blocks are queued in the order of the announcement |
| HeaderPhase.EveryEventServes | src/p2p/legacy.rs:598-1110 | once the headers are in, after every message but a full headers message a window is full or nothing is queued |
| RequestTimeouts.StillInFlight | src/p2p/legacy.rs:221-264 | a block handed out by an event, neither received nor handed out again since, is in flight with that peer as long as every tick came within 120 seconds |
| RequestTimeouts.BackInQueue | src/p2p/legacy.rs:246-264 | the first tick 120 seconds or more after it was handed out puts it back into the queue |
| HeadersFirst.RunChain | src/p2p/legacy.rs:947-1035 | the header chain after any run is the one all batches so far build from genesis |
| HeadersFirst.RunStores | src/p2p/legacy.rs:772-785 | the file after a run is the file it began with and what was written of each header accepted since |
| HeadersFirst.RestartResumesIff | src/p2p/legacy.rs:318-421 | for every file and every run, a restart from the file gives the chain back if and only if the first fragment and the bytes written begin with the log of the headers accepted |
| HeadersFirst.RestartResumes | src/p2p/legacy.rs:318-421 | from a file without a fragment: if and only if every write went through, and then the file is the log of the headers in memory |
| HeadersFirst.RestartAfterFragment | src/p2p/legacy.rs:318-421 | from a file with a fragment, with complete writes: if and only if the log of what was accepted is that fragment over and over |
| Starvation.StepForgetsNothing | src/p2p/legacy.rs:887-1110 | no event takes a peer off the list of those whose requests were overwritten |
| Starvation.CountNeverRecovers | src/p2p/legacy.rs:221-264 | over every run a peer's count never falls below the number of its requests that were overwritten |
| Starvation.StarvedForGood | src/p2p/legacy.rs:221-264 | a peer with a full count and nothing in flight is never given a block again |
| Starvation.LosesWindow | src/p2p/legacy.rs:1036-1110 | a second peer that joins, announces and delivers the first peer's blocks leaves the first with a full count, nothing in flight and work queued |
| Starvation.StartedNodeStarves | src/p2p/legacy.rs:386-486 | so for every header file that leaves exactly one window of blocks to fetch, and then for good |
| SyncWitnesses.ForkHappens | src/p2p/legacy.rs:738-741 | a run of two batches after which the header vector is not a chain |
| SyncWitnesses.RestartDiffers | src/p2p/legacy.rs:318-384 | a run from a one-byte header file, with a complete write, after which a restart gives another chain |
| SyncWitnesses.LateBlockRun | src/p2p/legacy.rs:809-811 | a run from a file of one header in which the block of a second header is never requested |
| SyncWitnesses.StarvedRun | src/p2p/legacy.rs:36-48 | with windows of 16 and 4, a run of two peers after which the first is starved for good |
| PeerManagers.PeerManager.constructor | src/p2p/legacy.rs:386-486 | start-up from the header file, with blocks queued if any header was loaded |
| PeerManagers.PeerManager.QueueBlocks | src/p2p/legacy.rs:834-860 | queues exactly the blocks above the start height, in chain order |
| PeerManagers.PeerManager.CheckHeadersSyncComplete | src/p2p/legacy.rs:809-831 | ends the header phase once, within 144 of the best known height, and queues the plan |
| PeerManagers.PeerManager.OnPeerAdded | src/p2p/legacy.rs:598-612 | the specified step for a new peer |
| PeerManagers.PeerManager.OnHeadersMessage | src/p2p/legacy.rs:947-1035 | the specified step for a headers message, the header file included |
| PeerManagers.PeerManager.OnInvMessage | src/p2p/legacy.rs:1036-1064 | the specified step for an announcement |
| PeerManagers.PeerManager.OnBlockMessage | src/p2p/legacy.rs:1065-1110 | the specified step for a block |
| PeerManagers.PeerManager.OnTimer | src/p2p/legacy.rs:903-903 | the specified step for a tick |
| AddressTables.AddNewInv | src/addrman.rs:178-202 | adding keeps the tables mirrored; an address is refused if and only if the table is at its limit and the bucket is not full, and then nothing changes |
| AddressTables.PromoteInv | src/addrman.rs:205-232 | promotion keeps both tables mirrored and disjoint and moves the address |
| AddressTables.TableSize | src/addrman.rs:8-18 | a mirrored table holds at most its bucket count times the bucket size |
| AddressTables.RunInv | src/addrman.rs:157-350 | every run keeps each table the disjoint union of its buckets, each address in its computed bucket, and the tables disjoint |
| AddressTables.RunWithinSizes | src/addrman.rs:8-18 | every run keeps the new table within 20000 and the tried table within 256 * 64 |
| AddressTables.NoOwnKeptIff | src/addrman.rs:157-161 | a call keeps our own addresses out of the tables if and only if it does not register an address that a table holds |
| AddressHistory.BucketsExact | src/addrman.rs:387-406 | each address is in the bucket that its hash, in the new table with that of its source, names modulo 1024 or 256 |
| AddressHistory.AddExact | src/addrman.rs:157-202 | an unknown address comes in unless the table holds 20000 and its bucket fewer than 64, and a member of its bucket goes if and only if that holds 64 |
| AddressHistory.GoodExact | src/addrman.rs:205-232 | a new address marked good moves, and a member of its tried bucket goes if and only if that holds 64 |
| AddressHistory.StepFollows | src/addrman.rs:169-253 | what every call makes of each field of an entry that stays |
| AddressHistory.StepAdds | src/addrman.rs:49-60 | an address comes in only by being added, untried and with the call's services, source and time |
| AddressHistory.AttemptsCounted | src/addrman.rs:205-253 | the count of attempts is the number of attempts since the address was added or last marked good |
| AddressHistory.OwnExact | src/addrman.rs:327-350 | our own addresses are those that were ever registered |
| AddressHistory.GoodIsShared | src/addrman.rs:63-86 | an address just marked good may be drawn from a minute later, and is shared as good from then until an hour has passed |
| AddressHistory.AttemptRests | src/addrman.rs:63-86 | an address just tried rests for a minute, is good only within three attempts and an hour of its last success, and is never used again after more than ten attempts |
| AddressManagers.AddressManager.Add | src/addrman.rs:157-202 | the specified addition |
| AddressManagers.AddressManager.Good | src/addrman.rs:205-239 | the specified promotion or update |
| AddressManagers.AddressManager.Attempt | src/addrman.rs:242-253 | the specified count of an attempt |
| AddressManagers.AddressManager.AddOwnAddress | src/addrman.rs:327-329 | registers an address and changes nothing else |
| AddressManagers.AddressManager.Clear | src/addrman.rs:341-350 | empties both tables and all buckets, keeping our own addresses |
| AddressManagers.AddressManager.GetAddresses | src/addrman.rs:297-324 | no address twice, the good tried ones first, and all that may be shared unless the limit cuts them short |
| AddressManagers.AddressManager.Select | src/addrman.rs:256-272 | an address of the table the coin chose that is not terrible, or none if all of that table are |
| AddressManagers.AddressManager.SelectMultiple | src/addrman.rs:275-294 | at most the asked number of different usable addresses, and none only if every table drawn from holds nothing but terrible ones |
| Inventories.RequestedWindows | src/p2p/inventory.rs:147-198 | asking keeps 256 in flight overall and 16 per peer, even for items in flight from another peer |
| Inventories.LateIsRetried | src/p2p/inventory.rs:201-224 | every late item is wanted again; none is given up |
| Inventories.ApplyInv | src/p2p/inventory.rs:120-250 | every operation keeps held items out of play, both windows, and the announcer of each request |
| Inventories.RunInv | src/p2p/inventory.rs:120-250 | so does every run |
| Inventories.SoughtIsOpen | src/p2p/inventory.rs:120-224 | after every run exactly the items sought since they last arrived, told from the calls alone, are wanted or in flight |
| Inventories.AnnouncersExact | src/p2p/inventory.rs:134-139 | a peer counts as an announcer of an item if and only if some call announced it for that peer |
| Inventories.SelectionIsMaximal | src/p2p/inventory.rs:147-182 | a peer is asked for every wanted item it announced, unless that makes 16 requests to it or 256 in all |
| Inventories.StillAsked | src/p2p/inventory.rs:184-224 | an item asked for, neither arrived nor asked for again since, is in flight from the same peer as long as every look for late requests came within 120 seconds |
| Inventories.WantedAgain | src/p2p/inventory.rs:201-224 | the first look after that puts it back among the wanted items |
| Inventories.WalkWanted | src/p2p/inventory.rs:166-182 | a selection from what the peer announced, cut short only by a window |
| Inventories.InventoryManager.MarkWanted | src/p2p/inventory.rs:120-124 | the specified request to fetch |
| Inventories.InventoryManager.Receive | src/p2p/inventory.rs:127-131 | the specified arrival |
| Inventories.InventoryManager.NoteAnnouncement | src/p2p/inventory.rs:134-144 | the specified announcement |
| Inventories.InventoryManager.GetRequests | src/p2p/inventory.rs:147-198 | asks for a maximal selection and puts exactly it in flight |
| Inventories.InventoryManager.RetryLate | src/p2p/inventory.rs:201-224 | takes exactly the late requests out of flight and returns what is wanted |
| Inventories.InventoryManager.Prune | src/p2p/inventory.rs:242-250 | forgets held items until at most the given number is left |

## Left out

- Machine integers: the i64 casts in `update_*_state`, the i32 header heights and usize overflow are not
  modelled; sizes and fees are assumed to fit, and the start height to be non-negative.
- Locks and concurrency: interleavings inside one public call (DashMap shards, several locks taken in turn)
  are outside the model; a call is one step.
- Kernel calls, RPC, the wiring in `src/main.rs`, seeds and `src/network/`: validation is an arbitrary verdict.
- Sockets, message encoding, the handshake, dropping a peer, the choice of the sync peer and when headers are
  requested again: only the effect of received messages on the sync state is modelled.
- Opening the header file, its path and its errors, and the unused rewrite of the whole file: the file is a
  sequence of bytes.
- `src/mempool/fees.rs`: the fee estimator does not affect the state of the pool.
- Descendant limits, dust, sigops and standardness: the pool never consults them.
- Statistics, progress percentages, log output and plain getters: they do not affect the modelled state.
- Selection weights (`get_chance`) and the random position of an address: a choice is any usable address.
- The parsing of checkpoint text and the per-network tables: a checkpoint is a height and an optional hash.
- Transactions handed over by `src/p2p/legacy.rs` and the block processing channel.
