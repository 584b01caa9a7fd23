# Verified models of the data structures and protocols of Redis 3.0.7

The sample application ships a copy of Redis 3.0.7. This project models the parts of it where correctness is hardest to
see and proves what they are for.

- **The dictionary** (`Words`, `Scan`, `DictState`, `DictScan`, `ScanLoss`, `Dict`, `DictLoad`). `Dict.Dict` is the table
  as the code changes it: two bucket arrays, `rehashidx`, counts, safe iterators. It refines a finite map at every
  point of an incremental rehash. `DictScan` is about runs of `dictScan` on a dictionary that changes between the
  calls, and `DictLoad` about the load over runs of operations.
- **HyperLogLog** (`HllSparse`, `HllDense`, `Hll`, `HllSum`, `HllObject`). Both encodings, at the level of bytes and
  bits, mean an array of 16384 registers; `HllObject` proves that this array is the pointwise maximum over the
  elements.
- **The cluster** (`ClusterNode`, `ClusterSystem`, `ClusterEffects`, `ClusterElection`, `ClusterAcks`, `ClusterLeak`,
  `ClusterFailover`, `ClusterCollision`, `ClusterStale`, `ClusterClaims`, `ClusterAsserts`, `ClusterSlots`,
  `ClusterHandlers`). Nodes with their views and a bag of packets in flight form a transition system. `ClusterEffects`
  says what each packet and timer does to the fields. `ClusterSlots` and `ClusterHandlers` are the code of one node,
  on its bitmaps and counters, proved to make the transitions of that system.
- **The append-only file** (`Bytes`, `Decimal`, `AofLog`, `AofRecovery`, `AofDamage`, `AofFlush`, `AofBlocks`,
  `AofReplay`, `AofDump`, `AofRewrite`). The writer and the loader of the log with recovery from truncation and the
  refusal of damage, the flush, the rewrite buffer, the dump of a dataset as commands, and the protocol between the
  server and the child that rewrites the log.
- **Integer sets** (`Intset`), **bit operations** (`Lanes`, `Bitops`, `Bitpos`, `BitposCommand`, `Bitop`) and **the
  keyspace** (`Keyspace`): packed bytes, words and ordered indexes against sets, single bits and maps. `Options` and
  `Basics` hold what several of these share.

## Where the code does not keep its promise

- `dictScan` is documented to return every element that stays from start to end. It starts its inner loop at the
  incoming cursor and counts up in normal order (dict.c:893-905), so a call during a rehash that shrinks the table by
  4 or more, with a cursor whose high bits are not a run of low ones, skips buckets. `Scan.ShrinkByFourMisses` is the
  concrete input and `ScanLoss.ShrinkLosesKey` a whole iteration that loses a key, `Scan.GuardIsExact` says exactly
  which cursors are safe, `DictScan.ScanComplete` proves the promise under that condition and `DictScan.ScanMisses`
  that it fails without it. Growth by any factor, shrinking by 2, and a shrink that begins and ends between two calls
  are always safe (`DictScan.GuardedCalls`).
- The votes of a failover are counted in `failover_auth_count`, which is zeroed when an election is scheduled
  (cluster.c:2768), while `failover_auth_epoch` is replaced only when it starts (cluster.c:2829). An acknowledgement
  of the earlier election that arrives between the two is counted in the later one. `ClusterLeak.LateAckLeaks` is a
  run in which two candidates win the same epoch that way. `ClusterAcks.CountedInItsElection` says exactly when an
  acknowledgement goes into its own election: when `failover_auth_sent` is set as it arrives.
  `ClusterElection.ElectionsExact` says exactly which victories have a majority: those whose count reaches the quorum
  without the late acknowledgements. `ClusterElection.ElectionSafety` is the case without any.
- `clusterSetMaster` asserts that the node serves no slot (cluster.c:3597). ADDSLOTS does not refuse a slave
  (cluster.c:3879-3925), and a slave that was given a slot that way exits when another node takes over the last slot of
  its master. `ClusterAsserts.SlotOnSlaveExits` is that run for any such slave, `ClusterAsserts.AbortsExactly` says
  exactly which nodes can be made to exit, and `ClusterAsserts.AssertionsHold` proves that none is while no ADDSLOTS
  goes to a slave.
- Collisions of epochs are meant to come to an end because the node with the greatest name never moves. They do
  (`ClusterCollision.CollisionsEnd` with `ClusterCollision.QuietMeansDistinct`), but pings that are stale from the
  start cost additional moves, as `ClusterStale.StaleMovesTwice` shows.

## Model

| member | source | states |
|---|---|---|
| `Words.Rev` | sampleapps/redis-stable/src/dict.c:755-763 | swapping blocks of 32, 16, ..., 1 bits under the shifted masks reverses all 64 bits, for every word |
| `Scan.GuardIsExact` | sampleapps/redis-stable/src/dict.c:893-905 | one call made during a rehash misses no bucket it answers for if and only if the high part of the incoming cursor is a run of ones in its low bits; the code itself has no such test, so this is exactly when it is right |
| `Scan.GuardHolds` | sampleapps/redis-stable/src/dict.c:893-905 | the condition holds for tables that differ by a factor of 2 and for a cursor whose high part is zero, which is where the scan is complete |
| `Scan.ShrinkByFourMisses` | sampleapps/redis-stable/src/dict.c:893-905 | the concrete failure: 16 to 4 buckets with cursor 1000 never visits bucket 0100 of the larger table |
| `Scan.ExpansionsExact` | sampleapps/redis-stable/src/dict.c:893-905 | the inner loop visits exactly the buckets of the larger table that share the low bits of the cursor and whose high part, read as a number, is not below that of the cursor |
| `Scan.CursorVisits` | sampleapps/redis-stable/src/dict.c:859-915 | with one unchanged table every bucket is the bucket of some call |
| `Scan.CursorsDistinct` | sampleapps/redis-stable/src/dict.c:859-915 | and no two calls of the same iteration have the same bucket |
| `Scan.CursorReturns` | sampleapps/redis-stable/src/dict.c:859-915 | the cursor is 0 again after exactly as many calls as there are buckets and after no fewer, so the iteration ends there |
| `Scan.CursorCounts` | sampleapps/redis-stable/src/dict.c:859-915 | after n calls the masked cursor, read backwards, is n |
| `DictScan.ScanComplete` | sampleapps/redis-stable/src/dict.c:849-918 | over any run of calls from cursor 0 back to cursor 0, with the dictionary in any valid state at each call (any additions, deletions, rehash steps and resizes between), a key that is there at every call is passed to the callback, provided every call meets the exact condition above |
| `DictScan.GuardedCalls` | sampleapps/redis-stable/src/dict.c:849-918 | every call meets that condition when it runs outside a rehash, in a rehash between sizes that differ by a factor of 2, as the first call, or after a call on tables that were not larger (growth by any factor) |
| `DictScan.ScanMisses` | sampleapps/redis-stable/src/dict.c:849-918 | conversely, when a call does not meet the condition and the table does not shrink later, there is a hash whose keys in the larger table are passed by no call of the run |
| `ScanLoss.ShrinkLosesKey` | sampleapps/redis-stable/src/dict.c:849-918 | the failure as a whole iteration: a call on 16 buckets, a resize to 4, calls at 8, 2, 1 and 3 during the rehash and then 0; the key of hash 0100 is there at every call and passed by none |
| `DictScan.CallCovers` | sampleapps/redis-stable/src/dict.c:849-918 | one guarded call passes every present key whose hash lies between the cursor and the next cursor in reversed order |
| `DictScan.CallSound` | sampleapps/redis-stable/src/dict.c:849-918 | one call passes only keys that are in the dictionary, share the low bits of the cursor, and, in the larger table, lie in a bucket the loop visits |
| `DictScan.CursorsAdvance` | sampleapps/redis-stable/src/dict.c:907-915 | the reversed cursor grows strictly from call to call until it is 0, whatever the sizes do |
| `DictState.IndexIsMasked` | sampleapps/redis-stable/src/dict.c:974 | `hash & sizemask` is the number in the low bits of the hash, below the table size |
| `DictState.MovePreserves` | sampleapps/redis-stable/src/dict.c:260-272 | moving one entry to the head of its new bucket keeps both tables consistent, the contents, and the sum of the counts |
| `DictState.MoveFinishes` | sampleapps/redis-stable/src/dict.c:260-275 | when the chain is empty the state is a valid one with the index one further |
| `DictState.StepProgress` | sampleapps/redis-stable/src/dict.c:245-288 | a rehash step that does not end the rehash advances its index, within the old table |
| `DictState.BusySkipped` | sampleapps/redis-stable/src/dict.c:255-258 | empty buckets passed over count as visits and not as moved buckets |
| `Dict.NextPower` | sampleapps/redis-stable/src/dict.c:945-955 | the least power of two, from 4 on, that is not below the size |
| `Dict.Dict.constructor` | sampleapps/redis-stable/src/dict.c:168-188 | an empty dictionary |
| `Dict.Dict.Expand` | sampleapps/redis-stable/src/dict.c:204-234 | refused exactly during a rehash, for a size below the count, or for the size the table has; otherwise the first table is made or a rehash into an empty one begins, and no key changes |
| `Dict.Dict.Resize` | sampleapps/redis-stable/src/dict.c:192-201 | succeeds exactly when resizing is allowed and the minimal size is not refused |
| `Dict.Dict.Rehash` | sampleapps/redis-stable/src/dict.c:245-288 | moves at most n buckets with entries over at most 10n without, stops early only when one of the limits is reached, returns whether keys are left, never indexes past the table (the assert holds) and keeps the map; at the end the new table holds everything |
| `Dict.Dict.RehashStep` | sampleapps/redis-stable/src/dict.c:317-319 | one bucket moved or ten empty ones passed, and nothing at all while a safe iterator is at work |
| `Dict.MigrateBucket` | sampleapps/redis-stable/src/dict.c:259-274 | one whole bucket moves, the counts stay exact, and the index advances by one |
| `Dict.RehashLoop` | sampleapps/redis-stable/src/dict.c:249-275 | the work limits of `dictRehash`, over the whole loop |
| `Dict.Dict.ExpandIfNeeded` | sampleapps/redis-stable/src/dict.c:923-942 | never fails: 4 buckets for no table; a rehash into the least power of two, from 4 on, not below twice the keys, exactly when there are as many keys as buckets and resizing is allowed or the ratio is above 5; no change otherwise; with resizing allowed a table that is left alone has fewer keys than buckets |
| `DictLoad.LoadBounded` | sampleapps/redis-stable/src/dict.c:322-369 | over any run of additions, lookups, deletions and rehash steps from an empty dictionary, with resizing allowed and no safe iterator: never more keys than buckets in the newest table, as each addition during a rehash also moves it on |
| `Dict.Dict.KeyIndex` | sampleapps/redis-stable/src/dict.c:963-985 | -1 exactly when the key is in one of the tables; otherwise its bucket, in the new table during a rehash |
| `Dict.Dict.Add` | sampleapps/redis-stable/src/dict.c:322-369 | fails exactly when the key is there; otherwise the map gains it, during a rehash in the new table only; the effect on the tables is one rehash step, growth if due, and the link; the new entry is the first of its bucket |
| `Dict.Dict.Find` | sampleapps/redis-stable/src/dict.c:489-508 | the value the map holds for the key, after at most one rehash step that changes no content |
| `Dict.Dict.Delete` | sampleapps/redis-stable/src/dict.c:409-444 | the map loses exactly this key; 0 exactly when it was there; one rehash step, then one entry unlinked |
| `Dict.Dict.Replace` | sampleapps/redis-stable/src/dict.c:375-394 | the map has the key with the new value; 1 exactly when it is new |
| `Dict.Dict.Scan` | sampleapps/redis-stable/src/dict.c:849-918 | the callback gets exactly the entries, and the caller the cursor, that the theorems on runs speak of |
| `Dict.ScanExpansions` | sampleapps/redis-stable/src/dict.c:893-905 | the loop with its masks passes the buckets of the larger table in the order of the specification and terminates |
| `Dict.StepCursor` | sampleapps/redis-stable/src/dict.c:907-915 | setting the unmasked bits, reversing, incrementing and reversing back is the increment of the reversed cursor |
| `HllDense.GetAfterSet` | sampleapps/redis-stable/src/hyperloglog.c:337-359 | a 6-bit register read after one is set: the new value in its place, every other register as before, across byte borders and for the last one |
| `HllDense.GetReadsRegister` | sampleapps/redis-stable/src/hyperloglog.c:337-345 | the two-byte read with shifts is the 6-bit field of the flat bit string |
| `Hll.PatLen` | sampleapps/redis-stable/src/hyperloglog.c:444-470 | the register is the low 14 bits of the hash; the count n says that bits 14 to 12 + n are clear and that bit 13 + n is set, or that n is 50 |
| `Hll.PatternLength` | sampleapps/redis-stable/src/hyperloglog.c:444-470 | the pattern length the theorems on registers speak of is the one that starts at bit 14 |
| `Hll.PatternMeaning` | sampleapps/redis-stable/src/hyperloglog.c:444-470 | the count says that all bits before its last are 0 and its last is 1, or the sentinel |
| `Hll.DenseAdd` | sampleapps/redis-stable/src/hyperloglog.c:485-498 | raises the register to the count, and returns 1 exactly when it was lower |
| `Hll.SparseToDense` | sampleapps/redis-stable/src/hyperloglog.c:568-620 | the packed array has the registers that the opcodes describe |
| `Hll.MergeDense` | sampleapps/redis-stable/src/hyperloglog.c:1048-1055 | the pointwise maximum with the packed registers |
| `Hll.MergeSparse` | sampleapps/redis-stable/src/hyperloglog.c:1055-1082 | the pointwise maximum with the registers of the opcodes |
| `HllSparse.Locate` | sampleapps/redis-stable/src/hyperloglog.c:658-690 | the opcode that covers the register, where it starts, and a boundary before it |
| `HllSparse.Formats` | sampleapps/redis-stable/src/hyperloglog.c:104-125 | 00xxxxxx, 01xxxxxx yyyyyyyy and 1vvvvvxx stand for runs of zeros and of values, each one more than the number written |
| `HllSparse.SparseAdd` | sampleapps/redis-stable/src/hyperloglog.c:638-882 | on a valid string: 0 exactly when the register is not below the count; otherwise a valid string of 16384 registers that differs only in this one, never longer than the old one or the configured maximum; promotion exactly for counts above 32 or when the string has to grow, by what the split of the run takes, beyond the maximum |
| `HllSparse.Substitute` | sampleapps/redis-stable/src/hyperloglog.c:810-866 | opcodes spliced in place and merged: same registers, no longer than spliced |
| `HllSparse.MergeValues` | sampleapps/redis-stable/src/hyperloglog.c:825-866 | merging neighbours keeps the registers, never grows the string, and leaves nothing to merge in the opcodes it passed, which are all of them or five steps |
| `HllSum.DenseSum` | sampleapps/redis-stable/src/hyperloglog.c:504-558 | the unrolled loop over 12 bytes sums the 16384 registers and counts the zero ones |
| `HllSum.QuadIsRegisters` | sampleapps/redis-stable/src/hyperloglog.c:515-541 | three bytes taken apart are four consecutive registers |
| `HllSum.DenseSumGeneric` | sampleapps/redis-stable/src/hyperloglog.c:542-558 | the generic loop computes the same two numbers |
| `HllSum.SparseSum` | sampleapps/redis-stable/src/hyperloglog.c:888-918 | the sum over the opcodes is the sum over the registers they stand for |
| `HllSum.SumChanges` | sampleapps/redis-stable/src/hyperloglog.c:504-558 | what the sums are: the number of registers when all are 0, and a register that changes changes them by its own part |
| `HllObject.RegisterIsMaximum` | sampleapps/redis-stable/src/hyperloglog.c:1027-1034 | after any sequence of additions a register is the greatest pattern of the elements that map to it, 0 if there is none |
| `HllObject.OrderDoesNotMatter` | sampleapps/redis-stable/src/hyperloglog.c:1027-1034 | the registers depend only on the set of elements added |
| `HllObject.MergeIsUnion` | sampleapps/redis-stable/src/hyperloglog.c:1044-1083 | merging two logs gives the registers of all the elements of both |
| `HllObject.HllObject.constructor` | sampleapps/redis-stable/src/hyperloglog.c:1089-1119 | a valid sparse string of zeros |
| `HllObject.HllObject.Add` | sampleapps/redis-stable/src/hyperloglog.c:1027-1034 | in either encoding, through any promotion: the register is raised, 1 exactly when that changed something (the assert on the dense addition holds), promotion exactly for the reasons above and never back |
| `HllObject.HllObject.Merge` | sampleapps/redis-stable/src/hyperloglog.c:1044-1083 | the pointwise maximum, whatever the encoding |
| `HllObject.HllObject.Sums` | sampleapps/redis-stable/src/hyperloglog.c:967-1000 | the two numbers of the estimate depend on the registers alone, not on the encoding |
| `HllObject.AddAll` | sampleapps/redis-stable/src/hyperloglog.c:1155-1192 | any run of additions on a new object ends with the registers the theorems describe |
| `ClusterSystem.EpochsBounded` | sampleapps/redis-stable/src/cluster.c:1597-1606 | in every reachable state of the whole system, every epoch in every view and every packet in flight is at most the current epoch beside it, a vote is never ahead, and no current epoch ever went back |
| `ClusterSystem.StepBounded` | sampleapps/redis-stable/src/cluster.c:1590-1970 | every kind of step keeps that bound: each packet, each timer, bumps, elections, takeovers, role changes by packets, by CLUSTER REPLICATE and by slave migration, assignment of slots, loss |
| `ClusterSystem.ReceiveKeeps` | sampleapps/redis-stable/src/cluster.c:1590-1970 | a packet changes no vote unless it asks for one, no count unless it is one, and lowers no epoch of the view |
| `ClusterEffects.EpochsSeen` | sampleapps/redis-stable/src/cluster.c:1597-1606 | any packet of a known node raises the current epoch and the epoch of the sender to those of its header, where these are greater, and nothing else |
| `ClusterEffects.UnknownIgnored` | sampleapps/redis-stable/src/cluster.c:1594-1596 | a packet of a node that is not known changes nothing and is not answered |
| `ClusterEffects.HeaderSays` | sampleapps/redis-stable/src/cluster.c:2107-2143 | a slave publishes the epoch and the slots of its master, a master its own |
| `ClusterEffects.RoleEffect` | sampleapps/redis-stable/src/cluster.c:1757-1791 | a master that says it is a slave loses its slots here; the master it names is its master if it is known |
| `ClusterEffects.ClaimEffect` | sampleapps/redis-stable/src/cluster.c:1436-1524 | slot by slot: taken exactly if claimed, not being imported, and free or served in a smaller epoch; a node becomes a slave of the claimant exactly when its master, or itself as one, loses its last slot to the claim |
| `ClusterEffects.MasterPingEffect` | sampleapps/redis-stable/src/cluster.c:1757-1817 | the ping of a master: who owns each slot afterwards, in terms of the view before |
| `ClusterEffects.SlavePingEffect` | sampleapps/redis-stable/src/cluster.c:1757-1791 | the ping of a slave: the whole view afterwards |
| `ClusterEffects.StaleReplyIs` | sampleapps/redis-stable/src/cluster.c:1837-1861 | an UPDATE goes to the sender exactly when a claimed slot has another owner with a greater epoch; it names the owner of the first such slot, its epoch and its slots |
| `ClusterEffects.PingAnswered` | sampleapps/redis-stable/src/cluster.c:1837-1861 | the ping of a master is answered so, on the view after its claim |
| `ClusterEffects.SlavePingAnswered` | sampleapps/redis-stable/src/cluster.c:1795-1861 | the ping of a slave is answered so exactly when it publishes other slots than its master serves here |
| `ClusterEffects.FailEffect` | sampleapps/redis-stable/src/cluster.c:1874-1895 | a FAIL marks its node unless that is the receiver or not known |
| `ClusterEffects.VoteExactly` | sampleapps/redis-stable/src/cluster.c:2457-2557 | an ACK is sent and the vote recorded if and only if the voter is a master with a slot, the epoch is not over and without a vote of it yet, the candidate is a slave of a failed master or forces it, no claimed slot is known in a greater epoch, and the last vote is old enough |
| `ClusterEffects.AckEffect` | sampleapps/redis-stable/src/cluster.c:1919-1931 | an ACK is counted if and only if its sender is a master with a slot and its epoch is not before that of the election |
| `ClusterEffects.UpdateEffect` | sampleapps/redis-stable/src/cluster.c:1944-1965 | an UPDATE counts if and only if it is newer than what is known of its node: who owns each slot afterwards |
| `ClusterEffects.ElectionSteps` | sampleapps/redis-stable/src/cluster.c:2695-2860 | when an election may be scheduled, started and won: by a slave with a reason, once, and with more than half of the cluster |
| `ClusterEffects.ScheduleEffect` | sampleapps/redis-stable/src/cluster.c:2764-2792 | a scheduled election has no votes and was not asked for |
| `ClusterEffects.StartEffect` | sampleapps/redis-stable/src/cluster.c:2826-2838 | a start opens a new epoch and asks every other node in it for the slots of the failed master |
| `ClusterEffects.WinEffect` | sampleapps/redis-stable/src/cluster.c:2840-2856 | the winner has the greater of its own epoch and that of its election, and the place and slots of its master |
| `ClusterEffects.TakeOverEffect` | sampleapps/redis-stable/src/cluster.c:4256-4263 | a takeover without election has an epoch greater than any it knew, or keeps its own if that is the greatest |
| `ClusterEffects.BumpExactly` | sampleapps/redis-stable/src/cluster.c:969-986 | a new epoch is taken if and only if the own one is 0 or not the greatest known |
| `ClusterEffects.ReplicateEffect` | sampleapps/redis-stable/src/cluster.c:3595-3612 | a node without slots becomes a slave of another and stops importing if it was a master |
| `ClusterEffects.ForgetEffect` | sampleapps/redis-stable/src/cluster.c:862-889 | a node that is forgotten leaves its slots free, its slaves without master and its imports undone |
| `ClusterEffects.SizeCounts` | sampleapps/redis-stable/src/cluster.c:3462-3482 | the cluster size is the number of masters that serve a slot |
| `ClusterElection.ElectionSafety` | sampleapps/redis-stable/src/cluster.c:2457-2860 | with a fixed set of voters and no acknowledgement counted before its candidate asked again: every victory has the votes of a majority for its epoch, and two victories in one epoch are of the same candidate; over all runs |
| `ClusterElection.ElectionsExact` | sampleapps/redis-stable/src/cluster.c:2457-2860 | without the assumption on acknowledgements, over all runs with fixed voters: the count of a winner is its distinct voters in its epoch plus the late acknowledgements; it has a majority if and only if the count without the late ones reaches the quorum, and two different winners of one epoch cannot both have it |
| `ClusterAcks.CountedInItsElection` | sampleapps/redis-stable/src/cluster.c:1919-1931 | over all runs: an acknowledgement a candidate counts goes into the election it was sent for if and only if the candidate had asked for votes when it arrived (`failover_auth_sent`, which the code does not test there) |
| `ClusterElection.VoteStep` | sampleapps/redis-stable/src/cluster.c:2457-2557 | a vote is the only one of this voter in its epoch, and its acknowledgement carries that epoch and exists once |
| `ClusterElection.CountStep` | sampleapps/redis-stable/src/cluster.c:1919-1931 | an acknowledgement counted after asking adds one voter, not counted before, who did vote for this candidate in this epoch |
| `ClusterElection.WinStep` | sampleapps/redis-stable/src/cluster.c:2840-2856 | the count of a winner is made of such voters and of late acknowledgements |
| `ClusterElection.MajoritiesMeet` | sampleapps/redis-stable/src/cluster.c:2698 | two majorities of one set of voters share a voter |
| `ClusterFailover.VotesNotStale` | sampleapps/redis-stable/src/cluster.c:2457-2557 | over all runs: every vote on record was given, in a state the voter was in, to a slave of a failed master or one that forced it, and no slot it claimed was known there in a greater epoch than the claim |
| `ClusterFailover.VictoryTakesEpoch` | sampleapps/redis-stable/src/cluster.c:2840-2856 | over all runs: after each victory the winner is a master in an epoch not before the one it was elected in, and has every slot of the master it replaced |
| `ClusterFailover.WinnerTakesSlots` | sampleapps/redis-stable/src/cluster.c:1795-1817 | the next ping of a winner claims every slot of its old master, and takes over every slot it claims at any node that imports nothing and knows them, if served at all, in epochs before the election |
| `ClusterLeak.LateAckLeaks` | sampleapps/redis-stable/src/cluster.c:2764-2839 | without the assumption on late acknowledgements safety fails: a run of 3 voters and 2 candidates in which both win epoch 2, because the count is zeroed at scheduling while the epoch it belongs to is replaced at the start |
| `ClusterCollision.CollisionsEnd` | sampleapps/redis-stable/src/cluster.c:1034-1049 | over any run in which only collisions change epochs, from any state, with packets delivered in any order, late or never: a node moves to a new epoch at most once for each node with a greater name and once for each stale epoch that a ping on its way at the start, to it or to a node with a greater name, claims for a name greater than the receiver |
| `ClusterCollision.FreshCollisionsEnd` | sampleapps/redis-stable/src/cluster.c:1034-1049 | without such pings at the start, at most once for each node with a greater name, and the node with the greatest name never; staleness that arises in the run changes nothing of it |
| `ClusterStale.StaleMovesTwice` | sampleapps/redis-stable/src/cluster.c:1034-1049 | the pings that are stale at the start do count: a node with one greater name that moves twice, as often as the bound allows |
| `ClusterCollision.QuietMeansDistinct` | sampleapps/redis-stable/src/cluster.c:1034-1049 | in a cluster of masters and slaves whose masters know no epoch of each other that is ahead of the node: no ping moves any node if and only if the epochs of all masters are different |
| `ClusterCollision.SlavesMoveNobody` | sampleapps/redis-stable/src/cluster.c:1863-1870 | a ping from a slave or to a slave gives nobody a new epoch |
| `ClusterCollision.PingMoves` | sampleapps/redis-stable/src/cluster.c:1863-1870 | a master moves at the ping of another exactly when their epochs are equal and the other name is greater |
| `ClusterClaims.OwnersGetNewer` | sampleapps/redis-stable/src/cluster.c:1436-1524 | a packet lowers the epoch of the owner of an assigned slot, or leaves the slot without one, if and only if it is the ping by which a master with slots here announces that it is a slave |
| `ClusterClaims.ClaimsConverge` | sampleapps/redis-stable/src/cluster.c:1795-1817 | from any table in which every slot is free, or has an owner that claims it too or an older owner: claims with different epochs, delivered in any order, repeated, directly or as updates, between pings of slaves, old owners that became slaves among them, and packets of elections and failures, leave each slot with its greatest claimant once each claimant was heard, and a slot nobody claims with the owner it had or, if that pinged as a slave, free |
| `ClusterClaims.BlankConverges` | sampleapps/redis-stable/src/cluster.c:1795-1817 | the same from an empty table: unclaimed slots stay free |
| `ClusterAsserts.SlavesServeNothing` | sampleapps/redis-stable/src/cluster.c:3879-4038 | over any run in which no operator gives a slot to a slave by ADDSLOTS or SETSLOT, no node known as a slave owns a slot in any view |
| `ClusterAsserts.AssertionsHold` | sampleapps/redis-stable/src/cluster.c:3594-3597 | over any run in which ADDSLOTS is not sent to a slave, no packet, command or migration makes a server exit by the assertions of `clusterSetMaster` |
| `ClusterAsserts.AbortsExactly` | sampleapps/redis-stable/src/cluster.c:1436-1524 | a packet exists that makes a node exit if and only if the node is a slave that serves a slot, its master serves slots none of which is being imported, and it knows a third node |
| `ClusterAsserts.SlotOnSlaveExits` | sampleapps/redis-stable/src/cluster.c:3879-3925 | ADDSLOTS of a free slot on any slave of a master with slots, then the claim of a third node to the slots of that master: the server exits |
| `ClusterAsserts.ReplicaExits` | sampleapps/redis-stable/src/cluster.c:3879-3925 | such a run from a given state of one slave and two masters |
| `ClusterSlots.TestAfterSet` | sampleapps/redis-stable/src/cluster.c:3330-3348 | setting or clearing a bit of a 2048-byte bitmap changes that bit and no other |
| `ClusterSlots.BitOfSlot` | sampleapps/redis-stable/src/cluster.c:3330-3334 | the format of the bitmap in a header: eight slots to a byte, the lowest slot in the least significant bit |
| `ClusterSlots.BitsAfterSet` | sampleapps/redis-stable/src/cluster.c:3330-3348 | as a set of slots the bitmap gains or loses exactly that slot |
| `ClusterSlots.SetSlotBit` | sampleapps/redis-stable/src/cluster.c:3351-3356 | the counter beside the bitmap stays the number of its bits |
| `ClusterSlots.ClearSlotBit` | sampleapps/redis-stable/src/cluster.c:3359-3364 | the counter beside the bitmap stays the number of its bits, and the old bit is returned |
| `ClusterSlots.AddSlot` | sampleapps/redis-stable/src/cluster.c:3375-3380 | refused exactly for a slot with an owner; owner, bitmap and counter agree afterwards |
| `ClusterSlots.DelSlot` | sampleapps/redis-stable/src/cluster.c:3385-3392 | the assert that the bit was set never fails; owner, bitmap and counter agree afterwards |
| `ClusterSlots.RebindLoop` | sampleapps/redis-stable/src/cluster.c:1459-1496 | the loop rebinds exactly the claimed slots that are free or owned at a lower epoch and not being imported, and collects exactly the slots lost with keys in them |
| `ClusterSlots.DelSlotsLoop` | sampleapps/redis-stable/src/cluster.c:3396-3404 | a node loses all its slots, no other node any |
| `ClusterSlots.TakeOverLoop` | sampleapps/redis-stable/src/cluster.c:2667-2673 | the slots of the old master, and no others, change hands |
| `ClusterSlots.Demote` | sampleapps/redis-stable/src/cluster.c:3592-3612 | the assertions hold exactly for another node while no slot is served; then the node is a slave of that one |
| `ClusterSlots.ApplyClaim` | sampleapps/redis-stable/src/cluster.c:1436-1524 | the whole function is the transition of the model, with table, bitmaps and counters in agreement, or fails an assertion exactly when a slave with a slot of its own loses the last slot of its master to the claim |
| `ClusterSlots.ClusterState.constructor` | sampleapps/redis-stable/src/cluster.c:3330-3348 | a lone node: empty bitmap, no owner |
| `ClusterSlots.ClusterState.UpdateSlotsConfigWith` | sampleapps/redis-stable/src/cluster.c:1436-1524 | keeps `slots[j] == n` exactly when bit j of n is set, and each counter the number of bits, unless an assertion fails |
| `ClusterSlots.ClusterState.DeleteNodeSlots` | sampleapps/redis-stable/src/cluster.c:3396-3404 | keeps the same agreement |
| `ClusterSlots.ClusterState.ReplaceYourMaster` | sampleapps/redis-stable/src/cluster.c:2657-2685 | keeps the same agreement through a failover |
| `ClusterSlots.ClusterState.DeleteNode` | sampleapps/redis-stable/src/cluster.c:862-889 | keeps the same agreement when a node is forgotten, and no view refers to it any more |
| `ClusterHandlers.ProcessPacket` | sampleapps/redis-stable/src/cluster.c:1590-1970 | the handler, statement by statement on the state of a node, makes the transition the theorems are about and sends its packets, or fails an assertion exactly when the model says so |
| `ClusterHandlers.ReceivePing` | sampleapps/redis-stable/src/cluster.c:1757-1870 | role switch, comparison of bitmaps, claim, reply to a stale claim and collision, in this order |
| `ClusterHandlers.InformIfStale` | sampleapps/redis-stable/src/cluster.c:1837-1861 | the update sent is about the owner of the first claimed slot with a greater epoch |
| `ClusterHandlers.SendFailoverAuthIfNeeded` | sampleapps/redis-stable/src/cluster.c:2457-2557 | answers exactly when a vote is due, in the fields of the voter, and makes the transition of the model |
| `ClusterHandlers.ClaimIsCurrent` | sampleapps/redis-stable/src/cluster.c:2530-2549 | the loop over the slots finds a claimed slot served in a greater epoch if there is one |
| `ClusterHandlers.VoteDue` | sampleapps/redis-stable/src/cluster.c:2470-2549 | the chain of refusals refuses exactly when the model does |
| `ClusterHandlers.HandleConfigEpochCollision` | sampleapps/redis-stable/src/cluster.c:1034-1049 | exactly when both are masters with the same epoch and the other name is greater, current and own epoch become one more than the current one |
| `ClusterHandlers.ReceiveNewConfig` | sampleapps/redis-stable/src/cluster.c:1944-1965 | an update that is not newer changes nothing |
| `ClusterHandlers.GetMaxEpoch` | sampleapps/redis-stable/src/cluster.c:925-938 | a bound of all epochs of the view that is one of them |
| `ClusterHandlers.BumpConfigEpochWithoutConsensus` | sampleapps/redis-stable/src/cluster.c:969-986 | acts exactly when the own epoch is 0 or not the greatest |
| `ClusterHandlers.CountVoters` | sampleapps/redis-stable/src/cluster.c:3462-3482 | the number of masters that serve a slot |
| `ClusterHandlers.ClusterUpdateState` | sampleapps/redis-stable/src/cluster.c:3462-3482 | setting the cluster size is a step of the transition system |
| `ClusterHandlers.HandleSlaveFailover` | sampleapps/redis-stable/src/cluster.c:2695-2860 | one call makes at most one of the steps schedule, start and win, each exactly under its guards, and what each does to the fields: a new epoch and vote count, and for a win the epoch of the election and the slots of the master |
| `ClusterHandlers.SameBits` | sampleapps/redis-stable/src/cluster.c:1802-1811 | comparing bitmaps by bytes compares the sets of slots |
| `AofLog.CatGenericCommand` | sampleapps/redis-stable/src/aof.c:435-458 | appends the encoding of the argument list, for any bytes in the arguments |
| `AofLog.EncodedPing` | sampleapps/redis-stable/src/aof.c:436-456 | the format, by the bytes of a command of one argument |
| `AofLog.LoadAppendOnlyFile` | sampleapps/redis-stable/src/aof.c:599-748 | the loop runs the commands, and ends with the outcome and the offset, of the recursive reading of the file |
| `AofLog.ReadArgumentsLoop` | sampleapps/redis-stable/src/aof.c:654-675 | the arguments read one by one, with end of file, read errors and bad formats told apart |
| `AofLog.ReadCommandAt` | sampleapps/redis-stable/src/aof.c:639-675 | one command read at an offset: the line buffer, the markers and the lengths as the loader tests them |
| `AofRecovery.LogLoads` | sampleapps/redis-stable/src/aof.c:625-696 | loading the concatenated encodings of known commands yields exactly those commands |
| `AofRecovery.TruncatedLogLoads` | sampleapps/redis-stable/src/aof.c:717-739 | loading any proper or improper prefix of such a log, byte by byte, yields exactly the commands that are whole in it, with `valid_up_to` the sum of their lengths, and reports truncation exactly when bytes are left over |
| `AofRecovery.TruncatedLogRefused` | sampleapps/redis-stable/src/aof.c:717-739 | the same prefix is refused when `aof-load-truncated` is off |
| `AofRecovery.WholeIsGreatest` | sampleapps/redis-stable/src/aof.c:717-739 | the commands that are whole in a prefix are the most that fit in it |
| `AofDamage.BadStart` | sampleapps/redis-stable/src/aof.c:645 | a good log followed by a line that does not start with '*': its commands are run, and it is a format error, with truncation on or off |
| `AofDamage.BadCount` | sampleapps/redis-stable/src/aof.c:647-648 | the same for a number of arguments that is negative, zero or no number |
| `AofDamage.BadArgument` | sampleapps/redis-stable/src/aof.c:661 | the same for an argument line that does not start with '$', after any good arguments of its command |
| `AofDamage.BadLength` | sampleapps/redis-stable/src/aof.c:662-664 | the same with a negative length, which cannot be allocated |
| `AofDamage.UnknownName` | sampleapps/redis-stable/src/aof.c:683-687 | the same with a command the server does not know, which is named |
| `AofDamage.CutMeansUnfinished` | sampleapps/redis-stable/src/aof.c:722-744 | whatever the file: it is taken for one that was cut off only if it ends inside a command that some bytes would complete, or with '*' and a zero byte in its last line |
| `AofDamage.ZeroTailCut` | sampleapps/redis-stable/src/aof.c:646 | the second case occurs, and nothing completes it |
| `Decimal.ParseIntOf` | sampleapps/redis-stable/src/aof.c:440-446 | a length written in decimal is read back, whatever follows it that is no digit |
| `Decimal.DigitsInOrder` | sampleapps/redis-stable/src/util.c:265-315 | the last digit is the remainder by ten and what stands before it is the rest of the number |
| `AofFlush.AppendOnlyFile.FlushAppendOnlyFile` | sampleapps/redis-stable/src/aof.c:273-433 | for every result of write and ftruncate, each field and the sync: what is written, left, kept and recorded; waits at most two seconds for a pending sync; exits exactly under `always` on a write that is not whole; syncs at most once a second in the background, and only when none is pending |
| `AofFlush.AppendOnlyFile.Feed` | sampleapps/redis-stable/src/aof.c:534-535 | the buffer grows by the bytes fed |
| `AofFlush.Session` | sampleapps/redis-stable/src/aof.c:273-433 | over any run of appends and of whole, short and failed writes nothing fed is lost, repeated or reordered, and no two background syncs are made in the same second |
| `AofBlocks.Append` | sampleapps/redis-stable/src/aof.c:123-167 | the blocks hold the old bytes followed by the new ones, across block borders; the loop terminates |
| `AofBlocks.WriteDiffData` | sampleapps/redis-stable/src/aof.c:94-120 | the bytes sent followed by those left are those that were there, each accepted call sends at least one byte, and it stops only when refused, done, or asked to |
| `AofBlocks.WriteAll` | sampleapps/redis-stable/src/aof.c:172-192 | all blocks, in order, exactly when every write is whole; otherwise a prefix and an error |
| `AofReplay.RunChunks` | sampleapps/redis-stable/src/aof.c:770-823 | splitting the elements of a value into commands of at most 64 builds the same value as all at once |
| `AofReplay.ChunkAt` | sampleapps/redis-stable/src/aof.c:831-865 | each command but the last has 64 elements, and the i-th has those from 64 i on |
| `AofReplay.ElementsBuild` | sampleapps/redis-stable/src/aof.c:770-997 | adding the elements of a list, set, hash or sorted set one after another to nothing gives the value back |
| `AofDump.RewriteElements` | sampleapps/redis-stable/src/aof.c:770-997 | the loop that counts items and opens a new command every 64 writes exactly those commands |
| `AofDump.RewriteEntry` | sampleapps/redis-stable/src/aof.c:1066-1093 | one key of any type, as the commands that make it |
| `AofDump.RewriteDb` | sampleapps/redis-stable/src/aof.c:1061-1106 | all keys of a database in iteration order |
| `AofDump.RewriteDataset` | sampleapps/redis-stable/src/aof.c:1045-1109 | every database with keys, each after its SELECT, the empty ones left out |
| `AofDump.EmptyLeftOut` | sampleapps/redis-stable/src/aof.c:1045-1050 | databases without keys leave no trace |
| `AofDump.EntriesMake` | sampleapps/redis-stable/src/aof.c:1061-1106 | replaying the commands of a database from nothing makes the database |
| `AofDump.DumpReplays` | sampleapps/redis-stable/src/aof.c:1021-1177 | replaying the whole base from an empty server makes the dataset at the fork |
| `AofRewrite.FeedAppendOnlyFile` | sampleapps/redis-stable/src/aof.c:497-545 | the bytes fed are the command, after a SELECT exactly when the last database fed is another one or unknown |
| `AofRewrite.FeedMakes` | sampleapps/redis-stable/src/aof.c:497-545 | if the log made the dataset before a command, it does after it |
| `AofRewrite.SwitchKeeps` | sampleapps/redis-stable/src/aof.c:1364-1506 | at the switch the file of the child followed by the residual blocks is the base followed by everything fed since the fork; that file is then in use with an empty AOF buffer, the AOF is on and the next command is written with its SELECT |
| `AofRewrite.FailureLeavesFile` | sampleapps/redis-stable/src/aof.c:1364-1506 | a rewrite that failed, in the child or at the rename, changes neither the file nor the AOF buffer nor the selected database, and the rewrite buffer is reset |
| `AofRewrite.RewriteCompletes` | sampleapps/redis-stable/src/aof.c:1269-1506 | a rewrite under way can always be brought to its end: the handshake and the switch are allowed one after the other, and then the AOF is on with the dump followed by all that was fed since |
| `AofRewrite.RewriteLosesNothing` | sampleapps/redis-stable/src/aof.c:1269-1321 | over every interleaving of commands, flushes, forks, partial pipe writes, reads, the stop handshake, failures and switches: nothing fed since the fork is lost, repeated or reordered, and both the current log and the new file replay to the dataset of the parent, so dropping `aof_buf` at the switch loses nothing |
| `AofRewrite.LoadedLogMakes` | sampleapps/redis-stable/src/aof.c:599-748 | loading the bytes of the log at any moment and replaying them from an empty server makes the current dataset |
| `Intset.DecodeOf` | sampleapps/redis-stable/src/intset.c:55-94 | a value that fits is read back from its little-endian two's complement bytes |
| `Intset.EncodedByte` | sampleapps/redis-stable/src/intset.c:55-94 | the bytes of a value: two's complement, the least significant first |
| `Intset.ValueEncodingIsLeast` | sampleapps/redis-stable/src/intset.c:45-52 | the encoding chosen is the least of the three the value fits in |
| `Intset.GetAfterSet` | sampleapps/redis-stable/src/intset.c:55-94 | reading after writing at an index: the new value there, the old ones elsewhere |
| `Intset.Search` | sampleapps/redis-stable/src/intset.c:115-154 | finds the value, or the only place where it can go; the shortcuts at the ends agree with the bisection |
| `Intset.Widen` | sampleapps/redis-stable/src/intset.c:167-170 | widening from the back in place never overwrites an element not read yet |
| `Intset.MoveTail` | sampleapps/redis-stable/src/intset.c:182-201 | the bytes of the tail move, overlapping or not, and those in front stay |
| `Intset.OutsideAll` | sampleapps/redis-stable/src/intset.c:157-180 | a value that forces a wider encoding is below all elements when negative and above them all otherwise |
| `Intset.Upgraded` | sampleapps/redis-stable/src/intset.c:157-180 | the widened bytes hold the old values with the new one at its end |
| `Intset.IntSet.constructor` | sampleapps/redis-stable/src/intset.c:97-102 | the empty set in the narrowest encoding |
| `Intset.IntSet.Add` | sampleapps/redis-stable/src/intset.c:204-231 | the set gains the value, strictly sorted and in an encoding that fits; 1 exactly when it is new; the encoding grows only as needed |
| `Intset.IntSet.Remove` | sampleapps/redis-stable/src/intset.c:234-251 | the set loses exactly the value; 1 exactly when it was there; the encoding stays |
| `Intset.IntSet.Find` | sampleapps/redis-stable/src/intset.c:254-257 | membership |
| `Intset.IntSet.Get` | sampleapps/redis-stable/src/intset.c:266-272 | the element of that rank, if there is one |
| `Bitops.LanesCountWord` | sampleapps/redis-stable/src/bitops.c:75-108 | each byte lane of a word ends as the number of its bits, with no carry into the next, for all words |
| `Lanes.SevenWords` | sampleapps/redis-stable/src/bitops.c:75-108 | adding seven such words and multiplying by 0x01010101 modulo 2^32 leaves the total of 28 bytes in the top byte |
| `Bitops.PopcountSeven` | sampleapps/redis-stable/src/bitops.c:75-108 | the 28-byte step counts the bits of its 28 bytes |
| `Bitops.Popcount` | sampleapps/redis-stable/src/bitops.c:61-113 | for every string and alignment, the number of bits set, counted one by one |
| `Bitpos.BitsByPlace` | sampleapps/redis-stable/src/bitops.c:159-173 | the first bit of a byte is the one worth 128, the last the one worth 1 |
| `Bitpos.Bitpos` | sampleapps/redis-stable/src/bitops.c:122-200 | the least position of the bit, with zeros to the right of the string; -1 exactly when a 1 is sought and there is none |
| `Bitpos.LoadWord` | sampleapps/redis-stable/src/bitops.c:159-173 | the word holds the next 64 bits, first bit on top, zeros past the end |
| `Bitpos.ScanWord` | sampleapps/redis-stable/src/bitops.c:182-199 | the walk down the word stops at the first such bit and never reaches the panic |
| `BitposCommand.BitposCommand` | sampleapps/redis-stable/src/bitops.c:516-600 | for any range, with indexes from either end: the least position in the range, -1 for an empty range, and for a 0 not found -1 exactly when the end was given |
| `Bitop.BitopCommand` | sampleapps/redis-stable/src/bitops.c:288-459 | for any number of strings of any lengths: as long as the longest, every byte the operation on the zero-padded strings, whichever of the word and the byte loop made it; an error exactly for NOT of several |
| `Bitop.FoldedBit` | sampleapps/redis-stable/src/bitops.c:424-438 | bit by bit: set in all, in one, in an odd number of the strings, or not in the only one |
| `Bitop.FastPath` | sampleapps/redis-stable/src/bitops.c:359-422 | every byte the word loops claim to have done is done |
| `Bitop.CombineBytes` | sampleapps/redis-stable/src/bitops.c:372-421 | an operation on 64-bit words is that operation on each of their bytes |
| `Keyspace.SlotStretch` | sampleapps/redis-stable/src/db.c:1220-1247 | the keys of a slot are one stretch of the ordered index, as long as their number |
| `Keyspace.Database.constructor` | sampleapps/redis-stable/src/db.c:1177-1180 | nothing stored, nothing indexed |
| `Keyspace.Database.DbAdd` | sampleapps/redis-stable/src/db.c:93-100 | the key is stored and indexed |
| `Keyspace.Database.DbOverwrite` | sampleapps/redis-stable/src/db.c:107-112 | the value changes; expires and index do not |
| `Keyspace.Database.DbDelete` | sampleapps/redis-stable/src/db.c:162-172 | the key leaves the dictionary, the expires and the index together; 1 exactly when it was there |
| `Keyspace.Database.SetKey` | sampleapps/redis-stable/src/db.c:120-129 | the key has the value and no expire, whether it was there, absent or expired |
| `Keyspace.Database.LookupKeyWrite` | sampleapps/redis-stable/src/db.c:72-75 | an expired key is deleted first, exactly on a master that is not loading |
| `Keyspace.Database.Rename` | sampleapps/redis-stable/src/db.c:667-703 | done exactly when source and target permit it; then the value and the expire have moved and nothing of the old target is left; otherwise only an expired source goes |
| `Keyspace.Database.MoveKey` | sampleapps/redis-stable/src/db.c:692-694 | the value under its new name with its expire, and nothing under the old one |
| `Keyspace.Database.RemoveExpire` | sampleapps/redis-stable/src/db.c:772-777 | the expire goes, the key stays |
| `Keyspace.Database.SetExpire` | sampleapps/redis-stable/src/db.c:779-787 | the expire is set and the key stays |
| `Keyspace.Database.GetExpire` | sampleapps/redis-stable/src/db.c:791-802 | -1 exactly for a key without an expire or with that expire; the assert that an expiring key exists holds |
| `Keyspace.Database.ExpireIfNeeded` | sampleapps/redis-stable/src/db.c:828-862 | true exactly for a key past its time outside loading; deleted only on a master |
| `Keyspace.Database.Flush` | sampleapps/redis-stable/src/db.c:253-260 | everything goes, from the index too |
| `Keyspace.Database.CountKeysInSlot` | sampleapps/redis-stable/src/db.c:1220-1247 | the arithmetic on the ranks of the first and the last element is the number of keys of the slot |
| `Keyspace.Database.GetKeysInSlot` | sampleapps/redis-stable/src/db.c:1182-1196 | different keys of the slot, no more than asked for, and all of them when there are no more |
| `Keyspace.Database.DelKeysInSlot` | sampleapps/redis-stable/src/db.c:1200-1218 | exactly the keys of the slot go, from all three structures, and their number is returned |

## Left out

Dictionary:
- Bucket arrays are sequences and chains are sequences of entries, so pointers and aliasing are not modelled; a key carries its hash, of 64 bits where the code keeps 32.
- The `LONG_MAX` escape of `_dictNextPower`: table sizes stay at or below 2^62; the switch that forbids resizing is a parameter.
- `dictNext`, `dictReleaseIterator` and the fingerprint: safe iterators appear only as the count that stops rehash steps; random keys, `dictGetSomeKeys` and rehashing by the clock.

HyperLogLog:
- Error returns on corrupted strings; the cached cardinality; the estimate itself, beyond the two sums it is computed from, and rounding (the sums are exact reals); MurmurHash (the hash is given).

Cluster:
- ElectionsExact: assumes that the masters with slots are a fixed set and that a winner knows their number; a change of voters during an election is not modelled.
- ClaimsConverge: assumes a receiver that owns and imports no slots itself, as it may refuse the claim of such a slot, and that owners without a claim are older than the claims; earlier claims of a claimant that are still on their way are not admitted, nor packets other than its ping by which an old owner that became a slave spreads the epoch of its new master.
- A node name is a number; slot bitmaps are values rather than buffers, and in packets they are the sets of slots they stand for; epochs are unbounded.
- Gossip, handshakes, MEET and links; the failure detector (any node may come to suspect another at any time); clocks, ranks and delays (each guard may go either way); packets of a node to itself; hard resets, restarts and `SET-CONFIG-EPOCH`; migrating slots; the keys of dirty slots are reported and not deleted there.

Append-only file:
- MULTI/EXEC, expires and the translation of EXPIRE; read errors while loading; incremental fsync of the child; the state in which the log is off while commands run.
- LoadAppendOnlyFile: the loader is modelled up to the commands it runs, and what commands other than SELECT and those of the dump do is a parameter.
- Scores of sorted sets are the text that is written for them; iteration order of a dataset is a parameter of the dump.
- AofFlush.AppendOnlyFile.constructor: the opening of the file, without the rewrite that turning the log on starts.
- AofFlush.AppendOnlyFile.Feed: the append to the buffer; the SELECT logic of `feedAppendOnlyFile` is in AofRewrite.FeedAppendOnlyFile.
- Buffers, blocks and files are sequences of bytes; the exit of the server is an outcome.

Integer sets and bit operations:
- The length of a set is unbounded; big-endian machines; `realloc` always moves; `intsetRandom`.
- The table `bitsinbyte` is the number of bits of a byte; 32-bit additions are sums of numbers modulo 2^32; arguments are numbers already parsed, and strings are not encoded integers. SETBIT, GETBIT and BITCOUNT would only add easy members.

Keyspace:
- The skip list is an ordered sequence; a key carries its slot, in the place of CRC16; database 0 only; notifications, propagation, blocked clients and the least-recently-used clock.

Everything else in the repository: the agents, servers and user interface around it, networking, the event loop, background threads, configuration, strings, memory and reference counts, ziplists and skip list internals.
