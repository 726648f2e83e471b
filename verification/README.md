# waveSpan in Dafny

A model of the replicated-collections core of waveSpan and of the parts of the system that carry its data
around: the data-shard state machine (sets, hashes, sorted sets, counters, TTLs, idempotency window, budgets),
the online range split, the range directory, snapshots, write coalescing, re-sharding restores, conflict
resolvers, the property-graph indexes and the backup catalogue. Code that computes is modelled by functions;
code that changes state step by step is modelled by classes and methods with loops, each proved against a
function, and the properties are proved about those functions.

`dafny verify dfyconfig.toml` checks everything.

## What the modules are

| module | models |
|---|---|
| `Bytes` | big-endian numbers, byte-string order, prefix scans, length-prefixed chunks |
| `Codec` | commands, coalesced batches, batch results, migration payloads |
| `Rows`, `Scores` | the row families of a shard and their key layout, routing keys, due scans, the order of scores |
| `Ledger`, `BudgetRuns`, `BudgetAnswers`, `BudgetWire`, `Records` | budgets: the commands on one pool, what whole runs keep, what callers are told, how they encode their calls, the record formats |
| `Escrow`, `EscrowRuns` | the stored budget rows of a collection as one ledger, over one command and over whole runs of the shard |
| `BudgetSweeps` | the expiry pass: the due scan over stored keys and what its proposals settle |
| `Machine` | what one `Update` of a data shard does, as functions on rows |
| `Meaning` | what commands do to a set, hash, sorted set or counter as its client sees it |
| `Expiries` | deadlines of members: pointer and index rows over one item, one Update and whole runs |
| `Freezes` | frozen ranges: what a freeze covers, and what a range keeps while it is frozen |
| `Overlays`, `ShardSM` | `updateCtx` and `shardSM.Update` as a class with its in-batch overlays, proved equal to `Machine` |
| `Frame`, `Cardinality`, `Batching` | what every command leaves alone, counters and sorted sets over all runs, batch refinement and poison isolation |
| `Idempotency`, `ExactlyOnce` | the dedup ring, and what it means for a key retried anywhere, coalesced or not |
| `Directory`, `Migrate`, `Split`, `SplitRuns` | the range directory, moving a range, the split as a protocol with concurrent clients and abandoned splits, and runs of it that go wrong |
| `Snapshot`, `Reshard` | snapshot save and install, restore into another shard count |
| `ResultRange`, `Proposer` | the range of results, write coalescing |
| `Conflict`, `Graph`, `Backup` | resolvers, derived graph indexes, backup chains and retention |

A shard's rows are keyed by a datatype `Row`; `Rows.SuffixInjective` and `Rows.KeyInjective` show that the byte
keys tell rows apart, so a map keyed by rows is the byte-keyed store. `Machine` reads through two arguments: the
rows at the start of the batch, for what the code reads from the store, and the rows so far, for what it reads
through an overlay. `ShardSM.Shard.Update` is proved equal to `Machine.Update`; the properties of `Update` are
proved about the function.

`Split` is a state machine over nine steps. Clients write through any directory ever published; one coordinator
starts a shard, has the freeze committed, scans, ingests in batches of 256, shrinks the old range, publishes the
new one and purges, and may give up after any step, leaving its freeze and its copies behind for the next split,
which reuses the shard id. A client write is an arbitrary change to the rows of one routing key, which is what
`Frame.CommandFramed` proves of every command as far as routed rows go.

## What was found

- A raising reconcile over-commits: the buckets add up to the cap after it exactly when the target fits
  (`BudgetRuns.StepStaysBalanced`, `BudgetRuns.RaisingReconcileOvercommits`).
- Spent can wrap: a reconcile at the top of int64 lets a later expiry store a negative total. As long as the buckets
  fit an int64 no command wraps it, and a command keeps them fitting if and only if it is not a reconcile whose
  target and LeasedOut add up past int64; with caps below 2^62 none does (`BudgetRuns.StepConserves`,
  `BudgetRuns.SmallCapRunsStayNarrow`, `BudgetRuns.WideReconcileWraps`).
- The pacing bound needs good stamps: a refill credits no more time than its clock moves on if and only if the stamp
  is not negative while the clock stands at 0, which reads as "never refilled", and not so far behind the clock that
  their int64 difference wraps to a credit (`BudgetRuns.CreditExact`, `BudgetRuns.NegativeStampsOverGrant`,
  `BudgetRuns.FarStampOverGrants`).
- Init admits a negative `maxPauseMs`; a draw can then leave an expiry-index row that nothing removes. The index
  stays exact under a command exactly when it is not such a draw (`BudgetRuns.StepIndex`,
  `BudgetRuns.NegativePauseLeaksIndex`).
- A retried draw is answered with the bytes of the first answer if and only if its ttl is zero, or positive with a
  positive expiry; a negative override is not (`BudgetAnswers.RetryEchoes`,
  `BudgetAnswers.NegativeOverrideAnswersDiffer`).
- With a negative clock the due scan lists leases that are not due, since its bound is the clock's uint64 image; the
  replicated deadline still decides at apply (`BudgetSweeps.NegativeClockMeetsAll`, `BudgetSweeps.SweepStored`).
- A deadline is cleared through the pointer the store holds, not the one the running batch wrote. One `Update` that adds
  a member with an expiry and removes it again leaves the pointer and the index row; the member, added later without an
  expiry, is then taken at the forgotten time. An item forgets a deadline if and only if it clears or replaces one that
  the store does not hold; over runs that name no member twice in one `Update` none is forgotten
  (`Expiries.ItemTidyExact`, `Expiries.ForgottenRun`, `Expiries.RunsTidy`).
- The comments of `control.go` and `migrate.go` speak of a quiescent range; the code freezes it, and the model
  follows the code.
- A split does not move dedup records, the ring or the budget due indexes, since they have no routing key
  (`Migrate.MovesWhichRows`, `Migrate.UnroutedRowsStay`).
- A split given up between its two directory writes leaves a range without a shard. Between splits the directory
  covers every routing key once if and only if that never happened; the rows of the range are intact on the shard
  that had them (`SplitRuns.TornRun`, `Split.IdlePartition`, `Split.NoAckedWriteLost`).
- A merge freezes nothing. A client with the directory from before it still writes to the right shard, and the write
  is acknowledged and lost unless an earlier split happens to have frozen the routing key there
  (`SplitRuns.MergeMissesStaleWrites`, `SplitRuns.SplitThenMerge`).
- A merge removes the left shard's freeze row by its start alone. Outside the merged range it lifts the fence exactly
  between the end of that range and the end of the row; after two splits, merging the middle range back lets clients
  of the first directory write to a range two splits away (`SplitRuns.MergeLifts`, `SplitRuns.FenceLiftedRun`).
- A split given up before its purge leaves rows on the old shard; merging the range back brings removed rows back.
  A merge is exact if and only if the left shard holds nothing in the range that the right one lacks
  (`Migrate.MergeExact`, `Migrate.MergeRevives`, `SplitRuns.UnpurgedRun`).
- A single refused command is reported as a success with a zero result; in a batch the same command is an error
  (`Proposer.Transparent`, `Proposer.TransparentAlone`).
- The resolvers converge if and only if a highest version is carried by one record (`Conflict.LwwNeedsOneTop`,
  `Conflict.SiblingsNeedOneTop`).
- Two writers are one to the sibling resolver if and only if their names run on into each other past a zero byte
  (`Conflict.WriterMeans`).
- A retention sweep rewrites records from its listing, which may be stale: a listing taken before a backup
  completed turns it into a failed one (`Backup.SweepRewrites`, `Backup.StaleSweepFailsACompletedBackup`). From no
  listing does it remove a backup that a record names as parent, but it can bring back a record whose parent was
  deleted meanwhile: chains stay whole if and only if every row it gives up has its parent in the catalogue or among
  those rows (`Backup.SweepSafe`, `Backup.SweepChains`, `Backup.StaleSweepBreaksAChain`).
- A forced deletion of a backup that depends on itself does not end: there is always a child on the cycle to delete
  first. On every other backup it ends (`Backup.CyclicDeleteGoesOn`, `Backup.CycleSurvives`,
  `Backup.Node.DeleteBackup`).
- A snapshot stream cut off between two rows is installed as if it were complete; cut anywhere else it is refused
  (`Snapshot.CutStream`, `Snapshot.Recover`).
- A graph seek for 0.0 does not see nodes holding -0.0, unless a stale entry leads to them (`Graph.ZerosIndexedApart`,
  `Graph.SeekProperty`).
- Objects of a backup whose id extends another id past a slash lie under the other's prefix
  (`Backup.ObjectsApart`).

## Model

| member | source | states |
|---|---|---|
| Bytes.ComputePrefixEnd | internal/collections/command.go:358-369 | the loop computes the upper bound of a prefix scan |
| Bytes.PrefixEndExact | internal/collections/command.go:357-369 | a key is in the scan from p to prefixEnd(p) exactly when it has prefix p, all-0xff prefixes included |
| Bytes.FromBEOrder | internal/collections/command.go:372-382 | fixed-width big-endian numbers sort like the numbers |
| Bytes.LessMeans | internal/collections/freeze.go:56-64 | one byte string is before another exactly when it ends first or has the smaller byte at the first difference |
| Bytes.I64RoundTrip | internal/collections/budget.go:158-159 | int64 fields survive their two's-complement image |
| Bytes.TakeChunkOfChunk | internal/collections/command.go:312-329 | a chunk is read back with exactly the bytes after it |
| Bytes.ChunkPrefixFree | internal/collections/command.go:312-329 | chunk framing is unambiguous: equal framed strings have equal chunks and rests |
| Codec.AppendCommand | internal/collections/command.go:195-216 | the encode loop produces the command format after what was there |
| Codec.DecodeCommandInto | internal/collections/command.go:263-309 | the decode loop returns what the format says, and an error exactly when it is short or unknown |
| Codec.CommandRoundTrip | internal/collections/command.go:195-309 | decoding undoes encoding for every valid command, whatever follows it |
| Codec.DecodeCommandValid | internal/collections/command.go:263-309 | whatever decodes is a known operation with 64-bit fields |
| Codec.OpTypes | internal/collections/command.go:132-144 | which opcode numbers are commands, and of which collection type |
| Codec.UnknownRefused | internal/collections/command.go:263-309 | bytes that begin with no such opcode are refused, and a command keeps its opcode |
| Codec.EncodeBatchInto | internal/collections/command.go:220-230 | the batch encode loop produces the wrapper format |
| Codec.SplitBatch | internal/collections/command.go:233-253 | the batch decode loop returns the sub-commands or an error, as the format says |
| Codec.BatchRoundTrip | internal/collections/command.go:220-253 | a wrapper decodes to its sub-commands in order |
| Codec.NoWrapper | internal/collections/command.go:233-253 | only bytes with the batch opcode are read as a wrapper, with as many sub-commands as it says, and none of them is a command |
| Codec.BatchResultRoundTrip | internal/collections/proposer.go:235-271 | packed results decode to the results, for the expected count |
| Codec.OtherCountRefused | internal/collections/proposer.go:246-271 | results packed for another number of callers are refused |
| Codec.IngestRoundTrip | internal/collections/migrate.go:97-128 | an ingest payload decodes to its rows |
| Codec.BoundsRoundTrip | internal/collections/migrate.go:130-148 | purge, freeze and unfreeze bounds survive encoding |
| Rows.SuffixInjective | internal/collections/statemachine.go:46-66 | no two rows, of one family or of different ones, share a key suffix |
| Rows.KeyInjective | internal/collections/base_sm.go:26-34 | no two rows of any two shards share a key |
| Rows.RouteKeyInjective | internal/collections/meta.go:197-199 | different collections have different routing keys |
| Rows.RouteOfRow | internal/collections/migrate.go:39-64 | the routing key read from a stored suffix is the collection's, for data and TTL rows, and absent for every other family |
| Rows.CollOfBodyExact | internal/collections/reshard.go:46-71 | namespace and collection are read back from a key whatever follows them |
| Rows.DueKeyInScan | internal/collections/budget.go:931-959 | a due-index row is in the due scan exactly when its time is not after now |
| Rows.OnlyDueKeysInScan | internal/collections/ttl.go:80-110 | a due scan meets no row of another family or shard |
| Rows.ScoreRoundTrip | internal/collections/command.go:372-392 | a sorted-set score and member are read back from the index key |
| Rows.ScoreTailInjective | internal/collections/statemachine.go:60-66 | score-index keys of different scores or members differ |
| Scores.IndexOrder | internal/collections/command.go:370-382 | the index rows of a sorted set lie in the numeric order of their double scores, then of their members' bytes; the converse too, with only the two zeros told apart |
| Ledger.DecodeCmdValid | internal/collections/budget.go:424-809 | whatever decodes carries int64 fields |
| BudgetWire.CallReadsBack | internal/collections/collections.go:384-514 | each of the seven budget commands, encoded as its caller encodes it, decodes to the same command: mode, cap, rate, burst and the four timing fields of a definition, amount, stamp, ttl and holder of a draw, a return with or without a final report |
| BudgetWire.ShortDefineReadsBack | internal/collections/budget.go:424-450 | a definition key of 25 to 56 bytes decodes with its mode, cap, rate and burst and no timing |
| BudgetWire.RefusedExactly | internal/collections/budget.go:424-809 | a budget command is refused if and only if it has no item, too few bytes for its fields, or no lease id where one is needed |
| BudgetRuns.StepConserves | internal/collections/budget.go:424-809 | LeasedOut is the unspent total of the live leases after every command, int64 wrap of Spent included; while the buckets fit an int64 no command but reconcile moves Available + LeasedOut + Spent - Cap, reconcile sets it to the overhang of its clamped target, and the buckets go on fitting if and only if target plus LeasedOut fit |
| BudgetRuns.RoomyRunsStayNarrow | internal/collections/budget.go:424-809 | over whole runs whose reconciles fit, the buckets fit and Spent does not wrap |
| BudgetRuns.SmallCapRunsStayNarrow | internal/collections/budget.go:424-809 | with caps below 2^62 that holds of every run |
| BudgetRuns.WideReconcileWraps | internal/collections/budget.go:741-809 | an admitted run after which an expiry stores Spent = -2 |
| BudgetRuns.StepStaysBalanced | internal/collections/budget.go:785-809 | from balanced books a command leaves balanced books if and only if it is not a reconcile whose target exceeds Cap - LeasedOut |
| BudgetRuns.BalancedMeans | internal/collections/budget.go:899-913 | balanced books pass the conservation probe and 0 <= SpentReported <= Spent <= Cap |
| BudgetRuns.CalmRunsBalance | internal/collections/budget.go:424-912 | over whole runs without such a reconcile the buckets add up to the cap and the probe reports OK |
| BudgetRuns.RaisingReconcileOvercommits | internal/collections/budget.go:785-809 | init, a draw of the whole cap and a reconcile outside the condition leave an excess of the whole cap, and the probe fails |
| BudgetRuns.NoOverspend | internal/collections/budget.go:483-752 | in every reconcile-free run Spent + LeasedOut is the live amounts plus the finals of returned and the full amounts of expired leases, and at most Cap |
| BudgetRuns.ConsumptionBelowCap | internal/collections/budget.go:483-752 | whatever holders really consumed within their leases adds up to at most Cap, whatever expired holders failed to report |
| BudgetRuns.PacingFitsI64 | internal/collections/budget.go:186-192 | with an admitted burst the refill products stay inside int64 |
| BudgetRuns.CreditExact | internal/collections/budget.go:542-558 | a refill credits no more time than its clock moves on if and only if the stamp is not a bad one |
| BudgetRuns.PacingBound | internal/collections/budget.go:542-574 | over whole runs without such stamps, in any order and of either sign, fresh grants stay within burst plus rate over the time between first and latest granting stamp |
| BudgetRuns.StampedWellTimed | internal/collections/budget.go:542-574 | stamps that are not negative are never bad |
| BudgetRuns.NegativeStampsOverGrant | internal/collections/budget.go:542-574 | five commands with negative stamps that exceed the bound |
| BudgetRuns.FarStampOverGrants | internal/collections/budget.go:542-574 | three commands, the last stamped far behind, that exceed it |
| BudgetRuns.SettledIsFinal | internal/collections/budget.go:496-768 | a draw, report, return or expiry of a settled lease changes nothing |
| BudgetRuns.SettledStaysSettled | internal/collections/budget.go:496-782 | over any run without its tombstone collection a settled lease stays settled and is never granted again |
| BudgetRuns.StepIndex | internal/collections/budget.go:496-768 | the expiry index stays the set of deadlines of live timed leases if and only if the command is no draw that is granted, timed and has a non-positive deadline, all of which the caller can see before |
| BudgetRuns.RunIndex | internal/collections/budget.go:424-782 | the index is exact over whole runs without such draws |
| BudgetRuns.NegativePauseLeaksIndex | internal/collections/budget.go:424-480 | an admitted pool and one draw after which no run of commands removes the index row |
| BudgetRuns.SweepSettles | internal/collections/manager.go:467-494 | from any, possibly stale, due list the sweep settles the listed overdue leases and no other |
| BudgetSweeps.ScanBudDue | internal/collections/budget.go:931-959 | the loop returns, in order, what the scanned keys that decode say |
| BudgetSweeps.ScannedUnder | internal/collections/budget.go:931-945 | the scanned keys all lie under the index space, as the loop presumes |
| BudgetSweeps.ScanExact | internal/collections/budget.go:928-959 | the scan returns only overdue leases of the shard with their deadlines, and without a limit all of them |
| BudgetSweeps.ReachedScanExact | internal/collections/budget.go:928-959 | so it does in every state a shard reaches from nothing by draws with good deadlines |
| BudgetSweeps.NegativeClockMeetsAll | internal/collections/budget.go:931-932 | with a negative clock other than -1 every deadline that is not negative is in the interval |
| BudgetSweeps.SweepBudget | internal/collections/manager.go:467-481 | the first pass applies one forced expiry per listed lease |
| BudgetSweeps.SweepStored | internal/collections/manager.go:467-481 | from any list, stale or not, exactly the listed leases whose stored deadline has passed are settled, none in a frozen range, and all others stay as they are |
| BudgetSweeps.SweepLeavesNoneOverdue | internal/collections/manager.go:467-481 | from an unlimited scan of a reached state the overdue leases outside the frozen ranges are settled and no others |
| BudgetAnswers.DrawIsMaximal | internal/collections/budget.go:483-584 | a fresh draw gets the largest amount that fits the request, the available units and, with pacing, the tokens; when none is positive it is refused and nothing changes |
| BudgetAnswers.RetryEchoes | internal/collections/budget.go:505-526 | repeating a draw changes nothing, and is answered with the same bytes if and only if the echo can name its ttl |
| BudgetAnswers.NegativeOverrideAnswersDiffer | internal/collections/budget.go:505-540 | a draw with a negative ttl override whose retry is answered differently |
| BudgetAnswers.RetryAfterRun | internal/collections/budget.go:505-526 | over any run that does not settle the lease, its draw is answered with the same bytes and changes nothing |
| BudgetAnswers.ReportsFold | internal/collections/budget.go:590-628 | cumulative reports in any order and number leave the lease at their maximum, never above its amount |
| BudgetAnswers.SentinelsSpell | internal/collections/budget.go:40-47 | the bytes of the answers that are no number |
| BudgetAnswers.MoreSentinelsSpell | internal/collections/budget.go:40-47 | the bytes of the others |
| BudgetAnswers.InitAnswers | internal/collections/budget.go:424-476 | a definition is accepted exactly with strict mode, non-negative cap, rate and burst, burst at most 2^50, guard and window for a timed budget and no pool yet; which refusal comes first; field by field the pool it makes |
| BudgetAnswers.DrawRefusals | internal/collections/budget.go:483-540 | which refusal a draw gets, in order, and that it changes nothing |
| BudgetAnswers.DrawMoves | internal/collections/budget.go:560-580 | a granted draw moves its amount from available to leased and takes as many tokens, and moves nothing else |
| BudgetAnswers.RefillMeans | internal/collections/budget.go:542-558 | the tokens after a refill: those there and the rate over at most four bursts of time, up to the burst and what is left of the cap |
| BudgetAnswers.DrawAnswers | internal/collections/budget.go:560-584 | the lease, its deadline of stamp, ttl, three skews and pause, its index row, and the five fields of the echo |
| BudgetAnswers.ReportAnswers | internal/collections/budget.go:590-628 | a report moves what is newly spent, up to the amount, to spent and attested and answers the rest; unknown leases and strangers are refused |
| BudgetAnswers.ReturnAnswers | internal/collections/budget.go:636-698 | a return settles at the larger of the last and the final report, makes the rest available and answers it; a timed one leaves a tombstone due a window after the deadline |
| BudgetAnswers.ExpireAnswers | internal/collections/budget.go:702-752 | an expiry before the deadline does nothing and answers the rest; after it the rest is spent but not attested, with a tombstone; of an unknown lease it leaves a tombstone |
| BudgetAnswers.CollectAnswers | internal/collections/budget.go:759-780 | collecting removes the tombstone and the index row it names, nothing else |
| BudgetAnswers.ReconcileAnswers | internal/collections/budget.go:785-809 | spent becomes the acknowledged total, not below what was attested nor above the cap, the rest that is not leased becomes available, and the answer is the difference |
| Escrow.BudgetIsLedgerStep | internal/collections/budget.go:321-809 | a budget command on the stored rows of its collection is one ledger step with the ledger's result |
| EscrowRuns.OnePuts | internal/collections/statemachine.go:263-362 | any command leaves the budget rows of a collection alone or is one step of its ledger with the ledger's answer |
| EscrowRuns.UpdatePuts | internal/collections/statemachine.go:184-259 | one Update, with batches, skips, retries and commands on other collections, is a ledger run of the budget commands that got through |
| EscrowRuns.StoredBudgets | internal/collections/statemachine.go:184-259 | in every state reached from the empty shard the budget rows of every collection are the books of a ledger run, satisfy its invariant, can be stored, keep the expiry index exact when no draw of that run has a bad deadline, and pass the conservation probe when that run is calm |
| Records.PoolStages | internal/collections/budget.go:194-237 | a pool record cut at any length decodes to the stages it carries, the rest zero, and fails exactly below 57 bytes |
| Records.PoolRoundTrip | internal/collections/budget.go:194-237 | a pool record survives storage and bytes appended by later stages are ignored |
| Records.LeaseRoundTrip | internal/collections/budget.go:255-292 | a lease record survives storage; one written without times decodes with none |
| Records.TombRoundTrip | internal/collections/budget.go:301-313 | a tombstone survives storage |
| Records.RunStorable | internal/collections/budget.go:194-313 | every record of every run of decoded commands is one the formats carry unchanged |
| ShardSM.UpdateCtx.ElemExists | internal/collections/statemachine.go:125-131 | presence through the overlay is presence in the rows so far |
| ShardSM.UpdateCtx.ZScore | internal/collections/statemachine.go:133-147 | a member's score through the overlay is the one in the rows so far |
| ShardSM.UpdateCtx.TypeOfColl | internal/collections/statemachine.go:149-162 | a collection's type through the overlay is the one in the rows so far |
| ShardSM.UpdateCtx.EnsureHeader | internal/collections/statemachine.go:164-182 | writes an absent type header, refuses another type, and keeps the overlays coherent |
| ShardSM.UpdateCtx.FieldVal | internal/collections/hincr.go:19-29 | a field's value through the overlay is the one in the rows so far |
| ShardSM.UpdateCtx.ApplyAllItems | internal/collections/statemachine.go:364-508 | the item loop turns the rows and the counter delta into what the item function gives, reading TTL pointers from the store |
| ShardSM.UpdateCtx.HIncr | internal/collections/hincr.go:38-94 | counter increments, absent and non-numeric fields as in the counter function |
| ShardSM.UpdateCtx.DedupRecord | internal/collections/dedup.go:52-66 | evicts the slot's previous key, writes slot and result, advances the sequence |
| ShardSM.UpdateCtx.Budget | internal/collections/budget.go:321-809 | a budget command through the record overlay has the effect and result of the budget function |
| ShardSM.UpdateCtx.ApplyCmd | internal/collections/statemachine.go:263-362 | decode, freeze check, dedup and dispatch as one command of the machine, or nothing but garbage to roll back |
| ShardSM.UpdateCtx.Freeze | internal/collections/freeze.go:67-78 | freeze and unfreeze rows are written for later batches |
| ShardSM.Covers | internal/collections/freeze.go:56-64 | the loop finds a covering frozen range exactly when there is one |
| ShardSM.UpdateCtx.ApplyBatch | internal/collections/sm_fatal.go:174-189 | sub-commands run in order and their results are packed; one bad sub-command fails the entry |
| ShardSM.UpdateCtx.ApplyLogEntry | internal/collections/sm_fatal.go:153-195 | dispatch of one log entry as in the machine |
| ShardSM.UpdateCtx.Restore | internal/collections/sm_fatal.go:101-125 | rolls operations, overlays and deltas back to the snapshot |
| ShardSM.UpdateCtx.Turn | internal/collections/sm_fatal.go:139-151 | an entry takes effect, or is skipped with no effect and the zero result |
| ShardSM.Shard.LoadFrozen | internal/collections/freeze.go:38-54 | the frozen ranges of the store at the start of the batch |
| ShardSM.Shard.FlushCards | internal/collections/statemachine.go:230-245 | one counter row per collection with a non-zero delta |
| ShardSM.Shard.Update | internal/collections/statemachine.go:184-259 | the whole Update with its overlays gives the store and the results of the machine's Update |
| Meaning.ItemsMeaning | internal/collections/statemachine.go:364-508 | member by member, without reference to rows: set members are the old ones and the named ones, fields and scores are the last ones written, removals and due expiries remove and nothing else does |
| Meaning.ItemsReport | internal/collections/statemachine.go:364-508 | the reported number is the number of members, fields or scores that came or went, repeated items counting once |
| Meaning.CommandMeaning | internal/collections/statemachine.go:284-362 | a command that is let through means just that, or is answered with the type error and does nothing exactly when the collection has another type |
| Meaning.BudgetTypes | internal/collections/statemachine.go:323-333 | a budget command on a collection of another type is answered so; a definition that succeeds makes the collection a budget and no other budget command does |
| Meaning.AddedExpiries | internal/collections/ttl.go:55-66 | a member added with an expiry is due at the last one given and is in the due index there |
| Meaning.IncrementMeaning | internal/collections/hincr.go:38-62 | an increment leaves the wrapped sum in the field and answers with it |
| Meaning.FloatMeaning | internal/collections/hincr.go:64-94 | a float increment leaves the printed sum in the field and answers its bits |
| Meaning.NotANumber | internal/collections/hincr.go:38-94 | an increment of a field that is no number changes nothing and answers so |
| Meaning.MarksSpell | internal/collections/command.go:68-70 | the bytes of the three marks |
| Meaning.CounterSums | internal/collections/hincr.go:38-62 | a counter is the sum of its increments, wrapped once, whatever their order or number |
| Expiries.ItemDeadline | internal/collections/ttl.go:55-78 | with the stored deadline up to date, a removal leaves no pointer and no index row of its member, a new deadline has its own row and no other, anything else leaves them as they were |
| Expiries.ItemTidyExact | internal/collections/statemachine.go:364-508 | pointer and index row stay one to one if and only if the item does not clear or replace a deadline that the store does not hold |
| Expiries.TakenForGood | internal/collections/statemachine.go:364-508 | after the items of a removal, or of an expiry that is due, the member, its pointer and every index row of it are gone; all other members keep theirs |
| Expiries.UpdateTidy | internal/collections/statemachine.go:184-259 | an Update that names no member twice leaves every deadline in the index exactly once, and only with its member |
| Expiries.RunsTidy | internal/collections/statemachine.go:184-259 | so it is after every run of such Updates |
| Expiries.EmptyTidy | internal/collections/statemachine.go:42-45 | the empty shard is tidy, so the run property covers all of them |
| Expiries.UntimedStays | internal/collections/ttl.go:46-110 | over any run a set member without a deadline is taken by no expiry |
| Expiries.ReaddedStays | internal/collections/ttl.go:46-110 | from a tidy store, a member removed and added again without a deadline stays over any run of expiries, whatever deadline it had before |
| Expiries.ForgottenRun | internal/collections/statemachine.go:364-508 | a run from nothing in which one Update adds a member with an expiry and removes it, and the member, added back without one, is taken |
| Freezes.FreezeMeans | internal/collections/freeze.go:67-78 | after a freeze exactly the routing keys from its start up to its end, and those under freezes with another start, are frozen |
| Freezes.UnfreezeMeans | internal/collections/freeze.go:67-78 | after an unfreeze exactly the keys under freezes with another start are |
| Freezes.UpdateFenced | internal/collections/statemachine.go:263-283 | while a range is frozen an Update changes no row and no count of its collections, and every command on one is answered with the frozen mark |
| Freezes.FenceHolds | internal/collections/freeze.go:14-64 | so it is over any run in which no entry freezes or unfreezes at the same start |
| Frame.CommandFramed | internal/collections/statemachine.go:263-508 | a command touches no row of another collection, no counter, applied index or freeze; in a frozen range it touches nothing and answers with the frozen mark |
| Cardinality.ItemsCount | internal/collections/statemachine.go:364-508 | the delta of an item loop is the change in the number of element rows, and sorted-set index and pointers stay mirrored |
| Cardinality.CommitRight | internal/collections/statemachine.go:230-245 | committing tallied deltas never needs the negative clamp and leaves right counters |
| Cardinality.CounterAfter | internal/collections/statemachine.go:230-245 | a commit moves every counter by its delta, stopping at zero |
| Cardinality.UpdateRight | internal/collections/statemachine.go:184-259 | one Update of any entries keeps every counter equal to its element count and score rows in bijection with member pointers |
| Cardinality.RunsStayRight | internal/collections/statemachine.go:184-508 | the same over every run in any batching, with TTL commands and skipped entries |
| Cardinality.TypesStay | internal/collections/statemachine.go:164-182 | once a collection has a type it keeps it over any run |
| Cardinality.EmptyRight | internal/collections/statemachine.go:42-45 | the empty shard is a right state, so the run property covers all of them |
| Batching.BatchRefines | internal/collections/statemachine.go:109-508 | for commands without idempotency key, expiry, migrate or freeze, one Update of the list and one per entry give the same results and the same store up to counters of zero |
| Batching.UpdateApplied | internal/collections/statemachine.go:246-257 | an Update stores the index of its last entry as the applied index |
| Batching.UndecodableSkips | internal/collections/sm_fatal.go:139-195 | undecodable bytes are skipped in every state |
| Batching.BadBatchSkips | internal/collections/sm_fatal.go:174-189 | one undecodable sub-command, even after good ones, drops its whole entry |
| Batching.PoisonIsolated | internal/collections/statemachine.go:206-226 | an entry that is skipped, malformed ingest and purge included, leaves the stored state and every other result as if it were absent |
| Idempotency.UpdateSane | internal/collections/dedup.go:34-66 | one Update with at most 4096 keyed writes keeps ring and results in bijection and keeps every key that fewer than 4096 newer ones followed |
| Idempotency.RunsRemember | internal/collections/dedup.go:52-66 | over whole runs a key is remembered until 4096 newer ones were recorded |
| Idempotency.EmptySane | internal/collections/dedup.go:34-66 | the empty shard satisfies the ring invariant the runs start from |
| ExactlyOnce.SameEntryOnce | internal/collections/statemachine.go:117-121 | of two equal keys coalesced into one entry the second gets the first one's answer, and the entry takes effect, writes and answers the others as it would without the second |
| ExactlyOnce.SameBatchOnce | internal/collections/statemachine.go:271-283 | of two equal keys in one Update, each an entry of its own or a sub-command anywhere in one, the second gets the first one's answer and the Update goes on as without it |
| ExactlyOnce.NoTrace | internal/collections/statemachine.go:271-283 | what is stored is then what would be with the entry, or the sub-command, taken out, up to the applied index |
| ExactlyOnce.RecordsExactly | internal/collections/statemachine.go:271-358 | a command records its key if and only if it has one, is no budget command, lies in no frozen range, is no repetition, finds its type and, as an increment, a number; the key then stands for its answer |
| ExactlyOnce.RecordedAfter | internal/collections/statemachine.go:311-358 | what a keyed command was answered, alone or inside a batch, is what the shard holds for its key afterwards, whatever followed it |
| ExactlyOnce.ReplayIsInert | internal/collections/statemachine.go:271-283 | a replay at any place of any entry of an Update whose base holds the key gets the stored result and might as well be absent |
| ExactlyOnce.ReplayAfterRun | internal/collections/statemachine.go:263-362 | so it does after any run that recorded fewer than 4096 newer keys |
| ExactlyOnce.RetryGetsFirstAnswer | internal/collections/statemachine.go:263-362 | a retry in a later Update, fewer than 4096 newer keys later, is answered with the bytes the first caller was answered with and changes nothing; both may be coalesced |
| Directory.MetaRoundTrip | internal/collections/meta.go:43-66 | meta commands survive encoding |
| Directory.MetaSM.Update | internal/collections/meta.go:104-139 | all commands of the batch take effect in order, or none when one is malformed or unknown |
| Directory.AllOrNone | internal/collections/meta.go:104-139 | a batch is accepted if and only if every command of it decodes |
| Directory.LastNamingStays | internal/collections/meta.go:104-139 | after an accepted batch a range or a backup record is what the last command naming it said |
| Directory.UnnamedStays | internal/collections/meta.go:104-139 | what no command names stays as it was |
| Directory.RangeDirectory.RangeContaining | internal/collections/meta.go:248-257 | finds a covering range exactly when there is one |
| Directory.RangeDirectory.ShardFor | internal/collections/meta.go:235-245 | finds the owner of a collection, 0 when no range covers it |
| Directory.RangeDirectory.MaxShardID | internal/collections/meta.go:282-292 | the largest shard id of the directory |
| Directory.InitialPartition | internal/collections/control.go:350-372 | the initial range covers every routing key once |
| Directory.SplitPartition | internal/collections/control.go:236-242 | a completed split keeps every routing key in exactly one range |
| Directory.SplitOwners | internal/collections/control.go:190-252 | a split gives exactly [splitKey, old end) to the new shard |
| Directory.MergePartition | internal/collections/control.go:300-306 | a completed merge keeps every routing key in exactly one range |
| Directory.MergeOwners | internal/collections/control.go:258-313 | a merge gives exactly the right range to the left shard |
| Directory.RunsPartition | internal/collections/control.go:190-313 | after any sequence of completed splits and merges every routing key lies in exactly one range |
| Migrate.ScanRange | internal/collections/migrate.go:72-93 | the scan loop returns the rows of the range in order, all of them without a limit |
| Migrate.ScanIsSpan | internal/collections/migrate.go:72-93 | a scan of a shard yields exactly the rows whose routing key is in the range, once each |
| Migrate.RawShard.ApplyIngest | internal/collections/migrate.go:151-163 | an ingest writes every row of its payload, or none when it does not decode |
| Migrate.RawShard.ApplyPurge | internal/collections/migrate.go:164-178 | a purge removes exactly the rows of the range |
| Migrate.IngestInto | internal/collections/control.go:316-327 | ingesting in batches of 256 is ingesting the whole list |
| Migrate.IngestIsUnion | internal/collections/migrate.go:151-163 | ingested rows override, all others stay |
| Migrate.MoveRange | internal/collections/control.go:222-250 | scan, ingest and purge move exactly the rows of the range with their values |
| Migrate.MovesWhichRows | internal/collections/migrate.go:39-64 | a range holds a row exactly when it is a data or TTL row of a collection in the range |
| Migrate.UnroutedRowsStay | internal/collections/migrate.go:37-64 | dedup, ring, freeze and budget due rows are neither moved nor purged |
| Migrate.MergeExact | internal/collections/control.go:285-298 | the merged range equals the right shard's if and only if the left shard holds nothing there that the right one lacks |
| Migrate.MergeRevives | internal/collections/control.go:285-298 | a member left on the left shard and removed on the right comes back |
| Split.AcceptedAtHome | internal/collections/freeze.go:56-64 | in every reachable state a write accepted through any published directory lands on the shard that owns its routing key |
| Split.StepKeeps | internal/collections/control.go:190-252 | the invariant of the protocol is kept by client writes and by every step of the coordinator, giving up included |
| Split.NoAckedWriteLost | internal/collections/control.go:190-252 | in every run the rows of a routing key at the shard the last cut-over gave it are those of the acknowledged writes alone; the directory names that shard or none, and any earlier directory leads there or to a refusal |
| Split.IdlePartition | internal/collections/control.go:236-242 | between splits every routing key has exactly one shard if and only if no split was given up between its two directory writes |
| Split.SplitCompletes | internal/collections/control.go:190-252 | from every idle state a split inside a range can run to its end, the directory then being cut in two and the old shard holding nothing of what moved |
| Split.UnpurgedRowSurvives | internal/collections/control.go:244-250 | a row removed after a split that was given up before its purge comes back when the range is merged back |
| SplitRuns.TornRun | internal/collections/control.go:236-242 | for every collection, a run from a fresh cluster after which no range covers its routing key |
| SplitRuns.UnpurgedRun | internal/collections/control.go:190-250 | a run from a fresh cluster that removes a member which merging the range back brings back |
| SplitRuns.MergeMissesStaleWrites | internal/collections/control.go:285-311 | after a merge a client with the directory from before it is accepted if and only if no freeze on the right shard blocks it, and what it writes is not at the shard the directory names |
| SplitRuns.SplitThenMerge | internal/collections/control.go:190-311 | a run from a fresh cluster that ends in such a merge |
| SplitRuns.MergeLifts | internal/collections/control.go:293-297 | outside the merged range a merge lifts the left shard's fence at exactly the keys between that range's end and the end of the freeze row it removes, save those another freeze covers |
| SplitRuns.FenceLiftedRun | internal/collections/control.go:190-311 | a run from a fresh cluster after which a client of the first directory, refused before the merge, is accepted where the directory names another shard |
| Snapshot.SaveSnapshot | internal/collections/base_sm.go:70-94 | the stream is the applied index and the framed rows under the prefix |
| Snapshot.OpenExactly | internal/collections/base_sm.go:37-46 | a shard opens at the index whose eight bytes it stored, at 0 without one, and fails on anything else |
| Snapshot.SavedRows | internal/collections/base_sm.go:70-94 | the prefix scan yields exactly the shard's rows |
| Snapshot.ReadOfChunk | internal/collections/command.go:331-355 | a frame is read back with what follows it |
| Snapshot.StreamRoundTrip | internal/collections/command.go:331-355 | a stream of rows is read back to its clean end |
| Snapshot.CutStream | internal/collections/base_sm.go:103-144 | a stream cut off anywhere is refused if and only if the cut is inside a row; between two rows it reads as a complete stream of the rows before |
| Snapshot.ClearPrefix | internal/collections/base_sm.go:150-183 | deletes every key of the shard and no other, through the flushes at 1024 |
| Snapshot.Recover | internal/collections/base_sm.go:103-144 | installs the rows and the applied index of a sound stream, fails on a torn one, and never touches another shard |
| Snapshot.SnapshotReplaces | internal/collections/base_sm.go:55-144 | recovering a saved shard over any stale rows leaves the snapshot's rows and index, which Open reports |
| Snapshot.ReinstallAfterCrash | internal/collections/base_sm.go:98-102 | an install that stopped part-way is made good by running it again |
| Reshard.ShardForKey | internal/collections/directory.go:62-69 | a collection's shard is one of the n data shards, n = 0 counting as 1 |
| Reshard.FnvVectors | internal/collections/directory.go:57-69 | the hash has the published FNV-1a values |
| Reshard.ShardOfHash | internal/collections/directory.go:62-69 | the shard is two more than the remainder of the hash by the number of shards |
| Reshard.RowsReshard | internal/backup/logical_restore.go:36-52 | collection rows go to the collection's shard with the same suffix, bookkeeping and meta rows are dropped, no row is an error |
| Reshard.BadKeys | internal/collections/reshard.go:13-71 | a key stops the restore if and only if it has no shard prefix, or is a data shard's and has no sub-space, an unknown one, or no collection where one must be |
| Reshard.Restore | internal/backup/logical_restore.go:132-193 | succeeds exactly when every row is decided and the count is the manifest's, and then has written the re-routed rows through its batches of 1000 |
| Reshard.ApartExactly | internal/collections/reshard.go:13-41 | no two rows merge if and only if no row is held by two data shards |
| Reshard.OneHomeNoTwins | internal/collections/directory.go:57-69 | which holds when every collection lives on one data shard |
| Reshard.AllRowsDecided | internal/backup/logical_restore.go:36-52 | a store of meta keys and shard rows never aborts the restore |
| Reshard.ReshardPlaces | internal/backup/logical_restore.go:132-193 | every collection row is on the shard clients compute for it, with its value |
| Reshard.ReshardAddsOnly | internal/backup/logical_restore.go:132-193 | every other key of the target is as it was |
| Proposer.FilterLive | internal/collections/proposer.go:161-169 | the in-place filter keeps the live jobs in order and answers each cancelled one with its own error |
| Proposer.Propose | internal/collections/proposer.go:170-203 | alone, as a batch, on a failed proposal and on an undecodable result, the live jobs get the replies the specification lists |
| Proposer.CoalescesExactly | internal/collections/manager.go:285-294 | every command but those on budgets may share an entry, and no freeze, migration or batch |
| Proposer.Dispatch | internal/collections/proposer.go:160-204 | every job gets exactly one reply, its own |
| Proposer.OneReplyEach | internal/collections/proposer.go:160-204 | a caller that gave up is told its own error, a caller alone gets the answer to its command, and of a failed coalesced proposal every caller in it is told why |
| Proposer.GoneUnheard | internal/collections/proposer.go:161-169 | a caller that gave up is in no entry and changes no one else's reply |
| ResultRange.SubsInRange | internal/collections/statemachine.go:263-362 | every result a command gives, fresh or remembered, fits a uint64 |
| ResultRange.ReachedInRange | internal/collections/statemachine.go:184-259 | so does every remembered result at every point of every run from the empty store |
| Proposer.Transparent | internal/collections/proposer.go:160-204 | through batch encode, apply, result encode and decode the k-th caller gets the result its own command has when the commands run one after another, or all get an error when one is refused |
| Proposer.TransparentInRuns | internal/collections/proposer.go:160-204 | at every point of every run from the empty store |
| Proposer.CallerReads | internal/collections/proposer.go:186-203 | the caller of a coalesced command reads from its entry's result the answer that command was given |
| Proposer.TransparentAlone | internal/collections/proposer.go:174-179 | a command dispatched alone gets its own result; a refused one a zero result |
| Conflict.CompareTotal | internal/version/version.go:30-44 | equal exactly when every field is, and antisymmetric |
| Conflict.CompareMeans | internal/version/version.go:30-44 | positive exactly when the first version is later: larger physical clock, then logical clock, then cluster, member and sequence |
| Conflict.CompareTransitive | internal/version/version.go:30-44 | the version order is transitive |
| Conflict.ResolveLww | internal/conflict/hlc_lww.go:14-31 | a record that none of the delivered ones is later than, the incoming one on a tie; a tombstone exactly when its flag is set; rejected exactly when there is none |
| Conflict.SurvivorIsTop | internal/conflict/hlc_lww.go:14-31 | with survivors fed back, what stands carries the highest version delivered |
| Conflict.SurvivorLatest | internal/conflict/hlc_lww.go:14-31 | after any deliveries, fed back one by one, the survivor is one of them and none of them is later |
| Conflict.LwwConverges | internal/conflict/hlc_lww.go:14-31 | any order and repetition of the same records ends in the same record when one record carries the highest version |
| Conflict.LwwNeedsOneTop | internal/conflict/hlc_lww.go:14-31 | otherwise two orders end differently |
| Conflict.SortedValues | internal/conflict/keep_siblings.go:39-46 | the collected survivors in strict version order |
| Conflict.ResolveSiblings | internal/conflict/keep_siblings.go:19-54 | for every writer delivered one record that none of its others is later than, strictly in clock order; a single one is a winner, or a tombstone exactly when its flag is set |
| Conflict.WriterMeans | internal/conflict/keep_siblings.go:21-36 | the writer key is shared exactly by one cluster and member, or by names that run on into each other past a zero byte |
| Conflict.ByWriterTops | internal/conflict/keep_siblings.go:21-36 | each writer's record is one that none of its others beats |
| Conflict.DeliveredLists | internal/conflict/keep_siblings.go:19-54 | feeding survivors back loses nothing |
| Conflict.SiblingsConverge | internal/conflict/keep_siblings.go:19-54 | any order and repetition ends in the same list, one maximum record per writer in version order |
| Conflict.SiblingsNeedOneTop | internal/conflict/keep_siblings.go:19-54 | otherwise two orders end differently |
| Graph.LpRoundTrip | internal/graph/keys.go:24-51 | a length-prefixed string is read back with what follows it |
| Graph.UvarintFits | internal/graph/keys.go:24-51 | a length that is read fits 64 bits |
| Graph.NodeKeyInjective | internal/graph/keys.go:60-63 | different nodes have different record keys |
| Graph.IntKeyInScan | internal/graph/keys.go:149-160 | integer index bytes sort like the integers, so a range seek scans every larger value |
| Graph.Batch.PutNode | internal/graph/store.go:27-43 | appends the record and, unless a tombstone, exactly an entry for every label and every property under it |
| Graph.BatchIndex | internal/graph/store.go:27-64 | a batch adds to the index exactly the entries of the live nodes it writes and removes none |
| Graph.Store.Commit | internal/graph/store.go:64-64 | applies the batch and keeps every live record indexed |
| Graph.BatchKeeps | internal/graph/store.go:27-64 | any batch of node writes with overwrites and tombstones keeps records under their keys and live ones indexed |
| Graph.ScanLabel | internal/graph/index.go:10-31 | returns, once each, exactly the ids of the records that are live and carry the label |
| Graph.SeekProp | internal/graph/index.go:52-82 | the shared loop keeps exactly the hits whose id stands at the offset, once each |
| Graph.SeekProperty | internal/graph/index.go:34-37 | exactly the ids of live records with the label whose value of the property is the one sought and that the index has under it, once each, despite stale entries and string values that extend it; for every value but a zero double the index has them all |
| Graph.SeekPropertyGTE | internal/graph/index.go:40-49 | exactly the ids of live records with the label whose value of the property is an integer not below the bound, once each |
| Graph.ValueEqualMeans | internal/graph/index.go:206-223 | values are equal when kind and content are; doubles when neither is NaN and they are the same number |
| Graph.ZerosIndexedApart | internal/graph/index.go:206-223 | the two zeros are equal values whose index bytes differ |
| Backup.ResolveChain | internal/backup/clustermanifest.go:68-88 | ends on any store; returns the duplicate-free base-to-leaf path of parent links, and an error exactly when there is none |
| Backup.Node.LiveChildren | internal/backup/gc.go:151-163 | the recorded backups that name the id as parent |
| Backup.Node.DeletePrefix | internal/backup/gc.go:166-177 | removes exactly the objects under the id |
| Backup.Node.DeleteBackup | internal/backup/gc.go:119-148 | unknown id: nothing; live children without force: refused; otherwise, unless the backup depends on itself, exactly the backup and all that depends on it go, records and objects |
| Backup.CyclicDeleteGoesOn | internal/backup/gc.go:119-148 | a backup that depends on itself has a child that does: its forced deletion calls another |
| Backup.CycleSurvives | internal/backup/gc.go:119-148 | deletions of backups on no cycle leave the cycle as it is, so that deletion never returns |
| Backup.DeleteKeepsChains | internal/backup/gc.go:119-148 | no remaining backup loses its parent |
| Backup.ObjectsApart | internal/backup/gc.go:24-29 | two backups can share an object if and only if one's prefix extends the other's, never for ids without a slash |
| Backup.SweepIntents | internal/backup/gc.go:58-104 | the loop from any listing is the sweep of the lemmas below, catalogue, objects and stop |
| Backup.HasLiveChild | internal/backup/gc.go:107-114 | whether a listed child is believed live |
| Backup.SweepFresh | internal/backup/gc.go:58-104 | on a current listing the sweep never stops, and removes or rewrites only what is aged |
| Backup.SweepFields | internal/backup/gc.go:58-104 | on a current listing a record that is gone was complete, partial or failed with a retention time that has passed; a running one past its lease is failed, finished now and kept for the retention period; every other is unchanged |
| Backup.SweepCollects | internal/backup/gc.go:58-104 | and a backup past its retention time that no record names as parent when its turn comes is gone |
| Backup.SweepObjects | internal/backup/gc.go:58-104 | on any listing exactly the objects under removed backups are gone, and only backups whose row says they are past retention are removed |
| Backup.SweepSafe | internal/backup/gc.go:58-104 | on any listing, however stale, no record names as parent a backup the sweep removed |
| Backup.SweepChains | internal/backup/gc.go:58-104 | on any listing every chain stays whole if and only if each row given up has its parent in the catalogue or among the rows given up |
| Backup.StaleSweepBreaksAChain | internal/backup/gc.go:77-85 | a listing from before a chain was deleted brings its child back without the parent |
| Backup.SweepRewrites | internal/backup/gc.go:77-85 | on any listing a record is rewritten exactly when a listed row with an expired lease names it, and then from the listing |
| Backup.StaleSweepFailsACompletedBackup | internal/backup/gc.go:58-85 | a completed backup becomes a failed one |

## Left out

- Raft, transport, gRPC and Connect adapters, object stores, the storage engine: replication is an agreed list of entries, stores are maps, an iterator is a list of its rows.
- Protobuf, gob and JSON records: stored by value; strconv and floating-point addition are parameters.
- Clocks and contexts: stamps, deadlines and cancellations are inputs; the proposer's queue and window timers are not modelled, only `dispatch`.
- Storage faults: errors the code treats as fatal stop the replica and are not modelled.
- `opIngest` and `opPurge` entries that decode, inside a data shard's `Update`: modelled on raw rows in `Migrate`, not together with other commands of one batch; `ShardSM.Shard.Update` takes batches without them.
- Writes between the steps of a merge: the code assumes a quiescent range; the directory, the data movement and writes after it are modelled.
- Two coordinators splitting at once, and a timed-out proposal that commits after a later split began.
- Idempotency and budget due indexes across a split: the rows stay behind, see above.
- TTL pointers inside one batch: they are read from the store, so batch refinement is stated without expiries, and `Expiries.UpdateTidy` for Updates that name no member twice.
- Lookup queries other than the due scans, cardinality and the conservation probe.
- Graph edges, adjacency and `RebuildIndexes`; they add index keys under other prefixes only.
- Orphan reconciliation, backup destinations other than one store, and the export phases of a backup.
- HLL, latency scoring, disk gates, configuration, user interface: not part of this model.
- BudgetRuns.PacingBound: stated for runs without bad stamps; `BudgetRuns.NegativeStampsOverGrant` and `BudgetRuns.FarStampOverGrants` show the bound fails with them.
- BudgetSweeps.SweepLeavesNoneOverdue: stated for an unlimited scan; what a pass cut off at 1024 entries does is `BudgetSweeps.ScanExact` with `BudgetSweeps.SweepStored`. The second pass, which collects tombstones, is left out.
- Batching.PoisonIsolated: stated for entries before the last one; a skipped last entry still moves the applied index.
- Backup.Node.DeleteBackup: a forced deletion asks that the backup is on no cycle of parents; on one the code does not end (`Backup.CyclicDeleteGoesOn`).
- BudgetSweeps.SweepStored: asks that proposals are below 4 GiB, where the length comparison of takeChunk wraps.
- Proposer.Transparent: asks that wrapper and packed results are below 4 GiB, where the length comparison of takeChunk wraps.
