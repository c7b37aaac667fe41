# Verified model of Airchive's hard logic

Airchive records aircraft telemetry on a blockchain. This project models the parts of it where a
mistake would go unnoticed, and proves what they promise:

* **SPV pipeline** (`Hex`, `BlockMerkle`, `BumpPath`, `BlockHeaders`, `SpvPipeline`, `SpvWrites`,
  `SpvStore`, `TreeCache`): whole-block merkle trees, the separately written branch checker, the path that
  is stored, the header store with its reorg test, and the poller that matches blocks against pending rows.
* **Spend governor** (`SpendGovernor`, `GovernorRuns`, `GovernorHistory`): the timed posture machine and the
  one gate in front of every upstream.
* **Treasury pool** (`TreasurySelection`, `ChainDepth`, `ChainDepthRuns`, `SpendLedger`, `FundingPool`,
  `PoolRuns`): input selection, unconfirmed-chain depth over runs in which spends are broadcast first and
  recorded later, cooldowns, the spend ledger, and reconciliation with the chain.
* **Two concurrent protocols** (`FundingRecovery`, `FundingHistory`, `BroadcastQueue`, `BroadcastHistory`):
  treasury recovery and the ARC broadcaster, with every `await` between two of their writes a step boundary.
* **OP_RETURN codec** (`OpReturnCodec`), **flight phases** (`FlightPhases`), **event-stream framing**
  (`SseFraming`) and **dashboard trails** (`TrailStore`).

`Options`, `Lists` and `Numbers` hold shared vocabulary.

## How the model is built

Where the source updates state, a class or a method with loops does what it does and is proved equal to
a transition function; the theorems about whole runs are about those functions. Clocks, upstream
answers, database replies and timeouts are arguments of the step that consumes them, so a run
quantifies over all of them. The fee of a transaction is an arbitrary function of its input count.

A transition function says what one step does, not whether that is right. So each machine also has results
that do not mention its functions: what a run must log and answer, read off positions of its log
(`GovernorHistory`, `FundingHistory`, `BroadcastHistory`), what is held, spendable or verified afterwards, in
figures (`PoolRuns`, `SpvWrites`), and which byte stands where (`HeaderLayout`, `EnvelopeLayout`,
`ScriptLayout`, `ParentHashes`, `LeafBytes`).

The double hash is a parameter: any function to 32 bytes. A claim that depends on it being binding
says "or these two computations hashed different strings to one digest", naming the strings they
hashed. (That some collision exists is true of every hash of fixed width and would say nothing.) The
checker reads a provider's nodes unvalidated, so a string may hold what `parseInt` made of malformed
text. `RootBindsRealBranch` names strings of real bytes for well-formed nodes, and `RootBindsAnyBranch`
does so for any nodes under a hash that reads its input as bytes.

## What the code does, where it differs from what is said of it

* `spend-governor.ts:136-140` and `:294-296` say an unknown broadcast time is excluded. The code at
  `:302` counts it as current, and so does the model.
* `live-path-policy.ts:17` says confirmed entries go first when the depth tracker is full. The code at
  `:239-251` evicts depth first (`BoundDropsDepthFirst`). A new depth is kept if and only if confirmed
  outputs leave room for one entry (`NewDepthKeptExact`); when they fill the tracker it is forgotten at
  once (`ConfirmedCrowdOutDepth`).
* `funding-state.ts:614` says RECOVERING is never written back by `finishRecovery`. Its classification
  never is (`FinishClassifies`). Its closing alert rewrites the cached state, and leaves RECOVERING if and
  only if a tick cached that after the procedure cached its own classification and nothing was cached
  since (`FinishLeavesRecoveringExact`; `FinishAlertCanWriteRecovering` reaches it). The next undisturbed
  tick repairs it (`NextTickResumes`).
* `header-store.ts` stores a header fetched for one height under the height the header itself claims,
  without the reorg test, and merges a header whose hash it already holds. `FetchedHeaderExact` and
  `SyncedHeaderExact` say exactly when that keeps every verdict standing, `RecordExact` says it of any
  handler that reads a header and records verdicts, and `BumpExact`, `TscExact`, `DrainExact` and
  `BatchExact` of each one. `WrongHeightRun` and `WrongHeightHappens` give a run that records a false verdict.
* `confirmation-poller.ts:951` sets a stale row FAILED without looking at it again, which unmines a row
  verified in the meantime: sound if and only if the row has no verdict (`GiveUpExact`). The stamp at
  `:940-946` likewise moves the height of whatever the row has become: sound if and only if it has no
  verdict or the root at the new height is the one it was made against (`StampExact`).
* The proof-of-work test reads the two hashes inside a header with `parseInt`, so `+d` passes for `0d`. A
  header spelled that way has the bytes, hash and work of its original, fits every column, and is merged
  over it, after which no branch computes its root text: `PlusTwinRun` and `PlusTwinHappens` give a run
  that loses the SPV property this way. (Shifting a digit between the two fields passes the test as
  well, `UnevenTwin`, but the table's columns refuse it, and `StoredFieldsAre64`.)
* So the code checks none of: the height of an answer, the spelling of its hashes, the state of a row that
  is stamped or given up. `RunExact` says over all runs, with no assumption, that every verdict stands at
  every moment if and only if each event fits the state it meets, and `VerifiedRowsStayProved` covers the
  runs in which answers are of the height asked with well-formed hashes and a row stamped or given up has no
  disagreeing verdict.
* `drainHeight` skips rows that the same cycle already settled (`done`), so a pending row of the block is
  confirmed if and only if it is not among those.
* A broadcast retry that already holds a slot calls the upstream while the breaker is open, and nothing
  else does: `OpenUpstreamExact` for one step, `OpenUpstreamIsRetry` for whole runs, `RetryIgnoresBreaker`
  for a run in which it happens.
* A refill is broadcast first and recorded after an await. A reconcile in between can list its change; the
  record's plain insert then collides and the whole record is rolled back, depth included, so the change
  stays in the pool at depth 0 (`ListedChangeUndercounts`). `EventExact` says for every event whether the
  tracked depths stay above the true chains: a committing record needs its deepest tracked input to be no
  shallower than its deepest true parent, an aborting one needs a true chain of 0, and forgetting a live
  output needs the same. `RunExact` lifts it to runs, and `SpendTrueExact`, `OneInputExact` and
  `SecondSpendUndercounts` read it for one spend. Between a broadcast and its record an output has no
  tracked depth at all; `PoolEventExact` and `PoolRunExact` say the same of every output in the pool, where
  a listing before the record needs a true chain of 0 too.
* The upper bound of cap plus one fails when a record commits while its output is already held. That takes
  a reshape, whose insert ignores the listed row, or a row that was dropped again before a refill's record
  (`LateRecordBreaksBound`, and `LateRecordHappens` from a fresh process for every cap); `RecordBoundExact` is
  the exact condition, and on the refill path it holds by
  itself while held outputs keep their rows (`InsertIsNotLate`).
* A change output cools down after it is recorded, but the cooldown is dropped with its row. Dropped by one
  reconcile and listed by the next it may be spent at once (`DroppedChangeIsBackAtOnce`); otherwise it waits
  to the millisecond (`PicksWait`, `ChangeRejoins`).
* The flight-phase detector never counts an aircraft's first record towards a sustained stretch, except after
  a reset (`ResetFollowsHistory`).
* `flattenOpReturnScript` reads a four-byte push length of 2^31 or more as negative and moves its index back.
  It ends if and only if the index visits no place twice (`EndsExact`); on `6a 4e fb ff ff ff` it reads empty
  pushes for ever (`ReadsForever`).
* A least-recently-used tree cache that reads recency off the clock keeps the tree it just downloaded
  exactly when some older entry was not used later than now (`FullRememberEvictsOne`), so on any clock that
  does not go back (`StoredIsThere`).
* `hydrateTrails` is idempotent if and only if the restored points it stitches on start with an earliest one
  (`HydrateTwiceExact`); ascending histories do, and out of order a point is stitched on twice
  (`UnorderedHistoryRepeats`).
* `branchToBumpHex` recomputes the root of every path except a lone coinbase's (`OnlyCoinbaseIsUnchecked`),
  and its `^ 1` finds the sibling only below position 2^31 (`SiblingOffsetExact`).

## Model

| member | source | states |
|---|---|---|
| `Hex.HexToLeBytes` | services/blockchain-writer/src/block-merkle.ts:21-27 | the loop over pairs from the end computes the byte list used everywhere, malformed pairs included |
| `Hex.TextRoundTrip` | services/blockchain-writer/src/block-merkle.ts:21-35 | text of real bytes is lower-case hex of twice the length and reads back as those bytes |
| `Hex.HexRoundTrip` | services/blockchain-writer/src/block-merkle.ts:21-35 | well-formed lower-case text of even length is reproduced exactly |
| `Hex.TextInjective` | services/blockchain-writer/src/block-merkle.ts:29-35 | two byte lists with one text are equal as soon as one holds real bytes, so comparing roots as text is enough |
| `BlockMerkle.BuildBlockMerkleTree` | services/blockchain-writer/src/block-merkle.ts:54-106 | a tree is built exactly for non-empty lists of valid hashes; it holds the root, every level and the first position of each id |
| `BlockMerkle.ReadLeaves` | services/blockchain-writer/src/block-merkle.ts:54-68 | the list is refused exactly when some entry is not a hash; duplicates keep their first position |
| `BlockMerkle.StackLevels` | services/blockchain-writer/src/block-merkle.ts:69-84 | the level loop ends and stacks the levels from leaves to root |
| `BlockMerkle.PairUp` | services/blockchain-writer/src/block-merkle.ts:69-84 | one level is hashed pairwise, an odd last node with itself |
| `BlockMerkle.ParentHashes` | services/blockchain-writer/src/block-merkle.ts:69-84 | in figures: a parent is the hash of 64 bytes, the left child and then the right one, or the left one again at an odd end |
| `BlockMerkle.LeafBytes` | services/blockchain-writer/src/block-merkle.ts:21-27 | byte k of a leaf is the pair of digits k places from the end of its transaction id |
| `BlockMerkle.BranchFor` | services/blockchain-writer/src/block-merkle.ts:86-105 | the walk over retained levels returns the branch of the index, `*` where a node pairs with itself |
| `BlockMerkle.ComputeTscRoot` | services/blockchain-writer/src/confirmation-poller.ts:1160-1182 | the replay loop answers a root, or nothing for a negative index or a node that is not 32 bytes |
| `BlockMerkle.BranchReplays` | services/blockchain-writer/src/block-merkle.ts:86-105 | for every level and position, replaying the node's own branch gives the tree's root, odd levels included |
| `BlockMerkle.BranchProvesInclusion` | services/blockchain-writer/src/confirmation-poller.ts:1160-1182 | prover and checker agree for every valid list and every index |
| `BlockMerkle.RootBindsLeaves` | services/blockchain-writer/src/block-merkle.ts:69-84 | equal-length levels with one root are equal, or the two trees hashed different bytes to one digest |
| `BlockMerkle.RootBindsList` | services/blockchain-writer/src/block-merkle.ts:54-84 | two valid id lists of one length with one root are the same list, or a named collision |
| `BlockMerkle.RootBindsBranch` | services/blockchain-writer/src/confirmation-poller.ts:1160-1182 | a branch of the tree's depth that reaches the root from position i starts at node i, or two different strings that tree and branch hashed have one hash |
| `BlockMerkle.RootBindsRealBranch` | services/blockchain-writer/src/confirmation-poller.ts:1160-1182 | when the nodes are `*` or hexadecimal those are strings of real bytes |
| `BlockMerkle.RootBindsAnyBranch` | services/blockchain-writer/src/confirmation-poller.ts:1160-1182 | for nodes of any text and a hash that reads bytes: the value the branch starts from, as bytes, is node i, or strings of real bytes collide |
| `BlockMerkle.RootBindsPosition` | services/blockchain-writer/src/confirmation-poller.ts:1160-1182 | any branch of the tree's depth accepted at index i < n is for a text that reads as leaf i, or two different hashed strings collide, of real bytes when text and nodes are hexadecimal |
| `BlockMerkle.RootBindsAnyText` | services/blockchain-writer/src/confirmation-poller.ts:1160-1182 | whatever text and nodes hold, under a hash that reads bytes: the text's bytes are leaf i's, or strings of real bytes collide |
| `BlockHeaders.HashTextsWithOneReading` | services/blockchain-writer/src/block-merkle.ts:60-67 | so among texts that are hashes that is leaf i's own text, in any letter case: two hash texts with one reading are one |
| `BumpPath.BranchToBumpHex` | services/blockchain-writer/src/block-merkle.ts:118-157 | the assembled path is kept exactly when the SDK recomputes the expected root from it; an empty branch is a coinbase |
| `BumpPath.OnlyCoinbaseIsUnchecked` | services/blockchain-writer/src/block-merkle.ts:111-117 | whatever is kept reproduces the expected root, except the path of a lone coinbase |
| `BumpPath.SiblingOffsetExact` | services/blockchain-writer/src/block-merkle.ts:130-134 | the 32-bit `^ 1` is the sibling's position if and only if the position is below 2^31 |
| `BumpPath.PositionIsQuotient` | services/blockchain-writer/src/block-merkle.ts:130 | dividing by 2^depth is halving once per level |
| `BumpPath.PathCarriesBranch` | services/blockchain-writer/src/block-merkle.ts:128-144 | a reader that only knows the index recovers every branch entry from the offsets, exactly below 2^31 |
| `BumpPath.FirstLevelOrdered` | services/blockchain-writer/src/block-merkle.ts:136-140 | the first level is in increasing offset and marks the transaction at its index only |
| `BumpPath.BlockPathProves` | services/blockchain-writer/src/block-merkle.ts:118-157 | the path of any transaction of a block, read by offsets, convinces the checker; each entry is the tree's node at its offset, a duplicate exactly past the level's end |
| `BlockHeaders.RootInside` | services/blockchain-writer/src/header-store.ts:264-274 | a well-formed header is 80 bytes with the root's bytes at 36 to 68 |
| `BlockHeaders.HeaderLayout` | services/blockchain-writer/src/header-store.ts:251-274 | every field of a well-formed header at its place in the 80 bytes: version, previous hash, root, time, bits and nonce, the numbers read least significant byte first modulo 2^32 |
| `BlockHeaders.TargetScales` | services/blockchain-writer/src/header-store.ts:276-283 | the compact target: the three low bytes at exponent 3, times 256 for each exponent more, divided by 256 for each less, and 32 bits only |
| `BlockHeaders.TargetBound` | services/blockchain-writer/src/header-store.ts:276-283 | at exponent e it has at most e bytes |
| `BlockHeaders.ValueJoins` | services/blockchain-writer/src/header-store.ts:290-306 | the digest is compared as a number whose first byte is the least significant |
| `BlockHeaders.SameHashSameRoot` | services/blockchain-writer/src/header-store.ts:264-306 | two accepted well-formed headers with one hash carry one root, or their bytes collide |
| `BlockHeaders.UnevenTwin` | services/blockchain-writer/src/header-store.ts:290-306 | every accepted well-formed header has a twin of the same hash and another root that the proof-of-work test accepts, because only the total length is tested; its previous hash fits no column |
| `BlockHeaders.StoredFieldsAre64` | packages/db/src/migrations/009_spv_headers_and_proofs.ts:14-24 | what the test accepts and the columns hold has 64 characters in each of the three hash fields |
| `BlockHeaders.PlusTwinPasses` | services/blockchain-writer/src/header-store.ts:255-262 | a header with a 0 at an even place of its root has a twin with a plus sign there that has its bytes, hash and field lengths, passes, and spells another root |
| `SpvPipeline.VerifiedRowsStayProved` | services/blockchain-writer/src/spv.ts:22-151 | over every run of handlers whose answers are of the height asked with well-formed hashes and whose blind writes meet no disagreeing verdict, a verified row is MINED and its id is proved into the root of the header now held at its height, or two served headers collide |
| `SpvPipeline.RunExact` | services/blockchain-writer/src/spv.ts:22-151 | over every run, with no assumption: at every moment each verdict stands against the header now held at its height if and only if each event fits the state it meets |
| `SpvPipeline.StepExact` | services/blockchain-writer/src/confirmation-poller.ts:589-964 | for each kind of event the exact condition on the state before it |
| `SpvPipeline.RunStaysGood` | services/blockchain-writer/src/header-store.ts:86-164 | the inductive invariant behind it: memo agrees with the table, cached trees match their roots, verdicts match held headers |
| `SpvPipeline.ReorgWithdrawsExactly` | services/blockchain-writer/src/header-store.ts:146-164 | a reorg removes one header and withdraws exactly the verdicts made against it, leaving every other row as it was |
| `SpvPipeline.FetchedHeaderExact` | services/blockchain-writer/src/header-store.ts:63-84 | storing a fetched header keeps every verdict standing if and only if it is of the asked height, or hits no verdicts, or carries the held root |
| `SpvPipeline.StoreExact` | services/blockchain-writer/src/header-store.ts:201-205 | overwriting a header keeps the invariant if and only if no verdict stands at its height or the root is the same |
| `SpvPipeline.SyncedHeaderExact` | services/blockchain-writer/src/header-store.ts:117-144 | one synced header keeps every verdict standing if and only if it is not merged over a header of the same hash and another root under a verdict |
| `SpvPipeline.SyncIsRun` | services/blockchain-writer/src/header-store.ts:86-144 | a sync of the tip is a run of its headers, ended by the first whose insert is refused |
| `SpvPipeline.RecordExact` | services/blockchain-writer/src/header-store.ts:63-84 | any handler that reads a header and records verdicts at the height asked keeps every verdict standing if and only if a header it fetched is of that height, or it records none and the header puts no other root under one; each new verdict is proved exactly in the first case |
| `SpvPipeline.BumpExact` | services/blockchain-writer/src/spv.ts:22-94 | a BUMP: the exact condition, and a positive verdict is proved if and only if a header fetched for it is of the claimed height |
| `SpvPipeline.TscExact` | services/blockchain-writer/src/confirmation-poller.ts:347-388 | the same for a TSC proof, and for the height stamp that follows a failed one |
| `SpvPipeline.DrainExact` | services/blockchain-writer/src/confirmation-poller.ts:589-629 | the same for a block drain, whatever rows it confirms |
| `SpvPipeline.BatchExact` | services/blockchain-writer/src/confirmation-poller.ts:687-784 | the same for a batch checked against a downloaded block |
| `SpvPipeline.WrongHeightRun` | services/blockchain-writer/src/header-store.ts:63-84 | from an empty store, one header of another height and its one-transaction block record a verdict that is not proved |
| `SpvPipeline.WrongHeightHappens` | services/blockchain-writer/src/header-store.ts:290-306 | such a hash and header exist for every height asked |
| `SpvPipeline.PlusTwinRun` | services/blockchain-writer/src/header-store.ts:117-144 | from an empty store, a drained block and then its own header served with a plus sign in its root leave a verified row that is not proved |
| `SpvPipeline.PlusTwinHappens` | services/blockchain-writer/src/header-store.ts:290-306 | such a hash and header exist at every height |
| `SpvPipeline.StampExact` | services/blockchain-writer/src/confirmation-poller.ts:940-946 | the stamp, which looks at no status, is sound if and only if the row has no verdict or the root at the new height is the proven one |
| `SpvPipeline.GiveUpExact` | services/blockchain-writer/src/confirmation-poller.ts:885-954 | giving a row up is sound if and only if it has no verdict; the guarded rejection always is |
| `SpvPipeline.StepKeeps` | services/blockchain-writer/src/confirmation-poller.ts:589-964 | every handler keeps the invariant for well-formed answers to the height asked and blind writes that meet no disagreeing verdict, or two served headers collide |
| `SpvPipeline.TreeIncludes` | services/blockchain-writer/src/confirmation-poller.ts:712-784 | membership in a tree checked against a root is inclusion in that root, whatever the letter case |
| `SpvWrites.SyncedHeaderIsHeld` | services/blockchain-writer/src/header-store.ts:116-164 | one served header: passed over if it fails its proof of work; held at its height, in table and memo, with nothing else moved, if it passes, fits and is not held elsewhere; otherwise only a differing header it replaces is gone |
| `SpvWrites.SyncedTipIsHeld` | services/blockchain-writer/src/header-store.ts:86-144 | a whole sync: each height holds the last passing header served for it before the first refused insert, every other height what it held |
| `SpvWrites.BumpGives` | services/blockchain-writer/src/spv.ts:22-94 | which row a BUMP verifies, and what every other row keeps |
| `SpvWrites.TscGives` | services/blockchain-writer/src/confirmation-poller.ts:347-388 | which row a TSC proof verifies: root, target and branch must all agree with the held header |
| `SpvWrites.TreeGiven` | services/blockchain-writer/src/confirmation-poller.ts:636-685 | a block tree is handed out exactly when a header is at hand and the cached list, or else the downloaded one, hashes to its root |
| `SpvWrites.BatchGives` | services/blockchain-writer/src/confirmation-poller.ts:687-784 | a batch verifies exactly its rows that the block contains, except those past pending with an assembled path |
| `SpvWrites.OwnTargetsMatch` | services/blockchain-writer/src/confirmation-poller.ts:162-190 | which proof targets are accepted: exactly the root, the whole header in hexadecimal, or exactly the hash, in any letter case |
| `SpvWrites.OtherRootsDoNotMatch` | services/blockchain-writer/src/confirmation-poller.ts:162-190 | 80 bytes as a target are accepted if and only if bytes 36 to 68 are the root |
| `SpvStore.SpvStore.Store` | services/blockchain-writer/src/header-store.ts:201-205 | table and memo are written together, or neither when the insert is refused |
| `SpvStore.SpvStore.GetHeader` | services/blockchain-writer/src/header-store.ts:63-84 | memo, then table, then a fetched header that passes its proof of work; a refused insert throws |
| `SpvStore.SpvStore.DetectReorg` | services/blockchain-writer/src/header-store.ts:146-164 | the conditional updates compute the reorg step on the whole state |
| `SpvStore.SpvStore.SyncTip` | services/blockchain-writer/src/header-store.ts:86-144 | the loop over served headers computes the sync, passing over those that fail their proof of work and ending at a refused insert |
| `SpvStore.SpvStore.EnsureTree` | services/blockchain-writer/src/confirmation-poller.ts:636-685 | a cached tree is used only under the held root, dropped otherwise; a downloaded list is kept only when it hashes to that root |
| `SpvStore.SpvStore.Report` | services/blockchain-writer/src/index.ts:988-993 | a reported height is kept only on a row that is not mined and has none |
| `SpvStore.SpvStore.MarkRejected` | services/blockchain-writer/src/confirmation-poller.ts:885-900 | a rejection fails a row unless it is mined |
| `SpvStore.SpvStore.MarkFailed` | services/blockchain-writer/src/confirmation-poller.ts:949-954 | a stale row is failed whatever it has become |
| `SpvStore.SpvStore.RecordVerifiedProofsBatch` | services/blockchain-writer/src/spv.ts:96-135 | any chunking writes exactly the rows that are still pending |
| `SpvStore.SpvStore.SelectPending` | services/blockchain-writer/src/confirmation-poller.ts:589-629 | the query returns the pending rows among a chunk of ids, each once |
| `SpvStore.SpvStore.ConfirmRowsFromTree` | services/blockchain-writer/src/confirmation-poller.ts:712-784 | the three groups written after sorting are the batch step on the rows; the count is of newly settled ids |
| `SpvStore.SortBatch` | services/blockchain-writer/src/confirmation-poller.ts:712-784 | one pass sorts each row of the batch into its group, once, and marks it done |
| `SpvStore.SpvStore.MatchBlock` | services/blockchain-writer/src/confirmation-poller.ts:589-629 | for any chunk size, exactly the pending rows of the block that were not done are confirmed |
| `SpvStore.SpvStore.DrainHeight` | services/blockchain-writer/src/confirmation-poller.ts:589-629 | the drain computes one step on the whole state, independent of chunk size |
| `SpvStore.ChunkConfirms` | services/blockchain-writer/src/confirmation-poller.ts:605-625 | one more chunk confirms exactly its own pending rows, whatever earlier chunks wrote |
| `SpvStore.DrainedBlock` | services/blockchain-writer/src/confirmation-poller.ts:589-629 | after a drain a pending row of the block is mined at that height if and only if it was not done, no pending row carries the height, no other row changed status |
| `TreeCache.BlockTrees.RememberBlockTree` | services/blockchain-writer/src/confirmation-poller.ts:390-415 | insertion and the eviction loop, with ties settled by map order |
| `TreeCache.BlockTrees.GetCachedBlockTree` | services/blockchain-writer/src/confirmation-poller.ts:417-422 | a hit refreshes its stamp and keeps its place in map order |
| `TreeCache.FindOldest` | services/blockchain-writer/src/confirmation-poller.ts:404-412 | the scan finds the first least recently used height |
| `TreeCache.FullRememberEvictsOne` | services/blockchain-writer/src/confirmation-poller.ts:390-415 | a full cache loses one least recently used tree and nothing else; the new one stays if and only if an old one was used no later than now |
| `TreeCache.CacheIsSortedList` | services/blockchain-writer/src/confirmation-poller.ts:390-422 | on every clock the cache holds what a list of at most four heights does that is sorted by last use, ties by map order, and loses its head when full |
| `TreeCache.CacheIsRecency` | services/blockchain-writer/src/confirmation-poller.ts:390-422 | while every call has a new time, that is the four most recently used heights not dropped |
| `TreeCache.StoredIsThere` | services/blockchain-writer/src/confirmation-poller.ts:676-684 | on a clock that never goes back, a tree just stored is found by a lookup in the same millisecond |
| `SpendGovernor.SpendGovernor.RecordVerdict` | services/blockchain-writer/src/spend-governor.ts:255-314 | the branches of recording a verdict compute one transition; an unknown broadcast time is current |
| `SpendGovernor.SpendGovernor.TrimWindow` | services/blockchain-writer/src/spend-governor.ts:316-323 | the index loop drops the stale prefix |
| `SpendGovernor.SpendGovernor.GetPosture` | services/blockchain-writer/src/spend-governor.ts:325-401 | evaluation of pause, trial, cooldown and window computes one transition and posture |
| `SpendGovernor.SpendGovernor.AllowsBroadcast` | services/blockchain-writer/src/spend-governor.ts:207-221 | the gate's question, asked of the evaluated state |
| `SpendGovernor.GovernedBroadcaster.Send` | services/blockchain-writer/src/governed-broadcaster.ts:48-68 | check, increment and refusal bookkeeping are one step on governor and gate; says exactly when a transaction is passed on |
| `GovernorRuns.RunTracks` | services/blockchain-writer/src/spend-governor.ts:325-401 | in every run with a nondecreasing clock the log satisfies an independent monitor of dispatches, halts and trials |
| `GovernorRuns.RefusalIsAmortised` | services/blockchain-writer/src/spend-governor.ts:357-401 | on the log from the first halt until a trial clears, at every moment: dispatches are at most probeBudget per trial opened, the j-th halt cools down for min(max, base·2^min(j,16)), and the cooldowns waited for sum to at most the elapsed time |
| `GovernorRuns.TrialIsBounded` | services/blockchain-writer/src/spend-governor.ts:187-221 | a trial passes at most probeBudget transactions, none after its settle stamp or a current rejection |
| `GovernorRuns.NothingSentInCooldown` | services/blockchain-writer/src/spend-governor.ts:390-401 | nothing is sent between a halt's start and the end of its cooldown |
| `GovernorRuns.CooldownDoubles` | services/blockchain-writer/src/spend-governor.ts:390-396 | the first cooldown is the base, each next one doubles it up to the maximum |
| `GovernorHistory.RunFollowsLog` | services/blockchain-writer/src/spend-governor.ts:325-386 | in every run each call logs and answers what the log before it calls for, read off positions: halts and their lengths, trials opened, sealed, cleared or rejected, the share of rejections in the window, and whether a transaction may pass |
| `GovernorHistory.OnlyCleanTrialsClear` | services/blockchain-writer/src/spend-governor.ts:357-386 | in every run, between a trial's opening and its clearing there is no rejection, and it was sealed at least the settle time before |
| `GovernorHistory.RejectedTrialHalts` | services/blockchain-writer/src/spend-governor.ts:361-364 | in every run, the first evaluation after a rejection of an open trial begins a halt and shows HALTED |
| `GovernorHistory.SettledTrialClears` | services/blockchain-writer/src/spend-governor.ts:373-386 | in every run, a clean trial sealed that long ago clears at the next evaluation |
| `GovernorRuns.TrimIsFilter` | services/blockchain-writer/src/spend-governor.ts:316-323 | dropping a prefix is filtering the whole ordered list by the window |
| `GovernorRuns.RunEvidence` | services/blockchain-writer/src/spend-governor.ts:255-323 | over every run the evidence is in time order, never of the future, and empty throughout a halt |
| `GovernorRuns.StaleChangesNothing` | services/blockchain-writer/src/spend-governor.ts:255-314 | a run and the run without its stale rejections make the same decisions and end alike |
| `GovernorRuns.StaleInsertionsAreInvisible` | services/blockchain-writer/src/spend-governor.ts:298-314 | two runs that differ only in stale rejections cannot be told apart by postures or dispatches |
| `TreasurySelection.LargestAreWorthMost` | services/blockchain-writer/src/funding-utxo-manager.ts:207-293 | no set of k outputs is worth more than the k largest |
| `TreasurySelection.GreedyIsFewest` | services/blockchain-writer/src/funding-utxo-manager.ts:225-262 | for any fee function the prefix taken covers the spend and no smaller set does |
| `TreasurySelection.GreedyFailureIsReal` | services/blockchain-writer/src/funding-utxo-manager.ts:247-281 | when no prefix covers, no set of 1 to cap outputs does |
| `FundingPool.FundingUtxoManager.SelectGreedily` | services/blockchain-writer/src/funding-utxo-manager.ts:225-262 | the pass takes eligible outputs in order and stops at the first covering size |
| `FundingPool.FundingUtxoManager.Choose` | services/blockchain-writer/src/funding-utxo-manager.ts:207-281 | the choice is best among eligible rows, and an empty one gives the right reason |
| `FundingPool.FundingUtxoManager.AcquireMany` | services/blockchain-writer/src/funding-utxo-manager.ts:207-293 | on success the fewest candidates that pay for themselves are locked, on failure none could, and no other row is touched; each picked row was unlocked, worth 546, past its cooldown and no deeper than the cap, and a listed row is a candidate exactly when it is all that; cooldowns that are over are pruned |
| `PoolRuns.CoolingIsLogged` | services/blockchain-writer/src/funding-utxo-manager.ts:954-965 | over every run from any rows: an output waits exactly while the last event that made or ended it made it less than a cooldown ago |
| `PoolRuns.PicksWait` | services/blockchain-writer/src/funding-utxo-manager.ts:206-262 | no pick takes an output that a recorded spend or a reshape has created before its whole cooldown has passed |
| `PoolRuns.ChangeRejoins` | services/blockchain-writer/src/funding-utxo-manager.ts:336-372 | from then on it may be picked exactly while nothing holds it, it is worth 546 and its depth is within the cap |
| `PoolRuns.DroppedChangeIsBackAtOnce` | services/blockchain-writer/src/funding-utxo-manager.ts:866-872 | dropped by one forced reconcile and listed by the next, a change is back without its cooldown or depth |
| `FundingPool.FundingUtxoManager.RecordSpendMany` | services/blockchain-writer/src/funding-utxo-manager.ts:327-372 | the transaction commits unless the change row exists; on commit rows, cooldowns, depth and ledger are what they must be, otherwise nothing changes |
| `FundingPool.RecordAgrees` | services/blockchain-writer/src/funding-utxo-manager.ts:334-355 | a refill's record commits exactly when a plain insert of its outputs would, as the runs of the treasury have it |
| `FundingPool.FundingUtxoManager.FinishReshape` | services/blockchain-writer/src/funding-utxo-manager.ts:724-742 | after an accepted reshape the inputs are swapped for the outputs, cooldowns, depth and ledger with them, whatever rows are already there |
| `FundingPool.ReshapeAgrees` | services/blockchain-writer/src/funding-utxo-manager.ts:733-741 | the rows are then the outputs and what the inputs left, and a row already there keeps its contents |
| `FundingPool.FundingUtxoManager.RememberSpent` | services/blockchain-writer/src/funding-utxo-manager.ts:910-927 | both memories after a spend: exact within capacity, and past it full of the newest entries |
| `FundingPool.FundingUtxoManager.LoadFundingChain` | services/blockchain-writer/src/funding-utxo-manager.ts:789-885 | the two passes compute reconciliation: rows, cooldowns of deleted rows, the ledger's deletions on lookup, and the confirmations and forgotten depths of the tracker |
| `FundingPool.ReconcileDepths` | services/blockchain-writer/src/funding-utxo-manager.ts:835-872 | short of eviction, exactly the depths of confirmed listings and deleted rows are forgotten |
| `FundingPool.ForcedIsExact` | services/blockchain-writer/src/funding-utxo-manager.ts:789-885 | forced, the outpoints become those shared with the chain plus every listing of at least 546 sats, shared rows unchanged |
| `FundingPool.GuardHolds` | services/blockchain-writer/src/live-path-policy.ts:111-129 | guarded, no row created, spent or broadcast inside the window is deleted, no recent spend is reinserted, and the rest follows the chain exactly |
| `FundingPool.SecondRunChangesNothing` | services/blockchain-writer/src/funding-utxo-manager.ts:789-885 | a second run on the same snapshot and clock changes neither pool nor ledger |
| `SpendLedger.Oldest` | services/blockchain-writer/src/live-path-policy.ts:175-187 | the scan finds an entry of least time |
| `SpendLedger.EvictOldest` | services/blockchain-writer/src/live-path-policy.ts:175-187 | eviction ends at the bound, not below it, and what stays is never older than what went |
| `SpendLedger.NotesCompose` | services/blockchain-writer/src/live-path-policy.ts:140-150 | noting entry after entry keeps the newest of all of them |
| `SpendLedger.RecentSpendLedger.NoteSpent` | services/blockchain-writer/src/live-path-policy.ts:140-143 | an entry is added, others are lost only over the bound, oldest first |
| `SpendLedger.RecentSpendLedger.SpentAtIfFresh` | services/blockchain-writer/src/live-path-policy.ts:152-173 | the answer is the entry if inside the window; a lookup deletes one outside it |
| `ChainDepth.FundingChainDepth.Remember` | services/blockchain-writer/src/funding-utxo-manager.ts:910-927 | the two loops forget the inputs and track the change one deeper than the deepest |
| `ChainDepth.FundingChainDepth.EvictToBound` | services/blockchain-writer/src/live-path-policy.ts:239-251 | eviction in the code's order: oldest depth first, then oldest confirmed |
| `ChainDepth.SpendExact` | services/blockchain-writer/src/funding-utxo-manager.ts:910-927 | within capacity a spend gives its outputs the deepest input's depth plus one and changes no unrelated output |
| `ChainDepth.SpendBoundExact` | services/blockchain-writer/src/live-path-policy.ts:207-224 | a spend keeps every depth within cap plus one if and only if each input was within the cap |
| `ChainDepth.BoundDropsDepthFirst` | services/blockchain-writer/src/live-path-policy.ts:239-251 | eviction takes the oldest depth entries, and a confirmed one only after every depth entry is gone |
| `ChainDepth.NewDepthKeptExact` | services/blockchain-writer/src/live-path-policy.ts:215-224 | a new depth is kept if and only if confirmed outputs leave room for an entry |
| `ChainDepth.ConfirmedCrowdOutDepth` | services/blockchain-writer/src/live-path-policy.ts:239-251 | a tracker full of confirmed outputs forgets each new depth at once |
| `ChainDepthRuns.RunKeepsBound` | services/blockchain-writer/src/live-path-policy.ts:196-252 | in every run of broadcasts, records, reconciles and releases under the guards, every tracked depth is at most cap plus one |
| `ChainDepthRuns.RecordBoundExact` | services/blockchain-writer/src/funding-utxo-manager.ts:910-927 | a record keeps the bound if and only if it aborts, or its inputs are within the cap and no output it makes too deep is held |
| `ChainDepthRuns.LateRecordBreaksBound` | services/blockchain-writer/src/funding-utxo-manager.ts:725-742 | an output acquired before its own record commits is spent on to depth cap plus two, through a reshape or after its row was dropped |
| `ChainDepthRuns.LateRecordHappens` | services/blockchain-writer/src/auto-refill.ts:611-658 | for every cap and both kinds of insert a fresh process reaches it, with every guard of the code respected |
| `ChainDepthRuns.EventExact` | services/blockchain-writer/src/funding-utxo-manager.ts:327-372 | for every event, whether tracked depths stay above true chains, as a condition on the state before it |
| `ChainDepthRuns.RunExact` | services/blockchain-writer/src/live-path-policy.ts:196-252 | a run stays above throughout if and only if each of its events meets that condition |
| `ChainDepthRuns.PoolEventExact` | services/blockchain-writer/src/funding-utxo-manager.ts:789-885 | the same exact condition for every output in the pool, those listed before their spend's record included |
| `ChainDepthRuns.PoolRunExact` | services/blockchain-writer/src/funding-utxo-manager.ts:789-885 | lifted to every prefix of a run |
| `ChainDepthRuns.RunKeepsTrue` | services/blockchain-writer/src/live-path-policy.ts:196-252 | runs whose records commit on recorded, unforgotten inputs, and that forget depths only by spend or for mined outputs, never track a live output below its longest unconfirmed chain |
| `ChainDepthRuns.DepthsFromStart` | services/blockchain-writer/src/live-path-policy.ts:189-200 | both bounds, and the exact form, for every run of a freshly started process |
| `ChainDepthRuns.ListedChangeUndercounts` | services/blockchain-writer/src/auto-refill.ts:611-686 | a change listed between its broadcast and its record stays in the pool at depth 0, below its chain |
| `ChainDepthRuns.SpendTrueExact` | services/blockchain-writer/src/funding-utxo-manager.ts:910-927 | one spend of any inputs keeps the bound if and only if the deepest tracked input is not below the deepest true parent |
| `ChainDepthRuns.OneInputExact` | services/blockchain-writer/src/funding-utxo-manager.ts:910-927 | with one input: if and only if that input's tracked depth is not below its true chain |
| `ChainDepthRuns.SecondSpendUndercounts` | services/blockchain-writer/src/funding-utxo-manager.ts:910-927 | a second spend of one output tracks its child at depth 1, below the truth |
| `FundingRecovery.RunKeeps` | services/blockchain-writer/src/funding-state.ts:221-694 | the invariant of all interleavings of ticks, steps, timeouts, completions, failed writes, stops, restarts and crashes |
| `FundingRecovery.RecoveryIsSafe` | services/blockchain-writer/src/funding-state.ts:437-612 | from any persisted state at most one recovery runs, and once one of its steps times out it starts no later spending step |
| `FundingRecovery.FinishClassifies` | services/blockchain-writer/src/funding-state.ts:615-675 | in figures: finishing persists DRY if it read no outputs or a balance below the dry threshold, LOW from there up to the low threshold, HEALTHY above, never RECOVERING |
| `FundingHistory.TickPersists` | services/blockchain-writer/src/funding-state.ts:328-394 | in figures, in every run: what an ordinary tick persists from the row it read and the balance and count it saw last, or from a skipped dry poll |
| `FundingHistory.TickActs` | services/blockchain-writer/src/funding-state.ts:328-380 | a tick starts a recovery exactly when it saw money after DRY, none is in flight and nobody asked to stop; it alerts exactly on entering DRY or on falling from HEALTHY to LOW |
| `FundingHistory.RecoveringStays` | services/blockchain-writer/src/funding-state.ts:221-275 | until a procedure writes its result a persisted RECOVERING stays, through ticks, failures, stops and crashes |
| `FundingHistory.TickLeavesRecovery` | services/blockchain-writer/src/funding-state.ts:221-240 | a tick that reads RECOVERING while a recovery is in flight changes nothing |
| `FundingHistory.RecoverySteps` | services/blockchain-writer/src/funding-state.ts:477-593 | in every run each recovery begins with the reconcile, repeats a failed step while attempts are left, goes on to the next after a settled one, and reads the final figures after the last or after a timeout |
| `FundingHistory.SteppedClimbs` | services/blockchain-writer/src/funding-state.ts:477-593 | so the steps climb in order, each begun at least once before the next and at most as often as allowed |
| `FundingHistory.AllWorksTried` | services/blockchain-writer/src/funding-state.ts:477-593 | a recovery that reads its final figures without a timeout has tried all four steps |
| `FundingHistory.WorksInOrder` | services/blockchain-writer/src/funding-state.ts:477-538 | no recovery goes back to an earlier step |
| `FundingRecovery.FinishAlertExact` | services/blockchain-writer/src/funding-state.ts:870-923 | the closing alert persists RECOVERING if and only if the cached state says so |
| `FundingRecovery.FinishLeavesRecoveringExact` | services/blockchain-writer/src/funding-state.ts:684-694 | in every run: if and only if a tick cached RECOVERING after this procedure cached its classification, and nothing was cached since |
| `FundingRecovery.FinishAlertCanWriteRecovering` | services/blockchain-writer/src/funding-state.ts:684-694 | a reachable interleaving in which the closing alert leaves RECOVERING and then nobody is recovering |
| `FundingRecovery.NextTickResumes` | services/blockchain-writer/src/funding-state.ts:221-394 | a persisted RECOVERING with none running is resumed by the next tick that is not disturbed |
| `BroadcastQueue.SingleArcBroadcaster.Send` | services/blockchain-writer/src/broadcaster.ts:340-378 | admission, insertion by priority and sequence, and scheduling are one step |
| `BroadcastQueue.SingleArcBroadcaster.RunSchedule` | services/blockchain-writer/src/broadcaster.ts:405-421 | the loop fills free slots from the front of the queue unless the breaker is open |
| `BroadcastQueue.SingleArcBroadcaster.HandleAnswer` | services/blockchain-writer/src/broadcaster.ts:441-521 | one upstream answer is noted: a success, a retry, or a failure that may open the breaker; the slot is kept |
| `BroadcastQueue.SingleArcBroadcaster.FinishTask` | services/blockchain-writer/src/broadcaster.ts:423-439 | a step later the task is resolved, its slot freed and the queue looked at |
| `BroadcastQueue.SingleArcBroadcaster.NoteTransientFailure` | services/blockchain-writer/src/broadcaster.ts:695-721 | window, threshold and opening of the breaker |
| `BroadcastHistory.BreakerOpensOnBursts` | services/blockchain-writer/src/broadcaster.ts:695-721 | in every run, read off the log: the breaker opens right after a final transient failure with the breaker closed and the threshold reached in the window with no success in between, after each such failure, at no other time, for the open time |
| `BroadcastHistory.AnswerExact` | services/blockchain-writer/src/broadcaster.ts:441-521 | what an answer leaves, by the calls its task has made: a success or a final failure noted, a retry in silence while calls are left |
| `BroadcastHistory.CallsAreBounded` | services/blockchain-writer/src/broadcaster.ts:441-521 | a task makes at most one call and its retries, and fails for good only after all of them |
| `BroadcastHistory.AdmissionExact` | services/blockchain-writer/src/broadcaster.ts:340-378 | a caller is refused exactly while a breaker the run has opened is open, or else while the queue is full; a refusal changes nothing and whoever is let in waits or holds a slot |
| `BroadcastQueue.SingleArcBroadcaster.ResumeTimerFires` | services/blockchain-writer/src/broadcaster.ts:732-744 | the resume timer clears itself and schedules |
| `BroadcastQueue.EnqueueSorts` | services/blockchain-writer/src/broadcaster.ts:340-378 | sorting after a push keeps priority then sequence order |
| `BroadcastQueue.EnqueuePermutes` | services/blockchain-writer/src/broadcaster.ts:340-378 | the queue after a push is the old tasks and the new one, none lost or doubled |
| `BroadcastQueue.FillTakesFront` | services/blockchain-writer/src/broadcaster.ts:405-421 | tasks leave from the front of the queue, in its order |
| `BroadcastQueue.DispatchedBeforeWaiting` | services/blockchain-writer/src/broadcaster.ts:405-421 | whatever one scheduling dispatches comes before whatever it leaves waiting |
| `BroadcastQueue.WaitingLeaveInOrder` | services/blockchain-writer/src/broadcaster.ts:340-421 | over whole runs, two tasks that ever wait together are dispatched in their order, whatever joins them |
| `BroadcastQueue.RunKeeps` | services/blockchain-writer/src/broadcaster.ts:340-521 | the invariant of every run: order, bounds, conservation of tasks, breaker and timer |
| `BroadcastQueue.QueueIsSafe` | services/blockchain-writer/src/broadcaster.ts:340-744 | in every run: sorted bounded queue, bounded slots, each task resolved at most once and all of them once idle, no dequeue while the breaker is open, and a waiting task with a free slot has a pending resume timer |
| `BroadcastQueue.OpenUpstreamExact` | services/blockchain-writer/src/broadcaster.ts:441-521 | while the breaker is open a step calls the upstream if and only if it is a retry waking up |
| `BroadcastQueue.OpenUpstreamIsRetry` | services/blockchain-writer/src/broadcaster.ts:405-521 | in every run, a call made while a breaker is open is a waking retry's and has no dispatch of its own |
| `BroadcastQueue.RetryIgnoresBreaker` | services/blockchain-writer/src/broadcaster.ts:441-521 | a run in which a retry calls the upstream while the breaker is open |
| `OpReturnCodec.BuildOpReturnPayload` | packages/telemetry-codec/src/encoder.ts:65-88 | the moving-offset fill computes the flat envelope, or refuses a bad address or time |
| `OpReturnCodec.EnvelopeLayout` | packages/telemetry-codec/src/encoder.ts:65-88 | where each field stands: AIRCHIVE, version 1, the address in three bytes, byte k of the time counting its 256^k, type and payload |
| `OpReturnCodec.AppendPush` | packages/telemetry-codec/src/encoder.ts:90-112 | the push opcode and length bytes for each size |
| `OpReturnCodec.BuildOpReturnScript` | packages/telemetry-codec/src/encoder.ts:114-128 | the script is the false-return prefix and one push per field |
| `OpReturnCodec.ScriptLayout` | packages/telemetry-codec/src/encoder.ts:90-128 | the script byte by byte: OP_FALSE OP_RETURN, then each field of the envelope behind its length, that of the payload in the opcode or in one, two or four bytes after it |
| `OpReturnCodec.FlattenOpReturnScript` | packages/telemetry-codec/src/decoder.ts:113-167 | the moving-index parser computes the concatenated pushes, or refuses, for every script on which it ends |
| `OpReturnCodec.EndsExact` | packages/telemetry-codec/src/decoder.ts:126-155 | for every script: reading ends if and only if the index visits no place twice, and then within as many pushes as the script has bytes |
| `OpReturnCodec.ReadsForever` | packages/telemetry-codec/src/decoder.ts:126-155 | six bytes on which it never ends |
| `OpReturnCodec.ScriptFlattens` | packages/telemetry-codec/src/decoder.ts:113-167 | every script with a payload of 1 to 2^31 - 1 bytes flattens to the flat envelope of the same fields |
| `OpReturnCodec.LastPushDecides` | packages/telemetry-codec/src/decoder.ts:113-167 | outside those sizes: an empty push is refused, a length of 2^31 or more reads as negative |
| `OpReturnCodec.HugePayloadIsRefused` | packages/telemetry-codec/src/decoder.ts:139-155 | a payload of 2^31 bytes or more in a script shorter than 2^32 is refused |
| `OpReturnCodec.EmptyPayloadIsRefused` | packages/telemetry-codec/src/encoder.ts:90-112 | a script built with an empty payload is no envelope to the parser |
| `OpReturnCodec.ParseInvertsBuild` | packages/telemetry-codec/src/decoder.ts:60-111 | parsing recovers upper-case address, floored time, type and payload if and only if the type is known and the time a safe integer |
| `OpReturnCodec.BuildInvertsParse` | packages/telemetry-codec/src/encoder.ts:65-88 | rebuilding whatever parses returns the same bytes |
| `OpReturnCodec.TimestampReads` | packages/telemetry-codec/src/decoder.ts:44-58 | eight bytes give the number back if and only if it is at most 2^53 - 1 |
| `OpReturnCodec.IcaoRoundTrip` | packages/telemetry-codec/src/encoder.ts:14-23 | three bytes give the address back in upper case |
| `FlightPhases.FlightPhaseDetector.UpdateWithTransitions` | packages/flight-phase/src/state-machine.ts:97-190 | one record moves one aircraft's state and reports the transition exactly when the phase changed; a first record means PARKED on the ground, CRUISE at 25,000 feet or more, CLIMB below or without an altitude |
| `FlightPhases.RunAirLoop` | packages/flight-phase/src/state-machine.ts:154-158 | the bounded loop with its side effects on the timers |
| `FlightPhases.LoopSettles` | packages/flight-phase/src/state-machine.ts:154-260 | the loop reaches a fixed point after at most two changes, so its bound of 16 never cuts it off |
| `FlightPhases.HeldIsSustained` | packages/flight-phase/src/state-machine.ts:17-19 | on ascending timestamps the last stretch is long enough if and only if some unbroken stretch ending now is |
| `FlightPhases.DetectorFollowsHistory` | packages/flight-phase/src/state-machine.ts:97-260 | for every record list the detector with its timers reports the phase of a definition that has neither timers nor a loop, on the ground exactly in ground phases |
| `FlightPhases.FlightPhaseDetector.Reset` | packages/flight-phase/src/state-machine.ts:279-281 | one aircraft is parked afresh, no other is touched |
| `FlightPhases.ResetFollowsHistory` | packages/flight-phase/src/state-machine.ts:279-281 | after a reset the same holds for every record list, the first record now counting towards a stretch |
| `FlightPhases.PhasesAreEarned` | packages/flight-phase/src/state-machine.ts:129-256 | cruise, descent and parking are entered if and only if level, descending or slow records have lasted 60, 30 or 60 seconds |
| `SseFraming.SeparatorIsLeftmost` | services/blockchain-writer/src/arcade-sse.ts:208-216 | the separator found is the leftmost blank line of either form, and none is missed |
| `SseFraming.SeparatorIsStable` | services/blockchain-writer/src/arcade-sse.ts:208-216 | a separator once found does not move, whatever arrives after it |
| `SseFraming.SplitInTwo` | services/blockchain-writer/src/arcade-sse.ts:143-158 | cutting a prefix first and its remainder with the rest later cuts the same frames |
| `SseFraming.ReadingIsSplit` | services/blockchain-writer/src/arcade-sse.ts:143-158 | the frames are the only way to read the stream as pieces each ended by its first blank line |
| `SseFraming.SplitIsReading` | services/blockchain-writer/src/arcade-sse.ts:143-158 | glued together with their blank lines the frames are the stream |
| `SseFraming.ParseFrame` | services/blockchain-writer/src/arcade-sse.ts:161-178 | the loop over lines collects event, id and data fields |
| `SseFraming.ArcadeSse.HandleFrame` | services/blockchain-writer/src/arcade-sse.ts:161-183 | one frame moves the reconnect cursor and hands on its data as the source does |
| `SseFraming.FieldsAreValues` | services/blockchain-writer/src/arcade-sse.ts:161-178 | a frame's data are the values of its `data` lines in order, its id and event those of their last lines; a value is what follows the colon and one space |
| `SseFraming.FrameSays` | services/blockchain-writer/src/arcade-sse.ts:161-183 | what one frame moves and hands on, by the values in its lines alone |
| `SseFraming.JoinedLines` | services/blockchain-writer/src/arcade-sse.ts:161-183 | joined data reads back as its lines |
| `SseFraming.ArcadeSse.ReadStream` | services/blockchain-writer/src/arcade-sse.ts:135-159 | for every cutting of the stream into chunks, cursor, payloads and buffer are those of the whole string |
| `SseFraming.LineEndingsAgree` | services/blockchain-writer/src/arcade-sse.ts:150-166 | a stream rewritten with CRLF endings gives the same cursor and payloads |
| `TrailStore.CapTrail` | dashboard/src/stores/fleet.ts:41-49 | the thinning loop ends on every input |
| `TrailStore.FleetStore.Append` | dashboard/src/stores/fleet.ts:28-33 | one more point is appended and the trail capped; a trail grown point by point goes on being one |
| `TrailStore.CappedIsSampled` | dashboard/src/stores/fleet.ts:41-49 | what is left is the older points at places 0, 2^k, 2·2^k and so on, and the last 500 exactly; at most 1500, and over 1000 once thinned |
| `TrailStore.CappedKeepsEnds` | dashboard/src/stores/fleet.ts:41-49 | the first point and the last 500 are never touched |
| `TrailStore.GrownKeepsRoute` | dashboard/src/stores/fleet.ts:28-33 | a trail grown point by point for ever starts at the departure, ends with the latest 500 and stays within bounds |
| `TrailStore.GrownAscends` | dashboard/src/stores/fleet.ts:28-33 | it stays in timestamp order and ends at the latest point |
| `TrailStore.FleetStore.HydrateTrails` | dashboard/src/stores/fleet.ts:239-288 | every aircraft named by history or floors is hydrated, no other trail changes |
| `TrailStore.ComparisonIsExact` | dashboard/src/stores/fleet.ts:272-281 | the comparison of length and ends finds a difference whenever there is one, in any order of points |
| `TrailStore.HydrateStitches` | dashboard/src/stores/fleet.ts:239-288 | what hydration leaves, in any order: the restored points from the floor on that are earlier than the first live one, then the live ones from the floor on, thinned to the ceiling |
| `TrailStore.HydrateAscends` | dashboard/src/stores/fleet.ts:251-281 | restoring keeps timestamp order and nothing older than the floor |
| `TrailStore.HydrateTwiceExact` | dashboard/src/stores/fleet.ts:239-288 | hydrating again changes nothing if and only if the points stitched on start with an earliest one, for any trail, history and floor |
| `TrailStore.HydrateIsIdempotent` | dashboard/src/stores/fleet.ts:239-288 | so it changes nothing from an ascending history |
| `TrailStore.HydratingTwiceExact` | dashboard/src/stores/fleet.ts:239-288 | the exact form for the whole store |
| `TrailStore.HydratingTwiceIsOnce` | dashboard/src/stores/fleet.ts:239-288 | with ascending histories the whole store is unchanged the second time and stays in order |
| `TrailStore.UnorderedHistoryRepeats` | dashboard/src/stores/fleet.ts:266-271 | a history out of order is stitched on twice |

## Left out

- A header text longer than its 64-character column is taken to be refused even if the excess is blanks; other database errors are not modelled.
- HTTP, Redis, Postgres, metrics, logging, configuration loading and the dashboard's views: plumbing; tables are maps and answers are arguments.
- Signing, MessagePack, key derivation, double SHA-256 and the merkle-path library: foreign code, opaque parameters. `@bsv/sdk` is not part of this model; `computeRoot` on an uploaded BUMP is taken to replay its branch.
- `tx-builder.ts`, `utxo-manager.ts`, `write-buffer.ts` and `woc-client.ts` are not part of this model; nothing is claimed about satoshis through a transaction.
- SPV handlers interleaved at their awaits: handlers are atomic steps here, except a sync of the tip, each of whose headers is a step; the tree cache's eviction inside a run is any dropping of trees (`DropTrees`), and its own rule is proved in `TreeCache`.
- The poller's choice of heights, its catch-up and steady modes and its on-chain lookups: they decide when a handler runs, not what it writes. Of a rejection only the status is kept, not its diagnosis or re-queueing.
- Posture logging, snapshots, requeue limits and the treasury-spend question of the governor: read-only views of the same state. Ratios are exact reals.
- The broadcast hold is one boolean argument of a send.
- `acquire`, `acquireSmallOutputs`, the choice of what to split or consolidate, and lock reclaim: the same selection with one input or none of its difficulty; exclusive locks over all runs are not what the code provides. What a split or consolidation does once accepted is `FinishReshape`; a failure half-way through it is not modelled.
- A reconcile's effects are single events in the runs of `ChainDepthRuns` (`SeenConfirmed`, `Listed`, `Dropped`), in any order and number.
- VerifiedRowsStayProved: asks that each answer is for the height asked, that headers carry well-formed hashes and that a row stamped or given up has no disagreeing verdict by then, because the code checks none of these and the property is false without them; `RunExact` is the exact form without them.
- AcquireMany: is about the rows its query reads, at most max(4·cap, 512) of them in descending value, because no other row is looked at.
- RecordSpendMany: past the ledger's capacity does not say which of equally old entries goes, because that depends on map order.
- RememberSpent: the same.
- FlattenOpReturnScript: is required to be called on a script on which reading ends, because on any other the source does not return; which those are is `EndsExact`.
- RunKeepsBound: covers runs in which no output is held when its own record commits, because a late record breaks the bound.
- RunKeepsTrue: speaks of outputs whose record has run, and covers runs without eviction, aborted records, forgotten live outputs or second spends, because each of them can make the tracked depth fall short; which of their events do is `EventExact`.
- QueueIsSafe: speaks of leaving the queue while the breaker is open, because a retry in a slot does call the upstream then.
- The same time is used for every clock read within one handler; outpoints are already trimmed, and a missing transaction id is the empty string.
- Recovery's burn estimate, dry-poll backoff, backlog shield and alert texts: they do not decide which state is persisted or which step runs.
- Failover between several ARC endpoints, the callback server and the classification of failures: an answer here is already seen, transient or other. A timer is taken to fire no earlier than it was set for, by the same clock.
- The wall-clock fallback for a record without a timestamp, transition listeners and last-record copies of the phase detector; measurements are reals or missing.
- Text decoding of stream chunks, JSON parsing of a frame's data and the reconnect loop: a chunk is decoded text, and what is handed to the parser is recorded.
- Case mapping and trimming are those of ASCII text.
- Trails' distance threshold, staleness pruning and selection state: filters in front of the modelled functions. A snapshot's object identity is its `id`.
