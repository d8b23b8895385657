# Miden client: verified models of its stores and protocols

Dafny models of the state-changing cores of the Miden client, each with the laws it is meant to keep.
`dafny verify dfyconfig.toml` checks the whole project.

* **The versioned account store** of the browser client. Four latest tables and four historical tables per
  database are proved to be, over every run of insert, delta, full state, undo, prune, lock and foreign-code
  steps, one stack of complete snapshots per account.
  `VersionedRows` (one component of one account), `AccountRows` (one account), `AccountStack` (one account
  refines a stack), `AccountTables` (the flat tables), `StoreRefinement`, `StoreLaws` and `StoreRuns` (all
  accounts, all runs), `StoreCodes` (the code table under prune and undo), `StoreLocks` (the lock over runs), `StoreEffects` (what each
  operation leaves under each key of each table), `VersionedLoops` and `AccountDb` (the
  loops and the database object), `FanOutRows`, `FanOut` and `FanOutOrders` (interleaved full-state updates).
* **The vault delta** that feeds the store: `VaultDelta`.
* **The coalescing sync lock**: `SyncLock` (the transition system), `SyncLockInvariants`, `SyncLockRuns` (what
  holds over every run), `SyncLockWaiters` (which waiters can still be settled), `SyncLockCauses` (which step
  every outcome comes from), `SyncLockRecord` (the
  per-database record as an object).
* **SQLite chain data** under repeated sync and prune: `ChainData`.
* **Token amounts** (`Tokens`), **export and import** (`Base64`, `StoreTransfer`), **the test runner**
  (`TestPool`, `TestRetries`).

Where a law one would expect does not hold of the code as it stands, the code is modelled as it is and the exact
condition is proved:

* A delta that changes the type of an existing slot cannot be undone: the archived row carries the new type
  (`VersionedRows.DeltaReturnsIff`, witness `AccountRows.SlotTypeLost`). A list of changes that repeats a key can be
  undone if and only if every key is back at its old value before its last change (`VersionedRows.ListReturnsIff`).
* A full state written for an account without a header leaves marker rows that no header owns, unless the
  state is empty (`AccountStack.FullOnAbsentIff`).
* A full state whose nonce is not above the current one leaves the tables of no stack at all
  (`AccountStack.FullPushesIff`, `StoreRefinement.ApplyFullKeepsStacksIff`). The client can get there: it rejects only
  a lower nonce when it overwrites a tracked account (crates/rust-client/src/account/mod.rs:200), so importing a
  tracked account again at the same nonce is such a write.
* Neither kind of write stores code, so a write whose root has no code row leaves a dangling reference, on which
  loading the account fails. The code table stays complete if and only if every write names a stored root
  (`StoreRuns.StepKeepsCodeIff`, `StoreRuns.RunKeepsCodeIff`, witness `StoreRuns.UnknownRootExample`).
* Every write unlocks: after any run an account is locked exactly when its current state is one that it had at its
  last lock (`StoreLocks.LockedIffFromLock`).
* Undoing states that are not the top of an account's stack leaves tables of no stack at all
  (`StoreLaws.UndoPopsStoreIff`).
* For discarded states on top of a stack, prune and undo commute on the account tables if and only if the prune's cut
  lies below the lowest discarded state or all states are discarded (`StoreLaws.PruneUndoCommuteIff`). Where they do,
  they commute on the code table only if no stored root of a dropped state would
  be carried by undone states alone (`StoreCodes.PruneUndoCodesIff`, witness `StoreCodes.PruneUndoCodesDiffer`).
* Interleaved full-state updates agree if and only if no two updated accounts share a current commitment
  (`FanOutOrders.InterleavingsAgreeIff`).
* A delta that takes from a faucet the vault does not hold stores the amount instead
  (`VaultDelta.BalancesConservedIff`, witness `VaultDelta.TakingFromNothingStores`).
* A waiter left behind by a failed lock request stays unsettled until the next call in its tab, unless it has a timer
  (`SyncLockWaiters.SettlesWithoutAcquireIff`).
* Two updates of chain data are interchangeable if and only if they agree on what the store does not hold
  (`ChainData.OrdersAgreeIff`).
* Export and import lose undefined fields, non-finite numbers, negative zero, the MIME type of a blob and records
  that carry a reserved tag, and nothing else (`StoreTransfer.RoundTripIff`).
* The import means to skip tables outside the schema with a warning. It does so if and only if looking up an unknown
  table does not throw, or the file has no such table, or the import fails anyway; and a file with nothing but such
  tables clears the store (`StoreTransfer.SkipsUnknownIff`, witnesses `StoreTransfer.ExtraTable` and
  `StoreTransfer.ForeignFileClears`).
* With zero workers the test runner returns no result at all and so reports no failure (`TestPool.CompleteRunIff`).
  With retries, all runs keep the promised histories if and only if the name of every test to run occurs once among
  them and once among all tests (`TestRetries.RetriesIff`, witness `TestRetries.FailingRunBreaks`).

## Model

| member | source | states |
|---|---|---|
| VersionedRows.DeltaReturnsIff | crates/idxdb-store/src/js/accounts.js:271-346 | putting back the rows a delta archived gives the earlier contents if and only if the delta kept the tag (slot type) of every existing key |
| VersionedRows.FullReturns | crates/idxdb-store/src/js/accounts.js:383-493 | putting back the rows a full replacement archived always gives the earlier contents |
| VersionedRows.DeltaForgotten | crates/idxdb-store/src/js/accounts.js:899-917 | deleting the rows at a delta's nonce gives the earlier history, row for row |
| VersionedRows.FullForgotten | crates/idxdb-store/src/js/accounts.js:899-917 | the same after a full replacement |
| VersionedRows.DistinctListArchived | crates/idxdb-store/src/js/accounts.js:271-346 | a list of changes without repeated keys archives, one by one, what the delta as a whole archives |
| VersionedRows.ListReturnsIff | crates/idxdb-store/src/js/accounts.js:271-346 | any list of changes can be taken back if and only if the changes of each key before its last one leave it at its old value, and the last one keeps its tag |
| VersionedRows.UndoneStep | crates/idxdb-store/src/js/accounts.js:851-860 | restoring nonces in descending order gives every key the old value of the lowest discarded nonce that touched it |
| VersionedRows.UndoneCompose | crates/idxdb-store/src/js/accounts.js:851-860 | undoing higher nonces, then lower ones, is undoing them all at once |
| AccountRows.SlotTypeLost | crates/idxdb-store/src/js/accounts.js:277-283 | a slot whose type a delta changes comes back with the old value and the new type |
| AccountStack.TrackedUnique | crates/idxdb-store/src/js/accounts.js:258-925 | the rows of an account determine the stack they represent |
| AccountStack.DeltaPushesIff | crates/idxdb-store/src/js/accounts.js:258-382 | on one account a delta is a push if and only if its nonce is above the current one and slot types are kept |
| AccountStack.FullPushesIff | crates/idxdb-store/src/js/accounts.js:564-618 | on one account a full state is a push if and only if its nonce is above the current one, and otherwise leaves the rows of no stack |
| AccountStack.FullOnAbsentIff | crates/idxdb-store/src/js/accounts.js:564-618 | a full state for an absent account starts a stack if and only if it is empty |
| AccountStack.NewStarts | crates/idxdb-store/src/js/accounts.js:199-257 | first insertion starts a stack of one state |
| AccountStack.LockMarksAll | crates/idxdb-store/src/js/accounts.js:710-726 | a lock marks every retained state, superseded ones included |
| AccountStack.PruneDropsBottom | crates/idxdb-store/src/js/accounts.js:749-774 | a prune drops exactly the states replaced at or below the bound and keeps every later state restorable |
| AccountStack.UndoReaches | crates/idxdb-store/src/js/accounts.js:494-558 | undoing all nonces from any height gives exactly the slots, map entries and assets of the state below |
| AccountStack.UndoPops | crates/idxdb-store/src/js/accounts.js:809-925 | undoing the states from any height pops exactly those; popping all of them leaves no account |
| AccountStack.UndoPopsIff | crates/idxdb-store/src/js/accounts.js:809-925 | an undo leaves the rows of some stack if and only if the discarded states are the top of the stack |
| AccountStack.LockUndoCommute | crates/idxdb-store/src/js/accounts.js:862-879 | on one account lock and undo commute |
| AccountStack.PruneUndoCommute | crates/idxdb-store/src/js/accounts.js:733-925 | on one account a prune and an undo above its bound commute, and the undo restores the same current rows |
| AccountStack.UndoInvertsDelta | crates/idxdb-store/src/js/accounts.js:258-382 | undo after a delta gives every row back, history included |
| AccountStack.UndoInvertsFull | crates/idxdb-store/src/js/accounts.js:564-618 | undo after a full state gives every row back, history included |
| AccountStack.UndoSplits | crates/idxdb-store/src/js/accounts.js:851-860 | one undo of many nonces is the undo of the higher ones followed by that of the lower ones |
| AccountTables.RowsOfWith | crates/idxdb-store/src/js/schema.js:68-92 | writing one account's rows changes that account's rows and nobody else's, as long as no commitment of another account is overwritten |
| AccountTables.RowsDetermine | crates/idxdb-store/src/js/schema.js:68-92 | the tables hold nothing but the rows of their accounts |
| AccountTables.ListsAreDelta | crates/idxdb-store/src/js/accounts.js:258-382 | lists of changes without repeated keys leave the tables of the delta they stand for |
| AccountTables.RowsOfUndo | crates/idxdb-store/src/js/accounts.js:826-925 | an undo over several accounts gives each its own undo and leaves the others untouched |
| StoreRefinement.RepresentsUnique | crates/idxdb-store/src/js/accounts.js:258-925 | the tables determine the stacks of all accounts |
| StoreRefinement.HistoryHasHeaders | crates/idxdb-store/src/js/accounts.js:258-493 | historical rows exist only at nonces with a historical header of the same account |
| StoreRefinement.ApplyDeltaPushesIff | crates/idxdb-store/src/js/accounts.js:258-382 | on the tables a delta is a push if and only if nonce above, commitment new, slot types kept |
| StoreRefinement.ApplyFullPushesIff | crates/idxdb-store/src/js/accounts.js:564-618 | on the tables a full state is a push if and only if nonce above and commitment new |
| StoreRefinement.ApplyFullKeepsStacksIff | crates/idxdb-store/src/js/accounts.js:564-618 | the tables after a full state represent some stacks if and only if nonce above and commitment new |
| StoreRefinement.InsertStarts | crates/idxdb-store/src/account/mod.rs:432-460 | inserting an absent account with a new commitment starts its stack and touches no other |
| StoreRefinement.LockMarksStore | crates/idxdb-store/src/js/accounts.js:710-726 | a lock marks all states of one account's stack and no other |
| StoreRefinement.UnexpectedLocksIff | crates/idxdb-store/src/account/mod.rs:628-647 | an unexpected digest locks exactly when it is not the commitment of a retained superseded state of that account |
| StoreRefinement.PruneDropsStore | crates/idxdb-store/src/js/accounts.js:733-803 | a prune drops the bottom of one account's stack; collecting code changes no stack |
| StoreLaws.DiscardedMatches | crates/idxdb-store/src/js/accounts.js:826-846 | the nonces that commitments resolve to, latest headers first, are those of the discarded states |
| StoreLaws.UndoPopsStoreIff | crates/idxdb-store/src/js/accounts.js:809-925 | discarding states of several accounts at once leaves tables of some stacks if and only if they are the top of every stack; each is then popped to the state below |
| StoreLaws.LockUndoCommuteStore | crates/idxdb-store/src/js/accounts.js:710-726 | lock then undo of any states gives the same tables as undo then lock |
| StoreLaws.UndosKeepLock | crates/idxdb-store/src/js/accounts.js:862-879 | no sequence of undos unlocks what is left of a locked account |
| StoreLaws.PruneUndoCommuteStore | crates/idxdb-store/src/js/accounts.js:733-925 | for any states above the bound, prune and undo commute on all account tables, and the undo gives the same headers, slots, entries and assets with and without the prune |
| StoreLaws.PruneUndoCommuteIff | crates/idxdb-store/src/js/accounts.js:733-925 | for discarded states on top of the stack, prune and undo commute on all account tables, and the undo goes back to the same header, if and only if all states are discarded or the lowest discarded one lies above the cut |
| StoreLaws.WritePushes | crates/idxdb-store/src/js/accounts.js:258-618 | a write of either kind pushes one state and can be taken back row for row |
| StoreLaws.UndoSkipsWrite | crates/idxdb-store/src/js/accounts.js:809-925 | discarding the newest write with a batch gives the tables of discarding the batch before the write |
| StoreLaws.UndoTakesBackRun | crates/idxdb-store/src/js/accounts.js:258-925 | any run of writes over any accounts is taken back exactly, in every table, by one undo |
| StoreLaws.SparseEqualsFull | crates/idxdb-store/src/js/accounts.js:258-618 | a delta and the full state it leads to give the same latest tables and headers, archive different rows, and undo to the same earlier tables |
| StoreRuns.StepRefines | crates/idxdb-store/src/js/accounts.js:258-925 | every operation on the tables is its push, pop, drop or mark on the stacks |
| StoreRuns.RunRefines | crates/idxdb-store/src/js/accounts.js:258-925 | after any run of operations the tables represent the stacks that the same pushes, pops, drops and marks give |
| StoreRuns.EmptyRepresents | crates/idxdb-store/src/js/schema.js:68-92 | a new database represents no accounts |
| StoreRuns.PruneKeepsReferencedCode | crates/idxdb-store/src/js/accounts.js:775-797 | a prune keeps every code row that a latest header, a remaining historical header or a foreign account refers to, and removes only roots of pruned headers |
| StoreRuns.StepKeepsCodeIff | crates/idxdb-store/src/js/accounts.js:258-803 | from a complete code table, an operation leaves it complete if and only if it is no write, or a write whose code root is already stored |
| StoreRuns.UnknownRootDangles | crates/idxdb-store/src/js/accounts.js:564-618 | a write with an unknown root always leaves its account referring to a missing code row |
| StoreRuns.UnknownRootExample | crates/idxdb-store/src/account/mod.rs:475-487 | such a store and write exist |
| StoreRuns.RunKeepsCodeIff | crates/idxdb-store/src/js/accounts.js:258-803 | the code table is complete after every prefix of a run if and only if every write names a root stored at that moment |
| StoreLocks.LockedIffFromLock | crates/idxdb-store/src/js/accounts.js:710-726 | after any run the current header is locked if and only if the current state is one the account already had at its last lock |
| StoreLocks.StepKeepsLocks | crates/idxdb-store/src/js/accounts.js:258-925 | every operation leaves exactly the states locked that are left from the last lock: writes push unlocked, undo and prune keep the flags, lock marks all |
| StoreCodes.PruneUndoCodesIff | crates/idxdb-store/src/js/accounts.js:775-797 | prune and undo leave the same code table in both orders if and only if no stored root of a dropped state is carried, among what remains after the prune, by states alone whose header the undo takes away |
| StoreCodes.LeftIffKept | crates/idxdb-store/src/js/accounts.js:861-917 | where an undo pops a stack, the states with a header left are exactly those that were not discarded |
| StoreCodes.UndoCarries | crates/idxdb-store/src/js/accounts.js:861-917 | for any set of discarded states, the roots carried after the undo are those of the states with a header left |
| StoreCodes.PruneUndoCodesDiffer | crates/idxdb-store/src/js/accounts.js:775-797 | a store on which prune and undo in the two orders leave different code tables |
| StoreEffects.DeltaEffect | crates/idxdb-store/src/js/accounts.js:258-382 | after a delta without repeated keys every listed key holds its new value (or nothing for a removal) and its archived row the old one, the header is the new one and the old one is archived under its commitment, and every other row of every table is as it was |
| StoreEffects.FullEffect | crates/idxdb-store/src/js/accounts.js:383-618 | after a full state the latest rows are those listed, every old row and every new key is archived at its nonce, the header is replaced, and every other row is as it was |
| StoreEffects.InsertEffect | crates/idxdb-store/src/account/mod.rs:432-460 | a first insertion stores the rows listed, the header and the code, archives nothing and changes nothing else |
| StoreEffects.LockEffect | crates/idxdb-store/src/js/accounts.js:710-726 | a lock sets the flag of the latest and historical headers of the account; every other field, header and table is as it was |
| StoreEffects.PruneEffect | crates/idxdb-store/src/js/accounts.js:733-803 | exactly the headers replaced at or below the bound go, the rows archived at their nonces, and the code roots that nothing else refers to |
| StoreEffects.UndoEffect | crates/idxdb-store/src/js/accounts.js:851-917 | every key goes to the value archived by the lowest undone nonce that touched it, the header to the one found, and exactly the rows and headers at the undone nonces go |
| StoreRuns.ForeignEffect | crates/idxdb-store/src/js/accounts.js:661-674 | a foreign account refers to the root under which its code is stored, and nothing else changes |
| VersionedLoops.UpdateRows | crates/idxdb-store/src/js/accounts.js:271-346 | the read, archive, write loop of a delta leaves, for any list, the patched rows and the rows archived one by one |
| VersionedLoops.ArchiveAndReplace | crates/idxdb-store/src/js/accounts.js:383-493 | the three loops of a replacement leave the new rows and the archive of every old row and every new key |
| VersionedLoops.RestoreRows | crates/idxdb-store/src/js/accounts.js:494-558 | the restore loop puts back every row of a nonce, in any order of the rows |
| AccountDb.RepresentsAllowsUndo | crates/idxdb-store/src/js/accounts.js:826-865 | tables that represent stacks meet what the undo's lookups rely on: one account per latest commitment, one header per replaced nonce |
| AccountDb.Resolve | crates/idxdb-store/src/js/accounts.js:826-846 | the resolving loop groups by account what the lookups find, latest headers first; where no two latest headers share a commitment that is exactly the discarded nonces of each account, whatever the order or repetition of the commitments |
| AccountDb.UndoOne | crates/idxdb-store/src/js/accounts.js:851-917 | the descending loop, the header lookup, the deletion branch and the clean-up of one account leave its undone rows, back to a header that the lowest nonce replaced |
| AccountDb.PreviousUnique | crates/idxdb-store/src/js/accounts.js:861-866 | where a nonce replaced one header at most, the lookup has no choice |
| AccountDb.UndoStates | crates/idxdb-store/src/js/accounts.js:826-917 | on any tables every account found is undone and no other; where every lookup has one match the tables are those of the undo |
| AccountDb.PruneStates | crates/idxdb-store/src/js/accounts.js:749-797 | the prune loops leave exactly the pruned tables; the count is one for every header replaced at or below the bound, one for every slot, entry and asset row at such a nonce, and one for every collected code root |
| AccountDb.Database.constructor | crates/idxdb-store/src/js/schema.js:68-92 | a new database is empty |
| AccountDb.Database.ApplyTransactionDelta | crates/idxdb-store/src/js/accounts.js:258-382 | leaves the tables of the lists of changes, empty entries and assets being removals; without repeated keys, the tables of the delta |
| AccountDb.Database.ApplyFullAccountState | crates/idxdb-store/src/js/accounts.js:564-618 | leaves the tables of a full state, unlocked |
| AccountDb.Database.InsertAccount | crates/idxdb-store/src/account/mod.rs:432-460 | leaves the tables of a first insertion with its code row |
| AccountDb.Database.UndoAccountStates | crates/idxdb-store/src/js/accounts.js:809-925 | undoes exactly the accounts that the lookups find, on any tables; where every lookup has one match, leaves the tables of the undo of the set of commitments |
| AccountDb.Database.PruneAccountHistory | crates/idxdb-store/src/js/accounts.js:733-803 | leaves the tables of the prune and returns that count |
| AccountDb.Database.LockAccount | crates/idxdb-store/src/js/accounts.js:710-726 | leaves the tables of the lock (StoreEffects.LockEffect) and changes header tables only |
| AccountDb.Database.LockAccountOnUnexpectedCommitment | crates/idxdb-store/src/account/mod.rs:628-647 | locks unless the digest is a historical commitment of that account |
| AccountDb.Database.UpsertForeignAccountCode | crates/idxdb-store/src/js/accounts.js:661-674 | stores the code row and the reference to it |
| FanOutRows.RowStepKeeps | crates/idxdb-store/src/js/accounts.js:383-493 | every single request of a replacement keeps the component on its way to the whole replacement |
| FanOut.TaskStepKeeps | crates/idxdb-store/src/js/accounts.js:564-618 | every single request of a full-state update keeps the account on its way |
| FanOut.WrittenIsFull | crates/idxdb-store/src/js/accounts.js:564-618 | a finished row-by-row update has written the header, contents and history of the one-step replacement |
| FanOut.HeadersRun | crates/idxdb-store/src/js/accounts.js:583-601 | in every interleaving the historical headers are the old ones with the archived headers of the accounts that got there |
| FanOut.RunAllKeeps | crates/idxdb-store/src/js/sync.js:114-126 | in every interleaving, on any tables, updated accounts are on their way and the contents, history and header of all others are untouched |
| FanOut.InterleavingsAgree | crates/idxdb-store/src/js/sync.js:114-126 | if no two updated accounts share a current commitment, every complete interleaving leaves the tables of applying the updates one by one in any order |
| FanOut.FanOutNotStuck | crates/idxdb-store/src/js/sync.js:114-126 | an interleaving is complete if and only if no request can run: no update waits for another |
| FanOutOrders.OrderIsRun | crates/idxdb-store/src/js/sync.js:114-126 | every order of the updates is an interleaving that can be run to its end |
| FanOutOrders.InterleavingsAgreeIff | crates/idxdb-store/src/js/sync.js:114-126 | all complete interleavings leave the same tables if and only if no two updated accounts share a current commitment |
| FanOutOrders.SharedCommitmentOrders | crates/idxdb-store/src/js/accounts.js:583-601 | when two accounts share a current commitment the two orders always leave different tables |
| VaultDelta.ComputeVaultDelta | crates/idxdb-store/src/account/utils.rs:216-267 | succeeds if and only if every change is within the largest amount and, where the faucet is held, the sum is within it and not negative; otherwise gives the error of the first entry that is not; and a result says of every key of the delta, once, whether it is updated or removed |
| VaultDelta.BalancesConservedIff | crates/idxdb-store/src/account/utils.rs:232-252 | every faucet's balance is old plus signed change if and only if nothing is taken from a faucet not held |
| VaultDelta.VaultStaysValid | crates/idxdb-store/src/account/utils.rs:247-251 | zero balances are never stored |
| VaultDelta.NonFungiblesFollowActions | crates/idxdb-store/src/account/utils.rs:254-264 | a non-fungible asset is held afterwards if and only if added, or held before and not removed |
| VaultDelta.ChangedAssets | crates/idxdb-store/src/account/utils.rs:313-322 | one row per updated asset, then one empty row per removed key |
| VaultDelta.TableFollowsVault | crates/idxdb-store/src/js/accounts.js:320-346 | the store's delta loop turns a table of the old vault into a table of the new vault |
| VaultDelta.VaultChangeList | crates/idxdb-store/src/account/utils.rs:216-322 | end to end: distinct keys, no zero balances, conservation if and only if applicable, non-fungibles by the actions |
| VaultDelta.TakingFromNothingStores | crates/idxdb-store/src/account/utils.rs:236-246 | taking five units of a faucet not held leaves five units of it |
| SyncLockInvariants.StepKeeps | crates/web-client/js/syncLock.js:64-210 | every step of every tab keeps the invariants of queue, records and calls |
| SyncLockRuns.RunKeeps | crates/web-client/js/syncLock.js:64-210 | the invariants hold over every run |
| SyncLockRuns.MutualExclusion | crates/web-client/js/index.js:776-817 | at most one caller over all tabs is between acquisition and release; without Web Locks at most one per tab |
| SyncLockRuns.ReleaseFindsSync | crates/web-client/js/syncLock.js:160-166 | a caller that acquired always finds its own generation in progress when it releases |
| SyncLockRuns.ReleaseLockIff | crates/web-client/js/syncLock.js:125-137 | with Web Locks `releaseLock` is set exactly while the current generation's leader runs under the lock |
| SyncLockRuns.LapsedForever | crates/web-client/js/syncLock.js:95-145 | over every run and continuation, a request that timed out or was superseded before it acquired is never resolved as acquired, no record ever installs its release, and whatever is still done for it changes no record and settles no other call |
| SyncLockRuns.LapsedStepInert | crates/web-client/js/syncLock.js:126-145 | a late grant, timeout or error of such a request changes no record and no other call |
| SyncLockRuns.SettledOnce | crates/web-client/js/syncLock.js:68-145 | no step changes a settled promise or the end of a past generation |
| SyncLockRuns.WaiterOutcome | crates/web-client/js/syncLock.js:68-93 | over every run a waiter is listed exactly while unsettled; settled, either its own timer fired or it was told how a generation ended, by result, error or leader timeout: the one it joined, or, only if that was lost to a failed request, the first later one to end otherwise |
| SyncLockRuns.OwnTimer | crates/web-client/js/syncLock.js:71-79 | a waiter that timed out by itself did so by a step of its own timer |
| SyncLockCauses.EveryOutcomeCaused | crates/web-client/js/syncLock.js:64-210 | over every run whatever a call was told comes from a step of that run: a result or error from the release of the leader of that generation with that very value, a leader timeout from that leader's timer, its own timeout or failed request from its own, the lock from the callback |
| SyncLockCauses.TimerIff | crates/web-client/js/syncLock.js:69-84 | over every run an unsettled call has a running timer if and only if it was made with a timeout |
| SyncLockCauses.FirstComeFirstServed | crates/web-client/js/syncLock.js:125-127 | of two queued requests the later one is not granted while the earlier still waits, over every continuation |
| SyncLockCauses.AnyoneCanAct | crates/web-client/js/syncLock.js:64-210 | no step that a call, a timer or the lock manager may take is ruled out |
| SyncLockWaiters.SettlesWithoutAcquireIff | crates/web-client/js/syncLock.js:138-144 | in every reachable state an unsettled waiter can be settled without another call in its tab if and only if it has a timer or a sync is in progress there |
| SyncLockWaiters.LedCanSettle | crates/web-client/js/syncLock.js:125-137 | a waiter of a sync in progress can be settled: the lock can always reach the leader, which can release |
| SyncLockWaiters.LeftBehindStays | crates/web-client/js/syncLock.js:138-144 | a waiter without timer in a tab without sync stays so over every run with no call in its tab |
| SyncLockWaiters.AcquireRescues | crates/web-client/js/syncLock.js:95-100 | after a new call in its tab every such waiter can be settled |
| SyncLockRuns.NeverLost | crates/web-client/js/syncLock.js:95-150 | whenever a sync is in progress its leader is queued, granted or in its section |
| SyncLockRecord.Splice | crates/web-client/js/syncLock.js:73-77 | the search and splice remove exactly that waiter |
| SyncLockRecord.NotifyAll | crates/web-client/js/syncLock.js:171-174 | the loop over the waiters settles each of them and no other call |
| SyncLockRecord.Record.constructor | crates/web-client/js/syncLock.js:34-48 | a new record is the start state |
| SyncLockRecord.Record.AcquireSyncLock | crates/web-client/js/syncLock.js:64-100 | the record makes the acquire step |
| SyncLockRecord.Record.OnWaiterTimeout | crates/web-client/js/syncLock.js:71-79 | the record makes the waiter-timeout step |
| SyncLockRecord.Record.OnLeaderTimeout | crates/web-client/js/syncLock.js:110-123 | the record makes the leader-timeout step |
| SyncLockRecord.Record.OnGranted | crates/web-client/js/syncLock.js:125-137 | the record makes the callback step and keeps the lock unless stale |
| SyncLockRecord.Record.OnRequestError | crates/web-client/js/syncLock.js:138-144 | the record makes the request-error step, leaving the waiters listed |
| SyncLockRecord.Record.ReleaseSyncLock | crates/web-client/js/syncLock.js:160-210 | the record makes either release step and hands the lock back |
| ChainData.HeightIsMax | crates/sqlite-store/src/sync.rs:115-121 | the sync height is the maximum of the start and all applied updates |
| ChainData.RunSettlesBlock | crates/sqlite-store/src/chain_data.rs:203-256 | after any run of updates and prunes that agree, each header row is settled by what was ever brought |
| ChainData.RunSettlesNode | crates/sqlite-store/src/chain_data.rs:189-198 | a node is stored if and only if some update ever brought it |
| ChainData.SyncConverges | crates/sqlite-store/src/sync.rs:100-134 | for any order, repetition and interleaved prunes of agreeing updates: same height, tracked headers and nodes |
| ChainData.PruneEffect | crates/sqlite-store/src/chain_data.rs:233-256 | a prune removes exactly the headers without notes strictly between the first block and the sync height; without a height nothing |
| ChainData.PrunedRunKeeps | crates/sqlite-store/src/chain_data.rs:233-256 | after a run that ends in a prune, a header is there if and only if its block was ever flagged, or was ever brought and is the first or not below the sync height |
| ChainData.PrunedRunsEqual | crates/sqlite-store/src/chain_data.rs:233-256 | after a final prune all tables are equal, untracked headers included, with or without a sync height row |
| ChainData.OrdersAgreeIff | crates/sqlite-store/src/chain_data.rs:189-229 | in any store two updates in the two orders leave the same nodes, tracked headers and headers if and only if they agree on every node, every flagged block and every block that the store does not hold; the height is always the same |
| ChainData.InsertBlocksGet | crates/sqlite-store/src/chain_data.rs:203-229 | after inserting blocks, a number holds what was stored, else the first block brought, with any flag raised |
| ChainData.ChainStore.InsertBlockHeader | crates/sqlite-store/src/chain_data.rs:203-229 | insert or ignore, then raise the flag |
| ChainData.ChainStore.InsertPartialBlockchainNodes | crates/sqlite-store/src/chain_data.rs:189-198 | the loop inserts every node that is not there yet |
| ChainData.ChainStore.ApplyStateSync | crates/sqlite-store/src/sync.rs:100-134 | leaves the chain tables of one update |
| ChainData.ChainStore.PruneIrrelevantBlocks | crates/sqlite-store/src/chain_data.rs:233-256 | removes exactly the untracked headers strictly between genesis and the sync height |
| Tokens.ParserExact | crates/rust-client/src/utils.rs:59-101 | for every string, the result is Ok(v) if and only if the string is a well-formed amount with both parts below 2^64, no non-zero digit past the n-th decimal, and v < 2^64 is the amount times 10^n |
| Tokens.ParsesAmount | crates/rust-client/src/utils.rs:59-101 | the same for a given written amount, sign included |
| Tokens.PointsErrorIff | crates/rust-client/src/utils.rs:64-70 | the error for points is given if and only if the decimals are accepted and the string holds two points or more |
| Tokens.DecimalsErrorIff | crates/rust-client/src/utils.rs:77-88 | for every string, too many decimals are reported if and only if it is two numbers around one point and something other than a zero follows the n-th decimal |
| Tokens.LimitErrorIff | crates/rust-client/src/utils.rs:60-62 | the error for the limit of decimals is given if and only if the number is above it, and errors name the number given |
| Tokens.TokensRoundTrip | crates/rust-client/src/utils.rs:24-101 | parsing a printed 64-bit amount gives it back for every accepted number of decimals |
| Tokens.PrintedIsPlain | crates/rust-client/src/utils.rs:24-41 | the printed form has no sign and no superfluous leading zero, and a point if and only if there are decimals |
| Tokens.PrintedMeans | crates/rust-client/src/utils.rs:24-41 | the printed form is a well-formed amount with exactly the given decimals whose digits are the base units |
| Tokens.ParseTokens | crates/rust-client/src/utils.rs:59-101 | the validation and padding loops compute the specified result, errors included |
| Tokens.Pad | crates/rust-client/src/utils.rs:90-93 | the padding loop appends zeros up to n digits |
| Base64.DecodeEncode | crates/idxdb-store/src/js/utils.js:34-37 | decoding the base64 text of any bytes gives the bytes |
| Base64.SameBits | crates/idxdb-store/src/js/utils.js:34-37 | a group's four characters carry the 24 bits of its three bytes in order, as section 4 of RFC 4648 says |
| Base64.StandardAlphabet | crates/idxdb-store/src/js/utils.js:34-37 | the characters are those of the alphabet of section 4 of RFC 4648, in order, and no other stands for a value |
| Base64.Uint8ArrayToBase64 | crates/idxdb-store/src/js/utils.js:34-37 | the loop that builds the binary string gives the encoding, which decodes to the bytes |
| Base64.Base64ToUint8Array | crates/idxdb-store/src/js/import.js:77-85 | the loop over the character codes gives exactly the decoded bytes, or fails where decoding fails |
| StoreTransfer.RoundTripIff | crates/idxdb-store/src/js/export.js:7-46 | export then import is the identity on a value tree if and only if it is clean |
| StoreTransfer.ImportedIsClean | crates/idxdb-store/src/js/import.js:7-45 | whatever an import produces would survive another trip |
| StoreTransfer.SecondTripKeeps | crates/idxdb-store/src/js/import.js:7-45 | a second trip changes nothing |
| StoreTransfer.BinaryFormat | crates/idxdb-store/src/js/export.js:9-18 | how byte arrays and blobs are written, tag and data field by name |
| StoreTransfer.PrimitiveLosses | crates/idxdb-store/src/js/export.js:54 | undefined and non-finite numbers come back as null, negative zero as zero |
| StoreTransfer.BlobLoss | crates/idxdb-store/src/js/import.js:9-10 | a blob loses its MIME type only |
| StoreTransfer.UndefinedFieldsGo | crates/idxdb-store/src/js/export.js:54 | a record loses exactly its undefined fields |
| StoreTransfer.TaggedRecordTurns | crates/idxdb-store/src/js/import.js:27-33 | a record that looks like a written binary value comes back as that value |
| StoreTransfer.LastRecordStays | crates/idxdb-store/src/js/import.js:66-68 | of records with one key the last one stays |
| StoreTransfer.ImportLeaves | crates/idxdb-store/src/js/import.js:55-69 | the error for no tables is given if and only if the file has none; a table of the schema that the file lacks ends empty |
| StoreTransfer.StoreRoundTripIff | crates/idxdb-store/src/js/import.js:46-76 | exporting a whole store and importing the file gives the same store if and only if every row is clean |
| StoreTransfer.SkipsUnknownIff | crates/idxdb-store/src/js/import.js:59-69 | a file imports like its tables inside the schema if and only if it has no others, or has some inside and unknown names do not throw or a known table fails |
| StoreTransfer.ExtraTable | crates/idxdb-store/src/js/import.js:59-69 | one more table outside the schema aborts a good import where unknown names throw, and changes nothing where they do not |
| StoreTransfer.ForeignFileClears | crates/idxdb-store/src/js/import.js:59-69 | a file with unknown tables only clears the store where unknown names do not throw |
| StoreTransfer.Database.ExportStore | crates/idxdb-store/src/js/export.js:47-55 | the file lists all rows of all tables, transformed |
| StoreTransfer.Database.ForceImportStore | crates/idxdb-store/src/js/import.js:46-76 | clears and refills every table from the file; on any error the old tables stay |
| TestPool.StepKeeps | bin/integration-tests/src/main.rs:665-806 | every step keeps queue, in-flight tests and results a partition of the input, and uses up exactly one unit of work |
| TestPool.RunPartitions | bin/integration-tests/src/main.rs:633-821 | at every moment of every schedule the three collections partition the input, and a schedule is finite |
| TestPool.CompleteRunIff | bin/integration-tests/src/main.rs:633-821 | a complete schedule takes the same number of steps in every interleaving, and yields one attempt per test if and only if there is a worker or nothing to do |
| TestPool.EndedIffStuck | bin/integration-tests/src/main.rs:665-672 | all workers have stopped if and only if none can move |
| TestPool.OutcomesAsReported | bin/integration-tests/src/main.rs:709-767 | in every schedule each attempt records the very outcome reported, in the order of the reports |
| TestPool.ReportIsOfHeld | bin/integration-tests/src/main.rs:709-806 | a report is about the test its worker holds, and may be a pass or a failure |
| TestPool.QueueIsPrefix | bin/integration-tests/src/main.rs:668-672 | tests are taken from the end: at every moment the queue is a prefix of the input |
| TestPool.RunTestsParallel | bin/integration-tests/src/main.rs:600-821 | under an arbitrary schedule the run ends with one attempt per test, or with none when there are no workers |
| TestRetries.PushAllIs | bin/integration-tests/src/main.rs:584-588 | a round appends to the first result of each name all attempts of that name, in order, and to no other result anything |
| TestRetries.RetriesIff | bin/integration-tests/src/main.rs:551-592 | all runs, whatever the schedules and outcomes, end in failures then at most one pass, with retry_count + 1 attempts on failure, if and only if there are no retries or the name of every test to run occurs once among them and once among all tests |
| TestRetries.FailingRunBreaks | bin/integration-tests/src/main.rs:551-592 | otherwise the run in which nothing ever passes breaks the promise |
| TestRetries.RunHasAllTests | bin/integration-tests/src/main.rs:557-566 | in every run the results are those of the tests to run, one each |
| TestRetries.RoundKeeps | bin/integration-tests/src/main.rs:567-589 | with such names a retry round gives every failed test exactly one more attempt of its own and leaves the others |
| TestRetries.RunTestsWithRetries | bin/integration-tests/src/main.rs:551-592 | with a worker, makes a run and returns its results, one per test, and as promised under the condition of RetriesIff; without workers returns nothing |
| TestRetries.FailureExhaustsRetries | bin/integration-tests/src/main.rs:551-592 | a test failed in the end if and only if it has retry_count + 1 attempts, none of them a pass |
| TestRetries.FlakyIffBoth | bin/integration-tests/src/main.rs:335-354 | a history is flaky if and only if it holds both a failure and a pass |

## Left out

Assumptions, written as `requires`:

- Commitments identify states (`StoreRefinement.Injective`, `Fresh`), except in `FanOut` and in the loops of `AccountDb`: hashing is not modelled. Code roots, storage roots and vault roots are opaque values.
- In runs, a write has a nonce above the current one, and the account exists: the store itself only tests that the account exists (crates/idxdb-store/src/account/mod.rs:479-482). What happens otherwise is proved beside the push lemmas.
- A `Delta` has distinct keys: the callers build the lists from ordered maps (crates/idxdb-store/src/account/utils.rs:273-322). The loops are specified for all lists (`AccountTables.ApplyLists`).
- Each database transaction is one atomic step, except in `FanOut`, where its requests interleave. Dexie, SQLite, JSON text and promises are modelled by what they guarantee.
- `lockAccount` is one step, although its two requests run outside a transaction (crates/idxdb-store/src/js/accounts.js:710-726).
- The text of an asset is never empty and distinct vault keys have distinct texts (`VaultDelta.Readable`): both come from another crate's formatting.
- Nonces are numbers; the tables store their decimal text and compare it through BigInt.
- The keys of map entries are pairs; the source joins them with a zero character in one membership test, which is unambiguous as long as slot names contain none.
- AccountDb.Database.UndoAccountStates: where a query has several matches the source takes the first in key order and the model takes any; `AccountDb.RepresentsAllowsUndo` proves that a store that represents stacks never has several.
- The number of decimals a faucet may have and the largest fungible amount are parameters, because the crates that define them are not part of the repository.
- In the sync lock a queued Web Lock request may fail, but not one that was granted; an acquired caller releases once, as the one client does. The stored `result` and `error` fields are never read and not modelled.
- Timers may fire at any moment until cleared. That a sync ever ends, or a lock is ever granted, is not claimed.
- A worker's subprocess reports the name of the test it was given, and no worker thread panics.
- The top level of an imported file is a JSON object; a doubly encoded string is taken as already decoded. Dates, sparse arrays and big integers do not occur in the tables.

Not modelled:

- The account SMT forest, MMR peaks and node indices, signatures, note scripts, note and transaction tables, tags, settings, addresses and keys.
- The SQLite account and note modules, and the browser's own chain-data rules, which differ from SQLite's.
- CLI, configuration, React hooks, wasm bindings, RPC and prover clients, printing and progress output.
- Read-only queries beyond those the modelled operations make: they would only add easy members.
- ChainData.ChainStore.ApplyStateSync: covers the sync height, block headers and authentication nodes of the transaction, not its note, transaction and account parts.
- AccountDb.Database.InsertAccount: the four calls of the source are one step here; the address row is not modelled.
