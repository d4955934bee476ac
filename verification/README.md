# A model of mvSQLite in Dafny

mvSQLite keeps SQLite pages as versioned, content-addressed blobs on an optimistic key-value store.
This project models three parts of it and proves what they promise:

- **The store protocol** (`mvstore`): page writes with delta encoding, single- and multi-phase commits
  over several namespaces, content collection, version truncation, namespace locks with rollback, the
  changelog, and the byte keys. Everything is proved over every interleaving of every run.
- **The client's page cache** (`mvfs`, `mvclient`): cache, write buffer and flushed-page buffer, kept
  coherent by changelog intervals, over whole sessions of many transactions.
- **Exact arithmetic in the SQLite extension** (`mvsqlite-pgtypes-ext`): decimals on mutable digit
  arrays, and `generate_series` in 64-bit arithmetic.

`dafny verify dfyconfig.toml` checks the whole project.

## How the store is modelled

`Store.dfy` is the key-value store below: a transaction reads a past snapshot, records read-conflict ranges
and writes, and commits at a strictly larger versionstamp only if nothing that committed since its snapshot
wrote into one of those ranges. Snapshot reads add no range. `Operations.dfy` says what each server
transaction reads and writes, and `Protocol.dfy` makes a namespace a state machine over them. A read-write
transaction is one step, taken when it commits, on any past snapshot; a read-only scan is one step at its
snapshot. Operations that take several transactions (multi-phase commits, collection, truncation, rollback)
keep their local state in the machine, so that any number of them overlap in any way; a collection, truncation or
rollback may also repeat a transaction that committed without its process being told. Nothing relies on the
lease lock that is meant to keep background tasks apart. `Cluster.dfy` puts several namespaces on one time
line.

On top of that come, layer by layer: content safety (`ContentSafety`, `ContentSteps`, `ContentTheorem`), page
versions (`Versions`), the invariants of page index, changelog and lock (`PageInvariants`, `Landing`,
`PageSteps`, `PageTheorem`), serializability (`Serializability`), rollback (`Rollback`), what commits and
finished rollbacks make of each version and what the store held when it was reached (`LiveHistory`, `HeldHistory`), and the theorems over runs in plain terms (`Runs`, `RunEffects`, `Cluster`,
`ServerPromises`). The bodies of the server's own loops
are methods proved against those specifications (`ApplyWrite`, `CommitRequest`, `Changelog`, `Truncation`,
`Collection`, `NsLock`, `Metadata`), `Answers` says what the server's answers mean, told by the commits of a run,
`Metadata` shows that the version-keyed cache hands every transaction the
lock its protocol step looks at, and `Inmem` with `Replay` is the stress test's reference store, on which
every run is replayed.

Taken as given: no two pages that occur in a run have the same 32-byte hash, and none is hashed to 32 bytes of
0xff (the exclusive end of the multi-phase content-index conflict range); zstd decompression inverts compression on pages within the size
limit; random commit tokens and lock nonces do not repeat; the Bloom filter never misses a member;
versionstamps are unique and increasing. Versions and hashes are the numbers that their big-endian bytes
spell; `Keys.dfy` proves that the byte keys carry exactly that order. What is given about hash and compression can be
met: `Delta.CodecFor` builds such a codec for any list of pages, and `Witness.SomeRunStores` a run with it.

## How the client is modelled

`Connection` is the file system layer's object with its cache and buffers. `IdealClient` is a client that has none:
a lock, a version, the pages written and the pages read. `Sessions` drives a connection through any sequence of
calls and shows that it answers as the ideal client does; `SessionTheorems` and `SessionCommits` say what that means,
told by the calls alone. The server is a function from versions to pages with the promises `StatOk`, `CommitOk` and `CheckOk`, which
`ServerPromises` proves of the store.

## Where the code does not keep a promise

- **Prefetching** (`mvfs/src/vfs.rs:269-273`) filters by the cache alone. A page that is in the write buffer
  but was evicted from the cache can be fetched ahead in its old form and cached over the newer write.
  `Client.PrefetchCanBeStale` is an example; `Client.PrefetchExact` says exactly when it goes right.
- **Releasing a lock that is being rolled back** (`mvstore/src/nslock.rs:132-147`) is not refused in commit mode. The
  rollback stops where it is, and the pages it has cleared are gone without a changelog entry, so a client keeps them in
  its cache (`CutOffRollback.CutOffRollbackMisleads`). `Runs.HistoryIsKeptExactly` says exactly when the history is kept.
- **Identity writes** (`mvfs/src/vfs.rs:578-583`) are dropped, and enter neither the writes nor the read set. If
  somebody else changes the page meanwhile, the commit goes through and the page is not as the transaction wrote it
  (`LostWrite.IdentityWriteIsLost`). `SessionTheorems.CommittedAsWritten` and `UnguardedCanBeLost` give the
  condition.
- **`decimal_cmp`** compares digit counts, and an exponent of either sign can leave a zero in front, so `5e-1` and
  `0.05e1` differ from `0.5` (`Comparison.ExponentMisleads`). `Comparison.CanonicalTellsAll` gives the condition on
  decimals, `Comparison.ComparesExactly` the one on texts.
- **`decimalFromDouble`** lets a NaN whose sign bit is set (an 8-byte blob can be one) through its range check;
  `Binary.FromDouble` states exactly which inputs have no result.
- **`decimal_result_sci`** can print an exponent of -10000000, of which the parser reads only seven digits
  (`Printing.TinyDoesNotComeBack`). `Printing.SciRoundTrip` says that this is the only exponent at which the
  value is lost. `Numerals.ParseExact` gives the condition for numerals in general.
- **`decimalPow2`** does not notice that squaring ran out of memory, nor `decimalFromDouble` that there is no
  power of two (`Binary.ShortMemoryMisleads`). `Binary.PowerReachedExactly` and `Binary.FromDouble` say exactly
  when the result is right.
- **LIMIT on descending output** moves the last row of `generate_series` the wrong way
  (`mvsqlite-pgtypes-ext/series.c:678`), as in `SeriesRows.DescendingLimitFails`. `SeriesRows.CutWorksExactly` and
  `SeriesCursor.Cursor.Filter` say for exactly which steps, directions, limits, offsets and row counts the rows are
  right all the same.
- **A dry run of `truncate_versions`** deletes no page version but does trim the changelog
  (`mvstore/src/gc.rs:168-183`); `Truncation.TruncateVersions` says when it changes nothing.

## Model

| member | source | states |
|---|---|---|
| Runs.CollectionIsSafe | mvstore/src/gc.rs:276-472 | In every interleaving of page writes, single- and multi-phase commits, truncation, rollback and any number of overlapping collections, every hash in the page index has its content, a delta's base is present and not a delta, and it all decodes to the page with that hash |
| Witness.SomeRunStores | mvstore/src/commit.rs:57-352 | For every page there is a valid codec and a run that commits that page and then reads it |
| ContentTheorem.StepKeepsSafe | mvstore/src/gc.rs:304-462 | Every step keeps the invariant behind that: references restamp the content index or trip the commit token, so a scan that saw neither cannot delete what they need |
| PageTheorem.StepKeepsPageState | mvstore/src/nslock.rs:174-281 | Every step keeps the invariants of page index, last write version, changelog, truncations and rollbacks |
| Rollback.StepKeepsLockState | mvstore/src/nslock.rs:35-172 | Every step keeps what is promised for as long as a lock is held |
| Serializability.StepKeepsSerialState | mvstore/src/commit.rs:179-352 | Every step keeps serializability and the reference snapshots |
| LiveHistory.StepKeepsLogState | mvstore/src/stat.rs:100-202 | Every step, a rollback's included, keeps the changelog telling which pages differ between any two versions still logged, by the record of commits and finished rollbacks |
| LiveHistory.LiveIsSnapshot | mvstore/src/nslock.rs:174-287 | Without a rollback that record is what all commits make |
| HeldHistory.StepKeepsHeldState | mvstore/src/nslock.rs:93-287 | Every step keeps what ties the record to the store: the two agree whenever no rollback is in progress, exactly if none was cut off that had changed something |
| HeldHistory.CutOffExactly | mvstore/src/nslock.rs:132-147 | After a release that cuts a rollback off, the store has what was committed if and only if every page still read as when the lock was marked |
| Runs.HistoryIsKeptExactly | mvstore/src/nslock.rs:93-287 | In every run the store held, at each version not reached in the middle of a rollback, what commits and finished rollbacks make, if and only if no rollback was cut off that had changed something |
| Runs.NoReleaseOfMarked | mvstore/src/nslock.rs:132-147 | That is so if no lock is released while it is marked |
| CutOffRollback.CutOffRollbackMisleads | mvstore/src/nslock.rs:132-147 | A run of seven steps in which a release cuts a rollback off, a page is gone, the interval does not list it, and the stat reply is wrong for a client |
| Delta.EncodedDeltaDecodes | mvstore/src/delta/writer.rs:19-108 | A delta encoded against one store decodes to the same page in any later store in which its (flattened) base still decodes |
| Delta.XorInPlace | mvstore/src/delta/reader.rs:235-237 | The decoder's loop leaves the XOR of image and base in the buffer |
| Delta.XorCancels | mvstore/src/delta/reader.rs:207-245 | Applying the XOR image to the base gives back the page |
| Delta.DeltaExactly | mvstore/src/delta/writer.rs:77-98 | A page is stored as a delta if and only if it has its base's size, fewer than a fifth of the bytes differ and the compressed difference is shorter than a third |
| ApplyWrite.ApplyWrites | mvstore/src/write.rs:74-235 | Builds exactly the transaction the protocol's write step takes; every page not stored yet is stored as the delta it encodes to, or else in full; refuses if and only if a page is too large or a needed delta base does not decode |
| ApplyWrite.BaseNeverBroken | mvstore/src/write.rs:140-216 | In a safe store the second refusal never happens |
| ApplyWrite.DedupedKeepsHashes | mvstore/src/write.rs:106-112 | Dropping adjacent duplicates loses no hash |
| CommitRequest.Commit | mvstore/src/commit.rs:57-352 | Every refusal of the commit method with the namespace and check that caused it, and otherwise the transaction it builds in each namespace, in one or two phases |
| CommitRequest.PhaseOne | mvstore/src/commit.rs:98-150 | The first namespace behind the client or with failing writes decides, then missing references; otherwise all page writes and index reads are in place |
| CommitRequest.CheckReadSet | mvstore/src/commit.rs:256-286 | The page-level check looks at every page of the read set and leaves the read conflict of each lookup |
| CommitRequest.WriteIndex | mvstore/src/commit.rs:288-311 | Exactly the pages the request names are written, each as the list has it last |
| CommitRequest.MissingMeans | mvstore/src/commit.rs:125-150 | A reference is missing if and only if an index write names a hash neither indexed nor carried |
| CommitRequest.PlanMeans | mvstore/src/commit.rs:71-84 | How many pages written make a request two-phase, and how many read keep it from page-level checks, for one namespace and each further one |
| Runs.LastWriteCheckMeans | mvstore/src/commit.rs:211-254 | In every run without rollback the look at the last write answers: already committed, if and only if it is not skipped and the last commit its snapshot shows carries its key; conflict, if and only if that commit has another key, some commit is newer than the assumed version and the request is not checked page by page |
| Answers.CommitVerdictMeans | mvstore/src/commit.rs:185-286 | In every run without rollback the last phase goes on if and only if the lock admits the request, it was not just committed, and after its assumed version nothing was committed that it depends on: no page of its read set if checked page by page, else nothing; and exactly when it conflicts |
| CommitRequest.CheckLock | mvstore/src/commit.rs:185-205 | A commit goes on if and only if there is neither lock nor claimed owner, or the claimed owner holds a lock not marked for rollback; a conflict if and only if there is a lock and nobody is claimed |
| CommitRequest.PlannedIsOneTransaction | mvstore/src/commit.rs:71-84 | The phases planned from the totals over all namespaces make one transaction of the cluster |
| CommitRequest.BuiltIsOneStep | mvstore/src/commit.rs:98-352 | What the method builds for a small request is the protocol's one-phase commit step |
| CommitRequest.BuiltIsTwoSteps | mvstore/src/commit.rs:152-175 | What it builds for a large one are the two steps tied by the commit token |
| Runs.EveryRunIsSerial | mvstore/src/commit.rs:179-352 | Without rollback, no page in a commit's read set (no page at all when checked by last write version) was written between its assumed and its committed version, and every read at an untruncated version returns the reference snapshot |
| Landing.EveryEventLands | mvstore/src/commit.rs:179-330 | Checks passed on an older snapshot still hold of the state the commit lands on, because of its read conflicts |
| Runs.ReplayRun | mvstore-stress/src/inmem.rs:29-98 | The commits of every run without rollback are legal steps of the in-memory reference, which finds right every page that the namespace returned to a client, never panics, and then holds what the namespace reads |
| Runs.ReturnedIsTrue | mvstore-stress/src/inmem.rs:111-132 | What the namespace returned at some moment for a version not truncated is in the reference snapshots of every later moment |
| Inmem.Reference.CommitTransaction | mvstore-stress/src/inmem.rs:49-98 | The reference's commit: which of its checks fails, or the version it adds |
| Inmem.Reference.StartTransaction | mvstore-stress/src/inmem.rs:29-47 | A transaction starts from the newest snapshot at or below its version |
| Inmem.Reference.VerifyPage | mvstore-stress/src/inmem.rs:111-132 | A page passes if and only if it is the snapshot's, and joins the read set |
| Inmem.Reference.WritePage | mvstore-stress/src/inmem.rs:104-109 | A write changes the transaction's snapshot and write set alone |
| Inmem.DisjointCount | mvstore-stress/src/inmem.rs:67-77 | Comparing set sizes is a test for disjointness |
| Replay.ReplayHistory | mvstore-stress/src/inmem.rs:49-98 | Replaying any serial history, with the pages its clients were returned, mirrors it version by version |
| Cluster.CommitsTogether | mvstore/src/commit.rs:179-356 | A request lands in all its namespaces at one versionstamp, serial in each |
| Cluster.CommitStoresPages | mvstore/src/commit.rs:288-352 | In every run, right after a commit has landed, every page its request names reads as the request has it last, every other page as before, and the changelog lists exactly the pages named unless they are too many |
| Cluster.PartStoresPages | mvstore/src/commit.rs:288-352 | So it is in every namespace of a request in every run of the cluster |
| Cluster.NamespaceRuns | mvstore/src/commit.rs:57-84 | What one namespace sees of a run of the cluster is a run, so every theorem holds in each |
| Cluster.OneTimeLine | mvstore/src/commit.rs:354-356 | All namespaces share one sequence of versionstamps |
| Cluster.RetryLandsOnce | mvstore/src/commit.rs:211-254 | A request submitted twice, overlapping in any way, lands once as soon as one namespace is checked by last write version or writes a page it read |
| Runs.DuplicateIsOriginal | mvstore/src/commit.rs:229-235 | A retry reported as committed is given the versionstamp of the last commit its snapshot shows, which has its own key |
| Runs.RetryCommitsOnce | mvstore/src/commit.rs:211-254 | Of two commits of a namespace from one assumed version, the second was checked page by page and had read nothing the first wrote |
| Retry.ApplyCommitIntents | mvclient/src/lib.rs:249-328 | Every attempt carries one key, all but the first ask for the idempotency check, and the first answer decides |
| Runs.RetryIsRecognised | mvstore/src/commit.rs:216-243 | A retry that sees its own commit never goes on: it is given that commit's versionstamp if nothing was committed since, and a conflict otherwise |
| Truncation.TruncateVersions | mvstore/src/gc.rs:86-183 | On a quiet index and any batch size of at least two the loop terminates, and what is left is per page every version above the point and the greatest at or below it; a dry run counts the same, and changes nothing if and only if the changelog has nothing to trim |
| Truncation.SelectedExactly | mvstore/src/gc.rs:124-138 | Looking at the next key alone selects exactly the versions that must not survive |
| Truncation.SurvivesExactly | mvstore/src/gc.rs:124-138 | A version survives if and only if it is above the point or no later version of its page is at or below it |
| RunEffects.StepKeepsReads | mvstore/src/gc.rs:86-166 | In every run no step but a rollback's changes a read at or above the greatest truncation point used, except that commits add their pages |
| RunEffects.LoneTruncationKeepsReads | mvstore/src/gc.rs:119-157 | With commits and rollbacks interleaved, a truncation whose batch no other truncation interrupts changes no read at or above its own point |
| Collection.DeleteUnreferenced | mvstore/src/gc.rs:276-472 | The batch loops delete exactly the indexed hashes that are unreferenced, old enough and not touched after the read version; nothing if nothing is referenced at all |
| Collection.ScanRange | mvstore/src/gc.rs:189-236 | A batched scan reads every value of a quiet range |
| Collection.SweepKeepsSafe | mvstore/src/gc.rs:347-462 | Collecting keeps a quiet store safe |
| Collection.SweepIsComplete | mvstore/src/gc.rs:390-422 | With an exact filter and no young content, nothing unreferenced is left |
| Collection.SweptExactly | mvstore/src/gc.rs:347-462 | Hash by hash what a collection deletes, and that nothing else changes |
| RunEffects.FinishedRollbackRestores | mvstore/src/nslock.rs:149-287 | Every rollback that finishes is of a lock that some event acquired, and leaves every page, the last write version and the changelog as they were then, whatever ran meanwhile; until then only the owner committed, and nobody after the mark |
| RunEffects.LockHolds | mvstore/src/nslock.rs:35-91 | While a lock is held only its owner commits, and reads at its snapshot version do not change |
| RunEffects.ReadersSeeStateAtLock | mvstore/src/stat.rs:51-80 | Readers of a locked namespace are given a version at which every page is the newest there was when the lock was taken |
| Answers.Stat | mvstore/src/stat.rs:40-100 | Who is refused, the version, and the interval from the version the client names |
| Answers.StatRefuses | mvstore/src/stat.rs:51-68 | Refused if and only if a lock is claimed that is not held, is somebody else's or is being rolled back |
| Answers.StatShowsNewest | mvstore/src/stat.rs:70-80 | In every run, readers of an unlocked namespace and the owner of an unmarked lock are given a version at which every page is the newest there is |
| Answers.StatIsNewestCommit | mvstore/src/stat.rs:70-80 | Without rollback it is the versionstamp of the newest commit, or zero before the first |
| Answers.StatReplyIsRight | mvstore/src/stat.rs:82-97 | The whole reply is right for the client, then and at every later moment, if no rollback was cut off that had changed something |
| NsLock.AcquireLock | mvstore/src/nslock.rs:35-91 | Every outcome of acquiring a lock, each if and only if, and the state after it; the owner's length is counted in bytes |
| NsLock.ReleaseLock | mvstore/src/nslock.rs:93-287 | Every outcome of releasing it; the rollback loop, for any batch size, leaves exactly what is at or below the snapshot |
| NsLock.RollbackUndoes | mvstore/src/nslock.rs:185-281 | Rolling back after any commits made under the lock, whose events only add newer versions, leaves exactly the state the lock was taken in |
| Metadata.MetadataCache.Get | mvstore/src/metadata.rs:50-78 | Through the version-keyed cache, under arbitrary eviction, a transaction is given its own snapshot's metadata |
| Metadata.ClusterIsVersioned | mvstore/src/metadata.rs:80-93 | In every run of the cluster the metadata version never falls, and equal versions mean equal metadata in all namespaces |
| Metadata.ReadLock | mvstore/src/commit.rs:180-183 | At any moment of any run, a transaction on any past snapshot that asks the cache is given the very lock that the protocol's step on that snapshot uses |
| Metadata.CacheOutlivesRun | mvstore/src/metadata.rs:50-93 | Nothing that happens later in a run makes a cached entry wrong |
| Metadata.StaysValid | mvstore/src/metadata.rs:50-93 | A new snapshot makes no cached entry wrong |
| Changelog.ReadInterval | mvstore/src/stat.rs:100-202 | Answers if and only if both end points are logged, the scan was not cut off, all entries between list their pages and there are not too many; the answer is their union |
| Changelog.IntervalAnswers | mvstore/src/stat.rs:100-202 | Exactly when there is an answer, told by the changelog's entries, and that it is the union of the pages they list |
| Answers.IntervalListsCommits | mvstore/src/stat.rs:100-202 | In every run, a page that an interval lists was written by a commit after its first version, up to its last |
| Changelog.WriteEntry | mvstore/src/commit.rs:332-342 | The bytes written for a commit decode to its pages, in increasing order, or to "too many" |
| Changelog.IntervalSound | mvstore/src/stat.rs:100-202 | A page outside an interval reads the same at both ends |
| Runs.ChangelogIsSound | mvstore/src/stat.rs:100-202 | That holds in every run mixing commits, truncation and rollback |
| Runs.ChangelogTellsHistory | mvstore/src/stat.rs:100-202 | In every run in which no rollback was cut off that had changed something, it holds of what the store held at the two versions when they were reached, however old the first is |
| Keys.PageKeyOrder | mvstore/src/keys.rs:78-91 | Byte order on page keys is order on page index and version |
| Keys.SameNamespaceOrder | mvstore/src/keys.rs:63-131 | Key families of a namespace do not interleave |
| Keys.NamespaceOrder | mvstore/src/keys.rs:63-131 | Namespaces do not interleave |
| Keys.ChangelogKeyOrder | mvstore/src/keys.rs:124-131 | Byte order on changelog keys is version order |
| Keys.ReverseScanIsLatest | mvstore/src/delta/reader.rs:42-64 | The reverse scan with limit one returns the greatest version at or below the one asked for |
| Keys.EmptyScanIsNone | mvstore/src/delta/reader.rs:65-78 | An empty scan means there is no such version |
| Keys.PageKeyParts | mvstore/src/util.rs:89-97 | The ten-byte suffix of a page key is its version, and the rest identifies the page |
| Keys.NextKey | mvstore/src/util.rs:60-70 | A key followed by a zero byte is the very next key |
| Octets.BigEndianRoundTrip | mvstore/src/keys.rs:78-91 | Fixed-width big-endian bytes lose nothing |
| Octets.BigEndianOrder | mvstore/src/keys.rs:78-91 | Fixed-width big-endian bytes sort as their numbers do |
| Connection.Connection.Read | mvfs/src/vfs.rs:226-333 | Returns the transaction's last write to the page or else the snapshot's page, whatever was evicted; records the read and changes nothing else the client stands for; the cache stays coherent if and only if no stale page is fetched ahead |
| Connection.Connection.Write | mvfs/src/vfs.rs:548-599 | The page is seen from then on and no other page changes, also when the buffer is flushed; exactly which writes are skipped; all others are among what will be committed |
| Connection.Connection.ForceFlush | mvfs/src/vfs.rs:335-351 | Flushing moves the whole write buffer to the server and changes nothing the transaction sees |
| Connection.Connection.Finalize | mvfs/src/vfs.rs:386-494 | Discard, empty, conflict and commit: exactly what is sent, the version moved to, and a coherent cache |
| Connection.Connection.Lock | mvfs/src/vfs.rs:601-685 | For any kind of lock: starts a transaction at the version given and keeps of the cache only what is right there |
| Connection.Connection.Unlock | mvfs/src/vfs.rs:687-712 | Leaving the write locks ends the transaction, which is sent if and only if it was confirmed, is not pinned and wrote something, and clears the confirmation; otherwise the transaction stays as it is, or is dropped with the last lock |
| Connection.Connection.Pin | mvfs/src/vfs.rs:368-384 | Pinning is refused during a transaction and changes nothing else |
| Sessions.Session | mvfs/src/vfs.rs:226-717 | Any sequence of calls over any number of transactions, up to the first that would fail an assertion, fetch a stale page or break SQLite's locking, gets the answers of a client without cache and buffers |
| SessionTheorems.ReadsAreRight | mvfs/src/vfs.rs:226-333 | In every session a read finds the last page its transaction wrote there, told by the calls alone, or else the page in the snapshot it was started on, or else the template; and when nothing is shown |
| SessionTheorems.CommitCarriesAll | mvfs/src/vfs.rs:386-494 | What is sent when the lock is given up is, page by page, the last write; a written page is left out only if the snapshot has it so; a read set that is sent has every page read since the transaction began |
| SessionCommits.SentExactly | mvfs/src/vfs.rs:687-712 | In every session, giving up a write lock sends the transaction if and only if SQLite confirmed since one was last given up, the connection is not pinned, and a write of the transaction was not skipped; exactly which read set goes along; no other call sends anything |
| SessionCommits.StartedOn | mvfs/src/vfs.rs:608-681 | A transaction is on the pinned version or else on that of the stat reply; one that goes on after unlocking is on the version just committed, or on the same as before |
| SessionCommits.AnswersAre | mvfs/src/vfs.rs:368-384 | Exactly when pinning is refused and locking fails |
| SessionCommits.CounterIs | mvfs/src/vfs.rs:676-677 | The counter shown in the first page goes up by two with every transaction that locking starts, in 32 bits |
| IdealClient.NormalBytes | mvfs/src/vfs.rs:574-576 | Pages are stored as they are, but for the two counters in the first one, which are zeroed |
| IdealClient.CounterBytes | mvfs/src/vfs.rs:326-333 | The first page is shown with the counter in exactly eight of its bytes |
| SessionTheorems.CommittedAsWritten | mvfs/src/vfs.rs:386-494 | The committed version has a page as last written if the page was sent, or no read set was, or the page is in it |
| SessionTheorems.UnguardedCanBeLost | mvfs/src/vfs.rs:578-583 | For any other page of any session there is a server that keeps all its promises, has answered alike and shown the same snapshot so far, and commits the intent with another page there |
| LostWrite.IdentityWriteIsLost | mvfs/src/vfs.rs:578-583 | A new connection, driven through two transactions, skips a write, commits, and the committed page is not what was written last |
| SessionTheorems.NextTransactionSees | mvfs/src/vfs.rs:441-474 | A read in a later transaction on the committed version shows what the committed one wrote last |
| Client.PrefetchExact | mvfs/src/vfs.rs:269-273 | Caching what was fetched ahead is right if and only if none of it is a write-buffered page in another form |
| Client.PrefetchCanBeStale | mvfs/src/vfs.rs:269-318 | A concrete transaction that is shown its old page |
| Client.CommitShowsNewVersion | mvfs/src/vfs.rs:441-466 | After a commit the cache, less what the changelog lists, is a cache of the new version |
| Client.StatShowsNewVersion | mvfs/src/vfs.rs:651-673 | The same for moving on to another version with an interval |
| Client.DiscardShowsSnapshot | mvfs/src/vfs.rs:422-433 | Dropping a transaction's pages leaves a cache of its snapshot |
| ServerPromises.StatIsKept | mvstore/src/stat.rs:82-88 | In every such run, what the client takes for granted about a stat reply holds of what the store held at each version when it was reached, then and at every later moment |
| ServerPromises.CommitIsKept | mvstore/src/commit.rs:358-382 | So does what it takes for granted about a commit reply and its changelog |
| ServerPromises.CheckIsKept | mvstore/src/commit.rs:211-286 | In a run without rollback so does what it takes for granted about the conflict check: no page in the read set sent, and none at all if none was sent, has changed |
| Decimals.Decimal.Mul | mvsqlite-pgtypes-ext/decimal.c:588-636 | The exact product, also of a number with itself; when it runs out of digits or memory; how many fraction digits remain and where trimming stops |
| Multiply.Product | mvsqlite-pgtypes-ext/decimal.c:608-622 | Every cell stays a digit and the two spare cells absorb all carries |
| Multiply.RowAdvances | mvsqlite-pgtypes-ext/decimal.c:614-618 | One cell of the inner loop accounts exactly for what it adds and carries |
| Decimals.Decimal.TrimFraction | mvsqlite-pgtypes-ext/decimal.c:629-632 | Trimming trailing zeros keeps the value and stops where it should |
| Binary.Pow2 | mvsqlite-pgtypes-ext/decimal.c:641-671 | Exactly the power of two that the allocations let it reach, for all N within 20000, never reaching the digit cap |
| Binary.PowerReachedExactly | mvsqlite-pgtypes-ext/decimal.c:655-663 | A power that is returned is the one asked for if and only if no square that a later round needs has failed |
| Binary.PlentyReachesPower | mvsqlite-pgtypes-ext/decimal.c:644-671 | With memory it is always the one asked for, and only the range limits it |
| Binary.ShortMemoryMisleads | mvsqlite-pgtypes-ext/decimal.c:655-663 | Allocations for which two squared comes out as one, and a half as one |
| Binary.FromDouble | mvsqlite-pgtypes-ext/decimal.c:676-719 | With memory the exact value of every finite binary64 number; exactly which inputs have no result; short of memory, an unmarked result is right if and only if the power applied is the right one or the number is zero |
| Binary.Split | mvsqlite-pgtypes-ext/decimal.c:690-710 | Shifting out trailing zero bits of the significand keeps the value; the exponent range check finds exactly the exponent field 2047 |
| Binary.SquareStep | mvsqlite-pgtypes-ext/decimal.c:655-663 | Square-and-multiply keeps what remains to be multiplied |
| Arithmetic.Add | mvsqlite-pgtypes-ext/decimal.c:515-578 | The exact sum for all signs, lengths and scales, and exactly when it runs out |
| Arithmetic.Expand | mvsqlite-pgtypes-ext/decimal.c:482-508 | Padding on both sides keeps the value |
| Arithmetic.RunsOutExactly | mvsqlite-pgtypes-ext/decimal.c:530-541 | With memory a sum runs out if and only if its places come to more than ten million with two to spare |
| Arithmetic.CombineMagnitudes | mvsqlite-pgtypes-ext/decimal.c:542-576 | No carry or borrow is lost off the top |
| Addition.FirstDifference | mvsqlite-pgtypes-ext/decimal.c:557 | At equal length the first different digit decides |
| Sums.Sum.Step | mvsqlite-pgtypes-ext/decimal.c:823-848 | The accumulator is the exact sum of all values stepped less all inverted, and is marked if and only if it was, or this row runs out of memory or digits |
| Sums.Sum.Inverse | mvsqlite-pgtypes-ext/decimal.c:849-864 | The same for rows that leave the window |
| Rounding.Round | mvsqlite-pgtypes-ext/decimal.c:316-343 | The nearest multiple of the unit of the N-th significant digit, zeros after it, also when all nines grow by a digit |
| Rounding.NearestIsNearest | mvsqlite-pgtypes-ext/decimal.c:316-343 | The error is at most half a unit, ties going away from zero |
| Rounding.RoundedDigits | mvsqlite-pgtypes-ext/decimal.c:325-342 | Looking at one digit and clearing the rest rounds correctly |
| Rounding.KeptDigitsAre | mvsqlite-pgtypes-ext/decimal.c:316-325 | With more than N digits from the first that is not zero on, exactly N of them are kept, else all |
| Comparison.CmpTellsOrder | mvsqlite-pgtypes-ext/decimal.c:418-448 | On canonical decimals the comparison is the order of the values |
| Comparison.CanonicalTellsAll | mvsqlite-pgtypes-ext/decimal.c:436-440 | A decimal compares correctly with every canonical one if and only if it is canonical |
| Comparison.CanonicalExactly | mvsqlite-pgtypes-ext/decimal.c:130-174 | A numeral is parsed to a canonical decimal if and only if its exponent leaves no zero in front |
| Comparison.ComparesExactly | mvsqlite-pgtypes-ext/decimal.c:418-448 | So it compares correctly with every canonical decimal if and only if it does that |
| Comparison.CollationOrdersNumerals | mvsqlite-pgtypes-ext/decimal.c:760-779 | The collation orders such numerals by value, among them all without an exponent part |
| Comparison.ExponentMisleads | mvsqlite-pgtypes-ext/decimal.c:436-440 | 5e-1 and 0.5 have one value and do not compare equal |
| Comparison.CompareDecimals | mvsqlite-pgtypes-ext/decimal.c:418-448 | The method trims both in place, keeping their values, and returns that comparison |
| Numerals.ParseExact | mvsqlite-pgtypes-ext/decimal.c:79-188 | Every well-formed numeral that is not refused for its length is parsed to exactly its value if and only if its exponent is small or it is zero |
| NumeralLength.RefusedExactly | mvsqlite-pgtypes-ext/decimal.c:133-180 | A numeral is refused if and only if it takes more than ten million digits to write without its exponent, counted on the numeral |
| NumeralLength.ModerateIsParsed | mvsqlite-pgtypes-ext/decimal.c:79-188 | So every numeral of moderate length and exponent is parsed to its value |
| NumeralLength.ReadExpIs | mvsqlite-pgtypes-ext/decimal.c:119-125 | The exponent as read is the number that its first digits make, as few of them as come to a million |
| NumeralLength.JunkIsPassedOver | mvsqlite-pgtypes-ext/decimal.c:103-128 | Characters that are no part of a numeral are passed over |
| ParseText.FromText | mvsqlite-pgtypes-ext/decimal.c:79-188 | What the parser makes of every text |
| Numerals.ReadExpExact | mvsqlite-pgtypes-ext/decimal.c:108-125 | The exponent is read right if and only if it is small: at most seven digits up to the leading zeros |
| Printing.PlainRoundTrip | mvsqlite-pgtypes-ext/decimal.c:260-308 | Parsing what is printed in plain notation gives back the value of every decimal |
| Printing.PlainFormat | mvsqlite-pgtypes-ext/decimal.c:260-308 | What plain notation looks like, digit by digit |
| Printing.SciRoundTrip | mvsqlite-pgtypes-ext/decimal.c:350-405 | What is printed in scientific notation, if it can be parsed, gives back the value if and only if the exponent is above -10000000 |
| Printing.SciShows | mvsqlite-pgtypes-ext/decimal.c:367-385 | Which digits scientific notation shows, at least down to the N-th, and where the point would be |
| Printing.SciFormat | mvsqlite-pgtypes-ext/decimal.c:386-403 | How they are written, with an exponent of at least two digits |
| Printing.TinyDoesNotComeBack | mvsqlite-pgtypes-ext/decimal.c:118-123 | The decimal 1e-10000000, of the most digits there may be, is printed and then parsed to another value |
| PrintText.Result | mvsqlite-pgtypes-ext/decimal.c:260-308 | The plain printer writes exactly the numeral that the round trip is about, within its buffer |
| PrintText.ResultSci | mvsqlite-pgtypes-ext/decimal.c:350-405 | The scientific printer writes exactly the numeral that the round trip is about, exponent included, into its buffer, and nothing is cut off |
| PrintText.SciTextIsNumeral | mvsqlite-pgtypes-ext/decimal.c:386-403 | The printed characters are the text of a well-formed numeral |
| SeriesCursor.Cursor.Filter | mvsqlite-pgtypes-ext/series.c:445-692 | Exactly the members of the series inside stop and the bounds, once each and in the order asked for; with a limit, the slice from the offset that is not cut short if and only if the limit is one of those handled |
| SeriesMeaning.RowsGiven | mvsqlite-pgtypes-ext/series.c:445-692 | With all arguments given, the rows are start, start + step, start + 2 * step and so on, not beyond stop, that meet the constraints on the value |
| SeriesMeaning.MissingStep | mvsqlite-pgtypes-ext/series.c:482-487 | A missing step is one |
| SeriesMeaning.ZeroStep | mvsqlite-pgtypes-ext/series.c:484 | A step of zero is one |
| SeriesMeaning.MissingStart | mvsqlite-pgtypes-ext/series.c:472-497 | A missing start is zero, or the smallest number under a lower constraint without step |
| SeriesMeaning.MissingStop | mvsqlite-pgtypes-ext/series.c:477-500 | A missing stop is 4294967295, or the largest number under an upper constraint without step |
| SeriesMeaning.OrderGiven | mvsqlite-pgtypes-ext/series.c:651-664 | The rows come in the order asked for, or else in that of the step |
| SeriesMeaning.SliceGiven | mvsqlite-pgtypes-ext/series.c:665-682 | What the rows are under limit and offset, where the limit is handled |
| SeriesMeaning.LimitGiven | mvsqlite-pgtypes-ext/series.c:665-682 | When it is, told by the numbers |
| SeriesCursor.ReadAll | mvsqlite-pgtypes-ext/series.c:288-345 | Reading to the end terminates and yields every row once |
| SeriesCursor.Cursor.Next | mvsqlite-pgtypes-ext/series.c:288-300 | One row on, without wrapping or failing an assertion |
| SeriesCursor.Cursor.Limit | mvsqlite-pgtypes-ext/series.c:665-682 | Offset and limit leave a cursor on the rows they should if and only if the condition on step, direction, limit and rows left holds |
| SeriesRows.CutWorksExactly | mvsqlite-pgtypes-ext/series.c:677-679 | The last row that a limit sets, computed in 64 bits, leaves a long enough start of the rows if and only if it is not before the first, or wraps round onto a row |
| SeriesRows.DescendingLimitFails | mvsqlite-pgtypes-ext/series.c:677-679 | Ten down to one with a limit of three puts the last row at twelve |
| SeriesRows.OffsetStays | mvsqlite-pgtypes-ext/series.c:667-674 | The first row that an offset sets, computed in 64 bits, leaves exactly the rows after those skipped |
| Series.NarrowUp | mvsqlite-pgtypes-ext/series.c:607-616 | Skips to the first value in bounds without overflow, or finds there is none |
| Series.NarrowDown | mvsqlite-pgtypes-ext/series.c:621-630 | The mirror image |
| Series.SetUp | mvsqlite-pgtypes-ext/series.c:606-644 | The part of an upward series within bounds, ending exactly at its last value |
| Series.SetDown | mvsqlite-pgtypes-ext/series.c:620-650 | The mirror image |
| Series.ValueRange | mvsqlite-pgtypes-ext/series.c:529-601 | The constraints on the value as one inclusive range, or none |
| Series.Span64 | mvsqlite-pgtypes-ext/series.c:190-193 | The distance between any two 64-bit integers is exact |
| Series.Add64 | mvsqlite-pgtypes-ext/series.c:199-203 | Sums that fit are exact |
| Series.Sub64 | mvsqlite-pgtypes-ext/series.c:204-208 | Differences that fit are exact |
| Series.MemberIsProgression | mvsqlite-pgtypes-ext/series.c:501-517 | Members are those of the progression with the unsigned step, also for a step of -2^63 |

## Left out

- HTTP serving, framing, serialisation, backoff and logging: plumbing. Each request is a call or a sequence of protocol steps.
- FoundationDB, zstd, blake3, the Bloom filter and the cache library: abstract, as stated above.
- The time-to-live test and the clock in content-index entries: the collector may treat any entry as young.
- The lease lock (mvstore/src/lock.rs): nothing depends on it.
- Acquiring a lock at an explicit older version, and rolling back a lock already marked, which has no exit in the code.
- RunEffects.FinishedRollbackRestores: the idempotency token beside the last write version is zeroed, as in the code, so only the version is restored; page versions and changelog entries that a truncation removed meanwhile are not brought back, though every page reads the same.
- RunEffects.StepKeepsReads: with overlapping truncations the bound is the greatest point any of them used, because one may delete what the other counted on; LoneTruncationKeepsReads has the sharper bound.
- Sessions.Session: SQLite is taken to write only with a write lock, and not to lower, by locking, the lock of a transaction that has written; which pages are fetched ahead is up to the call.
- ServerPromises.CheckIsKept: like serializability, stated for runs without a rollback.
- Connection.Connection.Read: partial reads of the first page, and reads of several sectors, are not modelled.
- Client.PrefetchExact: which pages the predictor chooses is not modelled; any set may be fetched ahead.
- Commit intents in which a flushed page is also a fast write: the count of pages is not modelled.
- Request encoding and background page writes in mvclient: a flushed page is on the server when write_many returns.
- Overlay namespaces, replica reads, time2version.
- Sums.Sum.Step: when memory or digits run out, the accumulator is marked and its digits mean nothing.
- Series: floating-point bounds, the planner callback and the start, stop and step columns.
- SeriesCursor.Cursor.Filter: where the limit is not handled, which rows a cursor then yields is not modelled.
- Decimals: a failed allocation is one flag per call of an operation; inputs that are not text (blobs of other lengths, SQL values) are not modelled.
- uuid.c, ipaddr and the extension glue.
