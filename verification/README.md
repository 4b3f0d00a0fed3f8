# Verified models of regolith's protocols

regolith is an embedded key-value store. Around its engine it has a handful of
protocols whose correctness is not visible in any one function: a lock-free rate
limiter, a concurrent pool of thread numbers, column families that are dropped
under writers, a backup repository and a restore that survive power cuts, a
checkpoint taken beside writers and compactions, counters summed while they are
added to, and prefix seeks that leave tables out. This project models those
protocols in Dafny and proves what each is for, over every run.

## How the models are built

- **Runs.** A protocol is a `State`, a `Step` for each atomic access or file
  operation, `Enabled`, and `Apply`. A run is a sequence of states joined by
  steps, chosen in any order by any number of threads. Results are lemmas about
  every state of every run; each rests on an invariant that every step keeps.
- **Objects.** Code that updates fields and loops is also given as a class whose
  methods are proved against functions of the old state: `RateLimiter`,
  `IndexPool`, `CfRegistry`, `BackupListing`, `BackupCollect`, `FileCopy`,
  `Tickers`, `Histograms` and the bloom builder in `PrefixSeek`. A failed weak
  compare-and-swap, a lost race, an error and the platform's clock are
  parameters of these methods.
- **Disks.** `Durable` gives a directory in which each name may come back from a
  power cut as anything it was since the last sync, independently of every other
  name, and a file whose bytes were not synced may come back with any bytes.
- **Numbers.** Integers are unbounded; each wrap, saturation and floor of the
  source is written out.

Where the code does not do what its documentation says in general, the model
follows the code. A lemma gives the input that shows it, and another the exact
condition under which the property does hold:

- The byte clock can count one stretch of time twice when a rate change that read
  the time earlier lands later (`AnEarlierReadLandsLater`,
  `RepacingKeepsTheReadingIff`).
- A limiter turned back on from a rate of zero does not start with a full bucket
  when a reservation from before it was turned off lands during the change
  (`ALateReservationIsOwed`, `StartsFullExactlyWhen`).
- A key shorter than a family id can fall in a family's range
  (`AShortKeyInAFamilysRange`, `ShortKeysInRange`).
- A round robin on a 64-bit cursor is balanced only at widths that divide its
  range (`OtherWidthsDoNot`, `BalancedIff`).
- A shared table renamed and then not synced is reused by the next backup, and a
  power cut can take it (`AFailedSyncCanLoseABackup`, `AFailedSyncIsSafeExactlyWhen`,
  `SafeExactlyWhenSettled`). Opening the repository again first puts it right
  (`ReopenMakesItSafe`).
- A restore that fails, or loses power, at its very last sync can leave a database
  (`AFailedAttemptCanLeaveADatabase`, `ACutAfterTheRenameGoesEitherWay`,
  `FailedLeavesADatabaseExactlyWhen`); the documentation says a restore that does
  not return Ok leaves none.
- A checkpoint writes its MANIFEST in place and asks only whether `sst/` is empty,
  so a job that fails can leave a torn MANIFEST or an old one
  (`AFailedJobCanLeaveATornManifest`, `AnOldManifestIsTaken`,
  `ManifestIsWholeExactlyWhenFinished`).
- The default `extract_query` is documented as safe for every extractor. It loses
  rows for one that extracts through the last colon (`LastColonSeekMissesARow`,
  `DefaultQueryIsSafeIff`).
- A later ticker read is less than an earlier one when the total wraps in between
  (`AWrapMakesALaterReadLess`, `ReadsFallWhenTheTotalWraps`).
- A histogram of nothing but the largest value reports a minimum of zero
  (`TheLargestSampleReadsAsZero`, `QuietSnapshotIsExact`).

## Modules

| module | what it holds |
|---|---|
| `Words`, `Bits`, `Durable`, `Lsm`, `Shards` | machine words, bits of a word, directories under power cuts, tables and merges, sharded sums |
| `ByteClock`, `RateLimiter`, `RateLimiterRuns`, `RateLimiterRefill`, `RateLimiterRestart`, `TokenBucket`, `RateLimiterRequests` | the rate limiter: its clock, its methods, its interleavings, its bound across rate changes, turning it back on, the bucket it refines, and requests in sequence |
| `IndexPool`, `IndexPoolRuns`, `SharedNumbers` | the thread number pool alone, under threads that come and go, and past its end |
| `FamilyKeys`, `CfRegistry`, `CfRegistryRuns`, `FamilyCommits` | column families: keys, registry, readers of the registry, commits and drops |
| `BackupNames`, `BackupListing`, `BackupCollect`, `BackupStore`, `BackupOutcomes`, `BackupRestore`, `BackupRestoreReruns` | the backup repository and its restores |
| `Checkpoint`, `FileCopy` | the checkpoint job, and the copy through a window |
| `Tickers`, `Histograms` | statistics |
| `PrefixSeek` | prefix blooms and seeks |

## Model

| member | source | states |
|---|---|---|
| `RateLimiterRuns.ReleasedWithinTheBurst` | src/rate_limiter.rs:217-234 | in every interleaving of requests, rate changes and stops, when the clock lets a Low request go, any consecutive reservations ending with it total at most the burst plus what the clock read since the first of them |
| `RateLimiterRuns.ReleasedWithinTheRate` | src/rate_limiter.rs:240-259 | the same bound in time, for two readings of one pace: at most the burst plus rate times the time between them, rounded up, a time read before the pace began counting as its beginning |
| `RateLimiterRuns.RunKeepsDated` | src/rate_limiter.rs:350-371 | a request is let go at a time read no earlier than the time of every reservation up to its own |
| `RateLimiterRefill.ReleasedWithinTheRefill` | src/rate_limiter.rs:217-300 | across any rate changes that read time in order, the bytes let go are at most the burst, the exact refill at the rates in force between the two readings, and a byte, requests that read time before the pace they then load included |
| `RateLimiterRefill.PaceIsTheChanges` | src/rate_limiter.rs:280-300 | the pace in force is the changes that landed applied in order: none is computed from a pace another replaced |
| `RateLimiterRefill.AnEarlierReadLandsLater` | src/rate_limiter.rs:275-300 | a run in which a change that read time 0 lands after one that read one second, and the reading jumps by a thousand bytes |
| `RateLimiterRestart.StartsFullExactlyWhen` | src/rate_limiter.rs:275-300 | a limiter turned back on from zero starts with a full bucket if no reservation landed between the change's load of the word and its swap; if one did, exactly when the clock was already past the word it left |
| `RateLimiterRestart.ALateReservationIsOwed` | src/rate_limiter.rs:275-300 | a run, at any rate and for any request, in which it does not: it owes a reservation whose reading is from before it was turned off |
| `RateLimiterRestart.WordGrowsByReservations` | src/rate_limiter.rs:219-234 | the word moves exactly when a reservation lands, and then it grows, short of its end |
| `RateLimiterRuns.FirstComeFirstServed` | src/rate_limiter.rs:350-371 | targets never fall in the order the swaps landed, and a reading that let a request go is enough for every request that reserved before it, at whatever point of its wait |
| `RateLimiterRuns.ReservationsOnlyGrow` | src/rate_limiter.rs:219-234 | no later step rewrites a reservation or a release |
| `RateLimiterRuns.LetGoOnce` | src/rate_limiter.rs:350-371 | no reservation is let go twice |
| `RateLimiterRuns.NoRequestSlipsPast` | src/rate_limiter.rs:350-371 | in every run a request goes through only for want of a clock or bytes, with the limiter off, on its reservation if High, or by the clock at its target |
| `RateLimiterRuns.AStopLetsEveryoneGo` | src/rate_limiter.rs:209-215 | a stopped limiter stays so, turns new requests away without a reservation and ends every wait at its next look |
| `RateLimiterRuns.ChainCovers` | src/rate_limiter.rs:219-234 | the reserved word covers every byte reserved between two reservations, saturation aside |
| `RateLimiterRuns.RunKeepsInv` | src/rate_limiter.rs:217-300 | reservations chain through the word, every waiter aims at its own reservation's target, every reading kept is true |
| `ByteClock.ClockTracksExactRefill` | src/rate_limiter.rs:280-300 | after any rate changes read in order the clock is never above the exact sum of rate times time and less than one byte per pace below it |
| `ByteClock.ReadingsNeverFall` | src/rate_limiter.rs:175-181 | across rate changes read in order the clock never runs backwards |
| `ByteClock.NanosAndBytesMeet` | src/rate_limiter.rs:116-127 | the time for b bytes buys at most b bytes, and one nanosecond more buys all of them |
| `ByteClock.FloorsAreSuperadditive` | src/rate_limiter.rs:123-127 | two stretches of time buy together at least what they buy apart |
| `ByteClock.BytesForIsAFloor` | src/rate_limiter.rs:123-127 | the 128-bit product never saturates; the result is the floor, capped at 64 bits |
| `ByteClock.ClockStep` | src/rate_limiter.rs:175-181 | one pace reads a later time no lower, by at most what the rate buys, rounded up |
| `ByteClock.RepacingKeepsTheReadingIff` | src/rate_limiter.rs:275-300 | a rate change leaves the reading where it was if and only if its time read is not older than the pace by a byte's worth |
| `ByteClock.AnOutOfOrderReadCountsTimeTwice` | src/rate_limiter.rs:275-300 | the arithmetic of it: a change that read time before the pace in force began adds a thousand bytes out of nowhere |
| `TokenBucket.TheWordIsATokenBucket` | src/rate_limiter.rs:129-152 | the reserved word and the clock say exactly the balance of a bucket that refills to the burst and may go into debt |
| `TokenBucket.ReadyIsOutOfDebt` | src/rate_limiter.rs:367-370 | a Low request is ready exactly when the bucket after its own deduction is not in debt |
| `TokenBucket.ServedAtOnceIff` | src/rate_limiter.rs:219-234 | a Low request goes straight through exactly when the bucket covers it |
| `TokenBucket.TheWordIsOwedCapped` | src/rate_limiter.rs:219-234 | saturation only caps the word |
| `RateLimiter.WaitLoopEnds` | src/rate_limiter.rs:239-259 | at a positive rate the wait loop ends, and only once the clock reached its target |
| `RateLimiter.WaitLoopWakesRarely` | src/rate_limiter.rs:239-259 | it naps at most once per sleep slice owed, and two more |
| `RateLimiter.ClockReaches` | src/rate_limiter.rs:239-259 | once the time for the missing bytes and a nanosecond has passed the clock has reached its target |
| `RateLimiter.WaitsEndExactlyWhen` | src/rate_limiter.rs:240-259 | a turn ends the wait exactly when the limiter is stopped or off, there is no clock, or the clock has reached the target |
| `RateLimiter.NapsDoNotOversleep` | src/rate_limiter.rs:240-259 | a nap is a nanosecond to a slice, and at no moment before its end has the clock passed the target |
| `RateLimiter.TokenBucketRateLimiter.constructor` | src/rate_limiter.rs:194-207 | an empty word, the clock at zero, a burst of at least one |
| `RateLimiter.TokenBucketRateLimiter.Stop` | src/rate_limiter.rs:213-215 | the flag is set and nothing else changes |
| `RateLimiter.TokenBucketRateLimiter.Reserve` | src/rate_limiter.rs:219-234 | with any failed swaps first, the reservation is taken on the word as the last of them left it |
| `RateLimiter.TokenBucketRateLimiter.WaitUntil` | src/rate_limiter.rs:240-259 | the loop ends at the first turn stopped or served, after the stated nap at each turn before it |
| `RateLimiter.TokenBucketRateLimiter.Count` | src/rate_limiter.rs:268-273 | exactly one class's total grows, wrapping |
| `RateLimiter.TokenBucketRateLimiter.SetBytesPerSecond` | src/rate_limiter.rs:280-300 | after any lost swaps the new pace is computed from the winner's |
| `RateLimiter.TokenBucketRateLimiter.Request` | src/rate_limiter.rs:350-371 | a request reserves exactly when the limiter is neither stopped nor off, there is a clock and it is for some bytes; a Low one waits to the first turn stopped, off, without a clock or at its target; it is counted unless stopped |
| `RateLimiterRequests.RequestAll` | src/rate_limiter.rs:350-371 | any requests to a fresh limiter one after another: its word is the token bucket's for one reservation of each request of some bytes, each Low one waited until the clock covered its target and no longer, and every byte is counted in its class |
| `IndexPoolRuns.SetBitsAreOwnedOnce` | src/per_thread.rs:111-161 | over every run of claims, give-backs, exits and late calls from destructors, the set bits are exactly the numbers owned, each by one thread, all below the width |
| `IndexPoolRuns.GivenBackIsNotKept` | src/per_thread.rs:133-161 | the step that gives a number back leaves it neither held nor owned by that thread, takes it from nobody else, and comes after the thread stopped remembering it |
| `IndexPoolRuns.TheDeadOwnNothing` | src/per_thread.rs:147-161 | a thread that ended owns nothing |
| `IndexPoolRuns.NumbersAreBelowTheWidth` | src/per_thread.rs:111-143 | a thread's number, owned or shared, is below the width |
| `IndexPoolRuns.SharedMeansEveryWordWasFull` | src/per_thread.rs:201-232 | a shared number is handed out only after every word of the pool was full at some moment of that call |
| `IndexPoolRuns.RunKeepsInv` | src/per_thread.rs:201-239 | one owner for each number, bits and owners agree, each thread's cells agree with where it is |
| `IndexPoolRuns.WonSwap` | src/per_thread.rs:201-232 | a won swap sets exactly the number it claims, which was clear |
| `IndexPoolRuns.CallsEndWithANumber` | src/per_thread.rs:111-161 | a call ends only by giving the thread the number it claimed |
| `IndexPoolRuns.SharedClaimsGoRound` | src/per_thread.rs:228-232 | the shared claims of a run get the numbers of the round robin in order |
| `IndexPool.IndexPool.constructor` | src/per_thread.rs:176-194 | a new pool has every number free |
| `IndexPool.IndexPool.Claim` | src/per_thread.rs:201-232 | run alone a claim takes the least free number below the clamped width, or a shared one exactly when none is free |
| `IndexPool.IndexPool.ClaimBit` | src/per_thread.rs:201-232 | the loop on one word takes its least free usable bit, or finds all set, however often swaps fail for no reason |
| `IndexPool.IndexPool.GiveBack` | src/per_thread.rs:235-239 | exactly that number becomes free; one past the bitmap changes nothing |
| `IndexPool.LeastFree` | src/per_thread.rs:201-232 | the trailing zeros of the masked complement are the least clear usable bit |
| `IndexPool.FullWord` | src/per_thread.rs:201-232 | a zero masked complement means every usable bit is set |
| `SharedNumbers.WidthIsACoveringPowerOfTwo` | src/per_thread.rs:85-92 | the width is the least power of two that covers the cores, capped, and one without threads |
| `SharedNumbers.WidthDividesTheCursor` | src/per_thread.rs:85-92 | every such width divides 2^64 |
| `SharedNumbers.SharedClaimsStayBalanced` | src/per_thread.rs:228-232 | over any consecutive shared claims, a wrap of the cursor included, no number is handed out twice more than another |
| `SharedNumbers.BalancedIff` | src/per_thread.rs:228-232 | the round robin is balanced exactly at the widths that divide the cursor's range |
| `SharedNumbers.OtherWidthsDoNot` | src/per_thread.rs:228-232 | at any other width the claims around the wrap hand out 0 twice and the last number not at all |
| `FamilyKeys.PrefixKeyRoundTrip` | src/column_family.rs:153-180 | an engine key gives back the family and the caller's key it was made of, and every long enough key is one |
| `FamilyKeys.PrefixKeyKeepsOrder` | src/column_family.rs:153-165 | engine keys are ordered by family, then by the caller's key |
| `FamilyKeys.RangeIsTheFamily` | src/column_family.rs:182-204 | for every id that has a range, a key of at least four bytes is in it if and only if it carries that id |
| `FamilyKeys.RangesAreDisjoint` | src/column_family.rs:182-204 | no key of any length is in the ranges of two families |
| `FamilyKeys.ShortKeysInRange` | src/column_family.rs:182-204 | which keys shorter than an id fall in a family's range: exactly those the next id begins with, zeros after |
| `FamilyKeys.AShortKeyInAFamilysRange` | src/column_family.rs:182-204 | a three-byte key that carries no id is in the range of family 255 |
| `FamilyKeys.NoRangePastTheLastId` | src/column_family.rs:86-101 | the largest id has an empty range, which is why it is never given out |
| `FamilyKeys.NameScanMeetsTheNames` | src/column_family.rs:225-239 | a key is in the name scan's range if and only if it begins with the name prefix |
| `FamilyKeys.NameKeyRoundTrip` | src/column_family.rs:209-247 | name keys and UTF-8 names are inverse, and the counter's key is no name key |
| `FamilyKeys.RegistryKeysAreLaidOut` | src/column_family.rs:209-239 | the registry's keys byte for byte |
| `FamilyKeys.BigEndianRoundTrip` | src/column_family.rs:153-165 | four bytes give back the id |
| `CfRegistry.CfRegistry.constructor` | src/column_family.rs:294-300 | no families and the counter at the first id after the default's |
| `CfRegistry.CfRegistry.Insert` | src/column_family.rs:319-329 | both maps get the entry |
| `CfRegistry.CfRegistry.Load` | src/column_family.rs:304-317 | the maps are what the entries say, later ones over earlier |
| `CfRegistry.CfRegistry.Get` | src/column_family.rs:331-338 | a handle exactly for a name there is, with its live id |
| `CfRegistry.CfRegistry.Publish` | src/column_family.rs:375-379 | exactly one handle becomes live and the counter passes its id |
| `CfRegistry.CfRegistry.Retire` | src/column_family.rs:385-390 | exactly that id's handle stops being live; a second retire changes nothing |
| `CfRegistry.DistinctEntriesLoadInverse` | src/column_family.rs:304-317 | entries with distinct names and ids load into maps that are each other's inverse |
| `CfRegistry.IdsGivenOutHaveARange` | src/column_family.rs:360-371 | the next id is the counter's, and there is one exactly while its family would have a range |
| `CfRegistryRuns.SettledMapsAreInverses` | src/column_family.rs:375-390 | between ordered steps the two maps are exact inverses |
| `CfRegistryRuns.GetFindsTheLiveOne` | src/column_family.rs:331-338 | a reader between the single map writes that gets a handle found the one id live under that name at its second lookup |
| `CfRegistryRuns.GetMissesOnlyTheUnpublished` | src/column_family.rs:331-338 | a reader that finds nothing had a moment of its call when the name was not fully published |
| `CfRegistryRuns.GetFindsThePublished` | src/column_family.rs:331-338 | a reader whose name stays published while it looks finds its id |
| `CfRegistryRuns.PublishedKeepsItsId` | src/column_family.rs:375-390 | while a name stays published its id does not change |
| `CfRegistryRuns.RetireLeavesOthersNamed` | src/column_family.rs:385-390 | retiring an old id never takes the name from a newer family |
| `CfRegistryRuns.LivesMoveOneWay` | src/column_family.rs:360-390 | an id goes unborn, live, dropped and never back |
| `CfRegistryRuns.PublishAlone` | src/column_family.rs:375-379 | undisturbed, the writes of a publish come to the new id in both maps and the counter past it |
| `CfRegistryRuns.RetireAlone` | src/column_family.rs:385-390 | and those of a retire to the id and its name gone from both |
| `FamilyCommits.NothingVisibleOutsideLiveFamilies` | src/column_family.rs:67-78 | in every commit order of creates, writes, range deletes, drops and reopens, nothing is visible in the range of a family that is not live |
| `FamilyCommits.AcknowledgedWhileLive` | src/cf_race_tests.rs:3-12 | every write sequenced was to families live then, the one a range delete ends in among them, and none of it is visible once its family is gone |
| `FamilyCommits.WritesAreAcceptedExactlyWhen` | src/engine/commit/families.rs:64-122 | a write is sequenced, all of it, if and only if each operation is on a family live then and each range delete ends with its family or in a live one; otherwise nothing changes |
| `FamilyCommits.ReadsFindTheLastWrite` | src/engine/commit/families.rs:64-122 | a read after a sequenced write finds what its last operation on the key says, and what it found before where none is on it |
| `FamilyCommits.LivesMoveOneWay` | src/column_family.rs:253-275 | ids never come back, across reopens too |
| `FamilyCommits.NewFamiliesAreEmpty` | src/column_family.rs:360-379 | a family just created is empty whatever had its name before |
| `FamilyCommits.CreatedIsLive` | src/engine/commit/families.rs:124-167 | a create of a new name makes exactly it live under the next id and changes what is found in no family; of a name that is live, or with no id left, nothing |
| `FamilyCommits.DroppedIsGone` | src/engine/commit/families.rs:169-194 | a drop of a live handle takes exactly it out with all it held and changes what is found in no other family |
| `FamilyCommits.RefusalsAreTheStated` | src/engine/commit/families.rs:124-194 | a create of a new name is refused only when ids ran out, a drop only for a handle not live or the default family |
| `FamilyCommits.ReopenRestoresTheRegistry` | src/lib.rs:572-612 | what a reopen scans from the log gives back the registry and its counter as they were |
| `FamilyCommits.ScanIsTheRegistry` | src/lib.rs:572-612 | the scan's entries are distinct and exactly the live families |
| `FamilyCommits.DropPassesTheFence` | src/engine/commit/families.rs:64-122 | the liveness check never refuses a drop its own range |
| `FamilyCommits.CreatePassesTheFence` | src/engine/commit/families.rs:64-122 | nor a create its own keys |
| `FamilyCommits.CallersMissTheRegistry` | src/engine/commit/families.rs:203-234 | no caller's operation that passes the check reaches a registry key |
| `FamilyCommits.LogOnlyGrows` | src/engine/commit/families.rs:64-194 | nothing sequenced is taken back |
| `BackupStore.SurvivingBackupsAreWhole` | src/backup.rs:171-174 | in every run of creates, deletes, purges, collections, errors, power cuts, process deaths and reopens whose syncs of shared/ after a rename succeed, each backup shown has every listed table durable with its size and bytes |
| `BackupStore.ReopenKeepsInv` | src/backup.rs:138-155 | a process may die at any step: the open that follows syncs both directories and nothing is lost |
| `BackupStore.CreatedIsDurable` | src/backup.rs:180-249 | a create that returned has made its metadata durable |
| `BackupOutcomes.CreatedListsEveryTable` | src/backup.rs:200-249 | a create that returned lists every table of the database it was given, copied or reused, in order and with its size, and listing and tables are durable |
| `BackupOutcomes.CreateCanComplete` | src/backup.rs:180-249 | from any idle repository, for any tables of their sizes with no folder in their place, a create can run to its end beside every other backup |
| `BackupOutcomes.OnlyDeletesChangeABackup` | src/backup.rs:180-249 | no step but a delete's removal or a power cut changes a backup that is there |
| `BackupOutcomes.DeletedIsGone` | src/backup.rs:399-448 | once a delete or purge has synced its removals, exactly the backups asked for are gone, for good, before it looks at a table |
| `BackupOutcomes.CollectedLeavesOnlyListed` | src/backup/collect.rs:42-77 | a collection that ran to its end left no table that no backup lists |
| `BackupStore.RemovedTablesAreUnlisted` | src/backup.rs:371-448 | a table removed is in no listing, readable or not, nor in one a power cut could bring back |
| `BackupStore.UnreadableListingsStopTheCollection` | src/backup/collect.rs:83-121 | a table is removed only after this very sweep read the listing of every backup there is; one that cannot be read ends the collection |
| `BackupStore.SafeExactlyWhenSettled` | src/backup.rs:516-536 | an idle repository with whole backups, whatever syncs failed before, stays so through everything that can follow if and only if every table that verifies is durable: the reuse branch adds no sync |
| `BackupStore.AFailedSyncIsSafeExactlyWhen` | src/backup.rs:568-589 | a run's first failed sync after a rename breaks no backup, and going on from it is safe if and only if the table was durable already |
| `BackupStore.ReopenMakesItSafe` | src/backup.rs:138-155 | in every run, failed syncs included, opening the repository again while no backup has lost a table makes it safe from then on |
| `BackupStore.WholeAgainAfterReopen` | src/backup.rs:138-155 | from such a reopen until the next sync that fails, every backup shown has its tables |
| `BackupStore.RunKeepsTablesSynced` | src/backup.rs:568-589 | in every run no table's name stands for, or comes back as, bytes that were not synced |
| `BackupStore.UnsettledTablesCanBeLost` | src/backup.rs:516-536 | a table that verifies and is not durable can be listed by the next backup and lost by the next power cut |
| `BackupStore.AFailedSyncCanLoseABackup` | src/backup.rs:568-589 | a sync that fails after the rename leaves such a table, from an empty repository |
| `BackupStore.RunKeepsInv` | src/backup.rs:371-448 | the invariant behind the above, through every step |
| `BackupCollect.Repository.CollectShared` | src/backup/collect.rs:42-77 | a collection that completes read every listing in every sweep and leaves exactly the listed tables; any other removed only unlisted ones, in the sweeps before a listing could not be read |
| `BackupCollect.Repository.Sweep` | src/backup/collect.rs:83-121 | a batch's listings are all read first, and what is removed is in none of them |
| `BackupNames.BackupNamesAreOneToOne` | src/backup.rs:611-629 | a name parses to an id if and only if it is the name printed for it, for every 64-bit id: no sign or padding variant does |
| `BackupNames.SharedNamesAreOneToOne` | src/backup.rs:607-622 | the same for 128-bit content ids |
| `BackupNames.PaddedParses` | src/backup.rs:607-629 | padded digits parse to the number, past the padding too |
| `BackupNames.FileNamesAreWrittenOut` | src/backup.rs:607-613 | a backup's name is its id in decimal, six digits or as many as it takes; a shared table's its content id in 32 lower-case hexadecimal digits |
| `BackupListing.MetaDir.NextBackupId` | src/backup.rs:477-485 | a new id exceeds every id present by the least that does, and there is none exactly when the walk fails or the largest id is taken |
| `BackupListing.MetaDir.PageAfter` | src/backup/listing.rs:22-55 | one walk in any order yields the smallest ids above a bound, ascending, as many as fit |
| `BackupListing.MetaDir.CountBackups` | src/backup.rs:453-460 | the number of backups, strays not counted, unless the walk fails |
| `BackupListing.MetaDir.PurgeOldBackups` | src/backup.rs:404-448 | a purge, any of its walks or removals failing, removes only from the oldest up and never below the number kept, and one that completes leaves exactly that many, the largest |
| `BackupListing.OfferedIsSmallest` | src/backup/listing.rs:30-55 | the bounded page keeps the smallest candidates seen |
| `BackupRestore.AnyManifestIsComplete` | src/backup.rs:318-369 | through any attempts, errors and power cuts, a MANIFEST the target shows or could come back with names only tables in place for good with the backup's bytes |
| `BackupRestore.OnlyIntactObjectsAreCopied` | src/backup.rs:358-363 | a table is copied exactly when the object stored for it has the entry's bytes and size; otherwise the attempt fails with the target as it was |
| `BackupRestore.RestoreCanComplete` | src/backup.rs:318-369 | from any target at rest without a MANIFEST, whatever attempts left there, with the keys and intact objects, an attempt can run to its end |
| `BackupRestore.RestoredStays` | src/backup.rs:318-369 | a restore that returned Ok leaves its MANIFEST and tables through every later attempt and power cut |
| `BackupRestore.ADatabaseIsLeftAlone` | src/backup.rs:324-331 | any number of attempts on a directory with a MANIFEST change nothing |
| `BackupRestore.RefusedLeavesTheTarget` | src/backup.rs:332-346 | an attempt refused by any check, the MANIFEST's, the metadata's, the current key's or a table footer's, leaves the target exactly as it began |
| `BackupRestore.ChecksTouchNothing` | src/backup.rs:324-346 | so does one given up while still checking, and one cut by a power cut then leaves only what the cut makes of the disk it found |
| `BackupRestore.WritesBeginOnlyWithTheKeys` | src/backup.rs:332-352 | an attempt makes its first change only with no MANIFEST there, metadata its keys open and, with keys given, the current one and every sealed table's |
| `BackupRestore.FailedLeavesADatabaseExactlyWhen` | src/backup.rs:310-313 | an attempt that ended in an error left a database if and only if it had renamed the MANIFEST and not synced it; one that ended in a power cut only then |
| `BackupRestore.ACutAfterTheRenameGoesEitherWay` | src/backup.rs:310-313 | from that point some power cut keeps the MANIFEST and another loses it |
| `BackupRestore.AFailedAttemptCanLeaveADatabase` | src/backup.rs:591-601 | attempts from an empty directory that end in an error with a MANIFEST there |
| `BackupRestore.AttemptsKeepInv` | src/backup.rs:318-369 | every placed table is durable before the next is begun, and all before the MANIFEST |
| `BackupRestoreReruns.RestoredIsExact` | src/backup.rs:310-369 | attempts at one backup in a fresh directory, cut short anywhere, end in exactly its tables and no leftover |
| `BackupRestoreReruns.RerunsEndAlike` | src/backup.rs:310-369 | so the final state is the one an undisturbed attempt reaches |
| `Checkpoint.CheckpointIsOnePoint` | src/checkpoint.rs:19-26 | in every interleaving of commits, seals, flushes, manifest rewrites and merges, a finished checkpoint's MANIFEST names exactly its tables, they are the captured ones, and they read as one prefix of the writes: all acknowledged before the drain, none after the capture |
| `Checkpoint.JobCanFinish` | src/checkpoint.rs:161-209 | wherever a run has got to, once the passes under way are over, a job into an empty sst/ can finish |
| `Checkpoint.ManifestIsWholeExactlyWhenFinished` | src/checkpoint.rs:99-209 | at every step of every job, failed ones included, the target shows a MANIFEST exactly when it had one or the job opened it; from then on a whole and synced one exactly when the job is done |
| `Checkpoint.AFailedJobCanLeaveATornManifest` | src/checkpoint.rs:199-206 | a run whose write of the MANIFEST fails leaves what it wrote |
| `Checkpoint.AnOldManifestIsTaken` | src/checkpoint.rs:99-118 | a run on a target with an empty sst/ and any old MANIFEST passes the preparation and, failing, leaves the old one |
| `Checkpoint.UnlinksSpareTheVersion` | src/engine/mod.rs:2984-3023 | no merge installs or unlinks while the checkpoint has the gate, and no unlink ever takes a table the version names |
| `Checkpoint.DrainsAreNotExtended` | src/engine/drain.rs:20-34 | a drain is over after as many flushes as it had targets, whatever is sealed meanwhile |
| `Checkpoint.CutIsTheCaptures` | src/engine/mod.rs:2997-3023 | the captured tables keep their bytes until they are linked, and in the target |
| `Checkpoint.RunKeepsInv` | src/checkpoint.rs:19-26 | version, manifest log, tables, passes, drain and job agree at every step |
| `Lsm.MergeKeepsReadings` | src/checkpoint.rs:19-26 | a merge that keeps each key's newest cell, or drops a key deleted everywhere, changes no reading |
| `Lsm.FlushExtendsThePrefix` | src/engine/drain.rs:29-34 | flushing the oldest memtable brings the tables up to its end |
| `FileCopy.CopyTruncated` | src/checkpoint.rs:216-237 | the copy through a 16 KiB window is the first bytes of the source, as many as asked for or there are |
| `FileCopy.CopyWhole` | src/backup.rs:568-589 | the copy through a 64 KiB window is the source |
| `FileCopy.CopyPrefix` | src/checkpoint.rs:216-237 | the windows neither overlap nor leave a gap, whatever their size |
| `Tickers.ReadIsATotalInBetween` | src/statistics.rs:507-512 | a read beside adds in any interleaving returns, modulo 2^64, a total between the true totals at its start and its end |
| `Tickers.ReadAtRestIsExact` | src/statistics.rs:502-506 | at rest a read is the sum of every amount modulo 2^64, shared shards included |
| `Tickers.ReadsNeverFallBelowTheWrap` | src/statistics.rs:507-512 | while totals stay below 2^64 a read that follows another returns no less |
| `Tickers.LaterReadIsNoLessIff` | src/statistics.rs:507-512 | when the total grew by less than 2^64 in between, it returns no less exactly when no multiple of 2^64 was crossed |
| `Tickers.ReadsFallWhenTheTotalWraps` | src/statistics.rs:507-512 | in terms of the totals: a read after another returns no less when the total crossed no multiple of 2^64 meanwhile, less when it crossed one between them, and at rest exactly so |
| `Tickers.AWrapMakesALaterReadLess` | src/statistics.rs:507-512 | the largest amount added and read, then one more: the second read is zero |
| `Tickers.Ticker.constructor` | src/statistics.rs:597-605 | a power of two of shards, all zero |
| `Tickers.Ticker.Add` | src/statistics.rs:684-689 | one shard grows, wrapping |
| `Tickers.Ticker.GetTicker` | src/statistics.rs:613-620 | the loop returns the shards' sum modulo 2^64 |
| `Tickers.SumIsTheTotal` | src/statistics.rs:613-620 | what the loop sums is the total of the adds modulo 2^64 |
| `Tickers.Ticker.Reset` | src/statistics.rs:644-654 | every shard is zero |
| `Shards.MaskPicksAShard` | src/statistics.rs:607-611 | masking a thread number with the shard count less one is its remainder |
| `Shards.SharesMakeTheTotal` | src/statistics.rs:492-498 | nothing is lost or counted twice across shards |
| `Histograms.QuietSnapshotIsExact` | src/statistics.rs:424-460 | once no recorder runs, over every interleaving and spread over shards, a snapshot has every sample's count modulo 2^64, the saturated sum and the true maximum, and the true minimum if and only if some sample was below the largest value |
| `Histograms.TheLargestSampleReadsAsZero` | src/statistics.rs:634-641 | the run that records the largest value reports minimum zero |
| `Histograms.RunKeepsInv` | src/statistics.rs:424-450 | counts, capped sums and bounds hold for the part each recorder has done, skipped steps included |
| `Histograms.HistogramData.constructor` | src/statistics.rs:413-422 | the empty histogram |
| `Histograms.HistogramData.Record` | src/statistics.rs:431-450 | the skips and retries come to one count, one saturating sum, a minimum and a maximum |
| `Histograms.RecordAll` | src/statistics.rs:424-450 | any samples recorded one after another: their number modulo 2^64, their sum capped, the least and the greatest |
| `Histograms.RecordAlone` | src/statistics.rs:431-450 | an undisturbed recorder of a run does to its shard what the method does |
| `Histograms.HistogramData.FoldInto` | src/statistics.rs:455-460 | counts add wrapping, sums saturating, bounds widen |
| `Histograms.HistogramData.Clear` | src/statistics.rs:462-467 | the empty histogram again |
| `Histograms.Snapshot` | src/statistics.rs:622-642 | the fold over the shards, with nothing reported as nothing |
| `PrefixSeek.SeekIsTheScanIff` | src/prefix_form_tests.rs:7-11 | over every stack of tables of every form and extractor, with puts and deletes, a prefix seek returns what a full scan has under the prefix if and only if every key under it extracts to what the seek asks for |
| `PrefixSeek.SoundSeekIsTheScan` | src/engine/prefix_call.rs:70-145 | the direction a database relies on, stack by stack |
| `PrefixSeek.TheNewestTableWins` | src/prefix_form_tests.rs:288-361 | the newest table that has the key decides, by a row or a delete |
| `PrefixSeek.FamiliesAreFiledApart` | src/engine/prefix_call.rs:66-105 | one prefix in two families is two entries, and the database's own entries are neither filed nor asked for |
| `PrefixSeek.NeverRuledOutForAKey` | src/engine/filter_block.rs:164-177 | a sound probe rules out no table with a put or delete under the prefix |
| `PrefixSeek.UnsoundSeekMissesAKey` | src/options.rs:568-578 | an extractor that is not sound loses a row of some one-table database |
| `PrefixSeek.FixedLengthIsSound` | src/options.rs:588-611 | the fixed-length extractor is sound for every width and prefix |
| `PrefixSeek.FixedLengthSeekIsTheScan` | src/options.rs:588-611 | so a seek under it returns what the scan has, at every width and in every family |
| `PrefixSeek.FixedLengthExtractsThePrefix` | src/options.rs:593-604 | it extracts exactly the first bytes of each key that has them |
| `PrefixSeek.ThroughColonExtractsThePrefix` | src/prefix_form_tests.rs:23-37 | it extracts what ends with the first colon of each key that has one |
| `PrefixSeek.FixedLengthNamesAreOneToOne` | src/options.rs:606-634 | its name tells its width |
| `PrefixSeek.DefaultQueryIsSafeIff` | src/options.rs:568-578 | the default query agrees with the scan in every family and for every prefix exactly for the stable extractors |
| `PrefixSeek.FirstColonIsSafe` | src/prefix_form_tests.rs:23-37 | extracting through the first colon is stable |
| `PrefixSeek.FirstColonSeekIsTheScan` | src/prefix_form_tests.rs:23-37 | so a seek under it with the default query returns what the scan has |
| `PrefixSeek.LastColonIsNot` | src/options.rs:568-578 | extracting through the last colon is not |
| `PrefixSeek.LastColonSeekMissesARow` | src/options.rs:568-578 | in every family, a one-table database in which a seek for a colon misses the row under it |
| `PrefixSeek.HashPrefixes` | src/engine/sstable.rs:992-1016 | skipping an entry equal to the one before leaves each key's entry hashed, and nothing else |
| `PrefixSeek.PrefixBloomBuilder.AddKey` | src/engine/sstable.rs:992-1016 | one key adds its entry or nothing |

## Left out

- Hardware memory orders: atomics are single steps in one order, and a weak compare-and-swap may fail for no reason.
- The engine behind these protocols: write-ahead log, memtable and block formats, level choice, the FIFO compaction style that drops whole tables, snapshots, transactions, ingest and `drop_all`.
- Encryption itself: a key either opens what is sealed under it or does not, and the bytes of the sealed MANIFEST a restore writes are not modelled.
- Hash functions: a content id is taken to be injective on the tables in play, and a bloom filter to have no false negatives.
- Merge operands and range deletions inside the tables of `Lsm` and `PrefixSeek`; range deletions are modelled in `FamilyCommits` only.
- Creating and restoring backups, and the checkpoint job, are modelled on values and not as objects, because each can be cut off or interleaved between any two file operations.
- A directory's own entry in its parent, except for the `sst/` and `wal/` folders of a restore.
- Power cuts during and after a checkpoint: the job syncs its MANIFEST's bytes and no directory.
- RateLimiterRuns.ReleasedWithinTheBurst: says nothing of a reservation that reached the end of the 64-bit word.
- RateLimiterRuns.ReleasedWithinTheRate: speaks of two readings of one pace; `ReleasedWithinTheRefill` gives the bound across rate changes.
- RateLimiterRefill.ReleasedWithinTheRefill: bounds nothing across changes that read time out of order, which can add to the clock, or across a rate of zero, during which nothing is paced.
- RateLimiterRestart.StartsFullExactlyWhen: where a reservation landed in between, says nothing of a word at its 64-bit end.
- Tickers.LaterReadIsNoLessIff: speaks of the reads' own sums; `ReadsFallWhenTheTotalWraps` turns them into totals.
- Checkpoint.CheckpointIsOnePoint: reads tables by sequence number; that level 0 files are also ordered by age is not modelled.
- Tickers.ReadIsATotalInBetween: a reset racing a read or an add is not modelled; a run begins when every shard is zero.
- Histograms.QuietSnapshotIsExact: a reset racing a recorder is not modelled; the source calls it approximate.
- Option presets and validation, error conversions, performance contexts, event listeners, iterators, raw slices and the streaming writers, which would only add easy members.
- The wasm and OPFS platforms, whose wait loop returns at once and whose pool has one number.
