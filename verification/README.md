# Verified models of an Elements node

A Dafny 4.11 project that models the in-memory state machines, codecs and exact arithmetic
of an Elements (Bitcoin) node and proves what they are for. `dafny verify dfyconfig.toml`
checks it all; nothing is assumed and nothing in it is executed.

Each component has a model on values, whose properties are lemmas, and, where the source
updates objects or arrays in loops, methods with the same loops that are proved to compute
what the model says.

| Component | Files | What is proved at the centre |
|---|---|---|
| Coin caches | CoinsSpec, CoinsRefinement, CoinsViews | a stack of caches over a database shows plain ledgers in every legal run |
| Address manager | AddrManSpec, AddrManLemmas, AddrManOps, AddrManOutcomes, AddrManCases, AddrMan, AddrManCheck | the whole `Check_` invariant in every run, and what each operation decides |
| Check queue | CheckQueue | safety of every interleaving, and a bound on waiting |
| Signature cache | CuckooSpec, CuckooLemmas, CuckooLaws, CuckooCache | capacity, homes, what an insertion loses and how long an element stays |
| PSBT blinding | BlindScalars, BlindPsbt | scalars balance across any session, and who blinds what |
| Block index | Headers, Chain | the skip list, the active chain and forks |
| Dynamic federations | DynaFed | parameters change only by a vote |
| Bech32 and Blech32 | CheckSymbols, CheckField, CheckRoots, CheckDistance, Bech32, Bech32Codec, Bech32Vectors | round trips, and detection of every burst and of any three errors |
| Compact blocks | CompactSpec, CompactBlocks | reconstruction of the sender's block |
| Rolling bloom filter | RollingBloom, RollingBloomFilter | cells as last-touched generations |
| 256-bit arithmetic | Limbs, ArithUint256, CompactTargets | limbs compute modulo 2^256; compact targets; work |
| Base58 | Base58, Base58Strings, Base58Codec | round trips and buffer sizes |

## Where the code and its words differ

The models follow the code. These are the places where comments say something else, or where
a property one would expect fails, with the lemma that shows it.

- `src/coins.h:95-101` lists "spent, FRESH, not DIRTY" as a possible state of an entry. No
  legal run reaches it for a native coin (`NativeFreshIsDirty`), but every question about a
  peg-in that is not spent caches such an entry (`PeginFreshNotDirty`).
- AddCoin without overwrite over a coin that exists below but is not cached does not throw; it
  marks the entry FRESH, and spending it then shows the coin below again
  (`FreshMisappliedResurrects`). `AddCoinExactly` gives the exact condition.
- SpendCoin also returns true for a cached entry that is already spent (`SpentTwice`);
  `SpendCoinCorrect` gives the exact condition.
- Add_ returns true for an unknown address even when its fresh entry is deleted again at once
  (`ReportedNewAndDropped`); `AddOutcome` says exactly when the address is known afterwards.
- Good_ at time zero and Attempt_ at a negative time leave a state that Check_ rejects
  (`GoodAtEpoch`, `AttemptBeforeEpoch`); `GoodKeepsInv` and `TouchedKeepsInv` give the exact
  condition.
- `src/cuckoocache.h:184-192` aims at a load around 90%; what the code guarantees is 153/160 of
  the table, once an epoch has 16 elements (`CuckooLemmas.Run`).
- The branch of ResolveCollisions_ for a collision that is no longer one is never taken, since
  a tried slot in use stays in use.
- `src/cuckoocache.h:417-422` says that the first displacement goes to the first slot; it goes
  to the second (`FirstVictim`).
- The last blinder is only reported as invalid when all scalars are zero; where the comment at
  `src/blindpsbt.cpp:536-539` expects that status, the subtraction fails before
  (`ZeroBlinderNeedsZeros`, `SubtractScalarsExact`).
- Two participants that leave the same offset leave it once, because the offsets are a set
  (`SameOffsetSwallowed`); `Accounts` in `BlindBalances` is the exact condition.
- `src/chain.h:558` promises a block with a timestamp of at least the given time; the search
  uses the latest time among the ancestors (`EarlierTimeFound`); `EarliestExactly` gives the
  exact condition, on the chain and the query.
- With an epoch of two blocks one vote is enough and the later one wins (`WinnerNotUnique`).
- Entries are compared without their elided root (`src/primitives/block.h:156-164`), so
  `Published` in DynaFed asks for no more than that.
- In EncodeBase58 the loop that skips leading zeros of the result never finds one (`ToBase58`).

## Model

| member | source | states |
|---|---|---|
| `CoinsRefinement.StackRefinesLedgers` | src/coins.cpp:50-315 | Main theorem: over every legal run on a stack of caches over a database no exception is thrown, the flag invariant holds at every level, and what each level shows equals a plain ledger on which the same operations were done |
| `CoinsRefinement.StepCorrect` | src/coins.cpp:50-315 | every single legal operation, each at the levels it works on, is that operation on the plain ledgers, and the others do not change |
| `CoinsRefinement.GetCoinCorrect` | src/coins.cpp:69-76 | GetCoin returns exactly the unspent coin the level shows, and caching it changes nothing that any level shows |
| `CoinsRefinement.GetCoinAgain` | src/coins.cpp:50-76 | asking again gives the same answer and touches nothing; a coin found stays in the cache |
| `CoinsRefinement.FetchCoinCorrect` | src/coins.cpp:50-67 | a fetched entry is the shown coin; no entry means no coin; no level changes |
| `CoinsRefinement.AddCoinCorrect` | src/coins.cpp:78-111 | a permitted AddCoin succeeds, shows the new coin exactly if its script can be spent, and keeps the FRESH and DIRTY invariant |
| `CoinsRefinement.RunShowsSpendable` | src/script/script.h:616-620 | in every legal run over levels without such coins, no level ever shows a coin whose script is empty, begins with byte 0x6a or is longer than 10000 bytes |
| `CoinsRefinement.AddedCoinShown` | src/coins.cpp:78-111 | a permitted AddCoin shows the coin if its script is none of these, and changes nothing otherwise |
| `CoinsRefinement.FreshStays` | src/coins.cpp:78-146 | a FRESH entry stays FRESH when its coin is overwritten, so spending it leaves no entry |
| `CoinsRefinement.PassingCoin` | src/coins.cpp:78-315 | adding a coin on top of a cache without an entry for it and flushing is adding it one level lower, and spending it there restores the stack |
| `CoinsRefinement.AddCoinExactly` | src/coins.cpp:78-111 | AddCoin neither throws nor breaks the invariant if and only if the coin is unspendable, an overwrite was allowed, or the level shows no such coin |
| `CoinsRefinement.FreshMisappliedResurrects` | src/coins.cpp:78-111 | a concrete run: adding without overwrite over an uncached coin and spending it brings the coin below back |
| `CoinsRefinement.SpendCoinCorrect` | src/coins.cpp:132-146 | SpendCoin removes exactly that coin from what is shown and hands out its contents, and it reports success if and only if the cache has an entry for the coin or shows it; an entry already spent is handed out cleared |
| `CoinsRefinement.SpentTwice` | src/coins.cpp:132-146 | a concrete run: a coin spent twice, and the second SpendCoin reports success as well |
| `CoinsRefinement.AddedCoinCanBeSpent` | src/coins.cpp:78-146 | where AddCoin returns, the coin is gone after it is spent if and only if adding it was permitted |
| `CoinsRefinement.MisappliedAddUndone` | src/coins.cpp:78-146 | and otherwise adding and spending leave the whole stack as it was, with the coin below |
| `CoinsRefinement.NativeFreshIsDirty` | src/coins.h:95-113 | under the invariant a FRESH entry of a native coin is DIRTY, and in one of the documented states |
| `CoinsRefinement.PeginFreshNotDirty` | src/coins.cpp:181-196 | asking about a peg-in that is not spent caches an entry that is spent, FRESH and not DIRTY |
| `CoinsRefinement.EntriesFlagged` | src/coins.cpp:181-223 | under the invariant the PEGIN flag of every entry agrees with its key |
| `CoinsViews.OrderDoesNotMatter` | src/txdb.cpp:121-160 | entries flagged as their keys say leave the same ledger in whatever order they are written |
| `CoinsRefinement.IsPeginSpentCorrect` | src/coins.cpp:181-196 | the answer is membership in the shown peg-in set, and caching it changes nothing |
| `CoinsRefinement.SetPeginSpentCorrect` | src/coins.cpp:198-223 | the shown peg-in set changes in that key only and the invariant stays; nothing is marked when the key already was as asked |
| `CoinsRefinement.MergeCorrect` | src/coins.cpp:238-308 | merging a child map never meets a misapplied FRESH flag, keeps the invariant, and the overlay of the merge is the overlay of both |
| `CoinsRefinement.MergeFlags` | src/coins.cpp:238-308 | a merged entry is DIRTY, keeps the FRESH flag of the parent or else of the child, and is dropped exactly when it is FRESH and absent |
| `CoinsRefinement.WriteLedgerCorrect` | src/txdb.cpp:96-165 | writing a map of entries to the database gives the overlay of the map |
| `CoinsRefinement.BatchWriteCorrect` | src/coins.cpp:238-308 | BatchWrite into any level shows there what the child showed, and no other level changes |
| `CoinsRefinement.FlushCorrect` | src/coins.cpp:310-315 | Flush empties the cache and makes the level below show what this one showed |
| `CoinsRefinement.UncacheCorrect` | src/coins.cpp:317-324 | an entry that was not modified is dropped, and only such a one, and nothing that is shown changes |
| `CoinsViews.CoinsView.GetCoin` | src/coins.cpp:69-76 | the object does what the value model does: same new caches, same result |
| `CoinsViews.CoinsView.FetchCoin` | src/coins.cpp:50-67 | the object fetches through its parents as the value model does |
| `CoinsViews.CoinsView.AddCoin` | src/coins.cpp:78-111 | throws exactly when the value model does, and otherwise holds its result |
| `CoinsViews.CoinsView.SpendCoin` | src/coins.cpp:132-146 | same new state and same coin as the value model |
| `CoinsViews.CoinsView.IsPeginSpent` | src/coins.cpp:181-196 | same new state and same answer as the value model |
| `CoinsViews.CoinsView.SetPeginSpent` | src/coins.cpp:198-223 | same new state as the value model |
| `CoinsViews.CoinsView.Uncache` | src/coins.cpp:317-324 | same new state as the value model |
| `CoinsViews.CoinsView.BatchWrite` | src/coins.cpp:238-308 | the loop over the child entries reaches the state of Merge, or throws exactly when that does; a database ends in the ledger of some order of the entries |
| `CoinsViews.CoinsView.Flush` | src/coins.cpp:310-315 | the parent takes the batch and the cache is empty, as in the value model, for a database parent in some order of the entries |
| `CoinsViews.CoinsView.WriteDatabase` | src/txdb.cpp:121-160 | the loop leaves the ledger of its writes in the order it makes them, which is the one WriteLedger describes when the flags agree with the keys |
| `AddrManOps.Run` | src/addrman.cpp:80-706 | Main theorem: every run, from the empty state and at times that keep the dates, of Add_, Good_, Attempt_, Connected_, SetServices_, turns of ResolveCollisions_, the swaps of GetAddr_ and the forgetting of SelectTriedCollision_ stays in the invariant |
| `AddrManOps.StepKeepsInv` | src/addrman.cpp:127-706 | each operation keeps the invariant: the random order and both maps are inverse, every table slot agrees with its entry, reference counts are the number of new slots, tried and new counters are right, a pending collision that still exists has an opponent |
| `AddrManCheck.Check` | src/addrman.cpp:463-539 | the loops of Check_ return zero if and only if the state passes all nine tests that Sound lists; any other result is a fault of the first test that fails, and names it |
| `AddrManCheck.InvIsSound` | src/addrman.cpp:463-539 | the invariant implies everything Check_ looks at, so Check_ returns zero in every reachable state |
| `AddrManOps.MakeTriedOk` | src/addrman.cpp:196-244 | moving an entry to tried, with an eviction back to new, leaves a consistent state |
| `AddrManOps.MakeTriedPromotes` | src/addrman.cpp:196-244 | the entry is afterwards the one in its tried slot, and everything not involved is as before |
| `AddrManOutcomes.EvictedGoesHome` | src/addrman.cpp:217-236 | an entry that loses its tried slot gets one reference, in the new bucket of its own source |
| `AddrManOps.GoodKeepsInv` | src/addrman.cpp:246-312 | Good_ at any time keeps the tables, indexes and counters intact; it keeps the times in order if and only if the address is unknown, the time is positive, or it is zero and the entry has to wait for its tried slot |
| `AddrManOutcomes.GoodOutcome` | src/addrman.cpp:246-312 | a tried entry stays where it is; with test-before-evict an entry whose tried slot is taken waits, if fewer than ten others do; any other entry gets its tried slot; the entry has the time of its success and no failures |
| `AddrManOutcomes.FindExactIff` | src/addrman.cpp:112-125 | an address and port are found exactly when an entry has them |
| `AddrManOps.GoodTail` | src/addrman.cpp:276-311 | an entry that is not tried always has a new bucket, so Good_ never gives up for want of one; the promotion and the recorded collision both keep the invariant |
| `AddrManOps.AddKeepsInv` | src/addrman.cpp:314-387 | Add_ keeps the invariant for every outcome of its chance test |
| `AddrManOps.AddOutcome` | src/addrman.cpp:314-387 | Add_ reports true exactly for a routable address that was not known, leaves the tried table, collisions and last-good time alone, and takes an id exactly then; afterwards a routable address is known if and only if it was before or its one slot is empty or held by an entry that is terrible or has another reference |
| `AddrManOps.UnknownEntered` | src/addrman.cpp:344-385 | a new entry is in its one bucket with one reference, or gone, according to that slot |
| `AddrManOutcomes.KnownOutcome` | src/addrman.cpp:320-385 | a known entry learns new services, moves its time forward by more than an hour or a day or not at all, and gains a reference exactly when it is news, not tried, has fewer than eight, the chance test passes and its slot is empty or held by a terrible entry |
| `AddrManCases.ReportedNewAndDropped` | src/addrman.cpp:344-387 | a concrete run: the second of two addresses that share a slot is reported as new and dropped |
| `AddrManCases.GoodAtEpoch` | src/addrman.cpp:246-312 | after any first Add_, Good_ at time zero breaks the invariant |
| `AddrManCases.AttemptBeforeEpoch` | src/addrman.cpp:389-411 | and so does Attempt_ at a negative time |
| `AddrManOps.SwapAll` | src/addrman.cpp:542-574 | swaps change the random order and the positions only, and keep the invariant |
| `AddrManOps.TouchedKeepsInv` | src/addrman.cpp:389-411 | Attempt_, Connected_ and SetServices_ keep the tables intact, and the times in order if and only if the address is unknown or the time of an attempt is not negative |
| `AddrManOutcomes.TouchOutcome` | src/addrman.cpp:389-411 | only the entry of exactly this address and port changes, in the fields concerned: a failure is counted if none was since the last success anywhere, and a connection moves the time only if it is more than twenty minutes behind |
| `AddrManOutcomes.FailuresCountOnce` | src/addrman.cpp:389-411 | however many attempts fail between two successes anywhere, they count for one |
| `AddrManOutcomes.TriedSpread` | src/addrman.h:135-136 | the addresses of one group share eight tried buckets |
| `AddrManOutcomes.NewSpread` | src/addrman.h:138-139 | what sources of one group say ends up in sixty-four new buckets |
| `AddrManOutcomes.WorthKeepingIff` | src/addrman.cpp:45-63 | an address is worth keeping exactly when it was tried within a minute, or was seen within thirty days and not in the future and has not failed too often |
| `AddrMan.WantedIsLargest` | src/addrman.cpp:546-552 | as many addresses are looked for as the limit and the percentage allow |
| `AddrManOps.ResolveOneKeepsInv` | src/addrman.cpp:618-677 | resolving one collision keeps the invariant, for any positive readings of the time |
| `AddrManOutcomes.ResolveOutcome` | src/addrman.cpp:618-677 | what a turn decides: an entry that is gone, invalid or up against one reached within four hours is no longer pending and nothing else changes; nothing changes at all exactly if it has to wait; and it ends in its tried slot exactly if the four readings and the two entries say so, with its opponent back in the new table |
| `AddrManOutcomes.RecentlyReachedStays` | src/addrman.cpp:618-677 | Main theorem: however many collisions are decided, a tried entry reached within four hours by every reading of the time keeps its place |
| `AddrManOps.CollisionHasOpponent` | src/addrman.cpp:679-706 | a pending collision whose entry exists always has a tried entry in its slot, so no lookup is done with the id -1 |
| `AddrManOps.CollisionsKept` | src/addrman.cpp:618-706 | pending collisions keep their opponents as long as tried slots that are in use stay in use |
| `AddrManLemmas.SwapRandomOk` | src/addrman.cpp:141-161 | swapping two places keeps the random order and the positions inverse |
| `AddrManLemmas.DeleteOk` | src/addrman.cpp:163-177 | deleting an entry without references keeps the state consistent |
| `AddrManLemmas.ClearNewOk` | src/addrman.cpp:179-194 | clearing a slot drops one reference and deletes the entry exactly when it was the last |
| `AddrManLemmas.CreateOk` | src/addrman.cpp:127-139 | a created entry is consistent but for its missing references |
| `AddrMan.CAddrMan.Create` | src/addrman.cpp:127-139 | the state of Create |
| `AddrMan.CAddrMan.SwapRandom` | src/addrman.cpp:141-161 | the state of SwapRandom |
| `AddrMan.CAddrMan.Delete` | src/addrman.cpp:163-177 | the state of Delete |
| `AddrMan.CAddrMan.ClearNew` | src/addrman.cpp:179-194 | the state of ClearNew |
| `AddrMan.CAddrMan.MakeTried` | src/addrman.cpp:196-244 | the loop over all new buckets and the eviction reach the state of MakeTried |
| `AddrMan.CAddrMan.Good` | src/addrman.cpp:246-312 | at any time and wherever the search for a new bucket starts, the state of Good |
| `AddrMan.CAddrMan.Add` | src/addrman.cpp:314-387 | keeps the invariant and reaches a state and answer of Add |
| `AddrMan.CAddrMan.Attempt` | src/addrman.cpp:389-411 | the state of an attempt |
| `AddrMan.CAddrMan.Connected` | src/addrman.cpp:576-596 | the state of a connection |
| `AddrMan.CAddrMan.SetServices` | src/addrman.cpp:598-616 | the state of a change of services |
| `AddrMan.CAddrMan.ResolveCollisions` | src/addrman.cpp:618-677 | every pending collision is looked at exactly once, in ascending order, each time as ResolveOne says, and the invariant is kept |
| `AddrMan.CAddrMan.SelectTriedCollision` | src/addrman.cpp:679-706 | the entry in the way of some pending collision, found in its tried slot, with nothing changed; or nothing, and at most one collision whose entry is gone is forgotten |
| `AddrMan.CAddrMan.GetAddr` | src/addrman.cpp:542-574 | distinct entries, none terrible, of the network asked for, as many as asked for or else all there are; the state is that of the swaps made |
| `CheckQueue.RunsAreSafe` | src/checkqueue.h:68-175 | Main theorem: in every interleaving of a master and any number of workers, with spurious wake-ups, nTodo counts the checks queued and taken, every added check is in exactly one place, a waiting master has work in flight elsewhere, and every report is faithful |
| `CheckQueue.NextKeepsInv` | src/checkqueue.h:68-175 | each step of any thread keeps the invariant |
| `CheckQueue.Run` | src/checkqueue.h:68-175 | every run stays in the invariant, with no thread inside a critical section between steps |
| `CheckQueue.NothingLeftOver` | src/checkqueue.h:86-98 | when Wait returns, the queue is empty, no thread holds a check, and the report is about every check added since the last one |
| `CheckQueue.ReportFaithful` | src/checkqueue.h:90-98 | when nTodo is zero the result returned is true exactly when every added check ran and passed, and every check was run at most once |
| `CheckQueue.NeverStuck` | src/checkqueue.h:68-129 | while the master is in Wait, some thread can take a step that is not a spurious wake-up |
| `CheckQueue.StepUsesPotential` | src/checkqueue.h:68-129 | every step uses up potential but for spurious wake-ups |
| `CheckQueue.WaitIsBounded` | src/checkqueue.h:159-163 | Wait returns: under any schedule the steps are bounded by the work at the start plus two for each spurious wake-up |
| `CheckQueue.BatchSize` | src/checkqueue.h:106-112 | a batch has at least one check and no more than are queued |
| `CheckQueue.BatchIsFair` | src/checkqueue.h:106-112 | a batch is one check or a fair share of the queue among the threads, and never larger than allowed |
| `CheckQueue.FailureStops` | src/checkqueue.h:113-128 | once a failure is entered, every check run until Wait returns was in a batch taken before |
| `CheckQueue.AddWakes` | src/checkqueue.h:165-175 | several new checks wake every waiting worker, and a single one wakes one |
| `CuckooLemmas.Run` | src/cuckoocache.h:166-482 | Main theorem: after any sequence of insertions and lookups the invariant holds, and the slots in use are at most two epochs and the slack of the heuristic: 153/160 of the table when an epoch has at least 16 elements |
| `CuckooLemmas.LiveBound` | src/cuckoocache.h:288-320 | the bound on each epoch bounds the slots in use |
| `CuckooLemmas.EpochCheckBounded` | src/cuckoocache.h:288-320 | after the epoch check the current epoch has room for as many insertions as the counter allows and one more |
| `CuckooLemmas.PlaceCounts` | src/cuckoocache.h:405-440 | a displacement chain adds at most one slot, to the epoch of what was inserted |
| `CuckooLemmas.InsertBounded` | src/cuckoocache.h:392-440 | insertion keeps the bounds |
| `CuckooLemmas.ContainsBounded` | src/cuckoocache.h:469-479 | marking an element for collection keeps the bounds |
| `CuckooLemmas.PlaceMultiset` | src/cuckoocache.h:405-440 | a displacement chain of any depth loses exactly one element: table plus lost is table plus inserted |
| `CuckooLemmas.PlaceLoses` | src/cuckoocache.h:405-440 | what is lost was collectable, unless the chain ran out of depth, and then no slot changed its flag |
| `CuckooLemmas.PlaceKeepsHomes` | src/cuckoocache.h:405-440 | every element stays in one of its eight slots and no element appears twice |
| `CuckooLemmas.FoundIff` | src/cuckoocache.h:469-479 | looking in the eight slots finds an element exactly when the table holds it |
| `CuckooLemmas.InsertKeepsHomes` | src/cuckoocache.h:392-440 | insertion keeps every element at home and unique |
| `CuckooLemmas.InsertOutcome` | src/cuckoocache.h:378-391 | the documented outcomes: nothing lost but a collectable element, or one element of the chain lost, or the element was there already |
| `CuckooLemmas.ContainsIff` | src/cuckoocache.h:444-480 | contains is membership, and asking again, even after marking for erasure, gives the same answer |
| `CuckooLaws.InsertedSurvives` | src/cuckoocache.h:288-479 | Main theorem: an element that was inserted is found for as many insertions more as an epoch has elements, unless it is erased or a displacement chain runs out of depth with it |
| `CuckooLaws.InsertedIsKept` | src/cuckoocache.h:392-440 | an element inserted, whether it was there or got a slot, is afterwards of the current epoch and not collectable, and it is stored exactly if the chain did not run out of depth with it |
| `CuckooLaws.InsertSpares` | src/cuckoocache.h:392-440 | any other element that was kept is kept with its epoch, unless the chain runs out of depth with it |
| `CuckooLaws.PlaceCarries` | src/cuckoocache.h:406-439 | a displacement chain takes the epoch of every element along |
| `CuckooLaws.VictimFollows` | src/cuckoocache.h:414-428 | the search goes on at the slot after the one just taken, so it does not undo the last move |
| `CuckooLaws.EpochCheckGivesUp` | src/cuckoocache.h:288-320 | elements are given up only when the counter has run out and the epoch is full, and then exactly those of the epoch before |
| `CuckooLaws.NextScan` | src/cuckoocache.h:309-319 | the next scan is due when the epoch could be full at the earliest, and not after fewer than a sixteenth of an epoch |
| `CuckooLaws.ContainsMarks` | src/cuckoocache.h:469-479 | asking for erasure marks the slot of the element and no other, and otherwise nothing changes |
| `CuckooLaws.EpochIsPart` | src/cuckoocache.h:339-352 | an epoch is 45% of the table, and at first everything is collectable |
| `CuckooLaws.SlotIsFraction` | src/cuckoocache.h:242-252 | the n-th slot is the n-th hash as a fraction of the size |
| `CuckooLemmas.FirstVictim` | src/cuckoocache.h:416-433 | the first displacement goes to the second of the eight slots, although the comment says the first |
| `CuckooCache.CuckooTable.EpochCheck` | src/cuckoocache.h:288-320 | the counting and ageing loops reach the state of EpochCheck |
| `CuckooCache.CuckooTable.PlaceElement` | src/cuckoocache.h:405-440 | the displacement loop reaches the state of Place |
| `CuckooCache.CuckooTable.Insert` | src/cuckoocache.h:392-440 | reaches the state of Insert |
| `CuckooCache.CuckooTable.Contains` | src/cuckoocache.h:469-479 | same flags and same answer as Contains |
| `CuckooCache.BitPackedFlags.Set` | src/cuckoocache.h:90-93 | sets that flag and no other |
| `CuckooCache.BitPackedFlags.Unset` | src/cuckoocache.h:101-104 | clears that flag and no other |
| `CuckooCache.BitPackedFlags.IsSet` | src/cuckoocache.h:111-114 | reads the flag |
| `CuckooSpec.Loc` | src/cuckoocache.h:242-252 | the multiplication that replaces a remainder stays inside the table |
| `BlindPsbt.SessionBalances` | src/blindpsbt.cpp:375-605 | Main theorem: through any number of participants the offsets left behind balance blinded outputs against inputs modulo the group order, and once complete the outputs cancel the inputs |
| `BlindPsbt.BlindBalances` | src/blindpsbt.cpp:375-605 | one participant: its inputs enter the balance if and only if it blinds the last output, leaves a new offset, or has nothing to account for |
| `BlindPsbt.BlindOutputKeeps` | src/blindpsbt.cpp:488-590 | one output keeps the loop invariant: the gathered scalar is the weight of what was blinded, or after the last output everything cancels |
| `BlindPsbt.LastBlinderCorrect` | src/blindpsbt.cpp:518-544 | the last value blinder makes up for everything outstanding |
| `BlindPsbt.ZeroBlinderNeedsZeros` | src/blindpsbt.cpp:527-540 | the status for an invalid blinder is reached if and only if every scalar involved is zero; equal scalars fail before |
| `BlindPsbt.SubtractAllCorrect` | src/blindpsbt.cpp:531-534 | taking away one offset after another takes away their sum |
| `BlindPsbt.InputScalarCorrect` | src/blindpsbt.cpp:393-432 | the scalar of the inputs is their weight modulo the order |
| `BlindPsbt.CompleteStays` | src/blindpsbt.cpp:377-387 | a complete transaction is left alone |
| `BlindPsbt.SameOffsetSwallowed` | src/blindpsbt.cpp:591-597 | a concrete run: two participants with the same offset leave it once in the set and the balance is off |
| `BlindScalars.SubtractScalarsExact` | src/blindpsbt.cpp:289-308 | right where it succeeds; fails exactly when equal scalars that are not zero are subtracted |
| `BlindScalars.AddScalarsExact` | src/blindpsbt.cpp:332-344 | right where it succeeds, with its exact failure |
| `BlindScalars.CalculateScalarOffsetExact` | src/blindpsbt.cpp:313-345 | value times asset blinder plus value blinder modulo the order, with its exact failure |
| `BlindScalars.ComputeAndAddExact` | src/blindpsbt.cpp:348-373 | the offset added to the running scalar, with its exact failure, given that the order is prime |
| `BlindPsbt.BlindKeepsOrder` | src/psbt.h:1450-1450 | the offsets stay in ascending order without repetition, as a set visits them |
| `BlindPsbt.BlindOutcome` | src/blindpsbt.cpp:488-602 | the status for no outputs to blind is returned exactly when there are own inputs, their scalar can be computed and no output is blinded already or its own; after Ok exactly its own outputs have gained secrets, and the transaction is complete without offsets or has at most one more |
| `BlindPsbt.InvalidNeedsZeros` | src/blindpsbt.cpp:515-543 | the status for an invalid blinder is only returned when the inputs and all offsets weigh nothing |
| `BlindPsbt.PartiallySignedTransaction.BlindPSBT` | src/blindpsbt.cpp:375-605 | the loops over inputs, outputs and offsets end in the state and status of Blind |
| `Chain.BlockIndex.GetAncestor` | src/chain.cpp:84-109 | the skip list finds exactly the ancestor that walking back one block at a time finds, and nothing outside the range |
| `Chain.BlockIndex.Extend` | src/chain.cpp:116-120 | a built skip pointer is the ancestor at the skip height |
| `Chain.GetSkipHeight` | src/chain.cpp:71-82 | a skip goes strictly back |
| `Chain.AncestorOfAncestor` | src/chain.cpp:84-109 | an ancestor of an ancestor is the ancestor at that height |
| `Chain.ActiveChain.SetTip` | src/chain.cpp:11-21 | although it stops at the first block already there, the chain afterwards holds exactly the ancestors of the tip |
| `Chain.ActiveChain.FindFork` | src/chain.cpp:51-60 | the highest block of the chain among the ancestors, or none if there is none |
| `Chain.ActiveChain.GetLocator` | src/chain.cpp:23-49 | ancestors of the block at the listed heights, by either way of looking them up |
| `Chain.LocatorDescends` | src/chain.cpp:23-49 | the listed heights fall strictly and end with the genesis block |
| `Chain.LocatorSteps` | src/chain.cpp:23-49 | the steps between them are one for the first eleven and then double each time |
| `Chain.LocatorShort` | src/chain.cpp:23-49 | so a locator has no more than a dozen entries and one for each doubling of the height |
| `Chain.LowestOne` | src/chain.cpp:71-72 | an odd number times a power of two loses exactly that power of two |
| `Chain.ActiveChain.FindEarliestAtLeast` | src/chain.cpp:62-68 | the lowest block at the height or above whose chain has reached the time, or none; it is the lowest block with that time and height itself if and only if the query is not overtaken |
| `Chain.ActiveChain.EarliestExactly` | src/chain.h:558-559 | the documented promise fails exactly when the block at the height asked for is too early and the chain below it had reached the time, and then that block is found |
| `Chain.EarlierTimeFound` | src/chain.h:558-559 | a concrete chain and query: asked for time 8 from height 1, the search finds the block at height 1, whose time is 5 |
| `Chain.TimeMaxIsLatest` | src/validation.cpp:3245-3245 | the carried time is the latest among the ancestors, so a binary search is sound |
| `Chain.LastCommonAncestor` | src/chain.cpp:161-176 | the highest common ancestor, or none if there is none; both walks always meet |
| `DynaFed.ChangeNeedsVotes` | src/dynafed.cpp:5-110 | Main theorem: on a chain that publishes what is computed, the parameters after a dynamic block change only at an epoch start and only to an entry proposed in the epoch before whose root has enough of its votes |
| `DynaFed.EpochHasOneSet` | src/dynafed.cpp:32-90 | all dynamic blocks of an epoch are under the same parameters |
| `DynaFed.KeeperAgrees` | src/dynafed.cpp:46-88 | the block that keeps an epoch's parameters holds those every dynamic block of the epoch is under |
| `DynaFed.TransitionIff` | src/dynafed.cpp:5-30 | a transition takes place exactly when some root that is not null has enough votes in the epoch, although the walk stops early |
| `DynaFed.WinnerUnique` | src/dynafed.cpp:14-27 | if twice the votes needed exceed the epoch, only one root can have enough, whatever the order of the walk |
| `DynaFed.MajorityLengths` | src/dynafed.cpp:22-24 | which, below 2^30 blocks, holds for every epoch length but two |
| `DynaFed.WinnerNotUnique` | src/dynafed.cpp:14-27 | for every other length two roots can both have enough votes, and then the later one wins |
| `DynaFed.VotesChange` | src/dynafed.cpp:5-45 | with enough votes the next block is under an entry of that root |
| `DynaFed.PublishedRoot` | src/dynafed.cpp:93-110 | what a block publishes has the root of the full parameters |
| `DynaFed.PublishedForm` | src/dynafed.cpp:93-110 | parameters in full are published in short exactly inside an epoch and after a dynamic block, with the same signing script and limit, and otherwise as they are |
| `DynaFed.InForceIsFull` | src/dynafed.cpp:32-110 | although most blocks publish them in short, the parameters in force on such a chain are always known in full |
| `DynaFed.BlockPublishes` | src/dynafed.cpp:93-110 | every dynamic block of such a chain publishes the parameters it is under, in the form due |
| `DynaFed.CarriedOver` | src/dynafed.cpp:46-88 | without enough votes the block that starts the epoch, or the epoch before, decides, block one instead of the genesis block on a chain that starts with dynamic federations; a block from before them stands for its signing script and the configured rest |
| `DynaFed.FourFifths` | src/dynafed.cpp:22-24 | four votes in five are needed, rounded down |
| `DynaFed.RootBinds` | src/primitives/block.cpp:42-75 | with hashes that do not collide, a root commits to every field of an entry |
| `DynaFed.CompactedRoot` | src/primitives/block.cpp:42-75 | leaving out the rest keeps the root of a full entry |
| `DynaFed.NextBlockIsParameterTransition` | src/dynafed.cpp:5-30 | the tally loop over the ancestors finds the winner of the vote |
| `DynaFed.ComputeNextBlockFullCurrentParameters` | src/dynafed.cpp:32-90 | the parameters of the vote, or those carried over from the block that keeps them |
| `DynaFed.ComputeNextBlockCurrentParameters` | src/dynafed.cpp:93-110 | the full or the compact form to publish |
| `Bech32.EncodeDecode` | src/bech32.cpp:147-193 | decoding what was encoded gives it back if and only if the human-readable part is not empty and printable and the length is within the limit, and nothing otherwise; for all four encodings |
| `Bech32.EncodeDecodeLimits` | src/bech32.cpp:163-193 | the same with the limits in numbers |
| `Bech32Vectors.BechVector` | src/test/bech32_tests.cpp:16-27 | a valid string of the tests decodes, which fixes generator, constant and characters |
| `Bech32Vectors.BechModifiedVector` | src/test/bech32_tests.cpp:36-46 | the same for Bech32m |
| `Bech32Vectors.BlechVector` | src/test/blech32_tests.cpp:15-25 | the same for Blech32 |
| `Bech32Vectors.BlechModifiedVector` | src/test/blech32_tests.cpp:35-45 | the same for Blech32m |
| `Bech32.DecodeEncode` | src/bech32.cpp:147-193 | a string that decodes is, in lower case, the encoding of what it decodes to |
| `Bech32.DecodeLower` | src/bech32.cpp:163-193 | nothing in mixed case decodes; otherwise a string decodes to what its lower case decodes to |
| `Bech32.NoBurstMissed` | src/bech32.cpp:119-193 | two strings that decode for one encoding and differ only within as many neighbouring data characters as the checksum has are equal but for case; so any single error is detected |
| `Bech32.NoTripleMissed` | src/bech32.cpp:45-51 | two strings that decode for one encoding and differ in no more than three data characters are equal but for case, for Bech32 and for Blech32 |
| `CheckDistance.ThreeErrorsDetected` | src/bech32.cpp:48-50 | Main theorem: words that differ in up to three symbols within a window of 1023 never reach the same state, as the comment promises of the generator |
| `CheckDistance.Vandermonde` | src/bech32.cpp:48-50 | three equations in powers of the primitive element have the zero solution only |
| `CheckField.NoShortCycle` | src/bech32.cpp:48-50 | the primitive element has order 1023: no other element of the field than zero comes back earlier |
| `CheckRoots.GeneratorAtRoot` | src/bech32.cpp:47-48 | three consecutive powers of the primitive element are roots of the generator, which makes the code a BCH code |
| `CheckRoots.AtWalk` | src/blech32.cpp:62-119 | feeding zeros multiplies the value of the state at such a root by a power of it |
| `Bech32.HrpNeverConfused` | src/bech32.cpp:105-130 | a short human-readable part is never mistaken for another over the same data |
| `Bech32.ExpandInjective` | src/bech32.cpp:105-117 | the expansion determines the human-readable part |
| `Bech32.VerifiesIff` | src/bech32.cpp:120-144 | values pass for an encoding if and only if they end in its checksum |
| `CheckSymbols.StepLinear` | src/bech32.cpp:39-96 | a step of PolyMod is linear over exclusive or |
| `CheckSymbols.StepInjective` | src/bech32.cpp:39-96 | and it never brings two states together |
| `CheckSymbols.GeneratorDoubles` | src/bech32.cpp:88-93 | the table of constants is one generator and its doubles in GF(32) |
| `CheckSymbols.FeedInjective` | src/blech32.cpp:62-119 | feeding the same word keeps different states apart |
| `CheckSymbols.ChecksumCorrect` | src/blech32.cpp:156-167 | the checksum reaches its constant and no other word of that length does |
| `CheckSymbols.BurstDetected` | src/blech32.cpp:62-119 | words that differ within as many neighbouring symbols as the checksum has never reach the same state |
| `Bech32.RevOfChar` | src/bech32.cpp:15-29 | every symbol has a character of its own that the reverse table takes back |
| `Bech32.CharOfRev` | src/bech32.cpp:15-29 | a character in the reverse table is the symbol's character in one of the two cases |
| `Bech32Codec.PolyMod` | src/bech32.cpp:39-96 | the loop feeds every value |
| `Bech32Codec.ExpandHRP` | src/bech32.cpp:105-117 | the loop fills both halves |
| `Bech32Codec.VerifyChecksum` | src/bech32.cpp:120-130 | names the constant reached |
| `Bech32Codec.CreateChecksum` | src/blech32.cpp:156-167 | the five-bit groups that reach the constant |
| `Bech32Codec.Encode` | src/bech32.cpp:147-160 | the string of Encode |
| `Bech32Codec.Decode` | src/bech32.cpp:163-193 | the loops accept exactly what Decode does |
| `CompactBlocks.Reconstructs` | src/blockencodings.cpp:55-205 | Main theorem: if every pool or extra match is the block's own transaction, filling in exactly the unavailable ones in order gives the block again |
| `CompactSpec.PlaceDistinct` | src/blockencodings.cpp:65-82 | prefilled transactions get slots of their own, and only those slots are filled |
| `CompactSpec.IdsOnFreeSlots` | src/blockencodings.cpp:88-109 | the i-th short id gets the i-th empty slot, so the scan never runs off the end |
| `CompactSpec.IdsDistinct` | src/blockencodings.cpp:88-109 | no two ids share a slot and none has a prefilled one |
| `CompactSpec.MapIdsSize` | src/blockencodings.cpp:107-109 | the map is as large as the list exactly when no id repeats |
| `CompactSpec.MatchCounts` | src/blockencodings.cpp:111-169 | the count is always the number of ids with a transaction, so it never falls below zero |
| `CompactSpec.AllFound` | src/blockencodings.cpp:133-137 | the early exit is taken only when every id has its transaction |
| `CompactBlocks.SlotContents` | src/blockencodings.cpp:111-169 | a filled slot holds a prefilled transaction or a candidate with its short id |
| `CompactBlocks.OneMatchFills` | src/blockencodings.cpp:111-169 | if exactly one pool or extra transaction has an id, its slot is filled |
| `CompactBlocks.SlotExact` | src/blockencodings.cpp:111-169 | exactly what a slot holds: the only match seen in the pool or, if there was none, the first seen among the extra transactions, as long as no match seen there has another witness hash |
| `CompactBlocks.TwoMatchesAskAgain` | src/blockencodings.cpp:121-128 | two matches seen in the pool leave the slot empty |
| `CompactSpec.StopsWhenAllFound` | src/blockencodings.cpp:130-169 | the scan stops before the last candidate only when every id has its transaction |
| `CompactBlocks.StatusExactly` | src/blockencodings.cpp:55-109 | a message is invalid exactly if it is malformed, fails exactly if its ids repeat or crowd a bucket, and is accepted otherwise |
| `CompactSpec.PositionsReceived` | src/blockencodings.cpp:65-72 | positions sent as distances come out again |
| `CompactBlocks.SentById` | src/blockencodings.cpp:19-29 | every transaction but the first is sent as the short id of its hash, with or without witness |
| `CompactSpec.FillIff` | src/blockencodings.cpp:182-203 | the block is complete exactly when as many transactions are given as slots are empty |
| `CompactSpec.FillRebuilds` | src/blockencodings.cpp:182-203 | filling in the absent transactions of a block gives the block |
| `CompactBlocks.SenderDescribes` | src/blockencodings.cpp:19-29 | the sender's message describes its block, and passes the layout checks exactly when its first transaction is not null and it is not too long |
| `CompactBlocks.SenderAccepted` | src/blockencodings.cpp:55-109 | it is accepted exactly when no short id repeats and no bucket is crowded |
| `CompactBlocks.PartiallyDownloadedBlock.InitData` | src/blockencodings.cpp:55-174 | the object ends in the outcome of Init |
| `CompactBlocks.PartiallyDownloadedBlock.PlacePrefilled` | src/blockencodings.cpp:65-82 | the loop places exactly what Place does |
| `CompactBlocks.PartiallyDownloadedBlock.IndexShortIds` | src/blockencodings.cpp:88-105 | the scan stays in bounds and builds the id map |
| `CompactBlocks.PartiallyDownloadedBlock.ScanCandidates` | src/blockencodings.cpp:111-169 | the loops over pool and extra transactions reach the outcome of Search |
| `CompactBlocks.PartiallyDownloadedBlock.FillBlock` | src/blockencodings.cpp:182-224 | the block of Fill with the status of its check, and the object cannot be used again |
| `RollingBloom.CellMeaning` | src/bloom.cpp:213-242 | Main theorem: in every run a cell is not zero exactly when it was last touched in the current or one of the two preceding generations, and then holds that generation |
| `RollingBloom.RecentContained` | src/bloom.cpp:173-262 | every one of the last nElements keys inserted is found |
| `RollingBloom.ContainsIff` | src/bloom.cpp:250-262 | a key is reported exactly when all its cells were touched in the last three generations |
| `RollingBloom.WipeRight` | src/bloom.cpp:213-228 | wiping the generation to be reused forgets exactly what is three generations old |
| `RollingBloom.FastModBelow` | src/bloom.cpp:209-211 | the multiplication stays below the size |
| `RollingBloom.EveryCellUsed` | src/bloom.cpp:234-237 | no cell is wasted: every place in every word pair is the cell of some hash |
| `RollingBloomFilter.WipePairCell` | src/bloom.cpp:221-228 | the masks on two words wipe the cells of one generation and no others |
| `RollingBloomFilter.CRollingBloomFilter.Insert` | src/bloom.cpp:213-242 | the words hold the cells that Insert describes |
| `RollingBloomFilter.CRollingBloomFilter.WipeGeneration` | src/bloom.cpp:220-228 | the loop over word pairs wipes one generation |
| `RollingBloomFilter.CRollingBloomFilter.MarkKey` | src/bloom.cpp:232-241 | the loop over the hashes marks the key's cells |
| `RollingBloomFilter.CRollingBloomFilter.Contains` | src/bloom.cpp:250-262 | the answer for the cells the words hold |
| `RollingBloomFilter.CRollingBloomFilter.ResetAll` | src/bloom.cpp:270-276 | all cells empty, first generation |
| `ArithUint256.BaseUint.Add` | src/arith_uint256.h:132-142 | addition modulo 2^256, also of a number to itself, with no 64-bit overflow |
| `ArithUint256.BaseUint.Inverted` | src/arith_uint256.h:66-72 | the largest number minus this one |
| `ArithUint256.BaseUint.Negated` | src/arith_uint256.h:74-82 | the additive inverse modulo 2^256 |
| `ArithUint256.BaseUint.Sub` | src/arith_uint256.h:144-148 | subtraction modulo 2^256 |
| `ArithUint256.BaseUint.Increment` | src/arith_uint256.h:170-177 | plus one modulo 2^256 |
| `ArithUint256.BaseUint.Decrement` | src/arith_uint256.h:187-194 | minus one modulo 2^256 |
| `ArithUint256.BaseUint.MulLimb` | src/arith_uint256.cpp:55-64 | multiplication by 32 bits modulo 2^256 |
| `ArithUint256.BaseUint.Mul` | src/arith_uint256.cpp:67-80 | multiplication modulo 2^256, with no 64-bit overflow |
| `ArithUint256.BaseUint.ShiftLeft` | src/arith_uint256.cpp:21-35 | multiplication by a power of two modulo 2^256, for every shift |
| `ArithUint256.BaseUint.ShiftRight` | src/arith_uint256.cpp:38-52 | division by a power of two, for every shift |
| `ArithUint256.BaseUint.CompareTo` | src/arith_uint256.cpp:109-118 | the sign of the difference |
| `ArithUint256.BaseUint.EqualTo` | src/arith_uint256.cpp:121-132 | equality with a 64-bit number |
| `ArithUint256.BaseUint.Bits` | src/arith_uint256.cpp:171-183 | the position of the highest bit plus one, or zero |
| `ArithUint256.BaseUint.GetLow64` | src/arith_uint256.h:242-246 | the number modulo 2^64 |
| `ArithUint256.BaseUint.Div` | src/arith_uint256.cpp:83-106 | the floor quotient for every divisor but zero, for which it fails with zero |
| `ArithUint256.BaseUint.DivStep` | src/arith_uint256.cpp:96-103 | one turn keeps number = quotient * divisor + rest with the rest bounded by the bits still to come |
| `ArithUint256.DivDone` | src/arith_uint256.cpp:83-106 | at the end what is left in num is the remainder |
| `Limbs.LeftValue` | src/arith_uint256.cpp:21-35 | limbs shifted left stand for the product with the power of two, modulo the width |
| `Limbs.RightValue` | src/arith_uint256.cpp:38-52 | limbs shifted right stand for the floor quotient by the power of two |
| `CompactTargets.OverflowExact` | src/arith_uint256.cpp:203-221 | the overflow flag is set exactly when the number does not fit into 256 bits, and the value is the number modulo 2^256 |
| `CompactTargets.CompactRoundTrip` | src/arith_uint256.cpp:203-244 | encoding and decoding gives the greatest target the format can express that is not above the number, keeps the sign, never overflows and encodes to the same word again |
| `CompactTargets.BlockProofExact` | src/chain.cpp:122-140 | the work is the floor of 2^256 divided by the target plus one |
| `CompactTargets.TargetBelow` | src/chain.cpp:122-140 | a decoded target is never 2^256 - 1, so adding one does not wrap |
| `CompactTargets.SetCompactIn` | src/arith_uint256.cpp:203-221 | the limbs and flags are those of SetCompact |
| `CompactTargets.GetCompactOf` | src/arith_uint256.cpp:223-244 | the word is that of GetCompact and fits into 32 bits; both asserts hold |
| `CompactTargets.GetBlockProof` | src/chain.cpp:122-140 | the limbs hold the block proof, or one on a chain of signed blocks |
| `Base58Strings.EncodeDecode` | src/base58.cpp:38-125 | decoding what was encoded gives it back if and only if it is within the limit, for every byte string |
| `Base58Strings.DecodeEncode` | src/base58.cpp:38-125 | what decodes is encoded to the same string without the spaces around it |
| `Base58Strings.DecodePadded` | src/base58.cpp:38-50 | blanks around a word make no difference |
| `Base58Strings.DecodedParts` | src/base58.cpp:38-78 | a string that decodes is a word of the alphabet between blanks |
| `Base58Strings.AlphabetIs` | src/base58.cpp:17-18 | the alphabet is the digits and letters but for 0, O, I and l, in their order |
| `Base58Strings.DigitOfChar` | src/base58.cpp:17-36 | every digit has a character of its own that the table takes back, and only the digit zero has the character 1 |
| `Base58Strings.CharOfDigit` | src/base58.cpp:17-36 | a character in the table is its digit's character |
| `Base58.Fits58` | src/base58.cpp:96-98 | 138/100 of the bytes plus one base-58 digits are always enough |
| `Base58.Fits256` | src/base58.cpp:51-53 | 733/1000 of the digits plus one bytes are always enough |
| `Base58.ExpandRight` | src/base58.cpp:87-125 | the digits of a number stand for it and do not start with zero |
| `Base58.ExpandUnique` | src/base58.cpp:87-125 | digits that do not start with zero are the only ones of their number |
| `Base58Codec.MultiplyAdd` | src/base58.cpp:61-67 | the carry loop multiplies and adds in place; while the result fits the carry ends at zero and the length is the number of digits in use |
| `Base58Codec.EncodeBase58` | src/base58.cpp:87-125 | the string of Encode |
| `Base58Codec.ToBase58` | src/base58.cpp:96-113 | with the estimated buffer the carry never runs off, and the loop over leading zeros skips none |
| `Base58Codec.DecodeBase58` | src/base58.cpp:38-85 | accepts exactly what Decode does and returns its bytes, also when it gives up early for the length |
| `Base58Codec.FromBase58` | src/base58.cpp:51-73 | with the estimated buffer the carry never runs off |

## Left out

- Coins: the LevelDB wrapper, batch sizes, crash simulation and head blocks, memory accounting,
  best-block hashes, cursors, AddCoins, AccessCoin, ReallocateCache and EmplaceCoinInternalDANGER;
  the chain is in Elements mode, where an output with an empty script is a fee.
- AddrMan: Select_ and GetChance (a random choice with floating-point odds), serialization,
  RemoveInvalid and a second Clear; service flags are a set of bits; integer overflow of ids.
- AddrManCheck.Check: does not keep the entries that looking up a missing address adds to mapAddr.
- CheckQueue: starting and stopping worker threads and the control mutex; memory of the checks.
- Cuckoo cache: memory orders of the atomic flags (a single thread), setup_bytes; the depth
  limit is a parameter because the source takes a floating-point logarithm.
- BlindPsbt: commitments, range and surjection proofs, issuances and the statuses that only
  those can raise; random blinders are parameters; the order of the group being prime is a
  hypothesis where it matters.
- Chain: nBits, nChainWork, file positions and validity flags of a block index entry.
- DynaFed: the header checks on proposals, trimming of headers, and fedpeg script lookup.
- Bech32: detection of four scattered errors, which the comments promise within 89 characters;
  address payloads and the conversion between 5 and 8 bits.
- CompactBlocks: messages of more than 65535 transactions, which deserialization refuses; the
  statistics counters, CheckBlock (its outcome is a parameter) and the bucket sizes of the
  standard hash map (which ids are crowded is a parameter).
- RollingBloom: the floating-point choice of the number of hashes and bits, false-positive
  rates, MurmurHash3 and the tweak; the size is at least one word pair and nElements at least one.
- ArithUint256: bitwise operators on whole numbers, hexadecimal strings and conversion to double.
- Base58: the checksummed variant, which only appends and compares four hash bytes, and
  integer overflow of lengths.
- The rest of the node: consensus and policy checks, scripts, wallet, network and RPC code.
