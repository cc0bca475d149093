# Verified models of blue's money, blocklist and delivery code

This project models the parts of the `blue` repository whose correctness rests on arithmetic or on
the order of steps, and proves what they promise. `dafny verify dfyconfig.toml` checks all of it.

**Contributor rounds (`contributor/`).** A month's round splits a pool of cents among accounts in
proportion to their active credits. The model has the largest-remainder allocation, the computation
of a round with its obligations, the verification of a published round, the closing of months over
create-only stores, the obligation state machine and its audit trail, and months as `"YYYY-MM"` strings. The main
results: an allocation hands out exactly the pool, is fair, and no other split into whole cents is
closer to the exact shares; rounds do not depend on listing order; a published round is accepted
if and only if it is reproducible, and its inputs leave one such round; over any run of closings,
failing or not, the months form a chain and no cent is lost; closings that stop half-way
converge when they are retried, also with other months in between; and for each promise that the
code does not keep, the exact condition under which it does.

**IP blocklist (`ipblock/`).** Addresses and prefixes are bit sequences. A lookup by descending
prefix lengths finds the narrowest block in force; the memory list and the document list are the
same map from canonical prefix to block; and every interleaving of calls to the cache keeps one load
in flight and gives only answers that were current.

**Smaller protocols.** Create-only publishing in `release/gcsrelease`, the channel connection of
`bluenet`, the request batching of `emailprovider/sendgrid`, and the backoff of `retry`.

## How the model relates to the code

Code that changes things step by step is written as methods and classes, each proved to compute a
specification function or to keep a stated property; the functions then carry the theorems, and each
has a lemma that says what it computes in terms of its arguments alone.
Protocols that several callers run at once are state machines: one step for each critical section
or store call, and theorems over every sequence of steps.

- Amounts are unbounded integers. `AllocateFitsInt64`, `PoolShareTruncates` and `BackoffIsDuration`
  show which inputs keep the code's 64-bit arithmetic from wrapping.
- Strings are sequences of characters in character order, which is the byte order of UTF-8. Sorting
  is one stable sorting function. Go's unspecified map iteration is a nondeterministic choice, and
  the result is proved the same for every choice.
- A time is a month index and an offset in the ledger, and an integer elsewhere. Zero is the zero
  time of an expiry. What a clock, a store or a remote service answers is a parameter; parameters
  such as `stop` and `Faults` say where a crash or a failure happens.
- A store is a map; its listing order is the order of a sequence that stands for it. The inputs of a
  closing (programs, receipts, awards) are read at one moment.
- Hashing, object names and the text form of prefixes are function parameters. Object names may
  collide. Of the text form only `Codec.Lossless` is asked; `PlainIsLossless` gives one.

Where the code and its own words differ, the model follows the code:

- `contributor/ledger.go` says that closing out of order is rejected. A month before the first closed
  one is accepted. `EarlyCloseKeepsChainIff` says exactly when the chain survives that, in terms of
  the month and its inputs, and `OutOfOrderRun` gives runs of two closings after which it does not.
- It also says that an obligation left by an earlier attempt is identical to the one just computed.
  All but its one event is; the event keeps the closing time of the attempt that created it.
  `RetriesConverge` states each stored obligation in full, `LeftoverIsIdenticalIff` when it is
  identical, and `LeftoverDiffers` gives attempts after which it is not.
- A failed attempt on the first month to be tried can be overtaken by the closing of an earlier month
  that carries cents over. The obligations it left may then no longer match the round
  (`OvertakenMonth`). With unchanged inputs this is the only way (`ClosedMonthsSettle`);
  `ClosingSettlesIff` says when a closing leaves exactly the obligations of its round.
- Closing an invalid month, or December 9999, panics instead of returning an error, because the next
  month is taken before anything is validated. The model returns `MonthPanics`; `PanicsIff` says when.
- Months are compared as strings. Past year 9999 that is not the order of time
  (`YearTenThousandSortsFirst`); such months do not validate (`ParseFromIndex`).
- An IPv6 prefix shorter than 96 bits that covers the IPv4-mapped range matches no IPv4 address
  (`CanonicalKeepsContainment` states the exact condition, `WholeRangeMissesIPv4` an instance).
- Which program is in effect depends on the listing order exactly if two programs share the latest
  effective month (`ProgramForPermutation`, with an instance in `TiedProgramsDiffer`).
- A round is accepted by its verification without the checks on its program's first month and on
  account names that its computation makes; `ReturnedIff` says exactly which accepted rounds the
  engine returns on some inputs, and `EarlyRoundIsAccepted` gives rounds that it does not.
- Lifting a block deletes the document under its id even if that holds no valid block, and reports
  success unless it has lapsed. The outcome is that of the abstract map exactly otherwise
  (`ReportedIff`); `UnblockSpoiled` lifts a block that was never set.

## Model

| member | source | states |
|---|---|---|
| Months.ParseFromIndex | contributor/month.go:39-62 | parsing undoes printing exactly for the months of years 0000 to 9999; other months print as strings that do not parse |
| Months.ValidateIsParse | contributor/month.go:53-62 | a month is valid if and only if it parses; printing undoes parsing, so the second check of Validate never fails |
| Months.MonthLooksLike | contributor/month.go:31 | May 2024 is written "2024-05" |
| Months.BeforeIsChronological | contributor/month.go:88 | string order on valid months is the order of time, and equal months are equal strings |
| Months.YearTenThousandSortsFirst | contributor/month.go:88 | the range is sharp: every month of years 10000 to 19999 sorts before every month of years 2000 to 9999 |
| Months.AddIsAddition | contributor/month.go:77-79 | Add is addition on the month index, stays valid exactly within years 0000 to 9999, and can be undone there |
| Months.NextAndPrevCancel | contributor/month.go:82-85 | Next and Prev undo each other wherever the month between is valid |
| Policy.NetCents | contributor/receipt.go:77-83 | the loop computes gross less the sum of all adjustments |
| Policy.EveryAdjustmentIsDeducted | contributor/receipt.go:76-83 | without adjustments the net is the gross, and one more adjustment of any kind lowers it by its amount |
| Policy.AwardLastsItsDuration | contributor/program.go:93-95 | an award that expires at the expiration month is active in exactly the program's number of months, from its activation on |
| Policy.AwardPastYear9999IsInvalid | contributor/award.go:96-139 | an award whose duration runs past December 9999 does not validate |
| Shares.OrderIsRanking | contributor/engine.go:113-122 | the order of the leftover cents lists every index once, by remainder and then by account |
| Shares.LeftoverBound | contributor/engine.go:113-125 | the leftover is zero or below the number of inexact shares, so the loop never leaves the order |
| Shares.AllottedIsExact | contributor/engine.go:96-125 | the amounts add up to the pool, each strictly within a cent of its exact share, and equal to it when that is whole |
| Shares.AllottedIsFair | contributor/engine.go:113-125 | more weight never gets less; equal weights differ by at most a cent, in favour of the earlier |
| Shares.AllottedIsOptimal | contributor/engine.go:96-125 | no integer amounts with the same sum have a smaller total deviation from the exact shares |
| Allocation.AccountsUnique | contributor/engine.go:78-94 | the ascending list of the accounts with positive credits is unique, so map order cannot show |
| Allocation.Gather | contributor/engine.go:78-94 | in whatever order the map is read, the accounts with positive credits, each once, and their total; fails exactly on a negative credit |
| Allocation.FloorShares | contributor/engine.go:96-111 | floors every share, keeps every remainder and sums what is handed out |
| Allocation.PayLeftover | contributor/engine.go:123-125 | pays one more cent to exactly the first accounts of the order, in place |
| Allocation.Allocate | contributor/engine.go:74-127 | the loops over map, accounts and order compute the largest-remainder allocation, or the error, for every map order |
| Allocation.AllocationListsCredits | contributor/engine.go:78-111 | one entitlement for each account with positive credits, ascending, recording its credits; none if and only if all credits are zero |
| Allocation.AllocationConserves | contributor/engine.go:66-127 | the amounts are not negative and add up to the whole pool as soon as one account has credits |
| Allocation.AllocationIsProportional | contributor/engine.go:96-125 | each amount is strictly within a cent of pool times credits over total, and exact for whole shares |
| Allocation.AllocationIsFair | contributor/engine.go:94-125 | more credits never receive less; equal credits differ by at most one cent, for the account name that sorts first |
| Allocation.AllocationIsOptimal | contributor/engine.go:96-125 | no other split of the pool into whole cents strays less from the exact shares |
| Allocation.AllocateFitsInt64 | contributor/engine.go:74-127 | if pool and total credits fit an int64, so does every partial sum, quotient and amount |
| Engine.PoolShareTruncates | contributor/engine.go:56-64 | the share drops the sub-cent part toward zero, is odd in the receipts, and is no larger in size than they are |
| Engine.DueAfterQuarter | contributor/engine.go:129-139 | obligations fall due the given days after the first quarter boundary past the month |
| Engine.ActiveCredits | contributor/engine.go:37-54 | the loop computes the credit map, or fails exactly when an approved award is invalid |
| Engine.CreditsAreContributions | contributor/engine.go:29-54 | an account's credits are the sum of what the approved awards active in the month give it; only positive credits are listed |
| Engine.CreditsPermutation | contributor/engine.go:37-54 | the order of the awards does not matter |
| Engine.ComputeRound | contributor/engine.go:151-237 | the branches and loops compute the specified round and obligations, or the first error in the order of the checks |
| Engine.ComputesIff | contributor/engine.go:151-197 | a round is computed if and only if the program is valid, of the engine's version and in effect, the month is valid, each receipt is valid and of the month and currency, and each approved award is valid, all written out field by field |
| Engine.ComputeRoundPermutation | contributor/engine.go:151-237 | permuting receipts and awards changes neither success nor the round and obligations |
| Engine.AllocationNeverFails | contributor/engine.go:198-214 | a computation never fails in its own allocation, only on an invalid input |
| Engine.RoundAddsUp | contributor/engine.go:171-219 | allocated and unallocated cents are the pool, which is carryforward and share; the unallocated is the whole pool when that is negative or credits are zero, else nothing |
| Engine.ObligationsMatchEntitlements | contributor/engine.go:221-235 | there is one obligation for each positive entitlement, and no other |
| Engine.ObligationTerms | contributor/engine.go:221-235 | an obligation has the account and amount of a positive entitlement, the month, the program's currency, and its due date after the next quarter boundary; it is Earned and has no history |
| Engine.ObligationsAscend | contributor/engine.go:221-235 | obligations are in strictly ascending order of account |
| Engine.ObligationsAddUp | contributor/engine.go:221-235 | obligations add up to what the round allocates |
| Verify.ReadCredits | contributor/verify.go:62-72 | reads the recorded credits and their total, and finds a repeated account exactly if there is one |
| Verify.ReallocationReproduces | contributor/verify.go:80-102 | reallocating over the recorded credits gives the published entitlements back if and only if they are ascending, positive and paid by largest remainders |
| Verify.VerifyRound | contributor/verify.go:31-111 | accepts exactly the reproducible rounds; each rejection names a condition that really fails |
| Verify.ComputedRoundsAreReproducible | contributor/verify.go:28-111 | completeness: every round that ComputeRound returns is accepted, whoever closes it and when |
| Verify.AcceptedRoundsAreUnique | contributor/verify.go:28-111 | soundness: program, carryforward, net receipts and credits leave one acceptable round |
| Recompute.ReturnedIff | contributor/engine.go:151-237 | the engine returns a round on some receipts and awards if and only if the round is accepted, its program has the engine's calculation version and was in effect, no account is unnamed, and no credits are active in December 9999 |
| Recompute.EarlyRoundIsAccepted | contributor/verify.go:31-111 | a round of nothing for a month before its program takes effect is accepted, and the engine returns it on no inputs |
| Obligations.ObligationIDParts | contributor/obligation.go:96-101 | an id is the month, a colon and the account |
| Obligations.ObligationIDInjective | contributor/obligation.go:96-101 | ids tell valid months and arbitrary accounts apart |
| Obligations.TransitionIff | contributor/obligation.go:45-132 | a transition succeeds for exactly the six legal steps, records its step, time and note last, and changes nothing else but the state |
| Obligations.EarnedCanSettle | contributor/obligation.go:45-51 | an earned obligation can fall due, be initiated and settle, and records just that |
| Obligations.RunKeepsAudit | contributor/obligation.go:108-132 | after any legal moves the history has grown by one event a move, is a connected legal chain ending in the state, and nothing else changed |
| Obligations.TrailIsReachable | contributor/obligation.go:45-51 | conversely every legal chain that extends the history is reached by replaying it |
| Obligations.NeverEarnedTwice | contributor/obligation.go:45-51 | Estimated and Earned are never entered again |
| Obligations.EntriesMatchExits | contributor/obligation.go:108-132 | each state is entered as often as it is left, but for the first and the current state |
| Obligations.TransfersMatchDues | contributor/obligation.go:40-51 | entries to Owed exceed entries to Initiated by one if the state is Owed, else not; entries to Settled exceed its exits by one if it is Settled, else not |
| Obligations.AuditedIsAccounted | contributor/obligation.go:40-51 | an obligation with a legal trail that ends in its state satisfies all of these |
| LedgerAudit.CreatedIsAudited | contributor/ledger.go:155-161 | what a closing creates has the one event of its closing, with its time and note, and so a legal trail that ends in its state |
| LedgerAudit.CreatedCanSettle | contributor/ledger.go:155-161 | what a closing creates can be paid |
| LedgerAudit.MoveIsStored | contributor/document_store.go:300-307 | a legal move of a stored obligation is stored with its event; any other leaves the books as they are |
| LedgerAudit.RunKeepsAllAudited | contributor/document_store.go:280-307 | over any run of closings, failing anywhere, and moves of stored obligations, every stored obligation has a legal trail, none is lost, and none is changed but for its state and a longer history |
| LedgerAudit.EveryObligationIsAccounted | contributor/obligation.go:45-51 | over any such run from empty stores, every stored obligation satisfies all of these |
| LedgerAudit.ClosedRoundIsAccounted | contributor/ledger.go:155-171 | the obligation of a closed round, after any failed attempts and any legal moves, keeps everything but state and history; its trail starts with the closing that created it and satisfies all of these |
| Closing.ProgramForIsLatest | contributor/document_store.go:75-101 | the program found is effective and no effective program is later; none is found exactly if none is effective |
| Closing.ProgramForPermutation | contributor/document_store.go:75-101 | the program found is the same in every listing order if and only if no two programs are the latest effective ones |
| Closing.TiedProgramsDiffer | contributor/document_store.go:75-101 | of two programs that take effect in one month the first listed is found |
| Closing.PanicsIff | contributor/ledger.go:137-149 | a closing panics if and only if the month is not closed and does not parse or is December 9999 |
| Closing.Ledger.FindProgram | contributor/document_store.go:75-101 | the scan computes that program |
| Closing.Ledger.Carryforward | contributor/ledger.go:82-110 | what the month before left; a gap if it is missing and an earlier month is closed; else nothing |
| Closing.ReceiptsInAre | contributor/document_store.go:230-237 | the receipts of a month are all those listed with it, each as often as listed |
| Closing.ApprovedAwardsAre | contributor/document_store.go:193-202 | the approved awards are all those listed with that status, each as often as listed |
| Closing.Ledger.Assemble | contributor/ledger.go:44-80 | computes the round from the effective program, the month's receipts, the approved awards and the carryforward, or the error |
| Closing.Ledger.Estimate | contributor/ledger.go:112-126 | the assembled round with all obligations Estimated; keeps nothing |
| Closing.Ledger.CreateObligation | contributor/document_store.go:280-290 | creates if absent: an existing obligation is left as it is |
| Closing.Ledger.CloseRound | contributor/ledger.go:128-177 | the new stores and the result are those of the specification, wherever the writes stop: obligations first, the round last |
| Closing.AssembledAreCreatable | contributor/ledger.go:153-171 | every assembled obligation can be created, in order of account, one for each positive entitlement, adding up to the allocated cents |
| CreateOnly.AddFirstAdds | contributor/ledger.go:155-171 | creating the first entries of a list with distinct ids adds exactly those that are not there, and changes nothing |
| CreateOnly.AddsTwice | contributor/ledger.go:162-166 | of two such creations the first one to add an entry decides its value |
| LedgerRuns.PreparedIff | contributor/ledger.go:137-153 | an attempt gets to its first write if and only if its month is open, valid, has a next month and has ended, a program is in effect, all that is listed for the month is good, and the month before is closed or none before is |
| LedgerRuns.ClosedRoundFacts | contributor/ledger.go:128-177 | a closed round was not closed before, its month had ended, it is reproducible under the effective program with the carryforward of its predecessor, and its net receipts are the sum over all listed receipts of its month |
| LedgerRuns.ClosedRoundCredits | contributor/ledger.go:64-80 | it credits each account with the sum of what the approved awards give it from their activation up to their expiration, and lists just the accounts with credits |
| LedgerRuns.CarryforwardIs | contributor/ledger.go:82-110 | on a chain of closed months: only the month after the last carries over, later months are refused, earlier ones start from nothing |
| LedgerRuns.CloseExtendsChain | contributor/ledger.go:82-177 | a closing not before the first closed month succeeds only for the month after the last, and extends the chain |
| LedgerRuns.RunKeepsChain | contributor/ledger.go:82-177 | over any run of attempts not before the first closed month, failing anywhere, the closed months stay contiguous and each carries over what its predecessor left |
| LedgerRuns.RunIsReproducible | contributor/ledger.go:128-177 | every round closed by any run is reproducible |
| LedgerRuns.RunConserves | contributor/ledger.go:82-177 | over any such run from empty stores, all allocated cents and the last unallocated balance equal all pool shares |
| LedgerRuns.UnallocatedRule | contributor/engine.go:219 | what an accepted round leaves is its pool when that is negative or credits are zero, and nothing otherwise |
| LedgerRuns.LeavesNothingIff | contributor/engine.go:198-219 | with nothing carried over, a closing leaves nothing if and only if the month's receipts give the pool nothing, or give it something and some credits are active |
| LedgerRuns.EarlyCloseKeepsChainIff | contributor/ledger.go:85-110 | closing a month before the first keeps a chain if and only if it is the month just before and its inputs leave nothing |
| LedgerRuns.EarlyCloseBreaksChain | contributor/ledger.go:85-110 | such a closing succeeds for any empty month further back, and leaves rounds that are no chain |
| LedgerExamples.OutOfOrderRun | contributor/ledger.go:128-177 | from empty stores, a closing and then one of any month further back both succeed and leave no chain |
| LedgerRetries.FrozenAssemble | contributor/ledger.go:162-166 | attempts on the same inputs, in any listing order, assemble the same round and obligations |
| LedgerRetries.FailuresStoreNoRound | contributor/ledger.go:171-177 | however many attempts fail, and wherever, no round is stored |
| LedgerRetries.PreparedIffEnded | contributor/ledger.go:142-151 | an attempt on the same inputs gets to its first write if and only if its month has ended, and then writes the same |
| LedgerRetries.FailuresKeepLeftovers | contributor/ledger.go:155-171 | failed attempts leave each obligation as the first attempt to reach it stamped it, none that no attempt reached, and every other entry untouched |
| LedgerRetries.RetriesConverge | contributor/ledger.go:134-177 | the first success after any failures stores the round and exactly one freshly earned obligation for each positive entitlement, with the closing time of the first attempt to create it, adding up to the allocated cents |
| LedgerRetries.LeftoverIsIdenticalIff | contributor/ledger.go:162-166 | a kept obligation equals the one just computed if and only if no earlier attempt created it or the first that did had the same closing time |
| LedgerExamples.LeftoverDiffers | contributor/ledger.go:162-166 | in any month, two attempts after which it does not |
| LedgerRetries.RetryCanFinish | contributor/ledger.go:171-172 | no failure prevents a later attempt that runs to its end from succeeding |
| LedgerMonths.ClosingSettlesIff | contributor/ledger.go:155-177 | a closing leaves exactly the obligations of its round if and only if all that were stored for the month are among them |
| LedgerMonths.CarryforwardStays | contributor/ledger.go:82-110 | a carryforward once known stays, unless an earlier month is closed for the first time |
| LedgerMonths.ClosedMonthsSettle | contributor/ledger.go:128-177 | over any run, with any attempts on other months in between, a closed month whose inputs stayed the same and that was not overtaken has exactly one obligation for each positive entitlement, adding up to its round |
| LedgerExamples.OvertakenMonth | contributor/ledger.go:128-177 | a month overtaken by the one before it ends with an obligation of half of what its round allocates |
| Prefixes.CanonicalIsIdempotent | ipblock/set.go:25-35 | canonical prefixes are fixed points, and exactly the valid prefixes have one |
| Prefixes.CanonicalAddrIsIdempotent | ipblock/set.go:37-43 | canonical addresses are fixed points with the same 128 bits, and are IPv4 exactly for IPv4 and IPv4-mapped ones |
| Prefixes.NoHostBits | ipblock/set.go:25-35 | a canonical prefix has no bits past its length |
| Prefixes.MappedHeadIs | ipblock/set.go:25-43 | the IPv4-mapped range is ::ffff:0:0/96 |
| Prefixes.PrefixLessIs | ipblock/set.go:119-134 | the order of listed prefixes: IPv4 first, then by the first address bit that differs, then the shorter prefix |
| Prefixes.CanonicalKeepsContainment | ipblock/set.go:25-43 | canonical forms match if and only if the prefix covers the address, and is at least 96 bits long for an IPv4 address |
| Prefixes.WholeRangeMissesIPv4 | ipblock/set.go:25-43 | the IPv6 prefix of length zero covers every IPv4 address and matches none |
| BlockSets.LatestWins | ipblock/set.go:83-101 | of several blocks on one prefix the last one listed is kept |
| BlockSets.DescendingSorts | ipblock/set.go:92-99 | sort, compact and reverse give the same lengths, each once, longest first |
| BlockSets.NewBlockSet | ipblock/set.go:83-101 | the index holds the latest block of each prefix and exactly the lengths in use, by family |
| BlockSets.Lookup | ipblock/set.go:105-117 | finds the longest matching prefix whose block is in force, past lapsed narrower blocks; none if and only if nothing matches |
| BlockSets.List | ipblock/set.go:119-134 | lists exactly the blocks in force, each once, ordered by prefix |
| Blocklist.OneAnswer | ipblock/ipblock.go:75-90 | a map leaves one answer for an address and one list, so lists of either kind that keep the same map cannot be told apart |
| BothLists.RunBoth | ipblock/ipblock.go:86-90 | after any operations with the same clock readings the memory list and the document list have reported the same outcomes and give the same answer and list, those of the abstract map |
| Blocklist.LastOperationDecides | ipblock/ipblock.go:62-73 | after any run of operations a prefix is blocked exactly if the last operation that touched it blocked it, with that block as it was prepared |
| Blocklist.CheckFindsCover | ipblock/ipblock.go:76-84 | an address is reported blocked if and only if a block in force covers it, in the sense of containment above |
| Blocklist.PutMeans | ipblock/set.go:45-64 | a block is set exactly if its prefix is valid and it does not lapse at once; it keeps all that was given, under its canonical prefix, and gets the time of the call if it had none |
| Blocklist.LiftMeans | ipblock/ipblock.go:68-73 | lifting removes exactly the block on the canonical prefix, and reports whether it was in force |
| Blocklist.LapsedIsHidden | ipblock/set.go:66-69 | from its expiry on a block is neither found nor listed |
| Blocklist.InForceIsShown | ipblock/set.go:66-69 | before its expiry, and always without one, it is listed, and an address in it finds it or a narrower one |
| MemoryLists.MemoryList.Block | ipblock/memory.go:49-59 | sets the block in the abstract map, or gives its error, and keeps the index in step |
| MemoryLists.MemoryList.Unblock | ipblock/memory.go:61-78 | removes the block from the abstract map; a lapsed one is removed but reported as not blocked |
| MemoryLists.MemoryList.Reindex | ipblock/memory.go:83-85 | the index is rebuilt to agree with the map, whatever order it is read in |
| MemoryLists.MemoryList.Check | ipblock/memory.go:87-96 | answers from the map as the abstract blocklist does |
| MemoryLists.MemoryList.ListBlocks | ipblock/memory.go:98-102 | lists the map's blocks in force, in order |
| DocumentLists.DocumentRoundTrip | ipblock/document.go:66-97 | a stored block is read back as it was |
| DocumentLists.DocumentIDInjective | ipblock/document.go:99-103 | canonical prefixes have documents of their own |
| DocumentLists.PlainIsLossless | ipblock/document.go:66-103 | there are text forms of prefixes that lose nothing |
| DocumentLists.DocumentList.Block | ipblock/document.go:105-114 | sets the block in the same abstract map with the same outcomes as the memory list, over documents that hold no valid block |
| DocumentLists.DocumentList.Unblock | ipblock/document.go:116-136 | removes it from the same abstract map; the outcome is the same too, except exactly when the document under its id holds no valid block and has not lapsed |
| DocumentLists.ReportedIff | ipblock/document.go:122-135 | that condition, of what is reported on deleting a document |
| DocumentLists.UnblockSpoiled | ipblock/document.go:116-136 | over a hand-edited document, lifting a block that was never set succeeds |
| DocumentLists.DocumentList.Load | ipblock/document.go:159-183 | reads the abstract map back from the documents, in any order, skipping those that hold no valid block |
| DocumentLists.DocumentList.Check | ipblock/document.go:138-149 | answers as the abstract blocklist does |
| DocumentLists.DocumentList.ListBlocks | ipblock/document.go:151-157 | lists the blocks in force, in order |
| Caches.Cache.EnterCurrent | ipblock/cache.go:99-113 | the first critical section: starts a load exactly when one is due, and says whether to answer, fail or wait |
| Caches.Cache.FinishCurrent | ipblock/cache.go:114-128 | the second critical section: the copy, or the error of the last load |
| Caches.Cache.CheckCopy | ipblock/cache.go:76-87 | a lookup in the copy that the call holds, with expiry at the time read after it |
| Caches.Cache.CommitLoad | ipblock/cache.go:130-147 | a failed load keeps the copy, a successful one replaces it and clears the error |
| CacheRuns.StepKeepsInv | ipblock/cache.go:55-147 | every step keeps: at most one load in flight, starts at least ttl apart, the copy and error of the last load, true answers |
| CacheRuns.EnterIs | ipblock/cache.go:99-121 | a call starts a load if and only if none is in flight and none was started less than ttl ago; it answers from the last successful load, or waits for the load in flight, or fails with the last load's error |
| CacheRuns.WakeIs | ipblock/cache.go:117-127 | a call that has waited reads the last successful load, or fails with the last load's error |
| CacheRuns.WaitersCanWake | ipblock/cache.go:117-147 | a waiting call is never stuck: its load can commit, then close its channel, and then the call can wake |
| CacheRuns.LastLoadedIs | ipblock/cache.go:138-146 | the last successful load is one that succeeded and that only failures followed; there is none if and only if all failed |
| CacheRuns.RunFromStart | ipblock/cache.go:76-147 | in every interleaving from a new cache those hold, no call fails without an error, and each answer to Check or List is a lookup or listing, with expiry at the time of the call, in the blocks of the last successful load the call saw |
| CacheRuns.AnswerIsUnique | ipblock/cache.go:76-95 | there is no other such answer |
| CacheRuns.CopyIsNeverLost | ipblock/cache.go:130-147 | over any run a loaded copy is kept, or replaced by that of the run's last successful load, whatever loads fail |
| CacheRuns.CallsWithACopyNeverWait | ipblock/cache.go:97-113 | once there is a copy every call answers at once |
| Releases.StreamedIs | release/gcsrelease/manager.go:147-167 | the data is all the bytes up to and with the first read that ends it |
| Publishing.Manager.Stream | release/gcsrelease/manager.go:147-170 | writes exactly the data read up to its end, or a prefix of it up to a failed write; its reads are steps of one upload |
| Publishing.Manager.AbortUpload | release/gcsrelease/manager.go:209-218 | removes the object only if closing created it, never one that was there |
| Publishing.Manager.Commit | release/gcsrelease/manager.go:178-194 | creates the object and then records it; an object that exists is reported and left as it is |
| Publishing.Manager.Record | release/gcsrelease/manager.go:184-194 | records the checksum of the new object, or removes the object when that fails |
| Publishing.Manager.Transfer | release/gcsrelease/manager.go:132-194 | success publishes all data under its own checksum where nothing was; failure publishes nothing and keeps every existing object; an existing object is reported; nothing else fails without a fault |
| Publishing.Manager.Upload | release/gcsrelease/manager.go:120-195 | reports a published version, or transfers the data; from any state of other uploads the call is a run of the steps of one upload, which ends published exactly if it succeeds |
| PublishRuns.StepIsLocal | release/gcsrelease/manager.go:126-218 | in any interleaving a step never changes an object's bytes, and only the upload that created an object removes it |
| PublishRuns.StepKeepsInv | release/gcsrelease/manager.go:126-218 | every step keeps: metadata has its object, which hashes to the recorded checksum and is no longer at risk of removal |
| PublishRuns.RunKeepsPublished | release/gcsrelease/manager.go:120-195 | over any interleaving of uploads, each stopping anywhere, what is published once stays as it is |
| PublishRuns.RunFromStores | release/gcsrelease/manager.go:120-218 | from any stores whose metadata has its objects, over any interleaving: the bytes of every object that was there and all metadata stay, and all metadata, old and new, has its object with the recorded checksum |
| PublishRuns.PublishedIsComplete | release/gcsrelease/manager.go:172-195 | an upload that succeeded has published all it read, and as much as was announced |
| PublishRuns.OnePublisher | release/gcsrelease/bucket.go:33-36 | two uploads never both publish one version |
| ReadSides.ReadSide.Read | bluenet/chan_conn.go:74-146 | what was pending and what was taken is what was read and what is pending now, and as much is read as there is room for; a result is taken only then; the error of each case |
| ConnRuns.StepKeepsOrderly | bluenet/chan_conn.go:148-286 | every step keeps: the wait group counts active writes, and once the channel is closed each active write knows it |
| ConnRuns.SendAndCloseAreSafe | bluenet/chan_conn.go:271-286 | no write sends on the closed channel, and it is never closed twice |
| ConnRuns.StepKeepsInOrder | bluenet/chan_conn.go:74-146 | the bytes read and pending stay the concatenation of what was taken |
| ConnRuns.StepKeepsHonest | bluenet/chan_conn.go:148-227 | each packet is the data of one write, and an acknowledged write was taken |
| ConnRuns.ReadIsARun | bluenet/chan_conn.go:74-146 | what a call of Read does is a run of the reader's steps, from any state of the writers |
| ConnRuns.RunHasArguments | bluenet/chan_conn.go:148-170 | over any run there is one write for each call, with the bytes it was called with |
| ConnRuns.RunsAreSafe | bluenet/chan_conn.go:74-286 | in every interleaving of writes, closes and reads: no send on a closed channel, at most one close; packets are arguments of calls, one a call; what was read and is pending is what was taken, with the argument of every call that returned without error; with one writer in the order of the calls |
| ConnRuns.WriteGoesThrough | bluenet/chan_conn.go:148-227 | on an open connection with room to read, a write returns without error and its bytes are read |
| ConnRuns.CloseGoesThrough | bluenet/chan_conn.go:271-286 | with no write under way a close closes the channel, and later writes are refused |
| Batching.SplitRequests | emailprovider/sendgrid/sendgrid.go:107-126 | non-empty requests of at most 1000 distinct recipients that concatenate to the group, each too full for the next message |
| Batching.SplitRequestsIsOptimal | emailprovider/sendgrid/sendgrid.go:107-126 | no contiguous split within the limits uses fewer requests |
| Sending.Group | emailprovider/sendgrid/sendgrid.go:284-297 | each body gets the group of exactly its messages, in order, and bodies are listed once, as they first appear |
| Sending.BodiesListed | emailprovider/sendgrid/sendgrid.go:284-297 | the bodies of the messages, each once |
| Sending.BodiesInOrder | emailprovider/sendgrid/sendgrid.go:284-297 | bodies are listed in the order of their first messages |
| Sending.GroupHolds | emailprovider/sendgrid/sendgrid.go:284-297 | a group holds exactly the indices of the messages with its body |
| Sending.GroupAscends | emailprovider/sendgrid/sendgrid.go:284-297 | in ascending order |
| Sending.CutsAreDisjoint | emailprovider/sendgrid/sendgrid.go:301-317 | cutting a group puts no message in two requests |
| Sending.Send | emailprovider/sendgrid/sendgrid.go:275-324 | every message is in exactly one request, of its own body and within the limits, and has the answer to that request; requests go body by body, each full; nothing is sent when a message is invalid |
| Sending.SendsFewest | emailprovider/sendgrid/sendgrid.go:299-317 | no other way of cutting the groups of the bodies within the limits sends fewer requests |
| Retries.ExponentialSleep | retry/retry.go:44-61 | the doubling loop gives min doubled count - 1 times, capped at max, and every value on the way is a 64-bit duration |
| Retries.BackoffDoubles | retry/retry.go:41-61 | the first sleep is min, and each one after twice the last, up to max; a min or max of zero or less stays |
| Retries.BackoffIsDuration | retry/retry.go:44-61 | the exact backoff is a 64-bit duration, whatever the count |
| Retries.PartsAdvise | retry/retry.go:35-70 | a limit stops from its count on and does not sleep; the others sleep and never stop |
| Retries.CombinationMeans | retry/retry.go:72-92 | a combination stops if and only if a part stops, and else sleeps for the longest sleep of its parts, never less than zero |
| Retries.BoundStops | retry/retry.go:35-39 | a strategy with a limit inside stops at the limit and ever after |
| Retries.Retry | retry/retry.go:94-131 | with a limit n inside, calls at most max(1, n) times, up to the first call that ends the loop, and succeeds exactly if that call did |
| Retries.LimitIsReached | retry/retry.go:94-131 | a function that always fails and asks to be retried is called exactly max(1, n) times under a limit of n |

## Left out

- Allocation.Allocate: does not model 64-bit wrap-around; `AllocateFitsInt64` gives the inputs for which there is none.
- Engine.ComputeRound: does not model wrap-around of the sums of receipts, credits and carryforward, which the code adds unchecked; which error is reported is modelled by kind, not by text.
- Engine.DueAfterQuarter: the payout days are kept as a count after the quarter boundary; no civil calendar is modelled.
- Verify.VerifyRound: does not model wrap-around of the recorded credits' total or of the pool.
- Closing.Ledger.CloseRound: one attempt runs at a time, and reads its inputs at one moment; failures of reads are a stop before the first write. A store write that fails is not kept; an obligation kept in spite of an error is a stop one write later, a round kept in spite of an error is not modelled.
- LedgerRetries.RetriesConverge: the inputs of the month stay the same between attempts, no obligation of the month is there before the first one, and none is moved on between attempts.
- DocumentLists.DocumentList.Load: the store keeps documents as they are given; encodings that lose time precision, and valid blocks under the id of another, are not modelled.
- MemoryLists.MemoryList.Unblock: operations on a list run one at a time, which the lock of the memory list ensures and the document list does not.
- CacheRuns.RunFromStart: the sources list blocks with canonical prefixes, as both lists do; states safety only; that a waiting call is woken is not stated. The load's timeout is one of its errors. The first load is due whatever the clock says.
- PublishRuns.RunKeepsPublished: no release is deleted meanwhile, and the metadata store keeps all of an upload or nothing.
- ReadSides.ReadSide.Read: deadline changes during a wait only restart a timer and are not steps.
- ConnRuns.RunsAreSafe: the channel is a queue without a bound, of which a rendezvous is a send and a receive in a row; safety only, not the freedom of Close from deadlock when a deadline changes.
- Sending.Send: the syntax checks on addresses and subjects are a parameter, and the joined error of all requests is not modelled.
- Retries.Retry: only strategies that contain a limit are modelled, as others may call for ever; the errors it collects are not.
- Participants, award decisions, receipt import, payouts and the commands above them: each reads and writes one document.
- Validation messages, document encodings, object store and database drivers, `gRPC`, signing, logging and configuration: wrappers over libraries.
- Get, Delete and signed URLs of releases: Delete is outside the ownership that publishing relies on.
