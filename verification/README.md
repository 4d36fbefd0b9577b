# NFT rental contracts: a Dafny model

The repository holds two versions of a Solidity contract, both called `NFTRentLight`, that let a
caller rent a game NFT:

- the **simple contract** (`smart_contract/rent_contract/rent_contract.sol`) keeps one rental
  record per address and nothing else;
- the **pooled contract** (`smart_contract/rent_contract/rent_contract_RL_attempt.sol`) adds a
  growing array of slots `(id, isRented)` and a five-minute access window. Its function set is the
  one the front end calls.

The pooled contract keeps two stores that should agree, and treats them asymmetrically. `rentNft`
takes the first *free* slot with the id. `endRental` releases the first slot with the id, *free or
not*. `store` never checks for a duplicate id. With two slots of one id, A rents, B rents, A ends and
B ends leaves a slot rented that nobody holds. This project proves what is true nevertheless.

## How it is modelled

Both contracts are classes with the original fields, loops and early exits; `msg.sender` and
`block.timestamp` are parameters; a revert is an `Outcome` value with a reason and leaves the fields
as they were. Words are 256 bits, and the one addition that can overflow reverts. Each object carries
a ghost log of every transaction it received, reverted ones included, and `Valid()` says that its
fields are `After(log)`, the result of a pure transition function. A theorem about all logs is
therefore a theorem about the object after any sequence of calls.

`Deeds(log)` is the list of successful rents and ends, the same type for both contracts. Most results
say that state, answers and losses can be computed from that list alone.

| file | content |
|---|---|
| `Evm.dfy`, `Sequences.dfy` | words, addresses, outcomes; first-match search |
| `RentalBook.dfy`, `History.dfy` | the `rentals` mapping; deeds and what is counted in them |
| `RentContract.dfy` | the simple contract |
| `Slots.dfy`, `PoolMachine.dfy` | the pool and its listing; the pooled contract's transitions |
| `Conservation.dfy`, `Inventory.dfy` | the leak: exact law, bounds, when it is zero |
| `Refinement.dfy` | pooled runs as simple runs, and back |
| `Access.dfy` | time-limited access, bounded arithmetic |
| `Commutation.dfy`, `RoundTrip.dfy` | order of calls; rent then end; listing |
| `PooledContract.dfy` | the pooled contract object |

Automatic induction is switched off on every lemma, so each proof shows the induction it uses.

## Where the code and its comments disagree

The model follows the code.

- "Auto-expire if time is up" (line 78): expiry changes only what the two views answer. The slot stays
  rented and the user stays barred until `endRental` (`ExpiryReleasesNothing`).
- "Mark NFT as available again" (line 97): the slot marked need not be the slot the caller took, and
  may be free already (`EndsOnFreeSlot`, `LeakStep`).
- "Admin function" (line 24): anybody may call `store`.

The tempting invariant "rented slots of an id equal its active rentals" is false in general.
`NeverLeaksIffDistinct` gives the exact condition on the stock, and `FreshRoundLeaks` the concrete
four-call run that breaks it for every id stored twice.

## Model

| member | source | states |
|---|---|---|
| Conservation.BooksBalance | smart_contract/rent_contract/rent_contract_RL_attempt.sol:52-107 | in every reachable state, for every id: successful rents = ends + active renters; rents = clean ends + rented slots; the first slot is rented iff the last deed on the id is a rent, and then somebody holds the id |
| Conservation.LeakBound | smart_contract/rent_contract/rent_contract_RL_attempt.sol:25-107 | rented slots minus active renters of an id equals the number of ends that followed another end of it, is never negative, and is at most the stored copies minus one |
| Conservation.LeakStep | smart_contract/rent_contract/rent_contract_RL_attempt.sol:92-107 | one transaction raises the leak by one exactly when it is a successful end that meets a free first slot; every other transaction keeps it |
| Conservation.LeakNeverShrinks | smart_contract/rent_contract/rent_contract_RL_attempt.sol:25-107 | along any run the leak of an id never decreases |
| Conservation.LeakedCopiesAreLost | smart_contract/rent_contract/rent_contract_RL_attempt.sol:25-107 | in every continuation, active renters plus what had leaked before fit into the old copies plus the newly stored ones |
| Conservation.PoolIsStoreLog | smart_contract/rent_contract/rent_contract_RL_attempt.sol:25-27 | the pool's ids are the stored ids in store order: slots are never removed, moved or renamed |
| Conservation.PoolOnlyGrows | smart_contract/rent_contract/rent_contract_RL_attempt.sol:25-27 | continuing a run appends exactly the ids it stores |
| Conservation.ReleaseFindsItsSlot | smart_contract/rent_contract/rent_contract_RL_attempt.sol:95-103 | an active rental's id is always in the pool, so the release loop always hits |
| Conservation.ExpiryReleasesNothing | smart_contract/rent_contract/rent_contract_RL_attempt.sol:52-53 | while nobody ends, every rented slot and every active rental persists and its owner cannot rent, at any time |
| Conservation.RentCounts | smart_contract/rent_contract/rent_contract_RL_attempt.sol:55-70 | in any state a successful rent moves exactly the rented count and the active count of its id, by one, and leaves the first slot of that id rented |
| Conservation.EndCounts | smart_contract/rent_contract/rent_contract_RL_attempt.sol:95-106 | a successful end lowers the active count of its id by one, the rented count only if the first slot was rented, and leaves that slot free |
| Inventory.RentSucceedsIff | smart_contract/rent_contract/rent_contract_RL_attempt.sol:52-64 | a rent succeeds iff the caller holds nothing and successful rents are fewer than stored copies plus clean ends |
| Inventory.UnheldIdCanBeRented | smart_contract/rent_contract/rent_contract_RL_attempt.sol:52-71 | a rented first slot has an active renter; a stored id that nobody holds can be rented by any caller who holds nothing, however much leaked |
| Inventory.NoOverSubscription | smart_contract/rent_contract/rent_contract_RL_attempt.sol:74-84 | at any time the users granted a nonzero id, plus its leaked copies, are at most its stored copies |
| Inventory.OneRoundLeaksOne | smart_contract/rent_contract/rent_contract_RL_attempt.sol:52-107 | two users renting and ending the same idle id lose exactly one copy |
| Inventory.LeakBoundIsReached | smart_contract/rent_contract/rent_contract_RL_attempt.sol:52-107 | from every reachable state with the id unheld, k rounds leak k copies, up to all but one: the leak bound is tight |
| Inventory.OneHolderLeft | smart_contract/rent_contract/rent_contract_RL_attempt.sol:52-107 | after that, without new stock, never again two holders at once |
| Inventory.FreshRoundLeaks | smart_contract/rent_contract/rent_contract_RL_attempt.sol:52-107 | concrete failing run: on any fresh stock with an id stored twice, four calls leave a rented slot nobody holds |
| Inventory.NeverLeaksIffDistinct | smart_contract/rent_contract/rent_contract_RL_attempt.sol:25-27 | rented slots equal active renters for every id in every run from a given stock iff the stored ids are pairwise distinct |
| Inventory.RentersMatchRentedSlots | smart_contract/rent_contract/rent_contract_RL_attempt.sol:52-107 | with distinct stored ids, active renters and rented slots are in bijection and different renters hold different ids |
| Refinement.StepIsSimulated | smart_contract/rent_contract/rent_contract.sol:15-38 | every pooled transaction other than a store or an unavailable rent has the simple contract's outcome, revert reason included; the others leave the mapping alone |
| Refinement.PooledRunIsSimpleRun | smart_contract/rent_contract/rent_contract.sol:15-38 | every pooled run projects to a simple run with the same mapping, start times included, and the same history |
| Refinement.FollowsIffDemandMet | smart_contract/rent_contract/rent_contract_RL_attempt.sol:25-107 | a pool stocked first reproduces a simple run's mapping at every step iff the stock covers, at every prefix and for every id, rents minus clean ends |
| Refinement.FollowingBooks | smart_contract/rent_contract/rent_contract_RL_attempt.sol:52-107 | in a pool that follows a simple run, the rented copies of an id equal the demand computed from the simple run |
| Refinement.OneCopyPerRentSuffices | smart_contract/rent_contract/rent_contract_RL_attempt.sol:25-71 | one stored copy per successful rent is always enough to reproduce a simple run |
| Access.AccessFollowsHistory | smart_contract/rent_contract/rent_contract_RL_attempt.sol:74-89 | access and start time are functions of the user's own successful calls, for every run, user and time, reverts included |
| Access.AccessIffRecentRent | smart_contract/rent_contract/rent_contract_RL_attempt.sol:74-84 | a nonzero id is granted iff the user's last successful call is a rent of it at most 300 seconds old |
| Access.AccessIsSimpleAccessInWindow | smart_contract/rent_contract/rent_contract_RL_attempt.sol:74-84 | pooled access is the simple contract's access up to start + 300 and 0 afterwards |
| Access.NewDeedsAreTheNewOnes | smart_contract/rent_contract/rent_contract_RL_attempt.sol:52-107 | the deeds of a continuation, on which the next row is stated, are exactly what it adds to the history |
| Access.AccessLostStaysLost | smart_contract/rent_contract/rent_contract_RL_attempt.sol:74-84 | within one rental access is one interval; once lost it returns only after a new successful rent |
| Access.OthersCannotTouchARental | smart_contract/rent_contract/rent_contract_RL_attempt.sol:52-107 | until the renter calls `endRental`, access lasts exactly until start + 300 and the record stays as it is, whatever anybody does |
| Access.ViewsRevertIff | smart_contract/rent_contract/rent_contract_RL_attempt.sol:79 | the views revert, with the arithmetic reason, iff the user's last successful call is a rent at 2^256 - 300 or later |
| Access.ViewsNeverRevert | smart_contract/rent_contract/rent_contract_RL_attempt.sol:5-116 | with all timestamps below 2^256 - 300 the views never revert |
| Access.AccessWithinFiveMinutes | smart_contract/rent_contract/rent_contract_RL_attempt.sol:74-84 | with a clock that does not run backwards, granted access lies between the rent and 300 seconds after it |
| Access.StartTimesComeFromTheLog | smart_contract/rent_contract/rent_contract_RL_attempt.sol:66-70 | a recorded start time is 0 or the timestamp of one of the user's own transactions |
| Access.DurationNeverChanges | smart_contract/rent_contract/rent_contract_RL_attempt.sol:5 | `rentalDuration` is 300 after every run |
| Commutation.CommuteIff | smart_contract/rent_contract/rent_contract_RL_attempt.sol:52-107 | two successful calls by different users, each a rent or an end, give the identical state in either order iff neither rents the id the other ends |
| Commutation.RentAndEndOfOneIdClash | smart_contract/rent_contract/rent_contract_RL_attempt.sol:52-107 | renting and ending the same id never commutes |
| Commutation.StoreCommutes | smart_contract/rent_contract/rent_contract_RL_attempt.sol:25-27 | a store can be moved before any rent or end that succeeds without it, and turns only an unavailable rent of its own id into a success |
| RoundTrip.ListedIffRentable | smart_contract/rent_contract/rent_contract_RL_attempt.sol:30-64 | an id is listed iff a caller who holds nothing can rent it |
| RoundTrip.RentUnlistsOne | smart_contract/rent_contract/rent_contract_RL_attempt.sol:30-71 | a successful rent removes exactly one occurrence of its id from the listing |
| RoundTrip.RentThenEndListing | smart_contract/rent_contract/rent_contract_RL_attempt.sol:30-107 | rent then end by the same caller restores the listing as a multiset in every state, and in its order iff no free slot lies between the first slot of the id and the slot taken |
| RoundTrip.RentThenEndPool | smart_contract/rent_contract/rent_contract_RL_attempt.sol:52-107 | it restores the pool array iff the first slot of the id was free |
| RoundTrip.RentThenEndRecords | smart_contract/rent_contract/rent_contract_RL_attempt.sol:52-107 | it keeps every other record and leaves the caller an inactive record with the new id and start time |
| Slots.ListingIsInOrder | smart_contract/rent_contract/rent_contract_RL_attempt.sol:30-49 | the listing reads the ids off exactly the free positions, in increasing order |
| Slots.ListingCountsFreeCopies | smart_contract/rent_contract/rent_contract_RL_attempt.sol:30-49 | an id is listed as often as it has free copies |
| PooledContract.NFTRentLight.constructor | smart_contract/rent_contract/rent_contract_RL_attempt.sol:4-22 | a new contract has an empty pool, no rentals, a duration of 300 and an empty log |
| PooledContract.NFTRentLight.Store | smart_contract/rent_contract/rent_contract_RL_attempt.sol:25-27 | appends one free copy, which is listed last, and changes nothing else |
| PooledContract.NFTRentLight.GetAvailableNfts | smart_contract/rent_contract/rent_contract_RL_attempt.sol:30-49 | the two passes stay in bounds and return the in-order ids of the free slots |
| PooledContract.NFTRentLight.RentNft | smart_contract/rent_contract/rent_contract_RL_attempt.sol:52-71 | succeeds iff the caller holds nothing and the id is listed, with the first-free-slot transition; otherwise changes nothing and reports the right reason |
| PooledContract.NFTRentLight.EndRental | smart_contract/rent_contract/rent_contract_RL_attempt.sol:92-107 | succeeds iff the caller's rental is active, expired or not, with the first-slot release; otherwise changes nothing |
| PooledContract.NFTRentLight.CheckAccess | smart_contract/rent_contract/rent_contract_RL_attempt.sol:74-84 | answers from the caller's own history |
| PooledContract.NFTRentLight.GetUserNfts | smart_contract/rent_contract/rent_contract_RL_attempt.sol:110-116 | gives the same answer as `checkAccess` always, reverts included |
| PooledContract.NFTRentLight.GetUserStartTime | smart_contract/rent_contract/rent_contract_RL_attempt.sol:87-89 | the time of the caller's last successful rent, also after it ended; 0 if there is none |
| RentContract.RecordsFollowHistory | smart_contract/rent_contract/rent_contract.sol:15-38 | a user's record in the simple contract is determined by that user's own successful calls |
| RentContract.ActiveIsRentsMinusEnds | smart_contract/rent_contract/rent_contract.sol:15-38 | in the simple contract, rents minus ends of an id is the number of its holders |
| RentContract.NFTRentLight.RentGame | smart_contract/rent_contract/rent_contract.sol:15-23 | succeeds iff the caller holds nothing and then writes the caller's record; otherwise changes nothing |
| RentContract.NFTRentLight.EndRental | smart_contract/rent_contract/rent_contract.sol:35-38 | succeeds iff the caller's rental is active and then clears only the flag; otherwise changes nothing |
| RentContract.NFTRentLight.CheckAccess | smart_contract/rent_contract/rent_contract.sol:25-29 | the id of the caller's last successful call if that is a rent, else 0 |
| RentContract.NFTRentLight.GetUserStartTime | smart_contract/rent_contract/rent_contract.sol:31-33 | the time of the caller's last successful rent; 0 if there is none |

## Left out

- The React front end, the Substrate node, runtime and template pallet, and the ink! flipper: wiring, or single-field state that would only add easy members.
- Gas, ABI encoding, storage layout, and the generated getters for public fields.
- PooledContract.NFTRentLight.GetAvailableNfts: its counters are unbounded integers, because they never exceed the number of `store` calls; the same holds for the loop index of `rentNft` and `endRental` and for the length of the array.
- The compiled artifacts, older contract versions, and the functions that the repository's README announces but no source implements.
- Id 0 is also the "no access" answer of `checkAccess`; access results are stated for nonzero ids where the two would be confused.
- Who may send which transaction when: logs are arbitrary, and timestamps are arbitrary words except where a lemma assumes a clock that does not run backwards.
