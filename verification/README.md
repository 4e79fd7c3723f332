# SealedStellar, verified

SealedStellar is a sealed-bid second-price auction. Bidders commit to prices by
hash and lock a uniform deposit; after the deadline an operator proves, in zero
knowledge, who bid most and what the second price was; the contract settles only
against such a proof, and refunds everyone when none arrives in time. This
project models the parts of the system that carry that promise and proves them,
for all inputs and whole runs:

* **the winner circuit** as a relation over a prime field, shown equivalent to
  the second-price rule (`PrimeField`, `Gadgets`, `Poseidon`, `AuctionCircuit`,
  `CircuitSoundness`, `CircuitCompleteness`, `Vickrey`);
* **the whitelist tree** and its membership checker (`MerkleChecker`,
  `MerkleTree`, `AddressLeaves`, `Whitelist`);
* **the auction contract** as a state machine over many auctions, token ledgers,
  a clock and a verifier (`Tokens`, `Contract`, `Lifecycle`, `Escrow`,
  `Solvency`, `Refusals`, `Stranding`, `Payout`, `Lifetime`), what each entry point
  answers and leaves behind in the numbers of the call (`EntryPoints`), the same
  entry points as methods that update storage in place and are proved equal to it
  (`SealedAuction`), and concrete runs that reach the states the theorems speak of
  (`Scenarios`);
* **the bridge** from circuit to chain, ending in the theorem that every settled
  auction was settled at its second price (`Statements`, `EndToEnd`), and a complete
  run on which that theorem's assumptions hold (`TwoBidders`, `SettledRun`);
* **the operator**: the browser pipeline, when it reaches the prover and whether its
  settle call is accepted, and the command-line input builder (`Pipeline`,
  `PipelineOutcomes`, `Acceptance`, `PriceCap`, `BuildInput`, `BuildOutcomes`);
* **the indexer**: tables, queries, keyset pagination, event replay, and the whole
  ingester through starts, restarts and syncs (`IndexTables`, `Pagination`,
  `IndexStore`, `IndexReplay`, `LotFlag`, `CatchUp`, `Ingestion`);
* **two smaller cores**: the token bucket (`RateLimiter`) and the byte codecs
  (`Bytes`, `HexCodec`, `BidSealing`).

The chain of main results:

1. `Gadgets` derives every comparator and zero test from its own constraints.
   `CircuitSoundness.Soundness` and `CircuitCompleteness.Completeness` then give
   `CircuitMeansStatement`: inputs can be extended to a satisfying assignment if
   and only if every commitment opens, the winner is the lowest-index maximum, the
   price is the positive maximum of the others, and the winner's leaf hashes to
   the root. Slot count, depth and comparator width are parameters.
2. `Contract` gives every entry point as an atomic step. `Lifecycle.StepChange`
   reduces all of them to five changes; `Escrow.ReachableAccounted` says that the
   transfers ever made for an auction are exactly those its record tells;
   `Solvency.EscrowSolvent` says that balances cover what is owed.
3. `EndToEnd.SettledAtSecondPrice` joins the two over whole runs.
   `SettledRun.PremisesCanHold` shows its assumptions holding together, with nothing
   left open.
4. `EntryPoints`, `PipelineOutcomes` and `BuildOutcomes` say, case by case and in
   terms of the inputs alone, when each operation succeeds, what it then leaves
   behind, and what it refuses with otherwise.
5. `Ingestion.CatchesUp` follows the index through backfills and syncs while the
   chain moves, from where each sync starts fetching to what every row then says.

## How the outside world is modelled

* The field order `p` is any prime large enough for the comparators. Primality is
  trial division; inverses, Euclid's lemma and the existence of such primes are
  derived, not assumed.
* Poseidon is an uninterpreted function into the field. A finite field admits no
  injective hash of pairs, so collision-freeness is only ever assumed of the
  finite set of inputs that were hashed (`known` in the lemmas).
* The verifier is an oracle with three replies; a failed call also stands for a
  verifier address missing from storage, which gives the same error.
  `Statements.KnowledgeSound` says
  that from an accepted proof a satisfying assignment could be read off, after
  every signal is reduced modulo `p` (contracts/verifier/src/lib.rs:17).
  `Acceptance.ProvesTruth` is the converse for an honest prover.
* A token is any function of the ledgers and the transfer's arguments. It writes
  its own ledger only. `Conforming` tokens move exact amounts or fail, for any
  reason they like; all others may do anything. When payments complete is stated
  of the ledgers as they are at the call: `Refusals.Refused` says that a token does
  not complete some payment at the moment it is due, and for tokens whose refusals
  are a gate on their own ledger (`Tokens.GatedBy`: freezes, blocked holders, missing
  trust lines) the gate's answer at the call decides.
  A `try_transfer` whose answer does not decode keeps the token's effects but is
  reported as a failure. Between calls, others may change tokens and the clock
  may advance, but nobody else spends the contract's balance of a conforming token.
* Nobody signs for the contract's own address, so sellers and bidders differ
  from it. An address is a kind and 32 key bytes, and a leaf hashes the key only.
* An error or a trap undoes the whole call, and a call cannot be re-entered.
* The journal of transfers in `Contract.World` is history only: no entry point
  reads it. Storage does not expire, except in `Lifetime`.
* Hashing a node that does not exist fails, so a tree over a list that leaves one
  over cannot be built.

## Where the code falls short, and exactly when

Each item gives the exact condition, and where it can be reached an input.

* `place_bid` rejects the commitment 0, but the circuit's empty marker is 0
  modulo `p`: `Statements.OccupiedReadsAsEmpty`, `Statements.FieldOrderSlipsIn`.
  The end-to-end theorem needs no bound on commitments: an opening makes them
  hashes.
* Nothing on chain holds a hidden price to `max_price`; only the web dialog does
  (web/src/components/auction/PlaceBidDialog.tsx:85). `Acceptance.BundleSettles`:
  the pipeline's settle call is rejected for exactly that reason when two slots'
  prices exceed the cap, and passes its checks otherwise. `PriceCap.CapMissed` is a
  run from two accepted bids to such a rejection.
* Deposits are pushed in one loop, so one bidder whom a conforming payment token
  will not pay at that moment keeps everybody's deposit from being refunded:
  `Refusals.RefundReturnsIff` and, for gates, `Refusals.RefundReturnsIfAdmitted`, in
  every reachable state. `Scenarios.DepositsFrozen` is a run in which the refund
  fails while the token is frozen and returns once it is released. Where the refusal
  is for good, the auction stays open with all deposits in escrow, unless the refused
  bidder wins at the full cap: `Stranding.RefusalStrandsDeposits`, with the run
  `Scenarios.DepositsStranded`. In a refund the lot's token cannot do this.
* The packed closing-soonest key: two rows are ordered as meant if and only if
  they are both open, both closed, or the open one's deadline is not 10^13 seconds
  ahead (`IndexTables.PackedKeyOrders`), and a whole listing is as meant if and
  only if that holds of all its rows (`Pagination.ClosingSoonestAsMeant`). The
  contract accepts any 64-bit deadline; `IndexTables.PackedKeyBreaks` is an input.
* A refund that returns the lot emits no event that says so.
  `LotFlag.LotFlagAgreesIff`: a flag that was right stays right under replay,
  unless the auction was open then, is refunded now and no replayed event speaks
  of its lot. `LotFlag.SilentReturnHappens` is a run where it goes wrong. The flag
  is therefore not part of the other agreement theorems.
* A chain read that fails is logged as one that will be retried, but only the
  creation event brings the id up again. `Ingestion.IngestedExactly`: an auction
  is indexed if and only if some backfill probed it, or some sync fetched its
  creation, and it could then be read.
* `prover/build-input.js` selects on the last bid of a slot, whatever its number,
  and proves with the first bids of slots 0 to 7: `BuildInput.BuiltIsProvableIff`.
  `BuildInput.RepeatedSlotBreaks` is an input where all bids open, the script
  builds its output and the circuit rejects it.
* `sealBid` commits to the price it is given but boxes its low 64 bits:
  `BidSealing.RevealOpensCommitment`. The web dialog never gets there, because it
  refuses prices above `max_price` first (PlaceBidDialog.tsx:85).
* Storage outlives the moment of refund if and only if that is at most 15,000,000
  seconds after creation: `Lifetime.OutlivesRefundIff`, at five seconds a ledger.

## Model

| member | source | states |
|---|---|---|
| Gadgets.Num2BitsSound | circuits/auction_winner.circom:33-38 | A satisfied n-bit decomposition with 2^n at most p leaves only values below 2^n, spelled by boolean signals. |
| Gadgets.Num2BitsComplete | circuits/auction_winner.circom:33-38 | Every value below 2^n has a satisfying decomposition. |
| Gadgets.IsZeroSound | circuits/auction_winner.circom:46-57 | Whatever inverse hint is supplied, the output is 1 for 0 modulo p and 0 otherwise. |
| Gadgets.IsZeroComplete | circuits/auction_winner.circom:46-57 | The constraints can be satisfied for every input; the inverse exists because p is prime. |
| Gadgets.IsEqualSound | circuits/auction_winner.circom:68-72 | On field elements the output says whether they are equal. |
| Gadgets.LessThanSound | circuits/auction_winner.circom:133-135 | As long as the shifted difference stays below 2^(n+1), which is at most p, the comparator decides the integer order and cannot be steered by a wrapped value. |
| Gadgets.GreaterEqSound | circuits/auction_winner.circom:95-97 | The greater-or-equal comparator on n-bit inputs. |
| Gadgets.GreaterSound | circuits/auction_winner.circom:126-128 | The strict comparator on n-bit inputs. |
| Gadgets.LessThanComplete | circuits/auction_winner.circom:133-135 | Comparator signals exist for every in-range pair. |
| PrimeField.Euclid | circuits/auction_winner.circom:55-57 | A product of field values is 0 modulo p only if a factor is: what the product constraints rely on. |
| CircuitSoundness.SlotOpens | circuits/auction_winner.circom:40-58 | Section 2 forces a 64-bit price and either the empty marker with price 0 or a true opening of the commitment. |
| CircuitSoundness.WinnerInRange | circuits/auction_winner.circom:60-81 | The one-hot sum forces the winner index below the slot count, and the selected price is that slot's price. |
| CircuitSoundness.MaxStep | circuits/auction_winner.circom:94-102 | The linear selector keeps the larger of the running value and the next price. |
| CircuitSoundness.RunningMax | circuits/auction_winner.circom:83-102 | The running maximum equals the second pass of the off-chain selection, slot by slot. |
| CircuitSoundness.ClearingPrice | circuits/auction_winner.circom:104-112 | The public price is the maximum over the other slots, and positive. |
| CircuitSoundness.MaximalityMeans | circuits/auction_winner.circom:114-138 | Section 5 forces the selected price to be at least every price and above every earlier one. |
| CircuitSoundness.Soundness | circuits/auction_winner.circom:17-150 | Every satisfying assignment, whatever its intermediate signals, states a true second-price outcome over opened commitments and a member winner. |
| CircuitCompleteness.Completeness | circuits/auction_winner.circom:17-150 | Every true statement extends to a full satisfying assignment. |
| CircuitCompleteness.CircuitMeansStatement | circuits/auction_winner.circom:17-155 | Satisfiable if and only if true. |
| CircuitCompleteness.SelectionIsTheOnlyProvableOutcome | circuits/test/helpers.js:92-114 | Over opened prices, a winner and price are provable if and only if they are the selected ones and the price is positive. |
| Vickrey.SelectMeetsRule | circuits/test/helpers.js:98-114 | The two passes find the outcome the rule allows, and report a price of 0 exactly when it allows none. |
| Vickrey.SelectVickreyOutcome | web/src/lib/operator.ts:93-113 | The two loops compute that selection, and the result is the only outcome that settles. |
| MerkleChecker.SelectorSwaps | circuits/lib/merkle.circom:25-33 | With a boolean bit, the modular linear selector is a conditional swap. |
| MerkleChecker.CheckerSound | circuits/lib/merkle.circom:10-42 | A satisfied checker has boolean bits and folds the leaf to the root. |
| MerkleChecker.CheckerComplete | circuits/lib/merkle.circom:10-42 | Every path that folds to the root satisfies the checker. |
| MerkleTree.MerkleComplete | web/src/lib/whitelist-tree.ts:34-67 | For every depth and every leaf, padding included, the built path folds to the root and its bits spell the index. |
| MerkleTree.MerkleSound | circuits/lib/merkle.circom:24-41 | Any accepted path proves exactly the leaf at the index its bits spell, unless two hashed inputs collide. |
| MerkleTree.RootBindsLeaves | web/src/lib/whitelist-tree.ts:34-54 | Two trees share a root if and only if they share all leaves, unless two hashed inputs collide. |
| MerkleTree.HashPairs | web/src/lib/whitelist-tree.ts:43-48 | The inner loop builds the parent level. |
| MerkleTree.PoseidonMerkleTree.constructor | web/src/lib/whitelist-tree.ts:34-50 | For every list that leaves no node without a sibling, longer than the capacity or not: pads to the capacity and stores every level. |
| MerkleTree.PoseidonMerkleTree.Create | circuits/test/helpers.js:50-70 | The capacity check: a tree exists exactly for leaf lists that fit. |
| MerkleTree.PoseidonMerkleTree.GetRoot | web/src/lib/whitelist-tree.ts:52-54 | The first node of the top level, which for lists within the capacity is the root of the padded leaves. |
| MerkleTree.PathFoldsTo | web/src/lib/whitelist-tree.ts:56-67 | At every level the path of any leaf folds to the tree's own node on the way up. |
| MerkleTree.PoseidonMerkleTree.Climb | web/src/lib/whitelist-tree.ts:56-67 | The loop collects the siblings and bits of the way up. |
| MerkleTree.PoseidonMerkleTree.PathFor | circuits/test/helpers.js:76-90 | None exactly out of range; otherwise siblings and bits that fold that leaf to the top node above it. |
| AddressLeaves.ComputeAddressLeaf | web/src/lib/whitelist-tree.ts:20-28 | One loop over both halves computes the leaf, and no other key has it, unless the halves collide. |
| AddressLeaves.KeyLeafInjective | contracts/auction/src/lib.rs:601-619 | Leaves are equal exactly for equal keys, where nothing collides. |
| Whitelist.ComputeWhitelistRoot | web/src/lib/whitelist-tree.ts:73-95 | Empty, oversized and malformed lists are refused with the first reason; otherwise the root over the members' leaves. |
| Whitelist.RootBindsMembers | web/src/lib/whitelist-tree.ts:73-95 | Two member lists have one root if and only if they are the same keys in the same order, given no collision and no key hashing to 0. |
| SealedAuction.AuctionContract.constructor | contracts/auction/src/lib.rs:188-191 | A fresh contract with no auctions and next id 1. |
| SealedAuction.AuctionContract.CreateAuction | contracts/auction/src/lib.rs:209-257 | Outcome and the whole new state, error by error, are those of the atomic step, which the next two rows describe. |
| EntryPoints.CreateAnswers | contracts/auction/src/lib.rs:209-240 | A creation returns if and only if the seller signs, lot and cap are positive, the cap fits 64 bits, the deadline is ahead, there is grace, an id is left and the lot's token completes the transfer; otherwise it is rejected for the first thing wrong, or traps, and changes nothing. |
| EntryPoints.CreatedAsAsked | contracts/auction/src/lib.rs:229-288 | Then every field of the new record is the argument of that name, under the next id, with one movement of the lot from the seller and one event. |
| Lifetime.LifetimeIs | contracts/auction/src/lib.rs:259-271 | The requested lifetime in numbers: the whole five-second ledgers up to the refund and 17,280 more, at most 3,000,000. |
| Lifetime.OutlivesRefundIff | contracts/auction/src/lib.rs:259-279 | The requested storage lifetime reaches the moment of refund if and only if that is at most 15,000,000 seconds away. |
| Lifetime.DayOfMargin | contracts/auction/src/lib.rs:259-271 | Below the cap there is a day to spare. |
| SealedAuction.AuctionContract.PlaceBid | contracts/auction/src/lib.rs:294-348 | The same for a bid. |
| EntryPoints.BidAnswers | contracts/auction/src/lib.rs:301-334 | A bid returns if and only if the bidder signs, the auction is open before its deadline with fewer than 8 bids, the commitment is nonzero and new, the ciphertext is at most 256 bytes and the payment token completes the deposit; otherwise the first thing wrong is the error, and nothing changes. |
| EntryPoints.BidRecorded | contracts/auction/src/lib.rs:328-349 | Then the bidder and commitment are appended, the cap moves from the bidder into escrow, and the event carries the slot and the ciphertext. |
| EntryPoints.BrowserBidReturnsIff | web/src/lib/crypto.ts:57-90 | A ciphertext sealed in the browser always fits, so such a bid returns if and only if the rest is in order. |
| SealedAuction.AuctionContract.Settle | contracts/auction/src/lib.rs:363-450 | The same for settle; a transfer that traps half-way leaves the state before the call. |
| EntryPoints.SettleAnswers | contracts/auction/src/lib.rs:371-441 | A settle call returns if and only if the auction is open past its deadline, the winner holds the slot, the price is from 1 to the cap, the verifier accepts the thirteen signals spelled out, and all payments complete; otherwise the first thing wrong is the error. |
| EntryPoints.SettlementRecorded | contracts/auction/src/lib.rs:418-449 | Then only the status, the payments and one event are new. |
| EntryPoints.PayoutsAt | contracts/auction/src/lib.rs:425-441 | The payments in order: price to the seller, change to the winner if any, each loser's deposit by slot, the lot to the winner. |
| SealedAuction.AuctionContract.PublicSignals | contracts/auction/src/lib.rs:564-588 | The loop over the slots builds the vector the statements are about. |
| SealedAuction.AuctionContract.PayLosers | contracts/auction/src/lib.rs:431-435 | The loop pays all losing slots in order, or some transfer of that list fails. |
| SealedAuction.AuctionContract.PaySettlement | contracts/auction/src/lib.rs:425-441 | The transfers of settle, one after another. |
| SealedAuction.AuctionContract.PayRefunds | contracts/auction/src/lib.rs:467-471 | The loop refunds all slots in order, or some transfer of that list fails. |
| SealedAuction.AuctionContract.RefundAll | contracts/auction/src/lib.rs:455-503 | The same for refund_all, with a lot return that cannot trap. |
| EntryPoints.RefundAnswers | contracts/auction/src/lib.rs:455-471 | A refund returns if and only if the auction is open, min(deadline + grace, 2^64 - 1) has come and every deposit goes back; otherwise the first thing wrong is the error. |
| EntryPoints.RefundRecorded | contracts/auction/src/lib.rs:463-502 | Then the deposits, the lot if its token completes that transfer, the flag and the events that go with either are new, and a garbled answer keeps the token's effects. |
| SealedAuction.AuctionContract.ReclaimLot | contracts/auction/src/lib.rs:508-537 | The same for reclaim_lot. |
| EntryPoints.ReclaimAnswers | contracts/auction/src/lib.rs:508-529 | A reclaim returns if and only if the auction is refunded, its lot left behind and the token completes the transfer now; otherwise the first of these is the error, and it never traps. |
| EntryPoints.ReclaimRecorded | contracts/auction/src/lib.rs:516-537 | Then the lot moves to the seller and the flag is set. |
| SealedAuction.PayAppend | contracts/auction/src/lib.rs:425-441 | Paying one list after another is paying their concatenation, so the transfers of a call are one list. |
| Lifecycle.StepChange | contracts/auction/src/lib.rs:197-537 | Every call makes one of five changes or none, each with its transfers, events and the conditions under which alone it can happen. |
| Lifecycle.RunMovesForward | contracts/auction/src/lib.rs:197-558 | Over every run ids stay exactly 1 to next - 1 and auctions only move from Open to Settled or Open to Refunded, with bids append-only and frozen from the deadline on. |
| Escrow.ChangeKeepsAccounts | contracts/auction/src/lib.rs:229-537 | Each change keeps the transfers of every auction equal to what its record tells, and its record well formed. |
| Escrow.ReachableAccounted | contracts/auction/src/lib.rs:229-537 | In every reachable state an auction's transfers are the lot and one deposit per bid in, then nothing, one settlement, or the refunds with the lot at most once; bids are at most 8, distinct and nonzero. |
| Solvency.SettleFlow | contracts/auction/src/lib.rs:425-441 | A settlement pays out all deposits and the lot, to the unit. |
| Solvency.ScriptFlow | contracts/auction/src/lib.rs:229-537 | What an auction moved in and out nets to what it still owes. |
| Solvency.PayAllFlow | contracts/auction/src/lib.rs:425-441 | A list of transfers of a conforming token changes every balance by exactly its flow. |
| Solvency.StepKeepsCover | contracts/auction/src/lib.rs:197-537 | No call lets the recorded transfers of a conforming token outrun the contract's balance, however other tokens misbehave. |
| Solvency.EscrowSolvent | contracts/auction/src/lib.rs:239-241 | In every reachable state and for every conforming token the balance covers the sum over all auctions of open lots, open deposits and unreturned lots. |
| Solvency.AuctionCovered | contracts/auction/src/lib.rs:425-441 | In particular each auction's own escrow is covered. |
| Payout.SettlementPaysExactly | contracts/auction/src/lib.rs:425-441 | Each account's balance change is the sum of its roles over all slots, for repeated bidders, a bidding seller and one token in both roles too. |
| Payout.RefundPaysExactly | contracts/auction/src/lib.rs:463-487 | Each account gets one deposit per slot it holds, the seller the lot exactly when it is marked returned, and the contract gives up exactly that. |
| Refusals.PayAllIff | contracts/auction/src/lib.rs:425-441 | Payments that the balances cover in total complete if and only if no token refuses one of them when its turn comes. |
| Refusals.RefundReturnsIff | contracts/auction/src/lib.rs:455-471 | From every reachable state, whatever the lot's token does, an open auction is refunded if and only if the saturated deadline plus grace has come and its conforming payment token refuses none of the deposits when it is paid back. |
| Refusals.RefundReturnsIfAdmitted | contracts/auction/src/lib.rs:455-471 | For a payment token whose refusals are a gate on its ledger: if and only if the time has come and the gate admits every bidder now. |
| Refusals.RefusalBlocksRefund | contracts/auction/src/lib.rs:467-471 | One bidder refused for good fails every refund of that auction. |
| Stranding.RefusalStrandsDeposits | contracts/auction/src/lib.rs:455-471 | And over every run the auction stays open with every deposit in escrow, unless that bidder wins at the full cap. |
| Stranding.RefusalStrandsAll | contracts/auction/src/lib.rs:425-471 | If the lot's token refuses them too, it stays open with every deposit in escrow, over every run. |
| Scenarios.DepositsFrozen | contracts/auction/src/lib.rs:467-471 | A reachable auction whose deposits cannot be refunded while its conforming payment token is frozen, and can once it is released. |
| Scenarios.DepositsStranded | contracts/auction/src/lib.rs:467-471 | A reachable auction in conforming tokens that no run ever gets out of Open. |
| Payout.ReclaimExactly | contracts/auction/src/lib.rs:508-529 | In every reachable state a lot left behind is covered by the balance; it is reclaimed if and only if its token completes that transfer, and then exactly the lot moves to the seller. |
| Scenarios.LotLeftBehind | contracts/auction/src/lib.rs:473-497 | A reachable state with a lot left behind in a conforming token that was frozen: not reclaimable then, reclaimable once released. |
| Refusals.SettleReturnsIff | contracts/auction/src/lib.rs:371-441 | In conforming tokens, past its checks and with an accepted proof, settle traps if and only if a token refuses one of its payments when its turn comes, and otherwise returns. |
| Refusals.SettlementAdmitted | contracts/auction/src/lib.rs:425-441 | For gates that is decided by whether every payment's recipient is admitted now. |
| Refusals.RefusedCanOnlyWin | contracts/auction/src/lib.rs:425-441 | Whatever the tokens and the proof, a settle call that returns pays no one refused for good: such a bidder can only be the winner, at the full cap, of a lot whose token does not refuse them. |
| Payout.LotStaysReturnable | contracts/auction/src/lib.rs:473-529 | Over every run after such a refund the lot stays covered and reclaimable exactly when its token completes the transfer, and the only transfer ever added is that one to the seller, at most once. |
| Statements.SignalOrder | circuits/auction_winner.circom:152-155 | The contract's vector is the circuit's public inputs in the declared order. |
| Statements.SignalsBind | contracts/auction/src/lib.rs:564-588 | Two vectors are equal if and only if id, commitments, bid count, winner index, price, root and leaf all are. |
| Statements.ResiduesBind | contracts/verifier/src/lib.rs:12-17 | What a proof attests: the vectors read the same modulo p if and only if id, winner index, price and leaf are equal, and root and padded commitments are equal modulo p. |
| Statements.FieldCommitmentsBind | contracts/auction/src/lib.rs:311-320 | For commitments below p that includes the number of bids and the commitments themselves. |
| Statements.OccupiedReadsAsEmpty | contracts/auction/src/lib.rs:311-315 | An occupied slot reads as the empty marker if and only if its commitment is a multiple of p. |
| Statements.FieldOrderSlipsIn | contracts/auction/src/lib.rs:311-320 | Wherever a bid is accepted, the commitment p would be too, and would read as empty. |
| EndToEnd.AcceptedStatement | contracts/auction/src/lib.rs:392-416 | An accepted proof makes the circuit's statement true of the auction's own commitments, root and winner. |
| EndToEnd.SettlementIsVickrey | contracts/auction/src/lib.rs:371-416 | One accepted settlement is the second-price outcome over prices that agree with every known opening. |
| EndToEnd.SettledHasCall | contracts/auction/src/lib.rs:418-423 | Every settled auction of a run was settled by a call of that run, with exactly its payouts in the journal. |
| EndToEnd.SettledAtSecondPrice | contracts/auction/src/lib.rs:363-450 | In every run from deployment, a settled auction was settled at the second-highest of prices that agree with every opening its bidders know, and its lot went to the lowest-index highest bidder; the journal holds exactly that outcome's payouts. Only proofs the verifier accepted are assumed not to collide with the bidders' openings. |
| SettledRun.PremisesHold | contracts/auction/src/lib.rs:363-450 | For every fitting prime, hash and salts, two bids of 1 lead through the pipeline to a settled auction on which every assumption of that theorem holds, for a verifier that accepts exactly the vectors with a satisfying assignment. |
| SettledRun.SettledAtOne | contracts/auction/src/lib.rs:371-450 | The theorem then says of that run that the earlier of the two bidders won, at 1. |
| SettledRun.PremisesCanHold | circuits/auction_winner.circom:17-155 | Such a prime, hash, verifier and run exist, without further assumptions. |
| EndToEnd.WinnerIsMember | circuits/auction_winner.circom:140-149 | If the stored root is over a member list, the winner's key is on that list. |
| Pipeline.LayoutExact | web/src/lib/operator.ts:234-258 | With distinct slots the layout holds every revealed bid and nothing else. |
| Pipeline.AssembleAndProve | web/src/lib/operator.ts:130-221 | For member lists of any length, the loops give the first refusal, or hand the prover the assembled input and return its bundle; the next three rows say which, and when. |
| PipelineOutcomes.BundleIff | web/src/lib/operator.ts:139-221 | The answer is r if and only if the case of r holds of the slots, the list and the root: the first slot that does not open, no positive price, only one, no bidder in the winning slot, the first malformed member, a winner not listed, a list that cannot be hashed (over 1024 and no multiple of it), another root, or the prover's answer on the winner's input. |
| PipelineOutcomes.BundleReached | web/src/lib/operator.ts:139-221 | With open slots, a second-price outcome, a winner anywhere in a list of up to 1024 decodable members, their root on chain and a prover that answers, the bundle is that outcome. |
| PipelineOutcomes.RevealedMeans | web/src/lib/operator.ts:225-260 | Before that: no bids, or the first bid whose slot is out of range or whose numbers do not parse. |
| Pipeline.ProveSettleFromRevealedBids | web/src/lib/operator.ts:225-260 | The same from the revealed bids on; a bundle names the second-price outcome of the prices laid out. |
| Pipeline.AssembledPath | web/src/lib/operator.ts:167-202 | The assembled path leads from the winner's leaf to the on-chain root. |
| Pipeline.AssembledInputIsTrue | web/src/lib/operator.ts:139-202 | Whenever the prover is reached with 64-bit prices, nonzero filled commitments and at most 1024 members, the input states a true outcome. |
| Pipeline.RootCheckIsMemberCheck | web/src/lib/operator.ts:185-188 | For an auction created over some members, the root check passes the same members and only them. |
| Acceptance.AssembledInputSatisfies | web/src/lib/operator.ts:191-202 | That input satisfies every constraint of the circuit. |
| Acceptance.AssembledVector | web/src/lib/operator.ts:191-202 | Its public part is the vector the contract rebuilds. |
| Acceptance.BundleSettles | contracts/auction/src/lib.rs:371-416 | From any reachable state, with a prover and a verifier that work for true statements and conforming tokens, the bundle's settle call is rejected with WinningPriceExceedsMax if two slots' prices exceed the cap; otherwise it traps if a token refuses one of its payments when its turn comes, and returns if none does. |
| Vickrey.ClearsWithin | contracts/auction/src/lib.rs:380-385 | A clearing price respects a cap if and only if at most one price exceeds it. |
| PriceCap.CapMissed | contracts/auction/src/lib.rs:311-339 | Two bids with hidden prices above the cap are accepted, and the pipeline's own bundle is then rejected. |
| BuildInput.SelectWinner | prover/build-input.js:53-73 | For any slot numbers, selects the outcome over the last bid of each slot, or refuses exactly when there is none. |
| BuildInput.PadSlots | prover/build-input.js:138-153 | The loop pads from the first bid of each slot. |
| BuildInput.Build | prover/build-input.js:97-171 | The script's checks in order, then the input. |
| BuildOutcomes.BuiltMeans | prover/build-input.js:97-171 | Which answer when: not 1 to 8 bids, no positive last price, only one, no member with the address, too many members, another root, another depth, or the input for the outcome over the last bids. |
| BuildOutcomes.BuiltReached | prover/build-input.js:97-171 | With a second-price outcome over the last bids and a winner anywhere in a file of depth 10 with its own root, the builder reaches its input. |
| BuildOutcomes.LastPricesMean | prover/build-input.js:53-57 | The selection's table holds the last bid of every slot, and grows with the slot numbers. |
| BuildOutcomes.ColumnsMean | prover/build-input.js:138-153 | The proof's tables hold the first bid of slots 0 to 7, and zeros. |
| BuildInput.BuiltIsProvableIff | prover/build-input.js:53-171 | The circuit accepts the built input if and only if last and first bids select the same winner and price. |
| BuildInput.OnePriceIsProvable | prover/build-input.js:138-153 | It always does when the slots are the contract's and none has two prices. |
| BuildInput.RepeatedSlotBreaks | prover/build-input.js:138-153 | Three bids that all open their commitments, two of them for one slot: the script builds an input and the circuit rejects it. |
| IndexTables.PackedKeyOrders | indexer/src/store.ts:54-57 | The packed key orders two rows as meant if and only if both are open, both closed, or the open one's deadline is not a multiplier ahead. |
| IndexTables.ShortDeadlinesApart | indexer/src/store.ts:54-57 | Which always holds for deadlines below the multiplier. |
| Pagination.ClosingSoonestAsMeant | indexer/src/store.ts:134-154 | A whole listing runs open first, then by deadline, then by id, if and only if that holds of all its rows. |
| IndexTables.PackedKeyBreaks | indexer/src/store.ts:124-138 | A deadline the contract accepts for which it does not. |
| Pagination.OrderByFields | indexer/src/store.ts:140-161 | The orders and cursor clauses by columns: newest by larger id; most bids by more slots, then larger id; closing soonest by deadline, 10^13 later for rows not open, then smaller id. |
| Pagination.ListingByFields | indexer/src/store.ts:140-161 | Every listing runs in that order. |
| Pagination.FetchByFields | indexer/src/store.ts:315-336 | A page is the first of what the cursor leaves, by columns. |
| Pagination.SortedIsTheList | indexer/src/store.ts:140-161 | The ordered list holds every row once, each strictly before the next. |
| Pagination.CutIsAfter | indexer/src/store.ts:140-161 | Cutting the list after a row leaves the list of the rows its cursor clause selects. |
| Pagination.PaginationIsTheSortedList | indexer/src/store.ts:315-343 | For all three sorts and every limit from 1, following the cursor ends and the pages are the whole list, as long as the total count. |
| Pagination.OnPage | indexer/src/store.ts:324-336 | A row is on a page exactly when it lies after this cursor and not after the next. |
| Pagination.StableRowOnce | indexer/src/store.ts:315-336 | A row whose key and filter membership stay fixed appears on at most one page, whatever happens to other rows between fetches. |
| Pagination.StableRowShown | indexer/src/store.ts:315-336 | And on exactly one page of every traversal that ends. |
| IndexStore.ConditionsAreFilter | indexer/src/store.ts:287-308 | The pushed conditions together are the filter, stated by columns and recorded bids. |
| IndexStore.AuctionStore.Upsert | indexer/src/store.ts:173-209 | A conflict keeps the slot count and settlement columns. |
| IndexStore.AuctionStore.Record | indexer/src/store.ts:216-231 | The first bidder of a slot stays and the count is recomputed. |
| IndexReplay.FirstBidderStays | indexer/src/store.ts:216-231 | A recorded slot keeps its bidder, a new one is added, a known row's count is the number of its recorded bids, and nothing else changes. |
| IndexStore.AuctionStore.Settle | indexer/src/store.ts:233-241 | Writes status, price, winner and hash of a known row only. |
| IndexStore.AuctionStore.Refund | indexer/src/store.ts:243-247 | Writes the status of a known row only. |
| IndexStore.AuctionStore.SetReclaimed | indexer/src/store.ts:249-253 | Writes the lot flag of a known row only. |
| IndexStore.AuctionStore.SetCursor | indexer/src/store.ts:262-269 | Stores both cursor columns. |
| IndexStore.PushConditions | indexer/src/store.ts:284-308 | The pushed conditions select, in every table, exactly the rows the query's filter describes. |
| IndexStore.ReadPage | indexer/src/store.ts:324-336 | Reading one row more than the limit cuts the page and decides whether there is a next. |
| IndexStore.AuctionStore.Query | indexer/src/store.ts:283-343 | The first rows, up to the limit, of what filter and cursor leave, in the order of the sort by ids, slot counts or deadlines, with a next cursor exactly when more is left, and the filtered table's size; that ids identify rows is an invariant every update keeps. |
| IndexStore.EnrichAndUpsert | indexer/src/ingest.ts:30-68 | One chain read indexes the auction with its bids, or changes nothing; what the row then says is the subject of EnrichAgrees. |
| IndexStore.Backfill | indexer/src/ingest.ts:70-83 | Probes ids from 1 to the first missing one or the cap, indexes all it could read and counts them. |
| IndexStore.ApplyEvent | indexer/src/ingest.ts:85-126 | One handler per event; ill-typed payloads are ignored. |
| IndexReplay.IllTypedIgnored | indexer/src/ingest.ts:94-109 | An ill-typed bid or settlement changes nothing. |
| IndexStore.SyncEvents | indexer/src/ingest.ts:128-149 | Fetches from the saved ledger or a bounded way back; a call that fails changes nothing, otherwise the events are replayed in order and the ledger saved. |
| IndexStore.ReplayKeyed | indexer/src/store.ts:60-76 | Replaying any events keeps every row under its own id. |
| IndexStore.BackfilledKeyed | indexer/src/ingest.ts:70-83 | So does a backfill. |
| IndexReplay.RunKeepsLog | contracts/auction/src/lib.rs:340-502 | Over every run the event log names every bid and every end of an auction, and says nothing the records do not. |
| IndexReplay.EnrichAgrees | indexer/src/ingest.ts:49-67 | A row read from the chain has the auction's seller, tokens, lot, cap, deadline, grace, status, bids and lot flag, and the symbols read, even if bid events came first; a row that was there keeps its settlement columns. |
| IndexReplay.ReplayAgrees | indexer/src/ingest.ts:85-149 | Replaying any events of the log that cover everything since leaves terms, status, bids and slot count equal to the chain's. |
| IndexReplay.LastWriterWins | indexer/src/store.ts:233-253 | Terms stay; settlement columns and lot flag are those of the last event that wrote them. |
| IndexReplay.ReplayTwice | indexer/src/ingest.ts:144-145 | Replaying the same events again changes nothing of the row or its bids. |
| LotFlag.LotFlagAgreesIff | indexer/src/ingest.ts:111-122 | A lot flag that was right at a read is right after replaying the log from any earlier point, if and only if it is not the case that the auction was open then, is refunded now and no replayed event speaks of its lot. |
| LotFlag.SilentReturn | contracts/auction/src/lib.rs:473-502 | After a refund that returns the lot every such flag is wrong. |
| LotFlag.SilentReturnHappens | contracts/auction/src/lib.rs:473-502 | And such a refund is reachable. |
| CatchUp.BackfilledAgrees | indexer/src/ingest.ts:70-83 | On any store, a backfill writes exactly the readable auctions it probes, each as it was when read, and leaves the rest and all settlement columns alone. |
| CatchUp.BackfillKeepsUpToDate | indexer/src/ingest.ts:70-83 | So at a start and at every restart it leaves each row as its auction was at some moment since the last fetch. |
| CatchUp.SyncKeepsUpToDate | indexer/src/ingest.ts:85-149 | A sync that fetches everything logged since the fetch before brings every known row to its own fetch or later, and leaves rows first read during the replay as they were when read. |
| Ingestion.StartsInTime | indexer/src/ingest.ts:128-136 | A sync starts at or below a given ledger if and only if the saved one is, or, with none saved, the latest is at most 100,000 above it. |
| Ingestion.SyncCovers | indexer/src/ingest.ts:128-149 | So, fetching from the saved ledger on, each sync covers everything logged since the fetch before it. |
| Ingestion.CatchesUp | indexer/src/ingest.ts:70-168 | After any sequence of backfills and syncs, with the chain moving all the time, every row is as its auction was at some moment since the last fetch. |
| Ingestion.MissesNothing | indexer/src/ingest.ts:70-168 | If the first backfill ran to the first missing id and no read fails, every auction there was at the last fetch is indexed. |
| CatchUp.AgreedWhenStill | indexer/src/ingest.ts:128-149 | So a row agrees with the chain now if its auction did not change since that fetch. |
| Ingestion.IngestedExactly | indexer/src/ingest.ts:30-149 | An auction is indexed if and only if some backfill probed it, or some sync fetched its creation, and it could then be read. |
| Ingestion.SymbolsRead | indexer/src/ingest.ts:45-56 | Every row carries the symbols one of those reads gave. |
| RateLimiter.Limiter.TakeToken | indexer/src/api.ts:31-44 | One request refills the address's own bucket and takes a token if there is one. |
| RateLimiter.BucketsInRange | indexer/src/api.ts:33-43 | Over every run tokens stay between 0 and the capacity. |
| RateLimiter.WindowPotential | indexer/src/api.ts:33-43 | Grants in a window plus remaining tokens never exceed a full bucket plus what flowed in. |
| RateLimiter.RateBound | indexer/src/api.ts:31-44 | In every window of every run an address gets at most the capacity plus the rate times the window's length. |
| RateLimiter.DeployedBounds | faucet/src/api.ts:18-38 | The bound with the constants of both services. |
| RateLimiter.SteadyClientServed | indexer/src/api.ts:31-44 | An address that waits for one token's refill since its last request is never refused. |
| RateLimiter.BurstServed | indexer/src/api.ts:33-43 | Of a new address's requests at one moment the n-th is granted if and only if n is at most the capacity. |
| RateLimiter.DeployedBursts | faucet/src/api.ts:18-38 | Sixty on the indexer, ten on the faucet. |
| RateLimiter.RefusedHasSpent | indexer/src/api.ts:31-44 | A refused address has, over some window that ends with the refusal, been granted more than capacity plus inflow less one: with the rate bound, refusals are exact up to one token. |
| RateLimiter.DeployedRefusals | faucet/src/api.ts:18-38 | The same with the constants of both services. |
| Bytes.BytesToBigInt | web/src/lib/crypto.ts:49-55 | The big-endian value, which no other string of the same length has. |
| BidSealing.SealBid | web/src/lib/crypto.ts:57-90 | The ciphertext layout and the commitment made beside it. |
| BidSealing.SealedLayout | web/src/lib/crypto.ts:71-90 | Bytes 0 to 23 nonce, 24 to 55 ephemeral key, then the box over the price in bytes 0 to 7, big-endian, and the salt in 8 to 38. |
| BidSealing.DecryptBid | web/api/reveal.ts:96-118 | Null for short, unopenable or wrongly sized input, else price and salt. |
| BidSealing.DecryptedMeans | web/api/reveal.ts:96-118 | A ciphertext is read if and only if it has at least 95 bytes, its box opens and the payload has 39 bytes; then as price and salt, big-endian. |
| BidSealing.SealRoundTrip | web/api/reveal.ts:96-118 | Opening undoes sealing, with the price modulo 2^64. |
| BidSealing.RevealOpensCommitment | web/src/lib/crypto.ts:71-78 | What is revealed opens the commitment if and only if the price fits 64 bits. |
| HexCodec.ParseHexToBytes | web/src/lib/operator.ts:48-54 | Any text, two characters a byte as parseInt reads them, NaN stored as 0. |
| HexCodec.PairOfDigits | web/src/lib/operator.ts:50-52 | Two hexadecimal digits are read as the byte they spell. |
| HexCodec.OtherPairs | web/src/lib/operator.ts:50-52 | Spaces, signs, "0x" and characters that are no digits, as parseInt and a byte array make of them. |
| HexCodec.Hex32RoundTrip | web/src/lib/operator.ts:44-54 | Below 2^256 the padded hex text parses to the 32-byte big-endian form, which reads back. |
| HexCodec.PackG1Readable | web/src/lib/operator.ts:56-58 | 64 bytes, X then Y, each readable. |
| HexCodec.PackG2Halves | web/src/lib/operator.ts:60-69 | Each coordinate is packed as a G1 point with its limbs swapped. |
| HexCodec.PackG2Readable | web/src/lib/operator.ts:60-69 | 128 bytes from which every limb reads back. |
| HexCodec.PackingInjective | web/src/lib/operator.ts:56-69 | No two points share a packing. |

## Left out

- Poseidon, curve and pairing arithmetic, and Groth16 itself: a hash oracle and a verifier oracle stand for them; contracts/verifier is that oracle.
- Primality of the concrete 254-bit modulus: p is any prime of sufficient size.
- circomlib's sources are not part of this model; its gadgets are written out as their well-known constraints.
- nacl, randomness, key generation, StrKey and XDR: a box that opens what it seals, and a decoder from text to 32 key bytes, are parameters.
- Overflow of 128-bit amounts: `max_price` is below 2^64 and slots are 8, so the contract's own sums cannot overflow; token balances are unbounded integers.
- CreateAuction: storage entries carry no expiry in the state; the lifetime it requests is the subject of `Lifetime` alone, at five seconds a ledger.
- Settle: the verifier address missing from storage, which the constructor rules out, is not a case of its own but one of the failed calls, with the same error.
- get_auction: a pure read.
- WinnerIsMember: assumes that the winner's leaf is not 0 and that no two hashed inputs collide; the code relies on both.
- ReplayAgrees: assumes the fetched events are complete since the row was read; `fetchContractEvents` stops at a page cap (indexer/src/chain.ts:242) while the ledger is saved anyway. The `lot_reclaimed` flag has its own theorem.
- CatchesUp: assumes that a fetch gives all events from its start ledger on, that the first sync comes within 100,000 ledgers of the first start, and that a creation is fetched once in a sync, so an id is read at most once in it; a failed sync changes nothing and is not listed.
- AssembleAndProve: progress callbacks and message texts are not modelled.
- AssembledInputIsTrue: states at most 1024 members, the most the tree is meant for; what the pipeline does with longer lists is modelled, but not that its input is then true.
- Build: file reading, number parsing and slot numbers that are not integers are not modelled.
- SettlementPaysExactly: states conforming tokens only; nothing can be said about balances a token invents.
- EnrichAgrees: amounts and addresses are stored as values, not as text.
- Query: SQL text, SQLite's 64-bit integers and base64url cursors are not modelled; case folding, LIKE and the text of an id are parameters and the cursor is the pair it encodes.
- ParseHexToBytes: characters are code points, not UTF-16 units.
- RateLimiter is over the reals, without floating-point rounding, and the clock does not run back.
- Faucet cooldowns and minting, HTTP, CORS, RPC retries, React components, wallets, the whitelist registry, URL codecs, scripts.
