# Verified models of the chain's core

Dafny models of the six hardest pieces of a delegated-proof-of-stake node, with proofs over every input and every run.

1. **Governance** (`ProxyForest`, `VoteTally`, `GovernanceState`, `Governance`, `DelayedVotes`): accounts pass their votes up a forest of proxies, and the cached totals on the way must always be the true ones; new shares wait in daily buckets before they count.
2. **Token ledger and market** (`Funds`, `LedgerState`, `Market`, `OrderBook`, `LedgerSteps`, `Conversions`, `Audit`, `Ledger`): every operation that moves, issues or burns tokens, with the order book inside, keeps the books balanced.
3. **Stake** (`SharePrice`, `StakeState`, `Withdrawals`, `Stake`): delegation, power-down and routes keep every account solvent.
4. **Content rewards** (`Votes`, `Content`, `AuthorPayout`): votes and their edits keep curation claims covered, and a round of payouts never overdraws the fund.
5. **Forks and synchronisation** (`BlockTree`, `Cascade`, `ForkState`, `ForkDatabase`, `ChainSync`): the index of recent blocks stays a tree, a push tries exactly the cached blocks that follow, and a node and a peer find the highest block they share.
6. **Storage** (`LogFormat`, `BlockLog`, `Merkle`): the block log read backwards, its index rebuilt in batches, and the Merkle root computed in place.

`OneStake` ties governance, ledger and stake together: over every run all three keep the same shares. `Sums`, `Parts`, `Arithmetic` and `Common` hold the mathematics they share.

Conventions. One rule set is fixed, the latest one, except where a `Rules` value says otherwise. State that the node updates in place is a class; the meaning of that state is a function of values, and the methods are proved against it. An operation that the node refuses returns `false` and leaves the state as it was, which is what the node's undo session does; `ok <==> ...` says exactly when. Times, price feeds, mana and interest come in as parameters, and so does the order in which a hashed index yields blocks with the same parent. Hashes are abstract: a block id is an injective function of its predecessor. Amounts are unbounded integers; truncation is written out where the code truncates. What an operation does is stated twice: as the new state, and by what every holder sees of it, as balances, two-sided bounds on each truncated amount, or dates; `Only(h, x, n)` is an amount that counts for holder `x` alone.

Some findings are worth knowing.

- A block without a predecessor pushed into a running fork database leaves the index a tree exactly when the lowest block there has height one (`ForkState.EnteredTree`, `ForkState.FirstBreaksTree`).
- A push that lets its block enter always ends normally, because the handler around each cached child also takes the exception for a block that is too old (`libraries/chain/include/hive/chain/database_exceptions.hpp:74-82`). Such a child has left the cache already, so it is lost: what followed a sibling has raised the head too far. Cached blocks are lost exactly if one is outgrown by a sibling tried before it (`ForkDatabase.Database.PushBlock`, `Cascade.LossExact`); `ForkDatabase.LostBranch` is a run in which one is lost in every order, and none ever is while no cached block is more than `maxSize` above the block pushed (`Cascade.LowCacheLosesNone`).
- No cached block waits for a parent that is in the index, except for one kind: a block pushed too late is cached although its parent is there. A push keeps this promise exactly if its block is not of that kind (`ForkDatabase.Database.PushBlock`); `ForkDatabase.OldCached` is a run that breaks it.
- Two transaction lists of different lengths can have the same Merkle root (`Merkle.ShorterListSameRoot`); with equal roots, lists are equal exactly when their lengths are (`Merkle.EqualHeadersEqualTransactions`).
- Every collateral is enough exactly if HIVE kept at least half of its price since the pledge (`Conversions.CollateralExact`); otherwise `Conversions.ShortCollateral` names one that falls short.
- A round of payouts fails exactly when a post with positive strength is due and no claim on the fund exists at all (`Content.Board.ProcessCashouts`); the curve in force rounds the least strength to no claim, and `Content.FailingRound` is such a round.
- The backward walk over the block log fails exactly at an empty block (`BlockLog.BlockLog.ForEachBlockPosition`), as in `BlockLog.EmptyBlockLog`.
- A position and the attributes packed with it survive exactly if the position takes no more than six bytes (`LogFormat.PackingRoundTrip`); beyond that the position overwrites the attributes (`LogFormat.PackingOverrun`).

## Model

| member | source | states |
|---|---|---|
| ProxyForest.Attach | libraries/chain/database.cpp:1133-1162 | Linking a subtree to a proxy changes the true level sums by exactly what the walk up the chain adds, for every account and depth |
| ProxyForest.AttachAcyclic | libraries/chain/hive_evaluator.cpp:282-305 | A link whose chain does not come back to the account keeps the forest free of loops |
| ProxyForest.DetachAcyclic | libraries/chain/hive_evaluator.cpp:313-320 | Removing a link never creates a loop |
| ProxyForest.RestakeLevel | libraries/chain/database.cpp:1164-1185 | A change of one account's stake changes the level sums only along its own chain |
| ProxyForest.RootGainIsSlotGain | libraries/chain/database.cpp:1145-1161 | What reaches a voter at the end of the walk is what the walk has put into the slots, even beyond the depth limit |
| ProxyForest.Conservation | libraries/chain/database.cpp:3574-3580 | Full power of unproxied accounts plus the deepest slot of proxied ones is the total stake, however long the chains: every share counts once |
| ProxyForest.VotersBounded | libraries/chain/database_witness.cpp:80 | The power of any set of unproxied accounts is at most the total stake |
| VoteTally.LinkTally | libraries/chain/database.cpp:1133-1162 | Setting a proxy moves each witness's tally by what the walk delivers |
| VoteTally.UnlinkTally | libraries/chain/database.cpp:1187-1194 | Taking an account's whole power out of its chain leaves the tallies of the forest without it |
| VoteTally.UnlinkSlot | libraries/chain/database.cpp:1187-1194 | and the slots of the forest without it |
| VoteTally.RestakeTally | libraries/chain/database.cpp:1164-1185 | A stake change moves each tally by what the single-value walk delivers |
| VoteTally.RestakeSlot | libraries/chain/database.cpp:1164-1185 | and each slot likewise |
| VoteTally.CastVoteTally | libraries/chain/hive_evaluator.cpp:346-366 | A vote adds the voter's full power to one witness and to no other |
| VoteTally.TallyBounded | libraries/chain/database_witness.cpp:80 | A witness's true tally never exceeds the total stake |
| GovernanceState.FitsAcyclic | libraries/chain/hive_evaluator.cpp:282-293 | The bounded loop check is enough: an accepted proxy never closes a loop |
| GovernanceState.DropConsistent | libraries/chain/database.cpp:3652-3662 | Dropping an account's proxy and votes keeps every cached total exact |
| GovernanceState.ProxyConsistent | libraries/chain/hive_evaluator.cpp:277-320 | Setting a proxy keeps every cached total exact |
| GovernanceState.CastConsistent | libraries/chain/hive_evaluator.cpp:339-367 | So does casting a vote |
| GovernanceState.WithdrawConsistent | libraries/chain/hive_evaluator.cpp:368-388 | and withdrawing one |
| GovernanceState.RestakeConsistent | libraries/chain/database.cpp:1164-1185 | and a change of stake |
| GovernanceState.DelayedConsistent | libraries/chain/hive_evaluator_transfer.cpp:378-392 | and shares whose votes are delayed |
| GovernanceState.VestingAccountedFor | libraries/chain/database.cpp:3574-3607 | Counted power plus delayed votes is exactly the total of vesting shares |
| GovernanceState.WitnessBounded | libraries/chain/database_witness.cpp:271-282 | No witness has more votes than there are vesting shares |
| GovernanceState.CachedPower | libraries/chain/include/hive/chain/detail/state/account_object.hpp:337-342 | An unproxied account's power from its slots is its power by definition |
| Governance.AddShifted | libraries/chain/database.cpp:1145-1151 | The array walk adds a delta shifted by the depth reached |
| Governance.TotalDelta | libraries/chain/database.cpp:1157-1160 | At the end of a chain the part of the delta that still fits is summed up |
| Governance.Database.AdjustWitnessVote | libraries/chain/database_witness.cpp:69-94 | One witness gains the delta, within the bound the code asserts |
| Governance.Database.AdjustWitnessVotes | libraries/chain/database_witness.cpp:58-67 | Every witness the account votes for gains the delta, and no other |
| Governance.Database.AdjustProxiedWitnessVotes | libraries/chain/database.cpp:1133-1162 | The array walk moves slots and tallies exactly as the chain above prescribes |
| Governance.Database.AdjustProxiedWitnessVotesOne | libraries/chain/database.cpp:1164-1185 | The single-value walk does the same for a unit delta |
| Governance.Database.NullifyProxiedWitnessVotes | libraries/chain/database.cpp:1187-1194 | Afterwards all totals are exact for the forest and the votes without the account |
| Governance.Database.ClearWitnessVotes | libraries/chain/database_witness.cpp:96-111 | All of the account's votes are gone and its counter is zero |
| Governance.Database.ProxyChainFits | libraries/chain/hive_evaluator.cpp:282-293 | The loop that grows a set decides exactly whether the chain above the new proxy is short enough and misses the account |
| Governance.Database.WitnessProxy | libraries/chain/hive_evaluator.cpp:269-322 | When it succeeds, what it changes, when the vote runs out, and that all totals stay exact |
| Governance.Database.Detach | libraries/chain/hive_evaluator.cpp:275-277 | Renews the expiration and takes the account's power out of its chain, before anything is checked |
| Governance.Database.Unlink | libraries/chain/hive_evaluator.cpp:313-320 | Removing the proxy keeps all totals exact |
| Governance.Database.WitnessVote | libraries/chain/hive_evaluator.cpp:325-389 | When it succeeds, what it changes, when the vote runs out, and that all totals stay exact |
| Governance.Database.ExpirationExact | libraries/chain/include/hive/chain/detail/state/account_object.hpp:305-313 | Votes last the whole period and none runs out before the first date; those that would are spread over the span after it by the remainder of their date |
| Governance.Database.Approve | libraries/chain/hive_evaluator.cpp:339-367 | A new approval and its counter, all totals exact |
| Governance.Database.Withdraw | libraries/chain/hive_evaluator.cpp:368-388 | A withdrawn one likewise |
| Governance.Database.ChangeStake | libraries/chain/database.cpp:1164-1185 | Any change of vesting and delayed shares keeps all totals exact |
| Governance.Database.AddDelayedVesting | libraries/chain/hive_evaluator_transfer.cpp:386-392 | New shares raise vesting and delayed votes, and no tally yet |
| Governance.Database.MatureDelayedVotes | libraries/chain/util/delayed_voting.cpp:79-115 | Delayed votes that mature reach the tallies |
| DelayedVotes.Add | libraries/chain/include/hive/chain/util/delayed_voting_processor.hpp:31-73 | When votes are accepted; they open a bucket exactly if none is less than a day old, else join the newest, and the older ones stay; the buckets add up to the sum |
| DelayedVotes.EraseFront | libraries/chain/include/hive/chain/util/delayed_voting_processor.hpp:75-89 | The oldest bucket goes, and neither assertion can fail |
| DelayedVotes.Erase | libraries/chain/include/hive/chain/util/delayed_voting_processor.hpp:91-124 | The newest votes go; the endless loop ends before the buckets do |
| DelayedVotes.ErasedKeepsOldest | libraries/chain/include/hive/chain/util/delayed_voting_processor.hpp:104-123 | What is left is the oldest buckets, untouched but for the last |
| DelayedVotes.UnripeFew | libraries/chain/util/delayed_voting.cpp:99-108 | Not more than thirty buckets are left once the ripe ones have gone |
| DelayedVotes.Voting.AddDelayed | libraries/chain/util/delayed_voting.cpp:7-13 | New shares go into a bucket, and governance follows |
| DelayedVotes.Voting.Remove | libraries/chain/util/delayed_voting.cpp:15-76 | Shares that leave take delayed votes first, the newest before the others |
| DelayedVotes.Voting.Run | libraries/chain/util/delayed_voting.cpp:79-120 | Ends; exactly the buckets whose time has come start to vote, and no account keeps more than thirty |
| DelayedVotes.Voting.ValidateBuckets | libraries/chain/database.cpp:3579-3583 | The run-time check that buckets add up to the cached sum always passes |
| Governance.Database.RemoveVesting | libraries/chain/database_vesting.cpp:253-302 | Withdrawn shares come out of delayed votes first |
| Governance.Database.TransferVests | libraries/chain/hive_evaluator_transfer.cpp:295-349 | Restricted accounts hand over shares that are neither delegated nor delayed; totals stay exact, the receiver's votes are delayed |
| Governance.Database.DeclineVotingRights | libraries/chain/hive_evaluator_account.cpp:603-630 | A request is created or cancelled, exactly when allowed |
| Governance.Database.ProcessDeclineVotingRights | libraries/chain/database_dhf.cpp:208-253 | Due requests are carried out within the budget, all of them if it suffices, oldest first |
| Governance.Database.RemoveExpiredGovernanceVotes | libraries/chain/database.cpp:3629-3672 | Expired accounts lose proxy and votes within the budget, all of them if it suffices, and no others |
| Governance.Database.RetallyWitnessVotes | libraries/chain/database_witness.cpp:113-144 | Counting everything anew changes nothing: the cache was exact |
| Governance.Database.ValidateWitnessVotes | libraries/chain/database_witness.cpp:271-282 | The run-time check always passes |
| Governance.Database.ValidateInvariants | libraries/chain/database.cpp:3562-3606 | The run-time check of vesting against votes always passes |
| Governance.Database.Run | libraries/chain/database.cpp:3536-3608 | After every run: no proxy loops, each slot the sum of stake that many hops below, each witness's votes the power of its unproxied voters and within the total, no votes on proxied accounts |
| Governance.EarliestDue | libraries/chain/database_dhf.cpp:210-220 | The due request with the earliest date, then the lowest account, is found |
| Funds.MovedTotal | libraries/chain/database.cpp:3306-3325 | Moving tokens of one kind through a temporary balance changes no total |
| LedgerState.MoveSound | libraries/chain/database.cpp:3327-3352 | A move between existing holders keeps every ledger invariant |
| LedgerState.IssueSound | libraries/chain/include/hive/chain/detail/state/global_property_object.hpp:298-305 | Issuing raises balance and supply together, and keeps every invariant |
| LedgerState.BurnSound | libraries/chain/include/hive/chain/detail/state/global_property_object.hpp:307-313 | Burning lowers both, and keeps every invariant |
| Market.MatchWithinOffers | libraries/chain/database_market.cpp:302-323 | A fill takes no more than either side offers and sells out one of them, so the assertion there holds |
| Market.MatchGivesBoth | libraries/chain/database_market.cpp:302-318 | Between crossing live orders neither side of a fill is zero |
| Market.MatchAtLimit | libraries/chain/database_market.cpp:302-318 | Each side gets its limit price or better, short of at most one truncation |
| Market.MatchAtRestingPrice | libraries/chain/database_market.cpp:279-318 | A fill is at the resting order's price: whichever side sells out, the other hands over the most that this price gives for it |
| Market.CrossesExact | libraries/chain/database_market.cpp:263-265 | Two orders cross exactly if there are amounts at which they could trade, each at its limit or better |
| Market.BetterPrice | libraries/chain/database_market.cpp:302-306 | At the resting order's price the new order gets at least its own |
| OrderBook.OneLeaves | libraries/chain/database_market.cpp:357-367 | A match always takes at least one order out of the book, so the final assertion never fires |
| OrderBook.MatchedOrders | libraries/chain/database_market.cpp:346-359 | After a match each order keeps exactly what it has not paid, and stays exactly when that is worth resting |
| OrderBook.MatchedBook | libraries/chain/database_market.cpp:279-368 | A match leaves the resting orders live, uncrossed and distinctly numbered |
| OrderBook.Admitted | libraries/chain/database_market.cpp:265-276 | An order that nothing crosses and that is worth resting can join the book |
| OrderBook.LimitHonoured | libraries/chain/database_market.cpp:265-276 | Over all its trades an order pays at its limit or better within one unit; it rests with what it has not paid, and leaves only when that is worth nothing |
| OrderBook.PriceTimePriority | libraries/chain/include/hive/chain/detail/state/limit_order_object_multiindex.hpp:20-26 | Trades happen best price first, and oldest first within a price |
| OrderBook.AheadExact | libraries/chain/include/hive/chain/detail/state/limit_order_object_multiindex.hpp:20-26 | An order is ahead exactly if it hands over no less for any amount, and more for some unless it is older |
| OrderBook.MatchedBalances | libraries/chain/database_market.cpp:343-423 | A match as every holder sees it: each seller gets what the other order pays, an order that leaves gives its rest back to its own seller, and nothing else changes |
| OrderBook.Untouched | libraries/chain/database_market.cpp:257-277 | During a run an order not yet traded with has all it had, the new one has what it has not paid, and those traded with are gone |
| OrderBook.TradesPaid | libraries/chain/database_market.cpp:257-423 | Over a whole run the new order's seller gets all that was paid to it, each resting seller what the new order paid for theirs, and orders that leave give back their rest; no other balance changes but what is for sale |
| OrderBook.EveryTradePays | libraries/chain/database_market.cpp:279-368 | In every run of trades each fill is positive on both sides and honours both limits |
| OrderBook.RefundedSound | libraries/chain/database_market.cpp:408-423 | Cancelling returns what was left and keeps every invariant |
| Ledger.Ledger.BestOffer | libraries/chain/database_market.cpp:261-273 | The next order to trade with: crossing, and behind no other that crosses |
| Ledger.Ledger.CloseOrder | libraries/chain/database_market.cpp:382-402 | After a fill an empty order is removed and one left with dust is cancelled |
| Ledger.Ledger.MatchOrders | libraries/chain/database_market.cpp:279-368 | The fill is at the resting order's price; by balances alone, each seller gets what the other order pays, an order that leaves gives back its rest, and nothing else changes |
| Ledger.Ledger.ApplyOrder | libraries/chain/database_market.cpp:257-277 | If the book was uncrossed it is uncrossed again; trades follow priority, honour the limit, and stop only when the order is gone or nothing crosses it; who has got what by the end |
| Ledger.Ledger.CreateOrder | libraries/chain/hive_evaluator_transfer.cpp:602-673 | When an order is accepted, what it trades, every balance afterwards, and that a fill-or-kill order not filled leaves no trace |
| Ledger.Ledger.CancelOrder | libraries/chain/database_market.cpp:408-423 | The order is gone, its seller has what was left, and no other balance changed |
| Ledger.Ledger.CancelOwnOrder | libraries/chain/hive_evaluator_transfer.cpp:675-678 | Succeeds exactly if the owner has an order of that number, and cancels that one |
| Ledger.Ledger.ClearExpiredOrders | libraries/chain/database_market.cpp:425-435 | Exactly the expired orders are cancelled, and each seller has what theirs had left |
| Ledger.Ledger.Transfer | libraries/chain/hive_evaluator_transfer.cpp:269-361 | When a transfer succeeds, every balance afterwards, and that HIVE to the treasury is burned and arrives as the most HBD it is worth |
| Ledger.Ledger.TransferToSavings | libraries/chain/hive_evaluator_transfer.cpp:680-692 | When it succeeds, and every balance afterwards, interest included |
| Ledger.Ledger.TransferFromSavings | libraries/chain/hive_evaluator_transfer.cpp:694-716 | When it succeeds, by the number of open requests among other things, what it opens, and every balance afterwards |
| Ledger.Ledger.CancelTransferFromSavings | libraries/chain/hive_evaluator_transfer.cpp:718-736 | Exactly an open request can be called off; it is gone, and its amount is back in the savings it came from |
| Ledger.Ledger.ProcessSavingsWithdrawals | libraries/chain/database_market.cpp:145-180 | Exactly the due requests are delivered; every balance afterwards is the one before plus, for its owner, what was due to them |
| LedgerSteps.PutBackUndoes | libraries/chain/hive_evaluator_transfer.cpp:694-736 | Opening and cancelling a withdrawal restores every balance and counter |
| Ledger.Ledger.EscrowTransfer | libraries/chain/hive_evaluator_transfer.cpp:76-125 | When an escrow is accepted, its terms, and every balance afterwards |
| Ledger.Ledger.EscrowApprove | libraries/chain/hive_evaluator_transfer.cpp:127-182 | Approvals, the fee to the agent on the last of them and to nobody else, and on a refusal everything back to the sender |
| Ledger.Ledger.EscrowDispute | libraries/chain/hive_evaluator_transfer.cpp:184-203 | Only an approved, undisputed escrow can be disputed before it expires |
| Ledger.Ledger.EscrowRelease | libraries/chain/hive_evaluator_transfer.cpp:205-267 | Who may release to whom; the receiver gets exactly what leaves the escrow and no other balance changes; it stays exactly if something is left |
| Ledger.Ledger.ReturnEscrow | libraries/chain/database_market.cpp:58-89 | The sender gets back everything, fee included, no other balance changes, and the counter follows |
| Ledger.Ledger.ExpireEscrows | libraries/chain/database_market.cpp:91-103 | Exactly the escrows not ratified in time are returned, each to its sender |
| LedgerSteps.ReturnedUndoes | libraries/chain/database_market.cpp:58-89 | An escrow turned down restores every balance and counter |
| LedgerSteps.NoSelfRelease | libraries/chain/hive_evaluator_transfer.cpp:222-244 | Before it expires, or in a dispute, nobody releases an escrow to themselves |
| LedgerSteps.ReleaseParties | libraries/chain/hive_evaluator_transfer.cpp:222-244 | In a dispute the agent alone decides; before it expires each party can only pay the other; afterwards either can pay either |
| Ledger.Ledger.TransferToVesting | libraries/chain/hive_evaluator_transfer.cpp:363-400 | HIVE joins the fund, and the receiver gets the most shares it pays for at the price before; every balance afterwards |
| Ledger.Ledger.WithdrawShares | libraries/chain/database_vesting.cpp:180-207 | Shares reach another account, or are redeemed for the most HIVE they stand for; every balance afterwards |
| LedgerSteps.PayoutCovered | libraries/chain/include/hive/chain/detail/state/global_property_object.hpp:402-410 | While the fund holds anything, redeeming shares an account has never overdraws it |
| LedgerSteps.PowerUpKeepsValue | libraries/chain/include/hive/chain/detail/state/global_property_object.hpp:385-400 | HIVE per share does not fall when someone powers up |
| LedgerSteps.PowerDownKeepsValue | libraries/chain/include/hive/chain/detail/state/global_property_object.hpp:402-410 | Nor when someone powers down |
| Ledger.Ledger.ProcessFunds | libraries/chain/database.cpp:1850-1885 | Inflation reaches the two funds, the treasury and the producer, supplies follow, and no other balance changes |
| Ledger.Ledger.AwardReward | libraries/chain/database.cpp:1061-1098 | A reward leaves the reward fund as HIVE, HBD and the most unclaimed shares it pays for; every balance afterwards |
| Ledger.Ledger.ClaimRewards | libraries/chain/hive_evaluator_transfer.cpp:738-795 | When a claim succeeds, every balance afterwards, and that the HIVE behind the shares joins the fund: all of it for all of them, else the most in proportion |
| LedgerSteps.ToMoveBound | libraries/chain/hive_evaluator_transfer.cpp:758-763 | A claim takes all the HIVE for all the shares, else the most in proportion; never more than there is, and never so that the shares left are backed by less |
| Ledger.Ledger.Convert | libraries/chain/hive_evaluator_transfer.cpp:535-551 | When a conversion is accepted, when it is due, and what is set aside |
| Ledger.Ledger.CollateralizedConvert | libraries/chain/hive_evaluator_transfer.cpp:553-600 | The most HBD that half the pledged HIVE is worth less the fee is created at once; every balance afterwards |
| Conversions.ToHiveExact | libraries/chain/database_conversion.cpp:67 | HBD is converted into the most HIVE that is worth no more than it |
| Conversions.RequiredExact | libraries/chain/database_conversion.cpp:109-110 | The collateral required is what the created HBD is worth with the fee on top, to the unit |
| Conversions.ImmediateExact | libraries/chain/hive_evaluator_transfer.cpp:571-577 | The HBD created is what half the collateral is worth less the fee, to the unit |
| Conversions.EnoughCollateral | libraries/chain/database_conversion.cpp:103-118 | The collateral covers what is due unless HIVE lost more than half of its price |
| Conversions.ShortCollateral | libraries/chain/database_conversion.cpp:103-118 | If it did, this collateral falls short |
| Conversions.CollateralExact | libraries/chain/database_conversion.cpp:103-118 | So over all collaterals the price condition is exact |
| Ledger.Ledger.DrawConversions | libraries/chain/database_conversion.cpp:57-85 | Exactly the due requests give up all their HBD, each for the most HIVE it is worth at the price, and the HIVE owed is added up |
| Ledger.Ledger.DrawCollaterals | libraries/chain/database_conversion.cpp:91-140 | Each due request keeps its collateral less what the created HBD is worth with the fee; collateral drawn plus the (negative) issue is exactly what is owed back, shortfalls counting as nothing |
| Ledger.Ledger.PayConversions | libraries/chain/database_conversion.cpp:160-196 | Everyone gets what they are owed and the temporary balance ends empty |
| Ledger.Ledger.ProcessConversions | libraries/chain/database_conversion.cpp:35-196 | The whole effect of a round: each request is settled at its price to the unit, owners get what they are owed, holders of due requests are empty, no other balance changes, and supplies follow |
| Audit.AuditPasses | libraries/chain/database.cpp:3562-3607 | For each token, the sum over accounts, orders, escrows, requests and funds is the recorded supply |
| Audit.CurrentSupplyCounted | libraries/chain/database.cpp:3598-3604 | The HIVE supply the node records, unclaimed rewards included, is what is counted |
| Ledger.Ledger.Run | libraries/chain/database.cpp:3536-3608 | After every run of operations the audit passes, also for the HIVE supply as recorded, counters equal object counts, and the book is live and uncrossed |
| SharePrice.RedeemWithin | libraries/chain/include/hive/chain/detail/state/global_property_object.hpp:402-410 | Redeeming some shares leaves something in the fund, redeeming all empties it |
| SharePrice.SharesExact | libraries/chain/include/hive/chain/detail/state/global_property_object.hpp:97-102 | HIVE buys the most shares it pays for at the price, a thousand for one while nothing is vested |
| SharePrice.WorthExact | libraries/chain/include/hive/chain/detail/state/global_property_object.hpp:402-410 | Shares are redeemed for the most HIVE they stand for |
| StakeState.RateCovers | libraries/chain/hive_evaluator_transfer.cpp:444-454 | The withdrawal rate covers the request within the intervals, and is the smallest that does |
| StakeState.AdvancedScheduled | libraries/chain/database_vesting.cpp:264-276 | Each part is positive, within what is outstanding, and leaves a well-formed schedule |
| StakeState.PaidAndLeft | libraries/chain/database_vesting.cpp:264-276 | Paid and outstanding always make up the request |
| StakeState.PowerDownCompletes | libraries/chain/database_vesting.cpp:111-307 | Left alone, a power-down ends within the intervals and has paid exactly what was asked for |
| Withdrawals.DepositsWithin | libraries/chain/database_vesting.cpp:168-183 | Routes of at most one hundred percent take at most the part withdrawn |
| Withdrawals.DepositExact | libraries/chain/database_vesting.cpp:174 | A route gets its percentage of the part, truncated |
| Withdrawals.RestSmall | libraries/chain/database_vesting.cpp:166-207 | Routes that add up to the whole leave the account less than one share for each of them, so a single full route leaves it none |
| Withdrawals.VestedEach | libraries/chain/database_vesting.cpp:166-207 | Every target that vests gets its deposit once, and nobody else anything |
| Withdrawals.PaidOutEach | libraries/chain/database_vesting.cpp:180-207 | Every target that is paid gets the most HIVE its deposit stands for at the price the earlier ones have left, and nobody else anything |
| Withdrawals.AddPercents | libraries/chain/hive_evaluator_transfer.cpp:521-528 | The 16-bit sum of percentages is the true sum |
| Withdrawals.PaidOutKeeps | libraries/chain/database_vesting.cpp:182-206 | Paying routes in HIVE makes and loses none |
| Withdrawals.TargetsOf | libraries/chain/database_vesting.cpp:166-172 | Each pass visits exactly its routes, in the order of the index |
| Stake.AvailableWithin | libraries/chain/hive_evaluator_transfer.cpp:819-868 | Whatever the mana, an account can delegate no more than it has beyond delegations and outstanding power-down |
| Stake.AvailableExact | libraries/chain/hive_evaluator_transfer.cpp:819-868 | An account can delegate exactly what is neither delegated nor on its way out, as far as its mana reaches |
| Stake.LentBooked | libraries/chain/hive_evaluator_transfer.cpp:882-964 | A new or raised delegation keeps delegated and received shares equal to the sums over delegations |
| Stake.UnlentBooked | libraries/chain/hive_evaluator_transfer.cpp:965-1019 | So does a lowered one, whose shares stay delegated until they return |
| Stake.ReturnedBooked | libraries/chain/database.cpp:3281-3302 | So does a return |
| Stake.PartCovered | libraries/chain/database_vesting.cpp:136-146 | The part due next is never more than the account has: the alarm branch is unreachable |
| Stake.PartPaidSane | libraries/chain/database_vesting.cpp:260-287 | A part paid, routes and all, keeps every account solvent and the total right |
| Stake.SameEnd | libraries/chain/database_vesting.cpp:264-276 | The power-down ends exactly with its last part, never early because an account ran dry |
| Stake.Stakes.WithdrawVesting | libraries/chain/hive_evaluator_transfer.cpp:402-467 | When a power-down is accepted, that its first part is due one interval later, and at the least rate that is enough |
| Stake.Stakes.SetRoute | libraries/chain/hive_evaluator_transfer.cpp:469-533 | When a route is accepted; it is set or dropped, and the others are as they were; otherwise nothing has changed |
| Stake.Stakes.Delegate | libraries/chain/hive_evaluator_transfer.cpp:797-1027 | When a delegation, a change or a removal is accepted, and what it does |
| Stake.Stakes.ClearExpiredDelegations | libraries/chain/database.cpp:3274-3304 | Exactly the shares whose time has come return |
| Stake.Stakes.PowerUp | libraries/chain/hive_evaluator_transfer.cpp:363-400 | Shares at the current price, books and solvency kept |
| Stake.Stakes.TransferShares | libraries/chain/hive_evaluator_transfer.cpp:295-349 | Only restricted accounts hand shares over, none of them delegated or delayed, and stay solvent |
| Stake.Stakes.ProducerReward | libraries/chain/database.cpp:1875-1885 | The producer's HIVE becomes shares at the current price, books and solvency kept |
| Stake.Stakes.ClaimReward | libraries/chain/hive_evaluator_transfer.cpp:738-795 | Claimed shares become vested with the HIVE behind them, books and solvency kept |
| OneStake.Chain.PowerUp | libraries/chain/hive_evaluator_transfer.cpp:363-400 | Ledger, stake and governance agree on whether it succeeds and on every account's shares afterwards |
| OneStake.Chain.TransferShares | libraries/chain/hive_evaluator_transfer.cpp:295-349 | The same for shares handed over |
| OneStake.Chain.Payout | libraries/chain/database_vesting.cpp:127-307 | The same for a part of a power-down with all its routes |
| OneStake.Chain.VestInLedger | libraries/chain/database_vesting.cpp:166-231 | Drawing the routed shares straight from the account leaves the ledger with what borrowing them leaves the accounts with |
| OneStake.Chain.PayInLedger | libraries/chain/database_vesting.cpp:166-232 | So does redeeming them one route after the other |
| OneStake.Chain.PayInGovernance | libraries/chain/util/delayed_voting.cpp:44-76 | So does giving the targets delayed votes and taking from the account what leaves it for good |
| OneStake.Chain.ProduceBlock | libraries/chain/database.cpp:1850-1885 | The same for a block's inflation and its producer's shares |
| OneStake.Chain.ClaimReward | libraries/chain/hive_evaluator_transfer.cpp:738-795 | The same for claimed rewards |
| OneStake.Chain.Run | libraries/chain/database.cpp:3574-3607 | After every run the three have the same shares for every account and the same total, their sum |
| Stake.Stakes.VestRoutes | libraries/chain/database_vesting.cpp:166-231 | The first pass adds each deposit to the vesting of its target |
| Stake.Stakes.PayRoutes | libraries/chain/database_vesting.cpp:166-232 | The second pass pays each deposit in HIVE at the price of the moment |
| Stake.Stakes.Distribute | libraries/chain/database_vesting.cpp:156-258 | Both passes and the rest drain the borrowed pool to nothing; who gets what, HIVE conserved |
| Stake.Stakes.Payout | libraries/chain/database_vesting.cpp:127-307 | One part: each route gets its percentage truncated, as shares or as the most HIVE they stand for at the price of the moment, and the account the rest, less than one share per route if they add up to the whole; HIVE conserved, total shares exact, as many shares burned as were borrowed, the next part one interval later, alarm branch not taken |
| Stake.Stakes.NextDue | libraries/chain/database_vesting.cpp:113-125 | The iterator moves to the next due account in the order of the index |
| Stake.Stakes.ProcessWithdrawals | libraries/chain/database_vesting.cpp:111-307 | Ends; every account due at the start has been paid at least once, and each schedule has moved only by its own parts |
| Stake.Stakes.Run | libraries/chain/database_vesting.cpp:136-146 | After every run, rewards included, the books hold and the next part of every power-down is covered by what is vested and not delegated |
| Votes.ClaimsWithin | libraries/chain/database_comment.cpp:147-181 | Curators together never claim more than the curation reward |
| Votes.ClaimExact | libraries/chain/database_comment.cpp:162 | A curator's claim is their share of the reward by weight, truncated |
| Votes.ClaimsMiss | libraries/chain/database_comment.cpp:147-181 | On a post with exact totals curators together miss the reward by less than one unit each |
| Content.StrengthExact | libraries/chain/hive_evaluator_social.cpp:711-723 | A vote is as strong as what was spent above the dust threshold, in proportion to the time left once that is short, with the sign of the vote |
| Content.WeightExact | libraries/chain/hive_evaluator_social.cpp:797-833 | A vote counts in proportion to the age of the post during an auction, and afterwards in full, by half or by an eighth |
| Content.WeightWithin | libraries/chain/hive_evaluator_social.cpp:797-833 | A vote's weight is at most what is added to the total, and equal to it without an auction |
| Content.VoteWeighed | libraries/chain/hive_evaluator_social.cpp:755-843 | Any vote or edit keeps the sum of weights within the total, and the net strength the sum of strengths |
| Content.VoteExact | libraries/chain/hive_evaluator_social.cpp:755-843 | Under modern rules the sums are equal, and the upvote total is the sum of positive strengths |
| Content.Board.CastVote | libraries/chain/hive_evaluator_social.cpp:611-858 | When a vote is accepted, how strong it is, what it weighs in place of what it replaces, and all it changes |
| Content.Board.Accumulate | libraries/chain/include/hive/chain/detail/state/comment_object.hpp:180-204 | The totals of the post follow the vote and the one it replaces |
| Content.SharesWithin | libraries/chain/database_comment.cpp:242-248 | Beneficiaries together take at most the author's part |
| Content.SharesMiss | libraries/chain/database_comment.cpp:242-248 | and miss their part by at most one unit each |
| Content.EarnedWithin | libraries/chain/util/reward.cpp:7-32 | Dust and the accepted maximum only lower a post's part |
| Content.EarnedExact | libraries/chain/util/reward.cpp:7-32 | A post earns its part of the fund by its claim unless that is dust, and at most what is worth what the author accepts |
| Content.ForCuratorsExact | libraries/chain/database_comment.cpp:224 | The curators' part of a reward is their percentage, truncated |
| Content.TakesLimited | libraries/chain/database_comment.cpp:193-322 | What a post takes from the fund is worth no more than the author accepts, and misses its reward only by what curators did not claim |
| Content.PartsFit | libraries/chain/database_comment.cpp:432-444 | All posts due together have parts within the fund, because their claims were counted first |
| Content.Board.PayCurators | libraries/chain/database_comment.cpp:121-191 | Each curator gets their share by weight, truncated, and nobody else anything; on a post with exact totals together they miss the reward by less than one unit each; the balance falls by their sum, the rest is reported unclaimed |
| Content.Board.PayBeneficiaries | libraries/chain/database_comment.cpp:242-279 | Each beneficiary gets their percentage, truncated; together they miss theirs by at most one unit each |
| Content.Board.Cashout | libraries/chain/database_comment.cpp:193-322 | What leaves the fund is exactly curators plus beneficiaries plus author, and who gets what, the curators' percentage to the unit |
| Content.Board.CountClaims | libraries/chain/database_comment.cpp:432-444 | Claims of all due posts are added before anything is paid |
| Content.Board.ProcessCashouts | libraries/chain/database_comment.cpp:378-510 | Ends, pays every due post once from the fund as it stood: its part by its claim unless that is dust, and worth at most what the author accepts; never overdraws the fund; who has what afterwards |
| Content.DecayedExact | libraries/chain/database_comment.cpp:400-413 | Claims of earlier rounds fade in proportion to the time since, and are gone after the whole span |
| Content.FailingRound | libraries/chain/util/reward.cpp:60-65 | A round that fails, with the curve in force and one post of the least strength |
| Content.Board.Run | libraries/chain/database_comment.cpp:378-510 | Over every run all that went into the fund is in it or was paid out; under modern rules every post's totals stay the exact sums over its votes |
| AuthorPayout.NeverAboveOffer | libraries/chain/database.cpp:1014-1027 | The rounded-up burn never exceeds what was offered |
| AuthorPayout.MintsTheSame | libraries/chain/database.cpp:1014-1027 | It mints exactly what burning everything would |
| AuthorPayout.NoSmallerBurn | libraries/chain/database.cpp:1014-1027 | No smaller burn does |
| AuthorPayout.AwardHbd | libraries/chain/database.cpp:988-1056 | Paid and burned HIVE make up the reward, and the burn is the least that mints the HBD |
| BlockTree.OnlyCandidate | libraries/chain/fork_database.cpp:369-379 | In a tree the main branch has a block at every height from the lowest to the head |
| BlockTree.AncestorsPresent | libraries/chain/fork_database.cpp:344-353 | Every ancestor above the lowest height is in the index |
| BlockTree.PartedDisjoint | libraries/chain/fork_database.cpp:298-342 | Two parted branches share no block, and one is empty exactly when its block lies below the other |
| ForkState.EnteredTree | libraries/chain/fork_database.cpp:73-107 | Entering a block keeps the tree exactly when it is anchored |
| ForkState.FirstBreaksTree | libraries/chain/fork_database.cpp:91-100 | A block without a predecessor breaks the tree whenever no block of height one is there |
| ForkState.BrokenByFirst | libraries/chain/fork_database.cpp:30-37 | A concrete case: started at height two, then given a first block |
| ForkState.TrimmedTree | libraries/chain/fork_database.cpp:154-186 | Removing all blocks below a height keeps the tree |
| ForkState.DescentEnds | libraries/chain/fork_database.cpp:313-340 | The descent from both sides ends just above the most recent common ancestor |
| ForkState.HeightsRise | libraries/chain/fork_database.cpp:542-549 | Synopsis heights rise strictly from the lowest and stay in range |
| ForkState.HeightsLogarithmic | libraries/chain/fork_database.cpp:542-549 | Without further blocks the synopsis ends at the reference and has one more entry than the logarithm of the span |
| ForkState.HeightsShort | libraries/chain/fork_database.cpp:542-549 | With further blocks it is no longer than that of the longer span |
| ForkDatabase.Database.PushItem | libraries/chain/fork_database.cpp:73-107 | Ends with PushNext because the cache shrinks; done exactly when the block enters; which cached blocks are tried, kept or lost; the head stays unless a strictly higher block takes its place, so of blocks of one height the first is kept; and when the index stays a tree |
| ForkDatabase.Database.PushNext | libraries/chain/fork_database.cpp:131-152 | Every child is tried; no cached block has a linked parent afterwards, if none had before; only blocks that follow leave the cache, and all of them unless one is lost; when one is; the head changes only to a strictly higher block |
| ForkDatabase.Database.PushBlock | libraries/chain/fork_database.cpp:42-71 | Done exactly when the block is less than the size below the head and its parent is there and valid; the head changes only to a strictly higher block; when the cache stays settled; by a condition on the cache before it, exactly when cached blocks are lost; an unlinkable block is cached; the tree survives exactly when the block is anchored |
| ForkDatabase.Database.PushAll | libraries/chain/fork_database.cpp:42-107 | Over any sequence of pushes the head stays until a strictly higher block takes its place, that block was pushed or cached, and no block that entered is higher than the head |
| ForkDatabase.LostBranch | libraries/chain/fork_database.cpp:42-152 | A run that ends normally with a settled cache and has lost a block in every order |
| ForkDatabase.OldCached | libraries/chain/fork_database.cpp:42-71 | A run that leaves a cached block with a linked parent |
| Cascade.LossExact | libraries/chain/fork_database.cpp:131-152 | Where the order of siblings is settled, whether a block is lost is too |
| Cascade.LowCacheLosesNone | libraries/chain/fork_database.cpp:75-152 | None is lost while no cached block is more than the size limit above the one pushed |
| Cascade.TwoBranchesLose | libraries/chain/fork_database.cpp:75-152 | Of two cached branches one block longer one is lost in every order |
| Cascade.HalfwayEntered | libraries/chain/fork_database.cpp:136-151 | One child with all that follows it: what leaves the cache and where the head is then |
| Cascade.HalfwayLost | libraries/chain/fork_database.cpp:136-151 | A child that is lost was outgrown by one before it, and so was a block lost after it |
| Cascade.HalfwayEnd | libraries/chain/fork_database.cpp:136-151 | When no child is left and none was lost, everything that follows has been tried and nothing was outgrown |
| ForkDatabase.Database.StartBlock | libraries/chain/fork_database.cpp:30-37 | One block, and it is the head |
| ForkDatabase.Database.PopBlock | libraries/chain/fork_database.cpp:20-28 | The head's parent becomes the head, exactly when it is linked |
| ForkDatabase.Database.SetMaxSize | libraries/chain/fork_database.cpp:154-186 | Exactly the blocks that are the size or more below the head go, cached ones too, and the index stays a tree |
| ForkDatabase.Database.OldestBlockNum | libraries/chain/fork_database.cpp:119-123 | The lowest height in the index |
| ForkDatabase.Database.WalkMainBranchToNum | libraries/chain/fork_database.cpp:344-353 | The head's ancestor of that height, if it is there |
| ForkDatabase.Database.FetchBlockOnMainBranchByNumber | libraries/chain/fork_database.cpp:369-379 | The shortcut for a single candidate gives the same answer as the walk |
| ForkDatabase.Database.FetchBranchFrom | libraries/chain/fork_database.cpp:298-342 | Answers exactly if the branches meet in the index, with the two parted branches |
| ForkDatabase.Database.GetBlockchainSynopsis | libraries/chain/fork_database.cpp:453-552 | Which blocks it lists, or that older ones are needed |
| ForkDatabase.Database.BranchDown | libraries/chain/fork_database.cpp:524-531 | The links lead from the reference down to the lowest height, block by block |
| ForkDatabase.Database.EverCloser | libraries/chain/fork_database.cpp:541-548 | The blocks picked from the branch are those at the halving heights |
| ForkDatabase.Database.Run | libraries/chain/fork_database.cpp:20-186 | Over every run each block above the lowest height has its parent in the index |
| ChainSync.BlockReader.IsIncludedBlock | libraries/chain/fork_db_block_reader.cpp:304-321 | True exactly for blocks on the main chain, from the index or the log |
| ChainSync.BlockReader.GetBlockIds | libraries/chain/fork_db_block_reader.cpp:209-301 | The reply starts at the highest shared entry and runs along the main chain; refused exactly when nothing is shared |
| ChainSync.BlockReader.IdsFrom | libraries/chain/fork_db_block_reader.cpp:253-300 | Ids from the log and the index, without a gap, and how many remain |
| ChainSync.SharedPrefix | libraries/chain/fork_db_block_reader.cpp:240-250 | Entries of a synopsis shared with a chain form a prefix of it |
| ChainSync.SyncRound | libraries/chain/fork_db_block_reader.cpp:209-321 | For any node and peer: there is a reply exactly if the peer has the oldest block on the node's branch; it begins at their highest shared entry, and size plus remaining is the distance to the peer's head |
| LogFormat.PackingRoundTrip | libraries/chain/include/hive/chain/detail/block_attributes.hpp:20-36 | Position and attributes both survive packing exactly below the limit of six bytes |
| LogFormat.PackingOverrun | libraries/chain/include/hive/chain/detail/block_attributes.hpp:20-36 | A position beyond it under which every block reads as compressed |
| LogFormat.BlockAt | libraries/chain/block_log.cpp:351-361 | Each block's bytes and trailer are at its offset, however much was appended since |
| BlockLog.BlockLog.Append | libraries/chain/block_log.cpp:345-368 | When a block is appended, and that file, head and index follow |
| BlockLog.BlockLog.ForEachBlockPosition | libraries/chain/block_log.cpp:673-724 | Every block once, last to first, with exact position, size and attributes; fails exactly at an empty block |
| BlockLog.EmptyBlockLog | libraries/chain/block_log.cpp:673-724 | A log on which the walk fails |
| BlockLog.BlockLog.ReadRawHeadBlock | libraries/chain/block_log.cpp:613-641 | The last block, byte for byte |
| BlockLog.BlockLog.ReadArtifacts | libraries/chain/block_log_artifacts.cpp:916-930 | Exact artifacts of every block but the head |
| BlockLog.BlockLog.ReadArtifactsRange | libraries/chain/block_log_artifacts.cpp:1027-1067 | The same for a run of blocks, and the bytes they take |
| BlockLog.BlockLog.ReadRange | libraries/chain/block_log.cpp:552-611 | Exactly the appended blocks, the head from memory |
| BlockLog.ArtifactFile.WriteBatched | libraries/chain/block_log_artifacts.cpp:601-682 | For any sequence of chunks and any batch size the batched writer leaves what single writes would |
| BlockLog.BlockLog.RegenerateArtifacts | libraries/chain/block_log_artifacts.cpp:571-682 | The index rebuilt from the log is the one kept while appending, exactly when no block is empty |
| Merkle.RootIsTree | libraries/chain/full_block.cpp:620-648 | Pairing up with odd carry gives the tree split at the largest power of two below the length |
| Merkle.RootInjective | libraries/chain/full_block.cpp:620-648 | Lists of equal length with equal roots are equal, if the hash is injective |
| Merkle.ShorterListSameRoot | libraries/chain/full_block.cpp:620-648 | A shorter list can have the same root |
| Merkle.EqualHeadersEqualTransactions | libraries/chain/full_block.cpp:620-648 | With equal roots, lists are equal exactly when their lengths are |
| Merkle.ComputeMerkleRoot | libraries/chain/full_block.cpp:620-648 | The loop computes the recursive root |
| Merkle.HashPairs | libraries/chain/full_block.cpp:632-646 | One pass in place never overwrites a digest before reading it |

## Left out

- Governance.Database.MatureDelayedVotes: how many votes mature is a parameter here; DelayedVotes derives it from the buckets and the clock.
- Governance.Database.AdjustWitnessVote: the virtual-time fields, which only the scheduler uses.
- Content.Board.CastVote: how much mana a vote costs and whether there is enough; both are parameters, and the mana bars are not kept.
- Stake.Stakes.Delegate: mana likewise, and resource credits.
- Content.Board.PayCurators: curators are paid in any order; amounts do not depend on it.
- Content.Board.PayBeneficiaries: in which tokens a beneficiary or the author is paid; what is counted is HIVE leaving the fund.
- Ledger.Ledger.AwardReward: the split of a reward between HIVE, HBD and shares is a parameter here; AuthorPayout and Content compute it.
- Content.Board.Cashout: likewise for the author's part; AuthorPayout computes the split.
- Ledger.Ledger.Transfer: the branch for vesting shares of restricted accounts, which Stake, Governance and OneStake model.
- Ledger.Ledger.TransferToSavings: interest is a parameter.
- Ledger.Ledger.TransferFromSavings: interest is a parameter.
- Ledger.Ledger.CancelTransferFromSavings: interest is a parameter.
- Ledger.Ledger.ProcessFunds: how much a block issues, and the HBD it is worth, are parameters.
- Ledger.Ledger.CollateralizedConvert: whether HBD may be printed and the debt limit are parameters.
- LedgerState.IssueSound: virtual supply.
- LedgerState.BurnSound: virtual supply.
- Audit.AuditPasses: virtual supply.
- Ledger.Ledger.Run: virtual supply.
- Governance.Database.ValidateInvariants: the assertions on tokens, which are in Audit, and on virtual supply.
- Governance.Database.ProcessDeclineVotingRights: the budget counts accounts, while the node counts removed proposal votes.
- Governance.Database.RemoveExpiredGovernanceVotes: the same budget.
- Stake.Stakes.Payout: delayed votes, which Governance and OneStake model.
- Stake.Stakes.ClaimReward: how much HIVE comes with the shares is a parameter, and a claim that would leave shares without any HIVE behind them, possible only while nothing is vested, is refused.
- OneStake.Chain.ClaimReward: refused where Stake.Stakes.ClaimReward is.
- OneStake.Chain.Run: votes taken out of buckets in time, and transfers of liquid HIVE in the ledger, are not among its steps.
- BlockLog.BlockLog.Append: a refused append leaves the file alone, while the node stops with the bytes already written.
- Virtual supply, whose check depends on the price feed; witness scheduling; last irreversible block; resource credits; proposals and the treasury's own payments.
- Recurrent transfers, account creation fees, clearing of the null account and hardfork conversions of balances: easy members of the same kind as those modelled.
- Liquidity rewards, proof of work and rules before the modelled hardforks, except vote edits.
- Notifications to plugins (virtual operations), logging, benchmarks, locks, memory mapping and retries.
- Wrap-around of 64-bit amounts; the 16-bit sum of route percentages is modelled.
- Hashing, signatures and compression: ids and hashes are abstract functions, block bytes are opaque.
- Removing inner blocks from the fork database, resetting it, and starting it twice.
- Truncating the block log, splitting it into parts, appending several blocks at once, and resuming an interrupted rebuild of its index.
