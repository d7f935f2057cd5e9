# Verification of the prediction-market settlement backend

A Dafny model of the off-chain half of a Solana prediction market: the order book that
proposes crossing pairs, the keepers that race to settle them on chain and record them in
the database, the position and liquidation arithmetic, and five smaller services that each
hold one hard property (Base58 decoding, one-time beta codes, the referral points ledger,
market status reconciliation, the two-level order book cache). Run
`dafny verify dfyconfig.toml`.

## How the model is laid out

| file | what it models |
|---|---|
| `Orders.dfy` | order rows, statuses, the rounding of `Math.round`, quote scaling |
| `Matching.dfy` | `matchOrders`: nested loops proved against a specification, and what a proposal is |
| `FillPrice.dfy` | the rounded running average and its error bound |
| `OrderLedger.dfy` | an order store with place, cancel, record and pass, proved against functions on the table |
| `OrderRuns.dfy` | the invariant of every run of place, propose, fill and cancel |
| `Quiescence.dfy` | repeated passes terminate in a book without crossing pairs |
| `KeeperProtocol.dfy` | any number of keepers on any number of pairs, with crashes, lost confirmations, failed reads, over the program's orders and match states |
| `KeeperAccounting.dfy` | shares conserved on chain, when a recorded fill is lost, when a record exceeds what settled |
| `KeeperPrices.dfy` | which price a keeper's call carries, and from where |
| `KeeperRuns.dfy` | what an undisturbed call does from any reachable state, and runs whose books end up wrong |
| `StrandedSellers.dfy` | which unpaid sellers can still be paid |
| `PositionLedger.dfy` | buyer increment, greedy seller reduction, conservation of shares |
| `Liquidation.dfy` | equity, liquidation price, the two liquidation tests, the collateral split |
| `BookDepth.dfy` | price levels, the row limit of the book query, the market price |
| `OrderBookCache.dfy` | cache keys, one server's cache, several servers over one Redis |
| `Base58.dfy` | the in-place decoder, injectivity, the minimal encoder as its inverse |
| `BetaGate.dfy` | challenge, redemption script, seeding, and their interleavings |
| `Referrals.dfy` | points, levels, referral codes, the one-time credit |
| `AutoResolver.dfy` | resolve, finalize and self-healing against a chain that moves on its own |

Conventions. An order's id is its position in the table. Prices are basis points. JavaScript
numbers are integers where the code keeps integers and reals where it divides; `Math.round`,
`Math.floor`, `Math.ceil` and BigInt division are written out. The on-chain program is its
orders (price, quantity, filled quantity, and the shares in a sell order's escrow) and one
match state per pair of orders with the quantity fixed on validation and two monotone flags;
each instruction is an atomic test-and-set with the conditions of
`programs/space-core/src/instructions/matching.rs`. Time, fresh codes and nonces, the
validity of signatures, the answer of a database query within what its `WHERE` and
`ORDER BY` allow, and whether a remote call gets through are parameters, so every theorem
holds for all of them. Where the source updates state, a class carries the fields and its
methods are proved equal to functions of the old state; the run theorems are about those
functions.

## What the code does not do

For each point: the input or the reachable run that shows it, and the theorem that says for
all inputs or runs when it happens.

- A keeper records its own size although the program settles the size of the match state.
  Two things make the record too large: a retry finds a match state with less, because only
  the price is copied (`KeeperRuns.RetryCanOverCount`), or validation cuts the size down to
  what is left on chain, which happens without any retry once a row has lost a fill
  (`LostFillOverCounts`). A step admits an oversized call exactly under that condition, which
  the keeper could check (`KeeperAccounting.StepKeepsCallsFitExactly`); in every run without
  such a step no row exceeds what was settled (`RowsWithinSettled`), and from every reachable
  state the call's size against its match state decides the outcome
  (`KeeperRuns.AdmissionDecides`).
- Two keepers that read a row before either saves lose a fill (`KeeperRuns.FillIsLost`). In
  every run a recorded fill is missing from its row if and only if some save to that row was
  stale (`KeeperAccounting.FillsLostExactly`).
- A seller can be left unpaid for good: when the buyer's side has settled and filled an order
  and its call ends there (`StrandedSellers.SellerIsStranded`), every later call that can
  read the chain gives up because an order is filled. In every run, an unpaid seller can be
  paid by a continuation with readable state if and only if it is not stranded in that way
  (`PayableExactly`).
- A cancelled order can still be filled (`OrderRuns.CancelledOrderCanStillFill`). Its row
  changes exactly when a proposal made before is filled that names it
  (`CancelledRowChangesExactly`); without such a proposal it is final (`UnnamedStaysCancelled`).
- Two market orders always cross, at the seller's price, whatever the buyer quoted
  (`Matching.MarketPairIgnoresTolerance`); all other pairs cross exactly when both sides
  accept the price (`CrossesExactlyWhenAcceptable`).
- Seeding a beta code is a lookup and a write. Two seeders can make a redeemed code
  redeemable again (`BetaGate.SeedingRaceRedeemsTwice`); every step keeps the invariant
  exactly when it is not such a write (`StepKeepsInvExactly`), and if the two commands of
  each seeder follow each other directly there is none (`AtomicSeedingIsUndisturbed`).
- `getOnChainMarketState` reports every failed read as a missing account, and the
  self-healing then marks a live market invalid (`AutoResolver.FailedReadIsReached`); every
  step keeps the row behind the chain exactly when it is not such a read
  (`StepKeepsInvExactly`).
- Executor and portfolio disagree exactly on positions worth nothing with negative equity
  (`Liquidation.VerdictsAgreeExactly`). The displayed liquidation price is the threshold of
  every leveraged position exactly when the quote token has six decimals or more
  (`ThresholdExactly`).
- The liquidation price that the keeper stores with a new row, when the chain has none, is
  not the one that liquidates. It is strictly below it exactly when the collateral is under
  a bound in the entry and the stored price (`Liquidation.StoredPriceExactly`); that holds
  for every new long above one per cent with leverage two or more and a hundred thousand
  quote units of shares (`StoredPriceIsLow`), and fails for smaller ones
  (`StoredPriceCanBeHigh`).
- An increment can leave one unit of collateral and debt more than the rounded notional, or
  one less (`Liquidation.IncrementCanGainOne`, `IncrementCanLoseOne`), never more than one
  (`IncrementSplitsWithinOne`), and none exactly when rounding the two remainders apart and
  together comes to the same (`IncrementSplitsExactly`). At leverage ten a new long is
  liquidatable at its own entry price exactly when rounding went down (`FreshLongAtTen`).
- The book without a token type mixes YES and NO orders and can show a bid above an ask
  although nothing can be matched (`BookDepth.MixedBookCanCross`); at rest it does not
  exactly when no bid of one token reaches an ask of the other (`MixedSpreadExactly`).
- Invalidating the cache reaches only the key without a token type
  (`OrderBookCache.InvalidateReachesOneRequest`).
- Decoding an empty string, or one of '1's only, yields one zero byte too many, and no other
  string does (`Base58.EncodeAfterDecode`).
- Points awards are read and saved without a lock. A referral credit between a trading
  award's read and its save is lost from the total (`Referrals.StaleAwardIsReached`), and so
  is a trading award between a comment's (`StaleCommentIsReached`). The total is the sum of
  its parts exactly when the two parts that the award does not write are unchanged, and
  nothing is lost exactly when no points of any kind came in between (`StaleAwardExact`).

## Model

| member | source | states |
|---|---|---|
| Orders.RoundDiv | backend/src/services/orderKeeperService.ts:1373-1378 | `Math.round` of a quotient is the nearest integer, halves upwards |
| Matching.CrossesExactlyWhenAcceptable | backend/src/services/orderBookService.ts:241-270 | as soon as one order is a limit order, a pair crosses exactly when the resting limit price is acceptable to both sides with an unfloored five per cent, and that price is the one proposed |
| Matching.MarketPairIgnoresTolerance | backend/src/services/orderBookService.ts:241-245 | two market orders cross at the seller's price; the buyer's bound holds exactly when that price happens to be within five per cent |
| Matching.FirstCrossing | backend/src/services/orderBookService.ts:229-287 | the first sell in queue order that has something left, the same token type and passes the rule |
| Matching.MatchOrders | backend/src/services/orderBookService.ts:190-294 | the nested loops return the specified proposals, one attempt per buy, nothing decremented in between |
| Matching.ProposalsExact | backend/src/services/orderBookService.ts:225-291 | a pass proposes a pair if and only if the buy is queued and the sell is its first crossing one, at the rule's price and the smaller remaining size |
| Matching.OneProposalPerBuy | backend/src/services/orderBookService.ts:225-291 | no buy is proposed twice in one pass |
| Matching.ProposedSizeIsSmaller | backend/src/services/orderBookService.ts:225-291 | a proposed size is positive, at most what either order has left, and equal to what one of them has left |
| Matching.PriceTimePriority | backend/src/services/orderBookService.ts:190-222 | no queued sell that crosses a proposed buy is ahead of its partner by price or age |
| Matching.EmptyPassIffQuiet | backend/src/services/orderBookService.ts:190-294 | a pass over the fetched queues is empty if and only if no two live orders of one token type cross |
| FillPrice.AverageBetween | backend/src/services/orderKeeperService.ts:1371-1381 | the stored average lies between the lowest and highest fill price |
| FillPrice.AverageNearMean | backend/src/services/orderKeeperService.ts:1371-1381 | after n fills it is within (n-1)/2 basis points of the volume-weighted mean |
| FillPrice.BoundIsTight | backend/src/services/orderKeeperService.ts:1373-1378 | two fills can reach that bound |
| FillPrice.BoundIsStrictBeyondTwo | backend/src/services/orderKeeperService.ts:1371-1381 | three or more fills never do |
| OrderLedger.OrderStore.PlaceOrder | backend/src/services/orderService.ts:83-150 | appends one open order with nothing filled, refuses a price of zero, completes an order of size zero on the re-read |
| OrderLedger.OrderStore.CancelOrder | backend/src/services/orderService.ts:425-453 | fails exactly for unknown, foreign or filled orders; otherwise hands back size minus filled |
| OrderLedger.OrderStore.RecordMatch | backend/src/services/orderKeeperService.ts:1352-1435 | both rows gain the fill, their averages and statuses follow, the volume grows by the floored and scaled value |
| OrderLedger.OrderStore.ExecutePendingMatches | backend/src/services/orderKeeperService.ts:275-297 | every proposal is re-read, skipped if filled or exhausted, and filled by the smaller remaining size if its settlement landed |
| OrderLedger.PassTurn | backend/src/services/orderKeeperService.ts:279-291 | turn by turn, a pass appends a trade exactly if the settlement landed and neither row is marked filled or exhausted at that turn; the trade has the proposal's orders and price and completes one of them, both rows and the volume move by it, and any other turn changes nothing |
| OrderLedger.PassTouchesSettledOnly | backend/src/services/orderKeeperService.ts:1352-1398 | a pass changes a row only if a proposal whose settlement landed names it |
| OrderLedger.NothingSettledNothingChanges | backend/src/services/orderKeeperService.ts:279-291 | a pass in which no settlement lands leaves rows, volume and trades as they were |
| OrderLedger.ImmediateRereadFillsProposal | backend/src/services/orderKeeperService.ts:279-291 | a proposal that is re-read at once is filled with exactly its proposed size |
| OrderLedger.TradeValueIsFloored | backend/src/services/orderKeeperService.ts:1416-1435 | the value of a trade is the greatest whole number of units within size times price over ten thousand, scaled to the quote token |
| OrderLedger.SumFilledUpdate | backend/src/services/orderKeeperService.ts:1361-1367 | replacing one row changes a side's total by that row's difference only |
| OrderRuns.FillOrderAgrees | backend/src/services/orderKeeperService.ts:1361-1394 | a fill within the remaining size keeps filled, average and status in agreement with the row's own fill history |
| OrderRuns.FillKeepsSides | backend/src/services/orderKeeperService.ts:1361-1367 | a fill between a buy and a sell of one token keeps buy fills equal to sell fills |
| OrderRuns.StepKeepsInv | backend/src/services/orderKeeperService.ts:275-297 | placing, proposing, filling and cancelling each keep the ledger invariant |
| OrderRuns.RunsKeepInv | backend/src/services/orderKeeperService.ts:1361-1435 | after every run: filled is the sum of the row's trades and at most its size, status and average follow from it, buy fills equal sell fills per token type, the volume is the sum of the trade values |
| OrderRuns.TradesAreAcceptable | backend/src/services/orderBookService.ts:241-270 | in every run a trade with a limit order in it carries a proposed price that is acceptable to both stored orders |
| OrderRuns.AveragesAreFaithful | backend/src/services/orderKeeperService.ts:1371-1381 | in every run the stored average of a filled order is between its trade prices and near their weighted mean |
| OrderRuns.OpenMeansLive | backend/src/services/orderKeeperService.ts:1383-1394 | in every run an order has an open status if and only if it can still trade |
| OrderRuns.CancelledRowChangesExactly | backend/src/services/orderKeeperService.ts:279-291 | a step changes a cancelled row if and only if it fills an outstanding, still fillable proposal that names it |
| OrderRuns.UnnamedStaysCancelled | backend/src/services/orderKeeperService.ts:279-291 | a cancelled order that no outstanding proposal names keeps its row through every continuation |
| OrderRuns.CancelledOrderCanStillFill | backend/src/services/orderKeeperService.ts:279-291 | the run place, place, propose, cancel, fill ends with the cancelled order filled |
| OrderRuns.RunsKeepPrices | backend/src/services/orderService.ts:83-110 | in every run all orders have a positive price |
| Quiescence.AttemptShrinks | backend/src/services/orderKeeperService.ts:279-291 | a settled attempt brings no order to life and completes at least one |
| Quiescence.PassProgress | backend/src/services/orderKeeperService.ts:275-297 | a pass whose settlements land changes nothing if the book is quiet and completes an order otherwise |
| Quiescence.PassExists | backend/src/services/orderBookService.ts:190-222 | from every book a pass can be made: both sorted queues exist |
| Quiescence.PassesReachQuiet | backend/src/services/orderKeeperService.ts:275-297 | after as many passes as there were live orders no two live orders of one token type cross, whatever ties the database breaks |
| Quiescence.QuietStays | backend/src/services/orderKeeperService.ts:275-297 | further passes leave a quiet book alone |
| KeeperProtocol.StepKeepsInv | backend/src/services/orderKeeperService.ts:517-1398 | every event of every call keeps the protocol invariant |
| KeeperProtocol.RunsKeepInv | backend/src/services/orderKeeperService.ts:517-1398 | the invariant holds after any interleaving of orders created, calls started, reads, transactions, saves, aborts and crashes |
| KeeperProtocol.SettlesOnceInOrder | backend/src/services/orderKeeperService.ts:994-1317 | each side of a pair settles at most once, the seller only after the buyer |
| KeeperProtocol.HistoryGrows | backend/src/services/orderKeeperService.ts:1041-1317 | whatever follows a run, its settlements stay, in their order, with their sizes and recorders |
| KeeperProtocol.RecordedOnceByTheLandingCall | backend/src/services/orderKeeperService.ts:1238-1398 | a fill reaches the rows at most once, through the call that saw its own seller transaction land, with that call's size, the buyer's row first |
| KeeperProtocol.NoDuplicateExecution | backend/src/services/orderKeeperService.ts:312-532 | within one process a pair is executed by one call at a time |
| KeeperProtocol.ExecutingExactly | backend/src/services/orderKeeperService.ts:312-532 | in every run a pair is closed to a process exactly while one of its calls is active; whatever ends a call opens it again |
| KeeperProtocol.SellerIsSentAfterFiveLooks | backend/src/services/orderKeeperService.ts:1162-1219 | the seller's transaction is sent at the fifth look at the earliest, and then exactly if the look succeeds and the buyer is settled and the seller is not |
| KeeperProtocol.FilledNeverOverCounts | backend/src/services/orderKeeperService.ts:1354-1398 | in every run a row never holds more than the fills recorded for it |
| KeeperProtocol.SingleSettlementExact | backend/src/services/orderKeeperService.ts:595-602 | the row of an order with one settlement holds the landing call's size, and is within the settled size if and only if that is within the match state's |
| KeeperAccounting.SharesAreConserved | programs/space-core/src/instructions/matching.rs:1719-1724 | in every run the quantity of a sell order is what its escrow holds, what went to buyers whose seller is unpaid, and what was settled; so it is never settled beyond its quantity |
| KeeperAccounting.SettledPricesAccepted | programs/space-core/src/instructions/matching.rs:229-241 | in every run a pair settles at a price between its two orders' prices on chain, whatever price the keeper sent |
| KeeperAccounting.StepKeepsBuyExactly | programs/space-core/src/instructions/matching.rs:243-246 | a step keeps a buy order, with the match state that waits for it, within its quantity if and only if it does not validate a second one beside it |
| KeeperAccounting.BuysWithinQuantity | programs/space-core/src/instructions/matching.rs:892-899 | in every run that validates one match state at a time for a buy order, the order is never settled beyond its quantity |
| KeeperAccounting.FillsLostExactly | backend/src/services/orderKeeperService.ts:1354-1398 | in every run a row holds less than was recorded for it if and only if some save to it was stale |
| KeeperAccounting.StepKeepsCallsFitExactly | backend/src/services/orderKeeperService.ts:595-602 | a step keeps every call past step 1 within its match state if and only if it does not admit a call that is larger than the match state found, or than what is left on chain when it creates one |
| KeeperAccounting.RowsWithinSettled | backend/src/services/orderKeeperService.ts:756-825 | in every run without such an admission no record and no row exceeds what was settled |
| KeeperPrices.LookTakesPrice | backend/src/services/orderKeeperService.ts:595-602 | a look at an existing match state gives up exactly for a settled seller or a filled order, and otherwise goes on with the match state's price if that is readable and positive |
| KeeperPrices.ValidationTakesPrice | backend/src/services/orderKeeperService.ts:756-803 | a validation that goes on carries the price of the match state it created or found |
| KeeperPrices.SyncTakesPrice | backend/src/services/orderKeeperService.ts:1337-1350 | so does the final price read, if it succeeds and the price is positive; otherwise the call keeps its own |
| KeeperPrices.InformedCallsCarryPrice | backend/src/services/orderKeeperService.ts:595-602 | in every run a call that has gone on after a readable look, a validation or a final read carries its match state's positive price from then on, to its row saves |
| KeeperPrices.UninformedCallsKeepPrice | backend/src/services/orderKeeperService.ts:517-602 | and a call without any of these carries the price it was started with |
| KeeperRuns.ReadyCallCompletes | backend/src/services/orderKeeperService.ts:994-1398 | from every reachable state an admitted, undisturbed call settles what its match state holds and records what it carries, and changes nothing else |
| KeeperRuns.AdmissionDecides | backend/src/services/orderKeeperService.ts:1361-1367 | if a row agreed with the chain, that completion leaves it above the settled sum if and only if the call is larger than its match state, and equal if and only if they are equal |
| KeeperRuns.UndisturbedCallSettles | programs/space-core/src/instructions/matching.rs:243-267 | an undisturbed call on a new pair settles the smallest of its size and what is left of both orders on chain, and adds its size to exactly the pair's two rows; the two are equal if and only if no more was asked than is left |
| KeeperRuns.FillIsLost | backend/src/services/orderKeeperService.ts:1354-1398 | a reachable run of two overlapping keepers after which the chain has settled 8 of an order and its row says 5 |
| KeeperRuns.LostFillOverCounts | programs/space-core/src/instructions/matching.rs:243-246 | a reachable run without retries, with every size read from the rows, after which a row says 5 and the chain settled 2 |
| KeeperRuns.RetryCanOverCount | backend/src/services/orderKeeperService.ts:595-602 | a reachable run in which a retry records 10 where 5 were settled |
| StrandedSellers.PayableExactly | backend/src/services/orderKeeperService.ts:533-561 | in every run, a seller whose buyer has settled can be paid by some continuation with readable state if and only if it is not stranded |
| StrandedSellers.StrandedForGood | backend/src/services/orderKeeperService.ts:533-561 | a stranded seller is paid in no continuation with readable state |
| StrandedSellers.OthersCanBePaid | backend/src/services/orderKeeperService.ts:1162-1219 | any other unpaid seller is paid by a call that is past its look, or by one that starts now |
| StrandedSellers.SellerIsStranded | backend/src/services/orderKeeperService.ts:533-561 | one confirmation that does not arrive strands a seller |
| PositionLedger.PositionStore.CreditBuyer | backend/src/services/orderKeeperService.ts:1456-1551 | the buyer's row is incremented, reopened or created as the specification says (CreditedRow) |
| PositionLedger.PositionStore.ReduceSeller | backend/src/services/orderKeeperService.ts:1561-1618 | the greedy loop is the specified row-by-row reduction |
| PositionLedger.CreditRaises | backend/src/services/orderKeeperService.ts:1463-1551 | the buyer's open shares rise by exactly the fill, no other row changes |
| PositionLedger.IncrementAveragesEntry | backend/src/services/orderKeeperService.ts:1463-1480 | the averaged entry price lies between the old entry, or the fill price if there is none, and the fill price |
| PositionLedger.CreditedRow | backend/src/services/orderKeeperService.ts:1463-1551 | the credited row field by field: an incremented row keeps its identity and leverage and has the running average as entry and the collateral and debt of its own new shares and entry; any other becomes a new long at the fill price |
| PositionLedger.IncrementedLongIsSafe | backend/src/services/orderKeeperService.ts:1474-1480 | an incremented long of leverage two to nine with at least 45 quote units of notional is not liquidatable at its new entry price |
| PositionLedger.DrainLowers | backend/src/services/orderKeeperService.ts:1564-1615 | the seller's rows and the total of open shares fall by exactly the smaller of the fill and what is held |
| PositionLedger.DrainRows | backend/src/services/orderKeeperService.ts:1585-1612 | a row in the list only loses shares and closes exactly when emptied; any other row is as it was |
| PositionLedger.DrainIsGreedy | backend/src/services/orderKeeperService.ts:1577-1618 | the rows are emptied in order: one that loses shares has only empty rows before it |
| PositionLedger.OthersUntouched | backend/src/services/orderKeeperService.ts:1564-1584 | selling leaves rows of another user, outcome, token, kind or direction alone |
| PositionLedger.FillConservesShares | backend/src/services/orderKeeperService.ts:1456-1618 | total open shares are constant across a recorded fill if and only if the seller's rows cover it |
| Liquidation.RawPriceIsThreshold | backend/src/services/positionService.ts:273-318 | with six or more quote decimals the unrounded liquidation price separates liquidatable prices from the others, for longs and shorts |
| Liquidation.DisplayedPriceIsThreshold | backend/src/services/positionService.ts:286-318 | so does the floored or ceiled and clamped price, to one basis point, for every price of the book |
| Liquidation.DisplayedPriceLiquidates | backend/src/services/positionService.ts:286-318 | it is rounded to the side that liquidates: within the price range the displayed price itself liquidates unless it is the exact one |
| Liquidation.FewerDecimalsBreakThreshold | backend/src/services/positionService.ts:283-301 | for every smaller number of decimals there is a long displayed at 4444 that is not liquidatable at 4000 |
| Liquidation.ThresholdExactly | backend/src/services/positionService.ts:268-318 | the displayed price is the threshold of every leveraged position at every price if and only if the quote token has six decimals or more |
| Liquidation.VerdictsAgreeExactly | backend/src/services/liquidationExecutorService.ts:630-640 | executor and portfolio agree if and only if the position is worth something or its equity is not negative |
| Liquidation.PriorityBand | backend/src/services/liquidationExecutorService.ts:640-644 | a position is liquidatable if and only if its priority is in 901..1000, and otherwise the priority is 0 |
| Liquidation.PriorityMeasuresRatio | backend/src/services/liquidationExecutorService.ts:640-644 | the priority of a liquidatable position is a thousand less its equity ratio in thousandths, rounded down |
| Liquidation.PriorityFollowsRatio | backend/src/services/liquidationExecutorService.ts:642-644 | among liquidatable positions a lower equity ratio never has a lower priority |
| Liquidation.CreateSplitsExactly | backend/src/services/orderKeeperService.ts:1523-1531 | collateral and debt of a created row add up to the rounded notional |
| Liquidation.CreatePartsNearest | backend/src/services/orderKeeperService.ts:1523-1531 | a created row's collateral is its notional over the leverage, to the nearest unit; without leverage nothing is borrowed |
| Liquidation.IncrementPartsNearest | backend/src/services/orderKeeperService.ts:1474-1480 | an incremented row's collateral is its notional over the leverage and its debt the rest of that quotient, each to the nearest unit; without leverage nothing is borrowed |
| Liquidation.IncrementSplitsWithinOne | backend/src/services/orderKeeperService.ts:1474-1480 | after an increment they are within one unit of it |
| Liquidation.IncrementSplitsExactly | backend/src/services/orderKeeperService.ts:1474-1480 | they equal it if and only if rounding the two remainders apart makes no difference to rounding them together, and otherwise differ by that difference |
| Liquidation.IncrementCanGainOne | backend/src/services/orderKeeperService.ts:1474-1480 | an increment that gains a unit |
| Liquidation.IncrementCanLoseOne | backend/src/services/orderKeeperService.ts:1474-1480 | an increment that loses one |
| Liquidation.LongAtEntry | backend/src/services/positionService.ts:273-318 | a long is liquidatable at its entry price if and only if its collateral is below a tenth of its notional |
| Liquidation.FreshLongIsSafe | backend/src/services/orderKeeperService.ts:1523-1531 | a new long with leverage two to nine and at least 45 quote units of notional is safe at its entry price |
| Liquidation.FreshLongAtTen | backend/src/services/orderKeeperService.ts:1523-1531 | at leverage ten it is unsafe if and only if rounding went down |
| Liquidation.StoredEstimateExactly | backend/src/services/orderKeeperService.ts:1518-1531 | for every long, the estimate before rounding is strictly below the price that liquidates if and only if a million times leverage times collateral is below the scaled notional times ten times leverage plus 81 |
| Liquidation.StoredPriceExactly | backend/src/services/orderKeeperService.ts:1518-1531 | for every long, the rounded price that is stored is strictly below the one that liquidates if and only if the collateral is below a bound in the entry and the stored price |
| Liquidation.StoredPriceIsLow | backend/src/services/orderKeeperService.ts:1518-1531 | that holds for every new long above one per cent with leverage two or more and a hundred thousand quote units of shares, with the rounded collateral of its row |
| Liquidation.StoredPriceCanBeHigh | backend/src/services/orderKeeperService.ts:1518-1531 | at one basis point, 1 is stored while five ninths liquidate |
| BookDepth.AggregateByPrice | backend/src/services/orderBookService.ts:106-134 | distinct, strictly sorted prices; sizes and counts are sums over the rows with something left; only worse prices are cut |
| BookDepth.FirstLevelIsBest | backend/src/services/orderBookService.ts:106-134 | the first level is the best live row of those fetched, and there is none only if none is live |
| BookDepth.LimitKeepsBestExactly | backend/src/services/orderBookService.ts:36-53 | the row limit keeps the best price if and only if a live row is among those fetched or none exists |
| BookDepth.BetterLevelsAreComplete | backend/src/services/orderBookService.ts:36-58 | a level strictly better than the last fetched row has its full size and count |
| BookDepth.RunShowsBest | backend/src/services/orderBookService.ts:23-58 | in every run and for every positive depth the first level is the best price among all listed limit orders, and a side is empty if and only if nothing is listed |
| BookDepth.QuietSpread | backend/src/services/orderBookService.ts:141-172 | once matching is at rest, the book of one token type has a positive spread and the market price lies in it |
| BookDepth.MarketPriceIsPositive | backend/src/services/orderBookService.ts:141-172 | in every run the market price is positive, so the portfolio never mistakes it for a missing one |
| BookDepth.MarketPriceFollowsBook | backend/src/services/orderBookService.ts:141-172 | in every run, with one side only the market price is the best listed price of that side, with none the last price or one half, with both the floored middle |
| BookDepth.MixedSpreadExactly | backend/src/services/orderBookService.ts:23-34 | at rest the book without a token type shows its bid below its ask if and only if no bid of one token reaches an ask of the other |
| BookDepth.MixedBookCanCross | backend/src/services/orderBookService.ts:23-34 | two placed orders reach a book at rest that shows a bid of 6000 above an ask of 4000 |
| OrderBookCache.CacheKeyInjective | backend/src/services/orderBookCache.ts:26-27 | two requests share a key only if market, outcome, depth and token type agree, whatever characters market ids contain |
| OrderBookCache.OrderBookCache.GetOrderBook | backend/src/services/orderBookCache.ts:26-89 | memory, then Redis, then database, and what each case leaves in the two caches |
| OrderBookCache.OrderBookCache.Invalidate | backend/src/services/orderBookCache.ts:94-106 | exactly the key without a token type goes |
| OrderBookCache.OrderBookCache.InvalidateMarket | backend/src/services/orderBookCache.ts:111-128 | exactly the keys with the market's prefix go |
| OrderBookCache.OrderBookCache.Cleanup | backend/src/services/orderBookCache.ts:133-140 | exactly the expired entries of the memory map go |
| OrderBookCache.RunsKeepInv | backend/src/services/orderBookCache.ts:26-140 | in every run each entry holds the book that a request with its key had at an instant its expiry still remembers |
| OrderBookCache.AnswersAreRecent | backend/src/services/orderBookCache.ts:9-89 | whatever any of several servers answers was the database's book for exactly that request less than 1500 ms ago |
| OrderBookCache.BoundIsReached | backend/src/services/orderBookCache.ts:9-89 | a book 1499 ms old can be served |
| OrderBookCache.RefreshIsRemembered | backend/src/services/orderBookCache.ts:26-89 | a forced refresh answers the database's book; that server repeats it until 500 ms have passed, and another one with nothing in memory until 1000 ms have |
| OrderBookCache.GetLeavesOtherRequests | backend/src/services/orderBookCache.ts:26-89 | answering one request changes the answer to no other on any server |
| OrderBookCache.CleanupChangesNoAnswer | backend/src/services/orderBookCache.ts:133-140 | the sweep changes no answer |
| OrderBookCache.InvalidateReachesOneRequest | backend/src/services/orderBookCache.ts:94-106 | invalidation refreshes one request and changes the answer to no other |
| OrderBookCache.PrefixNamesMarket | backend/src/services/orderBookCache.ts:111-128 | with ids free of colons a key has a market's prefix if and only if it is that market's |
| OrderBookCache.MarketInvalidationRefreshes | backend/src/services/orderBookCache.ts:111-128 | afterwards that server answers every request for the market from the database |
| Base58.IndexOfIsPosition | backend/src/services/authService.ts:242-250 | a character's digit is its position in the alphabet, and -1 outside it |
| Base58.PushDigit | backend/src/services/authService.ts:251-267 | multiply, add, carry and push take the working bytes from value v to 58v + digit, without a superfluous high byte |
| Base58.PropagateCarry | backend/src/services/authService.ts:256-261 | the carry pass leaves bytes, and a carry, of the same value |
| Base58.PushCarry | backend/src/services/authService.ts:263-266 | pushing the carry keeps the value and ends in a high byte other than zero |
| Base58.Base58ToBytes | backend/src/services/authService.ts:240-282 | fails exactly outside the alphabet; otherwise bytes in 0..255 whose big-endian value is the string's base-58 value, with one leading zero per leading '1', and one more if there is nothing else |
| Base58.DecodingIsDetermined | backend/src/services/authService.ts:240-282 | those three facts leave one answer only |
| Base58.DecodingIsInjective | backend/src/services/authService.ts:240-282 | no two strings decode to the same bytes |
| Base58.EncodeAfterDecode | backend/src/services/authService.ts:269-276 | the minimal encoder gives a decoded string back if and only if it has a character other than '1' |
| Base58.DecodeAfterEncode | backend/src/services/authService.ts:269-276 | the decoder gives encoded bytes back if and only if one of them is not zero |
| BetaGate.BetaGateService.EvalRedeemScript | backend/src/betaGate/service.ts:49-82 | the script redeems a live, unredeemed code once, removes its expiry and grants access |
| BetaGate.BetaGateService.RedeemCode | backend/src/betaGate/service.ts:246-323 | an undisturbed request: a bad signature changes nothing, any other answer consumes the challenge |
| BetaGate.BetaGateService.SeedCode | backend/src/betaGate/service.ts:446-469 | adds a code exactly when no live one is there |
| BetaGate.BetaGateService.CheckAccess | backend/src/betaGate/service.ts:368-386 | access is the unexpired grant of the lower-cased wallet |
| BetaGate.StepKeepsInvExactly | backend/src/betaGate/service.ts:446-469 | every step keeps the gate's invariant if and only if it is not a seeding write over a redeemed code |
| BetaGate.RunsKeepInv | backend/src/betaGate/service.ts:246-323 | so it holds in every interleaving with undisturbed seeding |
| BetaGate.AtomicSeedingIsUndisturbed | backend/src/betaGate/service.ts:446-469 | if each seeder's write directly follows its own lookup, seeding is undisturbed |
| BetaGate.RedeemedAtMostOnce | backend/src/betaGate/service.ts:246-323 | with undisturbed or with atomic seeding, each code is redeemed at most once and each nonce succeeds at most once |
| BetaGate.RedeemedForGood | backend/src/betaGate/service.ts:49-82 | likewise, a redeemed code stays redeemed by the same wallet through every continuation and does not expire, even if it was seeded with an expiry |
| BetaGate.GrantsAreEarned | backend/src/betaGate/service.ts:49-82 | likewise, every access grant names a code redeemed by its wallet |
| BetaGate.FullRedemption | backend/src/betaGate/service.ts:200-323 | a request with a fresh nonce for a live, unredeemed code succeeds |
| BetaGate.ChallengeIsUsedOnce | backend/src/betaGate/service.ts:246-323 | in every run, once a request has deleted its challenge, no later request passes its read with that nonce |
| BetaGate.SeedingRaceRedeemsTwice | backend/src/betaGate/service.ts:446-469 | a reachable run that redeems one code twice |
| Referrals.LevelIsHighestReached | backend/src/models/SpacePoints.ts:76-83 | the level is the highest whose threshold has been reached |
| Referrals.ReferralService.ApplyReferralCode | backend/src/services/referralService.ts:143-235 | succeeds exactly for a known foreign code and a wallet not yet referred, and leaves a pending referral |
| Referrals.ReferralService.AddCommentPoints | backend/src/services/referralService.ts:349-377 | a comment earns points exactly while fewer than three have that day |
| Referrals.ReferralService.ClaimDailyBonus | backend/src/services/referralService.ts:382-416 | the daily bonus is paid exactly when the last one was not paid that day |
| Referrals.ReferralService.CreditReferrerOnFirstTrade | backend/src/services/referralService.ts:511-552 | credits exactly when the referral is pending and the referrer has a record |
| Referrals.ApplyRegisters | backend/src/services/referralService.ts:186-205 | applying a code without a record is registering and then applying |
| Referrals.ApplyExact | backend/src/services/referralService.ts:186-229 | what applying a code leaves behind: a hundred bonus points and the referrer, one pending referral worth ten thousand, the wallet's own code if it is new |
| Referrals.DailyBonusIsOnce | backend/src/services/referralService.ts:382-416 | whatever happens within a day, a second claim of its bonus changes nothing |
| Referrals.CommentsAreCapped | backend/src/services/referralService.ts:349-377 | within a day the count of paid comments is the smaller of three and the comments made |
| Referrals.RunsKeepInv | backend/src/services/referralService.ts:143-552 | after every run the total is the sum of its parts, the level follows, and referral points are 10000 for each completed referral; interleaved credit calls for one trader credit once |
| Referrals.ReferrerIsFinal | backend/src/services/referralService.ts:171-184 | a wallet's referrer never changes and a completed referral stays completed |
| Referrals.FreshAwardIsAtomic | backend/src/services/referralService.ts:282-416 | an award saved over the row it was read from is the atomic operation |
| Referrals.StaleAwardExact | backend/src/services/referralService.ts:282-416 | for a trading award, comment or daily bonus read in one state of any run and saved in any later one: the total is the sum of its parts if and only if the two parts it does not write are unchanged, and nothing is lost if and only if no points at all came in between |
| Referrals.StaleAwardIsReached | backend/src/services/referralService.ts:511-552 | a run in which a referral credit comes in between and ten thousand points are missing from the total |
| Referrals.StaleCommentIsReached | backend/src/services/referralService.ts:349-377 | a run in which a trading award comes in between a comment's read and save and a thousand points are missing, with referral and bonus points unchanged |
| AutoResolver.Market.ResolveOne | backend/src/services/autoResolverService.ts:72-125 | what the row becomes after a landed, rejected or failed transaction and the self-healing read |
| AutoResolver.Market.FinalizeOne | backend/src/services/autoResolverService.ts:153-216 | likewise, and when liquidity recovery is launched for which outcome |
| AutoResolver.ConfirmedResolveCatchesUp | backend/src/services/autoResolverService.ts:72-100 | in every run a resolution confirmed and saved before the chain moves on leaves status and outcome of the row equal to the chain's, whatever happens in between |
| AutoResolver.ConfirmedFinalizeCatchesUp | backend/src/services/autoResolverService.ts:153-180 | likewise a finalization; the outcome agrees exactly when the row had one or the chain has none, and recovery is launched exactly with seed orders |
| AutoResolver.ReconcileCatchesUp | backend/src/services/autoResolverService.ts:100-216 | likewise the self-healing after a readable state; that of a finalization launches recovery exactly for a finalized market with an outcome and seed orders |
| AutoResolver.FullResolution | backend/src/services/autoResolverService.ts:72-180 | an undisturbed resolution and finalization of an active market end with both sides finalized for the winner, and recovery launched exactly with seed orders |
| AutoResolver.StepKeepsInvExactly | backend/src/services/autoMarketKeeperService.ts:484-495 | every step keeps the row behind the chain if and only if it is not a failed read of a live account |
| AutoResolver.DatabaseStaysBehind | backend/src/services/autoResolverService.ts:72-216 | in every interleaving with successful reads the row is never ahead of the chain, names no other outcome, and recovery starts only after finalization, for the chain's outcome |
| AutoResolver.FailedReadIsReached | backend/src/services/autoMarketKeeperService.ts:484-495 | a run that ends with a market resolving on chain and invalid in the database |

## Left out

- Solana transactions, Anchor accounts, address derivation, token accounts, compute budgets: only the two flags, the price and the size of a match state remain.
- Routes, validation, WebSocket messages, notifications, logging, metrics, rate limits, sessions and tokens: plumbing without shared invariants.
- Signatures and nonces: a signature check is a Boolean, a nonce or generated code is any value (a nonce any unused one).
- Price selection for market orders in `placeOrder`, and the balance checks before it: the model starts from the price the order was created with.
- The slippage errors of `executeMatch` (orderKeeperService.ts:725 and 736): they are caught and logged.
- OrderRuns.TradesAreAcceptable: the price of a trade is the proposed one; between a market and a limit order the keeper takes the price from the orders on chain instead (orderKeeperService.ts:711-741), which KeeperAccounting.SettledPricesAccepted bounds by both on-chain prices.
- Expiry, pausing, fees, margins and vault balances on chain: each only makes an instruction fail, and a call may end at any time.
- KeeperAccounting.BuysWithinQuantity: two match states validated side by side for one buy order can both settle in this model; the margin and debt checks that may refuse the second one are not modelled.
- KeeperAccounting.SharesAreConserved: sell orders, whose shares the escrow bounds; orders are not cancelled on chain; a cancellation hands what is in escrow back to the seller and makes later instructions on the order fail.
- `updateOrderFilled`, `markOrderExecuted`, the sync-to-filled repair (the skip that goes with it is modelled), the status change after a buyer step without a database record (orderKeeperService.ts:1126-1146) and the status route: they write values that no invariant constrains.
- `matchMarketOrders`: a second caller of `executeMatch` whose match size comes from the chain; the protocol's calls carry arbitrary sizes, so its effect on settlement is covered, its own loop is not.
- `cleanupStaleOrders` and order expiry.
- KeeperProtocol.FilledNeverOverCounts: volume and positions are not part of the concurrent model; the volume update is one SQL statement, the position rows are read and saved like order rows.
- KeeperProtocol.RunsKeepInv: is safety only; a pair whose keepers all stop stays unsettled, and `UndisturbedCallSettles` covers the call that completes.
- OrderRuns.RunsKeepInv: one market and outcome; the sum of buy and sell fills over several is a sum of such runs.
- The liquidation queue and the assignment of markets to liquidators: position discovery is a placeholder in the source.
- Liquidation.VerdictsAgreeExactly: stated for six quote decimals, because the executor has no notion of others.
- Liquidation.StoredPriceIsLow: rows at one per cent or less, or below a hundred thousand quote units of shares; StoredPriceExactly covers all. It concerns rows for which the chain holds no liquidation price; one read from the chain is stored as it is.
- KeeperProtocol.SingleSettlementExact: one settlement; StepKeepsCallsFitExactly, RowsWithinSettled and AdmissionDecides have no such limit.
- PositionLedger.FillConservesShares: the seller's reduction leaves collateral and debt as they were, as the source does; their release is not modelled there.
- Realised profit, resolved positions, on-chain position sync.
- The last traded price of the book: any value, since it comes from another query.
- OrderBookCache.AnswersAreRecent: fetching and storing are one instant and clocks agree; a slow fetch adds its own duration to the bound.
- OrderBookCache.OrderBookCache.InvalidateMarket: market ids contain no glob characters, which Redis would interpret in the key pattern.
- Referral codes are compared as stored; upper-casing, and replacing a code by a Twitter name, are not modelled.
- Referrals.RunsKeepInv: points operations run one after the other except for the credit, whose lookup and commit interleave; StaleAwardExact says what unlocked awards can do.
- The Binance price rule that picks the winning outcome, and the challenge period.
- Rounding of JavaScript floating point beyond exact arithmetic.
