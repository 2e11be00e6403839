# Verified model of the seer prediction market

seer is a prediction market: users bet on outcomes whose prices a market maker
sets with the liquidity-sensitive logarithmic scoring rule, money moves through
a double-entry ledger, and prices, balances and chat reach browsers over
WebSockets. This project models the parts of it whose correctness is hardest to
see from the code and proves what they promise.

| files | what they cover |
|---|---|
| `ExpLog`, `Vectors`, `Pricing`, `MarketMaker` | the cost function, its prices, and what they guarantee the market maker over whole runs of trades |
| `Bisection`, `Quotes`, `Engine`, `Approximation`, `Browser`, `EvenMarket` | the search and its rounding, what quotes guarantee, the engine as it runs (loops, buffers, error returns), the engine with inexact costs, the browser's copy, and concrete markets |
| `Ledger` | the ledger's stored function and its invariant over every sequence of attempts |
| `Exchange`, `TransactionManager` | the database as a state, each transaction as an atomic step, and the transactions statement by statement |
| `ExchangeInvariant`, `Solvency`, `CapDiscipline`, `Settlement`, `Liability`, `Cancellation`, `ExactlyOnce` | what every reachable state satisfies: consistency, covered markets, prices below the cap, exact payouts and refunds against what bets are promised, exactly-once, finality |
| `CommitConditions` | exactly when each transaction commits, in terms of the tables, what it writes, and which answer a refused one gets |
| `InexactExchange` | the exchange run by an engine with inexact costs |
| `Counterexamples` | concrete runs on which no bets go wrong |
| `Hub`, `ChatLimiter`, `StateCache`, `Versions` | the WebSocket hub, the chat rate limiter, the version-guarded cache and its clients, and their join with the database |
| `Framing`, `Json`, `PriceInput` | newline framing, the serialized messages it carries and their reader, and digit-string rounding |
| `Options` | values that may be missing |

`dafny verify dfyconfig.toml` checks everything.

## How to read the results

**Arithmetic.** Pricing is over exact reals, for ANY pair of functions `exp`,
`ln` with exp(a + b) = exp(a) exp(b), exp(x) >= 1 + x, and exp(ln y) = y for
y > 0; the real exponential and logarithm are such a pair. Rounding is modelled
where the code picks a direction: truncation to 12 decimals, and the average
price rounded up. Beyond that, `Approximation` proves the quotes and bounded
loss for an engine whose computed costs are each within err of the exact ones,
with `InexactExchange` carrying bounded loss down to the tables, and
`Bisection` proves the search for midpoints rounded with a bounded error, shows
that the engine's 30 significant digits meet that bound, and gives the exact
condition for truncation on a grid. The search of the engine is written as one
loop that writes the shared buffer, because a function value cannot. Guards of
the source that exact arithmetic makes unreachable (a sum of exponentials that
is not positive, an invalid softmax, a liquidity that is not positive) have no
branch here, because they are proved impossible.

**The main chain.** Gibbs' inequality gives that prices support the cost
function; from that come bounded loss, a true upper bracket for the search, no
profit from a round trip, and growth below the cap. `Solvency` and `Settlement`
carry bounded loss down to the tables: in every reachable state of every
interleaving of transactions without no bets, what a market took in covers its
open bets on any outcome except for alpha * n * seed * ln n, and a house account
funded with that much, plus the shares of the outcome that were cashed out and
are paid again, settles any outcome.

**State machine.** A transaction is a step that commits or leaves the database
unchanged; a run is any sequence of them, failing ones included. Money and
shares are integer counts of 10^-12. The rows of a grouped query come in any
order. The account a bet is paid from is the one the handler looks up for the
user, so a bet from anyone else's account is refused. Market identifiers,
account identifiers and the clock are parameters.
A transfer that is neither a bet, a cash-out nor a payout (a deposit, the
funding of a house) is taken to use a key of at most 36 characters, as the
public requests must; all accounts of a market hold its one currency.

**Where the code does not do what one might expect**, it is modelled as it is,
and the exact condition is proved:

- A no bet adds shares to the outcomes of every other market as well
  (`OtherMarketsUntouchedExactlyWhen`), and a no bet's cash-out is priced on one
  hedge and committed with another (`HedgeIsAsPricedExactlyWhen`);
  `NoBetGoesWrong` is a concrete run where both happen. Guarantees over runs of
  the database are therefore for runs without no bets; quotes, affordability,
  maximality, round trips, bounded loss of the pricing rule itself, exactly-once,
  finality, settlement and cancellation are for both sides.
- Settlement pays every bet on the winning outcome and no other, cashed out or
  not and on either side. So it pays shares that were cashed out, it pays the
  bets against the winner, which lost, and it does not pay the bets against the
  other outcomes, which won. `SettlementGap` gives the exact difference for every
  account, `SettleHonoursExactlyWhenOffset`, `YesSettlementHonoursExactlyWhen` and
  `UncashedMarketPaysOpenExactlyWhen` when it vanishes, and
  `NoBetIsSettledWrongly` is a concrete run where it does not.
- Cancellation refunds every bet on the market, cashed out or not, so a bettor
  who cashed out is paid twice: `CancelAfterTrading` gives every balance, and
  `CancelCommitsExactlyWhenReserved` when the house can pay for it.
- The browser's search starts at `spend` shares instead of zero
  (`BrowserPayoutAffordableExactlyWhen`; `BrowserShowsTooMuch` is a concrete
  market). Its cash-out preview compares with `>` where the server compares with
  `>=` (`PreviewAgreesExactlyWhen`); the two differ only at a price equal to the
  cap (`PreviewCanDisagree`), and since a stored cap has 12 decimals that takes a
  price with exactly 12 decimals.
- A user's connection counter can stay below the number of connections
  (`ExactUnlessOverlooked`, `CountersCanUndercount`).
- Rounding to zero decimals is not idempotent when it goes up
  (`RoundIsIdempotentExactlyWhen`, `RoundingTwiceCanDiffer`).
- Buying the no side of a market with a single outcome divides by a price sum of
  zero; the model returns an error there.

## Model

| member | source | states |
|---|---|---|
| `Pricing.Gibbs` | backend/internal/market/ls_lsmr.go:80-177 | no distribution s scores a vector x above ln of the sum of exp x, once its entropy is added: the inequality behind every market-maker guarantee |
| `Pricing.GibbsAttained` | backend/internal/market/math_util.go:40-121 | equality holds at the softmax of x, the distribution the engine computes |
| `Pricing.SoftmaxIsDistribution` | backend/internal/market/math_util.go:52-117 | softmax shares are positive and sum to one |
| `Pricing.PricesSumAboveOne` | backend/internal/market/ls_lsmr.go:356-413 | each price is positive and at least its softmax share; the prices sum to 1 + n * alpha * H, which is at least 1 |
| `Pricing.CostIsValueAtOwnPrices` | backend/internal/market/ls_lsmr.go:330-417 | C(q) = sum of q_i * p_i(q): links the cost and the price function, which never call each other |
| `Pricing.CostAboveOtherPrices` | backend/internal/market/ls_lsmr.go:330-417 | the prices at q never value another vector above that vector's own cost |
| `Pricing.PricesSupportCost` | backend/internal/market/ls_lsmr.go:80-177 | for all valid q and q', C(q') - C(q) lies between the move valued at the prices of q and the move valued at the prices of q' |
| `MarketMaker.MoveCost` | backend/internal/market/ls_lsmr.go:230-328 | x shares on either side cost at least x times the side's price before and at most x times its price after |
| `MarketMaker.CostGrows` | backend/internal/market/ls_lsmr.go:274-314 | the cost of a purchase grows strictly with its size, on either side |
| `MarketMaker.CostAboveEachQuantity` | backend/internal/market/ls_lsmr.go:108-170 | C(q) is at least every quantity, so the maker can always pay any single outcome out of the cost |
| `MarketMaker.CostBounds` | backend/internal/market/ls_lsmr.go:108-170 | max q <= C(q) <= max q + b ln n |
| `MarketMaker.SeedCost` | backend/internal/market/admin.go:75-86 | a freshly seeded market costs its seed plus alpha * n * seed * ln n |
| `MarketMaker.QuantitiesOfRun` | backend/internal/market/transactions.go:236-245 | over any run, on either side: each quantity is its start, plus the open shares that pay on it, plus all shares ever cashed out |
| `MarketMaker.RunInvariant` | backend/internal/market/ls_lsmr.go:316-327 | over any run of legal trades on either side, whose costs are off by at most half the slack each: takings cover the growth in cost less the shares cashed out, less the slack per trade |
| `MarketMaker.SlacksIsProduct` | backend/internal/market/ls_lsmr.go:316-327 | the slack allowed to n trades is n times the slack of one |
| `MarketMaker.BoundedLoss` | backend/internal/market/ls_lsmr.go:641-700 | over every run from a fresh market, of purchases and cash-outs on either side, and whichever outcome wins: takings less the open shares that pay (yes bets on it, no bets on any other) are at least -(alpha * n * seed * ln n), less the slack per trade |
| `MarketMaker.CostOfGrowth` | backend/internal/market/ls_lsmr.go:80-177 | raising all outcomes by c and outcome i by a further open_i costs at least c plus the further growth at the opening prices |
| `MarketMaker.OpenSharesWerePaidFor` | backend/internal/market/ls_lsmr.go:230-328 | from any state, takings of a run are at least the open shares valued at the opening prices |
| `MarketMaker.NoSureProfit` | backend/internal/market/ls_lsmr.go:615-702 | no run of purchases and cash-outs gains on every outcome; one that cashes everything out never profits |
| `Bisection.Narrow` | backend/internal/market/ls_lsmr.go:179-227 | the search ends for every f, monotone or not, with a bracket no wider than the tolerance whose lower end is the start or not positive and whose upper end is the start or positive, for any rounding of the midpoints inside the bracket whose error is below half the tolerance |
| `Bisection.Bisect` | backend/internal/market/ls_lsmr.go:179-227 | the loop returns exactly that lower end, or the source's error for a bad bracket, a bad tolerance or a failing f |
| `Bisection.CutIsProportional` | backend/internal/market/ls_lsmr.go:11-16 | cutting every number toward zero to a number of significant digits leaves an error of at most one part in the least number with that many digits |
| `Bisection.MidpointRounds` | backend/internal/market/ls_lsmr.go:204-214 | rounding the sum of the ends and then its half keeps a midpoint within twice that fraction, and a little more, of the upper end |
| `Bisection.ThirtyDigitsSuffice` | backend/internal/market/ls_lsmr.go:11-16 | the engine's 30 significant digits meet the condition of `Narrow` and `Bisect` at tolerance 10^-12 whenever the upper end is at most 2 * 10^16 |
| `Bisection.CoarseRoundingNeverEnds` | backend/internal/market/ls_lsmr.go:196-220 | where only a bound on the rounding is known, the condition is tight: for every tolerance up to twice the bound some bracket, function and rounding stay above the tolerance for ever |
| `Bisection.TruncationEndsExactlyWhen` | backend/internal/market/ls_lsmr.go:196-220 | for midpoints truncated toward zero to a grid of spacing g, from a grid point to `rest` past another, the search ends for every function if and only if the first width or g + rest is within the tolerance |
| `Engine.ComputeB` | backend/internal/market/ls_lsmr.go:35-78 | the loop returns alpha times the sum of the quantities, or the first error in the source's order |
| `Engine.ShiftCancels` | backend/internal/market/ls_lsmr.go:108-170 | m + ln of the sum of exp(x - m) is ln of the sum of exp x, for every shift m |
| `Engine.ShiftedSumInRange` | backend/internal/market/ls_lsmr.go:108-170 | shifted by the largest score, the sum of exponentials lies between 1 and n |
| `Engine.ShiftedCost` | backend/internal/market/ls_lsmr.go:108-170 | the shifted form of the cost is the plain form the browser uses |
| `Engine.Cost` | backend/internal/market/ls_lsmr.go:80-177 | the accumulating loops return the plain cost b * ln(sum exp(q_i / b)), or the first error |
| `Engine.SoftmaxB` | backend/internal/market/math_util.go:40-121 | the buffer-filling loops return the unshifted softmax |
| `Engine.Prices` | backend/internal/market/ls_lsmr.go:330-417 | the loops return softmax share plus alpha times entropy for every outcome, or the first error |
| `Engine.PricesNormalized` | backend/internal/market/ls_lsmr.go:419-473 | the loops return every price divided by the sum of the prices |
| `Engine.NormalizedPrices` | backend/internal/market/ls_lsmr.go:440-469 | normalized prices are positive, proportional to the prices, sum to one and are ordered exactly as the quantities are, in both directions |
| `Engine.PricesFollowQuantities` | backend/internal/market/ls_lsmr.go:330-417 | an outcome is at least as dear as another if and only if it has at least as many shares outstanding |
| `Engine.WriteNext` | backend/internal/market/ls_lsmr.go:274-314 | the closure's shared buffer holds the moved vector after every call, whatever earlier calls left in it |
| `Engine.EvaluateExcess` | backend/internal/market/ls_lsmr.go:274-314 | one evaluation of the closure writes the shared buffer, runs the cost loops on it and gives the cost of x shares above the budget |
| `Engine.SearchShares` | backend/internal/market/ls_lsmr.go:179-316 | the halving loop over one shared buffer, evaluating the closure at every midpoint, returns the result of the search specified on the pure excess |
| `Engine.GetMaxSharesCanBuy` | backend/internal/market/ls_lsmr.go:230-328 | the method, searching with that loop, returns the share count specified by Quotes.MaxShares, whose affordability and maximality are proved below, with every error path |
| `Engine.PossibleGainPriceForBuy` | backend/internal/market/ls_lsmr.go:530-613 | the method returns the quote specified by Quotes.Buying, with every error path |
| `Engine.PossibleGainForSell` | backend/internal/market/ls_lsmr.go:615-702 | the method returns the payout specified by Quotes.Selling: an error, a refusal at the cap, or the truncated gain |
| `Amounts.Truncate` | backend/internal/market/math_util.go:124-134 | truncation toward zero at 12 decimals: never away from zero, and off by less than one unit |
| `Amounts.AwayFromZero` | backend/internal/market/math_util.go:136-155 | the average price is rounded away from zero by less than one unit |
| `Quotes.QuoteExistsExactlyWhen` | backend/internal/market/ls_lsmr.go:230-272 | a share count is quoted if and only if the vector, alpha, index and budget are valid and the side has an outcome on it |
| `Quotes.QuoteIsAffordable` | backend/internal/market/ls_lsmr.go:316-327 | the quoted purchase costs at most the budget, on either side |
| `Quotes.QuoteIsNearlyMaximal` | backend/internal/market/ls_lsmr.go:230-328 | any purchase larger by more than 2 * 10^-12 shares costs strictly more than the budget |
| `Approximation.ApproximateQuoteOverspendsLittle` | backend/internal/market/ls_lsmr.go:179-328 | if every computed cost is within err of the exact one and midpoints are rounded finely enough, the share count found, before truncation and after it, costs at most the budget plus 2 * err, on either side |
| `Approximation.ApproximateQuoteIsLegal` | backend/internal/market/ls_lsmr.go:274-328 | the purchase such an engine quotes is a legal trade with slack 2 * err |
| `Approximation.ApproximateQuoteIsNearlyMaximal` | backend/internal/market/ls_lsmr.go:230-328 | it is nearly maximal: when the search starts from budget over price or above, any purchase larger by more than the tolerance and one unit costs more than the budget less 2 * err |
| `Approximation.ApproximateCashOutIsLegal` | backend/internal/market/ls_lsmr.go:641-700 | so is the cash-out it quotes |
| `Approximation.InexactEngineLosesLittle` | backend/internal/market/ls_lsmr.go:230-328 | bounded loss for every run such an engine accepts: at most alpha * n * seed * ln n and 2 * err for each trade |
| `InexactExchange.InexactTakingsCoverOpenBets` | backend/internal/market/transactions.go:111-470 | bounded loss in the tables of an exchange whose bets and cash-outs commit what such an engine quotes: in every state of a run without no bets a market's money taken is at least its open shares on any outcome less alpha * n * seed * ln n and 2 * err for each trade committed on it |
| `Quotes.CashOutIsCovered` | backend/internal/market/ls_lsmr.go:615-702 | a positive cash-out is at most the shares less the cost of the hedge |
| `Quotes.RoundTripNeverProfits` | backend/internal/market/ls_lsmr.go:615-702 | buying and cashing out at once never pays more than the budget, on either side, for every state, budget and cap |
| `Quotes.RiseBelowCap` | backend/internal/market/ls_lsmr.go:577-592 | a yes purchase of x shares that ends with prices below the cap raised the cost by less than cap * x |
| `Quotes.AcceptedPurchase` | backend/internal/market/ls_lsmr.go:564-613 | an accepted purchase leaves all prices below the cap, costs a positive amount within the budget, and reports the average price rounded up by less than one unit |
| `Quotes.PurchaseAcceptedExactlyWhen` | backend/internal/market/ls_lsmr.go:530-613 | a purchase is accepted if and only if the input is valid, a positive share count is found for the budget and every price after buying it is below the cap; the quoted gain is that share count |
| `Quotes.AcceptedPurchaseIsNearlyMaximal` | backend/internal/market/ls_lsmr.go:564-613 | an accepted purchase, on either side, is nearly maximal: any larger by 2 * 10^-12 shares or more costs strictly more than the budget |
| `Quotes.PurchaseRefusals` | backend/internal/market/ls_lsmr.go:530-613 | which error a refused purchase gets, for every input: no outcomes, alpha, budget, index, vector, no positive gain, or a price at the cap |
| `Quotes.CashOutPaidExactlyWhen` | backend/internal/market/ls_lsmr.go:615-702 | a cash-out of a valid position is paid if and only if the hedge on the opposite side leaves every price below the cap, and a positive payout is the shares less the exact cost of the hedge, cut to 12 decimals |
| `Quotes.CashOutRefusals` | backend/internal/market/ls_lsmr.go:615-702 | which error a cash-out of no valid position gets |
| `Quotes.ObjectionExactly` | backend/internal/market/ls_lsmr.go:35-78 | which complaint a vector gets, by what is wrong with it: empty, alpha, a negative quantity, all zero |
| `Browser.Bisect` | frontend/seer/src/lib/lslmsr/lslmsr.ts:11-28 | the browser's loop ends and returns the lower end, accepting a bracket that is already narrow or inverted |
| `Browser.OtherPricesBySubtraction` | frontend/seer/src/lib/lslmsr/lslmsr.ts:98-101 | all prices less the outcome's own is the price of the no side |
| `Browser.BrowserAgreesWithServer` | frontend/seer/src/lib/lslmsr/lslmsr.ts:87-122 | when its start is affordable, the browser's payout and the server's gain differ by at most 10^-3 one way and 2 * 10^-12 the other |
| `Browser.BrowserPayoutAffordableExactlyWhen` | frontend/seer/src/lib/lslmsr/lslmsr.ts:93-122 | because the search starts at `spend` shares, the payout shown costs at most the spend if and only if `spend` shares do |
| `Browser.DearSideIsNeverAffordable` | frontend/seer/src/lib/lslmsr/lslmsr.ts:93-101 | once the side's price exceeds one, the browser's payout is never affordable |
| `EvenMarket.EvenPrices` | backend/internal/market/ls_lsmr.go:330-417 | in a market of n outcomes with equal quantities every price is 1/n + alpha * ln n |
| `Browser.BetPreviewAgrees` | frontend/seer/src/lib/lslmsr/lslmsr.ts:125-166 | when its start is affordable, the payout the preview of a bet shows, cut to cents, costs at most the spend and is within a cent and the two tolerances of what the server sells |
| `Browser.BetPreviewExactlyWhen` | frontend/seer/src/lib/lslmsr/lslmsr.ts:125-166 | the preview offers a bet if and only if no price after the payout exceeds the cap, and then shows the payout cut to cents |
| `EvenMarket.BrowserShowsTooMuch` | frontend/seer/src/lib/lslmsr/lslmsr.ts:125-166 | a concrete failure on a market that can be created: with three outcomes at 100 shares, alpha = 0.26 and cap 0.95, the preview offers one share for one unit of money on a no side, which costs more |
| `Browser.PreviewAgreesExactlyWhen` | frontend/seer/src/lib/lslmsr/lslmsr.ts:168-212 | the cash-out preview shows the server's payout cut to cents, and offers what the server refuses exactly when the dearest price after the hedge equals the cap |
| `EvenMarket.PreviewCanDisagree` | frontend/seer/src/lib/lslmsr/lslmsr.ts:204-208 | for the real cap that equals the dearest price after the hedge, the preview offers a cash-out that the server refuses; the source stores a cap with 12 decimals, so this needs a price with exactly 12 decimals |
| `Ledger.Store.CreateTransfer` | backend/migrations/000001_tables_init.up.sql:149-222 | moving balances, checking policies, claiming the key and writing two entries in that order takes the books exactly where one atomic posting takes them; every exception leaves them as they were |
| `Ledger.Store.OpenAccount` | backend/migrations/000001_tables_init.up.sql:68-82 | an account under a new identifier starts at balance and version zero, and nothing else changes |
| `LedgerInvariant.StepKeepsBooks` | backend/migrations/000001_tables_init.up.sql:134-222 | every account opening and transfer attempt keeps the books well kept: sign policies, two cancelling entries per transfer, contiguous versions, chained balances, distinct keys |
| `LedgerInvariant.ReachableBooksAreWellKept` | backend/migrations/000001_tables_init.up.sql:68-113 | every ledger reachable by any sequence of attempts, refused ones included, is well kept |
| `LedgerInvariant.BalanceIsTheFold` | backend/migrations/000001_tables_init.up.sql:103-113 | every balance is the sum of the account's entries |
| `LedgerInvariant.EntriesCancel` | backend/migrations/000001_tables_init.up.sql:211-218 | the entries of the first i transfers add up to zero, for every i |
| `LedgerInvariant.MoneyIsConserved` | backend/migrations/000001_tables_init.up.sql:191-218 | over any listing of all accounts, the balances add up to zero in every reachable ledger |
| `LedgerInvariant.EntriesOfAnAccountAreContiguous` | backend/migrations/000001_tables_init.up.sql:103-113 | of two consecutive entries of an account the later starts at the balance the earlier left and has the next version |
| `LedgerInvariant.KeyPostsOnce` | backend/migrations/000001_tables_init.up.sql:202-209 | once a key is used it stays used, and after any sequence of attempts every transfer under it is refused |
| `CommitConditions.TransferPostsExactlyWhen` | backend/migrations/000001_tables_init.up.sql:149-222 | a transfer is posted if and only if a positive amount goes between two different existing accounts of one currency under a new key that is not empty, and both accounts allow the sign of the balance it leaves; it then moves exactly that amount, and otherwise changes nothing |
| `ExchangeInvariant.StepKeeps` | backend/internal/market/transactions.go:111-270 | every transaction, committed or failed, keeps the database consistent: well-kept books, rows that name real accounts, outcomes and transfers, one house per market, statuses that agree with the settlement tables, payout keys used only by finished markets |
| `ExchangeInvariant.ReachableIsConsistent` | backend/migrations/000001_tables_init.up.sql:290-439 | every state reached from the empty database by any order of transactions is consistent |
| `ExchangeInvariant.SettleKeyInjective` | backend/internal/market/transactions.go:564-564 | distinct market and account pairs have distinct payout keys |
| `ExchangeInvariant.SettleKeyIsNoClientKey` | backend/internal/handlers/transactions.go:37-37 | a payout key is longer than the 36 characters a client may send, so it never collides with one |
| `ExchangeInvariant.PayoutsUseOwnKeys` | backend/internal/market/transactions.go:563-569 | paying out leaves every payout key of another market or account unused |
| `ExchangeInvariant.BetGainPositive` | backend/internal/market/transactions.go:55-63 | an accepted bet buys at least the wanted gain, which is more than the positive amount paid |
| `ExactlyOnce.UsedKeyNeverCommits` | backend/migrations/000001_tables_init.up.sql:202-209 | once a key is used, no later bet or cash-out under it commits in any interleaving, and trying changes nothing |
| `ExactlyOnce.DuplicateBetIsRefused` | backend/internal/market/transactions.go:200-229 | the same bet sent any number of times, with anything in between, is placed at most once |
| `ExactlyOnce.DuplicateCashoutIsRefused` | backend/internal/market/transactions.go:415-440 | nor does a key that cashed a bet out ever cash another one out, with anything in between |
| `ExactlyOnce.CashedOutAtMostOnce` | backend/internal/market/transactions.go:415-440 | once a bet is cashed out every later attempt fails, under whatever key, although the check for it ran outside the transaction |
| `ExactlyOnce.StaleLookupIsAccurate` | backend/internal/market/transactions.go:283-310 | the bet row read before the transaction is still the row when the transaction runs, after any interleaving |
| `ExactlyOnce.EachHasItsOwnTransfer` | backend/migrations/000001_tables_init.up.sql:410-439 | in every reachable state each bet and each cash-out has exactly one transfer of its own, with its parties, amount and key |
| `Lifecycle.FinishedForever` | backend/migrations/000001_tables_init.up.sql:322-334 | after a market is resolved or cancelled, in every interleaving its row and its ending never change and no bet or cash-out on it is added |
| `Lifecycle.FinishedRefusesAll` | backend/internal/handlers/admin_market.go:106-119 | on a finished market bets, cash-outs, settlement, cancellation, pausing and resuming all fail and change nothing, also when the handler's status reading was stale |
| `Lifecycle.AtMostOneEnding` | backend/migrations/000001_tables_init.up.sql:392-405 | in every reachable state a market is resolved or cancelled, never both, exactly when its status is final |
| `CommitConditions.BetCommitsExactlyWhen` | backend/internal/market/transactions.go:111-270 | a bet commits if and only if: its key is new and of 1 to 36 characters; its amount is between 0.1 and 10000 and its wanted gain above it; its market is opened and its closing time, if any, still ahead; the outcome is the market's and not the no side of two; the account is the user's, in the market's currency, with the amount on it; and the engine sells the wanted gain with all prices below the cap |
| `CommitConditions.BetChecksExactly` | backend/internal/market/transactions.go:128-198 | the checks before the transfer succeed exactly under those of the conditions that are not about the key's use, and give the share count found by the engine |
| `CommitConditions.CommittedBetIsFairlyPriced` | backend/internal/market/transactions.go:184-229 | the payout of a committed bet is right for the amount paid at the quantities before the bet, on either side: it costs at most the amount, and any payout larger by 2 * 10^-12 or more costs more |
| `CommitConditions.CommittedBetRow` | backend/internal/market/transactions.go:200-229 | a committed bet appends one row with the account, transfer, outcome, side, payout, amount and key, and moves the amount from the account to the market's house |
| `CommitConditions.CommittedBetWrites` | backend/internal/market/transactions.go:231-270 | beside row and transfer it writes the shares on its outcome, or for a no bet on every other outcome row, and one version of its market; no other account, row or table changes |
| `CommitConditions.BetRefusals` | backend/internal/market/transactions.go:111-198 | which answer a refused bet gets, the first of the source's checks that applies; an opened market before its closing time never answers that it was not found |
| `CommitConditions.CashoutCommitsExactlyWhen` | backend/internal/market/transactions.go:354-470 | a cash-out commits if and only if: its key is new and of 1 to 36 characters; the bet exists and was not cashed out; its market is opened and its closing time, if any, still ahead; and the engine pays a positive amount that reaches the least gain asked for and that the house has |
| `CommitConditions.CashoutPaysWhatWasAsked` | backend/internal/market/transactions.go:402-440 | a committed cash-out appends its row and pays the bettor, out of the house, at least the least gain asked for |
| `CommitConditions.CommittedCashoutIsItsWorth` | backend/internal/market/transactions.go:402-440 | what it pays is the bet's shares less the exact cost of hedging them at the market's quantities, cut to 12 decimals |
| `CommitConditions.CommittedCashoutWrites` | backend/internal/market/transactions.go:442-470 | beside row and transfer it writes the bet's shares on the other outcomes of its market and one version; no other account, row or table changes |
| `CommitConditions.CashoutRefusals` | backend/internal/market/transactions.go:354-413 | which answer a refused cash-out gets; it is about the gain exactly when the payout is not positive or below what was asked for |
| `CommitConditions.FindBetExactly` | backend/internal/market/transactions.go:283-310 | the lookup before a cash-out finds exactly the user's own bets that no cash-out row names |
| `CommitConditions.SettleCommitsExactlyWhen` | backend/internal/market/transactions.go:472-591 | a settlement commits if and only if the market is opened or paused, the winner is one of its outcomes, and its house holds the shares of all bets on the winner |
| `CommitConditions.SettleRecordsTheWinner` | backend/internal/market/transactions.go:508-522 | a committed settlement adds exactly the row that names the winner it was settled for; bets, cash-outs, quantities and all other rows stay, and the market becomes resolved at the next version |
| `CommitConditions.CancelCommitsExactlyWhen` | backend/internal/market/transactions.go:593-673 | a cancellation commits if and only if the market is opened or paused and its house holds all that was paid for bets on it |
| `CommitConditions.CancelRecordsIt` | backend/internal/market/transactions.go:612-624 | a committed cancellation adds exactly its row; bets, cash-outs, quantities and all other rows stay, and the market becomes cancelled at the next version |
| `CommitConditions.EndingRefusals` | backend/internal/market/transactions.go:472-591 | which answer a refused settlement or cancellation gets; once the market is found live it is always for want of money in the house |
| `CommitConditions.WinnerStaysRecorded` | backend/migrations/000001_tables_init.up.sql:392-397 | once a settlement commits, in every interleaving after it the resolution row names the outcome whose bets were paid |
| `CommitConditions.ReachableResolutionsNameOutcomes` | backend/migrations/000001_tables_init.up.sql:392-397 | in every reachable state each resolution names an outcome of its own market |
| `CommitConditions.CreateCommitsExactlyWhen` | backend/internal/market/admin.go:25-110 | a market is created if and only if its identifiers are new, it has outcomes, and its seed and alpha are positive; it starts as a draft at version zero with an empty house account of its own and every outcome at the seed |
| `CommitConditions.StatusCommitsExactlyWhen` | backend/internal/market/admin.go:130-156 | a status update commits if and only if the market exists and, when it is finished, keeps its status; nothing but the status changes |
| `CommitConditions.OpenCommitsExactlyWhen` | backend/migrations/000001_tables_init.up.sql:68-82 | an account is opened if and only if its identifier is new and it has an owner; it starts empty at version zero with the sign policies asked for, and nothing else changes |
| `CommitConditions.FundCommitsExactlyWhen` | backend/migrations/000001_tables_init.up.sql:149-222 | a deposit commits if and only if its key is of client length and the transfer is posted; only the two balances move |
| `Solvency.QuantitiesAfterBet` | backend/internal/market/transactions.go:236-245 | a committed bet moves its market's vector exactly as its quote assumed, on either side |
| `Solvency.OtherMarketsUntouchedExactlyWhen` | backend/internal/market/transactions.go:236-245 | a committed bet leaves the quantities of every other market alone if and only if it is on the yes side; a no bet raises every outcome of every other market by the shares bought |
| `Solvency.QuantitiesAfterHedge` | backend/internal/market/transactions.go:446-455 | a committed cash-out moves the vector as the hedge of a yes bet |
| `Solvency.HedgeIsAsPricedExactlyWhen` | backend/internal/market/transactions.go:446-455 | a committed cash-out leaves its market at the vector it was priced on if and only if the bet was on the yes side |
| `Counterexamples.NoBetGoesWrong` | backend/internal/market/transactions.go:236-245 | a concrete run that reaches a state where a no bet commits and moves another market, its cash-out commits with another hedge than it was priced on, and the unfunded market can then not be cancelled |
| `Solvency.BetLeavesPricesBelowCap` | backend/internal/market/transactions.go:184-195 | after every committed bet all prices of its market are below the cap |
| `Solvency.CashoutLeavesPricesBelowCap` | backend/internal/market/transactions.go:402-413 | after every committed cash-out of a yes bet all prices of its market are below the cap |
| `CapDiscipline.ReachableIsCapped` | backend/internal/market/transactions.go:184-195 | in every reachable state of every run without no bets, a market with at least one bet has all its prices below its cap |
| `CapDiscipline.CommittedBetRisesBelowCap` | backend/internal/market/transactions.go:184-195 | a committed yes bet raises the cost of its market by less than the cap for each share |
| `Solvency.RunKeepsCovered` | backend/internal/market/transactions.go:111-470 | every run of yes bets, cash-outs and all other transactions keeps every market covered: quantities are the seed plus shares bought plus shares hedged, and money taken covers the growth in cost less the shares cashed out |
| `Settlement.PaidBySettling` | backend/internal/market/transactions.go:524-531 | what settling pays in all: the open yes and no shares on the winner and all its cashed-out shares |
| `Liability.LiabilitySplit` | backend/migrations/000001_tables_init.up.sql:415-415 | the shares promised if w wins, per account or in all, are the open yes shares on w and the open no shares on every other outcome |
| `Liability.SettlementGap` | backend/internal/market/transactions.go:524-531 | the exact gap between what settling pays and what the open bets are promised, per account and in all: it pays the cashed-out shares on the winner and the open shares against it, and leaves unpaid the open no shares on every other outcome |
| `Liability.TotalGap` | backend/internal/market/transactions.go:524-531 | in the totals, the cashed-out shares are those of the cash-out rows |
| `Liability.SettleHonoursExactlyWhenOffset` | backend/internal/market/transactions.go:472-591 | a committed settlement gives every account exactly what its open bets are promised if and only if, for each account, the two payments without a promise make up for the promise without a payment |
| `Liability.YesSettlementHonoursExactlyWhen` | backend/internal/market/transactions.go:524-569 | where all bets on the market are yes bets, it does if and only if no bet on the winner was cashed out |
| `Liability.UncashedMarketPaysOpenExactlyWhen` | backend/internal/market/transactions.go:524-531 | on a market of three or more outcomes without cash-outs, settling pays every account what is promised, whichever outcome wins, if and only if all its bets are yes bets |
| `Counterexamples.NoBetIsSettledWrongly` | backend/internal/market/transactions.go:524-569 | a concrete run after which settling for an outcome that was not bet against commits and leaves the winning no shares unpaid, and settling for the outcome bet against, where nobody is owed anything, fails for the money it wants to pay the loser |
| `Settlement.TakingsCoverOpenBets` | backend/internal/market/transactions.go:111-470 | bounded loss in the tables: in every reachable state of a yes-only run, a market's money taken is at least its open shares on any outcome less alpha * n * seed * ln n |
| `Settlement.PayInTurnExactly` | backend/internal/market/transactions.go:563-569 | paying in turn succeeds exactly when the house holds the total, whatever the order of the groups, and then everyone gets exactly what is owed |
| `Settlement.PayoutExactly` | backend/internal/market/transactions.go:524-569 | for every consistent database and any grouping of the bets the payout succeeds if and only if the house holds the total claimed, and moves every balance by exactly its claim |
| `Settlement.SettleExactly` | backend/internal/market/transactions.go:472-591 | a settlement commits if and only if the house holds the shares of all bets on the winner; every account gets exactly its winning shares, or nothing changes at all |
| `Settlement.FundedMarketSettles` | backend/internal/market/transactions.go:472-591 | whenever the house's money beyond takings reaches alpha * n * seed * ln n plus the winner's cashed-out shares, settlement commits |
| `Settlement.TradingKeepsReserve` | backend/internal/market/transactions.go:200-229 | bets and cash-outs on any market never change what any house account holds beyond its market's takings |
| `Settlement.TradingRunKeepsReserve` | backend/internal/market/transactions.go:111-470 | nor does any run of bets, cash-outs, pauses and resumes |
| `Settlement.FundedInAdvanceSettles` | backend/internal/market/transactions.go:472-591 | fund the house with alpha * n * seed * ln n before the first bet: after any yes bets and cash-outs on any markets any outcome settles, as long as the funding also covers that outcome's cashed-out shares |
| `Cancellation.CancelExactly` | backend/internal/market/transactions.go:593-673 | a cancellation commits if and only if the house holds all that was paid for bets on the market; every bettor is refunded exactly, or nothing changes at all |
| `Cancellation.CancelCommitsExactlyWhenReserved` | backend/internal/market/transactions.go:626-657 | equivalently, the house holds beside its takings all that it paid for cash-outs on the market, since those bets are refunded as well |
| `Cancellation.CancelAfterTrading` | backend/internal/market/transactions.go:593-673 | after any bets on one market on either side and any cash-outs of them, with pauses and failures in between: cancelling commits if and only if the house held, before the first bet, all that it then paid for cash-outs; each account then holds its earlier balance plus what its cash-outs paid, and the house its earlier balance less what they cost |
| `Cancellation.CancelRestoresBalances` | backend/internal/market/transactions.go:626-657 | where no cash-out of the market was committed, cancelling commits and returns every account, the house included, to its balance before the first bet |
| `TransactionManager.Manager.CheckBet` | backend/internal/market/transactions.go:128-198 | reading the market and the balance and recomputing the quote gives the reply and gain of the step's checks, in the source's order, closing time included |
| `TransactionManager.Manager.AddBetOnce` | backend/internal/market/transactions.go:111-270 | statement by statement with rollback takes the tables exactly where the atomic bet step does |
| `TransactionManager.Manager.AddBet` | backend/internal/market/transactions.go:55-109 | with up to three attempts, any of which the database may abort, the bet is placed at most once, and not at all only when refused or aborted three times |
| `TransactionManager.Manager.CheckCashout` | backend/internal/market/transactions.go:366-413 | reading the market and recomputing the payout gives the reply and gain of the step's checks |
| `TransactionManager.Manager.CashoutBetOnce` | backend/internal/market/transactions.go:354-470 | statement by statement with rollback takes the tables exactly where the atomic cash-out step does |
| `TransactionManager.Manager.CashoutBet` | backend/internal/market/transactions.go:279-352 | committed only for the user who owns the bet and only if it was not cashed out, and answered as not found otherwise; attempted up to three times, cashed out at most once; a failure leaves the tables as they were |
| `TransactionManager.Manager.PayAll` | backend/internal/market/transactions.go:563-569 | the payout loop pays in turn and stops at the first refusal, as specified |
| `TransactionManager.Manager.SettleMarket` | backend/internal/market/transactions.go:472-591 | takes the tables exactly where the settlement step does, rolling back on any failure |
| `TransactionManager.Manager.CancelMarket` | backend/internal/market/transactions.go:593-673 | takes the tables exactly where the cancellation step does, rolling back on any failure |
| `TransactionManager.Manager.CreateMarket` | backend/internal/market/admin.go:25-110 | inserts the house account, the market and its outcomes, every one seeded alike, or rolls back |
| `TransactionManager.Manager.UpdateStatus` | backend/internal/market/admin.go:130-156 | a status update, refused by the trigger once the status is final |
| `Subscriptions.SubscribersArePresent` | backend/internal/ws/hub.go:179-209 | over every order of events only present clients are in rooms, so an unregistered client is left in none |
| `Subscriptions.SubscribedExactlyWhen` | backend/internal/ws/hub.go:146-277 | a client is in a room exactly when some event put it there, a subscribe or, for the room of its own user, the register that brought it in, and none since took it out |
| `Subscriptions.PresentExactlyWhen` | backend/internal/ws/hub.go:146-241 | a client is listed exactly when it registered or subscribed and was not unregistered since |
| `Subscriptions.CountersNeverOvercount` | backend/internal/ws/hub.go:146-209 | stored user counters are positive and at most the user's number of connections |
| `Subscriptions.ExactUnlessOverlooked` | backend/internal/ws/hub.go:146-165 | exact counters stay exact if and only if the event is not the subscribe of an absent client of a named user |
| `Subscriptions.CountersAreExact` | backend/internal/ws/hub.go:146-241 | counters are exact when each register is handled before its connection's subscribes |
| `Subscriptions.CountersCanUndercount` | backend/internal/ws/hub.go:215-241 | a subscribe handled before its register is never counted, and its unregister then hides another connection of the user |
| `Hub.Hub.RoomsMatchView` | backend/internal/ws/hub.go:25-68 | seen from the rooms or from the clients, the two indexes hold the same pairs |
| `Hub.Hub.HandleRegister` | backend/internal/ws/hub.go:146-165 | keeps both indexes in agreement, every listed room non-empty and unique for its identifier, and does what the event does to the plain relation |
| `Hub.Hub.HandleUnregister` | backend/internal/ws/hub.go:179-209 | the same invariant; the client leaves all rooms, empty rooms go, and the counter goes down |
| `Hub.Hub.HandleSubscribe` | backend/internal/ws/hub.go:215-241 | the same invariant; the room is created if it is missing and the client listed if it is absent |
| `Hub.Hub.HandleUnsubscribe` | backend/internal/ws/hub.go:250-277 | the same invariant; the room goes if the client was its last |
| `Hub.Hub.HandleBroadcast` | backend/internal/ws/hub.go:286-310 | exactly the room's clients are offered the payload, and each either gets it or, when its buffer is full or it is closing, is dropped; the indexes do not change |
| `Hub.Hub.DeleteRoom` | backend/internal/ws/hub.go:353-381 | the room's clients lose it and its identifier is free again |
| `Hub.Hub.HandleAll` | backend/internal/ws/hub.go:98-124 | for any sequence of events the hub's state is the run of the plain relation |
| `ChatLimiter.RateLimit` | backend/internal/chat/chat_live.go:63-88 | for every nondecreasing clock trace, at most 10 + (t - s) / 2000 messages are accepted in any window [s, t] |
| `ChatLimiter.PatienceIsRewarded` | backend/internal/chat/chat_live.go:63-88 | a message 2000 ms or more after the last accepted one is accepted |
| `ChatLimiter.FirstTenAreAccepted` | backend/internal/chat/chat_live.go:31-39 | a burst of ten: the first ten messages of a user are accepted, however fast they come |
| `ChatLimiter.BurstAtOnceExactly` | backend/internal/chat/chat_live.go:63-91 | of messages sent at one moment exactly the first ten are accepted |
| `ChatLimiter.WaitingRefills` | backend/internal/chat/chat_live.go:63-91 | 2000 * n milliseconds after the last accepted message the next n messages are accepted, for n up to ten; so after 20000 ms a whole burst is |
| `ChatLimiter.ExpiryIsUnobservable` | backend/internal/chat/chat_live.go:63-100 | key expiry changes no decision: a bucket kept for ever decides the same |
| `ChatLimiter.UsersAreIndependent` | backend/internal/chat/chat_live.go:63-100 | each user's key is what the user's own trace leaves, whatever others send |
| `ChatLimiter.DecisionsFollowOwnTrace` | backend/internal/chat/chat_live.go:63-100 | a message is accepted exactly when the plain bucket of the sender's own trace has a token |
| `ChatLimiter.ListsHoldTheLastTwenty` | backend/internal/chat/chat_live.go:90-100 | each room's list is exactly the last 20 messages accepted there, in order |
| `ChatLimiter.Store.Call` | backend/internal/chat/chat_live.go:63-100 | the script's statements take the store exactly where the specified call does |
| `StateCache.NothingIsMixedUp` | backend/internal/market/state.go:111-178 | in every interleaving of commits, reads, cache writes and expiries everything cached or published is the snapshot of its version |
| `StateCache.CacheNeverRegresses` | backend/internal/market/state.go:43-55 | between expiries the cached version never goes back |
| `StateCache.WriteLeavesTheNewer` | backend/internal/market/state.go:43-55 | a write leaves the newer of the two versions with its payload, and reports a change exactly when its own is newer |
| `StateCache.WritersAreHeard` | backend/internal/market/state.go:111-178 | a worker that writes what it read leaves at least that version in the cache, and an updater publishes it exactly when nothing as new was cached |
| `StateCache.ReadersSeeTheCurrent` | backend/internal/market/state.go:244-276 | a read gives the current version with its quantities |
| `StateCache.PublishedInOrder` | backend/internal/market/state.go:130-145 | updates that went through the cache without an expiry are published in strictly increasing versions, none above the cached one |
| `StateCache.HighestIsHighest` | frontend/seer/src/app/WsProvider.tsx:49-64 | the highest version, which the client results refer to, bounds all received versions and is the first view's or a received one |
| `StateCache.ClientEndsAtHighest` | frontend/seer/src/app/WsProvider.tsx:49-64 | a client fed genuine updates in any order, repeated or missing, ends at the highest version seen with exactly that version's quantities |
| `StateCache.NotNewerIsIgnored` | frontend/seer/src/app/WsProvider.tsx:49-113 | any updates that are not newer than the view leave both reducers' views alone, whatever they hold |
| `StateCache.BalanceEndsAtHighest` | frontend/seer/src/app/WsProvider.tsx:105-113 | so does the balance reducer |
| `StateCache.ClientNeverRegresses` | frontend/seer/src/app/WsProvider.tsx:49-64 | end to end, a client shows a state the market really had, never older than its first view nor newer than the database |
| `StateCache.Cell.CompareAndSet` | backend/internal/market/state.go:43-55 | the script writes and reports a change exactly when nothing newer or equal is cached |
| `Versions.QuantitiesMoveWithVersion` | backend/internal/market/transactions.go:236-270 | why a version identifies a snapshot: in every step of a run without no bets a market's version goes up by one or stays, and its quantities change only when it goes up |
| `Versions.VersionIdentifiesQuantities` | backend/internal/market/transactions.go:236-270 | over a whole run without no bets, two moments at which a market has the same version show the same quantities |
| `Versions.HistoryWasReal` | backend/internal/market/state.go:244-276 | the history by version that a database run gives a market holds, at each version, the quantities it had at some moment of the run at that version |
| `Versions.ClientShowsTheDatabase` | frontend/seer/src/app/WsProvider.tsx:49-64 | end to end over the database: when the cache system commits the versions of a database run, a client fed any published updates in any order ends at a version no older than its first, with the quantities the market had in the database at that version |
| `Framing.SendBatch` | backend/internal/ws/client.go:84-110 | the byte loop joins the messages with single newlines |
| `Framing.WriteFrame` | backend/internal/ws/client.go:148-177 | the drain loop joins the queued payloads with newlines into one frame and keeps the rest of the queue |
| `Framing.SurvivesExactlyWhen` | frontend/seer/src/socket/socket.ts:133-137 | a single text comes back as sent if and only if it is not empty, has no raw newline and no white space at its ends |
| `Framing.BatchSurvives` | frontend/seer/src/socket/socket.ts:133-137 | a batch, even an empty one, comes back as its messages |
| `Framing.FrameSurvives` | frontend/seer/src/socket/socket.ts:133-137 | a frame of several payloads comes back as all their messages in order |
| `Framing.RoundTrip` | backend/internal/ws/client.go:148-177 | however queued payloads, batches included, are grouped into frames, the client gets back exactly the messages sent, in order |
| `Framing.GroupingIsInvisible` | backend/internal/ws/client.go:148-177 | what comes back depends only on the queue, not on how it was cut into frames |
| `Json.EncodedIsMessage` | backend/internal/ws/client.go:84-110 | whatever a value holds, its serialized form has no control character and no white space at its ends, because the encoder escapes them |
| `Json.SerializedRoundTrip` | backend/internal/ws/client.go:148-177 | framing round trip for values: however batches of serialized values are queued and grouped into frames, the client gets back exactly the serialized values, in order |
| `Json.ReadsWhatWasWritten` | frontend/seer/src/socket/socket.ts:138-146 | the client's reader gets back exactly the value that was encoded, and leaves whatever follows it |
| `Json.ValuesArrive` | frontend/seer/src/socket/socket.ts:133-146 | from end to end: the values queued, encoded, grouped into frames, split into lines and read back are exactly the values queued, in order, each with nothing left over |
| `PriceInput.SanitizeForEditing` | frontend/seer/src/ui/PriceInput.tsx:12-27 | the loop keeps the digits and the first separator, in order |
| `PriceInput.SanitizeIsIdempotent` | frontend/seer/src/ui/PriceInput.tsx:12-27 | the result has only digits and at most one separator, and sanitizing again changes nothing |
| `PriceInput.SanitizeExactly` | frontend/seer/src/ui/PriceInput.tsx:12-27 | what is left of a text is its digits 0 to 9 in order, with the first dot or comma still at its place among them, and nothing else |
| `PriceInput.AddCarry` | frontend/seer/src/ui/PriceInput.tsx:31-66 | the in-place carry loop leaves the digits of the number plus one and reports the carry |
| `PriceInput.BumpAddsOne` | frontend/seer/src/ui/PriceInput.tsx:31-66 | value of the digits plus the carry is the old value plus one, whatever nines it ripples through |
| `PriceInput.IncIntString` | frontend/seer/src/ui/PriceInput.tsx:31-47 | the method returns the incremented integer text |
| `PriceInput.IncIntAddsOne` | frontend/seer/src/ui/PriceInput.tsx:31-47 | incrementing the integer text adds one to its value and keeps it digits |
| `PriceInput.AddOne` | frontend/seer/src/ui/PriceInput.tsx:49-66 | the method adds one unit in the last decimal place, carrying into the integer part |
| `PriceInput.AddUlpAddsOne` | frontend/seer/src/ui/PriceInput.tsx:49-66 | that adds exactly one unit to the value and keeps the number of decimals |
| `PriceInput.AboveHalfIsAboveHalf` | frontend/seer/src/ui/PriceInput.tsx:74-97 | the test on dropped digits decides exactly whether they are more than half a unit |
| `PriceInput.RoundHalfDown` | frontend/seer/src/ui/PriceInput.tsx:68-97 | the method returns the specified rounded text |
| `PriceInput.RoundIsHalfDown` | frontend/seer/src/ui/PriceInput.tsx:68-97 | for all digits and every dp the result has exactly dp decimals and is the nearest multiple of 10^-dp, ties going down |
| `PriceInput.RoundedText` | frontend/seer/src/ui/PriceInput.tsx:74-97 | the text returned for every number the field can hold, with the digits before or after the dot possibly missing: it has digits before the dot and exactly dp decimals, and its value is the number itself or, if that has more decimals, the nearest one, a tie going down |
| `PriceInput.RoundedTextExample` | frontend/seer/src/ui/PriceInput.tsx:74-97 | concrete texts without an integer part: to one decimal .56 gives 0.6 and .55 gives 0.5, and to two .5 gives 0.50 |
| `PriceInput.RoundIsIdempotentExactlyWhen` | frontend/seer/src/ui/PriceInput.tsx:74-97 | rounding a sanitized text twice is rounding it once if and only if not (no decimals are asked for and the first rounding goes up) |
| `PriceInput.RoundingTwiceCanDiffer` | frontend/seer/src/ui/PriceInput.tsx:74-97 | a concrete failure: rounding 0.9 to no decimals gives 1, and rounding that gives 1 and a dot |

## Left out

- The internals of the decimal library and of floating point: bit-level results of `exp`, `ln` and division are not claimed; see "Arithmetic" above for what the error bounds cover.
- Bisect: the width of the bracket is compared with the tolerance exactly, where the source rounds the difference to 30 digits first and may stop at a width above the tolerance by one part in 10^29.
- Bet amounts with more than 12 decimals: money is an integer count of 10^-12, while a request's amount is only required to be present, so the columns would round it and the entries' balance constraint could refuse it.
- NUMERIC overflow and 64-bit version overflow: amounts, quantities and versions are unbounded.
- The int32 wrap-around of the hub's user counters, and its guards against a missing client.
- Row locks, deadlock detection and snapshot reads: transactions are serial, as the source's isolation level promises; an abort by the database is modelled only as undoing the attempt. Between two attempts of `AddBet` or `CashoutBet` no other transaction runs in the method; the run theorems, which treat every attempt as its own step, cover that interleaving.
- What the database driver does when the cancellation issues transfers while its row cursor is still open: the rows are taken to be read first.
- Columns that no decision reads: total wagered, volume, average price of a bet, timestamps, names, positions; also changing the closing time, the sort order and the positions of outcomes.
- Notifications that transactions publish after they commit.
- The minimal gain of a request is bounded and scaled by a request validator; the model only uses that it exceeds the amount.
- Pub/sub delivery and liveness: no claim that an update arrives, only that what arrives never takes a client back.
- The client's JSON reader beyond what the encoder writes: white space between tokens, surrogate pairs, repeated names and the grammar of numbers, which are kept as their text; also the schemas that check a message after it is read.
- The reaction of the hub to shutdown, its online-user cache, pings and the broadcasting of room membership to other processes.
- Sorting, price charts and normalized prices in the browser's market view; the proportions shown beside a quote or a preview, and the preview's cap check for a purchase.
- Stripping of leading zeros and localised separators when the price field is committed.
- HTTP handlers, sessions, validators, chat persistence and moderation, comments, bonuses, geography: plumbing that would only add easy members; the fee function has no caller.
