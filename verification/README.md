# Order matching and double-entry ledger: a verified model

This project models the server of a small currency exchange: the table of buy and sell requests,
the matching pass that trades them (`server/modules/exchange.cpp`), the wallets and the
append-only transaction log that balances are computed from (`server/modules/wallet.cpp`), and the
sessions and messages that drive them (`server/modules/login.cpp`, `server/core.cpp`).

## How it is built

- The database, the transactions, `Wallet`, `Exchange`, `LoginSystem` and `Core` are classes whose
  methods update fields, with the loops, branches and early returns of the source. Each method is
  proved equal, on the value of the whole database, to a specification function.
- **Failures.** Every database operation (a query step, BEGIN, an INSERT, DELETE or UPDATE, COMMIT,
  one whole `wallets` read) advances a clock, and an oracle says which ticks fail. A theorem about
  every oracle is a theorem about every pattern of failures; `Reliable` oracles fail nothing. A failed
  insertion is refused and rolled back; a failed delete, update, commit or query throws
  `SQLite::Exception`, which ends the pass but not the process; a failed `wallets` read throws what
  nobody catches and ends the process; a missing wallet or a currency without `/` is undefined
  behaviour: there the model stops, with the unfinished transaction rolled back, and what theorems
  about runs say of such a world is about that database.
- **History.** `placed`, `trades` and `removed` of the database, and `arrival` of a request, record
  what happened so that theorems can speak of it. No branch reads them. A request keeps its `arrival`
  when its id is given to another one.
- **The central theorem** is `Replays.PassReplays`: whatever fails, what a pass leaves is the replay
  of the trades it committed. Invariants of runs follow from it by induction over trades and events.
- **The ideal pass** `Settlement.Ideal` is a function of the table alone. `FailureFree.PassIsIdeal`
  proves that a failure-free pass commits exactly its trades; the trading rules are proved of it.
- **The reference exchange** `Reference.Enter` never looks through the live requests again: it serves one
  order after another. `Reference.RunIsReference` proves that every run in which nothing fails is that.

## Where the code and its documentation differ

The model follows the code. The lines are those of the program's README.

- Line 18 promises the price of the earlier request. The code always takes the buy request's price
  (`server/modules/exchange.cpp:89`). The promise holds of every trade of a new sell request
  (`Quiescence.NewSellPaysEarlierPrice`), of the trade of a new buy request exactly when ask and bid are
  equal (`Quiescence.NewBuyPaysEarlierPriceIff`), and `Quiescence.LaterBuyerPaysOwnPrice` shows it fail.
- Line 19 promises the cheapest seller. The code prefers one that covers the whole buy request
  (`server/modules/exchange.cpp:97-107`). `Rules.CheapestIsChosenIff` says exactly when the cheapest is
  chosen, `Rules.CommittedWithCheapestIff` of which committed trades the rule holds, and
  `Rules.DearerSellerChosen` shows it fail.
- Line 21 promises that a request lives while it has volume. That holds of sell requests
  (`Runs.SellVolumeIsConserved`); a buy request is deleted with its first trade
  (`server/modules/exchange.cpp:228-236`) and keeps the rule exactly when that trade fills it:
  `Quiescence.NewBuyIsFilledIff` of a new buy request, `Quiescence.NewSellServes` of the live ones that a
  new sell request meets; `Rules.BuyRemainderIsDropped` shows it fail.
- Nothing checks that amounts are positive. A pass uncrosses every book without a stuck pair, a buy
  request for nothing or less facing an offer that is smaller still (`Settlement.PassUncrosses`); after a new
  buy request `Incoming.NewBuyUncrossesIff` is exact, and `Settlement.StuckBuy` and
  `Settlement.SecondPassMayTrade` show what a stuck pair does.
- A seller whose step was rolled back still counts against what the buyer asks of the next one
  (`server/modules/exchange.cpp:161-162`): `Replays.PartialReplays`, and
  `ShortFills.RolledBackSellerStillCounts` for a case.
- A query for a user's name that fails counts as not found (`server/modules/login.cpp:46-50`), so that a
  name can be given away twice: `Answers.RegisterKeepsNamesUniqueIff`.
- A session that is authenticated changes its user with a claim alone (`server/modules/login.cpp:63`);
  `SessionReplay.SpeaksForProvedUserIff` says exactly when it speaks for the user it last proved, and
  `SessionReplay.ClaimKeepsAuthentication` is a run in which it does not.

## Model

| member | source | states |
|---|---|---|
| Pairs.SplitLosesNothing | server/modules/exchange.cpp:92-93 | splitting a pair at its separators loses nothing and leaves no separator in a piece |
| Pairs.SplitOfJoin | server/modules/exchange.cpp:92-93 | pieces without separators are exactly what splitting their join gives back |
| Orders.OrderBy | server/modules/exchange.cpp:80-81 | insertion sort of the selected rows gives the one sequence that ORDER BY allows |
| Orders.CursorLists | server/modules/exchange.cpp:97-101 | a cursor holds each selected row once, as it was when opened, in a strict order |
| Orders.CursorIsOrdered | server/modules/exchange.cpp:80-81 | column by column: a buyers' cursor goes by price downwards and a sellers' cursor by price upwards, equal prices by id upwards |
| Orders.ListingUnique | server/modules/exchange.cpp:80-81 | ORDER BY price and id leaves no choice: two listings of the same rows are equal |
| Trades.OneBuyPerTrade | server/modules/exchange.cpp:228-236 | along any legal trades, buys before = buys after + number of trades |
| Trades.ReplayStaysPositive | server/modules/exchange.cpp:238-258 | legal trades keep positive live amounts positive, never let one grow, and are each for a positive amount |
| Store.Transaction.Rollback | server/modules/exchange.cpp:200-205 | a rollback brings back every table as it was at BEGIN, whatever was written since |
| Store.Transaction.Leave | server/modules/exchange.cpp:121-125 | leaving the scope without a commit is a rollback, after a commit it changes nothing |
| Ledger.FindInInfos | server/modules/exchange.cpp:177-195 | searching the vector of a user's wallets by currency finds the first such wallet of the table |
| Ledger.TradeIsZeroSum | server/modules/exchange.cpp:200-226 | the four rows of a trade leave the sum of all balances of every currency unchanged |
| Ledger.JournalIsZeroSum | server/modules/exchange.cpp:200-226 | the sum of all balances of every currency is zero after any list of payable trades |
| Ledger.BalanceIsPosition | server/modules/wallet.cpp:113-142 | deposits less withdrawals of a wallet = its owner's bought less sold and received less paid over all trades; a duplicate wallet stays at zero |
| Ledger.TradeMovesMoney | server/modules/exchange.cpp:200-226 | a trade moves the buyer's and the seller's positions by the amount in the base currency and by amount times price in the quote currency, in opposite directions, and no other position |
| Wallets.Wallet.CreateWallet | server/modules/wallet.cpp:54-73 | appends one wallet with the next id, or changes no table |
| Wallets.Wallet.MakeTransaction | server/modules/wallet.cpp:75-94 | appends one row to the log, or changes no table and says so |
| Wallets.Wallet.SumAmounts | server/modules/wallet.cpp:118-139 | the loop computes the SUM of the matching rows, 0 of none |
| Wallets.Wallet.Wallets | server/modules/wallet.cpp:96-150 | all of the user's wallets in id order, each with deposits less withdrawals; nothing on failure |
| Matching.RequestStepOutcome | server/modules/exchange.cpp:174-260 | a step posts the four rows (amount times price in the quote currency, the lesser amount in the base currency, to the first wallets), deletes the buy and deletes or reduces the sell, or does none of it; without failures it does so exactly when both requests are there |
| Matching.StepIsAtomic | server/modules/exchange.cpp:160-161 | under any failures one try leaves exactly the pre-state or the complete trade of its cursor rows |
| Matching.StepCompletes | server/modules/exchange.cpp:228-260 | once nothing fails any more, a try without a missing wallet trades exactly when both requests are still there |
| Failures.FirstFailureDecides | server/modules/exchange.cpp:121-260 | which of the ten operations of a step fails first decides whether the pass goes on, the pass ends, or the process ends; in each case every table is as it was |
| Failures.PassEndsWithFailure | server/modules/exchange.cpp:166-171 | a pass that an exception ends, caught or not, does nothing after the operation that failed |
| Replays.PartialAfterTrade | server/modules/exchange.cpp:146-163 | once the first seller has traded, the whole partial-fill loop amounts to that one trade, under any failures |
| Replays.PartialReplays | server/modules/exchange.cpp:133-164 | under any failures the partial-fill loop commits at most one trade; if it is with the i-th seller, for the lesser of his amount and the buy less what all sellers before offered |
| ShortFills.RolledBackSellerStillCounts | server/modules/exchange.cpp:161-162 | a concrete failure in a pass, at whatever time it starts, after which a buy for 10 against offers of 6 and 5 gets 4 and is gone |
| Replays.PassReplays | server/modules/exchange.cpp:76-172 | under any failures a pass is the replay of its trades: all legal, one buy request and four log rows each, nothing else changed |
| Replays.BuyersCursorIsNeverStale | server/modules/exchange.cpp:83-90 | whenever a pass comes to a buyer, it and all later ones are in the table exactly as their cursor read them, and the rest of the pass is the pass over them, under any failures |
| Replays.SellersCursorIsNeverStale | server/modules/exchange.cpp:135-150 | the same of the sellers of the partial-fill loop, also after the buyer has traded |
| Replays.ReachedSellerGoesOn | server/modules/exchange.cpp:144-163 | from the k-th seller on, the loop is the loop over the remaining sellers for the buy less what those before offered |
| Replays.SellersOfAPassAreNeverStale | server/modules/exchange.cpp:133-150 | in every visit of every pass, under any failures, no seller row read by the partial-fill loop is stale |
| Settlement.NoCounterpartyIff | server/modules/exchange.cpp:97-146 | a buyer survives its visit exactly when nobody offers, or it asks for nothing and no offer covers even that |
| Settlement.PassUncrosses | server/modules/exchange.cpp:76-172 | the ideal pass leaves no crossing buy and sell of a pair and different users, if no buy for nothing or less faces an even smaller offer before it; positive buys, or positive sells, are enough |
| Settlement.StuckBuy | server/modules/exchange.cpp:144-146 | a buy for 0 facing a sell of -1 stays crossed: the loop guard stops at once |
| Settlement.IdleIff | server/modules/exchange.cpp:76-172 | a pass makes no trade exactly when every buy has no offer, or asks for nothing or less and no offer covers even that |
| Settlement.SecondPassIsIdle | server/modules/exchange.cpp:76-172 | the ideal pass right after an ideal pass makes no trade, under the same condition on the first book |
| Settlement.SecondPassMayTrade | server/modules/exchange.cpp:144-146 | a concrete book without that condition on which the second pass does trade |
| Settlement.PriceTimePriority | server/modules/exchange.cpp:80-164 | trades come by buyers' price downwards and then id upwards, each with the lowest-priced, oldest seller of the table as earlier trades left it, among those covering the buy if there are any |
| Settlement.NoPriorityInversion | server/modules/exchange.cpp:80-164 | if a buyer survives and a later one of the pair trades, the seller is the survivor's own user, on a book without stuck pairs |
| Incoming.IncomingSell | server/core.cpp:76-86 | on an uncrossed book the whole pass after a new sell that is stuck with no buyer equals that sell alone sweeping its takers |
| Incoming.IncomingSellFill | server/modules/exchange.cpp:97-163 | on an uncrossed book with positive amounts a new sell of S facing takers wanting D trades min(S, D) and keeps S - D, its row gone exactly when D >= S |
| Incoming.IncomingBuy | server/core.cpp:76-86 | on an uncrossed book the whole pass after a new buy is at most one trade, with its counterparty in the old book |
| Incoming.NewBuyUncrossesIff | server/core.cpp:76-86 | after a new buy and a pass an uncrossed book is uncrossed again exactly when nobody offers, or the buy is for something, or some offer covers it |
| Incoming.PairIndependence | server/modules/exchange.cpp:80-164 | trades and requests of a pair after a pass over a mixed book are those of a pass over that pair alone |
| FailureFree.PartialLoopIsOneStep | server/modules/exchange.cpp:133-164 | without failures the loop has exactly the effect of one step with its first seller; later iterations restore what they write |
| FailureFree.PassIsDefined | server/modules/exchange.cpp:177-195 | if every live request's owner has both wallets of its pair, no pass dereferences a missing one, under any failures |
| FailureFree.PassIsIdeal | server/modules/exchange.cpp:76-172 | a failure-free pass runs to its end and commits exactly the ideal trades |
| Rules.CheapestIsChosenIff | server/modules/exchange.cpp:97-146 | the seller who asks least, the oldest of those, is chosen if and only if he covers the buy, or nobody does and the buy is for something |
| Rules.CommittedWithCheapestIff | server/modules/exchange.cpp:97-146 | each trade a failure-free pass commits is with the seller who asks least, the oldest of those, in the table as earlier trades left it, if and only if he covers the buy or nobody does |
| Rules.DearerSellerChosen | server/modules/exchange.cpp:97-107 | a concrete book where a dearer covering seller is preferred |
| Rules.BuyIsFilledIff | server/modules/exchange.cpp:197-236 | a trading buy is filled whole if and only if somebody covers it, and is deleted either way |
| Rules.BuyRemainderIsDropped | server/modules/exchange.cpp:228-247 | a buy for 10 against a sell of 4 trades 4 and leaves an empty table |
| Lives.NextId | server/modules/exchange.cpp:22-24 | the next id exceeds every live id by exactly one over the largest, and is 1 on an empty table |
| Lives.NewRequestKeepsBook | server/modules/exchange.cpp:40-59 | a new request keeps all invariants: faithful rows, ids in arrival order, sells conserved, buys trading once |
| Lives.LostRequestKeepsBook | server/modules/exchange.cpp:61-74 | removing a request keeps all of them |
| Lives.TradeKeepsBook | server/modules/exchange.cpp:228-258 | a legal trade keeps all of them |
| Lives.PassKeepsBook | server/modules/exchange.cpp:76-172 | a pass keeps all of them, under any failures |
| Exchanges.Exchange.NextId | server/modules/exchange.cpp:45-46 | the loop finds the id SQLite gives the next row |
| Exchanges.Exchange.MakeRequest | server/modules/exchange.cpp:40-59 | adds exactly one row under the next id, or changes no table and says so |
| Exchanges.Exchange.RemoveRequest | server/modules/exchange.cpp:61-74 | deletes exactly that row and reports whether there was one |
| Exchanges.Exchange.RequestStep | server/modules/exchange.cpp:174-260 | the imperative step with its early returns and rollbacks leaves the specified database and ends as specified, under any failures |
| Exchanges.Exchange.Partial | server/modules/exchange.cpp:133-164 | the loop with its running difference is the specified one, under any failures |
| Exchanges.Exchange.Visit | server/modules/exchange.cpp:85-165 | the covering seller is tried if there is one, and the partial-fill loop otherwise, under any failures |
| Exchanges.Exchange.ProcessRequests | server/modules/exchange.cpp:76-172 | the loop over a cursor while its table changes is the specified pass, under any failures |
| Logins.LoginSystem.Exists | server/modules/login.cpp:38-51 | true exactly when the query succeeds and a user has the name |
| Logins.LoginSystem.LoginAccount | server/modules/login.cpp:53-76 | gives the session the first user with that name and verifier and keeps its authentication, or changes no session |
| Logins.LoginSystem.RegisterAccount | server/modules/login.cpp:78-97 | appends one user with the next id, or changes no table |
| Logins.FindUserStable | server/modules/login.cpp:58-63 | later registrations do not change whom a name and verifier stand for |
| Servers.Core.OnMessage | server/core.cpp:44-232 | every message has the specified effect on database and sessions and the specified answer, under any failures |
| Servers.Core.Start | server/core.cpp:27-30 | starting runs one pass and touches no session |
| Servers.Core.OnSessionConnected | server/core.cpp:32-36 | a new session is neither authenticated nor challenged and speaks for nobody |
| Servers.Core.OnSessionClosed | server/core.cpp:38-42 | a closed session is gone from both maps |
| Answers.RegisterAnswer | server/core.cpp:128-157 | answered AuthExists if the name is found, AuthFailed if the insertion fails, and else Success with exactly that user and each wallet whose insertion does not fail; otherwise no table changes |
| Answers.RegisterKeepsNamesUniqueIff | server/modules/login.cpp:38-51 | a registration gives a name away twice if and only if the query for the name fails and the insertion does not |
| Answers.NamesStayUnique | server/core.cpp:131-136 | in every failure-free run all user names are different |
| Answers.ChallengeAnswer | server/core.cpp:159-190 | answered Success exactly when a user with the name and verifier is found, the first of whom the session then speaks for; otherwise AuthNotFound or AuthFailed, and nothing changes |
| Answers.ProofAnswer | server/core.cpp:192-213 | answered Success, and the session authenticated, exactly when the proof is right and the session has been challenged; otherwise AuthFailed and no session changes |
| Answers.LogoutAnswer | server/core.cpp:115-126 | afterwards the session is not authenticated and keeps its user, whatever it was before; answered Plain or Unknown accordingly |
| Answers.WalletListAnswer | server/core.cpp:92-113 | an authenticated session gets exactly its user's wallets unless the read fails; no table changes |
| Answers.MakeRequestAnswer | server/core.cpp:57-90 | an answer is Success exactly when the message made one request, of the session's user and with the columns of the message; any other answer says why not, and no table changes |
| Answers.UnknownAnswerIff | server/core.cpp:214-217 | Unknown answers exactly unknown messages and logouts of sessions not authenticated |
| Answers.MessageKeepsServer | server/modules/exchange.cpp:166-171 | a message that needs a session that is not there stops the server; one that makes a request does what its pass does, of which a caught failure leaves the server running; no other stops it |
| Answers.BootRunsAPass | server/core.cpp:27-30 | a start runs one pass on the tables as they are, and a failing query for the buyers leaves the server running with nothing changed |
| Runs.RunIsSound | server/core.cpp:44-232 | in every run, under any failures, all invariants of requests and trades hold and the log is the journal of the trades |
| Runs.CurrenciesAreZeroSum | server/modules/exchange.cpp:200-226 | in every run, under any failures, the balances of each currency over all wallets sum to zero |
| Runs.BalancesFoldTheTrades | server/modules/wallet.cpp:96-143 | in every run, under any failures, a user's balance is the fold of all trades into his holding of that currency |
| Runs.IdOrderIsTimeOrder | server/modules/exchange.cpp:81 | in every run, among live requests smaller id and earlier arrival are the same, although ids are reused |
| Runs.SellVolumeIsConserved | server/modules/exchange.cpp:238-258 | in every run, under any failures, a sell never removed has sold exactly what it no longer offers |
| Runs.BuyEndsWithItsTrade | server/modules/exchange.cpp:228-236 | in every run, under any failures, a buy never removed is live until its one trade and gone from then on |
| Runs.AmountsStayPositive | server/modules/exchange.cpp:250-257 | in every run, under any failures, positive requests keep live amounts and trade amounts positive |
| Runs.EveryTradeCrosses | server/modules/exchange.cpp:97-101 | in every run, under any failures, every trade is between a buy and a sell that were made, crossing, of different users and one pair, for no more than the one asked for or the other had left |
| Quiescence.NoCrossedRequests | server/core.cpp:76-86 | in every failure-free run with positive buys, after the start and every message, no live requests cross (the book is quiet) |
| Quiescence.OnePassRecovers | server/core.cpp:27-30 | after any run under any failures with positive buys, a start after which nothing fails leaves the server running and no live requests crossed, unless behaviour is undefined because of a missing wallet |
| Quiescence.PassKeepsPriority | server/modules/exchange.cpp:80-164 | order, choice and no overtaking, of the trades the database pass commits on a book without stuck pairs |
| Quiescence.SecondPassChangesNothing | server/modules/exchange.cpp:76-172 | a second failure-free pass leaves every table as it was, if the first book had no stuck pair |
| Quiescence.PassTreatsPairsApart | server/modules/exchange.cpp:80-164 | pair independence of the database pass |
| Quiescence.NewSellSweeps | server/core.cpp:76-86 | without failures and from a quiet book, which every event of a run leaves, a sell message changes requests, trades and log by exactly the sweep of its takers |
| Quiescence.NewSellIsFilled | server/modules/exchange.cpp:197-258 | from such a book a new sell of S facing takers wanting D sells min(S, D) at once and stays live with exactly the rest |
| Quiescence.NewSellServes | server/modules/exchange.cpp:144-163 | from such a book a sell message of S reaches its first taker and exactly those others before whom less than S is wanted, fills one whole if and only if what is wanted up to and with him is at most S, and deletes the rows of those it reaches and of no other taker |
| Quiescence.NewBuyTradesAtMostOnce | server/core.cpp:76-86 | from such a book a buy message changes requests, trades and log by at most one trade, with its counterparty in the old book |
| Quiescence.NewBuyIsFilledIff | server/modules/exchange.cpp:197-236 | a buy message is filled whole if and only if the old book covers it, and its row is gone if and only if it has a counterparty there |
| Quiescence.NewSellPaysEarlierPrice | server/modules/exchange.cpp:89 | every trade that a sell message commits, without failures and from a quiet book of a run, is at the earlier request's price |
| Quiescence.NewBuyPaysEarlierPriceIff | server/modules/exchange.cpp:89 | the trades that a buy message commits are at the earlier request's price if and only if its counterparty in the old book, if any, asks what it bids |
| Quiescence.LaterBuyerPaysOwnPrice | server/modules/exchange.cpp:89 | a concrete trade at 65 although the earlier request offers at 60 |
| Provision.RunIsDefined | server/core.cpp:138-149 | if every pair is USD/RUB and no registration loses a wallet, every live request's owner is registered with both wallets and no run reaches undefined behaviour, whatever else fails |
| Provision.EveryBalanceIsAPosition | server/core.cpp:138-149 | in every run, under any failures, no user has two wallets in one currency and every wallet's balance is its owner's position over all trades |
| Provision.WalletListIsPositions | server/core.cpp:92-113 | in every run, under any failures, an answered wallet list has exactly the wallets of the session's user, in id order, each with his position in its currency |
| Reference.RunIsQuiet | server/core.cpp:76-86 | without failures, with positive buys of the pair users have wallets for, after every event behaviour is defined and no live requests cross |
| Reference.RestartChangesNothing | server/core.cpp:27-30 | after such a run a restart loses the sessions and changes no table |
| Reference.RunIsReference | server/core.cpp:76-86 | such a run, with all its sessions, restarts and removals, is the reference exchange that matches each new request once and never looks through the book again: same requests, same trades, and the log is the journal of those trades |
| SessionReplay.SessionsReplay | server/modules/login.cpp:99-117 | in every run, under any failures, a session's entry is the fold of its own openings, successful claims, right proofs and logouts |
| SessionReplay.OnlySinceOpened | server/core.cpp:32-36 | what happened to a session id before it was last opened does not matter |
| SessionReplay.ChallengedHasClaim | server/core.cpp:171-212 | a session can be proved exactly when it has claimed a user since it was opened, and an authenticated one has |
| SessionReplay.RequestBelongsToItsSession | server/core.cpp:76-77 | in every run, under any failures, a message adds no request or one, and then for the user its own session last claimed since it was opened |
| SessionReplay.SpeaksForProvedUserIff | server/modules/login.cpp:53-76 | in every run, under any failures, an authenticated session has proved a user since it was opened, and speaks for the one it last proved if and only if it has claimed nobody else since |
| SessionReplay.ClaimKeepsAuthentication | server/modules/login.cpp:63 | a run of two registrations in which the session proves the user 1, then only claims the user 2, and is authenticated for the user 2 |
| Authentication.OnlyAProofAuthenticates | server/core.cpp:199-208 | a session authenticated after an event was so before, or the event is a right proof on it; reopening and logging out end it |
| Authentication.AuthenticatedByAProof | server/core.cpp:192-213 | in every run, under any failures, an authenticated session has sent a right proof and since then neither been reopened nor logged out |
| Authentication.AuthenticatedForAChallenged | server/core.cpp:159-190 | in every run, under any failures, the user of an authenticated session is one whose name and verifier it has sent in a challenge since it was opened |
| Processes.Serve | server/core.cpp:27-42 | the classes, driven through any events from an empty database, end in the world the run theorems speak of |
| Processes.Take | server/core.cpp:44-232 | one event on the classes is one step of a run |

## Left out

- Ledger.Cost: amounts and prices are exact reals; IEEE rounding of `float` and `double` is not modelled.
- Wallets.Wallet.Wallets: its several queries succeed or fail together, and rows without ORDER BY come in id order, as SQLite scans them.
- Store.Transaction.Rollback: a ROLLBACK itself never fails, and a process that ends inside a transaction leaves the rolled-back tables.
- Servers.Core.OnMessage: messages arrive decoded; JSON errors, all answered Unknown, are not modelled, nor are exceptions of the cryptography.
- SRP-6 and SHA-256: a proof carries the outcome of its comparison, and it is right only on a session that has been challenged; the value B is left out of the answer.
- Sockets, the accept loop and asynchronous reads and writes: messages are handled one after the other.
- Widths of ids and 64-bit overflow, including SQLite's behaviour at the largest rowid; only the initial user id of a session keeps its 64-bit value.
- Creation of tables, the database file, logging and the command line.
- The client.
