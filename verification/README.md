# Licence shop: model and proofs

A Dafny model of the backend of a shop for licence keys, with proofs of what its interacting state machines
promise. `dafny verify dfyconfig.toml` checks the whole project.

## What is modelled

- **Orders, payments, expiry** (`Cart`, `Tables`, `Orders`, `Payments`, `Shop`). The tables are one value `Db`. Each
  transaction is a function from tables to tables; the class `Shop.Database` holds the tables as fields, runs each
  transaction step by step with rollback, and is proved to compute that function. `ShopInvariant` says what good
  tables are; `Reserving`, `Keeping` and `Paying` show that each transaction keeps them good; `ShopRuns` lifts this
  to every interleaving; `Promises`, `Idempotency`, `Refusals`, `Deadlines`, `Inventory` and `Sweep` read off what the
  shop promises.
- **Delivery at least once** (`Delivery`, `Exactly`, `Decisions`). Topic, committed offsets and workers that fetch,
  look, transact, fall back and commit in separate steps, with restarts and reassignments anywhere, over the tables
  above.
- **Row locks** (`Locks`). Concurrent create transactions that take listing rows one at a time.
- **Sessions** (`SessionStore`, `Refresh`, `Access`, `Accounts`, `Standing`, `AuthService`). The Lua scripts over keys with
  deadlines; refresh calls as interleaved steps; permission compilation; account changes that have to revoke
  sessions, since requests are served from the session record alone.
- **Realtime hub** (`Seats`, `Realtime`, `RecentMessages`). Seats, reservations, cooldowns and stale handlers, over
  client references; the merged query for recent messages.
- **Ids, load mix, alerts, rate limit** (`Snowflake`, `TrafficMix`, `Alerts`, `RateLimiter`).

`Words`, `Ascending` and `Sums` hold machine words, ordered sets and sums.

Times are whole milliseconds. Clocks, fresh ids, random tokens and failing mails are parameters, so a statement for
all runs covers all of them. Database transactions and Lua scripts are single steps; unique keys and foreign keys
that the services rely on are conditions on inserts.

## Where the code falls short of its own description

- `ConsecutiveSamples` (alerts) need not be consecutive: `Alerts.NeedNotBeConsecutive`, and `Alerts.FirstAlertExactly`
  says what is counted.
- The rate limiter reads its clock before it takes its lock, so concurrent calls can get more than twice the
  limit through in one window: `RateLimiter.OutOfOrderExceeds`. `RateLimiter.TwiceTheLimitExactly` says when they cannot,
  and `RateLimiter.MostExactly` how many they can.
- A timestamp overflow (ids) forgets the sequence number: `Snowflake.AfterOverflowExactly`.
- A load test that uses all its codes and warms up first needs one code too many: `TrafficMix.WarmUpFitsExactly`.
- As many codes as listings do not cover every listing of a hot mix: `TrafficMix.EveryListingSeededExactly`.
- A stock count cached late disagrees with the tables: `Inventory.LateFillDisagrees`. A session written from rows
  that have changed since they were read disagrees with them: `Accounts.WriteAgreesExactly`.

## Model

| member | source | states |
|---|---|---|
| Cart.NormalizeItems | backend/internal/order/order.go:497-514 | the loop succeeds exactly when the list is not empty, no id or quantity is zero and no listing's total exceeds the 64-bit bound; it then returns the normal form, one line a listing |
| Cart.TurnedAwayExactly | backend/internal/order/order.go:497-514 | a list is turned away exactly when it is empty, has a zero id or quantity somewhere, or asks for more than 64 bits of one listing |
| Cart.MergedIsNormal | backend/internal/order/order.go:497-514 | the normal form is strictly ascending by listing with no zero and nothing over the bound |
| Cart.NormalFormUnique | backend/internal/order/order.go:497-514 | any strictly ascending list with each listing's whole quantity is the normal form |
| Cart.QuantityPreserved | backend/internal/order/order.go:497-514 | each listing is asked for as many units after as before |
| Cart.OrderIndependent | backend/internal/order/order.go:497-514 | two permutations of a list have the same outcome, success or failure |
| Cart.RepublishIsIdentity | backend/internal/order/order.go:108-112 | a normalized list that is published and normalized again by the consumer comes out unchanged |
| Reserving.GuardIsExact | backend/internal/order/order.go:212-215 | the division guard refuses exactly the products that do not fit 64 bits |
| Reserving.PriceIsCost | backend/internal/order/order.go:202-221 | the guarded loop gives a total exactly when every listing is on sale and the mathematical sum fits 64 bits, and the total is that sum |
| Reserving.ReserveKeepsStage | backend/internal/order/order.go:234-259 | the whole reservation loop keeps codes, items and bindings in order, loses no code, and writes one item row a line |
| Reserving.ItemsAddUp | backend/internal/order/order.go:234-238 | the new order's line amounts add up to its cost and no other order's items change |
| Idempotency.ReserveIffInStock | backend/internal/order/order.go:234-259 | the loop succeeds exactly when every line finds its quantity among the free codes of its listing |
| Idempotency.MadeExactlyWhen | backend/internal/order/order.go:190-267 | an order is made exactly when prices fit, stock is there, the buyer exists, the number is free and no row stands in the way |
| Refusals.StopsExactly | backend/internal/order/order.go:202-221 | the pricing stops at the first line that is not for sale or too dear by itself with ErrListingUnavailable, at the first that is for sale and only on top of the lines before it too dear with ErrInvalidRequest, never for want of stock, and otherwise not at all |
| Refusals.RefusedExactlyWhen | backend/internal/order/order.go:190-267 | each refusal of the create transaction exactly: the cart's first bad line decides between unavailable and invalid, then buyer and order number, then stock (out of stock exactly when a line wants more free codes than there are), last the row |
| Refusals.ProcessDecides | backend/internal/order/order.go:147-188 | a new request is left with the row it deserves: created exactly when nothing is wrong with it, otherwise rejected for the reason that holds |
| Refusals.ProcessKnows | backend/internal/order/order.go:147-188 | a request that has its row is reported as known, or turned down again if its cart is not acceptable, and nothing changes |
| Keeping.CreateKeeps | backend/internal/order/order.go:190-267 | the create transaction keeps every invariant of stock, books and requests, whatever its outcome, and touches no sold code |
| Keeping.RejectKeeps | backend/internal/order/order.go:288-290 | inserting a rejected row unless one is there keeps them too |
| Keeping.ExpireKeeps | backend/internal/order/order.go:318-352 | expiring an order keeps them, with its codes back on sale |
| Idempotency.MadeRows | backend/internal/order/order.go:223-265 | a made order is pending for ten minutes at the price of its lines, with the created row naming it |
| Idempotency.ExpiryUndoesCreation | backend/internal/order/order.go:318-352 | an order that expires unpaid gives back precisely what making it took: every code is as it was |
| Ascending.LowestUnique | backend/internal/order/order.go:241-241 | the codes taken are the lowest free ids, and that determines them |
| Paying.BindAll | backend/internal/payment/payment.go:136-146 | over codes that have an item and no binding yet, the loop binds and sells every one of them and touches no other |
| Paying.SettleSucceeds | backend/internal/payment/payment.go:112-147 | in a good state a settlement fails only on its own key or random number; the late missing-item failure cannot happen and the signed amount is exact |
| Paying.PayKeeps | backend/internal/payment/payment.go:57-148 | a payment keeps every invariant, and totals always fit a word |
| Paying.RegisterKeeps | backend/internal/store/models.go:33-45 | registration with or without the bonus keeps them |
| ShopRuns.StepKeeps | backend/internal/order/order.go:190-354 | every transaction, in any order, keeps the invariant and the stock there is |
| ShopRuns.StepLater | backend/internal/order/order.go:190-354 | no step changes a sold code, a binding, a request row, an attempt, a ledger row or a decided order, or gives an order another item |
| ShopRuns.Always | backend/internal/order/order.go:147-354 | the invariant holds in every state of every run |
| ShopRuns.Forever | backend/internal/order/order.go:147-354 | what may not change stays the same between any two states of a run |
| Promises.OwnershipInRuns | backend/internal/order/order.go:234-267 | items of a pending order hold exactly their quantity of reserved codes of their listing, of a paid one exactly their quantity of sold ones, of an expired one none; no code serves two items |
| Promises.StockConserved | backend/internal/order/order.go:240-257 | per listing the number of codes over all statuses is conserved and sold codes stay sold |
| Promises.OneOrderPerRequest | backend/internal/order/order.go:261-265 | every order has exactly one created row, of its own buyer |
| Promises.RowsAreFinal | backend/internal/order/order.go:288-290 | a request row never changes |
| Promises.MoneyInRuns | backend/internal/payment/payment.go:104-125 | totals are sums of price times quantity, balances are opening plus ledger and the last balance written, every paid order has one debit of its total and no other order has any |
| Promises.HeldIsExpected | backend/internal/payment/payment.go:88-102 | a pending order always holds as many codes as its items need, so the count comparison never fails, wrap-around included |
| Promises.PayIsPlain | backend/internal/payment/payment.go:57-148 | in good states the transaction equals a plain payment without counts, bindings checks or late failures |
| Deadlines.AnsweredExactly | backend/internal/payment/payment.go:57-148 | each answer of a payment exactly: a used key gives its receipt or a conflict, an order that is not pending or whose deadline has come is unavailable, then missing or short balance, then a refused attempt row |
| Deadlines.PaysExactlyInTime | backend/internal/payment/payment.go:73-148 | the tables change exactly when key, balance and attempt row are in order and the clock is before the deadline of a pending order, which is then paid at that moment |
| Deadlines.PaymentWrites | backend/internal/payment/payment.go:112-147 | the balance falls by the total, one ledger row and one attempt row say so, every code held for the order is bound to its item and sold, and no other code or binding changes |
| Deadlines.NamelessIsRefused | backend/internal/payment/payment.go:58-72 | a call without buyer, key or order number is invalid, one that names no order of the buyer finds it unavailable; neither changes anything |
| Deadlines.PaidInTimeInRuns | backend/internal/payment/payment.go:85-87 | in every state of every run each paid order was paid before its deadline |
| Deadlines.ExpiresExactlyWhenDue | backend/internal/order/order.go:318-352 | an order expires exactly when it is pending and its deadline has come; then just the codes reserved for it go back on sale |
| Deadlines.PaidOrExpired | backend/internal/payment/payment.go:85-87 | a pending order whose payment is in order can at any moment be paid or expired, and never both |
| Deadlines.BatchExactly | backend/internal/order/order.go:297-297 | a sweep's batch holds only pending orders whose deadline has come, and one is left out only when the batch is full of orders due no later |
| Deadlines.EveryOrderMoves | backend/internal/order/order.go:147-354 | each transaction leaves an order alone, pays it in time, expires it in due time, or opens it for ten minutes |
| Deadlines.DecidedBy | backend/internal/order/order.go:292-354 | an order decided in a run was decided by one step: a payment that read the clock before its deadline, or an expiry of it that read it at the deadline or later |
| Deadlines.TenMinutes | backend/internal/order/order.go:223-232 | an order made at t is expired by no step whose clock reads less than t plus ten minutes, and paid by none that reads as much, whatever sweeps and clocks do |
| Deadlines.RegistersExactly | backend/internal/store/models.go:33-45 | in a good state somebody new always gets in, with exactly the bonus if it is due, and anybody known is refused |
| Idempotency.RetryReturnsTheReceipt | backend/internal/payment/payment.go:73-82 | once a call has paid, the same call later in the run gives the identical receipt and changes nothing |
| Idempotency.ReuseIsRefused | backend/internal/payment/payment.go:73-87 | the key on another order, or another key on a paid order, is refused |
| Idempotency.FailureChangesNothing | backend/internal/payment/payment.go:57-148 | the specified payment leaves all tables as they were unless it succeeds; that the code does is the rollback in Shop.Database.Settle and Shop.Database.Pay |
| Shop.Database.CreateOrder | backend/internal/order/order.go:190-286 | the imperative transaction with rollback computes the specified tables and outcome, and decrements the cache only after commit |
| Shop.Database.PriceLines | backend/internal/order/order.go:202-221 | the pricing loop computes the specified price or refusal |
| Shop.Database.ReserveLines | backend/internal/order/order.go:234-259 | the reserving loop computes the specified stage and the quantities per listing |
| Shop.Database.DecrementCache | backend/internal/order/order.go:278-284 | each present entry goes down by what was reserved, no entry is created |
| Shop.Database.Reject | backend/internal/order/order.go:288-290 | a row is added only where none is |
| Shop.Database.ExpireOne | backend/internal/order/order.go:318-354 | computes the specified tables and reports the listings that got codes back |
| Shop.Database.DueOrders | backend/internal/order/order.go:297-297 | the earliest overdue orders in order, exactly min(limit, overdue) of them |
| Shop.Database.ExpirePending | backend/internal/order/order.go:292-316 | of the batch, up to the first order whose transaction fails, just those expire that are overdue at their own clock reading, and their number is returned; with no failure, and unless the clock goes back, that is the whole batch; invariant and cache agreement are kept |
| Shop.Database.Drain | backend/cmd/api/main.go:72-98 | sweeping while batches come back full and without error rests at last, with only pending orders expired; on a clock that does not go back only ones overdue at the last look, and all of those if no sweep failed |
| Shop.Database.Pay | backend/internal/payment/payment.go:57-162 | the imperative payment computes the specified tables and result |
| Shop.Database.Settle | backend/internal/payment/payment.go:112-147 | the writes with rollback at every failure compute the specified settlement |
| Shop.Database.Register | backend/internal/store/models.go:33-45 | user, balance and bonus ledger row, all or none |
| Shop.Database.Process | backend/internal/order/order.go:147-188 | validation, normalization, creation and the rejected row, to completion |
| Shop.Database.Available | backend/internal/order/order.go:356-391 | the cached number is believed, otherwise the holder of the rebuild lock counts and caches and anybody else is told to wait; id zero is refused; an answer is the number of codes on sale when the cache agrees |
| Shop.OneMoreSweep | backend/cmd/api/main.go:82-91 | a sweep after others: all of them together expire just their orders, fewer are pending, and after a sweep that was neither full nor cut short nothing is overdue |
| Inventory.CreateTakes | backend/internal/order/order.go:278-284 | a created order takes exactly its quantity off the available count of each listing |
| Inventory.CreateAgrees | backend/internal/platform/clients.go:356-375 | the decrement leaves every present entry equal to the count, and never has to clamp |
| Inventory.ExpireAgrees | backend/internal/order/order.go:301-314 | dropping the entries of the listings that got codes back keeps the cache right |
| Inventory.PayAgrees | backend/internal/payment/payment.go:136-147 | payments leave the cache right |
| Inventory.AvailableIsExact | backend/internal/order/order.go:356-391 | in every run of completed operations, with entries vanishing at any time, the answer is the number of codes on sale |
| Inventory.LateFillDisagrees | backend/internal/order/order.go:374-389 | a count cached after an order committed in between is wrong, for every such order |
| Delivery.ShopMoves | backend/internal/order/order.go:147-188 | each worker step leaves the tables alone or is one transaction of the shop |
| Delivery.QueueStays | backend/internal/order/order.go:393-434 | with commits whose reply is lost, restarts and reassignments: below every committed offset and behind every reader position all is decided, except what a worker is busy with; every step keeps this |
| Exactly.CommittedAreDecided | backend/internal/order/order.go:393-434 | every message below a partition's committed offset is a command whose request has its row |
| Exactly.PoisonBlocks | backend/internal/order/order.go:413-424 | a message no worker can process is never committed past |
| Exactly.DecisionsAreFinal | backend/internal/order/order.go:261-290 | a created or rejected row never changes, whatever is delivered again or races |
| Decisions.TurnsOnlyOnRefusal | backend/internal/order/order.go:147-188 | a worker comes to turn a message away only because its items cannot be normalized or its own transaction refused it for that reason; an infrastructure error never does that |
| Decisions.WhyDecided | backend/internal/order/order.go:147-188 | every row was decided at one moment of the run: by a transaction that made that order, or by a refusal for that reason |
| Decisions.ExactlyOnce | backend/internal/order/order.go:147-290 | however often a command is delivered: one row a request, decided at one moment of the run from one message sent under that id by that buyer; a rejected one deserved just that reason on the tables of that moment, a created one none; its order carries exactly that message's normalized lines and belongs to no other request |
| Decisions.TransactingOn | backend/internal/order/order.go:156-188 | what is left to do after the transaction: nothing when an order was made or the request had been seen, the rejected row after a refusal, another look after an error |
| Decisions.AloneIsProcess | backend/internal/order/order.go:147-188 | the steps of a worker that nothing interrupts leave the tables and the answer of Process: a message to commit, or an error that restarts the consumer with its offset uncommitted |
| Exactly.NoOrderUnasked | backend/internal/order/order.go:261-265 | every order there is belongs to a request |
| Exactly.RedeliveryChangesNothing | backend/internal/order/order.go:195-200 | a decided command delivered again changes no table, in whichever phase |
| Exactly.Finishes | backend/internal/order/order.go:407-431 | a worker left to itself brings a validly submitted message to its row and its commit, also when the reply of its transaction is lost |
| Exactly.Advances | backend/internal/order/order.go:393-434 | an idle worker that is assigned a partition fetches the message at its committed offset and, if that was validly submitted, gets the partition past it |
| Exactly.OthersAddNoRow | backend/internal/payment/payment.go:57-148 | no other transaction adds or changes a request row |
| Locks.StepKeeps | backend/internal/order/order.go:204-211 | listing rows are held by one transaction at a time and taken in ascending order |
| Locks.NoDeadlock | backend/internal/order/order.go:204-211 | in no reachable state do transactions wait for each other in a circle |
| Locks.EveryoneFinishes | backend/internal/order/order.go:204-211 | from every reachable state all transactions under way can be brought to their end |
| Locks.CartsBegin | backend/internal/order/order.go:497-514 | a normalized cart gives the ascending order the result needs |
| Locks.UnorderedDeadlocks | backend/internal/order/order.go:513-513 | without it two transactions can wait for each other |
| SessionStore.ReplaceKeepsExactly | backend/internal/platform/clients.go:163-174 | replacing keeps slots and sessions in step exactly when the new id is not another device's session |
| SessionStore.DeleteIsExact | backend/internal/platform/clients.go:176-180 | the conditional delete removes the session it names from its slot, and nothing else otherwise |
| SessionStore.SlotIffSession | backend/internal/platform/clients.go:163-180 | a slot holds an id exactly when that session exists for its user and device |
| SessionStore.OneSessionPerDevice | backend/internal/platform/clients.go:163-174 | no device has two sessions |
| SessionStore.CoherentInRuns | backend/internal/platform/clients.go:163-193 | slots and sessions stay in step through any sequence of replace, delete, rotate and expiry with fresh ids |
| SessionStore.StaleDeleteIsHarmless | backend/internal/platform/clients.go:176-180 | a session that is gone stays gone, and deleting it later harms no newer one |
| SessionStore.KeysLiveTogether | backend/internal/platform/clients.go:212-224 | session record, device slot and refresh index are written together and live equally long, to the end of their time |
| SessionStore.RedisStore.ReplaceSession | backend/internal/platform/clients.go:212-224 | the script in place, its refusals, and the previous id it reports |
| SessionStore.RedisStore.DeleteSessionIfCurrent | backend/internal/platform/clients.go:260-266 | the script in place |
| SessionStore.RedisStore.RotateRefreshHash | backend/internal/platform/clients.go:268-296 | the script in place with its three answers, and the refusal of a non-positive time to live |
| Refresh.StepKeeps | backend/internal/auth/auth.go:307-360 | every interleaved step keeps: current hashes are unique to a live session, all hashes of a live session are indexed and all rotated ones marked for as long as it lives |
| Refresh.RotatesOnce | backend/internal/auth/auth.go:325-338 | a refresh hash is rotated successfully at most once |
| Refresh.ReplayEndsTheSession | backend/internal/auth/auth.go:307-360 | a call that presents a rotated hash never gets a token, and when it has ended its session is over |
| Refresh.RevokedMeansDeleted | backend/internal/auth/auth.go:344-360 | after the script has seen a replay the session is deleted by the time the call ends, and the invalid-record failure cannot happen |
| Refresh.DeadForever | backend/internal/auth/auth.go:523-537 | no access token of a session that is over is accepted again |
| Refresh.NoRefreshAfter | backend/internal/auth/auth.go:307-342 | once a session is deleted no hash of its family, old or new, is rotated again |
| Refresh.StepsFinish | backend/internal/auth/auth.go:307-360 | the steps of a call, taken in a row, reach the end that the call on its own has |
| Refresh.AloneIsTheSteps | backend/internal/auth/auth.go:307-360 | the uninterrupted call is the composition of the steps |
| Refresh.ReplayAlone | backend/internal/auth/auth.go:331-336 | a replay of a live session takes exactly that session away |
| Refresh.CurrentAlone | backend/internal/auth/auth.go:307-342 | the current hash of a live session is always good for one rotation |
| Access.CompileRole | backend/internal/auth/auth.go:702-770 | the three loops return, in role order, exactly the role permissions allowed after the call, and leave the specified access row and restrictions |
| Access.GrantedExactlyWhen | backend/internal/auth/auth.go:729-760 | a denied permission is granted exactly when the role has it and its restriction is active, has an end, and the end has come; outside the role nothing is |
| Access.CompilingTwice | backend/internal/auth/auth.go:702-770 | a second call at the same time changes nothing |
| Access.OneOutcome | backend/internal/auth/auth.go:702-770 | the specification determines rows and restrictions |
| Accounts.IdentityIsCorrect | backend/internal/auth/auth.go:523-537 | the identity read from Redis alone is an active account in its stored role with permissions the tables allow |
| Accounts.RevokeAllIsExact | backend/internal/auth/auth.go:584-621 | revoking never fails half way and takes exactly the user's sessions |
| Accounts.SignInIsExact | backend/internal/auth/auth.go:539-568 | a completed sign-in leaves a session with precisely what the account may do |
| Accounts.FrozenStaysOut | backend/internal/auth/auth.go:539-542 | an account that is not active cannot sign in and nothing is touched |
| Accounts.WriteAgreesExactly | backend/internal/auth/auth.go:557-561 | writing a session record keeps agreement exactly when it matches the rows at that moment, so a record from rows read earlier does not if they changed |
| Accounts.RestrictedUntil | backend/internal/auth/auth.go:774-810 | after a restriction a sign-in has the permission exactly when the role includes it and the restriction's end has come |
| Accounts.DoKeeps | backend/internal/auth/auth.go:439-507 | every completed operation keeps sessions and tables in agreement |
| Accounts.AgreementInRuns | backend/internal/auth/auth.go:439-621 | so they agree after every run |
| Accounts.ServedAsTheTablesSay | backend/internal/auth/auth.go:523-537 | in every run whoever is let in is active, in the stored role, and may do no more than the tables allow |
| Accounts.RevokesAll | backend/internal/auth/auth.go:439-475 | a change of role, status or restriction that succeeds, and signing out everywhere, shut all the user's sessions out at once |
| Accounts.ChangesComplete | backend/internal/auth/auth.go:584-832 | no such change stops with the rows changed and a session left: it fails exactly when a restriction or its removal finds neither account nor access row, and then changes nothing |
| Standing.StatusIsSet | backend/internal/auth/auth.go:458-475 | a change of status stores it for a known account, leaves role, access rows, restrictions and all other accounts as they were, and ends just that user's sessions |
| Standing.RoleIsSet | backend/internal/auth/auth.go:439-456 | so does a change to a known role; an unknown role or user changes nothing |
| Standing.AdminIsMade | backend/internal/auth/auth.go:480-507 | the configured account becomes an administrator with its sessions ended, once; one that is there already, or none, changes nothing |
| Standing.RestrictionIsSet | backend/internal/auth/auth.go:774-810 | a restriction that ends later than now, or never, denies just that permission and is stored with its end |
| Standing.RestrictionIsLifted | backend/internal/auth/auth.go:812-832 | clearing it allows just that permission again and leaves the restriction inactive |
| Standing.ClearedGivesBack | backend/internal/auth/auth.go:812-832 | the next sign-in after it may do the thing exactly when the role includes it |
| Standing.FreezeLasts | backend/internal/auth/auth.go:458-475 | from a freeze until the next change of status, through every run of other operations, each sign-in of the user is told the account is unavailable and no access token of the user is accepted |
| Standing.SignsInExactly | backend/internal/auth/auth.go:539-568 | each answer of a sign-in and exactly when it is given |
| Standing.SignInWrites | backend/internal/auth/auth.go:551-561 | a sign-in writes one session record with user, device, role, refresh hash and expiry, under the device slot and the refresh index, all for the same time |
| Standing.FailedOpensNone | backend/internal/auth/auth.go:562-566 | a sign-in that does not succeed, a failed login event included, opens no session |
| Standing.SignsUpExactly | backend/internal/auth/auth.go:208-251 | a new account is active, in its role and denied nothing; its first session has exactly the permissions of the role |
| Standing.SignedInUntil | backend/internal/auth/auth.go:523-537 | a session is accepted until the whole second of its end and no longer, as that user in that role with exactly what the account may do, and for nobody else |
| Standing.SignInTakesItsSlot | backend/internal/auth/auth.go:551-561 | a sign-in ends the session its device had before and no other |
| Standing.SignOutIsExact | backend/internal/auth/auth.go:368-379 | signing out ends exactly the named session when it is a live one of the caller, and otherwise changes nothing |
| Standing.StaysSignedIn | backend/internal/auth/auth.go:523-537 | through every run in which nothing concerns its device, session or account, a session is accepted with the same identity until its end |
| Standing.DutiesApart | backend/internal/auth/auth.go:52-56 | in every run only administrators are let manage, only support handles tickets, and neither buys or sells |
| AuthService.Service.CompilePermissions | backend/internal/auth/auth.go:702-770 | access row, lifted restrictions and permissions as specified |
| AuthService.Service.CreateSessionFor | backend/internal/auth/auth.go:539-568 | status check, permissions, session record, and the session withdrawn when its login event cannot be written |
| AuthService.Service.LoadRow | backend/internal/auth/auth.go:682-698 | the access row, created with full access for an account from before the table, or none for an unknown user |
| AuthService.Service.Register | backend/internal/auth/auth.go:208-251 | account, full access row and first session; an id in use is refused; with a fresh session id agreement is kept |
| AuthService.Service.Login | backend/internal/auth/auth.go:253-305 | a session for a known account that is active; with a fresh session id agreement is kept |
| AuthService.Service.RevokeSession | backend/internal/auth/auth.go:344-360 | the session, if it is there, is deleted from its own slot |
| AuthService.Service.LogoutAll | backend/internal/auth/auth.go:420-426 | all sessions of the caller; none of their tokens is accepted afterwards |
| AuthService.Service.RevokeUserSessions | backend/internal/auth/auth.go:584-621 | both devices in turn, stopping at a record that does not belong |
| AuthService.Service.ChangeRole | backend/internal/auth/auth.go:439-456 | validation, update, revocation; sessions agree with the tables afterwards and the user is shut out |
| AuthService.Service.SetAccountStatus | backend/internal/auth/auth.go:458-475 | the status is stored and all else in the tables stays; revocation; agreement afterwards, and the user is shut out |
| AuthService.Service.BootstrapAdmin | backend/internal/auth/auth.go:480-507 | promotion of the configured account; when its role changes, agreement afterwards and the user is shut out |
| AuthService.Service.SetPermissionRestriction | backend/internal/auth/auth.go:774-810 | expiry check, access row created if missing, denial and restriction written, revocation; agreement afterwards, and the user is shut out |
| AuthService.Service.ClearPermissionRestriction | backend/internal/auth/auth.go:812-832 | permission given back, restriction cleared, revocation; agreement afterwards, and the user is shut out |
| AuthService.Service.Logout | backend/internal/auth/auth.go:368-379 | one of the caller's own live sessions, and no other; agreement is kept |
| AuthService.Service.RefreshToken | backend/internal/auth/auth.go:307-342 | the refresh without interruption, which keeps sessions and tables in agreement |
| AuthService.Service.AuthenticateIdentity | backend/internal/auth/auth.go:523-537 | the identity from the session record alone; if sessions agree with the tables it is an active account in its stored role with no more than it may do |
| Seats.ReserveExactly | backend/internal/realtime/hub.go:132-161 | when a seat is refused, who loses a connection for it, and what cooldown that costs |
| Seats.ReserveKeeps | backend/internal/realtime/hub.go:132-161 | a reservation keeps the limit, and seats, reservations and cooldowns apart |
| Seats.RegisterNeverFails | backend/internal/realtime/hub.go:179-188 | the handler behind a reservation always gets its seat |
| Seats.StepKeeps | backend/internal/realtime/hub.go:423-461 | every interleaving of handlers keeps one owner a reservation and one handler a connection |
| Seats.SeatsInRuns | backend/internal/realtime/hub.go:132-212 | seats never exceed the limit, nobody has both a seat and a reservation, every reservation has exactly one handler, nobody is seated during a cooldown |
| Seats.CancelDropsOnlyItsOwn | backend/internal/realtime/hub.go:173-177 | giving up a reservation leaves every other one its own |
| Seats.StaleHandlerIsHarmless | backend/internal/realtime/hub.go:190-196 | a handler whose connection was replaced changes nothing when it leaves |
| Seats.LeavingIsExact | backend/internal/realtime/hub.go:190-196 | one still connected takes out its own peer and no other |
| Seats.ReplacedForGood | backend/internal/realtime/hub.go:147-151 | a connection that was replaced or put out never comes back |
| Seats.DeliveryProtects | backend/internal/realtime/hub.go:342-352 | both ends of a delivery timed strictly later than every delivery before it are put out only when nobody else is connected; the time is read before the lock, so a delivery need not be |
| Seats.PutOutCools | backend/internal/realtime/hub.go:153-160 | a peer put out for being slow, or to make room, is out with a cooldown of its full length from that moment; a slow peer that was replaced costs nobody anything |
| Seats.OutForTheCooldown | backend/internal/realtime/hub.go:132-140 | through every run whoever was put out is told to wait until exactly the end of the cooldown, and is neither seated nor reserved meanwhile |
| Realtime.Table.constructor | backend/internal/realtime/hub.go:97-105 | limits that are not positive get their defaults |
| Realtime.Table.OldestPeer | backend/internal/realtime/hub.go:163-171 | the scan in any order finds a peer with minimal last delivery |
| Realtime.Table.Reserve | backend/internal/realtime/hub.go:132-161 | the method over client references computes the specified seats and answer |
| Realtime.Table.ClaimSeat | backend/internal/realtime/hub.go:142-161 | the branches past the cooldown |
| Realtime.Table.CancelReservation | backend/internal/realtime/hub.go:173-177 | drops the reservation |
| Realtime.Table.Register | backend/internal/realtime/hub.go:179-188 | reservation into seat, or refusal |
| Realtime.Table.Remove | backend/internal/realtime/hub.go:190-196 | by reference: a successor under the same subject stays |
| Realtime.Table.DetachSlowPeer | backend/internal/realtime/hub.go:204-212 | by reference, with a cooldown |
| Realtime.Table.RecordCompletedDelivery | backend/internal/realtime/hub.go:342-352 | both connected ends get the new time |
| RecentMessages.Recent | backend/internal/realtime/hub.go:354-385 | the result is exactly the newest min(limit, total) distinct messages sent or received, newest first |
| RecentMessages.MergeIsTop | backend/internal/realtime/hub.go:365-384 | merging two limited queries loses nothing the limit of the whole would keep, also with messages in both |
| RecentMessages.FirstDistinct | backend/internal/realtime/hub.go:372-384 | the loop keeps the first distinct elements up to the limit |
| RecentMessages.TopIsUnique | backend/internal/realtime/hub.go:359-364 | such a result is determined by the table |
| RecentMessages.TopExists | backend/internal/realtime/hub.go:359-364 | and always exists |
| Snowflake.Generator.NextID | backend/internal/auth/snowflake.go:88-130 | the loop over arbitrary clock readings computes the specified state and outcome |
| Snowflake.NewSnowflake | backend/internal/auth/snowflake.go:51-86 | node ids out of range are refused; the generator starts at the clock with its sequence used up |
| Snowflake.CallIssues | backend/internal/auth/snowflake.go:88-130 | an id is above everything before it, positive, below 2^63 and a packed clock reading; other outcomes but overflow leave the state alone |
| Snowflake.CallDecides | backend/internal/auth/snowflake.go:88-130 | the first reading, or with the millisecond used up the first that shows another one, decides the call: behind, before the epoch, past the last timestamp, or else an id with the next sequence number of that millisecond |
| Snowflake.WaitsExactlyWhen | backend/internal/auth/snowflake.go:104-113 | a call waits exactly as long as its millisecond is used up and the clock shows no other |
| Snowflake.IdsOfAMillisecond | backend/internal/auth/snowflake.go:104-118 | one millisecond yields exactly 4096 ids in sequence, one fewer at the reserved zero, and then calls wait |
| Snowflake.Unpacks | backend/internal/auth/snowflake.go:128-129 | time, node and sequence are read back from an id |
| Snowflake.FieldsDoNotOverlap | backend/internal/auth/snowflake.go:128-129 | joining the shifted fields by bitwise or adds them up, and each can be masked out again |
| Snowflake.StrictlyIncreasing | backend/internal/auth/snowflake.go:88-130 | ids strictly increase on any clock, with rollbacks and exhausted sequences, as long as no timestamp overflowed before |
| Snowflake.IncreasingOnMonotoneClock | backend/internal/auth/snowflake.go:88-130 | on a clock that never goes back they do so with no condition |
| Snowflake.AfterOverflowExactly | backend/internal/auth/snowflake.go:119-122 | after an overflow all later ids are above the earlier ones exactly when the sequence was zero already |
| Snowflake.NodesNeverCollide | backend/internal/auth/snowflake.go:128-129 | generators with different nodes never issue the same id |
| Snowflake.RestartIssuesHigher | backend/internal/auth/snowflake.go:51-64 | a restarted generator issues only ids above its predecessor's when the clock is not behind |
| TrafficMix.HotShareIsExact | backend/cmd/loadtest/main.go:80-86 | among the first n requests exactly floor(n*P/100) are hot |
| TrafficMix.EveryWindowIsEven | backend/cmd/loadtest/main.go:71-86 | every run of m requests, wherever it starts, has the share rounded down or up |
| TrafficMix.RequestsExactly | backend/cmd/loadtest/main.go:74-90 | each listing's share is its kind's requests dealt round its kind |
| TrafficMix.ServedEvenly | backend/cmd/loadtest/main.go:74-90 | counts of listings of one kind never differ by more than one |
| TrafficMix.DealtExactly | backend/cmd/loadtest/main.go:85-89 | round-robin counts in closed form |
| TrafficMix.Seed | backend/cmd/loadtest/main.go:193-271 | the seeding loop gives each listing as many codes as requests would go to it; unsound mixes are refused |
| TrafficMix.DemandFits | backend/cmd/loadtest/main.go:335-337 | a run of no more requests than codes finds a code for each |
| TrafficMix.WarmUpFitsExactly | backend/cmd/loadtest/main.go:446-454 | with the warm-up request it still fits exactly when one of the unused codes is of the first listing, never when the run uses all |
| TrafficMix.EveryListingSeededExactly | backend/cmd/loadtest/main.go:194-199 | every listing gets a code exactly when, with c codes and a hot mix, floor(c*P/100) reaches the hot listings and the rest of c the others; the seed's own condition is enough only without hot listings |
| TrafficMix.HotListingLeftOut | backend/cmd/loadtest/main.go:194-199 | a mix the seed accepts whose hot listing gets no code |
| Alerts.Manager.Evaluate | backend/internal/monitoring/alerts.go:93-142 | in any map order and with any failing mails, every rule's state and mails follow its own step |
| Alerts.MailsHaveShape | backend/internal/monitoring/alerts.go:103-141 | a rule's delivered mails have the shape (alert+ recovery)*, and alerts of one episode are a cooldown apart, on any clock that never shows the zero time |
| Alerts.RulesAreIndependent | backend/internal/monitoring/alerts.go:93-142 | over any evaluations from the start, in any map order and with any failing mails, each rule's state and mails are what its own samples make of it |
| Alerts.ManagerKeepsShape | backend/internal/monitoring/alerts.go:93-142 | so over a manager's whole life, on a clock that never shows the zero time, every rule's mails have that shape and spacing |
| Alerts.EpisodeSpaced | backend/internal/monitoring/alerts.go:114-117 | so are any two of one episode |
| Alerts.CountsQualifying | backend/internal/monitoring/alerts.go:105-112 | the count is the number of samples that raised the rule since it was last forgotten |
| Alerts.FirstAlertExactly | backend/internal/monitoring/alerts.go:105-130 | the first alert goes out exactly with the first deliverable sample that brings that number to the required one |
| Alerts.NextMailExactly | backend/internal/monitoring/alerts.go:114-140 | while an episode lasts a deliverable raising sample sends a reminder exactly when the last alert is a cooldown ago, and a deliverable clear one sends the recovery and forgets the rule |
| Alerts.ClearIsQuiet | backend/internal/monitoring/alerts.go:130-133 | between episodes a clear sample sends nothing and changes nothing |
| Alerts.NeedNotBeConsecutive | backend/internal/monitoring/alerts.go:130-133 | two samples with a clear one between them are enough where two in a row are asked for |
| RateLimiter.FixedWindowLimiter.AllowKey | backend/internal/protection/limiter.go:39-53 | the key's bucket decides and changes, no other does |
| RateLimiter.LagIsWaiting | backend/internal/protection/limiter.go:39-42 | the clock is read before the lock is taken, so readings in lock order lag by as much as calls wait for the lock, on a clock that does not go back |
| RateLimiter.WindowBound | backend/internal/protection/limiter.go:39-53 | if no reading lags more than m windows and a tick behind one that got the lock before it, and none is the zero time, no half-open interval of one window has more than 2*limit-1 + m*(limit-1) readings of calls let through |
| RateLimiter.InOrderBound | backend/internal/protection/limiter.go:39-53 | with readings in the order of the lock that is 2*limit-1 |
| RateLimiter.WithinAWindowBound | backend/internal/protection/limiter.go:39-53 | with readings that lag at most a window it is 3*limit-2 |
| RateLimiter.BoundIsMet | backend/internal/protection/limiter.go:39-53 | for every limit, window and m some calls meet the bound, with readings that lag (m-1) windows and two ticks for m > 0, and in order for m = 0 unless a window is a single tick; so without a bound on the lag there is none |
| RateLimiter.MostExactly | backend/internal/protection/limiter.go:39-53 | for every limit, window and lag the largest number of calls let through in one window, exactly: it is never exceeded, and every smaller number is |
| RateLimiter.TwiceTheLimitExactly | backend/internal/protection/limiter.go:39-53 | a window never has more than 2*limit exactly when readings lag at most a tick, or the limit is 1, or it is 2 and they lag at most a window and a tick |
| RateLimiter.OutOfOrderExceeds | backend/internal/protection/limiter.go:39-53 | three a window of ten: nine calls, two of them two ticks late, are all let through and seven of them fall in one window |
| RateLimiter.RefusalIsEarned | backend/internal/protection/limiter.go:39-53 | nobody is refused unless the whole limit was let through in the window just past, widened on both sides by what readings lag; with readings in lock order it is that window |
| RateLimiter.StragglerRefused | backend/internal/protection/limiter.go:39-53 | a reading one tick behind the lock order can be refused though nothing was let through up to it |

## Left out

- Shop.Database.Available: whether somebody holds the rebuild lock is an input; its expiry and its release by token are not modelled.
- Shop.Database.DecrementCache: cache entries are numbers; unreadable entries, which the script deletes, and the printing of numbers above 10^14 are not modelled.
- Keeping.CreateKeeps: the second stock check by affected rows (order.go:255) always agrees with the first here, because a transaction is one step.
- Refresh.ReplayEndsTheSession: deadlines are whole milliseconds, so the part of a millisecond that `ttlMillis` cuts off is not modelled.
- Accounts.AgreementInRuns: holds for operations run to completion; Accounts.WriteAgreesExactly says when a half-done one breaks it.
- Delivery.Next: the consumer loop and its restart are steps of a state machine rather than a loop over fields, because their interleaving is what is proved about.
- Delivery.QueueStays: offsets of one partition may be committed by any worker that processed them; the broker's own refusal of members that were fenced out is not modelled, and would only remove behaviour.
- Locks.NoDeadlock: listing rows only. Code rows are taken with SKIP LOCKED and never waited for; waits on the unique key of request rows and on referenced user rows are not modelled.
- AuthService.Service.Register: starts where the verification code and password have been accepted and the email is free.
- AuthService.Service.Login: starts where the code or password has been accepted; lockout and the lookup by email are not modelled.
- Seats.SeatsInRuns: a client is known by a number in the runs; Realtime.Table has the references.
- Alerts.Manager.Evaluate: the rules that are raised are an input; the thresholds and floating-point rates behind them, the mail texts and the returned error list are not modelled.
- Snowflake.Generator.NextID: a call whose clock never advances waits for ever; the model calls that `Waiting`.
- TrafficMix.Seed: codes are counts per listing; users, tokens and the batching of inserts are not modelled.
- Adding and reviewing activation codes: the runs start from the codes there are, and only order transactions move them.
- HTTP handlers, JSON, JWT, bcrypt, SMTP, WebSocket frames and the browser front end: libraries and plumbing.
- MySQL isolation below a transaction, collation of strings, affected-row quirks, Redis and Kafka failures between two halves of an operation.
- Emails, verification codes, password lockout, login and account event rows: guards before the operations modelled here, or append-only history.
- Deliveries, settlements, earnings, outbox, cart table: not written by the services modelled.
- Prometheus queries, Kafka lag sampling, configuration, migrations, fixtures, load generation and its quantiles: shallow or outside the core.
