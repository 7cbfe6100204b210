# Trading system core, modelled in Dafny

The trading system is a federation of stock exchanges. Each exchange owns
the stocks listed on it. It buys and sells them for clients and for other
exchanges. Once per tick it replenishes them from a quantity schedule, and it
logs a snapshot of its whole stock table after every change so that it can
recover after a crash. Orders for stocks listed elsewhere are forwarded to
the exchange that a chain of naming servers (Asia, Africa, Europe, America,
each with a backup) names for the stock. Mutual-fund orders are split into
legs, and the legs that went through are sold back when one fails.

The model covers four pieces of sequential logic:

- `stock.dfy` (module `Stocks`): the `Stock` class, with its per-tick price
  and quantity tables and the available quantity that buys and sells change
  in place.
- `csv_reader.dfy` (module `CsvParsing`): the character loop of the CSV line
  parser, proved to compute a step function `Step`/`Run`/`Parse`, with the
  properties of `Parse`, and the reader's line bookkeeping.
- `server.dfy` (module `NamingServer`): the naming server's three tables and
  two neighbour ports, the handlers for registration, address requests and
  down-exchange notifications, the caching of answers and the failover to a
  neighbour's backup. Pure functions (`Register`, `Evict`, `Cache`,
  `UpdateNext`, `Forward`, `Resolve`, `NotifyDown`) say what each handler does
  to the routing state. The `Server` class's methods are proved to do exactly
  that.
- `exchange.dfy` (module `Exchanges`) and `snapshots.dfy` (module
  `Snapshots`): the exchange's internal transaction, the timer task, the
  catch-up timing and log recovery of registration, the mutual-fund saga, the
  request dispatch, and the `Hashtable.toString` snapshot format with its
  parse back.

`java_lang.dfy` (module `JavaLang`) holds the parts of the Java runtime the
core relies on: 32-bit `int` wrap-around, `String.valueOf(int)` and
`Integer.parseInt`, `trim`, `split` on a one-character pattern, `startsWith`
and truncating division.

Every reply from the network is an input. For the naming server, `Net` says
which ports accept a connection and what line each neighbour answers. For the
exchange, `Network` says whether the naming server and its backup are up,
what address the naming service gives for a stock, which exchanges accept a
connection, and what each answers to an order, including no answer at all.
The sell-backs of a fund order ask the naming service again, after the legs
have changed what the servers know, so they see a network of their own.
The clock (`now`), the server's start time and the contents of the log file
are parameters. A Java exception that ends the handling of a request is an
explicit outcome (`None`, or `ok == false`). So is a read that never
returns: a peer that accepts an order and sends no line back leaves the
handler waiting, or throwing on the missing line. Either way it does nothing
more and the client gets no reply (`None`).

Where the code departs from what its comments describe, the model follows
the code:

- A late exchange that registers exactly on a tick boundary waits a whole
  second (delay 1000) instead of firing at once. Catching up 5000 ms late
  gives tick 6 and delay 1000 (`CatchUpExample`).
- The timer task logs one snapshot per replenished stock, not one per tick.
- Eviction of a cached entry ignores the reported address. Only an internal
  (registered) entry is checked against it.
- Only the server that originated a relayed request caches the answer. The
  relaying servers do not.
- A neighbour's backup that answers makes `updateNextPort` run with the
  backup's port, which moves the stored port one below the primary, not to
  the backup (`FailoverMovesPortDown`).
- Fund legs always take the remote path, because the code tests the stock
  name against the stock table's values (`Hashtable.contains`), which are
  `Stock` objects. A leg for a stock listed on the same exchange is sent to
  that exchange's own port and is traded and logged by another of its
  handlers, as a separate request from a peer.
- Compensation always sells (`"S"`), whatever the original action was.
- An unknown fund name has no legs, so the fund order succeeds and reports
  no stock. Any action other than `"B"` is a sell.
- The fund order is not atomic when a leg or a sell-back never answers: the
  handler stops there, the legs already bought are not sold back, and the
  client gets no reply.

## Model

| member | source | states |
|---|---|---|
| `Stocks.Stock.constructor` | src/project/Stock.java:28-40 | a new stock has empty price and quantity tables and an available quantity of 0 |
| `Stocks.Stock.ToString` | src/project/Stock.java:43-46 | the text is the decimal of the available quantity, and parsing it back gives that quantity |
| `Stocks.Stock.SetPrice` | src/project/Stock.java:63-65 | after setting the price at tick t, `getPrice(t)` returns it and every other tick keeps its price |
| `Stocks.Stock.SetQuantity` | src/project/Stock.java:68-70 | after setting the quantity at tick t, `getQty(t)` returns it and every other tick keeps its quantity |
| `Stocks.Stock.GetPrice` | src/project/Stock.java:73-75 | the price recorded for the tick; a tick with no entry, where unboxing the missing (null) entry throws, is excluded by the precondition |
| `Stocks.Stock.GetQty` | src/project/Stock.java:77-79 | the quantity scheduled for the tick; a tick with no entry, where unboxing the missing (null) entry throws, is excluded by the precondition |
| `Stocks.Stock.AddCurrentQty` | src/project/Stock.java:85-87 | the quantity grows by exactly `qty` with `int` wrap-around, and by exactly `qty` with no wrap when `qty >= 0` does not overflow |
| `Stocks.Stock.DeCurrentQty` | src/project/Stock.java:89-96 | succeeds iff at least `qty` is available; on failure nothing changes; on success exactly `qty` is removed; a non-negative quantity stays non-negative unless the subtraction overflows |
| `Stocks.BuyKeepsNonNegative` | src/project/Stock.java:89-96 | a buy of at most what a non-negative holding has, without overflow, removes exactly `qty` and leaves a non-negative quantity |
| `Stocks.AddKeepsNonNegative` | src/project/Stock.java:85-87 | adding a non-negative quantity that does not overflow adds exactly that quantity |
| `Stocks.OverflowBreaksNonNegativity` | src/project/Stock.java:85-96 | a buy of `Integer.MIN_VALUE` from 0 and an addition past `Integer.MAX_VALUE` both make the quantity negative |
| `CsvParsing.ParseLine` | src/project/CSVReader.java:82-160 | the character loop with its three flags computes `Parse`, and the result has at least one field |
| `CsvParsing.ParseDefault` | src/project/CSVReader.java:69-71 | parsing with the default separator `,` and quote `"` |
| `CsvParsing.RunStopped` | src/project/CSVReader.java:149-151 | after a line feed outside quotes no later character changes the state |
| `CsvParsing.RunQuoted` | src/project/CSVReader.java:108-123 | inside quotes, separators, CR and LF are added to the current field and no field is closed |
| `CsvParsing.PlainLine` | src/project/CSVReader.java:139-157 | a line without quote, CR or LF is cut at every separator, and joining the fields with the separator gives the line back |
| `CsvParsing.PlainDefaultLine` | src/project/CSVReader.java:139-157 | the same round trip for the default separator and quote |
| `CsvParsing.FieldCount` | src/project/CSVReader.java:139-157 | the result has exactly one field more than the separators met outside quotes before any LF |
| `CsvParsing.EmptyLine` | src/project/CSVReader.java:84-89 | the empty line is not rejected by the null guard and yields one empty field |
| `CsvParsing.CarriageReturnDropped` | src/project/CSVReader.java:146-148 | outside quotes a CR is dropped: removing it does not change the result |
| `CsvParsing.NewlineStops` | src/project/CSVReader.java:149-151 | outside quotes an LF ends parsing: whatever follows it is ignored |
| `CsvParsing.QuotedFirstField` | src/project/CSVReader.java:108-137 | when the line starts with `"`, the enclosing quotes of the first field are not part of its value and separators inside them are ordinary characters |
| `CsvParsing.QuotedFieldExample` | src/project/CSVReader.java:108-137 | `"a,b",c` parses to `["a,b", "c"]` |
| `CsvParsing.OpeningQuoteKept` | src/project/CSVReader.java:125-137 | when the line does not start with `"`, an opening quote is kept as a literal `"`, a separator inside the quotes is literal, and the closing quote is dropped |
| `CsvParsing.OpeningQuoteExample` | src/project/CSVReader.java:125-137 | `a"b,c"d` parses to the one field `a"b,cd` |
| `CsvParsing.CsvReader.constructor` | src/project/CSVReader.java:25-28 | a new reader is at the first line with a line index of 0 |
| `CsvParsing.CsvReader.HasNextLine` | src/project/CSVReader.java:36-38 | true iff a line is left; it becomes the current line, and at the end the current line is null |
| `CsvParsing.CsvReader.ReadLine` | src/project/CSVReader.java:45-48 | the line index grows by exactly 1 and the result is the parse of the line fetched by the last `hasNextLine`; a null line is excluded by the precondition |
| `CsvParsing.CsvReader.CurrentLineIndex` | src/project/CSVReader.java:59-61 | the number of lines parsed so far, which `ReadLine` raises by one |
| `NamingServer.TopologyShape` | src/project/Server.java:46-71 | every neighbour on the left has a lower port and every one on the right a higher port; only Asia lacks a left and only America a right neighbour; a backup shares its primary's position and listens one port higher |
| `NamingServer.Server.constructor` | src/project/Server.java:39-71 | a server starts with empty tables and the neighbour ports of its region |
| `NamingServer.RegisterEffect` | src/project/Server.java:197-201 | registration maps the name to its port and stock set, marks it internal, changes no other exchange, is idempotent and keeps the tables consistent |
| `NamingServer.Server.RegisterExchange` | src/project/Server.java:197-201 | the tables become `Register` of the old tables and the neighbour ports are unchanged |
| `NamingServer.Server.GetInternalExchangeAddress` | src/project/Server.java:203-205 | the address registered for the exchange; an unregistered name, where unboxing the missing (null) entry throws, is excluded by the precondition |
| `NamingServer.Server.HandleRegistration` | src/project/Server.java:100-125 | the registration branch registers the exchange with the set of listed stocks and answers the start time |
| `NamingServer.Server.GetExchangeWithStock` | src/project/Server.java:375-382 | the result is an exchange whose stock set holds the stock, and it is null exactly when no exchange's set holds it |
| `NamingServer.EvictRegistered` | src/project/Server.java:282-288 | an internal exchange is removed from all three tables iff its stored address is the reported one, and otherwise nothing changes |
| `NamingServer.EvictCached` | src/project/Server.java:289-295 | a cached entry is removed whatever address it holds, and the internal set is unchanged |
| `NamingServer.EvictFrame` | src/project/Server.java:279-296 | eviction touches no other exchange and keeps the tables consistent |
| `NamingServer.Server.RemoveDownExchangeCache` | src/project/Server.java:279-296 | the tables become `Evict` of the old tables and the neighbour ports are unchanged |
| `NamingServer.CacheEffect` | src/project/Server.java:429-441 | caching maps the name to the address, adds the stock to its set (starting from an empty set), leaves the internal set and the other exchanges alone, and keeps the tables consistent |
| `NamingServer.Server.CacheAnswer` | src/project/Server.java:429-441 | the tables become `Cache` of the old tables |
| `NamingServer.UpdateNextEffect` | src/project/Server.java:552-571 | only the neighbour port on the side of `next` moves: up by one when `next` is a multiple of 1111, down by one otherwise |
| `NamingServer.Server.UpdateNextPort` | src/project/Server.java:552-571 | the state becomes `UpdateNext` of the old state |
| `NamingServer.FailoverMovesPortDown` | src/project/Server.java:401-411 | after a failover to the backup `p + 1` of a primary `p`, the stored port becomes `p - 1`, not the backup |
| `NamingServer.Server.Connect` | src/project/Server.java:394-416 | connects to the neighbour, or else to its backup and then moves the neighbour port, or to nobody |
| `NamingServer.ForwardTables` | src/project/Server.java:418-448 | asking a neighbour changes the tables only by caching an address answer, and only when caching is on; no connection gives -1 and no change |
| `NamingServer.Server.TwoSideStartNextSocket` | src/project/Server.java:386-454 | the state and the returned address are those of `Forward` with caching on |
| `NamingServer.Server.StartNextSocket` | src/project/Server.java:457-549 | the state and the relayed reply are those of `Forward`, which caches only when `originalPort` is this server's port |
| `NamingServer.Server.Ask` | src/project/Server.java:418-448 | one exchange of a request and reply with a neighbour, as `Forward` describes |
| `NamingServer.Relay` | src/project/Server.java:223-224 | the neighbour a relayed message goes to is one of the two, and in a ring ordered by port it lies on the side away from the originator |
| `NamingServer.RelayDirection` | src/project/Server.java:219-246 | a relayed request is passed to the neighbour `Relay` picks, away from the originator; at the end of the chain the answer is -1 and nothing changes; relaying servers never cache |
| `NamingServer.OriginatorLeftFirst` | src/project/Server.java:254-268 | with two neighbours the left is asked first; its address is the answer when it is not -1, and then the right side plays no part; otherwise the right's address is returned; the reply carries no exchange name |
| `NamingServer.OriginatorOneNeighbour` | src/project/Server.java:269-274 | with one neighbour its reply is relayed unchanged |
| `NamingServer.ResolveConsistent` | src/project/Server.java:209-277 | resolution always sends a reply and keeps the tables consistent |
| `NamingServer.Server.GetExternalExchangeAddress` | src/project/Server.java:209-277 | the state and the reply are those of `Resolve` |
| `NamingServer.Server.HandleRequest` | src/project/Server.java:127-156 | a stock held by a known exchange is answered with that exchange's name and stored address and nothing changes; otherwise the request is resolved through the chain |
| `NamingServer.NotifyNextDelivery` | src/project/Server.java:345-371 | a notification reaches the neighbour or else its backup, at most one server, and never changes the tables |
| `NamingServer.Server.NotifyNextServer` | src/project/Server.java:345-371 | the state and the delivery are those of `NotifyNext` |
| `NamingServer.NotifyDirection` | src/project/Server.java:299-342 | a relayed notification goes to the neighbour `Relay` picks, away from the originator, and stops at the chain's end; the originator notifies both neighbours, left first; every notice names the down exchange and its address; the tables never change |
| `NamingServer.Server.NotifyDownExchange` | src/project/Server.java:299-342 | the state and the deliveries are those of `NotifyDown` |
| `NamingServer.Server.HandleNotify` | src/project/Server.java:158-182 | a server's notification evicts the named exchange and is passed on; an exchange's notification evicts the exchange holding the stock (the name is "" when none does) and this server originates it |
| `Exchanges.Trade` | src/project/Exchange.java:493-498 | a buy succeeds iff at least `qty` is available; a failed buy leaves the quantity unchanged; every other action succeeds |
| `Exchanges.TradeKeepsNonNegative` | src/project/Exchange.java:493-498 | without overflow, a buy removes exactly `qty`, a sell adds exactly `qty`, and the quantity stays non-negative |
| `Exchanges.Exchange.constructor` | src/project/Exchange.java:45-71 | a new exchange has the period 1000, its loaded stock table and a timer that has not stopped |
| `Exchanges.Exchange.ApplyOrder` | src/project/Exchange.java:493-498 | the order changes only the named stock, as `Trade` says |
| `Exchanges.Exchange.ProcessInternalTransaction` | src/project/Exchange.java:484-512 | only the named stock changes, as `Trade` says; exactly one snapshot of the whole table is logged whether or not the order succeeded; the result is "Failed" iff the buy was refused, otherwise the price at the current tick; non-negativity is kept |
| `Exchanges.CatchUp` | src/project/Exchange.java:228-241 | when the system already started, the delay lies in [1, 1000]; otherwise the tick is 1 and the delay is the time left; a difference that does not fit an `int` throws |
| `Exchanges.CatchUpExample` | src/project/Exchange.java:228-241 | 5000 ms late gives tick 6 and delay 1000, 5001 ms late gives tick 7 and delay 999, and 3800 ms early gives tick 1 and delay 3800 |
| `Exchanges.CatchUpSchedule` | src/project/Exchange.java:228-241 | the first tick falls on a whole second after the start; it processes that second's tick, except on an exact boundary, where the delay is 1000 and it processes the previous second's tick |
| `Exchanges.Exchange.Register` | src/project/Exchange.java:219-267 | sets the tick and delay from `CatchUp`, then recovers from the last log line when a log exists; fails when the time difference overflows (having already set the tick to 1 when the system has not started yet, and changed nothing otherwise) or when the line does not parse |
| `Exchanges.LastLine` | src/project/Exchange.java:250-254 | the line recovery reads is the file's last line, or "" for an empty file |
| `Snapshots.Recover` | src/project/Exchange.java:257-266 | recovery never adds or drops a stock, and an empty last line changes nothing |
| `Snapshots.SnapshotRoundTrip` | src/project/Exchange.java:257-266 | recovering a snapshot of distinct letter-only names into a table where those stocks hold 0 gives each of them its logged quantity, keeps every other stock as it was, and drops no stock |
| `Snapshots.EmptySnapshotFails` | src/project/Exchange.java:257-266 | the snapshot `{}` of an empty table cannot be parsed back |
| `Exchanges.Exchange.RecoverFrom` | src/project/Exchange.java:257-266 | the loop over the pieces of the last line succeeds iff `Recover` does and leaves exactly its quantities |
| `Exchanges.Exchange.RecoverPair` | src/project/Exchange.java:260-265 | one `name=qty` piece leaves the quantities that `ApplyPair` gives from those before it: `qty` added to the named stock, and a failure for a piece that does not parse or names no stock |
| `Exchanges.TickCrashesIff` | src/project/Exchange.java:298-305 | the timer task throws iff some visited stock has no quantity entry for the current tick |
| `Exchanges.TickKeys` | src/project/Exchange.java:298-305 | a tick never adds or drops a stock |
| `Exchanges.TickQuantities` | src/project/Exchange.java:298-305 | without a throw, every stock with a positive scheduled quantity gains exactly that quantity and every other stock keeps its quantity |
| `Exchanges.TickLog` | src/project/Exchange.java:300-303 | one snapshot is logged per replenished stock, and the last one is the table at the end of the tick |
| `Exchanges.TickCrashStays` | src/project/Exchange.java:298-305 | once the timer task has thrown, no further stock is visited |
| `Exchanges.TickAddsOnce` | src/project/Exchange.java:298-305 | whether or not the timer task throws, a stock not yet visited keeps its quantity, and every stock holds its old quantity or that quantity plus its positive scheduled quantity, added once |
| `Exchanges.TickKeepsNonNegative` | src/project/Exchange.java:298-305 | a tick keeps every quantity non-negative when no scheduled addition overflows an `int` |
| `Exchanges.Exchange.Tick` | src/project/Exchange.java:296-315 | runs only while the timer has not stopped; quantities and log are those of `TickRun` over the table; the tick advances by exactly 1 unless the timer task threw, and then the timer stops for good |
| `Exchanges.Exchange.ReplenishAll` | src/project/Exchange.java:298-305 | the loop over the stocks computes `TickRun` |
| `Exchanges.Exchange.Replenish` | src/project/Exchange.java:299-304 | one stock's turn is `TickStep`, the step of `TickRun`: a missing entry for the tick throws, a positive one is added and the table logged |
| `Exchanges.Exchange.EndTick` | src/project/Exchange.java:296-315 | the tick advances by exactly one when the timer task did not throw, and stays otherwise; the timer is stopped exactly when it threw |
| `Exchanges.AskAddress` | src/project/Exchange.java:672-715 | with neither the naming server nor its backup reachable the address is -1 |
| `Exchanges.ExternalTransaction` | src/project/Exchange.java:524-587 | port -1 fails at once and sends nothing; the order reaches the peer exactly when the port is known and the peer accepts the connection, and then the peer's answer, or its silence, is the reply; otherwise the reply is "Failed" and exactly one notice goes to the primary server, or else the backup, when one is reachable |
| `Exchanges.FundWeights` | src/project/MutualFund.java:21-45 | each fund's weights add up to 100 percent, and any other name has no legs |
| `Exchanges.FundLegs` | src/project/MutualFund.java:21-45 | a fund's legs name distinct stocks, each with a weight in (0, 100] percent |
| `Exchanges.Share` | src/project/Exchange.java:611 | a leg's quantity lies between 0 and the fund quantity, with the sign of the fund quantity |
| `Exchanges.LegOrder` | src/project/Exchange.java:608-620 | a leg's order, with the leg's own share, reaches an exchange exactly when the naming service gives an address that accepts the connection; a leg that is not refused was sent |
| `Exchanges.OutcomeAt` | src/project/Exchange.java:608-620 | the outcome of the i-th leg is that of sending the i-th leg's own order |
| `Exchanges.OutcomesDeliver` | src/project/Exchange.java:608-654 | each leg's outcome holds nothing or the leg's own order; a leg that is not refused was sent; a leg's order reaches an exchange exactly when the naming service gives it an address that accepts the connection (`Reachable`) |
| `Exchanges.FirstFailure` | src/project/Exchange.java:608-629 | every leg before the returned index went through, and the leg at it was refused or got no reply |
| `Exchanges.FirstUnanswered` | src/project/Exchange.java:645-656 | every sell-back before the returned index was answered, and the one at it was not |
| `Exchanges.OrdersDelivered` | src/project/Exchange.java:608-629 | when each of the first n legs reached its exchange, the orders sent are those legs' own orders, in leg order |
| `Exchanges.OrdersCarry` | src/project/Exchange.java:608-629 | every order the legs send carries the requested action |
| `Exchanges.OrdersKept` | src/project/Exchange.java:645-656 | the orders of the first n outcomes are the legs' own orders, in leg order, of exactly those that reached an exchange |
| `Exchanges.KeptAll` | src/project/Exchange.java:645-656 | when every one of the first n outcomes reached an exchange, nothing is left out and the orders are the first n legs' own |
| `Exchanges.SagaOfSucceeds` | src/project/Exchange.java:608-664 | for any outcomes that hold the legs' own orders: the fund order goes through iff every leg does, and then it sent exactly the legs' own orders, in leg order |
| `Exchanges.SagaOfFails` | src/project/Exchange.java:626-658 | for any outcomes: the client is told "Failed" iff some leg is refused after every earlier leg went through and every earlier sell-back was answered |
| `Exchanges.SagaOfUnanswered` | src/project/Exchange.java:546-548 | for any outcomes that hold the legs' own orders: a leg with no reply after legs that went through leaves the client with no reply, and exactly the legs up to it were sent |
| `Exchanges.SagaOfSendsPrefix` | src/project/Exchange.java:608-656 | for any outcomes that hold the legs' own orders: before any sell-back, the legs' own orders are sent in leg order up to the first leg that did not go through (included when it reached its exchange), and everything after them is a sell |
| `Exchanges.ForwardPart` | src/project/Exchange.java:608-629 | up to the first leg that did not go through, the orders sent are the legs' own, in leg order, that leg's included when it reached its exchange |
| `Exchanges.SoldBackPart` | src/project/Exchange.java:645-656 | the sell-backs sent after a refused leg are the earlier legs' own "S" orders, in leg order, for exactly those legs whose sell-back reached an exchange (`Kept`) |
| `Exchanges.SagaOfCompensates` | src/project/Exchange.java:641-658 | for any outcomes that hold the legs' own orders and sell-backs: after a refused leg, the earlier legs are visited in leg order, once each, until a sell-back gets no reply, and what is sent after everything else is the own "S" orders of the visited legs whose sell-back reached an exchange; "Failed" iff every sell-back was answered, no reply otherwise |
| `Exchanges.SagaSucceeds` | src/project/Exchange.java:608-664 | the fund order goes through iff every leg does, and then each leg's own order was sent once, in leg order, and nothing else; every leg's stock name is reported |
| `Exchanges.SagaFailsIff` | src/project/Exchange.java:626-658 | the client is told "Failed" iff some leg is refused after every earlier leg went through and every earlier leg's sell-back was answered |
| `Exchanges.SagaUnanswered` | src/project/Exchange.java:546-548 | a leg that gets no reply after legs that went through leaves the client with no reply: the legs up to it were sent, no later leg, and nothing is sold back |
| `Exchanges.SagaSendsPrefix` | src/project/Exchange.java:608-629 | the legs' own orders are sent in leg order up to the first leg that did not go through, which is included only when its address is known and its exchange accepts the connection; everything sent afterwards is a sell-back |
| `Exchanges.SagaCompensates` | src/project/Exchange.java:641-658 | after a refused leg, the roll-back visits the legs before it in leg order, once each, until a sell-back gets no reply; on the network as the sell-backs see it, it sends, after everything else, the own "S" orders of the visited legs whose exchange is known and accepts the connection by then; the client is told "Failed" iff every sell-back was answered, and then every earlier leg was visited; otherwise it gets no reply |
| `Exchanges.SagaCompensatesSameNetwork` | src/project/Exchange.java:641-658 | when the network is the same for the legs and the sell-backs, every visited leg is sold back, in leg order, none left out |
| `Exchanges.AnsweredResults` | src/project/Exchange.java:626-639 | when every leg sent was answered, some recorded result is "Failed" iff some leg did not go through, and then it is the last result and the only "Failed" one |
| `Exchanges.Exchange.ProcessMutualFund` | src/project/Exchange.java:597-665 | the result (none when the handler is left waiting), the orders sent and the notices sent are those of `Saga` over `FundLegs` of the fund's name, with the legs on one network and the sell-backs on their own |
| `Exchanges.Exchange.TradeLegs` | src/project/Exchange.java:608-664 | for any well-weighted legs, the result, the orders and the notices are those of `Saga` over those legs, the sell-backs on their own network |
| `Exchanges.Exchange.SendLegs` | src/project/Exchange.java:608-629 | the first loop sends the legs in order up to and including the first that does not go through (`FirstFailure`); it records each answer received, reports whether that last leg answered, and sends exactly those legs' orders (`Orders`) and server reports (`Notices`) |
| `Exchanges.Exchange.SendLeg` | src/project/Exchange.java:610-620 | one leg's outcome is the leg's own entry of `Outcomes` |
| `Exchanges.Exchange.AnyFailed` | src/project/Exchange.java:632-639 | roll back iff some recorded result is "Failed" |
| `Exchanges.Exchange.SellBack` | src/project/Exchange.java:643-656 | the roll-back loop visits the legs before the refused one, in order, until a sell-back gets no reply (`FirstUnanswered`), asking the naming service again for each; it reports whether all were answered and sends exactly those sell-backs' orders and reports |
| `Exchanges.Route` | src/project/Exchange.java:415-434 | a peer's request goes to the internal path; a client's goes to the fund path iff the name starts with "Mutual_Fund", else to the local path iff the stock is listed here, else to the remote path |
| `Exchanges.Exchange.HandleMessage` | src/project/Exchange.java:389-474 | the reply echoes action, quantity and stock; a client learns "Failed" iff the price was "Failed"; each path changes the state, sends orders and notices and logs as its own operation says; the fund path changes no quantity of its own and logs nothing |

## Left out

- Sockets, server sockets, readers, writers and threads: every reply of a
  naming server, a neighbour or another exchange is an input (`Net`,
  `Network`), and each request is handled on its own, one at a time.
- Concurrency between connection handlers and the timer task on the shared
  tables: operations run sequentially.
- The timer, `scheduleAtFixedRate` and `System.currentTimeMillis`: `now` is a
  parameter and each firing of the timer is a call of `Tick`.
- JSON encoding and decoding: messages are Dafny values. A reply with an
  address but no exchange name would throw in the server; `Named` assumes
  servers always name the exchange with an address.
- A failed `readLine` (an `IOException` after connecting) in the server's
  neighbour requests is not modelled; a null line is.
- `Exchanges.Exchange.ProcessMutualFund`: a leg whose stock is listed on
  this exchange is sent to this exchange's own port and handled there by
  another connection handler, which trades and logs it; that is a separate
  peer request (`HandleMessage` from an exchange), not part of this call,
  whose answer `Network` supplies like any other peer's. The same holds for
  the fund path of `Exchanges.Exchange.HandleMessage`.
- `NamingServer.Server.constructor`: a server name outside the four regions
  and their backups makes the Java constructor throw when it unboxes the
  missing (null) port; the precondition excludes such a name.
- `Stocks.Stock.GetPrice`, `Stocks.Stock.GetQty` and
  `NamingServer.Server.GetInternalExchangeAddress`: a missing entry makes
  Java throw on unboxing null; the preconditions exclude it, and
  the callers use them only where the entry exists.
- `Exchanges.ExternalTransaction`: a connection to another exchange that
  breaks after the order was written (an `IOException` from `readLine`,
  which the code answers with "Failed" and a notice to a server) is not
  modelled; an accepted connection delivers the order and gives the peer's
  line or no line at all.
- Reading and writing the log and CSV files, `loadStock` and the start-time
  file of `Server.main`: the log file's lines are a parameter of `Register`,
  and what is logged is returned as a value.
- `currentPriceToString` with its currency conversion and formatting: a
  successful price is the stock's local price at the current tick.
- `Exchanges.Share`: the leg quantity `(int)(qty * weight)` on doubles is
  modelled as `qty * percent / 100` truncated toward zero, which can differ by
  one where the double product falls just below an integer.
- `Exchanges.FundLegs`: the legs of a fund and the remote exchanges come in
  `Hashtable` iteration order, which the code does not fix; the model uses
  the order of `MutualFund`'s table, both for the legs and for the
  compensations, which the code issues in its result table's order.
- `NamingServer.Server.GetExchangeWithStock`: the exchange returned when
  several hold the stock depends on `Hashtable` order; the model may return
  any of them.
- `Stocks.Stock.DeCurrentQty`: non-negativity of the available quantity is
  proved only when the order quantity does not overflow `int`; a buy of a
  very negative quantity wraps around.
- `JavaLang.ParseInt` accepts ASCII digits only; `Integer.parseInt` also
  accepts other Unicode decimal digits.
- `ExchangeUtils` (ports and currency rates) and `MutualFund` are constant
  tables; only the fund compositions and the server ports are written out.
- `Client` and `ClientTest`, the random traffic generator, are not part of
  this model.
