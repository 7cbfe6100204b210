/**
 * A stock exchange: it owns the stocks listed on it, buys and sells them for
 * clients and for other exchanges, replenishes them once per tick from the
 * quantity schedule, logs a snapshot of its whole stock table after every
 * change, recovers from the last snapshot when it restarts, forwards orders
 * for stocks listed elsewhere, and executes mutual-fund orders leg by leg,
 * selling back the legs that went through when one fails.
 *
 * Everything reached over a socket (the naming servers and the other
 * exchanges) is a `Network` value that answers each request.
 */
module Exchanges {
  import opened JavaLang
  import opened Stocks
  import opened Snapshots

  // ---------------------------------------------------------------------------
  // Prices and buy/sell arithmetic

  /**
   * What a transaction reports: "Failed", a stock's price at the current
   * tick, or, for a mutual fund, the names of the stocks it bought or sold.
   */
  datatype Price = Failed | Quote(localPrice: real) | Fund(stocks: seq<string>)

  datatype TradeResult = TradeResult(quantity: Int32, ok: bool)

  /**
   * The effect of one order on a stock holding `current`: "B" is a buy and is
   * refused when fewer than `qty` are available; every other action is a
   * sell, which always goes through.
   */
  function Trade(current: Int32, action: string, qty: Int32): (r: TradeResult)
    ensures r.ok <==> action != "B" || qty <= current
    ensures !r.ok ==> r.quantity == current
  {
    if action == "B" then
      if current < qty then TradeResult(current, false) else TradeResult(Wrap(current - qty), true)
    else TradeResult(Wrap(current + qty), true)
  }

  /**
   * For a non-negative holding and a non-negative order that does not
   * overflow, a buy removes exactly `qty`, a sell adds exactly `qty`, and the
   * holding stays non-negative either way.
   */
  lemma TradeKeepsNonNegative(current: Int32, action: string, qty: Int32)
    requires 0 <= current && 0 <= qty && current + qty <= MaxInt
    ensures var r := Trade(current, action, qty);
      r.quantity >= 0
      && (r.ok && action == "B" ==> r.quantity == current - qty)
      && (action != "B" ==> r.quantity == current + qty)
  {
  }

  /** No stock is short. */
  predicate NonNegative(q: map<string, int>)
  {
    forall n :: n in q ==> q[n] >= 0
  }

  // ---------------------------------------------------------------------------
  // Catching up with the system clock

  datatype Timing = Timing(timeIndex: int, delay: int)

  /**
   * The first tick to process and the delay (ms) before it fires, for an
   * exchange registering at `now` in a system that started at `startTime`.
   * `Math.toIntExact` throws when the difference does not fit in an `int`
   * (None). `Math.ceil(ms / 1000.0)` is exact for such values, so it is
   * written with integer division.
   */
  function CatchUp(startTime: int, now: int): (r: Option<Timing>)
    ensures startTime <= now ==>
      (r.Some? <==> now - startTime <= MaxInt)
      && (r.Some? ==> 1 <= r.value.delay <= 1000 && r.value.timeIndex >= 1)
    ensures startTime > now ==>
      (r.Some? <==> startTime - now <= MaxInt)
      && (r.Some? ==> r.value == Timing(1, startTime - now))
  {
    if startTime <= now then
      var ms := now - startTime;
      if ms > MaxInt then None
      else Some(Timing((ms + 999) / 1000 + 1, 1000 - ms % 1000))
    else if startTime - now > MaxInt then None
    else Some(Timing(1, startTime - now))
  }

  /** 5000 ms after the start the exchange waits a whole second and then processes tick 6. */
  lemma CatchUpExample()
    ensures CatchUp(0, 5000) == Some(Timing(6, 1000))
    ensures CatchUp(0, 5001) == Some(Timing(7, 999))
    ensures CatchUp(5000, 1200) == Some(Timing(1, 3800))
  {
  }

  /**
   * Ticks of a system that started at `startTime` fall on whole seconds, and
   * the one at `e` ms after the start processes tick `e / 1000 + 1`. A late
   * exchange's first tick lands on such a second; it processes that second's
   * tick unless it registered exactly on a second boundary, where it waits a
   * whole second and processes the previous second's tick instead.
   */
  lemma {:induction false} CatchUpSchedule(startTime: int, now: int)
    requires startTime <= now && now - startTime <= MaxInt
    ensures var t := CatchUp(startTime, now).value;
      var fire := now - startTime + t.delay;
      fire % 1000 == 0
      && ((now - startTime) % 1000 != 0 ==> t.timeIndex == fire / 1000 + 1)
      && ((now - startTime) % 1000 == 0 ==> t.delay == 1000 && t.timeIndex == fire / 1000)
  {
    var ms := now - startTime;
    var s, r := ms / 1000, ms % 1000;
    assert ms == 1000 * s + r;
    if r == 0 {
      assert (ms + 999) / 1000 == s by {
        assert ms + 999 == 1000 * s + 999;
      }
      assert (ms + 1000) / 1000 == s + 1 by {
        assert ms + 1000 == 1000 * (s + 1);
      }
    } else {
      assert (ms + 999) / 1000 == s + 1 by {
        assert ms + 999 == 1000 * (s + 1) + (r - 1);
      }
      assert ms + 1000 - r == 1000 * (s + 1);
    }
  }

  // ---------------------------------------------------------------------------
  // Other exchanges and the naming servers

  /** The ports of the exchange's continent server and of its backup. */
  datatype ServerPorts = ServerPorts(primary: int, backup: int)

  /**
   * The answers of the network: whether the continent server and its backup
   * accept connections, the address the naming service gives for a stock
   * (-1 for none, or for a reply the server never sent), whether an exchange
   * accepts connections on a port, and what it answers to an order (None: it
   * accepted the connection but never sent a line back).
   */
  datatype Network = Network(
    serverUp: bool,
    backupUp: bool,
    address: string -> int,
    peerUp: int -> bool,
    answer: (int, string, int, string) -> Option<Price>)

  /** An order forwarded to another exchange. */
  datatype Order = Order(stock: string, action: string, qty: int)

  /** A report to a naming server that the exchange at `exchangeAddress` did not answer. */
  datatype ServerNotice = ServerNotice(server: int, exchangeAddress: int, stockName: string)

  /**
   * What one order to another exchange gives: the reply, the order as it
   * reached the other exchange (none when no connection was made), and the
   * reports sent to the servers. No reply (None) means the caller is left
   * waiting on its read, or throws on the missing line: it does nothing more.
   */
  datatype Remote = Remote(reply: Option<Price>, orders: seq<Order>, notices: seq<ServerNotice>)
  {
    /** The order went through: a reply that is not "Failed". */
    predicate WentThrough()
    {
      reply.Some? && reply.value != Failed
    }
  }

  /** `askAddress`: the naming service is asked through the primary or, failing that, the backup. */
  function AskAddress(net: Network, stock: string): (port: int)
    ensures !net.serverUp && !net.backupUp ==> port == -1
  {
    if net.serverUp || net.backupUp then net.address(stock) else -1
  }

  /**
   * `processExternalTransaction`: no address fails at once; a peer that
   * accepts the connection gets the order and its reply decides; otherwise
   * the order fails and the primary server, or else the backup, is told that
   * the peer is down.
   */
  function ExternalTransaction(net: Network, servers: ServerPorts, port: int, action: string, qty: int, stock: string)
    : (r: Remote)
    ensures port == -1 ==> r == Remote(Some(Failed), [], [])
    ensures |r.orders| <= 1
    ensures |r.orders| == 1 <==> port != -1 && net.peerUp(port)
    ensures |r.orders| == 1 ==> r.orders[0] == Order(stock, action, qty) && r.reply == net.answer(port, action, qty, stock)
    ensures r.orders == [] ==> r.reply == Some(Failed)
    ensures |r.notices| <= 1
    ensures |r.notices| == 1 <==> port != -1 && !net.peerUp(port) && (net.serverUp || net.backupUp)
    ensures |r.notices| == 1 ==>
      r.notices[0] == ServerNotice(if net.serverUp then servers.primary else servers.backup, port, stock)
  {
    if port == -1 then Remote(Some(Failed), [], [])
    else if net.peerUp(port) then Remote(net.answer(port, action, qty, stock), [Order(stock, action, qty)], [])
    else if net.serverUp then Remote(Some(Failed), [], [ServerNotice(servers.primary, port, stock)])
    else if net.backupUp then Remote(Some(Failed), [], [ServerNotice(servers.backup, port, stock)])
    else Remote(Some(Failed), [], [])
  }

  // ---------------------------------------------------------------------------
  // Mutual funds

  /** One stock of a fund and the percentage of the fund's quantity it takes. */
  datatype Leg = Leg(stock: string, percent: int)

  /** The fund compositions; any other name is a fund with no stocks. */
  function FundLegs(fund: string): (legs: seq<Leg>)
    ensures forall i, j :: 0 <= i < j < |legs| ==> legs[i].stock != legs[j].stock
    ensures forall i :: 0 <= i < |legs| ==> 0 < legs[i].percent <= 100
  {
    if fund == "Mutual_Fund_Banking" then
      [Leg("DeutscheBank", 20), Leg("CREDITAGRICOLE", 20), Leg("SOCIETEGENERALE", 10),
       Leg("AmericanExpress", 20), Leg("GoldmanSachs", 10), Leg("JPMorganChase", 15),
       Leg("NomuraHoldingsInc", 5)]
    else if fund == "Mutual_Fund_Energy" then
      [Leg("Petrobras", 15), Leg("BPPLC", 15), Leg("TOTAL", 40), Leg("ExxonMobil", 30)]
    else if fund == "Mutual_Fund_Diversified" then
      [Leg("SwirePacificLimited", 15), Leg("SoftbankCorp", 35), Leg("SkyPLC", 40),
       Leg("DeutscheLufthansa", 10)]
    else []
  }

  function PercentSum(legs: seq<Leg>): int
    decreases |legs|
  {
    if legs == [] then 0 else legs[0].percent + PercentSum(legs[1..])
  }

  /** Each named fund's weights add up to the whole; any other name has no stocks. */
  lemma FundWeights(other: string)
    requires other != "Mutual_Fund_Banking" && other != "Mutual_Fund_Energy" && other != "Mutual_Fund_Diversified"
    ensures PercentSum(FundLegs("Mutual_Fund_Banking")) == 100
    ensures PercentSum(FundLegs("Mutual_Fund_Energy")) == 100
    ensures PercentSum(FundLegs("Mutual_Fund_Diversified")) == 100
    ensures FundLegs(other) == []
  {
    BankingWeights();
    EnergyWeights();
    DiversifiedWeights();
  }

  lemma BankingWeights()
    ensures PercentSum(FundLegs("Mutual_Fund_Banking")) == 100
  {
    var b := FundLegs("Mutual_Fund_Banking");
    assert PercentSum(b[6..]) == 5 by { assert b[6..][1..] == []; }
    assert PercentSum(b[5..]) == 20 by { assert b[5..][1..] == b[6..]; }
    assert PercentSum(b[4..]) == 30 by { assert b[4..][1..] == b[5..]; }
    assert PercentSum(b[3..]) == 50 by { assert b[3..][1..] == b[4..]; }
    assert PercentSum(b[2..]) == 60 by { assert b[2..][1..] == b[3..]; }
    assert PercentSum(b[1..]) == 80 by { assert b[1..][1..] == b[2..]; }
  }

  lemma EnergyWeights()
    ensures PercentSum(FundLegs("Mutual_Fund_Energy")) == 100
  {
    var e := FundLegs("Mutual_Fund_Energy");
    assert PercentSum(e[3..]) == 30 by { assert e[3..][1..] == []; }
    assert PercentSum(e[2..]) == 70 by { assert e[2..][1..] == e[3..]; }
    assert PercentSum(e[1..]) == 85 by { assert e[1..][1..] == e[2..]; }
  }

  lemma DiversifiedWeights()
    ensures PercentSum(FundLegs("Mutual_Fund_Diversified")) == 100
  {
    var d := FundLegs("Mutual_Fund_Diversified");
    assert PercentSum(d[3..]) == 10 by { assert d[3..][1..] == []; }
    assert PercentSum(d[2..]) == 50 by { assert d[2..][1..] == d[3..]; }
    assert PercentSum(d[1..]) == 85 by { assert d[1..][1..] == d[2..]; }
  }

  /** `(int)(qty * w)` lies between 0 and `qty` for a weight of at most the whole. */
  lemma ShareBounds(qty: Int32, percent: int)
    requires 0 < percent <= 100
    ensures qty >= 0 ==> 0 <= JavaDiv(qty * percent, 100) <= qty
    ensures qty < 0 ==> qty <= JavaDiv(qty * percent, 100) <= 0
  {
    var a: int := if qty >= 0 then qty else 0 - qty;
    ScaledBelow(a, percent);
    assert qty * percent == if qty >= 0 then a * percent else 0 - a * percent;
  }

  /** A percentage of a non-negative amount, rounded down, is at most the amount. */
  lemma ScaledBelow(a: nat, percent: int)
    requires 0 < percent <= 100
    ensures 0 <= a * percent && (a * percent) / 100 <= a
  {
    assert a * 100 - a * percent == a * (100 - percent) >= 0;
    assert (a * percent) / 100 <= (a * 100) / 100;
  }

  /** A leg's quantity: the fund quantity times the weight, truncated toward zero. */
  function Share(qty: Int32, leg: Leg): (s: Int32)
    requires 0 < leg.percent <= 100
    ensures qty >= 0 ==> 0 <= s <= qty
    ensures qty < 0 ==> qty <= s <= 0
  {
    ShareBounds(qty, leg.percent);
    JavaDiv(qty * leg.percent, 100)
  }

  /** A leg goes to the exchange the naming service names for its stock. */
  function LegOutcome(net: Network, servers: ServerPorts, leg: Leg, action: string, qty: Int32): Remote
    requires 0 < leg.percent <= 100
  {
    ExternalTransaction(net, servers, AskAddress(net, leg.stock), action, Share(qty, leg), leg.stock)
  }

  /**
   * A leg's order reaches its exchange exactly when the naming service knows
   * an address for the stock and that exchange accepts the connection; the
   * order carries the leg's own share. A leg that is not refused was sent.
   */
  lemma LegOrder(net: Network, servers: ServerPorts, leg: Leg, action: string, qty: Int32)
    requires 0 < leg.percent <= 100
    ensures var r := LegOutcome(net, servers, leg, action, qty);
      var port := AskAddress(net, leg.stock);
      r.orders == (if port != -1 && net.peerUp(port) then [Order(leg.stock, action, Share(qty, leg))] else [])
      && (r.reply != Some(Failed) ==> r.orders != [])
  {
    var r := LegOutcome(net, servers, leg, action, qty);
    if r.orders != [] {
      assert r.orders == [r.orders[0]];
    }
  }

  predicate WellWeighted(legs: seq<Leg>)
  {
    forall i :: 0 <= i < |legs| ==> 0 < legs[i].percent <= 100
  }

  /**
   * Each leg's outcome if it is sent with `action`. With "S" these are the
   * sell-backs; a fund order only ever sends a prefix of them.
   */
  function Outcomes(net: Network, servers: ServerPorts, legs: seq<Leg>, action: string, qty: Int32): (rs: seq<Remote>)
    requires WellWeighted(legs)
    ensures |rs| == |legs|
    decreases |legs|
  {
    if legs == [] then []
    else
      Outcomes(net, servers, legs[..|legs| - 1], action, qty)
        + [LegOutcome(net, servers, legs[|legs| - 1], action, qty)]
  }

  /** The `i`th outcome is the `i`th leg's. */
  lemma {:induction false} OutcomeAt(net: Network, servers: ServerPorts, legs: seq<Leg>, i: nat, action: string, qty: Int32)
    requires WellWeighted(legs) && i < |legs|
    ensures Outcomes(net, servers, legs, action, qty)[i] == LegOutcome(net, servers, legs[i], action, qty)
    decreases |legs|
  {
    var init := legs[..|legs| - 1];
    if i < |init| {
      assert init[i] == legs[i];
      OutcomeAt(net, servers, init, i, action, qty);
    }
  }

  /** Among the first `n` outcomes, the index of the first that did not go through (refused or unanswered), or `n`. */
  function FirstFailure(rs: seq<Remote>, n: nat): (k: nat)
    requires n <= |rs|
    ensures k <= n
    ensures forall i :: 0 <= i < k ==> rs[i].WentThrough()
    ensures k < n ==> !rs[k].WentThrough()
  {
    if n == 0 then 0
    else
      var k := FirstFailure(rs, n - 1);
      if k < n - 1 || !rs[n - 1].WentThrough() then k else n
  }

  /** Among the first `n` outcomes, the index of the first without a reply, or `n`. */
  function FirstUnanswered(rs: seq<Remote>, n: nat): (m: nat)
    requires n <= |rs|
    ensures m <= n
    ensures forall i :: 0 <= i < m ==> rs[i].reply.Some?
    ensures m < n ==> rs[m].reply.None?
  {
    if n == 0 then 0
    else
      var m := FirstUnanswered(rs, n - 1);
      if m < n - 1 || rs[n - 1].reply.None? then m else n
  }

  /** The orders that the first `n` outcomes delivered to other exchanges, in order. */
  function Orders(rs: seq<Remote>, n: nat): seq<Order>
    requires n <= |rs|
  {
    if n == 0 then [] else Orders(rs, n - 1) + rs[n - 1].orders
  }

  /** The reports to the naming servers that the first `n` outcomes produced, in order. */
  function Notices(rs: seq<Remote>, n: nat): seq<ServerNotice>
    requires n <= |rs|
  {
    if n == 0 then [] else Notices(rs, n - 1) + rs[n - 1].notices
  }

  /** The orders the first `n` legs place with `action`, in leg order, each of the leg's own share. */
  function Placed(legs: seq<Leg>, action: string, qty: Int32, n: nat): (os: seq<Order>)
    requires WellWeighted(legs) && n <= |legs|
    ensures |os| == n
  {
    seq(n, i requires 0 <= i < n => Order(legs[i].stock, action, Share(qty, legs[i])))
  }

  /**
   * What each outcome delivered to the legs' exchanges: nothing, or the
   * leg's own order with `action` and the leg's share; and the order was
   * delivered whenever the leg was not refused.
   */
  predicate Delivers(rs: seq<Remote>, legs: seq<Leg>, action: string, qty: Int32)
    requires WellWeighted(legs) && |rs| == |legs|
  {
    forall i :: 0 <= i < |rs| ==>
      (rs[i].orders == [] || rs[i].orders == [Order(legs[i].stock, action, Share(qty, legs[i]))])
      && (rs[i].reply != Some(Failed) ==> rs[i].orders != [])
  }

  /** For each leg, whether the naming service knows an address for its stock that accepts a connection. */
  function Reachable(net: Network, legs: seq<Leg>): (ok: seq<bool>)
    ensures |ok| == |legs|
  {
    seq(|legs|, i requires 0 <= i < |legs| => AskAddress(net, legs[i].stock) != -1 && net.peerUp(AskAddress(net, legs[i].stock)))
  }

  /** For each outcome, whether its order reached an exchange. */
  function Reaches(rs: seq<Remote>): (ok: seq<bool>)
    ensures |ok| == |rs|
  {
    seq(|rs|, i requires 0 <= i < |rs| => rs[i].orders != [])
  }

  /**
   * The legs' outcomes deliver their own orders, and a leg's order reaches
   * its exchange exactly when the naming service gives an address that
   * accepts the connection.
   */
  lemma {:induction false} OutcomesDeliver(net: Network, servers: ServerPorts, legs: seq<Leg>, action: string, qty: Int32)
    requires WellWeighted(legs)
    ensures Delivers(Outcomes(net, servers, legs, action, qty), legs, action, qty)
    ensures Reaches(Outcomes(net, servers, legs, action, qty)) == Reachable(net, legs)
  {
    var fw := Outcomes(net, servers, legs, action, qty);
    forall i | 0 <= i < |legs|
      ensures fw[i].orders == [] || fw[i].orders == [Order(legs[i].stock, action, Share(qty, legs[i]))]
      ensures fw[i].reply != Some(Failed) ==> fw[i].orders != []
      ensures Reaches(fw)[i] == Reachable(net, legs)[i]
    {
      OutcomeAt(net, servers, legs, i, action, qty);
      LegOrder(net, servers, legs[i], action, qty);
    }
  }

  /** When each of the first `n` outcomes delivered its order, those are the orders the first `n` legs place. */
  lemma {:induction false} OrdersDelivered(rs: seq<Remote>, legs: seq<Leg>, action: string, qty: Int32, n: nat)
    requires WellWeighted(legs) && |rs| == |legs| && n <= |rs|
    requires Delivers(rs, legs, action, qty)
    requires forall i :: 0 <= i < n ==> rs[i].orders != []
    ensures Orders(rs, n) == Placed(legs, action, qty, n)
  {
    if n > 0 {
      OrdersDelivered(rs, legs, action, qty, n - 1);
      assert Placed(legs, action, qty, n) == Placed(legs, action, qty, n - 1) + rs[n - 1].orders;
    }
  }

  /** Every order the first `n` outcomes delivered carries `action`. */
  lemma {:induction false} OrdersCarry(rs: seq<Remote>, legs: seq<Leg>, action: string, qty: Int32, n: nat)
    requires WellWeighted(legs) && |rs| == |legs| && n <= |rs|
    requires Delivers(rs, legs, action, qty)
    ensures forall i :: 0 <= i < |Orders(rs, n)| ==> Orders(rs, n)[i].action == action
  {
    if n > 0 {
      OrdersCarry(rs, legs, action, qty, n - 1);
    }
  }

  /** The first `n` orders of `os` at the positions where `keep` holds, in order. */
  function Kept(os: seq<Order>, keep: seq<bool>, n: nat): (r: seq<Order>)
    requires n <= |os| == |keep|
    ensures |r| <= n
  {
    if n == 0 then []
    else Kept(os, keep, n - 1) + if keep[n - 1] then [os[n - 1]] else []
  }

  /** Keeping every position keeps the whole prefix. */
  lemma {:induction false} KeptAll(os: seq<Order>, keep: seq<bool>, n: nat)
    requires n <= |os| == |keep|
    requires forall i :: 0 <= i < n ==> keep[i]
    ensures Kept(os, keep, n) == os[..n]
  {
    if n > 0 {
      KeptAll(os, keep, n - 1);
      assert os[..n] == os[..n - 1] + [os[n - 1]];
    }
  }

  /** The orders the first `n` outcomes delivered are the legs' own orders, for the legs whose order reached an exchange. */
  lemma {:induction false} OrdersKept(rs: seq<Remote>, legs: seq<Leg>, action: string, qty: Int32, n: nat)
    requires WellWeighted(legs) && |rs| == |legs| && n <= |rs|
    requires Delivers(rs, legs, action, qty)
    ensures Orders(rs, n) == Kept(Placed(legs, action, qty, |legs|), Reaches(rs), n)
  {
    if n > 0 {
      OrdersKept(rs, legs, action, qty, n - 1);
    }
  }

  function Names(legs: seq<Leg>): (names: seq<string>)
    ensures |names| == |legs|
    ensures forall i :: 0 <= i < |legs| ==> names[i] == legs[i].stock
  {
    seq(|legs|, i requires 0 <= i < |legs| => legs[i].stock)
  }

  /**
   * How many of the first `k` legs are sold back after leg `k` is refused:
   * all of them, or those up to and including the first sell-back without a
   * reply.
   */
  function SoldBackCount(bk: seq<Remote>, k: nat): nat
    requires k <= |bk|
  {
    var m := FirstUnanswered(bk, k);
    if m < k then m + 1 else k
  }

  /** The client's answer (None: none is ever sent), and what was sent to exchanges and servers. */
  datatype SagaOutcome = SagaOutcome(price: Option<Price>, orders: seq<Order>, notices: seq<ServerNotice>)

  /**
   * A fund order, given each leg's outcome `fw` when sent and `bk` when sold
   * back. The legs are sent in order until one does not go through. When
   * all go through, the fund's stock names are reported. A leg that gets no
   * reply leaves the handler waiting for it: nothing more is sent and the
   * client gets no reply (None). A refused leg fails the order: the legs
   * before it are sold back, in order, until a sell-back gets no reply,
   * which again leaves the client without one; otherwise the client is told
   * "Failed".
   */
  function SagaOf(fw: seq<Remote>, bk: seq<Remote>, names: seq<string>): SagaOutcome
    requires |bk| == |fw|
  {
    var k := FirstFailure(fw, |fw|);
    if k == |fw| then
      SagaOutcome(Some(Fund(names)), Orders(fw, k), Notices(fw, k))
    else if fw[k].reply.None? then
      SagaOutcome(None, Orders(fw, k + 1), Notices(fw, k + 1))
    else
      var m := FirstUnanswered(bk, k);
      var back := SoldBackCount(bk, k);
      SagaOutcome(
        if m < k then None else Some(Failed),
        Orders(fw, k + 1) + Orders(bk, back),
        Notices(fw, k + 1) + Notices(bk, back))
  }

  /**
   * `processMutualFund` on the legs of a fund, with the network `net` as the
   * legs are sent and `netBack` as they are sold back: each sell-back asks
   * the naming service again, and exchanges may have gone down or been
   * evicted since. Sell-backs are "S" orders of the same share.
   */
  function Saga(net: Network, netBack: Network, servers: ServerPorts, legs: seq<Leg>, action: string, qty: Int32): SagaOutcome
    requires WellWeighted(legs)
  {
    SagaOf(Outcomes(net, servers, legs, action, qty), Outcomes(netBack, servers, legs, "S", qty), Names(legs))
  }

  /** Every outcome went through. */
  predicate AllWentThrough(rs: seq<Remote>)
  {
    forall i :: 0 <= i < |rs| ==> rs[i].WentThrough()
  }

  /** Some leg is refused after every earlier leg went through and every earlier leg's sell-back is answered. */
  predicate RefusedAfterAnswered(fw: seq<Remote>, bk: seq<Remote>)
    requires |bk| == |fw|
  {
    exists i :: 0 <= i < |fw| && fw[i].reply == Some(Failed)
      && forall j :: 0 <= j < i ==> fw[j].WentThrough() && bk[j].reply.Some?
  }

  /** Every order of `os` is a sell ("S"). */
  predicate AllSells(os: seq<Order>)
  {
    forall i :: 0 <= i < |os| ==> os[i].action == "S"
  }

  /** SagaSucceeds, for any outcomes that deliver the legs' own orders. */
  lemma {:induction false} SagaOfSucceeds(fw: seq<Remote>, bk: seq<Remote>, legs: seq<Leg>, action: string, qty: Int32)
    requires WellWeighted(legs) && |fw| == |legs| && |bk| == |legs|
    requires Delivers(fw, legs, action, qty)
    ensures SagaOf(fw, bk, Names(legs)).price == Some(Fund(Names(legs))) <==> AllWentThrough(fw)
    ensures var s := SagaOf(fw, bk, Names(legs));
      s.price == Some(Fund(Names(legs))) ==> s.orders == Placed(legs, action, qty, |legs|)
  {
    var k := FirstFailure(fw, |fw|);
    if k == |fw| {
      OrdersDelivered(fw, legs, action, qty, k);
    } else {
      assert !fw[k].WentThrough();
    }
  }

  /** SagaFailsIff, for any outcomes. */
  lemma {:induction false} SagaOfFails(fw: seq<Remote>, bk: seq<Remote>, names: seq<string>)
    requires |bk| == |fw|
    ensures SagaOf(fw, bk, names).price == Some(Failed) <==> RefusedAfterAnswered(fw, bk)
  {
    var k := FirstFailure(fw, |fw|);
    if k < |fw| {
      assert !fw[k].WentThrough();
    }
  }

  /** SagaUnanswered, for any outcomes that deliver the legs' own orders. */
  lemma {:induction false} SagaOfUnanswered(fw: seq<Remote>, bk: seq<Remote>, legs: seq<Leg>, i: nat, action: string, qty: Int32)
    requires WellWeighted(legs) && |fw| == |legs| && |bk| == |legs| && i < |legs|
    requires Delivers(fw, legs, action, qty)
    requires forall j :: 0 <= j < i ==> fw[j].WentThrough()
    requires fw[i].reply.None?
    ensures var s := SagaOf(fw, bk, Names(legs));
      s.price == None && s.orders == Placed(legs, action, qty, i + 1)
  {
    assert FirstFailure(fw, |fw|) == i;
    OrdersDelivered(fw, legs, action, qty, i + 1);
  }

  /** How many orders go out before any sell-back: those of the legs up to the first failure, and its own if it reached its exchange. */
  function SentCount(fw: seq<Remote>): nat
  {
    var k := FirstFailure(fw, |fw|);
    if k < |fw| then k + |fw[k].orders| else k
  }

  /** SagaSendsPrefix, for any outcomes that deliver the legs' own orders and sell-backs. */
  lemma {:induction false} SagaOfSendsPrefix(fw: seq<Remote>, bk: seq<Remote>, legs: seq<Leg>, action: string, qty: Int32)
    requires WellWeighted(legs) && |fw| == |legs| && |bk| == |legs|
    requires Delivers(fw, legs, action, qty) && Delivers(bk, legs, "S", qty)
    ensures var s := SagaOf(fw, bk, Names(legs));
      var sent := SentCount(fw);
      sent <= |s.orders| && s.orders[..sent] == Placed(legs, action, qty, sent) && AllSells(s.orders[sent..])
  {
    var k := FirstFailure(fw, |fw|);
    var s := SagaOf(fw, bk, Names(legs));
    if k == |fw| {
      OrdersDelivered(fw, legs, action, qty, k);
      assert s.orders[..k] == s.orders;
      assert s.orders[k..] == [];
    } else {
      StoppedSends(fw, bk, legs, action, qty);
    }
  }

  /** SagaOfSendsPrefix when some leg does not go through. */
  lemma {:induction false} StoppedSends(fw: seq<Remote>, bk: seq<Remote>, legs: seq<Leg>, action: string, qty: Int32)
    requires WellWeighted(legs) && |fw| == |legs| && |bk| == |legs|
    requires Delivers(fw, legs, action, qty) && Delivers(bk, legs, "S", qty)
    requires FirstFailure(fw, |fw|) < |fw|
    ensures var s := SagaOf(fw, bk, Names(legs));
      var sent := SentCount(fw);
      sent <= |s.orders| && s.orders[..sent] == Placed(legs, action, qty, sent) && AllSells(s.orders[sent..])
  {
    var k := FirstFailure(fw, |fw|);
    var s := SagaOf(fw, bk, Names(legs));
    var fwd := Orders(fw, k + 1);
    ForwardPart(fw, legs, action, qty);
    var tail: seq<Order> := [];
    if fw[k].reply.Some? {
      var back := SoldBackCount(bk, k);
      OrdersCarry(bk, legs, "S", qty, back);
      tail := Orders(bk, back);
    }
    assert s.orders == fwd + tail;
    ThenSold(s.orders, fwd, tail);
  }

  /** Up to a failing leg, the orders sent are those the legs place, the failing one's included when it reached its exchange. */
  lemma {:induction false} ForwardPart(fw: seq<Remote>, legs: seq<Leg>, action: string, qty: Int32)
    requires WellWeighted(legs) && |fw| == |legs|
    requires Delivers(fw, legs, action, qty)
    requires FirstFailure(fw, |fw|) < |fw|
    ensures Orders(fw, FirstFailure(fw, |fw|) + 1) == Placed(legs, action, qty, SentCount(fw))
  {
    var k := FirstFailure(fw, |fw|);
    var sent := k + |fw[k].orders|;
    OrdersDelivered(fw, legs, action, qty, sent);
    if sent == k {
      assert Orders(fw, k + 1) == Orders(fw, k) + [];
    }
  }

  /** Orders followed by sells only. */
  lemma {:induction false} ThenSold(all: seq<Order>, fwd: seq<Order>, tail: seq<Order>)
    requires all == fwd + tail && AllSells(tail)
    ensures all[..|fwd|] == fwd && AllSells(all[|fwd|..])
  {
    assert all[|fwd|..] == tail;
  }

  /** SagaCompensates, for any outcomes that deliver the legs' own orders and sell-backs. */
  lemma {:induction false} SagaOfCompensates(fw: seq<Remote>, bk: seq<Remote>, legs: seq<Leg>, action: string, qty: Int32)
    requires WellWeighted(legs) && |fw| == |legs| && |bk| == |legs|
    requires Delivers(fw, legs, action, qty) && Delivers(bk, legs, "S", qty)
    requires FirstFailure(fw, |fw|) < |fw| && fw[FirstFailure(fw, |fw|)].reply == Some(Failed)
    ensures var s := SagaOf(fw, bk, Names(legs));
      var k := FirstFailure(fw, |fw|);
      var m := FirstUnanswered(bk, k);
      var sent := k + |fw[k].orders|;
      sent <= |s.orders|
      && s.orders[sent..] == Kept(Placed(legs, "S", qty, |legs|), Reaches(bk), SoldBackCount(bk, k))
      && (s.price == Some(Failed) <==> m == k)
      && (m < k ==> s.price == None)
  {
    var k := FirstFailure(fw, |fw|);
    var back := SoldBackCount(bk, k);
    RefusedShape(fw, bk, Names(legs));
    ForwardPart(fw, legs, action, qty);
    SoldBackPart(fw, bk, legs, qty);
    var fwd, tail := Orders(fw, k + 1), Orders(bk, back);
    assert (fwd + tail)[|fwd|..] == tail;
  }

  /**
   * The sell-backs sent after a refused leg are the earlier legs' own "S"
   * orders, in leg order, for those whose sell-back reached an exchange.
   */
  lemma {:induction false} SoldBackPart(fw: seq<Remote>, bk: seq<Remote>, legs: seq<Leg>, qty: Int32)
    requires WellWeighted(legs) && |fw| == |legs| && |bk| == |legs|
    requires Delivers(bk, legs, "S", qty)
    ensures var back := SoldBackCount(bk, FirstFailure(fw, |fw|));
      Orders(bk, back) == Kept(Placed(legs, "S", qty, |legs|), Reaches(bk), back)
  {
    OrdersKept(bk, legs, "S", qty, SoldBackCount(bk, FirstFailure(fw, |fw|)));
  }

  /** A fund order with a refused leg `k`: the legs up to `k`, then the sell-backs; "Failed" when every sell-back was answered. */
  lemma {:induction false} RefusedShape(fw: seq<Remote>, bk: seq<Remote>, names: seq<string>)
    requires |bk| == |fw|
    requires FirstFailure(fw, |fw|) < |fw| && fw[FirstFailure(fw, |fw|)].reply == Some(Failed)
    ensures var s := SagaOf(fw, bk, names);
      var k := FirstFailure(fw, |fw|);
      var m := FirstUnanswered(bk, k);
      s.orders == Orders(fw, k + 1) + Orders(bk, SoldBackCount(bk, k))
      && (s.price == Some(Failed) <==> m == k)
      && (m < k ==> s.price == None)
  {
  }

  /**
   * A fund order goes through exactly when every leg does, and then it has
   * sent each leg's own order once, in leg order, and nothing else.
   */
  lemma {:induction false} SagaSucceeds(net: Network, netBack: Network, servers: ServerPorts, legs: seq<Leg>, action: string, qty: Int32)
    requires WellWeighted(legs)
    ensures Saga(net, netBack, servers, legs, action, qty).price == Some(Fund(Names(legs))) <==>
      AllWentThrough(Outcomes(net, servers, legs, action, qty))
    ensures var s := Saga(net, netBack, servers, legs, action, qty);
      s.price == Some(Fund(Names(legs))) ==> s.orders == Placed(legs, action, qty, |legs|)
  {
    OutcomesDeliver(net, servers, legs, action, qty);
    SagaOfSucceeds(Outcomes(net, servers, legs, action, qty), Outcomes(netBack, servers, legs, "S", qty), legs, action, qty);
  }

  /**
   * A fund order fails, and the client is told so, exactly when some leg is
   * refused after every earlier leg went through and every earlier leg's
   * sell-back is answered.
   */
  lemma {:induction false} SagaFailsIff(net: Network, netBack: Network, servers: ServerPorts, legs: seq<Leg>, action: string, qty: Int32)
    requires WellWeighted(legs)
    ensures Saga(net, netBack, servers, legs, action, qty).price == Some(Failed) <==>
      RefusedAfterAnswered(Outcomes(net, servers, legs, action, qty), Outcomes(netBack, servers, legs, "S", qty))
  {
    SagaOfFails(Outcomes(net, servers, legs, action, qty), Outcomes(netBack, servers, legs, "S", qty), Names(legs));
  }

  /**
   * A leg that gets no reply, after every earlier leg went through, leaves
   * the client without a reply: the legs up to it were sent, no later leg is
   * sent and nothing is sold back.
   */
  lemma {:induction false} SagaUnanswered(net: Network, netBack: Network, servers: ServerPorts, legs: seq<Leg>, i: nat, action: string, qty: Int32)
    requires WellWeighted(legs) && i < |legs|
    requires forall j :: 0 <= j < i ==> Outcomes(net, servers, legs, action, qty)[j].WentThrough()
    requires Outcomes(net, servers, legs, action, qty)[i].reply.None?
    ensures var s := Saga(net, netBack, servers, legs, action, qty);
      s.price == None && s.orders == Placed(legs, action, qty, i + 1)
  {
    OutcomesDeliver(net, servers, legs, action, qty);
    SagaOfUnanswered(Outcomes(net, servers, legs, action, qty), Outcomes(netBack, servers, legs, "S", qty), legs, i, action, qty);
  }

  /**
   * What is sent before any sell-back: the orders of the legs that went
   * through, in leg order, then that of the first leg that did not, when it
   * reached its exchange (a known address that accepted the connection); no
   * later leg is sent, and everything after that is a sell-back ("S").
   */
  lemma {:induction false} SagaSendsPrefix(net: Network, netBack: Network, servers: ServerPorts, legs: seq<Leg>, action: string, qty: Int32)
    requires WellWeighted(legs)
    ensures var s := Saga(net, netBack, servers, legs, action, qty);
      var k := FirstFailure(Outcomes(net, servers, legs, action, qty), |legs|);
      var reached := k < |legs| && Reachable(net, legs)[k];
      var sent := if reached then k + 1 else k;
      sent <= |s.orders| && s.orders[..sent] == Placed(legs, action, qty, sent) && AllSells(s.orders[sent..])
  {
    var fw := Outcomes(net, servers, legs, action, qty);
    var k := FirstFailure(fw, |legs|);
    var reached := k < |legs| && Reachable(net, legs)[k];
    OutcomesDeliver(net, servers, legs, action, qty);
    OutcomesDeliver(netBack, servers, legs, "S", qty);
    var bk := Outcomes(netBack, servers, legs, "S", qty);
    SagaOfSendsPrefix(fw, bk, legs, action, qty);
    if k < |legs| {
      assert Reaches(fw)[k] == reached;
    }
    assert SentCount(fw) == if reached then k + 1 else k;
  }

  /**
   * After a refused leg, the roll-back visits the legs that went through
   * before it in leg order, once each, until a sell-back gets no reply. It
   * asks the naming service again for each of them, so it sees its own
   * network: what it sends, after everything else that was sent, is the
   * visited legs' own "S" orders (each with its own share), leaving out those
   * whose exchange is unknown or refuses the connection by then. The client
   * is told "Failed" exactly when every sell-back was answered, and then
   * every earlier leg was visited; otherwise it gets no reply.
   */
  lemma {:induction false} SagaCompensates(net: Network, netBack: Network, servers: ServerPorts, legs: seq<Leg>, action: string, qty: Int32)
    requires WellWeighted(legs)
    requires var fw := Outcomes(net, servers, legs, action, qty);
      FirstFailure(fw, |legs|) < |legs| && fw[FirstFailure(fw, |legs|)].reply == Some(Failed)
    ensures var s := Saga(net, netBack, servers, legs, action, qty);
      var fw := Outcomes(net, servers, legs, action, qty);
      var bk := Outcomes(netBack, servers, legs, "S", qty);
      var k := FirstFailure(fw, |legs|);
      var m := FirstUnanswered(bk, k);
      var sent := k + |fw[k].orders|;
      sent <= |s.orders|
      && s.orders[sent..] == Kept(Placed(legs, "S", qty, |legs|), Reachable(netBack, legs), SoldBackCount(bk, k))
      && (s.price == Some(Failed) <==> m == k)
      && (s.price == Some(Failed) ==> SoldBackCount(bk, k) == k)
      && (m < k ==> s.price == None && SoldBackCount(bk, k) == m + 1)
  {
    OutcomesDeliver(net, servers, legs, action, qty);
    OutcomesDeliver(netBack, servers, legs, "S", qty);
    SagaOfCompensates(Outcomes(net, servers, legs, action, qty), Outcomes(netBack, servers, legs, "S", qty), legs, action, qty);
  }

  /**
   * When nothing changes on the network between the legs and the
   * sell-backs, every leg that went through can be reached again, so the
   * roll-back sends each visited leg's own "S" order, in leg order, with
   * none left out.
   */
  lemma {:induction false} SagaCompensatesSameNetwork(net: Network, servers: ServerPorts, legs: seq<Leg>, action: string, qty: Int32)
    requires WellWeighted(legs)
    requires var fw := Outcomes(net, servers, legs, action, qty);
      FirstFailure(fw, |legs|) < |legs| && fw[FirstFailure(fw, |legs|)].reply == Some(Failed)
    ensures var s := Saga(net, net, servers, legs, action, qty);
      var fw := Outcomes(net, servers, legs, action, qty);
      var k := FirstFailure(fw, |legs|);
      var sent := k + |fw[k].orders|;
      sent <= |s.orders|
      && s.orders[sent..] == Placed(legs, "S", qty, SoldBackCount(Outcomes(net, servers, legs, "S", qty), k))
  {
    var fw := Outcomes(net, servers, legs, action, qty);
    var bk := Outcomes(net, servers, legs, "S", qty);
    var k := FirstFailure(fw, |legs|);
    var back := SoldBackCount(bk, k);
    var all := Placed(legs, "S", qty, |legs|);
    SagaCompensates(net, net, servers, legs, action, qty);
    OutcomesDeliver(net, servers, legs, action, qty);
    forall i | 0 <= i < back
      ensures Reachable(net, legs)[i]
    {
      assert fw[i].WentThrough();
      assert Reaches(fw)[i];
    }
    KeptAll(all, Reachable(net, legs), back);
    assert all[..back] == Placed(legs, "S", qty, back);
  }

  /**
   * What the first loop's answers say about the legs when every leg sent
   * answered: one of them is "Failed" exactly when some leg did not go
   * through, and then it is the last one.
   */
  lemma {:induction false} AnsweredResults(fw: seq<Remote>, results: seq<Price>)
    requires var k := FirstFailure(fw, |fw|);
      |results| == (if k < |fw| then k + 1 else |fw|)
      && (k < |fw| ==> fw[k].reply.Some?)
      && forall j :: 0 <= j < |results| ==> fw[j].reply == Some(results[j])
    ensures var k := FirstFailure(fw, |fw|);
      ((exists j :: 0 <= j < |results| && results[j] == Failed) <==> k < |fw|)
      && (k < |fw| ==> |results| == k + 1 && results[k] == Failed && forall j :: 0 <= j < k ==> results[j] != Failed)
  {
    var k := FirstFailure(fw, |fw|);
    if k < |fw| {
      assert results[k] == Failed;
    }
  }

  // ---------------------------------------------------------------------------
  // Ticks

  /** Where a run of the timer task leaves the quantities, the tables it logged, and whether it threw. */
  datatype TickState = TickState(quantities: map<string, int>, logged: seq<map<string, int>>, crashed: bool)

  /** Every name in `names` has a quantity in `q`. */
  predicate Covers(names: seq<string>, q: map<string, int>)
  {
    forall i :: 0 <= i < |names| ==> names[i] in q
  }

  /**
   * One run of the timer task over the first `k` stocks of the table's
   * iteration order `all`, from quantities `q0`, with `incoming` the
   * quantities scheduled for the current tick. A stock with a positive
   * scheduled quantity gains it and the whole table is logged; a stock with
   * no schedule entry makes the timer task throw, and nothing more happens.
   */
  function TickRun(all: seq<string>, k: nat, q0: map<string, int>, incoming: map<string, Int32>): (r: TickState)
    requires Covers(all, q0) && k <= |all|
    ensures Covers(all, r.quantities)
  {
    if k == 0 then TickState(q0, [], false)
    else TickStep(TickRun(all, k - 1, q0, incoming), all[k - 1], incoming)
  }

  /**
   * The turn of stock `n` in the timer task: nothing once the timer task has
   * thrown; a throw when `n` has no schedule entry; otherwise a positive
   * scheduled quantity is added and the whole table logged.
   */
  function TickStep(r: TickState, n: string, incoming: map<string, Int32>): (s: TickState)
    requires n in r.quantities
    ensures s.quantities.Keys == r.quantities.Keys
  {
    if r.crashed then r
    else if n !in incoming then r.(crashed := true)
    else if incoming[n] > 0 then
      var q1 := r.quantities[n := Wrap(r.quantities[n] + incoming[n])];
      TickState(q1, r.logged + [q1], false)
    else r
  }

  /** One more stock's turn, after a run that has not thrown. */
  lemma TickRunStep(all: seq<string>, k: nat, next: nat, q0: map<string, int>, incoming: map<string, Int32>)
    requires Covers(all, q0) && k < |all| && next == k + 1
    requires !TickRun(all, k, q0, incoming).crashed
    ensures var r := TickRun(all, k, q0, incoming);
      var n := all[k];
      TickRun(all, next, q0, incoming)
      == if n !in incoming then r.(crashed := true)
         else if incoming[n] > 0 then
           TickState(r.quantities[n := Wrap(r.quantities[n] + incoming[n])],
                     r.logged + [r.quantities[n := Wrap(r.quantities[n] + incoming[n])]], false)
         else r
  {
  }

  /** A run over one more stock is one more `TickStep`. */
  lemma TickRunNext(all: seq<string>, k: nat, q0: map<string, int>, incoming: map<string, Int32>)
    requires Covers(all, q0) && k < |all|
    ensures TickRun(all, k + 1, q0, incoming) == TickStep(TickRun(all, k, q0, incoming), all[k], incoming)
  {
  }

  /** The stocks among the first `k` of `all` that receive a positive quantity. */
  function Replenished(all: seq<string>, k: nat, incoming: map<string, Int32>): seq<string>
    requires k <= |all|
  {
    if k == 0 then []
    else
      var n := all[k - 1];
      Replenished(all, k - 1, incoming) + if n in incoming && incoming[n] > 0 then [n] else []
  }

  /** The timer task throws exactly when some visited stock has no schedule entry for the tick. */
  lemma {:induction false} TickCrashesIff(all: seq<string>, k: nat, q0: map<string, int>, incoming: map<string, Int32>)
    requires Covers(all, q0) && k <= |all|
    ensures TickRun(all, k, q0, incoming).crashed <==> exists i :: 0 <= i < k && all[i] !in incoming
  {
    if k > 0 {
      TickCrashesIff(all, k - 1, q0, incoming);
      if exists i :: 0 <= i < k - 1 && all[i] !in incoming {
        var i :| 0 <= i < k - 1 && all[i] !in incoming;
        assert 0 <= i < k;
      }
    }
  }

  /** A tick changes quantities but never adds or drops a stock. */
  lemma {:induction false} TickKeys(all: seq<string>, k: nat, q0: map<string, int>, incoming: map<string, Int32>)
    requires Covers(all, q0) && k <= |all|
    ensures TickRun(all, k, q0, incoming).quantities.Keys == q0.Keys
  {
    if k > 0 {
      TickKeys(all, k - 1, q0, incoming);
    }
  }

  /**
   * Without a crash, every visited stock with a positive scheduled quantity
   * gains exactly that quantity and every other stock keeps its quantity.
   */
  lemma TickQuantities(all: seq<string>, k: nat, q0: map<string, int>, incoming: map<string, Int32>)
    requires Covers(all, q0) && k <= |all|
    requires forall i, j :: 0 <= i < j < |all| ==> all[i] != all[j]
    requires !TickRun(all, k, q0, incoming).crashed
    ensures var r := TickRun(all, k, q0, incoming);
      forall n :: n in q0 ==>
        n in r.quantities
        && r.quantities[n] == if n in all[..k] && n in incoming && incoming[n] > 0 then Wrap(q0[n] + incoming[n]) else q0[n]
  {
    forall n | n in q0
      ensures var r := TickRun(all, k, q0, incoming);
        n in r.quantities
        && r.quantities[n] == if n in all[..k] && n in incoming && incoming[n] > 0 then Wrap(q0[n] + incoming[n]) else q0[n]
    {
      TickQuantityOf(all, k, q0, incoming, n);
    }
  }

  /** `TickQuantities` for one stock `n`. */
  lemma {:induction false} TickQuantityOf(all: seq<string>, k: nat, q0: map<string, int>, incoming: map<string, Int32>, n: string)
    requires Covers(all, q0) && k <= |all| && n in q0
    requires forall i, j :: 0 <= i < j < |all| ==> all[i] != all[j]
    requires !TickRun(all, k, q0, incoming).crashed
    ensures var r := TickRun(all, k, q0, incoming);
      n in r.quantities
      && r.quantities[n] == if n in all[..k] && n in incoming && incoming[n] > 0 then Wrap(q0[n] + incoming[n]) else q0[n]
  {
    if k > 0 {
      var last := all[k - 1];
      var v := all[..k - 1];
      TickQuantityOf(all, k - 1, q0, incoming, n);
      TickRunStep(all, k - 1, k, q0, incoming);
      assert all[..k] == v + [last];
      if n == last {
        assert last !in v by {
          forall i | 0 <= i < |v| ensures v[i] != last {
            assert v[i] == all[i];
          }
        }
      }
    }
  }

  /**
   * Without a crash, one snapshot is logged per replenished stock, and the
   * last one records the quantities at the end of the tick.
   */
  lemma {:induction false} TickLog(all: seq<string>, k: nat, q0: map<string, int>, incoming: map<string, Int32>)
    requires Covers(all, q0) && k <= |all|
    requires !TickRun(all, k, q0, incoming).crashed
    ensures var r := TickRun(all, k, q0, incoming);
      |r.logged| == |Replenished(all, k, incoming)|
      && (|r.logged| > 0 ==> r.logged[|r.logged| - 1] == r.quantities)
  {
    if k > 0 {
      TickLog(all, k - 1, q0, incoming);
    }
  }

  /** Once the timer task has thrown, the rest of the stocks are not visited. */
  lemma {:induction false} TickCrashStays(all: seq<string>, i: nat, k: nat, q0: map<string, int>, incoming: map<string, Int32>)
    requires Covers(all, q0) && i <= k <= |all|
    requires TickRun(all, i, q0, incoming).crashed
    ensures TickRun(all, k, q0, incoming) == TickRun(all, i, q0, incoming)
    decreases k
  {
    if i < k {
      TickCrashStays(all, i, k - 1, q0, incoming);
    }
  }

  /** Stock `n` is among the first `k` of `all`. */
  predicate Visited(all: seq<string>, k: nat, n: string)
    requires k <= |all|
  {
    n in all[..k]
  }

  /** The first `k + 1` stocks are the first `k` and `all[k]`; with distinct names, `all[k]` is not among the first `k`. */
  lemma VisitedNext(all: seq<string>, k: nat, n: string)
    requires k < |all|
    requires forall i, j :: 0 <= i < j < |all| ==> all[i] != all[j]
    ensures Visited(all, k + 1, n) <==> Visited(all, k, n) || n == all[k]
    ensures !Visited(all, k, all[k])
  {
    var v := all[..k];
    assert all[..k + 1] == v + [all[k]];
    forall i | 0 <= i < |v| ensures v[i] != all[k] {
      assert v[i] == all[i];
    }
  }

  /** The turn of stock `m` changes at most the quantity of `m`. */
  lemma TickStepQuantity(r: TickState, m: string, incoming: map<string, Int32>, n: string)
    requires m in r.quantities && n in r.quantities
    ensures var s := TickStep(r, m, incoming).quantities;
      n in s
      && s[n] == if !r.crashed && m in incoming && incoming[m] > 0 && n == m
                 then Wrap(r.quantities[m] + incoming[m]) else r.quantities[n]
  {
  }

  /**
   * Whether or not the timer task throws, every stock holds its old quantity or,
   * if it was visited and scheduled a positive quantity, that quantity added once.
   */
  lemma {:induction false} TickAddsOnce(all: seq<string>, k: nat, q0: map<string, int>, incoming: map<string, Int32>, n: string)
    requires Covers(all, q0) && k <= |all| && n in q0
    requires forall i, j :: 0 <= i < j < |all| ==> all[i] != all[j]
    ensures var q := TickRun(all, k, q0, incoming).quantities;
      n in q
      && (!Visited(all, k, n) ==> q[n] == q0[n])
      && (q[n] == q0[n] || (n in incoming && incoming[n] > 0 && q[n] == Wrap(q0[n] + incoming[n])))
  {
    if k > 0 {
      var m := all[k - 1];
      var r := TickRun(all, k - 1, q0, incoming);
      TickAddsOnce(all, k - 1, q0, incoming, n);
      TickRunNext(all, k - 1, q0, incoming);
      TickStepQuantity(r, m, incoming, n);
      VisitedNext(all, k - 1, n);
    }
  }

  /** Every scheduled quantity still fits in an `int` when added to its stock's quantity. */
  predicate FitsInt(q: map<string, int>, incoming: map<string, Int32>)
  {
    forall n :: n in q && n in incoming ==> q[n] + incoming[n] <= MaxInt
  }

  /**
   * A tick keeps every quantity non-negative as long as no addition overflows.
   */
  lemma {:induction false} TickKeepsNonNegative(all: seq<string>, q0: map<string, int>, incoming: map<string, Int32>)
    requires Covers(all, q0)
    requires forall i, j :: 0 <= i < j < |all| ==> all[i] != all[j]
    requires NonNegative(q0)
    requires FitsInt(q0, incoming)
    ensures NonNegative(TickRun(all, |all|, q0, incoming).quantities)
  {
    var q := TickRun(all, |all|, q0, incoming).quantities;
    TickKeys(all, |all|, q0, incoming);
    forall n | n in q
      ensures q[n] >= 0
    {
      TickAddsOnce(all, |all|, q0, incoming, n);
    }
  }

  // ---------------------------------------------------------------------------
  // Dispatch

  datatype Path = FundPath | LocalPath | RemotePath | PeerPath

  /**
   * Which way a request goes: a client's fund order, a client's order for a
   * stock listed here or elsewhere, or another exchange's order, which is
   * always for a stock listed here.
   */
  function Route(src: string, stock: string, listed: bool): (p: Path)
    ensures p == PeerPath <==> src != "client"
    ensures p == FundPath <==> src == "client" && StartsWith(stock, "Mutual_Fund")
    ensures p == LocalPath <==> src == "client" && !StartsWith(stock, "Mutual_Fund") && listed
  {
    if src != "client" then PeerPath
    else if StartsWith(stock, "Mutual_Fund") then FundPath
    else if listed then LocalPath
    else RemotePath
  }

  /** A client is told whether its order went through; another exchange gets the price itself. */
  datatype Result = Status(succeeded: bool) | Raw(price: Price)

  /** The reply: the request's action, quantity and stock, and the result. */
  datatype Response = Response(action: string, qty: int, stock: string, result: Result)

  /** The quantities scheduled for tick `t`, for the stocks whose schedule has an entry for it. */
  function IncomingAt(schedules: map<string, map<int, Int32>>, t: int): (inc: map<string, Int32>)
    ensures forall n :: n in inc <==> n in schedules && t in schedules[n]
    ensures forall n :: n in inc ==> inc[n] == schedules[n][t]
  {
    map n | n in schedules && t in schedules[n] :: schedules[n][t]
  }

  /** The last line of a log file; "" for an empty file. */
  function LastLine(lines: seq<string>): (l: string)
    ensures lines != [] ==> l == lines[|lines| - 1]
  {
    if lines == [] then "" else lines[|lines| - 1]
  }

  // ---------------------------------------------------------------------------
  // The exchange

  class Exchange {
    const exchangeName: string
    const servers: ServerPorts
    /** stock name -> stock, as loaded from the market data; the key set never changes. */
    const stockTable: map<string, Stock>
    /** The iteration order of `stockTable`, which is fixed because its keys are. */
    const order: seq<string>
    const period: int

    var timeIndex: int
    var delay: int
    /** Whether the timer task has thrown: `java.util.Timer` then never runs it again. */
    var stopped: bool

    /** Every stock is filed under its own name, and `order` lists each name once. */
    predicate Valid()
    {
      (forall n :: n in stockTable ==> stockTable[n].name == n)
      && (forall i, j :: 0 <= i < j < |order| ==> order[i] != order[j])
      && (forall n :: n in stockTable ==> n in order)
      && (forall i :: 0 <= i < |order| ==> order[i] in stockTable)
    }

    /** The available quantity of every stock. */
    function Quantities(): (q: map<string, int>)
      reads stockTable.Values`currentQty
    {
      map n | n in stockTable :: stockTable[n].currentQty as int
    }

    /** The quantity schedule of every stock, which orders and ticks never change. */
    function Schedules(): map<string, map<int, Int32>>
      reads stockTable.Values`qtyTable
    {
      map n | n in stockTable :: stockTable[n].qtyTable
    }

    /** The quantities scheduled for the current tick. */
    function Incoming(): map<string, Int32>
      reads stockTable.Values`qtyTable, this`timeIndex
    {
      IncomingAt(Schedules(), timeIndex)
    }

    /** The schedule for the current tick depends on the schedules and the tick only. */
    twostate lemma IncomingKept()
      requires unchanged(stockTable.Values`qtyTable) && unchanged(this`timeIndex)
      ensures Incoming() == old(Incoming())
    {
    }

    /** A stock is scheduled for the current tick exactly when its own schedule has an entry for it. */
    lemma IncomingOf(name: string)
      requires name in stockTable
      ensures name in Incoming() <==> timeIndex in stockTable[name].qtyTable
      ensures name in Incoming() ==> Incoming()[name] == stockTable[name].qtyTable[timeIndex]
    {
    }

    /** Quantities depend on the stocks' current quantities only. */
    twostate lemma QuantitiesKept()
      requires unchanged(stockTable.Values`currentQty)
      ensures Quantities() == old(Quantities())
    {
    }

    /** An exchange whose stocks have been loaded and which has not yet registered. */
    constructor (name: string, serverPorts: ServerPorts, stocks: map<string, Stock>, iteration: seq<string>)
      requires forall n :: n in stocks ==> stocks[n].name == n
      requires forall i, j :: 0 <= i < j < |iteration| ==> iteration[i] != iteration[j]
      requires forall n :: n in stocks <==> n in iteration
      ensures Valid()
      ensures exchangeName == name && servers == serverPorts && stockTable == stocks && order == iteration
      ensures period == 1000 && timeIndex == 0 && delay == 0 && !stopped
    {
      exchangeName := name;
      servers := serverPorts;
      stockTable := stocks;
      order := iteration;
      period := 1000;
      timeIndex := 0;
      delay := 0;
      stopped := false;
    }

    /** `addCurrentQty` on one stock, seen from the whole table. */
    method AddTo(name: string, qty: Int32)
      requires Valid() && name in stockTable
      modifies {stockTable[name]}`currentQty
      ensures Quantities() == old(Quantities())[name := Wrap(old(Quantities())[name] + qty)]
    {
      var stock := stockTable[name];
      stock.AddCurrentQty(qty);
      assert forall n :: n in stockTable && n != name ==> stockTable[n] != stock;
    }

    /** `deCurrentQty` on one stock, seen from the whole table. */
    method TakeFrom(name: string, qty: Int32) returns (ok: bool)
      requires Valid() && name in stockTable
      modifies {stockTable[name]}`currentQty
      ensures ok <==> old(Quantities())[name] >= qty
      ensures Quantities() == if ok then old(Quantities())[name := Wrap(old(Quantities())[name] - qty)] else old(Quantities())
    {
      var stock := stockTable[name];
      ok := stock.DeCurrentQty(qty);
      assert forall n :: n in stockTable && n != name ==> stockTable[n] != stock;
    }

    /** The buy or sell step of `processInternalTransaction`. */
    method ApplyOrder(action: string, qty: Int32, stockName: string) returns (ok: bool)
      requires Valid() && stockName in stockTable
      modifies {stockTable[stockName]}`currentQty
      ensures var t := Trade(old(Quantities())[stockName] as Int32, action, qty);
        ok == t.ok && Quantities() == old(Quantities())[stockName := t.quantity]
    {
      if action == "B" {
        ok := TakeFrom(stockName, qty);
      } else {
        ok := true;
        AddTo(stockName, qty);
      }
    }

    /**
     * `processInternalTransaction`: applies the order to the stock, writes
     * the whole table to the log (`logged`) whether or not the order went
     * through, and reports the stock's price at the current tick, or
     * "Failed" for a refused buy. A tick missing from the price table throws
     * after the log line (None).
     */
    method ProcessInternalTransaction(action: string, qty: Int32, stockName: string)
      returns (price: Option<Price>, logged: map<string, int>)
      requires Valid() && stockName in stockTable
      modifies stockTable.Values`currentQty
      ensures var t := Trade(old(Quantities())[stockName] as Int32, action, qty);
        Quantities() == old(Quantities())[stockName := t.quantity]
        && logged == Quantities()
        && price == if !t.ok then Some(Failed)
                    else if timeIndex in stockTable[stockName].priceTable
                    then Some(Quote(stockTable[stockName].priceTable[timeIndex]))
                    else None
      ensures NonNegative(old(Quantities())) && qty >= 0 && old(Quantities())[stockName] + qty <= MaxInt
              ==> NonNegative(Quantities())
    {
      var ok := ApplyOrder(action, qty, stockName);
      logged := Quantities();
      var stock := stockTable[stockName];
      if !ok {
        price := Some(Failed);
      } else if timeIndex in stock.priceTable {
        price := Some(Quote(stock.GetPrice(timeIndex)));
      } else {
        price := None;
      }
    }

    /**
     * `TimeUpdateTask.run`: visits the stocks in table order, adds each one's
     * scheduled quantity for the current tick when it is positive, logging
     * the table each time (`logged`), and then moves to the next tick. A
     * stock with no entry for the tick makes the timer task throw (`ok` false): the
     * changes made so far stay, the tick does not advance and the timer stops
     * for good (`stopped`), so no later tick runs.
     */
    method Tick() returns (ok: bool, logged: seq<map<string, int>>)
      requires Valid() && !stopped
      modifies stockTable.Values`currentQty, this`timeIndex, this`stopped
      ensures TickRun(order, |order|, old(Quantities()), old(Incoming())) == TickState(Quantities(), logged, !ok)
      ensures timeIndex == old(timeIndex) + if ok then 1 else 0
      ensures stopped == !ok
    {
      ok, logged := ReplenishAll(Incoming());
      EndTick(ok);
    }

    /**
     * The end of a run of the timer task: the last line of
     * `TimeUpdateTask.run` moves to the next tick, unless the timer task
     * threw, which stops the timer.
     */
    method EndTick(ok: bool)
      modifies this`timeIndex, this`stopped
      ensures timeIndex == old(timeIndex) + if ok then 1 else 0
      ensures stopped == !ok
    {
      if ok {
        timeIndex := timeIndex + 1;
      }
      stopped := !ok;
    }

    /** The loop of `TimeUpdateTask.run` over the stocks, up to the first one that throws. */
    method ReplenishAll(ghost incoming: map<string, Int32>) returns (ok: bool, logged: seq<map<string, int>>)
      requires Valid() && incoming == Incoming()
      modifies stockTable.Values`currentQty
      ensures TickRun(order, |order|, old(Quantities()), incoming) == TickState(Quantities(), logged, !ok)
    {
      ghost var q0 := old(Quantities());
      logged := [];
      var i := 0;
      while i < |order|
        invariant 0 <= i <= |order| && Covers(order, q0) && incoming == Incoming()
        invariant TickRun(order, i, q0, incoming) == TickState(Quantities(), logged, false)
      {
        TickRunNext(order, i, q0, incoming);
        var present;
        present, logged, i := Replenish(i, incoming, logged);
        if !present {
          TickCrashStays(order, i, |order|, q0, incoming);
          return false, logged;
        }
      }
      ok := true;
    }

    /**
     * The `i`-th stock's turn in `TimeUpdateTask.run`, after the lines
     * `logged0`: `present` tells whether its schedule has an entry for the
     * current tick; a positive entry is added to its quantity and the table
     * is logged. This is `TickStep` over the schedule `incoming`;
     * `next` is the position of the stock visited after it.
     */
    method Replenish(i: nat, ghost incoming: map<string, Int32>, logged0: seq<map<string, int>>)
      returns (present: bool, logged: seq<map<string, int>>, next: nat)
      requires Valid() && i < |order| && incoming == Incoming()
      modifies stockTable.Values`currentQty
      ensures incoming == Incoming()
      ensures next == i + 1
      ensures TickState(Quantities(), logged, !present)
              == TickStep(TickState(old(Quantities()), logged0, false), order[i], incoming)
    {
      next := i + 1;
      var name := order[i];
      var stock := stockTable[name];
      IncomingOf(name);
      if timeIndex !in stock.qtyTable {
        return false, logged0, next;
      }
      var amount := stock.GetQty(timeIndex);
      logged := logged0;
      if amount > 0 {
        AddTo(name, amount);
        logged := logged + [Quantities()];
        IncomingKept();
      }
      present := true;
    }

    /**
     * The recovery part of `register`: an empty last line changes nothing; any
     * other line loses its first and last characters and each ", "-separated
     * `name=qty` piece adds `qty` to the named stock. A piece that does not
     * parse throws (`ok` false), which ends the exchange's start-up.
     */
    method RecoverFrom(lastLine: string) returns (ok: bool)
      requires Valid()
      modifies stockTable.Values`currentQty
      ensures var r := Recover(old(Quantities()), lastLine);
        (ok <==> r.Some?) && (ok ==> Quantities() == r.value)
    {
      ghost var q0 := Quantities();
      if |lastLine| == 0 {
        return true;
      }
      if |lastLine| == 1 {
        return false;
      }
      var pairs := JavaSplit(lastLine[1..|lastLine| - 1], ',');
      ok := true;
      var i := 0;
      while i < |pairs| && ok
        invariant 0 <= i <= |pairs|
        invariant ApplyPairs(q0, pairs[..i]) == if ok then Some(Quantities()) else None
      {
        ApplyPairsNext(q0, pairs, i);
        ok := RecoverPair(pairs[i]);
        i := i + 1;
      }
      if ok {
        assert pairs[..|pairs|] == pairs;
      } else {
        ApplyPairsStaysFailed(q0, pairs, i);
      }
    }

    /**
     * One `name=qty` piece of the recovered line: its quantity is added to
     * the named stock; a piece that does not parse, or names no stock here,
     * throws (`ok` false).
     */
    method RecoverPair(pair: string) returns (ok: bool)
      requires Valid()
      modifies stockTable.Values`currentQty
      ensures ApplyPair(old(Quantities()), pair) == if ok then Some(Quantities()) else None
    {
      var parsed := ParsePair(pair);
      if parsed.None? || parsed.value.0 !in stockTable {
        return false;
      }
      AddTo(parsed.value.0, parsed.value.1);
      ok := true;
    }

    /**
     * The timing and recovery part of `register`, given the server's start
     * time, the clock and the existing log file (None when there is none).
     * A time difference that does not fit in an `int` throws: when the system
     * has already started nothing has changed by then, otherwise the time
     * index has already been set to 1. Afterwards the log is recovered (and
     * then reopened empty).
     */
    method Register(startTime: int, now: int, logFile: Option<seq<string>>) returns (ok: bool)
      requires Valid()
      modifies this`timeIndex, this`delay, stockTable.Values`currentQty
      ensures var t := CatchUp(startTime, now);
        (t.None? ==> !ok && timeIndex == (if startTime > now then 1 else old(timeIndex))
                     && delay == old(delay) && Quantities() == old(Quantities()))
        && (t.Some? ==> timeIndex == t.value.timeIndex && delay == t.value.delay)
      ensures ok <==> CatchUp(startTime, now).Some?
                      && (logFile.None? || Recover(old(Quantities()), LastLine(logFile.value)).Some?)
      ensures ok ==>
        Quantities() == if logFile.None? then old(Quantities()) else Recover(old(Quantities()), LastLine(logFile.value)).value
    {
      var t := CatchUp(startTime, now);
      if t.None? {
        if startTime > now {
          timeIndex := 1;
        }
        return false;
      }
      timeIndex, delay := t.value.timeIndex, t.value.delay;
      QuantitiesKept();
      ok := true;
      if logFile.Some? {
        ok := RecoverFrom(LastLine(logFile.value));
      }
    }

    /**
     * `processMutualFund`. Every leg takes the external path: the source tests
     * the stock name against the table's values (Stock objects), which never
     * matches, so local stocks too are ordered through the naming service.
     * A leg for a stock listed here is therefore sent to this exchange's own
     * port, where another of its handlers trades and logs it as a separate
     * peer request; `net` stands for that handler's answer like any other
     * peer's. This handler itself changes no quantity and logs nothing;
     * `price` is the answer for the client (None: the handler is left
     * waiting and never replies), `orders` the orders sent over the network,
     * in order, and `notices` the reports sent to servers. `net` is what the
     * legs see and `netBack` what the sell-backs see, since each sell-back
     * asks the naming service again.
     */
    method ProcessMutualFund(action: string, fund: string, qty: Int32, net: Network, netBack: Network)
      returns (price: Option<Price>, orders: seq<Order>, notices: seq<ServerNotice>)
      ensures SagaOutcome(price, orders, notices) == Saga(net, netBack, servers, FundLegs(fund), action, qty)
    {
      price, orders, notices := TradeLegs(action, FundLegs(fund), qty, net, netBack);
    }

    /**
     * The body of `processMutualFund` once the fund's legs are known: send
     * the legs until one does not go through, then sell back the ones that
     * did.
     */
    method TradeLegs(action: string, legs: seq<Leg>, qty: Int32, net: Network, netBack: Network)
      returns (price: Option<Price>, orders: seq<Order>, notices: seq<ServerNotice>)
      requires WellWeighted(legs)
      ensures SagaOutcome(price, orders, notices) == Saga(net, netBack, servers, legs, action, qty)
    {
      ghost var fw := Outcomes(net, servers, legs, action, qty);
      var results, replied;
      results, replied, orders, notices := SendLegs(legs, action, qty, net);
      if !replied {
        // the handler waits on the leg that never answers
        return None, orders, notices;
      }
      AnsweredResults(fw, results);
      var rollBack := AnyFailed(results);
      if rollBack {
        var backReplied, backOrders, backNotices := SellBack(legs, results, qty, netBack);
        orders, notices := orders + backOrders, notices + backNotices;
        price := if backReplied then Some(Failed) else None;
      } else {
        price := Some(Fund(Names(legs)));
      }
    }

    /**
     * The first loop of `processMutualFund`: each leg's order is sent in
     * turn, and the loop stops after the first one that does not go
     * through. `results` holds the answers received, in order; `replied` is
     * false when the last leg sent never answered.
     */
    method SendLegs(legs: seq<Leg>, action: string, qty: Int32, net: Network)
      returns (results: seq<Price>, replied: bool, orders: seq<Order>, notices: seq<ServerNotice>)
      requires WellWeighted(legs)
      ensures var fw := Outcomes(net, servers, legs, action, qty);
        var k := FirstFailure(fw, |legs|);
        replied <==> k == |legs| || fw[k].reply.Some?
      ensures var fw := Outcomes(net, servers, legs, action, qty);
        var k := FirstFailure(fw, |legs|);
        var n := if k < |legs| then k + 1 else |legs|;
        |results| == (if replied then n else k)
        && (forall j :: 0 <= j < |results| ==> fw[j].reply == Some(results[j]))
        && orders == Orders(fw, n)
        && notices == Notices(fw, n)
    {
      ghost var fw := Outcomes(net, servers, legs, action, qty);
      ghost var k := FirstFailure(fw, |legs|);
      results, orders, notices := [], [], [];
      var i := 0;
      while i < |legs|
        invariant 0 <= i <= k && |results| == i
        invariant forall j :: 0 <= j < i ==> fw[j].reply == Some(results[j])
        invariant orders == Orders(fw, i)
        invariant notices == Notices(fw, i)
      {
        var r := SendLeg(legs, i, action, qty, net);
        orders := orders + r.orders;
        notices := notices + r.notices;
        if r.reply.None? {
          assert i == k;
          replied := false;
          return;
        }
        results := results + [r.reply.value];
        if r.reply.value == Failed {
          assert i == k;
          replied := true;
          return;
        }
        i := i + 1;
      }
      replied := true;
    }

    /** One leg of a fund order, sent through the naming service. */
    method SendLeg(legs: seq<Leg>, i: nat, action: string, qty: Int32, net: Network) returns (r: Remote)
      requires WellWeighted(legs) && i < |legs|
      ensures r == Outcomes(net, servers, legs, action, qty)[i]
    {
      OutcomeAt(net, servers, legs, i, action, qty);
      r := LegOutcome(net, servers, legs[i], action, qty);
    }

    /** The second loop of `processMutualFund`: is any result "Failed"? */
    method AnyFailed(results: seq<Price>) returns (rollBack: bool)
      ensures rollBack <==> exists j :: 0 <= j < |results| && results[j] == Failed
    {
      rollBack := false;
      var m := 0;
      while m < |results|
        invariant 0 <= m <= |results|
        invariant forall j :: 0 <= j < m ==> results[j] != Failed
      {
        if results[m] == Failed {
          return true;
        }
        m := m + 1;
      }
    }

    /**
     * The roll-back loop of `processMutualFund`: every leg whose result is
     * not "Failed" is sold back ("S") with its own share, in order; only the
     * last leg sent failed. A sell-back that never answers leaves the
     * handler waiting: `replied` is false and no later leg is sold back.
     * `netBack` is the network as the sell-backs see it.
     */
    method SellBack(legs: seq<Leg>, results: seq<Price>, qty: Int32, netBack: Network)
      returns (replied: bool, orders: seq<Order>, notices: seq<ServerNotice>)
      requires WellWeighted(legs) && 0 < |results| <= |legs|
      requires forall j :: 0 <= j < |results| - 1 ==> results[j] != Failed
      requires results[|results| - 1] == Failed
      ensures var bk := Outcomes(netBack, servers, legs, "S", qty);
        var m := FirstUnanswered(bk, |results| - 1);
        var back := SoldBackCount(bk, |results| - 1);
        (replied <==> m == |results| - 1) && orders == Orders(bk, back) && notices == Notices(bk, back)
    {
      ghost var bk := Outcomes(netBack, servers, legs, "S", qty);
      ghost var m := FirstUnanswered(bk, |results| - 1);
      orders, notices := [], [];
      var c := 0;
      while c < |results|
        invariant 0 <= c <= |results|
        invariant (if c < |results| then c else c - 1) <= m
        invariant orders == Orders(bk, if c < |results| then c else c - 1)
        invariant notices == Notices(bk, if c < |results| then c else c - 1)
      {
        if results[c] != Failed {
          var r := SendLeg(legs, c, "S", qty, netBack);
          orders := orders + r.orders;
          notices := notices + r.notices;
          if r.reply.None? {
            replied := false;
            return;
          }
        }
        c := c + 1;
      }
      replied := true;
    }

    /**
     * `ConnectionHandler.run` for one request from `src` ("client" or
     * another exchange). The reply echoes the request; a client learns only
     * whether its order went through. An exchange's order for a stock not
     * listed here, and a missing price for the current tick, make the
     * handler throw, and an exchange that never answers leaves it waiting:
     * no reply (None) in every such case. `orders` and `notices` are what was
     * sent over the network and to the servers, `logged` what this handler
     * wrote to the log; `netBack` is the network a fund order's sell-backs
     * see. A fund leg for a stock listed here is a separate request to this
     * exchange's own port (see ProcessMutualFund), not part of this call.
     */
    method HandleMessage(src: string, action: string, stock: string, qty: Int32, net: Network, netBack: Network)
      returns (response: Option<Response>, orders: seq<Order>, notices: seq<ServerNotice>, logged: seq<map<string, int>>)
      requires Valid()
      modifies stockTable.Values`currentQty
      ensures response.Some? ==>
        response.value.action == action && response.value.qty == qty && response.value.stock == stock
      ensures match Route(src, stock, stock in stockTable)
        case FundPath =>
          var s := Saga(net, netBack, servers, FundLegs(stock), action, qty);
          response == (if s.price.None? then None else Some(Response(action, qty, stock, Status(s.price.value != Failed))))
          && orders == s.orders && notices == s.notices
          && Quantities() == old(Quantities()) && logged == []
        case RemotePath =>
          var r := ExternalTransaction(net, servers, AskAddress(net, stock), action, qty, stock);
          response == (if r.reply.None? then None else Some(Response(action, qty, stock, Status(r.reply.value != Failed))))
          && orders == r.orders && notices == r.notices
          && Quantities() == old(Quantities()) && logged == []
        case LocalPath =>
          var t := Trade(old(Quantities())[stock] as Int32, action, qty);
          Quantities() == old(Quantities())[stock := t.quantity] && logged == [Quantities()]
          && orders == [] && notices == []
          && response == if !t.ok then Some(Response(action, qty, stock, Status(false)))
                         else if timeIndex in stockTable[stock].priceTable
                         then Some(Response(action, qty, stock, Status(true)))
                         else None
        case PeerPath =>
          orders == [] && notices == []
          && (stock !in stockTable ==> response == None && Quantities() == old(Quantities()) && logged == [])
          && (stock in stockTable ==>
                var t := Trade(old(Quantities())[stock] as Int32, action, qty);
                Quantities() == old(Quantities())[stock := t.quantity] && logged == [Quantities()]
                && response == if !t.ok then Some(Response(action, qty, stock, Raw(Failed)))
                               else if timeIndex in stockTable[stock].priceTable
                               then Some(Response(action, qty, stock, Raw(Quote(stockTable[stock].priceTable[timeIndex]))))
                               else None)
    {
      orders, notices, logged := [], [], [];
      var price: Option<Price>;
      if src == "client" {
        if StartsWith(stock, "Mutual_Fund") {
          price, orders, notices := ProcessMutualFund(action, stock, qty, net, netBack);
        } else if stock in stockTable {
          var line;
          price, line := ProcessInternalTransaction(action, qty, stock);
          logged := [line];
        } else {
          var port := AskAddress(net, stock);
          var r := ExternalTransaction(net, servers, port, action, qty, stock);
          orders, notices := r.orders, r.notices;
          price := r.reply;
        }
        response := if price.None? then None else Some(Response(action, qty, stock, Status(price.value != Failed)));
      } else if stock !in stockTable {
        response := None;
      } else {
        var line;
        price, line := ProcessInternalTransaction(action, qty, stock);
        logged := [line];
        response := if price.None? then None else Some(Response(action, qty, stock, Raw(price.value)));
      }
    }
  }

  /** Reading one more piece applies it to what the earlier pieces left. */
  lemma ApplyPairsNext(q: map<string, int>, ps: seq<string>, i: nat)
    requires i < |ps|
    ensures ApplyPairs(q, ps[..i + 1]) == match ApplyPairs(q, ps[..i])
                                         case None => None
                                         case Some(prev) => ApplyPair(prev, ps[i])
  {
    assert ps[..i + 1][..i] == ps[..i];
  }

  /** Once a piece fails to parse, recovery fails whatever follows. */
  lemma {:induction false} ApplyPairsStaysFailed(q: map<string, int>, pairs: seq<string>, i: nat)
    requires i <= |pairs|
    requires ApplyPairs(q, pairs[..i]) == None
    ensures ApplyPairs(q, pairs) == None
    decreases |pairs| - i
  {
    if i < |pairs| {
      assert pairs[..i + 1][..i] == pairs[..i];
      ApplyPairsStaysFailed(q, pairs, i + 1);
    } else {
      assert pairs[..i] == pairs;
    }
  }
}
