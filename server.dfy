/**
 * A naming server of the ring Asia - Africa - Europe - America.
 *
 * Each server knows the exchanges registered with it (internal exchanges) and
 * caches answers it obtained from its neighbours. A request for the exchange
 * holding a stock is answered from the tables when possible and otherwise
 * relayed along the ring: the server that received it from an exchange (the
 * originator) asks its left neighbour first and its right neighbour only when
 * the left found nothing; a relaying server passes the request on away from
 * the originator. A neighbour that cannot be reached is replaced by its
 * backup, one port higher, and the stored neighbour port is moved.
 *
 * The tables and both neighbour ports are the routing state (`Routing`);
 * the pure functions below say what each handler does to it, and `Server`
 * is the object whose methods are proved to do exactly that.
 * Connections and replies of other servers are an oracle (`Net`).
 */
module NamingServer {
  import opened JavaLang

  // ---------------------------------------------------------------------------
  // Ring topology

  const AsiaPort: int := 1111
  const AfricaPort: int := 2222
  const EuropePort: int := 3333
  const AmericaPort: int := 4444

  /** The port a server listens on: a primary's own port, a backup's one higher. */
  function ListenPort(serverName: string): (p: Option<int>)
  {
    match serverName
    case "Asia" => Some(AsiaPort)
    case "AsiaBackup" => Some(AsiaPort + 1)
    case "Africa" => Some(AfricaPort)
    case "AfricaBackup" => Some(AfricaPort + 1)
    case "Europe" => Some(EuropePort)
    case "EuropeBackup" => Some(EuropePort + 1)
    case "America" => Some(AmericaPort)
    case "AmericaBackup" => Some(AmericaPort + 1)
    case _ => None
  }

  /** A server's own (primary) port and its neighbours' ports; -1 where there is none. */
  datatype Position = Position(port: int, left: int, right: int)

  function PositionOf(serverName: string): (pos: Option<Position>)
  {
    match serverName
    case "Asia" => Some(Position(AsiaPort, -1, AfricaPort))
    case "AsiaBackup" => Some(Position(AsiaPort, -1, AfricaPort))
    case "Africa" => Some(Position(AfricaPort, AsiaPort, EuropePort))
    case "AfricaBackup" => Some(Position(AfricaPort, AsiaPort, EuropePort))
    case "Europe" => Some(Position(EuropePort, AfricaPort, AmericaPort))
    case "EuropeBackup" => Some(Position(EuropePort, AfricaPort, AmericaPort))
    case "America" => Some(Position(AmericaPort, EuropePort, -1))
    case "AmericaBackup" => Some(Position(AmericaPort, EuropePort, -1))
    case _ => None
  }

  /**
   * Every server name has a position; a neighbour on the left has a lower port
   * and one on the right a higher port; only Asia lacks a left and only America
   * a right neighbour; a backup shares its primary's position and listens one
   * port higher.
   */
  lemma TopologyShape(serverName: string)
    ensures PositionOf(serverName).Some? <==> ListenPort(serverName).Some?
    ensures PositionOf(serverName).Some? ==>
      var pos := PositionOf(serverName).value;
      (pos.left == -1 || pos.left < pos.port) && (pos.right == -1 || pos.port < pos.right)
      && (pos.left == -1 <==> serverName in {"Asia", "AsiaBackup"})
      && (pos.right == -1 <==> serverName in {"America", "AmericaBackup"})
      && pos.port % 1111 == 0
      && (pos.left != -1 ==> pos.left % 1111 == 0)
      && (pos.right != -1 ==> pos.right % 1111 == 0)
    ensures forall region :: region in {"Asia", "Africa", "Europe", "America"} ==>
      PositionOf(region + "Backup") == PositionOf(region)
      && ListenPort(region + "Backup") == Some(ListenPort(region).value + 1)
  {
    forall region | region in {"Asia", "Africa", "Europe", "America"}
      ensures PositionOf(region + "Backup") == PositionOf(region)
      ensures ListenPort(region + "Backup") == Some(ListenPort(region).value + 1)
    {
      if region == "Asia" {
        assert region + "Backup" == "AsiaBackup";
      } else if region == "Africa" {
        assert region + "Backup" == "AfricaBackup";
      } else if region == "Europe" {
        assert region + "Backup" == "EuropeBackup";
      } else {
        assert region + "Backup" == "AmericaBackup";
      }
    }
  }

  // ---------------------------------------------------------------------------
  // Routing state

  /**
   * exchange name -> address, exchange name -> names of its stocks, and the
   * names of the exchanges registered with this server.
   */
  datatype Tables = Tables(address: map<string, int>, stocks: map<string, set<string>>, internal: set<string>)

  const NoTables: Tables := Tables(map[], map[], {})

  /** Every registered exchange has an address, and exactly the exchanges with an address have a stock set. */
  predicate Consistent(t: Tables)
  {
    t.internal <= t.address.Keys && t.address.Keys == t.stocks.Keys
  }

  datatype Routing = Routing(port: int, left: int, right: int, tables: Tables)

  /** `registerExchange`. */
  function Register(t: Tables, name: string, port: int, stockSet: set<string>): Tables
  {
    Tables(t.address[name := port], t.stocks[name := stockSet], t.internal + {name})
  }

  /** The exchanges whose stock set holds `stock`: the candidates `getExchangeWithStock` may return. */
  function Holders(t: Tables, stock: string): set<string>
  {
    set name | name in t.stocks && stock in t.stocks[name]
  }

  /**
   * `removeDownExchangeCache`: a registered exchange is dropped only if its
   * address is still the one reported down (it may have come back elsewhere);
   * a cached entry is dropped whatever address it holds.
   */
  function Evict(t: Tables, name: string, downAddress: int): Tables
  {
    if name in t.internal then
      // under `Consistent` a registered exchange always has an address
      if name in t.address && t.address[name] == downAddress then
        Tables(t.address - {name}, t.stocks - {name}, t.internal - {name})
      else t
    else if name in t.address then
      Tables(t.address - {name}, t.stocks - {name}, t.internal)
    else t
  }

  /** The caching block: remember the answer's address and that the exchange holds `stock`. */
  function Cache(t: Tables, name: string, address: int, stock: string): Tables
  {
    Tables(t.address[name := address],
           t.stocks[name := (if name in t.stocks then t.stocks[name] else {}) + {stock}],
           t.internal)
  }

  /**
   * `updateNextPort`: the neighbour port on the side of `next` toggles between a
   * primary port (a multiple of 1111) and its backup one higher. Java's `%`
   * and Dafny's differ on negative operands, but not in whether the result is 0.
   */
  function UpdateNext(s: Routing, next: int): Routing
  {
    if next > s.port then
      s.(right := if next % 1111 == 0 then s.right + 1 else s.right - 1)
    else
      s.(left := if next % 1111 == 0 then s.left + 1 else s.left - 1)
  }

  // ---------------------------------------------------------------------------
  // Properties of the table operations

  /**
   * Registration records the address and stock set and marks the exchange as
   * registered; every other exchange's entries are untouched; registering
   * twice is registering once; the tables stay consistent.
   */
  lemma RegisterEffect(t: Tables, name: string, port: int, stockSet: set<string>)
    ensures var r := Register(t, name, port, stockSet);
      r.address[name] == port && r.stocks[name] == stockSet && name in r.internal
      && (forall n :: n != name ==> (n in r.address <==> n in t.address) && (n in r.internal <==> n in t.internal))
      && (forall n :: n != name && n in t.address ==> r.address[n] == t.address[n])
      && (forall n :: n != name && n in t.stocks ==> n in r.stocks && r.stocks[n] == t.stocks[n])
      && Register(r, name, port, stockSet) == r
      && (Consistent(t) ==> Consistent(r))
  {
  }

  /** A registered exchange is dropped from all three tables exactly when its address is the one reported down. */
  lemma EvictRegistered(t: Tables, name: string, downAddress: int)
    requires Consistent(t) && name in t.internal
    ensures t.address[name] == downAddress ==>
      var r := Evict(t, name, downAddress);
      name !in r.address && name !in r.stocks && name !in r.internal
    ensures t.address[name] != downAddress ==> Evict(t, name, downAddress) == t
  {
  }

  /** A cached entry is dropped whatever address it holds, and the set of registered exchanges is unchanged. */
  lemma EvictCached(t: Tables, name: string, downAddress: int)
    requires Consistent(t) && name !in t.internal
    ensures var r := Evict(t, name, downAddress);
      name !in r.address && name !in r.stocks && r.internal == t.internal
      && (name !in t.address ==> r == t)
  {
  }

  /** Eviction touches no other exchange and keeps the tables consistent. */
  lemma EvictFrame(t: Tables, name: string, downAddress: int)
    ensures var r := Evict(t, name, downAddress);
      (forall n :: n != name ==> (n in r.address <==> n in t.address) && (n in r.stocks <==> n in t.stocks)
                                 && (n in r.internal <==> n in t.internal))
      && (forall n :: n != name && n in t.address ==> r.address[n] == t.address[n])
      && (forall n :: n != name && n in t.stocks ==> r.stocks[n] == t.stocks[n])
      && (Consistent(t) ==> Consistent(r))
  {
  }

  /**
   * Caching an answer records its address, adds the stock to the exchange's
   * set (starting an empty one if there was none), leaves the registered set
   * and the other exchanges alone, and keeps the tables consistent.
   */
  lemma CacheEffect(t: Tables, name: string, address: int, stock: string)
    ensures var r := Cache(t, name, address, stock);
      r.address[name] == address
      && r.stocks[name] == (if name in t.stocks then t.stocks[name] else {}) + {stock}
      && name in Holders(r, stock)
      && r.internal == t.internal
      && (forall n :: n != name && n in t.address ==> n in r.address && r.address[n] == t.address[n])
      && (forall n :: n != name && n in t.stocks ==> n in r.stocks && r.stocks[n] == t.stocks[n])
      && (Consistent(t) ==> Consistent(r))
  {
  }

  /**
   * `updateNextPort` moves only the neighbour port on the side of `next`, by one: up
   * from a primary port, down from any other.
   */
  lemma UpdateNextEffect(s: Routing, next: int)
    ensures var r := UpdateNext(s, next);
      r.port == s.port && r.tables == s.tables
      && (next > s.port ==> r.left == s.left && r.right == s.right + (if next % 1111 == 0 then 1 else -1))
      && (next <= s.port ==> r.right == s.right && r.left == s.left + (if next % 1111 == 0 then 1 else -1))
  {
  }

  /**
   * After the neighbour at a primary port `next` is found down and its backup
   * `next + 1` answers, the failover paths call `updateNextPort` with the
   * backup's port, so the stored port moves one BELOW the primary, not to the
   * backup; calling it with the primary's port moves it to the backup.
   */
  lemma FailoverMovesPortDown(s: Routing, k: int)
    requires k >= 1 && s.right == k * 1111 && s.right > s.port
    ensures UpdateNext(s, s.right + 1).right == k * 1111 - 1
    ensures UpdateNext(s, s.right).right == k * 1111 + 1
  {
    assert (k * 1111 + 1) % 1111 == 1;
  }

  // ---------------------------------------------------------------------------
  // Asking a neighbour

  /** A server's reply to an address request; `exchange` is absent in the originator's reply to an exchange. */
  datatype Reply = Reply(address: int, exchange: Option<string>)

  const NoAddress: Reply := Reply(-1, None)

  /**
   * What the network does for one request: whether a connection to a port
   * succeeds, and the line read back from it (None: the connection broke and
   * `readLine` returned null).
   */
  datatype Net = Net(up: int -> bool, answer: int -> Option<Reply>)

  /** Servers name the exchange whenever they send an address. */
  ghost predicate Named(net: Net)
  {
    forall p :: net.answer(p).Some? && net.answer(p).value.address != -1 ==> net.answer(p).value.exchange.Some?
  }

  /** A result of a handler: the routing state afterwards and what was sent. */
  datatype Outcome<T> = Outcome(after: Routing, out: T)

  /**
   * `twoSideStartNextSocket` / `startNextSocket`: connect to `next` or else to
   * its backup (moving the neighbour port), send the request and read one reply.
   * Any failure yields -1; a null read also moves the neighbour port; an address is
   * cached when `cache` holds.
   */
  function Forward(s: Routing, next: int, stock: string, net: Net, cache: bool): (o: Outcome<Reply>)
    requires Named(net)
  {
    if !net.up(next) && !net.up(next + 1) then Outcome(s, NoAddress)
    else
      var port := if net.up(next) then next else next + 1;
      var s1 := if net.up(next) then s else UpdateNext(s, next + 1);
      match net.answer(port)
      case None => Outcome(UpdateNext(s1, port), NoAddress)
      case Some(r) =>
        if r.address != -1 && cache then
          Outcome(s1.(tables := Cache(s1.tables, r.exchange.value, r.address, stock)), r)
        else Outcome(s1, r)
  }

  /** A neighbour on the left has a lower port and one on the right a higher port, as in the configured ring. */
  predicate Ordered(s: Routing)
  {
    (s.left == -1 || s.left < s.port) && (s.right == -1 || s.port < s.right)
  }

  /**
   * The neighbour a relayed request or notification goes to: one of the two,
   * and, in an ordered ring, on the side away from the originator.
   */
  function Relay(s: Routing, originalPort: int): (next: int)
    ensures next == s.left || next == s.right
    ensures Ordered(s) && next != -1 ==> (next < s.port <==> s.port < originalPort)
  {
    if originalPort > s.port then s.left else s.right
  }

  /**
   * `getExternalExchangeAddress`: the reply sent back to the requester (None:
   * nothing is sent). A relayed request (`originalPort != -1`) goes on to the
   * left exactly when the originator lies to the right; the originator asks
   * left first and right only when left found nothing.
   */
  function Resolve(s: Routing, originalPort: int, stock: string, net: Net): (o: Outcome<Option<Reply>>)
    requires Named(net)
  {
    if originalPort != -1 then
      var next := Relay(s, originalPort);
      if next != -1 then
        var f := Forward(s, next, stock, net, originalPort == s.port);
        Outcome(f.after, Some(f.out))
      else Outcome(s, Some(NoAddress))
    else if s.left != -1 && s.right != -1 then
      var l := Forward(s, s.left, stock, net, true);
      if l.out.address != -1 then Outcome(l.after, Some(Reply(l.out.address, None)))
      else
        var r := Forward(l.after, l.after.right, stock, net, true);
        Outcome(r.after, Some(Reply(r.out.address, None)))
    else if s.left == -1 then
      var f := Forward(s, s.right, stock, net, true);
      Outcome(f.after, Some(f.out))
    else
      var f := Forward(s, s.left, stock, net, true);
      Outcome(f.after, Some(f.out))
  }

  // ---------------------------------------------------------------------------
  // Properties of forwarding and resolution

  /**
   * Forwarding changes the tables only by caching the answer, and only when
   * asked to and the answer is an address; the reply is -1 unless a
   * connection succeeded and the neighbour answered; the tables stay consistent.
   */
  lemma {:induction false} ForwardTables(s: Routing, next: int, stock: string, net: Net, cache: bool)
    requires Named(net)
    ensures var o := Forward(s, next, stock, net, cache);
      o.after.port == s.port
      && (!cache || o.out.address == -1 ==> o.after.tables == s.tables)
      && (cache && o.out.address != -1 ==>
            o.after.tables == Cache(s.tables, o.out.exchange.value, o.out.address, stock))
      && (Consistent(s.tables) ==> Consistent(o.after.tables))
      && (!net.up(next) && !net.up(next + 1) ==> o == Outcome(s, NoAddress))
  {
    var o := Forward(s, next, stock, net, cache);
    if net.up(next) || net.up(next + 1) {
      var port := if net.up(next) then next else next + 1;
      var s1 := if net.up(next) then s else UpdateNext(s, next + 1);
      assert s1.tables == s.tables && s1.port == s.port;
      match net.answer(port)
      case None =>
      case Some(r) =>
        if r.address != -1 && cache {
          CacheEffect(s.tables, r.exchange.value, r.address, stock);
        }
    }
  }

  /** Forwarding depends on the network only at `next` and its backup. */
  lemma ForwardLocal(s: Routing, next: int, stock: string, net: Net, net': Net, cache: bool)
    requires Named(net) && Named(net')
    requires net.up(next) == net'.up(next) && net.up(next + 1) == net'.up(next + 1)
    requires net.answer(next) == net'.answer(next) && net.answer(next + 1) == net'.answer(next + 1)
    ensures Forward(s, next, stock, net, cache) == Forward(s, next, stock, net', cache)
  {
  }

  /**
   * A relayed request goes left exactly when the originator is to the right;
   * at the end of the ring the answer is -1 and nothing changes; only the
   * originator caches.
   */
  lemma RelayDirection(s: Routing, originalPort: int, stock: string, net: Net)
    requires Named(net) && originalPort != -1
    ensures var o := Resolve(s, originalPort, stock, net);
      var next := Relay(s, originalPort);
      (next != -1 ==> o.out == Some(Forward(s, next, stock, net, originalPort == s.port).out))
      && (next == -1 ==> o == Outcome(s, Some(NoAddress)))
      && (originalPort != s.port ==> o.after.tables == s.tables)
  {
    var next := Relay(s, originalPort);
    if next != -1 {
      ForwardTables(s, next, stock, net, originalPort == s.port);
    }
  }

  /**
   * The originator with two neighbours: the answer is the left's address when
   * it is not -1 and the right's otherwise; when the left found an address the
   * right side of the network plays no part.
   */
  lemma OriginatorLeftFirst(s: Routing, stock: string, net: Net, net': Net)
    requires Named(net) && Named(net')
    requires s.left != -1 && s.right != -1
    requires net.up(s.left) == net'.up(s.left) && net.up(s.left + 1) == net'.up(s.left + 1)
    requires net.answer(s.left) == net'.answer(s.left) && net.answer(s.left + 1) == net'.answer(s.left + 1)
    ensures var o := Resolve(s, -1, stock, net);
      var l := Forward(s, s.left, stock, net, true);
      o.out.Some? && o.out.value.exchange.None?
      && (l.out.address != -1 ==> o.out.value.address == l.out.address && o == Resolve(s, -1, stock, net'))
      && (l.out.address == -1 ==> o.out.value.address == Forward(l.after, l.after.right, stock, net, true).out.address)
  {
    ForwardLocal(s, s.left, stock, net, net', true);
  }

  /** The originator with one neighbour relays that neighbour's reply unchanged. */
  lemma OriginatorOneNeighbour(s: Routing, stock: string, net: Net)
    requires Named(net)
    requires s.left == -1 || s.right == -1
    ensures var next := if s.left == -1 then s.right else s.left;
      Resolve(s, -1, stock, net) == var f := Forward(s, next, stock, net, true); Outcome(f.after, Some(f.out))
  {
  }

  /** Resolution keeps the tables consistent and always sends a reply. */
  lemma {:induction false} ResolveConsistent(s: Routing, originalPort: int, stock: string, net: Net)
    requires Named(net) && Consistent(s.tables)
    ensures Consistent(Resolve(s, originalPort, stock, net).after.tables)
    ensures Resolve(s, originalPort, stock, net).out.Some?
    ensures Resolve(s, originalPort, stock, net).after.port == s.port
  {
    if originalPort != -1 {
      var next := Relay(s, originalPort);
      if next != -1 {
        ForwardTables(s, next, stock, net, originalPort == s.port);
      }
    } else if s.left != -1 && s.right != -1 {
      ForwardTables(s, s.left, stock, net, true);
      var l := Forward(s, s.left, stock, net, true);
      ForwardTables(l.after, l.after.right, stock, net, true);
    } else if s.left == -1 {
      ForwardTables(s, s.right, stock, net, true);
    } else {
      ForwardTables(s, s.left, stock, net, true);
    }
  }

  // ---------------------------------------------------------------------------
  // Notifications about an exchange that is down

  /** A notification delivered to the server listening on `to`. */
  datatype Notice = Notice(to: int, exchangeName: string, exchangeAddress: int, originalPort: int)

  /** `notifyNextServer`: deliver to `next`, or else to its backup (moving the neighbour port), or to nobody. */
  function NotifyNext(s: Routing, next: int, name: string, address: int, originalPort: int, net: Net): (o: Outcome<seq<Notice>>)
  {
    if net.up(next) then Outcome(s, [Notice(next, name, address, originalPort)])
    else if net.up(next + 1) then Outcome(UpdateNext(s, next + 1), [Notice(next + 1, name, address, originalPort)])
    else Outcome(s, [])
  }

  /**
   * `notifyDownExchange`: a relayed notification goes on away from its
   * originator and stops at the end of the ring; the originator notifies both
   * neighbours, left first.
   */
  function NotifyDown(s: Routing, address: int, name: string, originalPort: int, net: Net): (o: Outcome<seq<Notice>>)
  {
    if originalPort != -1 then
      var next := Relay(s, originalPort);
      if next != -1 then NotifyNext(s, next, name, address, originalPort, net)
      else Outcome(s, [])
    else if s.left != -1 && s.right != -1 then
      var l := NotifyNext(s, s.left, name, address, s.port, net);
      var r := NotifyNext(l.after, l.after.right, name, address, s.port, net);
      Outcome(r.after, l.out + r.out)
    else if s.left == -1 then NotifyNext(s, s.right, name, address, s.port, net)
    else NotifyNext(s, s.left, name, address, s.port, net)
  }

  /**
   * A notification reaches at most one server per neighbour asked, always the
   * neighbour or its backup, carrying the down exchange and the originator's
   * port; it leaves the tables alone.
   */
  lemma NotifyNextDelivery(s: Routing, next: int, name: string, address: int, originalPort: int, net: Net)
    ensures var o := NotifyNext(s, next, name, address, originalPort, net);
      |o.out| <= 1 && o.after.tables == s.tables && o.after.port == s.port
      && (|o.out| == 1 <==> net.up(next) || net.up(next + 1))
      && (|o.out| == 1 ==> o.out[0] == Notice(if net.up(next) then next else next + 1, name, address, originalPort))
  {
  }

  /**
   * A relayed notification goes left exactly when the originator is to the
   * right, and stops at the end of the ring; the originator tells both
   * neighbours when it has two, left first, as coming from itself.
   */
  lemma {:induction false} NotifyDirection(s: Routing, address: int, name: string, originalPort: int, net: Net)
    ensures var o := NotifyDown(s, address, name, originalPort, net);
      o.after.tables == s.tables
      && (originalPort != -1 ==>
            var next := Relay(s, originalPort);
            (next == -1 ==> o.out == [])
            && (next != -1 ==> o.out == NotifyNext(s, next, name, address, originalPort, net).out))
      && (originalPort == -1 && s.left != -1 && s.right != -1 && net.up(s.left) && net.up(s.right) ==>
            o.out == [Notice(s.left, name, address, s.port), Notice(s.right, name, address, s.port)])
      && (forall i :: 0 <= i < |o.out| ==> o.out[i].exchangeName == name && o.out[i].exchangeAddress == address)
  {
    var o := NotifyDown(s, address, name, originalPort, net);
    if originalPort != -1 {
      var next := Relay(s, originalPort);
      if next != -1 {
        NotifyNextDelivery(s, next, name, address, originalPort, net);
      }
    } else if s.left != -1 && s.right != -1 {
      NotifyNextDelivery(s, s.left, name, address, s.port, net);
      var l := NotifyNext(s, s.left, name, address, s.port, net);
      NotifyNextDelivery(l.after, l.after.right, name, address, s.port, net);
    } else if s.left == -1 {
      NotifyNextDelivery(s, s.right, name, address, s.port, net);
    } else {
      NotifyNextDelivery(s, s.left, name, address, s.port, net);
    }
  }

  // ---------------------------------------------------------------------------
  // The server

  class Server {
    const serverName: string
    /** The port this process listens on (a backup's is one above its primary's). */
    const listenPort: int
    /** The primary's port, which names this server's position on the ring. */
    const portNumber: int
    /** Handed to every exchange that registers. */
    const startTime: int

    var leftPort: int
    var rightPort: int
    var exchangeAddressTable: map<string, int>
    var exchangeStockTable: map<string, set<string>>
    var internalExchangeSet: set<string>

    function RoutingTables(): Tables
      reads this
    {
      Tables(exchangeAddressTable, exchangeStockTable, internalExchangeSet)
    }

    function View(): Routing
      reads this
    {
      Routing(portNumber, leftPort, rightPort, RoutingTables())
    }

    predicate Valid()
      reads this
    {
      Consistent(RoutingTables())
    }

    /** An unknown server name makes the lookups return null, which throws. */
    constructor (name: string, start: int)
      requires PositionOf(name).Some?
      ensures serverName == name && startTime == start
      ensures Some(listenPort) == ListenPort(name)
      ensures View() == var pos := PositionOf(name).value; Routing(pos.port, pos.left, pos.right, NoTables)
      ensures Valid()
    {
      serverName := name;
      startTime := start;
      listenPort := ListenPort(name).value;
      var pos := PositionOf(name).value;
      portNumber := pos.port;
      leftPort := pos.left;
      rightPort := pos.right;
      exchangeAddressTable := map[];
      exchangeStockTable := map[];
      internalExchangeSet := {};
    }

    method RegisterExchange(name: string, port: int, stockSet: set<string>)
      requires Valid()
      modifies this
      ensures View() == old(View()).(tables := Register(old(RoutingTables()), name, port, stockSet))
      ensures Valid()
    {
      exchangeAddressTable := exchangeAddressTable[name := port];
      exchangeStockTable := exchangeStockTable[name := stockSet];
      internalExchangeSet := internalExchangeSet + {name};
      RegisterEffect(old(RoutingTables()), name, port, stockSet);
    }

    /** The registration branch: register, then answer with the start time. */
    method HandleRegistration(name: string, port: int, stockList: seq<string>) returns (reply: int)
      requires Valid()
      modifies this
      ensures reply == startTime
      ensures View() == old(View()).(tables := Register(old(RoutingTables()), name, port, set s | s in stockList))
      ensures Valid()
    {
      RegisterExchange(name, port, set s | s in stockList);
      reply := startTime;
    }

    /**
     * `getExchangeWithStock`: scans the stock table in some order and returns
     * the first exchange holding `stock`, or None (null) when none does.
     */
    method GetExchangeWithStock(stock: string) returns (r: Option<string>)
      ensures r.Some? ==> r.value in Holders(RoutingTables(), stock)
      ensures r.None? <==> Holders(RoutingTables(), stock) == {}
    {
      var rest := exchangeStockTable.Keys;
      while rest != {}
        invariant rest <= exchangeStockTable.Keys
        invariant forall n :: n in exchangeStockTable && n !in rest ==> stock !in exchangeStockTable[n]
        decreases rest
      {
        var name :| name in rest;
        if stock in exchangeStockTable[name] {
          return Some(name);
        }
        rest := rest - {name};
      }
      return None;
    }

    /** `getInternalExchangeAddress`: unboxing a missing entry throws. */
    function GetInternalExchangeAddress(name: string): (a: int)
      reads this
      requires name in exchangeAddressTable
      ensures a == exchangeAddressTable[name]
    {
      exchangeAddressTable[name]
    }

    method RemoveDownExchangeCache(name: string, downAddress: int)
      requires Valid()
      modifies this
      ensures View() == old(View()).(tables := Evict(old(RoutingTables()), name, downAddress))
      ensures Valid()
    {
      EvictFrame(RoutingTables(), name, downAddress);
      if name in internalExchangeSet {
        if exchangeAddressTable[name] == downAddress {
          exchangeAddressTable := exchangeAddressTable - {name};
          exchangeStockTable := exchangeStockTable - {name};
          internalExchangeSet := internalExchangeSet - {name};
        }
      } else {
        if name in exchangeAddressTable {
          exchangeAddressTable := exchangeAddressTable - {name};
          exchangeStockTable := exchangeStockTable - {name};
        }
      }
    }

    method UpdateNextPort(next: int)
      modifies this`leftPort, this`rightPort
      ensures View() == UpdateNext(old(View()), next)
    {
      if next > portNumber {
        if next % 1111 == 0 {
          rightPort := rightPort + 1;
        } else {
          rightPort := rightPort - 1;
        }
      } else {
        if next % 1111 == 0 {
          leftPort := leftPort + 1;
        } else {
          leftPort := leftPort - 1;
        }
      }
    }

    method CacheAnswer(name: string, address: int, stock: string)
      modifies this`exchangeAddressTable, this`exchangeStockTable
      ensures View() == old(View()).(tables := Cache(old(RoutingTables()), name, address, stock))
    {
      exchangeAddressTable := exchangeAddressTable[name := address];
      if name in exchangeStockTable {
        exchangeStockTable := exchangeStockTable[name := exchangeStockTable[name] + {stock}];
      } else {
        exchangeStockTable := exchangeStockTable[name := {}];
        exchangeStockTable := exchangeStockTable[name := exchangeStockTable[name] + {stock}];
      }
    }

    /** Connects to `next` or its backup; returns the port reached, or None. */
    method Connect(next: int, net: Net) returns (port: Option<int>)
      modifies this`leftPort, this`rightPort
      ensures port == (if net.up(next) then Some(next) else if net.up(next + 1) then Some(next + 1) else None)
      ensures View() == if !net.up(next) && net.up(next + 1) then UpdateNext(old(View()), next + 1) else old(View())
    {
      if net.up(next) {
        return Some(next);
      }
      if net.up(next + 1) {
        UpdateNextPort(next + 1);
        return Some(next + 1);
      }
      return None;
    }

    /** Asks the neighbour at `next` from the originator; the answer's address, or -1. */
    method TwoSideStartNextSocket(next: int, stock: string, net: Net) returns (address: int)
      requires Named(net)
      modifies this
      ensures var o := Forward(old(View()), next, stock, net, true);
        View() == o.after && address == o.out.address
    {
      var reply := Ask(next, stock, net, true);
      address := reply.address;
    }

    /** Asks the neighbour at `next` and relays its reply; caches only at the originator. */
    method StartNextSocket(originalPort: int, next: int, stock: string, net: Net) returns (reply: Reply)
      requires Named(net)
      modifies this
      ensures var o := Forward(old(View()), next, stock, net, originalPort == portNumber);
        View() == o.after && reply == o.out
    {
      reply := Ask(next, stock, net, originalPort == portNumber);
    }

    /** The exchange of one request with a neighbour shared by the two methods above. */
    method Ask(next: int, stock: string, net: Net, cache: bool) returns (reply: Reply)
      requires Named(net)
      modifies this
      ensures var o := Forward(old(View()), next, stock, net, cache);
        View() == o.after && reply == o.out
    {
      var port := Connect(next, net);
      if port.None? {
        return NoAddress;
      }
      match net.answer(port.value)
      case None =>
        UpdateNextPort(port.value);
        reply := NoAddress;
      case Some(r) =>
        if r.address != -1 && cache {
          CacheAnswer(r.exchange.value, r.address, stock);
        }
        reply := r;
    }

    method GetExternalExchangeAddress(originalPort: int, stock: string, net: Net) returns (reply: Option<Reply>)
      requires Named(net)
      modifies this
      ensures var o := Resolve(old(View()), originalPort, stock, net);
        View() == o.after && reply == o.out
    {
      if originalPort != -1 {
        if originalPort > portNumber {
          if leftPort != -1 {
            var r := StartNextSocket(originalPort, leftPort, stock, net);
            reply := Some(r);
          } else {
            reply := Some(NoAddress);
          }
        } else {
          if rightPort != -1 {
            var r := StartNextSocket(originalPort, rightPort, stock, net);
            reply := Some(r);
          } else {
            reply := Some(NoAddress);
          }
        }
      } else if leftPort != -1 && rightPort != -1 {
        var leftResult := TwoSideStartNextSocket(leftPort, stock, net);
        if leftResult != -1 {
          reply := Some(Reply(leftResult, None));
        } else {
          var rightResult := TwoSideStartNextSocket(rightPort, stock, net);
          reply := Some(Reply(rightResult, None));
        }
      } else if leftPort == -1 {
        var r := StartNextSocket(portNumber, rightPort, stock, net);
        reply := Some(r);
      } else {
        var r := StartNextSocket(portNumber, leftPort, stock, net);
        reply := Some(r);
      }
    }

    /**
     * The request branch: answered from the tables when some exchange there
     * holds the stock, otherwise resolved through the ring. Only a request
     * whose `src` is "server" carries an originator's port.
     */
    method HandleRequest(stock: string, src: string, originalPort: int, net: Net) returns (reply: Option<Reply>)
      requires Valid() && Named(net)
      modifies this
      ensures Valid()
      ensures Holders(old(RoutingTables()), stock) != {} ==>
        View() == old(View()) && reply.Some? && reply.value.exchange.Some?
        && reply.value.exchange.value in Holders(old(RoutingTables()), stock)
        && reply.value.address == old(exchangeAddressTable)[reply.value.exchange.value]
      ensures Holders(old(RoutingTables()), stock) == {} ==>
        var o := Resolve(old(View()), if src == "server" then originalPort else -1, stock, net);
        View() == o.after && reply == o.out
    {
      var port := if src == "server" then originalPort else -1;
      var exchange := GetExchangeWithStock(stock);
      if exchange.Some? {
        var address := GetInternalExchangeAddress(exchange.value);
        reply := Some(Reply(address, exchange));
      } else {
        ResolveConsistent(View(), port, stock, net);
        reply := GetExternalExchangeAddress(port, stock, net);
      }
    }

    method NotifyNextServer(next: int, name: string, address: int, originalPort: int, net: Net) returns (sent: seq<Notice>)
      modifies this`leftPort, this`rightPort
      ensures var o := NotifyNext(old(View()), next, name, address, originalPort, net);
        View() == o.after && sent == o.out
    {
      if net.up(next) {
        sent := [Notice(next, name, address, originalPort)];
      } else if net.up(next + 1) {
        sent := [Notice(next + 1, name, address, originalPort)];
        UpdateNextPort(next + 1);
      } else {
        sent := [];
      }
    }

    method NotifyDownExchange(address: int, name: string, originalPort: int, net: Net) returns (sent: seq<Notice>)
      modifies this`leftPort, this`rightPort
      ensures var o := NotifyDown(old(View()), address, name, originalPort, net);
        View() == o.after && sent == o.out
    {
      if originalPort != -1 {
        if originalPort > portNumber {
          if leftPort != -1 {
            sent := NotifyNextServer(leftPort, name, address, originalPort, net);
          } else {
            sent := [];
          }
        } else {
          if rightPort != -1 {
            sent := NotifyNextServer(rightPort, name, address, originalPort, net);
          } else {
            sent := [];
          }
        }
      } else if leftPort != -1 && rightPort != -1 {
        var toLeft := NotifyNextServer(leftPort, name, address, portNumber, net);
        var toRight := NotifyNextServer(rightPort, name, address, portNumber, net);
        sent := toLeft + toRight;
      } else if leftPort == -1 {
        sent := NotifyNextServer(rightPort, name, address, portNumber, net);
      } else {
        sent := NotifyNextServer(leftPort, name, address, portNumber, net);
      }
    }

    /**
     * The notify branch. From a server: evict the named exchange and pass the
     * notification on. From an exchange: the down exchange is the one holding
     * `stock` here ("" when none does), evicted if found, and this server
     * originates the notification.
     */
    method HandleNotify(src: string, downAddress: int, exchangeName: string, stock: string, originalPort: int, net: Net)
      returns (downName: string, sent: seq<Notice>)
      requires Valid()
      modifies this
      ensures Valid()
      ensures src == "server" ==>
        downName == exchangeName
        && var o := NotifyDown(old(View()).(tables := Evict(old(RoutingTables()), exchangeName, downAddress)),
                               downAddress, exchangeName, originalPort, net);
           View() == o.after && sent == o.out
      ensures src != "server" && Holders(old(RoutingTables()), stock) == {} ==>
        downName == ""
        && var o := NotifyDown(old(View()), downAddress, "", -1, net);
           View() == o.after && sent == o.out
      ensures src != "server" && Holders(old(RoutingTables()), stock) != {} ==>
        downName in Holders(old(RoutingTables()), stock)
        && var o := NotifyDown(old(View()).(tables := Evict(old(RoutingTables()), downName, downAddress)),
                               downAddress, downName, -1, net);
           View() == o.after && sent == o.out
    {
      var port := -1;
      downName := "";
      if src == "server" {
        port := originalPort;
        downName := exchangeName;
        RemoveDownExchangeCache(downName, downAddress);
      } else {
        var holder := GetExchangeWithStock(stock);
        if holder.Some? {
          downName := holder.value;
          RemoveDownExchangeCache(downName, downAddress);
        }
      }
      NotifyDirection(View(), downAddress, downName, port, net);
      sent := NotifyDownExchange(downAddress, downName, port, net);
    }
  }
}
