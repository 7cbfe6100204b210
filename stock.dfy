/**
 * A stock listed at one exchange: its per-tick price and incoming-quantity
 * tables (filled once when the exchange loads its market data) and the
 * quantity currently available, which orders and tick replenishment change
 * in place.
 */
module Stocks {
  import opened JavaLang

  class Stock {
    const name: string
    const exchangeName: string

    /** tick -> local price */
    var priceTable: map<int, real>
    /** tick -> quantity arriving at that tick */
    var qtyTable: map<int, Int32>
    /** quantity available now; a Java `int` */
    var currentQty: Int32

    constructor (stockName: string, exchange: string)
      ensures name == stockName && exchangeName == exchange
      ensures priceTable == map[] && qtyTable == map[]
      ensures currentQty == 0
    {
      name := stockName;
      exchangeName := exchange;
      priceTable := map[];
      qtyTable := map[];
      currentQty := 0;
    }

    /** `toString`: the decimal text of the available quantity, as a log snapshot records it. */
    function ToString(): (s: string)
      reads this
      ensures ParseInt(s) == Some(currentQty as int)
    {
      DecimalRoundTrip(currentQty);
      Decimal(currentQty)
    }

    method SetPrice(time: int, price: real)
      modifies this`priceTable
      ensures priceTable == old(priceTable)[time := price]
      ensures GetPrice(time) == price
      ensures forall t :: t != time && t in old(priceTable) ==> t in priceTable && GetPrice(t) == old(priceTable)[t]
    {
      priceTable := priceTable[time := price];
    }

    method SetQuantity(time: int, quantity: Int32)
      modifies this`qtyTable
      ensures qtyTable == old(qtyTable)[time := quantity]
      ensures GetQty(time) == quantity
      ensures forall t :: t != time && t in old(qtyTable) ==> t in qtyTable && GetQty(t) == old(qtyTable)[t]
    {
      qtyTable := qtyTable[time := quantity];
    }

    /** `getPrice`: unboxing a missing entry throws, so the tick must be in the table. */
    function GetPrice(time: int): (p: real)
      reads this
      requires time in priceTable
      ensures p == priceTable[time]
    {
      priceTable[time]
    }

    /** `getQty`: unboxing a missing entry throws, so the tick must be in the table. */
    function GetQty(time: int): (q: Int32)
      reads this
      requires time in qtyTable
      ensures q == qtyTable[time]
    {
      qtyTable[time]
    }

    /** `addCurrentQty`: an unguarded `int` addition. */
    method AddCurrentQty(qty: Int32)
      modifies this`currentQty
      ensures currentQty == Wrap(old(currentQty) + qty)
      ensures 0 <= qty && old(currentQty) + qty <= MaxInt ==> currentQty == old(currentQty) + qty >= old(currentQty)
    {
      currentQty := Wrap(currentQty + qty);
    }

    /** `deCurrentQty`: the buy test; refuses when fewer than `qty` are available. */
    method DeCurrentQty(qty: Int32) returns (ok: bool)
      modifies this`currentQty
      ensures ok <==> old(currentQty) >= qty
      ensures ok ==> currentQty == Wrap(old(currentQty) - qty)
      ensures !ok ==> currentQty == old(currentQty)
      ensures 0 <= qty <= old(currentQty) ==> ok && currentQty == old(currentQty) - qty
      ensures old(currentQty) >= 0 && old(currentQty) - qty <= MaxInt ==> currentQty >= 0
    {
      if currentQty < qty {
        return false;
      } else {
        currentQty := Wrap(currentQty - qty);
        return true;
      }
    }
  }

  /**
   * An accepted buy of a non-negative quantity leaves a non-negative quantity
   * holding exactly `qty` fewer, and no quantity at all can make it negative
   * unless the subtraction overflows `int`.
   */
  lemma BuyKeepsNonNegative(before: Int32, qty: Int32)
    requires 0 <= before && qty <= before
    requires before - qty <= MaxInt
    ensures Wrap(before - qty) == before - qty >= 0
  {
  }

  /** A sell (or replenishment) of `qty >= 0` that does not overflow adds exactly `qty`. */
  lemma AddKeepsNonNegative(before: Int32, qty: Int32)
    requires 0 <= before && 0 <= qty && before + qty <= MaxInt
    ensures Wrap(before + qty) == before + qty >= before
  {
  }

  /**
   * Java's `int` wraps: the subtraction in `deCurrentQty` can overflow for a
   * very negative order quantity, and the unguarded addition for a large one,
   * so the non-negativity of the available quantity rests on order quantities
   * being non-negative and totals staying below 2^31.
   */
  lemma OverflowBreaksNonNegativity()
    ensures 0 >= MinInt && Wrap(0 - MinInt) < 0
    ensures Wrap(MaxInt + 1) < 0
  {
  }
}
