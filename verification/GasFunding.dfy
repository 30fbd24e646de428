/** How much gas a new session's wallet is sent, and that it lasts until the session is sold out. */
module GasFunding {
  import U256

  const GAS_PER_SWAP: nat := 300_000
  const TRANSFER_GAS: nat := 21_000
  const MAX_SWAPS: nat := 5_000

  type GasPrice = n: nat | n < 0x1_0000000000000000_0000000000000000

  type U32 = n: nat | n < 0x1_0000_0000

  /** The least amount one swap is taken to sell. */
  function MinSell(total: U256.Word, remaining: U256.Word, povBps: U256.Word): U256.Word {
    var chunk := U256.WrappingMul(total, povBps) / 100_000;
    if povBps > 0 && chunk != 0 then chunk else remaining / 1_000
  }

  /**
    A tenth of what a buy as large as the whole session would make it sell, if that can be told, and a
    thousandth of what remains otherwise; the product of total and rate wraps like any other.
   */
  lemma MinSellIs(total: U256.Word, remaining: U256.Word, povBps: U256.Word)
    ensures
      var least := MinSell(total, remaining, povBps);
      var product := total * povBps % U256.TWO_256;
      && (product >= 100_000 ==> least * 100_000 <= product < (least + 1) * 100_000)
      && (product < 100_000 ==> least * 1_000 <= remaining < (least + 1) * 1_000)
      && (total * povBps < U256.TWO_256 ==> product == total * povBps)
  {
    var product := total * povBps % U256.TWO_256;
    if povBps == 0 {
      assert product == 0;
    }
    Floor(product, 100_000);
    Floor(remaining, 1_000);
    if product < 100_000 {
      Small(product, 100_000);
    }
  }

  /** The swaps paid for: a ceiling division in wrapping arithmetic, capped. */
  function Swaps(remaining: U256.Word, minSell: U256.Word): nat {
    var swaps := if minSell == 0 then 1_000 else (remaining + minSell - 1) % U256.TWO_256 / minSell;
    if swaps < MAX_SWAPS then swaps else MAX_SWAPS
  }

  function Cost(price: GasPrice): nat {
    GAS_PER_SWAP * price
  }

  function CostOf(price: GasPrice, swaps: nat): nat {
    Cost(price) * swaps
  }

  /** With the configured padding, rounded down. */
  function Padded(cost: nat, paddingPercent: U32): nat {
    cost * (100 + paddingPercent) / 100
  }

  function Needed(price: GasPrice, swaps: nat, paddingPercent: U32): nat {
    Padded(CostOf(price, swaps), paddingPercent)
  }

  /** The products of price, swaps and padding stay far below 256 bits. */
  lemma NeededFits(price: GasPrice, swaps: nat, paddingPercent: U32)
    requires swaps <= MAX_SWAPS
    ensures CostOf(price, swaps) * (100 + paddingPercent) < U256.TWO_256
  {
    var (a, b) := (Cost(price), 0x10_0000 * 0x1_0000000000000000_0000000000000000);
    assert a <= b;
    Times(a, b, swaps, 0x2000);
    Times(a * swaps, b * 0x2000, 100 + paddingPercent, 0x2_0000_0000);
  }

  lemma Times(a: nat, b: nat, c: nat, d: nat)
    requires a <= b && c <= d
    ensures a * c <= b * d
  {
    assert a * c <= b * c <= b * d;
  }

  // ----- Enough swaps -----

  /** `swaps` sells of at least `minSell` sell everything, and one less need not. */
  ghost predicate SellsOut(remaining: nat, minSell: nat, swaps: nat) {
    swaps * minSell >= remaining && (swaps == 0 || (swaps - 1) * minSell < remaining)
  }

  lemma CeilingSellsOut(remaining: nat, minSell: nat)
    requires minSell > 0
    ensures SellsOut(remaining, minSell, (remaining + minSell - 1) / minSell)
  {
    Floor(remaining + minSell - 1, minSell);
  }

  lemma Floor(a: nat, d: nat)
    requires d > 0
    ensures var q := a / d; q * d <= a < q * d + d && (q - 1) * d == q * d - d
  {
  }

  lemma CeilingOrCap(remaining: U256.Word, minSell: U256.Word)
    requires remaining > 0 && minSell > 0
    ensures
      var swaps := Swaps(remaining, minSell);
      && (remaining + minSell <= U256.TWO_256 ==>
          SellsOut(remaining, minSell, swaps) || (swaps == MAX_SWAPS && MAX_SWAPS * minSell < remaining))
      && (remaining + minSell > U256.TWO_256 ==> swaps == 0)
  {
    var sum := remaining + minSell - 1;
    if sum < U256.TWO_256 {
      CeilingSellsOut(remaining, minSell);
      var swaps := sum / minSell;
      if swaps > MAX_SWAPS {
        Times(MAX_SWAPS, swaps - 1, minSell, minSell);
      }
    } else {
      assert sum % U256.TWO_256 == sum - U256.TWO_256 < minSell;
      Small(sum - U256.TWO_256, minSell);
    }
  }

  /** The swaps paid for sell what remains, a unit at least each, or are as many as are ever paid for. */
  ghost predicate PaidOut(remaining: nat, minSell: nat, swaps: nat) {
    swaps == 5_000 || swaps * (if minSell == 0 then 1 else minSell) >= remaining
  }

  /**
    For a session with something left to sell, enough swaps are paid for exactly while what remains and
    the least sell computed for it add up within 256 bits, and then no more than needed where a least
    sell can be told; beyond that none is paid for.
   */
  lemma {:induction false} SwapsSellOutIff(total: U256.Word, remaining: U256.Word, povBps: U256.Word)
    requires 0 < remaining <= total
    ensures
      var minSell := MinSell(total, remaining, povBps);
      var swaps := Swaps(remaining, minSell);
      && (PaidOut(remaining, minSell, swaps) <==> remaining + minSell <= U256.TWO_256)
      && (PaidOut(remaining, minSell, swaps) && minSell > 0 ==>
            SellsOut(remaining, minSell, swaps) || (swaps == 5_000 && 5_000 * minSell < remaining))
      && (minSell == 0 ==> swaps == 1_000)
      && (!PaidOut(remaining, minSell, swaps) ==> swaps == 0)
  {
    var minSell := MinSell(total, remaining, povBps);
    if minSell == 0 {
      Floor(remaining, 1_000);
    } else {
      hide MinSell, Swaps;
      CeilingOrCap(remaining, minSell);
      assert 0 * minSell == 0;
    }
  }

  /** That happens: a session over the whole range is paid no swap at a rate of one ten-thousandth. */
  lemma NothingPaid()
    ensures
      var minSell := MinSell(U256.MAX, U256.MAX, 1);
      U256.MAX + minSell > U256.TWO_256 && Swaps(U256.MAX, minSell) == 0
  {
    assert U256.WrappingMul(U256.MAX, 1) == U256.MAX;
    assert U256.MAX / 100_000 > 1;
    CeilingOrCap(U256.MAX, MinSell(U256.MAX, U256.MAX, 1));
  }

  lemma Small(a: nat, d: nat)
    requires a < d
    ensures a / d == 0
  {
  }

  // ----- The transfer -----

  datatype Outcome = SoldOut | AlreadyFunded | GasWalletShort | TransferRefused | Funded(deficit: nat)

  class Wallets {
    var session: nat
    var gas: nat

    constructor (session: nat, gas: nat)
      ensures this.session == session && this.gas == gas
    {
      this.session, this.gas := session, gas;
    }

    /**
      `fund_session_wallet_gas`, to the block that holds the transfer. The service compares the gas
      wallet with the deficit alone; the chain also takes the transfer's own fee.
     */
    method Fund(total: int, sold: int, povBps: U256.Word, price: GasPrice, paddingPercent: U32)
      returns (outcome: Outcome)
      modifies this
      ensures outcome == SoldOut <==> U256.FromNumeric(total) <= U256.FromNumeric(sold)
      ensures
        var remaining := U256.SaturatingSub(U256.FromNumeric(total), U256.FromNumeric(sold));
        var swaps := Swaps(remaining, MinSell(U256.FromNumeric(total), remaining, povBps));
        var deficit := Needed(price, swaps, paddingPercent) - old(session);
        && (outcome == AlreadyFunded || outcome.Funded? ==>
              session >= CostOf(price, swaps) && session == old(session) + if deficit > 0 then deficit else 0)
        && (outcome == GasWalletShort <==> remaining != 0 && deficit > 0 && old(gas) < deficit)
        && (outcome == TransferRefused <==>
              remaining != 0 && deficit > 0 && deficit <= old(gas) < deficit + TRANSFER_GAS * price)
      ensures outcome.Funded? ==> session > old(session)
      ensures outcome.Funded? ==> session + gas + 21_000 * price == old(session) + old(gas)
      ensures !outcome.Funded? ==> session == old(session) && gas == old(gas)
    {
      var totalAmount, amountSold := U256.FromNumeric(total), U256.FromNumeric(sold);
      var remaining := U256.SaturatingSub(totalAmount, amountSold);
      if remaining == 0 {
        return SoldOut;
      }
      var swaps := Swaps(remaining, MinSell(totalAmount, remaining, povBps));
      var needed := Needed(price, swaps, paddingPercent);
      NeededFits(price, swaps, paddingPercent);
      NeededCovers(price, swaps, paddingPercent);
      if needed <= session {
        return AlreadyFunded;
      }
      var deficit := needed - session;
      if gas < deficit {
        return GasWalletShort;
      }
      if gas < deficit + TRANSFER_GAS * price {
        return TransferRefused;
      }
      session, gas := session + deficit, gas - deficit - TRANSFER_GAS * price;
      outcome := Funded(deficit);
    }
  }

  /** 300000 units of gas for each swap, and the padding on top, rounded down. */
  lemma NeededIs(price: GasPrice, swaps: nat, paddingPercent: U32)
    ensures
      var gas := 300_000 * price * swaps;
      Needed(price, swaps, paddingPercent) * 100 <= gas * (100 + paddingPercent)
        < (Needed(price, swaps, paddingPercent) + 1) * 100
  {
    Floor(CostOf(price, swaps) * (100 + paddingPercent), 100);
  }

  lemma NeededCovers(price: GasPrice, swaps: nat, paddingPercent: U32)
    ensures CostOf(price, swaps) <= Needed(price, swaps, paddingPercent)
  {
    var bare := CostOf(price, swaps);
    Times(bare, bare, 100, 100 + paddingPercent);
    Floor(bare * (100 + paddingPercent), 100);
  }
}
