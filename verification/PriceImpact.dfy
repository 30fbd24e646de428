/** The price-impact estimate from pool reserves, and what passing its cap means for a sell. */
module PriceImpact {
  import opened Wrappers
  import TradeProtocol
  import U256

  const U32_LIMIT: nat := 0x1_0000_0000

  /** `calculate_impact_from_reserves`. */
  function ImpactBps(reserveX: U256.Word, reserveY: U256.Word, sell: U256.Word): nat {
    if reserveX == 0 || reserveY == 0 || sell == 0 then 0
    else
      var denominator := U256.SaturatingAdd(reserveX, sell);
      if denominator == 0 then 0
      else
        var impact := U256.SaturatingMul(sell, 10_000) / denominator;
        if impact < U32_LIMIT then impact else 10_000
  }

  /** The engine trades when the impact is within the session's and the global cap. */
  predicate PassesCap(impact: nat, sessionMaxBps: nat, globalMaxBps: nat) {
    impact <= if sessionMaxBps < globalMaxBps then sessionMaxBps else globalMaxBps
  }

  // ----- Floor division -----

  lemma DivBounds(a: nat, d: nat)
    requires d > 0
    ensures (a / d) * d <= a < (a / d + 1) * d
  {
  }

  lemma DivAtMostIff(a: nat, d: nat, m: nat)
    requires d > 0
    ensures a / d <= m <==> a < (m + 1) * d
  {
    DivBounds(a, d);
    var q := a / d;
    if q <= m {
      TimesLe(q + 1, m + 1, d);
    } else {
      TimesLe(m + 1, q, d);
    }
  }

  lemma TimesLe(a: nat, b: nat, d: nat)
    requires a <= b
    ensures a * d <= b * d
  {
  }

  predicate IsQuotient(q: nat, a: nat, d: nat) {
    q * d <= a < (q + 1) * d
  }

  predicate FractionLe(a: nat, d: nat, a': nat, d': nat) {
    a * d' <= a' * d
  }

  /** The floors of two fractions compare as the fractions do. */
  lemma QuotientsCompare(a: nat, d: nat, q: nat, a': nat, d': nat, q': nat)
    requires d > 0 && FractionLe(a, d, a', d') && IsQuotient(q, a, d) && IsQuotient(q', a', d')
    ensures q <= q'
  {
    TimesLe(q * d, a, d');
    TimesLt(a', (q' + 1) * d', d);
    Regroup(q, d, d');
    Regroup(q' + 1, d', d);
    CancelLt(q, q' + 1, d * d');
  }

  lemma Regroup(a: nat, b: nat, c: nat)
    ensures a * b * c == a * (b * c)
  {
  }

  lemma CancelLt(a: nat, b: nat, d: nat)
    requires a * d < b * d
    ensures a < b
  {
    if b <= a {
      TimesLe(b, a, d);
    }
  }

  lemma TimesLt(a: nat, b: nat, d: nat)
    requires a < b && d > 0
    ensures a * d < b * d
  {
  }

  // ----- The estimate -----

  /** Below 100% for every input, saturation included. */
  lemma ImpactBelowHundredPercent(reserveX: U256.Word, reserveY: U256.Word, sell: U256.Word)
    ensures ImpactBps(reserveX, reserveY, sell) <= 9_999
  {
    if reserveX != 0 && reserveY != 0 && sell != 0 {
      DivAtMostIff(U256.SaturatingMul(sell, 10_000), U256.SaturatingAdd(reserveX, sell), 9_999);
    }
  }

  /** The quotient itself: the clamp to 32 bits never takes effect. */
  lemma ImpactQuotient(reserveX: U256.Word, reserveY: U256.Word, sell: U256.Word)
    requires reserveX != 0 && reserveY != 0 && sell != 0
    ensures ImpactBps(reserveX, reserveY, sell) == U256.SaturatingMul(sell, 10_000) / U256.SaturatingAdd(reserveX, sell)
  {
    DivAtMostIff(U256.SaturatingMul(sell, 10_000), U256.SaturatingAdd(reserveX, sell), 9_999);
  }

  lemma ImpactIsQuotient(reserveX: U256.Word, reserveY: U256.Word, sell: U256.Word)
    requires reserveX != 0 && reserveY != 0 && sell != 0
    ensures IsQuotient(ImpactBps(reserveX, reserveY, sell), U256.SaturatingMul(sell, 10_000),
                       U256.SaturatingAdd(reserveX, sell))
  {
    ImpactQuotient(reserveX, reserveY, sell);
    DivBounds(U256.SaturatingMul(sell, 10_000), U256.SaturatingAdd(reserveX, sell));
  }

  lemma ImpactOfNothing(reserveX: U256.Word, reserveY: U256.Word, sell: U256.Word)
    requires reserveX == 0 || reserveY == 0 || sell == 0
    ensures ImpactBps(reserveX, reserveY, sell) == 0
  {
  }

  /**
    Without saturation it is the floor of 10000 * (1 - execution price / spot price), where `bought`
    is what a sell into reserves x and y yields when x * y is kept.
   */
  lemma {:induction false} ImpactIsPriceDrop(reserveX: U256.Word, reserveY: U256.Word, sell: U256.Word, bought: real)
    requires reserveX != 0 && reserveY != 0 && sell != 0
    requires sell * 10_000 <= U256.MAX && reserveX + sell <= U256.MAX
    requires (reserveX + sell) as real * (reserveY as real - bought) == reserveX as real * reserveY as real
    ensures
      var (spot, execution) := (reserveY as real / reserveX as real, bought / sell as real);
      (10_000.0 * (1.0 - execution / spot)).Floor == ImpactBps(reserveX, reserveY, sell)
  {
    var (x, y, s) := (reserveX as real, reserveY as real, sell as real);
    ImpactQuotient(reserveX, reserveY, sell);
    RelativeDrop(x, y, s, bought);
    assert (reserveX + sell) as real == x + s && (sell * 10_000) as real == 10_000.0 * s;
    var drop := 1.0 - (bought / s) / (y / x);
    assert (10_000.0 * drop) * (x + s) == 10_000.0 * (drop * (x + s));
    FloorOfFraction(sell * 10_000, reserveX + sell, 10_000.0 * drop);
  }

  lemma RelativeDrop(x: real, y: real, s: real, bought: real)
    requires x > 0.0 && y > 0.0 && s > 0.0 && (x + s) * (y - bought) == x * y
    ensures (1.0 - (bought / s) / (y / x)) * (x + s) == s
  {
    var (e, p) := (bought / s, y / x);
    var r := e / p;
    assert e * s == bought && p * x == y && r * p == e;
    assert (x + s) * bought == s * y by {
      assert (x + s) * (y - bought) == x * y + s * y - (x + s) * bought;
    }
    Cancel((x + s) * e, p * x, s) by {
      assert (x + s) * e * s == (x + s) * (e * s) && p * x * s == s * (p * x);
    }
    Cancel((x + s) * r, x, p) by {
      assert (x + s) * r * p == (x + s) * (r * p);
    }
    assert (1.0 - r) * (x + s) == (x + s) - (x + s) * r;
  }

  lemma Cancel(a: real, b: real, c: real)
    requires c != 0.0 && a * c == b * c
    ensures a == b
  {
    assert (a - b) * c == 0.0;
  }

  lemma FloorOfFraction(a: nat, d: nat, v: real)
    requires d > 0 && v * (d as real) == a as real
    ensures v.Floor == a / d
  {
    DivBounds(a, d);
    var q := a / d;
    assert (q * d) as real == (q as real) * (d as real);
    assert ((q + 1) * d) as real == ((q + 1) as real) * (d as real);
    CancelLe(q as real, v, d as real);
    CancelLe(v, (q + 1) as real, d as real);
    assert v != (q + 1) as real;
  }

  lemma CancelLe(a: real, b: real, c: real)
    requires c > 0.0 && a * c <= b * c
    ensures a <= b
  {
    assert (a - b) * c == a * c - b * c <= 0.0;
  }

  /** A larger sell never looks cheaper. */
  lemma MonotoneInSell(reserveX: U256.Word, reserveY: U256.Word, sell: U256.Word, sell': U256.Word)
    requires sell <= sell' && sell' * 10_000 <= U256.MAX
    ensures ImpactBps(reserveX, reserveY, sell) <= ImpactBps(reserveX, reserveY, sell')
  {
    hide ImpactBps, IsQuotient;
    if reserveX != 0 && reserveY != 0 && sell != 0 {
      var (d, d') := (U256.SaturatingAdd(reserveX, sell), U256.SaturatingAdd(reserveX, sell'));
      ImpactIsQuotient(reserveX, reserveY, sell);
      ImpactIsQuotient(reserveX, reserveY, sell');
      CrossMultiplied(reserveX, sell, sell', d, d');
      QuotientsCompare(sell * 10_000, d, ImpactBps(reserveX, reserveY, sell),
                       sell' * 10_000, d', ImpactBps(reserveX, reserveY, sell'));
    } else {
      ImpactOfNothing(reserveX, reserveY, sell);
    }
  }

  lemma CrossMultiplied(x: nat, s: nat, s': nat, d: nat, d': nat)
    requires s <= s' && d <= d' <= x + s' && (d == x + s || d == d')
    ensures FractionLe(s * 10_000, d, s' * 10_000, d')
  {
    if d == d' {
      TimesLe(s * 10_000, s' * 10_000, d);
    } else {
      TimesLe(d', x + s', s);
      assert s * (x + s') == s * x + s * s' && s' * (x + s) == s' * x + s * s';
      TimesLe(s, s', x);
      assert s * d' <= s' * d;
      assert s * 10_000 * d' == 10_000 * (s * d') && s' * 10_000 * d == 10_000 * (s' * d);
    }
  }

  /** A deeper pool never looks dearer, for all inputs. */
  lemma {:induction false} AntitoneInReserve(reserveX: U256.Word, reserveX': U256.Word, reserveY: U256.Word,
                                             sell: U256.Word)
    requires 0 < reserveX <= reserveX'
    ensures ImpactBps(reserveX', reserveY, sell) <= ImpactBps(reserveX, reserveY, sell)
  {
    hide ImpactBps, IsQuotient;
    if reserveY != 0 && sell != 0 {
      var (d, d') := (U256.SaturatingAdd(reserveX, sell), U256.SaturatingAdd(reserveX', sell));
      var product := U256.SaturatingMul(sell, 10_000);
      ImpactIsQuotient(reserveX, reserveY, sell);
      ImpactIsQuotient(reserveX', reserveY, sell);
      TimesLe(d, d', product);
      QuotientsCompare(product, d', ImpactBps(reserveX', reserveY, sell), product, d,
                       ImpactBps(reserveX, reserveY, sell));
    } else {
      ImpactOfNothing(reserveX', reserveY, sell);
    }
  }

  // ----- The cap -----

  /** Within m basis points exactly when the sell is under (m + 1) / (9999 - m) of the reserve. */
  lemma CapIff(reserveX: U256.Word, reserveY: U256.Word, sell: U256.Word, m: nat)
    requires reserveX != 0 && reserveY != 0 && m <= 9_998
    requires sell * 10_000 <= U256.MAX && reserveX + sell <= U256.MAX
    ensures ImpactBps(reserveX, reserveY, sell) <= m <==> sell * (9_999 - m) < (m + 1) * reserveX
  {
    if sell != 0 {
      ImpactQuotient(reserveX, reserveY, sell);
      DivAtMostIff(sell * 10_000, reserveX + sell, m);
      assert (m + 1) * (reserveX + sell) == (m + 1) * reserveX + (m + 1) * sell;
      assert sell * (9_999 - m) == sell * 10_000 - (m + 1) * sell;
    } else {
      TimesLt(0, m + 1, reserveX);
    }
  }

  /** Even when the pool's side of the sum saturates, a sell within the cap obeys the same bound. */
  lemma CapBoundsSell(reserveX: U256.Word, reserveY: U256.Word, sell: U256.Word, m: nat)
    requires reserveX != 0 && reserveY != 0 && m <= 9_998 && sell * 10_000 <= U256.MAX
    requires ImpactBps(reserveX, reserveY, sell) <= m
    ensures sell * (9_999 - m) < (m + 1) * reserveX
  {
    if reserveX + sell <= U256.MAX {
      CapIff(reserveX, reserveY, sell, m);
    } else {
      ImpactQuotient(reserveX, reserveY, sell);
      DivAtMostIff(sell * 10_000, U256.MAX, m);
      TimesLe(U256.MAX, reserveX + sell, m + 1);
      assert (m + 1) * (reserveX + sell) == (m + 1) * reserveX + (m + 1) * sell;
      assert sell * (9_999 - m) == sell * 10_000 - (m + 1) * sell;
    }
  }

  /** Every sell the engine computes is small enough for the multiplication not to saturate. */
  lemma GateNeverSaturates(total: int, sold: int, buy: U256.Word, povBps: U256.Word)
    requires TradeProtocol.Gate(total, sold, buy, povBps).Some?
    ensures TradeProtocol.Gate(total, sold, buy, povBps).value * 10_000 <= U256.MAX
    ensures TradeProtocol.Gate(total, sold, buy, povBps).value * 10_000 <= buy * povBps
  {
    DivBounds(U256.WrappingMul(buy, povBps), 10_000);
    assert U256.WrappingMul(buy, povBps) <= buy * povBps;
  }

  /** A cap of m basis points as a bound on the sell; from 9999 on it bounds nothing. */
  predicate Bounds(m: nat, sell: nat, reserveX: nat) {
    m <= 9_998 ==> sell * (9_999 - m) < (m + 1) * reserveX
  }

  lemma BoundsIff(reserveX: U256.Word, reserveY: U256.Word, sell: U256.Word, m: nat)
    requires reserveX != 0 && reserveY != 0 && sell * 10_000 <= U256.MAX && reserveX + sell <= U256.MAX
    ensures ImpactBps(reserveX, reserveY, sell) <= m <==> Bounds(m, sell, reserveX)
  {
    hide ImpactBps;
    ImpactBelowHundredPercent(reserveX, reserveY, sell);
    if m <= 9_998 {
      CapIff(reserveX, reserveY, sell, m);
    }
  }

  /** Both caps count: a sell passes exactly within the bounds of both, or where a side of the pool is empty. */
  lemma {:induction false} PassesIff(total: int, sold: int, buy: U256.Word, povBps: U256.Word,
                                     reserveX: U256.Word, reserveY: U256.Word, sessionMaxBps: nat, globalMaxBps: nat)
    requires TradeProtocol.Gate(total, sold, buy, povBps).Some?
    requires reserveX + TradeProtocol.Gate(total, sold, buy, povBps).value <= U256.MAX
    ensures
      var sell := TradeProtocol.Gate(total, sold, buy, povBps).value;
      PassesCap(ImpactBps(reserveX, reserveY, sell), sessionMaxBps, globalMaxBps) <==>
        || reserveX == 0 || reserveY == 0
        || (Bounds(sessionMaxBps, sell, reserveX) && Bounds(globalMaxBps, sell, reserveX))
  {
    hide ImpactBps, Bounds;
    var sell := TradeProtocol.Gate(total, sold, buy, povBps).value;
    if reserveX == 0 || reserveY == 0 {
      ImpactOfNothing(reserveX, reserveY, sell);
    } else {
      GateNeverSaturates(total, sold, buy, povBps);
      BoundsIff(reserveX, reserveY, sell, sessionMaxBps);
      BoundsIff(reserveX, reserveY, sell, globalMaxBps);
    }
  }

  /** So every trade that goes ahead sells less than (m + 1) / (9999 - m) of the pool's reserve, m the effective cap. */
  lemma ExecutedSellIsBounded(total: int, sold: int, buy: U256.Word, povBps: U256.Word,
                              reserveX: U256.Word, reserveY: U256.Word, sessionMaxBps: nat, globalMaxBps: nat)
    requires TradeProtocol.Gate(total, sold, buy, povBps).Some? && reserveX != 0 && reserveY != 0
    requires sessionMaxBps <= 9_998 || globalMaxBps <= 9_998
    requires PassesCap(ImpactBps(reserveX, reserveY, TradeProtocol.Gate(total, sold, buy, povBps).value),
                       sessionMaxBps, globalMaxBps)
    ensures
      var sell := TradeProtocol.Gate(total, sold, buy, povBps).value;
      var m := if sessionMaxBps < globalMaxBps then sessionMaxBps else globalMaxBps;
      sell * (9_999 - m) < (m + 1) * reserveX
  {
    GateNeverSaturates(total, sold, buy, povBps);
    CapBoundsSell(reserveX, reserveY, TradeProtocol.Gate(total, sold, buy, povBps).value,
                  if sessionMaxBps < globalMaxBps then sessionMaxBps else globalMaxBps);
  }

  /** An empty pool side always passes; the bound above needs both sides to hold something. */
  lemma EmptyPoolPasses(reserveX: U256.Word, reserveY: U256.Word, sell: U256.Word, sessionMaxBps: nat,
                        globalMaxBps: nat)
    requires reserveX == 0 || reserveY == 0
    ensures PassesCap(ImpactBps(reserveX, reserveY, sell), sessionMaxBps, globalMaxBps)
  {
  }

  /** Once the multiplication saturates a larger sell can look cheaper, and pass a cap a small one does not. */
  lemma SaturationUnderstates()
    ensures
      var huge: U256.Word := 0x8000_0000_0000_0000 * 0x1_0000000000000000_0000000000000000_0000000000000000;
      ImpactBps(1, 1, huge) == 1 && ImpactBps(1, 1, 1) == 5_000
  {
    var sell: U256.Word := 0x8000_0000_0000_0000 * 0x1_0000000000000000_0000000000000000_0000000000000000;
    assert U256.SaturatingMul(sell, 10_000) == U256.MAX;
    assert U256.MAX == 1 * (sell + 1) + (sell - 2);
  }

  /** The least sell at which the multiplication saturates. */
  const SATURATING_SELL: U256.Word := U256.MAX / 10_000 + 1

  /** Over all 256-bit sells, a larger one never looks cheaper. */
  ghost predicate NeverFalls(reserveX: U256.Word, reserveY: U256.Word) {
    forall sell: U256.Word, sell': U256.Word :: sell <= sell' ==>
      ImpactBps(reserveX, reserveY, sell) <= ImpactBps(reserveX, reserveY, sell')
  }

  /** So the estimate is monotone over all sells exactly in a pool so deep that it never exceeds one basis point. */
  lemma {:induction false} NeverFallsIff(reserveX: U256.Word, reserveY: U256.Word)
    requires reserveX != 0 && reserveY != 0
    ensures NeverFalls(reserveX, reserveY) <==> 2 * (reserveX + SATURATING_SELL) > U256.MAX
    ensures NeverFalls(reserveX, reserveY) <==>
            forall sell: U256.Word :: ImpactBps(reserveX, reserveY, sell) <= 1
  {
    hide ImpactBps;
    if 2 * (reserveX + SATURATING_SELL) > U256.MAX {
      forall sell: U256.Word ensures ImpactBps(reserveX, reserveY, sell) <= 1 {
        DeepPool(reserveX, reserveY, sell);
      }
      forall sell: U256.Word, sell': U256.Word | sell <= sell'
        ensures ImpactBps(reserveX, reserveY, sell) <= ImpactBps(reserveX, reserveY, sell')
      {
        if sell' < SATURATING_SELL {
          MonotoneInSell(reserveX, reserveY, sell, sell');
        } else {
          SaturatedImpact(reserveX, reserveY, sell');
        }
      }
    } else {
      SaturatedImpact(reserveX, reserveY, SATURATING_SELL);
      SaturatedImpact(reserveX, reserveY, U256.MAX);
    }
  }

  /** Once saturated, it is at least one basis point, and more exactly below half of the range. */
  lemma SaturatedImpact(reserveX: U256.Word, reserveY: U256.Word, sell: U256.Word)
    requires reserveX != 0 && reserveY != 0 && sell >= SATURATING_SELL
    ensures ImpactBps(reserveX, reserveY, sell) >= 1
    ensures ImpactBps(reserveX, reserveY, sell) == 1 <==> 2 * (reserveX + sell) > U256.MAX
  {
    ImpactQuotient(reserveX, reserveY, sell);
    DivAtMostIff(U256.MAX, U256.SaturatingAdd(reserveX, sell), 0);
    DivAtMostIff(U256.MAX, U256.SaturatingAdd(reserveX, sell), 1);
  }

  lemma DeepPool(reserveX: U256.Word, reserveY: U256.Word, sell: U256.Word)
    requires reserveX != 0 && reserveY != 0 && 2 * (reserveX + SATURATING_SELL) > U256.MAX
    ensures ImpactBps(reserveX, reserveY, sell) <= 1
  {
    if sell >= SATURATING_SELL {
      SaturatedImpact(reserveX, reserveY, sell);
    } else if sell == 0 {
      ImpactOfNothing(reserveX, reserveY, sell);
    } else {
      ImpactQuotient(reserveX, reserveY, sell);
      DivAtMostIff(sell * 10_000, U256.SaturatingAdd(reserveX, sell), 1);
    }
  }
}
