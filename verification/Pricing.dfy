// Quotes and slippage bounds in integer arithmetic
// (investor-web/src/lib/wallet.ts:229-256, investor-web/src/lib/slippage.ts:1-31).
module Pricing {
  import Decimal

  // BigInt division rounds toward zero.
  function Divide(a: int, d: int): int
    requires d > 0
  {
    if a >= 0 then a / d else -(-a / d)
  }

  function MulDivCeil(a: int, b: int, denom: int): int
    requires denom > 0
  {
    var product := a * b;
    if product == 0 then 0 else Divide(product - 1, denom) + 1
  }

  function MulDivFloor(a: int, b: int, denom: int): int
    requires denom > 0
  {
    Divide(a * b, denom)
  }

  // q is the least integer at or above p / d, or the greatest at or below it.
  predicate IsCeil(q: int, p: int, d: int) { (q - 1) * d < p <= q * d }

  predicate IsFloor(q: int, p: int, d: int) { q * d <= p < (q + 1) * d }

  lemma {:induction false} TimesAtLeast(k: nat, d: int)
    requires d > 0
    ensures if k == 0 then k * d == 0 else k * d >= d
  {
    if k > 1 {
      TimesAtLeast(k - 1, d);
      Distribute(k - 1, 1, d);
    }
  }

  lemma LessTimes(x: int, y: int, d: int)
    requires d > 0
    ensures x < y <==> x * d < y * d
    ensures x < y ==> x * d + d <= y * d
  {
    if x < y {
      TimesAtLeast(y - x, d);
      Distribute(y - x, x, d);
    } else {
      TimesAtLeast(x - y, d);
      Distribute(x - y, y, d);
    }
  }

  lemma DivideBounds(a: int, d: int)
    requires d > 0
    ensures a >= 0 ==> IsFloor(Divide(a, d), a, d)
    ensures a <= 0 ==> IsCeil(Divide(a, d), a, d)
  {
    var m := if a >= 0 then a else -a;
    var k := m / d;
    assert m == k * d + m % d;
    Distribute(k, 1, d);
    Distribute(-k, -1, d);
    Distribute(k, -k, d);
  }

  lemma Distribute(x: int, y: int, d: int)
    ensures (x + y) * d == x * d + y * d && (x - y) * d == x * d - y * d
  {
  }

  lemma CeilIsUnique(q: int, r: int, p: int, d: int)
    requires d > 0 && IsCeil(q, p, d)
    ensures IsCeil(r, p, d) <==> q == r
  {
    LessTimes(r, q, d);
    LessTimes(q, r, d);
    LessTimes(r, q - 1, d);
    LessTimes(q, r - 1, d);
    LessTimes(q - 1, r, d);
    LessTimes(r - 1, q, d);
  }

  lemma FloorIsUnique(q: int, r: int, p: int, d: int)
    requires d > 0 && IsFloor(q, p, d)
    ensures IsFloor(r, p, d) <==> q == r
  {
    Distribute(q, 1, d);
    Distribute(r, 1, d);
    LessTimes(q, r + 1, d);
    LessTimes(r, q + 1, d);
  }

  // The rounded-up quotient is exact for every product that is not negative,
  // and for a negative one only when it is one above a multiple.
  lemma CeilIsExact(a: int, b: int, denom: int)
    requires denom > 0
    ensures IsCeil(MulDivCeil(a, b, denom), a * b, denom) <==> a * b >= 0 || (a * b - 1) % denom == 0
  {
    var p := a * b;
    var q := Divide(p - 1, denom);
    DivideBounds(p - 1, denom);
    Distribute(q, 1, denom);
    if p < 0 {
      assert q + 1 - 1 == q;
      assert IsCeil(q + 1, p, denom) <==> p - 1 == q * denom;
      RemainderZero(p - 1, q, denom);
    }
  }

  lemma RemainderZero(n: int, q: int, d: int)
    requires d > 0 && IsCeil(q, n, d)
    ensures n % d == 0 <==> n == q * d
  {
    var k := n / d;
    assert n == k * d + n % d;
    Distribute(k, 1, d);
    Distribute(q, 1, d);
    LessTimes(q, k, d);
    LessTimes(k, q, d);
    Distribute(k, -1, d);
    Distribute(q, -1, d);
    if n == q * d {
      FloorIsUnique(q, k, n, d);
    } else if n % d == 0 {
      CeilIsUnique(q, k, n, d);
    }
  }

  // The rounded-down quotient is exact for every product that is not negative,
  // and for a negative one only when nothing is rounded.
  lemma FloorIsExact(a: int, b: int, denom: int)
    requires denom > 0
    ensures IsFloor(MulDivFloor(a, b, denom), a * b, denom) <==> a * b >= 0 || (a * b) % denom == 0
  {
    var p := a * b;
    var q := MulDivFloor(a, b, denom);
    DivideBounds(p, denom);
    Distribute(q, 1, denom);
    if p < 0 {
      RemainderZero(p, q, denom);
    }
  }

  datatype Rounding = Up | Down

  function Pow10(n: nat): (p: nat)
    ensures p > 0
  {
    if n == 0 then 1 else 10 * Pow10(n - 1)
  }

  function Quote(tokenAmount: int, pricePerWholeToken: int, tokenDecimals: nat, rounding: Rounding): int {
    if rounding == Up then MulDivCeil(tokenAmount, pricePerWholeToken, Pow10(tokenDecimals))
    else MulDivFloor(tokenAmount, pricePerWholeToken, Pow10(tokenDecimals))
  }

  // ---- Splitting an amount ----

  function Sum(parts: seq<nat>): nat { if parts == [] then 0 else parts[0] + Sum(parts[1..]) }

  function QuoteEach(parts: seq<nat>, price: nat, decimals: nat, rounding: Rounding): int {
    if parts == [] then 0
    else Quote(parts[0], price, decimals, rounding) + QuoteEach(parts[1..], price, decimals, rounding)
  }

  // Rounding two quotes apart instead of together differs by at most one.
  lemma CeilOfSum(p: int, q: int, r: int, a: int, b: int, d: int)
    requires d > 0 && IsCeil(p, a, d) && IsCeil(q, b, d) && IsCeil(r, a + b, d)
    ensures r <= p + q <= r + 1
  {
    Distribute(p, q, d);
    Distribute(p, 1, d);
    Distribute(q, 1, d);
    Distribute(r, 1, d);
    LessTimes(p + q, r, d);
    LessTimes(r + 1, p + q, d);
  }

  lemma FloorOfSum(p: int, q: int, r: int, a: int, b: int, d: int)
    requires d > 0 && IsFloor(p, a, d) && IsFloor(q, b, d) && IsFloor(r, a + b, d)
    ensures r - 1 <= p + q <= r
  {
    Distribute(p, q, d);
    Distribute(p, 1, d);
    Distribute(q, 1, d);
    Distribute(r, 1, d);
    LessTimes(r, p + q, d);
    LessTimes(p + q, r - 1, d);
  }

  lemma Products(x: nat, y: nat, price: nat)
    ensures (x + y) * price == x * price + y * price && x * price >= 0
  {
  }

  // Buying in n parts costs at least the one quote and at most n - 1 more.
  lemma {:induction false} SplitPurchase(parts: seq<nat>, price: nat, decimals: nat)
    requires parts != []
    ensures var whole := Quote(Sum(parts), price, decimals, Up);
            whole <= QuoteEach(parts, price, decimals, Up) <= whole + |parts| - 1
  {
    if |parts| == 1 {
      assert parts[1..] == [];
    } else {
      var d := Pow10(decimals);
      var first, rest := parts[0], Sum(parts[1..]);
      SplitPurchase(parts[1..], price, decimals);
      Products(first, rest, price);
      Products(rest, first, price);
      CeilIsExact(first, price, d);
      CeilIsExact(rest, price, d);
      CeilIsExact(first + rest, price, d);
      CeilOfSum(Quote(first, price, decimals, Up), Quote(rest, price, decimals, Up),
        Quote(first + rest, price, decimals, Up),
                first * price, rest * price, d);
    }
  }

  // Redeeming in n parts brings at most the one quote and at least n - 1 less.
  lemma {:induction false} SplitRedemption(parts: seq<nat>, price: nat, decimals: nat)
    requires parts != []
    ensures var whole := Quote(Sum(parts), price, decimals, Down);
            whole - (|parts| - 1) <= QuoteEach(parts, price, decimals, Down) <= whole
  {
    if |parts| == 1 {
      assert parts[1..] == [];
    } else {
      var d := Pow10(decimals);
      var first, rest := parts[0], Sum(parts[1..]);
      SplitRedemption(parts[1..], price, decimals);
      Products(first, rest, price);
      Products(rest, first, price);
      FloorIsExact(first, price, d);
      FloorIsExact(rest, price, d);
      FloorIsExact(first + rest, price, d);
      FloorOfSum(Quote(first, price, decimals, Down), Quote(rest, price, decimals, Down),
        Quote(first + rest, price, decimals, Down),
                 first * price, rest * price, d);
    }
  }

  lemma DearerCostsMore(n: nat, price: nat, dearer: nat)
    requires price <= dearer
    ensures n * price <= n * dearer
  {
    assert n * dearer == n * price + n * (dearer - price);
  }

  // However an amount is bought in parts and redeemed in parts, it never brings
  // more than it cost, as long as the redemption price is not the higher one.
  lemma NoRoundTripProfit(bought: seq<nat>, redeemed: seq<nat>, purchasePrice: nat, redemptionPrice: nat, decimals: nat)
    requires bought != [] && redeemed != [] && Sum(bought) == Sum(redeemed) && redemptionPrice <= purchasePrice
    ensures QuoteEach(redeemed, redemptionPrice, decimals, Down) <= QuoteEach(bought, purchasePrice, decimals, Up)
  {
    var n, d := Sum(bought), Pow10(decimals);
    SplitPurchase(bought, purchasePrice, decimals);
    SplitRedemption(redeemed, redemptionPrice, decimals);
    Products(n, 0, purchasePrice);
    Products(n, 0, redemptionPrice);
    CeilIsExact(n, purchasePrice, d);
    FloorIsExact(n, redemptionPrice, d);
    var cost, back := Quote(n, purchasePrice, decimals, Up), Quote(n, redemptionPrice, decimals, Down);
    DearerCostsMore(n, redemptionPrice, purchasePrice);
    LessTimes(cost, back, d);
  }

  // ---- Slippage ----

  const MAX_SLIPPAGE_BPS: int := 5000
  const WHOLE_BPS: int := 10000

  // Math.round.
  function Round(x: real): int { (x + 0.5).Floor }

  function Clamp(x: real, cap: int): (bps: int)
    requires cap >= 0
    ensures 0 <= bps <= cap
  {
    var r := Round(x);
    if r < 0 then 0 else if r > cap then cap else r
  }

  function ApplySlippageCeil(base: int, slippageBps: real): int {
    Divide(base * (WHOLE_BPS + Clamp(slippageBps, MAX_SLIPPAGE_BPS)) + 9999, WHOLE_BPS)
  }

  function ApplySlippageFloor(base: int, slippageBps: real): int {
    Divide(base * (WHOLE_BPS - Clamp(slippageBps, WHOLE_BPS)), WHOLE_BPS)
  }

  lemma BpsOf(base: int, bps: nat)
    requires bps <= WHOLE_BPS
    ensures base * (WHOLE_BPS + bps) == base * WHOLE_BPS + base * bps &&
            base * (WHOLE_BPS - bps) == base * WHOLE_BPS - base * bps
    ensures base >= 0 ==>
              && 0 <= base * bps <= base * WHOLE_BPS
              && (bps <= MAX_SLIPPAGE_BPS ==> base * bps <= base * MAX_SLIPPAGE_BPS)
    ensures base < 0 ==> base * WHOLE_BPS <= base * bps <= 0 && (base * bps == 0 <==> bps == 0)
  {
    DearerCostsMore(if base >= 0 then base else -base, bps, WHOLE_BPS);
    if bps <= MAX_SLIPPAGE_BPS {
      DearerCostsMore(if base >= 0 then base else -base, bps, MAX_SLIPPAGE_BPS);
    }
    if bps > 0 && base < 0 {
      DearerCostsMore(-base, 1, bps);
    }
  }

  // The two bounds at given tolerances, before they are named.
  lemma BoundsAt(base: int, up: nat, down: nat)
    requires up <= MAX_SLIPPAGE_BPS && down <= WHOLE_BPS
    ensures var p, q := base * (WHOLE_BPS + up), base * (WHOLE_BPS - down);
            && (IsCeil(Divide(p + 9999, WHOLE_BPS), p, WHOLE_BPS) <==> p + 9999 >= 0 || (p + 9999) % WHOLE_BPS == 0)
            && (IsFloor(Divide(q, WHOLE_BPS), q, WHOLE_BPS) <==> q >= 0 || q % WHOLE_BPS == 0)
            && (base <= Divide(p + 9999, WHOLE_BPS) <==> base >= 0 || -(base * up) <= 19998)
            && (Divide(q, WHOLE_BPS) <= base <==> base >= 0 || down == 0)
            && (base >= 0 ==> 0 <= Divide(q, WHOLE_BPS) && 2 * Divide(p + 9999, WHOLE_BPS) <= 3 * base + 1)
  {
    BpsOf(base, up);
    BpsOf(base, down);
  }

  // For every amount and every tolerance, in range or not: the bounds are the
  // exact rounded-up and rounded-down values at the capped tolerance, and the
  // amount lies between them, for every amount that is not negative, and for
  // negative ones exactly in the cases listed.
  lemma SlippageBrackets(base: int, slippageBps: real)
    ensures var p := base * (WHOLE_BPS + Clamp(slippageBps, MAX_SLIPPAGE_BPS));
            IsCeil(ApplySlippageCeil(base, slippageBps), p, WHOLE_BPS) <==> p + 9999 >= 0 || (p + 9999) % WHOLE_BPS == 0
    ensures var q := base * (WHOLE_BPS - Clamp(slippageBps, WHOLE_BPS));
            IsFloor(ApplySlippageFloor(base, slippageBps), q, WHOLE_BPS) <==> q >= 0 || q % WHOLE_BPS == 0
    ensures base <= ApplySlippageCeil(base, slippageBps) <==>
            base >= 0 || -(base * Clamp(slippageBps, MAX_SLIPPAGE_BPS)) <= 19998
    ensures ApplySlippageFloor(base, slippageBps) <= base <==> base >= 0 || Clamp(slippageBps, WHOLE_BPS) == 0
    ensures base >= 0 ==>
              && 0 <= ApplySlippageFloor(base, slippageBps)
              && 2 * ApplySlippageCeil(base, slippageBps) <= 3 * base + 1
  {
    BoundsAt(base, Clamp(slippageBps, MAX_SLIPPAGE_BPS), Clamp(slippageBps, WHOLE_BPS));
  }

  lemma MonotoneAt(base: int, bps: nat, larger: nat)
    requires bps <= larger <= WHOLE_BPS
    ensures var (up, up') := (Divide(base * (WHOLE_BPS + bps) + 9999, WHOLE_BPS),
              Divide(base * (WHOLE_BPS + larger) + 9999, WHOLE_BPS));
            if base >= 0 then up <= up' else up' <= up
    ensures var (down, down') := (Divide(base * (WHOLE_BPS - bps), WHOLE_BPS),
              Divide(base * (WHOLE_BPS - larger), WHOLE_BPS));
            if base >= 0 then down' <= down else down <= down'
  {
    BpsOf(base, bps);
    BpsOf(base, larger);
    DearerCostsMore(if base >= 0 then base else -base, bps, larger);
  }

  lemma ClampIsMonotone(x: real, y: real, cap: int)
    requires x <= y && cap >= 0
    ensures Clamp(x, cap) <= Clamp(y, cap)
  {
    assert x + 0.5 <= y + 0.5;
  }

  // A larger tolerance never narrows the bounds of an amount, and never widens
  // those of a negative one.
  lemma SlippageIsMonotone(base: int, slippageBps: real, larger: real)
    requires slippageBps <= larger
    ensures base >= 0 ==> ApplySlippageCeil(base, slippageBps) <= ApplySlippageCeil(base, larger)
    ensures base >= 0 ==> ApplySlippageFloor(base, larger) <= ApplySlippageFloor(base, slippageBps)
    ensures base < 0 ==> ApplySlippageCeil(base, larger) <= ApplySlippageCeil(base, slippageBps)
    ensures base < 0 ==> ApplySlippageFloor(base, slippageBps) <= ApplySlippageFloor(base, larger)
  {
    hide Divide;
    hide Clamp;
    ClampIsMonotone(slippageBps, larger, MAX_SLIPPAGE_BPS);
    ClampIsMonotone(slippageBps, larger, WHOLE_BPS);
    MonotoneAt(base, Clamp(slippageBps, MAX_SLIPPAGE_BPS), Clamp(larger, MAX_SLIPPAGE_BPS));
    MonotoneAt(base, Clamp(slippageBps, WHOLE_BPS), Clamp(larger, WHOLE_BPS));
  }

  // ---- The numbers as they are written ----

  lemma {:induction false} PowerIsWritten(n: nat)
    ensures var text := "1" + seq(n, _ => '0');
            Decimal.AllDigits(text) && Decimal.DigitsValue(text) == Pow10(n)
  {
    var text := "1" + seq(n, _ => '0');
    if n == 0 {
      assert text == "1" && text[..0] == "";
    } else {
      PowerIsWritten(n - 1);
      assert text[..|text| - 1] == "1" + seq(n - 1, _ => '0');
    }
  }

  // A quote is the product divided by a one with so many zeros, rounded up or
  // down; whole tokens are quoted at their price.
  lemma QuoteIsExact(amount: nat, price: nat, decimals: nat)
    ensures var text := "1" + seq(decimals, _ => '0');
            && Decimal.AllDigits(text)
            && var d := Decimal.DigitsValue(text);
               && (Quote(amount, price, decimals, Up) - 1) * d < amount * price <= Quote(amount, price, decimals,
                 Up) * d
               && Quote(amount, price, decimals, Down) * d <= amount * price
               && amount * price < (Quote(amount, price, decimals, Down) + 1) * d
  {
    PowerIsWritten(decimals);
    Products(amount, 0, price);
    CeilIsExact(amount, price, Pow10(decimals));
    FloorIsExact(amount, price, Pow10(decimals));
  }

  lemma WholeTokens(tokens: nat, price: nat, decimals: nat, rounding: Rounding)
    ensures Quote(tokens * Pow10(decimals), price, decimals, rounding) == tokens * price
  {
    var d := Pow10(decimals);
    var amount, cost := tokens * d, tokens * price;
    Reordered(tokens, d, price);
    Products(amount, 0, price);
    CeilIsExact(amount, price, d);
    FloorIsExact(amount, price, d);
    Distribute(cost, 1, d);
    hide MulDivCeil;
    hide MulDivFloor;
    hide Pow10;
    MultipleIsUnrounded(cost, d);
    CeilIsUnique(MulDivCeil(amount, price, d), cost, cost * d, d);
    FloorIsUnique(MulDivFloor(amount, price, d), cost, cost * d, d);
  }

  lemma Reordered(x: int, d: int, y: int)
    ensures (x * d) * y == (x * y) * d
  {
  }

  lemma MultipleIsUnrounded(q: int, d: int)
    requires d > 0
    ensures IsCeil(q, q * d, d) && IsFloor(q, q * d, d)
  {
    Distribute(q, 1, d);
  }

  // A tolerance in whole basis points counts as it is up to the cap; any other
  // counts as the nearest whole number, halves upwards.
  lemma ClampIsNearest(x: real, n: int, cap: nat)
    ensures Clamp(n as real, cap) == if n < 0 then 0 else if n > cap then cap else n
    ensures 0.0 <= x <= cap as real ==> x - 0.5 < Clamp(x, cap) as real <= x + 0.5
    ensures x < 0.0 ==> Clamp(x, cap) == 0
  {
  }

  // So that at n basis points, up to half, a spend bound is the exact ceiling of
  // the amount and n ten-thousandths of it, and a proceeds bound the floor.
  lemma SlippageAtWholePoints(base: nat, n: nat)
    ensures n <= 5000 ==>
              var up := ApplySlippageCeil(base, n as real);
              (up - 1) * 10000 < base * (10000 + n) <= up * 10000
    ensures n <= 10000 ==>
              var down := ApplySlippageFloor(base, n as real);
              down * 10000 <= base * (10000 - n) < (down + 1) * 10000
  {
    SlippageBrackets(base, n as real);
    ClampIsNearest(0.0, n, MAX_SLIPPAGE_BPS);
    ClampIsNearest(0.0, n, WHOLE_BPS);
    hide Clamp;
    hide ApplySlippageCeil;
    hide ApplySlippageFloor;
    if n <= 5000 {
      Products(base, 0, 10000 + n);
    }
    if n <= 10000 {
      Products(base, 0, 10000 - n);
    }
  }
}
