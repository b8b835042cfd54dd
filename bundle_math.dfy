/** The arithmetic of the product-bundle rule, on plain values: how the
    purchase quantity is split over the selected lines, how the group
    discount pool is walked line by line, and the per-line price formulas of
    the group and individual modes. The rule's methods are proved against
    these functions. */
module BundleMath {
  import opened Common

  // ---------------------------------------------------------------------
  // Quantity partition

  /** The units of a line the bundle covers, given what is left of the
      purchase quantity once the line's own quantity has been subtracted:
      all of them while that is not negative, else only the part that fits. */
  function Covered(quantity: int, remaining: int): int
  {
    if remaining >= 0 then quantity else quantity + remaining
  }

  /** The discountable quantity of every selected line, walking the lines
      left to right and subtracting each quantity from the purchase
      quantity. */
  function DiscountableQuantities(qtys: seq<int>, purchase: int): (dqs: seq<int>)
    ensures |dqs| == |qtys|
  {
    seq(|qtys|, i requires 0 <= i < |qtys| => Covered(qtys[i], purchase - Sum(qtys[..i + 1])))
  }

  /** What an accepted proposal guarantees about its lines: there is at
      least one, every quantity is positive, the lines before the last stay
      below the purchase quantity and all of them reach it. */
  predicate IsBundleSelection(qtys: seq<int>, purchase: int)
  {
    && |qtys| > 0
    && (forall i :: 0 <= i < |qtys| ==> qtys[i] >= 1)
    && Sum(qtys[..|qtys| - 1]) < purchase <= Sum(qtys)
  }

  lemma {:induction false} SumPrefixMonotone(qtys: seq<int>, i: nat, j: nat)
    requires i <= j <= |qtys|
    requires forall k :: 0 <= k < |qtys| ==> qtys[k] >= 0
    ensures Sum(qtys[..i]) <= Sum(qtys[..j])
  {
    if i < j {
      SumPrefixMonotone(qtys, i, j - 1);
      assert qtys[..j][..j - 1] == qtys[..j - 1];
    }
  }

  /** The partition of a bundle: every line but the last is covered in full,
      the last line contributes between one unit and all of its units, and
      the covered units add up to exactly the purchase quantity. */
  lemma PartitionShape(qtys: seq<int>, purchase: int)
    requires IsBundleSelection(qtys, purchase)
    ensures var dqs := DiscountableQuantities(qtys, purchase);
      && (forall i :: 0 <= i < |qtys| - 1 ==> dqs[i] == qtys[i])
      && 1 <= dqs[|qtys| - 1] <= qtys[|qtys| - 1]
      && Sum(dqs) == purchase
  {
    var n := |qtys|;
    var dqs := DiscountableQuantities(qtys, purchase);
    forall i | 0 <= i < n - 1
      ensures dqs[i] == qtys[i]
    {
      SumPrefixMonotone(qtys, i + 1, n - 1);
    }
    assert qtys[..n] == qtys;
    assert dqs[n - 1] == purchase - Sum(qtys[..n - 1]);
    assert dqs[..n - 1] == qtys[..n - 1];
  }

  /** Every discountable quantity is at least one, so the per-unit
      formulas below never divide by zero on a bundle. */
  lemma CoveredPositive(qtys: seq<int>, purchase: int)
    requires IsBundleSelection(qtys, purchase)
    ensures forall i :: 0 <= i < |qtys| ==> 1 <= DiscountableQuantities(qtys, purchase)[i] <= qtys[i]
  {
    PartitionShape(qtys, purchase);
  }

  /** One step of the left-to-right walk: subtracting line `i`'s quantity
      from what is left of the purchase quantity gives its covered units. */
  lemma CoveredStep(qtys: seq<int>, purchase: int, i: nat, left: int)
    requires i < |qtys| && left == purchase - Sum(qtys[..i])
    ensures left - qtys[i] == purchase - Sum(qtys[..i + 1])
    ensures Covered(qtys[i], left - qtys[i]) == DiscountableQuantities(qtys, purchase)[i]
  {
    assert qtys[..i + 1][..i] == qtys[..i];
  }

  /** The value of some units of a line. */
  function LineValue(price: real, units: int): real
  {
    price * units as real
  }

  /** The value of every covered part: unit price times covered units. */
  function LineTotals(prices: seq<real>, dqs: seq<int>): (ts: seq<real>)
    requires |prices| == |dqs|
    ensures |ts| == |prices|
    ensures forall i :: 0 <= i < |ts| ==> ts[i] == LineValue(prices[i], dqs[i])
  {
    seq(|prices|, i requires 0 <= i < |prices| => LineValue(prices[i], dqs[i]))
  }

  // ---------------------------------------------------------------------
  // The group discount pool

  /** The group pool: the adjustment amount for percentage-like pricing
      types, and total minus the fixed bundle price for flat pricing. */
  function GroupPool(total: real, adjustment: real, flat: bool): real
  {
    if flat then total - adjustment else adjustment
  }

  /** One line of the pool walk: a line worth less than the pool is made
      free and its value taken from the pool; otherwise the pool is used up
      on it. Yields the line's discounted value and the pool left. */
  function PoolStep(pool: real, lineTotal: real): (real, real)
  {
    if pool > lineTotal then (0.0, pool - lineTotal) else (lineTotal - pool, 0.0)
  }

  /** The pool left after the lines `totals`. */
  function PoolAfter(pool: real, totals: seq<real>): real
  {
    if totals == [] then pool else PoolStep(PoolAfter(pool, totals[..|totals| - 1]), totals[|totals| - 1]).1
  }

  /** The discounted value of every line of the walk. */
  function DiscountedValues(pool: real, totals: seq<real>): (ds: seq<real>)
    ensures |ds| == |totals|
  {
    if totals == [] then []
    else
      var init := totals[..|totals| - 1];
      DiscountedValues(pool, init) + [PoolStep(PoolAfter(pool, init), totals[|totals| - 1]).0]
  }

  /** Line `i` of the walk sees the pool left by the lines before it. */
  lemma {:induction false} DiscountedValueAt(pool: real, totals: seq<real>, i: nat)
    requires i < |totals|
    ensures DiscountedValues(pool, totals)[i] == PoolStep(PoolAfter(pool, totals[..i]), totals[i]).0
  {
    var n := |totals|;
    var init := totals[..n - 1];
    if i < n - 1 {
      DiscountedValueAt(pool, init, i);
      assert init[..i] == totals[..i];
    } else {
      assert init == totals[..i];
    }
  }

  /** The pool as line `k` of the walk receives it. */
  function PoolBefore(pool: real, totals: seq<real>, k: nat): real
    requires k <= |totals|
  {
    PoolAfter(pool, totals[..k])
  }

  /** The pool as line `k` of the walk leaves it. */
  function PoolAfterLine(pool: real, totals: seq<real>, k: nat): real
    requires k < |totals|
  {
    PoolAfter(pool, totals[..k + 1])
  }

  /** One step of the walk leaves a non-negative pool no larger than before. */
  lemma PoolStepBound(pool: real, totals: seq<real>, k: nat)
    requires k < |totals| && totals[k] >= 0.0
    requires PoolBefore(pool, totals, k) >= 0.0
    ensures 0.0 <= PoolAfterLine(pool, totals, k) <= PoolBefore(pool, totals, k)
  {
    PoolAfterStep(pool, totals, k);
  }

  /** One more line: the pool after line `i` is the step from the pool
      before it. */
  lemma PoolAfterStep(pool: real, totals: seq<real>, i: nat)
    requires i < |totals|
    ensures PoolAfter(pool, totals[..i + 1]) == PoolStep(PoolAfter(pool, totals[..i]), totals[i]).1
  {
    assert totals[..i + 1][..i] == totals[..i];
  }

  /** Starting from a non-negative pool over non-negative lines, the pool
      never grows and never goes negative, and every discounted line value
      lies between zero and the line's undiscounted value. */
  lemma {:induction false} PoolWalkBounds(pool: real, totals: seq<real>)
    requires pool >= 0.0
    requires forall i :: 0 <= i < |totals| ==> totals[i] >= 0.0
    ensures 0.0 <= PoolAfter(pool, totals) <= pool
    ensures forall i :: 0 <= i < |totals| ==> 0.0 <= DiscountedValues(pool, totals)[i] <= totals[i]
    ensures forall k :: 0 <= k < |totals| ==> 0.0 <= PoolAfterLine(pool, totals, k) <= PoolBefore(pool, totals, k)
    decreases |totals|
  {
    if totals != [] {
      var init := totals[..|totals| - 1];
      PoolWalkBounds(pool, init);
      forall k | 0 <= k < |totals|
        ensures 0.0 <= PoolAfterLine(pool, totals, k) <= PoolBefore(pool, totals, k)
      {
        PoolWalkBounds(pool, totals[..k]);
        PoolStepBound(pool, totals, k);
      }
      var ds := DiscountedValues(pool, totals);
      forall i | 0 <= i < |totals|
        ensures 0.0 <= ds[i] <= totals[i]
      {
        if i < |totals| - 1 {
          assert ds[i] == DiscountedValues(pool, init)[i];
        }
      }
    }
  }

  /** The walk takes off exactly the smaller of the pool and the lines'
      total value, and leaves whatever of the pool exceeded that total. */
  lemma {:induction false} PoolWalkRemoves(pool: real, totals: seq<real>)
    requires pool >= 0.0
    requires forall i :: 0 <= i < |totals| ==> totals[i] >= 0.0
    ensures SumReal(totals) - SumReal(DiscountedValues(pool, totals)) == Min(pool, SumReal(totals))
    ensures PoolAfter(pool, totals) == pool - Min(pool, SumReal(totals))
  {
    if totals != [] {
      var init := totals[..|totals| - 1];
      PoolWalkRemoves(pool, init);
      var ds := DiscountedValues(pool, totals);
      assert ds[..|ds| - 1] == DiscountedValues(pool, init);
    }
  }

  function Min(a: real, b: real): real { if a <= b then a else b }

  function Max(a: real, b: real): real { if a >= b then a else b }

  /** In flat mode the bundle is brought down to the configured price: the
      discounted values add up to the adjustment amount whenever that lies
      between zero and the bundle's value. In the other modes the bundle
      loses the adjustment amount, capped at its value. */
  lemma GroupPoolOutcome(totals: seq<real>, adjustment: real, flat: bool)
    requires forall i :: 0 <= i < |totals| ==> totals[i] >= 0.0
    requires flat ==> 0.0 <= adjustment <= SumReal(totals)
    requires !flat ==> adjustment >= 0.0
    ensures var ds := DiscountedValues(GroupPool(SumReal(totals), adjustment, flat), totals);
      && (flat ==> SumReal(ds) == adjustment)
      && (!flat ==> SumReal(ds) == SumReal(totals) - Min(adjustment, SumReal(totals)))
  {
    PoolWalkRemoves(GroupPool(SumReal(totals), adjustment, flat), totals);
  }

  // ---------------------------------------------------------------------
  // Per-line prices

  /** What a rule does to one line: the new unit price and the modifier's
      covered quantity and per-unit discount. */
  datatype LineOutcome = LineOutcome(price: real, modifyQuantity: int, discountPerUnit: real)

  /** Group mode: the covered units together are worth `discounted`; the
      uncovered ones keep their price, and the unit price is the average. */
  function GroupLine(price: real, quantity: int, dq: int, discounted: real): LineOutcome
    requires quantity != 0 && dq != 0
  {
    LineOutcome((price * (quantity - dq) as real + discounted) / quantity as real, dq, price - discounted / dq as real)
  }

  /** Individual mode: each covered unit costs the price less the amount,
      never below zero; the unit price is the average over the line. */
  function IndividualLine(price: real, quantity: int, dq: int, amount: real): LineOutcome
    requires quantity != 0
  {
    LineOutcome((price * (quantity - dq) as real + Max(0.0, price - amount) * dq as real) / quantity as real, dq, amount)
  }

  /** Group mode: the money taken off the line is the modifier's per-unit
      discount times its covered units, and it is the covered value less
      the discounted value. */
  lemma GroupLineReduction(price: real, quantity: int, dq: int, discounted: real)
    requires quantity != 0 && dq != 0
    ensures var o := GroupLine(price, quantity, dq, discounted);
      && (price - o.price) * quantity as real == o.discountPerUnit * dq as real
      && (price - o.price) * quantity as real == price * dq as real - discounted
  {
    var o := GroupLine(price, quantity, dq, discounted);
    var q, d := quantity as real, dq as real;
    assert o.price * q == price * (q - d) + discounted;
    assert o.discountPerUnit * d == price * d - discounted;
  }

  /** Group mode: with a discounted value between zero and the covered
      value, the new unit price and the per-unit discount both lie between
      zero and the old price. */
  lemma GroupLineBounds(price: real, quantity: int, dq: int, discounted: real)
    requires price >= 0.0 && 1 <= dq <= quantity
    requires 0.0 <= discounted <= price * dq as real
    ensures var o := GroupLine(price, quantity, dq, discounted);
      && 0.0 <= o.price <= price
      && 0.0 <= o.discountPerUnit <= price
  {
    var o := GroupLine(price, quantity, dq, discounted);
    var q, d := quantity as real, dq as real;
    assert price * (q - d) >= 0.0;
    assert o.price * q == price * (q - d) + discounted;
    assert o.price * q <= price * q;
    assert discounted / d <= price;
  }

  /** Individual mode: the modifier records the amount as given, and the
      money taken off the line is the part of the amount the price can
      absorb, times the covered units. */
  lemma IndividualLineReduction(price: real, quantity: int, dq: int, amount: real)
    requires quantity != 0
    ensures var o := IndividualLine(price, quantity, dq, amount);
      && o.discountPerUnit == amount
      && (price - o.price) * quantity as real == Min(amount, price) * dq as real
  {
    var o := IndividualLine(price, quantity, dq, amount);
    var q, d := quantity as real, dq as real;
    assert o.price * q == price * (q - d) + Max(0.0, price - amount) * d;
    assert price - Max(0.0, price - amount) == Min(amount, price);
  }

  /** Individual mode: for a non-negative amount the new unit price is a
      weighted average lying between the discounted unit price and the old
      price. */
  lemma IndividualLineBounds(price: real, quantity: int, dq: int, amount: real)
    requires price >= 0.0 && amount >= 0.0 && 1 <= dq <= quantity
    ensures var o := IndividualLine(price, quantity, dq, amount);
      Max(0.0, price - amount) <= o.price <= price
  {
    var low := Max(0.0, price - amount);
    WeightedAverage(low, price, quantity as real, dq as real);
  }

  /** An average of `q` units, `q - d` of them worth `high` and `d` worth
      `low`, lies between the two. */
  lemma WeightedAverage(low: real, high: real, q: real, d: real)
    requires low <= high && 0.0 < d <= q
    ensures low <= (high * (q - d) + low * d) / q <= high
  {
    var x := high * (q - d) + low * d;
    var t := (high - low) * (q - d);
    var u := (high - low) * d;
    assert t >= 0.0 && u >= 0.0;
    assert x == low * q + t;
    assert x == high * q - u;
    var r := x / q;
    assert r * q == x;
  }

  // ---------------------------------------------------------------------
  // Whole-bundle outcomes

  /** The group-mode outcome of every line, given each line's covered
      units and the starting pool. */
  function GroupOutcomes(prices: seq<real>, qtys: seq<int>, dqs: seq<int>, pool: real): (os: seq<LineOutcome>)
    requires |prices| == |qtys| == |dqs|
    requires forall i :: 0 <= i < |qtys| ==> qtys[i] != 0 && dqs[i] != 0
    ensures |os| == |qtys|
  {
    var ds := DiscountedValues(pool, LineTotals(prices, dqs));
    seq(|qtys|, i requires 0 <= i < |qtys| => GroupLine(prices[i], qtys[i], dqs[i], ds[i]))
  }

  /** The individual-mode outcome of every line, given each line's covered
      units and its per-unit amount. */
  function IndividualOutcomes(prices: seq<real>, qtys: seq<int>, dqs: seq<int>, amounts: seq<real>): (os: seq<LineOutcome>)
    requires |prices| == |qtys| == |dqs| == |amounts|
    requires forall i :: 0 <= i < |qtys| ==> qtys[i] != 0
    ensures |os| == |qtys|
  {
    seq(|qtys|, i requires 0 <= i < |qtys| => IndividualLine(prices[i], qtys[i], dqs[i], amounts[i]))
  }

  /** The money a set of outcomes takes off the lines. */
  function Reductions(prices: seq<real>, qtys: seq<int>, os: seq<LineOutcome>): (rs: seq<real>)
    requires |prices| == |qtys| == |os|
    ensures |rs| == |prices|
    ensures forall i :: 0 <= i < |rs| ==> rs[i] == (prices[i] - os[i].price) * qtys[i] as real
  {
    seq(|prices|, i requires 0 <= i < |prices| => (prices[i] - os[i].price) * qtys[i] as real)
  }

  lemma {:induction false} SumRealDifference(a: seq<real>, b: seq<real>, c: seq<real>)
    requires |a| == |b| == |c|
    requires forall i :: 0 <= i < |a| ==> a[i] == b[i] - c[i]
    ensures SumReal(a) == SumReal(b) - SumReal(c)
  {
    if a != [] {
      var n := |a|;
      SumRealDifference(a[..n - 1], b[..n - 1], c[..n - 1]);
    }
  }

  /** Covered values of lines with non-negative prices are non-negative. */
  lemma LineTotalsNonNegative(prices: seq<real>, dqs: seq<int>)
    requires |prices| == |dqs|
    requires forall i :: 0 <= i < |prices| ==> prices[i] >= 0.0 && dqs[i] >= 0
    ensures forall i :: 0 <= i < |prices| ==> LineTotals(prices, dqs)[i] >= 0.0
  {
    var totals := LineTotals(prices, dqs);
    forall i | 0 <= i < |prices|
      ensures totals[i] >= 0.0
    {
      assert totals[i] == prices[i] * dqs[i] as real;
    }
  }

  /** Line `i` of the group-mode walk over a whole bundle: its new price lies
      between zero and its old price, and it loses its covered value less
      its discounted value. */
  lemma GroupBundleLine(prices: seq<real>, qtys: seq<int>, dqs: seq<int>, pool: real, i: nat)
    requires |prices| == |qtys| == |dqs| && i < |qtys|
    requires forall i :: 0 <= i < |qtys| ==> 1 <= dqs[i] <= qtys[i]
    requires pool >= 0.0 && forall i :: 0 <= i < |prices| ==> prices[i] >= 0.0
    ensures 0.0 <= GroupOutcomes(prices, qtys, dqs, pool)[i].price <= prices[i]
    ensures (prices[i] - GroupOutcomes(prices, qtys, dqs, pool)[i].price) * qtys[i] as real
      == LineTotals(prices, dqs)[i] - DiscountedValues(pool, LineTotals(prices, dqs))[i]
  {
    var totals := LineTotals(prices, dqs);
    var ds := DiscountedValues(pool, totals);
    LineTotalsNonNegative(prices, dqs);
    PoolWalkBounds(pool, totals);
    assert 0.0 <= ds[i] <= totals[i];
    GroupLineBounds(prices[i], qtys[i], dqs[i], ds[i]);
    GroupLineReduction(prices[i], qtys[i], dqs[i], ds[i]);
  }

  /** Group mode on a whole bundle with non-negative prices and pool: each
      line's new price lies between zero and its old price, and the bundle
      as a whole loses exactly the smaller of the pool and its covered
      value. */
  lemma GroupBundleTotal(prices: seq<real>, qtys: seq<int>, dqs: seq<int>, pool: real)
    requires |prices| == |qtys| == |dqs|
    requires forall i :: 0 <= i < |qtys| ==> 1 <= dqs[i] <= qtys[i]
    requires pool >= 0.0 && forall i :: 0 <= i < |prices| ==> prices[i] >= 0.0
    ensures forall i :: 0 <= i < |qtys| ==> 0.0 <= GroupOutcomes(prices, qtys, dqs, pool)[i].price <= prices[i]
    ensures SumReal(Reductions(prices, qtys, GroupOutcomes(prices, qtys, dqs, pool))) == Min(pool, SumReal(LineTotals(prices, dqs)))
  {
    var totals := LineTotals(prices, dqs);
    var ds := DiscountedValues(pool, totals);
    var os := GroupOutcomes(prices, qtys, dqs, pool);
    var rs := Reductions(prices, qtys, os);
    LineTotalsNonNegative(prices, dqs);
    PoolWalkRemoves(pool, totals);
    forall i | 0 <= i < |qtys|
      ensures 0.0 <= os[i].price <= prices[i]
      ensures rs[i] == totals[i] - ds[i]
    {
      GroupBundleLine(prices, qtys, dqs, pool, i);
    }
    SumRealDifference(rs, totals, ds);
  }

  /** Line `i` of the individual mode over a whole bundle: its modifier
      records the amount and its covered units, and it loses the part of the
      amount its price can absorb on each covered unit. */
  lemma IndividualBundleLine(prices: seq<real>, qtys: seq<int>, dqs: seq<int>, amounts: seq<real>, i: nat)
    requires |prices| == |qtys| == |dqs| == |amounts| && i < |qtys|
    requires forall i :: 0 <= i < |qtys| ==> qtys[i] != 0
    ensures IndividualOutcomes(prices, qtys, dqs, amounts)[i].discountPerUnit == amounts[i]
    ensures IndividualOutcomes(prices, qtys, dqs, amounts)[i].modifyQuantity == dqs[i]
    ensures (prices[i] - IndividualOutcomes(prices, qtys, dqs, amounts)[i].price) * qtys[i] as real
      == Min(amounts[i], prices[i]) * dqs[i] as real
  {
    IndividualLineReduction(prices[i], qtys[i], dqs[i], amounts[i]);
  }

  /** Individual mode on a whole bundle: the modifiers record the amounts as
      given, and every line is taken down by the part of its amount its
      price can absorb, on its covered units only. */
  lemma IndividualBundleLines(prices: seq<real>, qtys: seq<int>, dqs: seq<int>, amounts: seq<real>)
    requires |prices| == |qtys| == |dqs| == |amounts|
    requires forall i :: 0 <= i < |qtys| ==> qtys[i] != 0
    ensures forall i :: 0 <= i < |qtys| ==>
      && IndividualOutcomes(prices, qtys, dqs, amounts)[i].discountPerUnit == amounts[i]
      && IndividualOutcomes(prices, qtys, dqs, amounts)[i].modifyQuantity == dqs[i]
      && Reductions(prices, qtys, IndividualOutcomes(prices, qtys, dqs, amounts))[i] == Min(amounts[i], prices[i]) * dqs[i] as real
  {
    var os := IndividualOutcomes(prices, qtys, dqs, amounts);
    var rs := Reductions(prices, qtys, os);
    forall i | 0 <= i < |qtys|
      ensures os[i].discountPerUnit == amounts[i] && os[i].modifyQuantity == dqs[i]
      ensures rs[i] == Min(amounts[i], prices[i]) * dqs[i] as real
    {
      IndividualBundleLine(prices, qtys, dqs, amounts, i);
    }
  }

  /** Two lines of one unit each at 10 and 20, a purchase quantity of two
      and a flat bundle price of 24: the pool of 6 makes the first line 4
      and leaves the second at 20. */
  lemma FlatBundleExample()
    ensures DiscountableQuantities([1, 1], 2) == [1, 1]
    ensures GroupOutcomes([10.0, 20.0], [1, 1], [1, 1], GroupPool(30.0, 24.0, true))
      == [LineOutcome(4.0, 1, 6.0), LineOutcome(20.0, 1, 0.0)]
  {
    var dqs := DiscountableQuantities([1, 1], 2);
    assert [1, 1][..1] == [1] && [1, 1][..2] == [1, 1];
    assert [1][..0] == [] && [1, 1][..1] == [1];
    assert dqs == [1, 1];
    var totals := LineTotals([10.0, 20.0], dqs);
    assert totals == [10.0, 20.0];
    assert totals[..1] == [10.0] && [10.0][..0] == [];
    assert DiscountedValues(6.0, totals) == [4.0, 20.0];
  }
}
