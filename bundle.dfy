/** The "product bundle" pricing rule: it picks cart lines, in cart order,
    until their quantities reach the rule's purchase quantity, proposes an
    adjustment when they do, and then discounts the covered units, either
    as one group (a pooled amount spread line by line) or line by line. */
module ProductBundle {
  import opened Common
  import opened Catalog
  import opened Cart
  import opened BundleMath

  /** A rule condition; its evaluation belongs to the rule base class and
      is not part of this model, only whether any are configured. */
  datatype Condition = Condition(kind: string, comparation: string, value: string)

  /** The rule's configuration. An unset or zero `buy_quantity` is None or
      Some(0); an unset `for_group` is None. */
  datatype BundleRule = BundleRule(
    id: string,
    pricingType: string,
    pricingValue: real,
    maximumAdjustment: real,
    buyQuantity: Option<int>,
    forGroup: Option<bool>,
    conditions: seq<Condition>)

  /** A proposal: the rule and the lines it would discount. */
  datatype Adjustment = Adjustment(rule: BundleRule, discountableItems: seq<CartItem>)

  /** `can_apply_adjustment(product, null, 'any', key)` of the rule base
      class, which is not part of this model. */
  type CanApply = (Product, string) -> bool

  /** `get_purchase_quantity`: the configured quantity, and 1 when it is
      empty. It is never zero. */
  function PurchaseQuantity(rule: BundleRule): (r: int)
    ensures r != 0
    ensures rule.buyQuantity.Some? && rule.buyQuantity.value != 0 ==> r == rule.buyQuantity.value
    ensures rule.buyQuantity.None? || rule.buyQuantity.value == 0 ==> r == 1
  {
    match rule.buyQuantity
    case Some(q) => if q != 0 then q else 1
    case None => 1
  }

  /** `for_group`: group mode only when the flag is set and true. */
  function ForGroup(rule: BundleRule): (r: bool)
    ensures r <==> rule.forGroup == Some(true)
  {
    rule.forGroup.Some? && rule.forGroup.value
  }

  /** Total quantity of some lines. */
  function TotalQuantity(items: seq<CartItem>): int
  {
    Sum(Quantities(items))
  }

  // ---------------------------------------------------------------------
  // Selecting the discountable lines

  /** The lines the greedy selector takes from `items` when `acc` units
      are already taken: it stops as soon as `acc` reaches the purchase
      quantity, skips lines the rule does not apply to, and takes whole
      lines. */
  function Selection(items: seq<CartItem>, purchase: int, canApply: CanApply, acc: int): seq<CartItem>
    decreases |items|
  {
    if items == [] || acc >= purchase then []
    else if canApply(items[0].product, items[0].key) then
      [items[0]] + Selection(items[1..], purchase, canApply, acc + items[0].quantity)
    else Selection(items[1..], purchase, canApply, acc)
  }

  /** `discountable_items_filter`. */
  method DiscountableItemsFilter(items: seq<CartItem>, purchase: int, canApply: CanApply) returns (filtered: seq<CartItem>)
    ensures filtered == Selection(items, purchase, canApply, 0)
  {
    var acc := 0;
    filtered := [];
    var i := 0;
    while i < |items|
      invariant 0 <= i <= |items|
      invariant filtered + Selection(items[i..], purchase, canApply, acc) == Selection(items, purchase, canApply, 0)
    {
      if acc >= purchase {
        break;
      }
      var item := items[i];
      assert items[i..][1..] == items[i + 1..];
      if canApply(item.product, item.key) {
        acc := acc + item.quantity;
        filtered := filtered + [item];
      }
      i := i + 1;
    }
  }

  /** `a` is `b` with some elements left out, order kept. */
  predicate IsSubsequence(a: seq<CartItem>, b: seq<CartItem>)
    decreases |b|
  {
    if a == [] then true
    else if b == [] then false
    else (a[0] == b[0] && IsSubsequence(a[1..], b[1..])) || IsSubsequence(a, b[1..])
  }

  /** The selection keeps cart order and holds only lines the rule applies
      to. */
  lemma {:induction false} SelectionInOrder(items: seq<CartItem>, purchase: int, canApply: CanApply, acc: int)
    ensures var sel := Selection(items, purchase, canApply, acc);
      && IsSubsequence(sel, items)
      && forall it :: it in sel ==> it in items && canApply(it.product, it.key)
    decreases |items|
  {
    if items != [] && acc < purchase {
      var rest := items[1..];
      if canApply(items[0].product, items[0].key) {
        var tail := Selection(rest, purchase, canApply, acc + items[0].quantity);
        SelectionInOrder(rest, purchase, canApply, acc + items[0].quantity);
        assert ([items[0]] + tail)[1..] == tail;
      } else {
        SelectionInOrder(rest, purchase, canApply, acc);
      }
    }
  }

  /** Every selected line was taken while the running total was still
      below the purchase quantity. */
  lemma {:induction false} SelectionBelowThreshold(items: seq<CartItem>, purchase: int, canApply: CanApply, acc: int)
    ensures forall j :: 0 <= j < |Selection(items, purchase, canApply, acc)| ==>
      acc + TotalQuantity(Selection(items, purchase, canApply, acc)[..j]) < purchase
    decreases |items|
  {
    var sel := Selection(items, purchase, canApply, acc);
    if items != [] && acc < purchase {
      var x, rest := items[0], items[1..];
      var taken := canApply(x.product, x.key);
      var acc' := if taken then acc + x.quantity else acc;
      var tail := Selection(rest, purchase, canApply, acc');
      SelectionBelowThreshold(rest, purchase, canApply, acc');
      assert sel == if taken then [x] + tail else tail;
      forall j | 0 <= j < |sel|
        ensures acc + TotalQuantity(sel[..j]) < purchase
      {
        if !taken {
          assert acc + TotalQuantity(tail[..j]) < purchase;
        } else if j > 0 {
          assert acc' + TotalQuantity(tail[..j - 1]) < purchase;
          assert sel[..j] == [x] + tail[..j - 1];
          assert Quantities([x] + tail[..j - 1]) == [x.quantity] + Quantities(tail[..j - 1]);
          SumPrepend(x.quantity, Quantities(tail[..j - 1]));
        } else {
          assert Quantities(sel[..0]) == [];
        }
      }
    }
  }

  /** The lines of `items` the rule applies to. */
  function ApplicableLines(items: seq<CartItem>, canApply: CanApply): seq<CartItem>
  {
    if items == [] then []
    else if canApply(items[0].product, items[0].key) then [items[0]] + ApplicableLines(items[1..], canApply)
    else ApplicableLines(items[1..], canApply)
  }

  /** A selection that stays below the purchase quantity took every line
      the rule applies to: the selector only stops early on success. */
  lemma {:induction false} SelectionShortTakesAll(items: seq<CartItem>, purchase: int, canApply: CanApply, acc: int)
    requires forall it :: it in items ==> it.quantity >= 0
    ensures var sel := Selection(items, purchase, canApply, acc);
      acc + TotalQuantity(sel) < purchase ==> sel == ApplicableLines(items, canApply)
    decreases |items|
  {
    var sel := Selection(items, purchase, canApply, acc);
    if items != [] {
      var rest := items[1..];
      assert forall it :: it in rest ==> it in items;
      if acc >= purchase {
        assert sel == [];
        assert Quantities(sel) == [];
      } else if canApply(items[0].product, items[0].key) {
        var x := items[0];
        var tail := Selection(rest, purchase, canApply, acc + x.quantity);
        SelectionShortTakesAll(rest, purchase, canApply, acc + x.quantity);
        assert Quantities(sel) == [x.quantity] + Quantities(tail);
        SumPrepend(x.quantity, Quantities(tail));
      } else {
        SelectionShortTakesAll(rest, purchase, canApply, acc);
      }
    }
  }

  /** The selection is a prefix of the applicable lines: the selector
      never passes over an applicable line, it only stops early. */
  lemma {:induction false} SelectionIsPrefix(items: seq<CartItem>, purchase: int, canApply: CanApply, acc: int)
    ensures var sel := Selection(items, purchase, canApply, acc);
      |sel| <= |ApplicableLines(items, canApply)| && sel == ApplicableLines(items, canApply)[..|sel|]
    decreases |items|
  {
    if items != [] && acc < purchase {
      if canApply(items[0].product, items[0].key) {
        SelectionIsPrefix(items[1..], purchase, canApply, acc + items[0].quantity);
      } else {
        SelectionIsPrefix(items[1..], purchase, canApply, acc);
      }
    }
  }

  /** `create_possible_adjustment_from_cart`: no proposal when the
      selection is empty or falls short of the purchase quantity, else the
      rule with the selection. Nothing in the cart changes either way. */
  method CreatePossibleAdjustment(rule: BundleRule, items: seq<CartItem>, canApply: CanApply) returns (r: Option<Adjustment>)
    ensures var sel := Selection(items, PurchaseQuantity(rule), canApply, 0);
      && (r.None? <==> sel == [] || TotalQuantity(sel) < PurchaseQuantity(rule))
      && (r.Some? ==> r.value == Adjustment(rule, sel))
  {
    var purchase := PurchaseQuantity(rule);
    var discountable := DiscountableItemsFilter(items, purchase, canApply);
    var count := TotalQuantity(discountable);
    if purchase > count {
      return None;
    }
    if discountable == [] {
      return None;
    }
    return Some(Adjustment(rule, discountable));
  }

  /** An accepted proposal over cart lines of positive quantity is a
      bundle: the lines before the last stay below the purchase quantity
      and all of them reach it, so the partition and price lemmas apply. */
  lemma ProposalIsBundle(rule: BundleRule, items: seq<CartItem>, canApply: CanApply)
    requires forall it :: it in items ==> it.quantity >= 1
    ensures var sel := Selection(items, PurchaseQuantity(rule), canApply, 0);
      sel != [] && TotalQuantity(sel) >= PurchaseQuantity(rule) ==>
        IsBundleSelection(Quantities(sel), PurchaseQuantity(rule))
  {
    var purchase := PurchaseQuantity(rule);
    var sel := Selection(items, purchase, canApply, 0);
    SelectionInOrder(items, purchase, canApply, 0);
    SelectionBelowThreshold(items, purchase, canApply, 0);
    if sel != [] {
      var n := |sel|;
      assert Quantities(sel)[..n - 1] == Quantities(sel[..n - 1]);
      assert forall i :: 0 <= i < n ==> sel[i] in sel;
    }
  }

  // ---------------------------------------------------------------------
  // Discounting the bundle

  /** `calculate_total_discountable_items_price`: the value of the covered
      units of every line. */
  method CalculateTotalDiscountableItemsPrice(items: seq<CartItem>, purchase: int) returns (total: real)
    ensures total == SumReal(LineTotals(Prices(items), DiscountableQuantities(Quantities(items), purchase)))
  {
    ghost var qtys := Quantities(items);
    ghost var dqs := DiscountableQuantities(qtys, purchase);
    ghost var totals := LineTotals(Prices(items), dqs);
    var remain := purchase;
    total := 0.0;
    var i := 0;
    while i < |items|
      invariant 0 <= i <= |items|
      invariant remain == purchase - Sum(qtys[..i])
      invariant total == SumReal(totals[..i])
    {
      var item := items[i];
      assert qtys[i] == item.quantity;
      CoveredStep(qtys, purchase, i, remain);
      remain := remain - item.quantity;
      assert totals[..i + 1][..i] == totals[..i];
      assert totals[i] == LineValue(item.price, Covered(item.quantity, remain));
      assert SumReal(totals[..i + 1]) == SumReal(totals[..i]) + totals[i];
      if remain >= 0 {
        total := total + LineValue(item.price, item.quantity);
      } else {
        total := total + LineValue(item.price, item.quantity + remain);
      }
      i := i + 1;
    }
    assert totals[..i] == totals;
  }

  /** Group mode on a bundle: the pool walked over the covered values. */
  function GroupPlan(prices: seq<real>, qtys: seq<int>, purchase: int, pool: real): (os: seq<LineOutcome>)
    requires |prices| == |qtys| && IsBundleSelection(qtys, purchase)
    ensures |os| == |qtys|
  {
    CoveredPositive(qtys, purchase);
    GroupOutcomes(prices, qtys, DiscountableQuantities(qtys, purchase), pool)
  }

  /** Individual mode on a bundle: every line with its own amount. */
  function IndividualPlan(prices: seq<real>, qtys: seq<int>, purchase: int, amounts: seq<real>): (os: seq<LineOutcome>)
    requires |prices| == |qtys| == |amounts| && IsBundleSelection(qtys, purchase)
    ensures |os| == |qtys|
  {
    IndividualOutcomes(prices, qtys, DiscountableQuantities(qtys, purchase), amounts)
  }

  /** The amount `get_discount_amount_per_item` gives every line, from
      the prices before the rule runs. */
  function Amounts(items: seq<CartItem>, prices: seq<real>, amountPerItem: (string, Product, real) -> real): (as_: seq<real>)
    requires |prices| == |items|
    ensures |as_| == |items|
    ensures forall i :: 0 <= i < |items| ==> as_[i] == amountPerItem(items[i].key, items[i].product, prices[i])
  {
    seq(|items|, i requires 0 <= i < |items| => amountPerItem(items[i].key, items[i].product, prices[i]))
  }

  /** What the rule does to every line of an accepted bundle, from the
      lines' prices before it runs. The group pool is the adjustment
      amount, or the covered value less it for flat pricing types. */
  function BundleOutcomes(rule: BundleRule, items: seq<CartItem>, prices: seq<real>,
                          calcAdjustment: (real, string, real, real) -> real,
                          isFlat: string -> bool,
                          amountPerItem: (string, Product, real) -> real): (os: seq<LineOutcome>)
    requires |prices| == |items| && IsBundleSelection(Quantities(items), PurchaseQuantity(rule))
    ensures |os| == |items|
  {
    var qtys := Quantities(items);
    var purchase := PurchaseQuantity(rule);
    if ForGroup(rule) then
      var total := SumReal(LineTotals(prices, DiscountableQuantities(qtys, purchase)));
      var adjustment := calcAdjustment(total, rule.pricingType, rule.pricingValue, rule.maximumAdjustment);
      GroupPlan(prices, qtys, purchase, GroupPool(total, adjustment, isFlat(rule.pricingType)))
    else
      IndividualPlan(prices, qtys, purchase, Amounts(items, prices, amountPerItem))
  }

  /** The modifier the rule appends to a line. */
  function ModifierFor(rule: BundleRule, o: LineOutcome, key: string): Modifier
  {
    Modifier(rule.id, o.modifyQuantity, o.discountPerUnit, key)
  }

  /** Helper for `DiscountForProductBundleItem`: in group mode the rule's
      outcome unfolds to the group plan over the pool the covered value and
      the adjustment amount give. */
  lemma GroupOutcomesOfRule(rule: BundleRule, items: seq<CartItem>, prices: seq<real>,
                            calcAdjustment: (real, string, real, real) -> real,
                            isFlat: string -> bool,
                            amountPerItem: (string, Product, real) -> real, total: real, pool: real)
    requires |prices| == |items| && IsBundleSelection(Quantities(items), PurchaseQuantity(rule))
    requires ForGroup(rule)
    requires total == SumReal(LineTotals(prices, DiscountableQuantities(Quantities(items), PurchaseQuantity(rule))))
    requires pool == GroupPool(total, calcAdjustment(total, rule.pricingType, rule.pricingValue, rule.maximumAdjustment),
                               isFlat(rule.pricingType))
    ensures BundleOutcomes(rule, items, prices, calcAdjustment, isFlat, amountPerItem)
      == GroupPlan(prices, Quantities(items), PurchaseQuantity(rule), pool)
  {
  }

  /** Helper for `DiscountForProductBundleItem`: in individual mode the
      rule's outcome unfolds to the individual plan over the lines' own
      amounts. */
  lemma IndividualOutcomesOfRule(rule: BundleRule, items: seq<CartItem>, prices: seq<real>,
                                 calcAdjustment: (real, string, real, real) -> real,
                                 isFlat: string -> bool,
                                 amountPerItem: (string, Product, real) -> real)
    requires |prices| == |items| && IsBundleSelection(Quantities(items), PurchaseQuantity(rule))
    requires !ForGroup(rule)
    ensures BundleOutcomes(rule, items, prices, calcAdjustment, isFlat, amountPerItem)
      == IndividualPlan(prices, Quantities(items), PurchaseQuantity(rule), Amounts(items, prices, amountPerItem))
  {
  }

  /** `discount_for_product_bundle_item`: every line of the bundle gets its
      new price and exactly one more modifier; no other line is touched. */
  method DiscountForProductBundleItem(rule: BundleRule, items: seq<CartItem>,
                                      calcAdjustment: (real, string, real, real) -> real,
                                      isFlat: string -> bool,
                                      amountPerItem: (string, Product, real) -> real)
    requires Distinct(items)
    requires IsBundleSelection(Quantities(items), PurchaseQuantity(rule))
    modifies items
    ensures var os := BundleOutcomes(rule, items, old(Prices(items)), calcAdjustment, isFlat, amountPerItem);
      forall i :: 0 <= i < |items| ==>
        && items[i].price == os[i].price
        && items[i].modifiers == old(items[i].modifiers) + [ModifierFor(rule, os[i], items[i].key)]
  {
    var purchase := PurchaseQuantity(rule);
    ghost var prices := Prices(items);
    ghost var os := BundleOutcomes(rule, items, prices, calcAdjustment, isFlat, amountPerItem);
    if ForGroup(rule) {
      var total := CalculateTotalDiscountableItemsPrice(items, purchase);
      var adjustment := calcAdjustment(total, rule.pricingType, rule.pricingValue, rule.maximumAdjustment);
      var remaining := if !isFlat(rule.pricingType) then adjustment else total - adjustment;
      GroupOutcomesOfRule(rule, items, prices, calcAdjustment, isFlat, amountPerItem, total, remaining);
      GroupPlanIsWalk(prices, Quantities(items), purchase, remaining);
      GroupDistribute(rule, items, purchase, remaining, prices, os);
    } else {
      ghost var amounts := Amounts(items, prices, amountPerItem);
      IndividualOutcomesOfRule(rule, items, prices, calcAdjustment, isFlat, amountPerItem);
      IndividualPlanIsWalk(prices, Quantities(items), purchase, amounts);
      IndividualDistribute(rule, items, purchase, amountPerItem, prices, amounts, os);
    }
  }

  /** One pass of the group loop, on the plan: with `left` what is left of
      the purchase quantity and `remaining` what is left of the pool before
      line `i`, the pass gives line `i` of the group plan and leaves the
      pool the plan leaves after it. */
  lemma GroupStep(prices: seq<real>, qtys: seq<int>, purchase: int, pool: real, i: nat, left: int, remaining: real)
    requires |prices| == |qtys| && IsBundleSelection(qtys, purchase) && i < |qtys|
    requires left == purchase - Sum(qtys[..i])
    requires remaining == PoolAfter(pool, LineTotals(prices, DiscountableQuantities(qtys, purchase))[..i])
    ensures left - qtys[i] == purchase - Sum(qtys[..i + 1])
    ensures qtys[i] != 0 && Covered(qtys[i], left - qtys[i]) != 0
    ensures PoolStep(remaining, LineValue(prices[i], Covered(qtys[i], left - qtys[i]))).1
      == PoolAfter(pool, LineTotals(prices, DiscountableQuantities(qtys, purchase))[..i + 1])
    ensures GroupLine(prices[i], qtys[i], Covered(qtys[i], left - qtys[i]),
                      PoolStep(remaining, LineValue(prices[i], Covered(qtys[i], left - qtys[i]))).0)
      == GroupPlan(prices, qtys, purchase, pool)[i]
  {
    var dqs := DiscountableQuantities(qtys, purchase);
    var totals := LineTotals(prices, dqs);
    CoveredStep(qtys, purchase, i, left);
    CoveredPositive(qtys, purchase);
    DiscountedValueAt(pool, totals, i);
    PoolAfterStep(pool, totals, i);
  }

  /** The group loop from line `k` on, as the source runs it: with `left`
      of the purchase quantity and `pool` of the discount pool left, line
      `k` covers `Covered(..)` units, takes its covered value out of the
      pool, and gets the group price over what the pool did not absorb. */
  predicate GroupWalk(os: seq<LineOutcome>, prices: seq<real>, qtys: seq<int>, left: int, pool: real, k: nat)
    requires |os| == |prices| == |qtys| && k <= |qtys|
    decreases |qtys| - k
  {
    k == |qtys| ||
      (var dq := Covered(qtys[k], left - qtys[k]);
       var step := PoolStep(pool, LineValue(prices[k], dq));
       && qtys[k] != 0 && dq != 0
       && os[k] == GroupLine(prices[k], qtys[k], dq, step.0)
       && GroupWalk(os, prices, qtys, left - qtys[k], step.1, k + 1))
  }

  /** The walk from line `k` is line `k`'s group outcome followed by the
      walk from line `k + 1` with the counters moved past line `k`. */
  lemma GroupWalkCons(os: seq<LineOutcome>, prices: seq<real>, qtys: seq<int>, left: int, pool: real, k: nat,
                      dq: int, step: (real, real))
    requires |os| == |prices| == |qtys| && k < |qtys|
    requires dq == Covered(qtys[k], left - qtys[k]) && step == PoolStep(pool, LineValue(prices[k], dq))
    requires qtys[k] != 0 && dq != 0 && os[k] == GroupLine(prices[k], qtys[k], dq, step.0)
    requires GroupWalk(os, prices, qtys, left - qtys[k], step.1, k + 1)
    ensures GroupWalk(os, prices, qtys, left, pool, k)
  {
  }

  /** From any line on, the group plan is what the loop computes when the
      counters hold what the lines before took. */
  lemma {:induction false} GroupPlanWalkFrom(prices: seq<real>, qtys: seq<int>, purchase: int, pool: real,
                                             k: nat, left: int, remaining: real)
    requires |prices| == |qtys| && IsBundleSelection(qtys, purchase) && k <= |qtys|
    requires left == purchase - Sum(qtys[..k])
    requires remaining == PoolAfter(pool, LineTotals(prices, DiscountableQuantities(qtys, purchase))[..k])
    ensures GroupWalk(GroupPlan(prices, qtys, purchase, pool), prices, qtys, left, remaining, k)
    decreases |qtys| - k
  {
    if k < |qtys| {
      var os := GroupPlan(prices, qtys, purchase, pool);
      var dq := Covered(qtys[k], left - qtys[k]);
      var step := PoolStep(remaining, LineValue(prices[k], dq));
      GroupStep(prices, qtys, purchase, pool, k, left, remaining);
      GroupPlanWalkFrom(prices, qtys, purchase, pool, k + 1, left - qtys[k], step.1);
      GroupWalkCons(os, prices, qtys, left, remaining, k, dq, step);
    }
  }

  /** The group plan is what the group loop computes from the whole
      purchase quantity and the whole pool. */
  lemma GroupPlanIsWalk(prices: seq<real>, qtys: seq<int>, purchase: int, pool: real)
    requires |prices| == |qtys| && IsBundleSelection(qtys, purchase)
    ensures GroupWalk(GroupPlan(prices, qtys, purchase, pool), prices, qtys, purchase, pool, 0)
  {
    assert qtys[..0] == [];
    assert LineTotals(prices, DiscountableQuantities(qtys, purchase))[..0] == [];
    GroupPlanWalkFrom(prices, qtys, purchase, pool, 0, purchase, pool);
  }

  /** One pass of the group loop: subtracts the line's quantity from what
      is left of the purchase quantity, takes the covered value out of the
      pool, and reprices the line. */
  method DiscountGroupLine(rule: BundleRule, item: CartItem, purchaseLeft: int, remaining: real)
    returns (purchaseLeft': int, remaining': real, outcome: LineOutcome)
    requires item.quantity != 0 && Covered(item.quantity, purchaseLeft - item.quantity) != 0
    modifies item
    ensures purchaseLeft' == purchaseLeft - item.quantity
    ensures remaining' == PoolStep(remaining, LineValue(old(item.price), Covered(item.quantity, purchaseLeft - item.quantity))).1
    ensures outcome == GroupLine(old(item.price), item.quantity, Covered(item.quantity, purchaseLeft - item.quantity),
                                 PoolStep(remaining, LineValue(old(item.price), Covered(item.quantity, purchaseLeft - item.quantity))).0)
    ensures item.price == outcome.price
    ensures item.modifiers == old(item.modifiers) + [ModifierFor(rule, outcome, item.key)]
  {
    var itemPrice := item.price;
    var itemQuantity := item.quantity;
    purchaseLeft' := purchaseLeft - itemQuantity;
    var dq := if purchaseLeft' >= 0 then itemQuantity else itemQuantity + purchaseLeft';
    var lineTotal := LineValue(itemPrice, dq);
    var discounted;
    remaining' := remaining;
    if remaining' > lineTotal {
      discounted := 0.0;
      remaining' := remaining' - lineTotal;
    } else {
      discounted := lineTotal - remaining';
      remaining' := 0.0;
    }
    outcome := GroupLine(itemPrice, itemQuantity, dq, discounted);
    item.SetPrice(outcome.price);
    item.AddModifier(Modifier(rule.id, dq, outcome.discountPerUnit, item.key));
  }

  /** Line `i` of the group loop, on the cart: the pass gives line `i` the
      outcome the walk has for it and moves the counters to the next line. */
  method GroupPass(rule: BundleRule, items: seq<CartItem>, i: nat, purchaseLeft: int, remaining: real,
                   ghost prices: seq<real>, ghost os: seq<LineOutcome>)
    returns (purchaseLeft': int, remaining': real)
    requires |os| == |prices| == |items| && i < |items|
    requires GroupWalk(os, prices, Quantities(items), purchaseLeft, remaining, i)
    requires items[i].price == prices[i]
    modifies items[i]
    ensures GroupWalk(os, prices, Quantities(items), purchaseLeft', remaining', i + 1)
    ensures LineDone(rule, items[i], os[i], old(items[i].modifiers))
  {
    assert Quantities(items)[i] == items[i].quantity;
    var outcome;
    purchaseLeft', remaining', outcome := DiscountGroupLine(rule, items[i], purchaseLeft, remaining);
  }

  /** Line `it` carries outcome `o`: the outcome's price, and one modifier
      for the rule after the modifiers `mods` it had before. */
  predicate LineDone(rule: BundleRule, it: CartItem, o: LineOutcome, mods: seq<Modifier>)
    reads it
  {
    it.price == o.price && it.modifiers == mods + [ModifierFor(rule, o, it.key)]
  }

  /** Line `it` still has price `price` and modifiers `mods`. */
  predicate LineUntouched(it: CartItem, price: real, mods: seq<Modifier>)
    reads it
  {
    it.price == price && it.modifiers == mods
  }

  /** The group branch: walks the pool over the lines. */
  method GroupDistribute(rule: BundleRule, items: seq<CartItem>, purchase: int, pool: real,
                          ghost prices: seq<real>, ghost os: seq<LineOutcome>)
    requires Distinct(items)
    requires |os| == |prices| == |items| && forall j :: 0 <= j < |items| ==> items[j].price == prices[j]
    requires GroupWalk(os, prices, Quantities(items), purchase, pool, 0)
    modifies items
    ensures forall i :: 0 <= i < |items| ==>
      && items[i].price == os[i].price
      && items[i].modifiers == old(items[i].modifiers) + [ModifierFor(rule, os[i], items[i].key)]
  {
    ghost var mods := ModifierLists(items);
    var purchaseLeft := purchase;
    var remaining := pool;
    var i := 0;
    while i < |items|
      invariant 0 <= i <= |items|
      invariant GroupWalk(os, prices, Quantities(items), purchaseLeft, remaining, i)
      invariant forall j :: 0 <= j < i ==> LineDone(rule, items[j], os[j], mods[j])
      invariant forall j :: i <= j < |items| ==> LineUntouched(items[j], prices[j], mods[j])
    {
      label Before:
      purchaseLeft, remaining := GroupPass(rule, items, i, purchaseLeft, remaining, prices, os);
      forall j | 0 <= j < |items| && j != i
        ensures items[j].price == old@Before(items[j].price) && items[j].modifiers == old@Before(items[j].modifiers)
      {
        assert items[j] != items[i];
      }
      i := i + 1;
    }
  }

  /** One pass of the individual loop, on the plan: with `left` what is
      left of the purchase quantity before line `i`, the pass gives line `i`
      of the individual plan. */
  lemma IndividualStep(prices: seq<real>, qtys: seq<int>, purchase: int, amounts: seq<real>, i: nat, left: int)
    requires |prices| == |qtys| == |amounts| && IsBundleSelection(qtys, purchase) && i < |qtys|
    requires left == purchase - Sum(qtys[..i])
    ensures left - qtys[i] == purchase - Sum(qtys[..i + 1])
    ensures qtys[i] != 0
    ensures IndividualLine(prices[i], qtys[i], Covered(qtys[i], left - qtys[i]), amounts[i])
      == IndividualPlan(prices, qtys, purchase, amounts)[i]
  {
    CoveredStep(qtys, purchase, i, left);
    CoveredPositive(qtys, purchase);
  }

  /** The individual loop from line `k` on, as the source runs it: with
      `left` of the purchase quantity left, line `k` covers `Covered(..)`
      units and gets the individual price for its own amount. */
  predicate IndividualWalk(os: seq<LineOutcome>, prices: seq<real>, qtys: seq<int>, amounts: seq<real>, left: int, k: nat)
    requires |os| == |prices| == |qtys| == |amounts| && k <= |qtys|
    decreases |qtys| - k
  {
    k == |qtys| ||
      (&& qtys[k] != 0
       && os[k] == IndividualLine(prices[k], qtys[k], Covered(qtys[k], left - qtys[k]), amounts[k])
       && IndividualWalk(os, prices, qtys, amounts, left - qtys[k], k + 1))
  }

  /** From any line on, the individual plan is what the loop computes when
      the counter holds what the lines before took. */
  lemma {:induction false} IndividualPlanWalkFrom(prices: seq<real>, qtys: seq<int>, purchase: int, amounts: seq<real>,
                                                  k: nat, left: int)
    requires |prices| == |qtys| == |amounts| && IsBundleSelection(qtys, purchase) && k <= |qtys|
    requires left == purchase - Sum(qtys[..k])
    ensures IndividualWalk(IndividualPlan(prices, qtys, purchase, amounts), prices, qtys, amounts, left, k)
    decreases |qtys| - k
  {
    if k < |qtys| {
      IndividualStep(prices, qtys, purchase, amounts, k, left);
      IndividualPlanWalkFrom(prices, qtys, purchase, amounts, k + 1, left - qtys[k]);
    }
  }

  /** The individual plan is what the individual loop computes from the
      whole purchase quantity. */
  lemma IndividualPlanIsWalk(prices: seq<real>, qtys: seq<int>, purchase: int, amounts: seq<real>)
    requires |prices| == |qtys| == |amounts| && IsBundleSelection(qtys, purchase)
    ensures IndividualWalk(IndividualPlan(prices, qtys, purchase, amounts), prices, qtys, amounts, purchase, 0)
  {
    assert qtys[..0] == [];
    IndividualPlanWalkFrom(prices, qtys, purchase, amounts, 0, purchase);
  }

  /** One pass of the individual loop: line `i`'s covered units lose its
      amount, never going below zero, which is line `i` of the walk. */
  method DiscountIndividualLine(rule: BundleRule, items: seq<CartItem>, i: nat, purchaseLeft: int,
                                amountPerItem: (string, Product, real) -> real,
                                ghost prices: seq<real>, ghost amounts: seq<real>, ghost os: seq<LineOutcome>)
    returns (purchaseLeft': int)
    requires |os| == |prices| == |amounts| == |items| && i < |items|
    requires IndividualWalk(os, prices, Quantities(items), amounts, purchaseLeft, i)
    requires items[i].price == prices[i] && amounts[i] == amountPerItem(items[i].key, items[i].product, prices[i])
    modifies items[i]
    ensures purchaseLeft' == purchaseLeft - items[i].quantity
    ensures IndividualWalk(os, prices, Quantities(items), amounts, purchaseLeft', i + 1)
    ensures items[i].price == os[i].price
    ensures items[i].modifiers == old(items[i].modifiers) + [ModifierFor(rule, os[i], items[i].key)]
    ensures LineDone(rule, items[i], os[i], old(items[i].modifiers))
  {
    assert Quantities(items)[i] == items[i].quantity;
    var item := items[i];
    var discountAmount := amountPerItem(item.key, item.product, item.price);
    var itemPrice := item.price;
    var itemQuantity := item.quantity;
    purchaseLeft' := purchaseLeft - itemQuantity;
    var dq := if purchaseLeft' >= 0 then itemQuantity else itemQuantity + purchaseLeft';
    var outcome := IndividualLine(itemPrice, itemQuantity, dq, discountAmount);
    assert outcome == os[i];
    item.SetPrice(outcome.price);
    item.AddModifier(Modifier(rule.id, dq, discountAmount, item.key));
  }

  /** The individual branch: each line's covered units lose the line's own
      amount, never going below zero. */
  method IndividualDistribute(rule: BundleRule, items: seq<CartItem>, purchase: int,
                              amountPerItem: (string, Product, real) -> real,
                              ghost prices: seq<real>, ghost amounts: seq<real>, ghost os: seq<LineOutcome>)
    requires Distinct(items)
    requires |os| == |prices| == |amounts| == |items|
    requires forall j :: 0 <= j < |items| ==>
      items[j].price == prices[j] && amounts[j] == amountPerItem(items[j].key, items[j].product, prices[j])
    requires IndividualWalk(os, prices, Quantities(items), amounts, purchase, 0)
    modifies items
    ensures forall i :: 0 <= i < |items| ==>
      && items[i].price == os[i].price
      && items[i].modifiers == old(items[i].modifiers) + [ModifierFor(rule, os[i], items[i].key)]
  {
    ghost var mods := ModifierLists(items);
    var purchaseLeft := purchase;
    var i := 0;
    while i < |items|
      invariant 0 <= i <= |items|
      invariant IndividualWalk(os, prices, Quantities(items), amounts, purchaseLeft, i)
      invariant forall j :: 0 <= j < i ==> LineDone(rule, items[j], os[j], mods[j])
      invariant forall j :: i <= j < |items| ==> LineUntouched(items[j], prices[j], mods[j])
    {
      label Before:
      purchaseLeft := DiscountIndividualLine(rule, items, i, purchaseLeft, amountPerItem, prices, amounts, os);
      forall j | 0 <= j < |items| && j != i
        ensures items[j].price == old@Before(items[j].price) && items[j].modifiers == old@Before(items[j].modifiers)
      {
        assert items[j] != items[i];
      }
      i := i + 1;
    }
  }

  // ---------------------------------------------------------------------
  // Discount descriptors and encouragements

  /** The discount descriptor the rule reports: pricing value, pricing type
      and maximum adjustment amount. */
  datatype DiscountInfo = DiscountInfo(pricingValue: real, pricingType: string, maximum: real)

  /** `get_max_discount`: the rule's configured pricing, whatever the
      product. */
  function GetMaxDiscount(rule: BundleRule, product: Product): (r: DiscountInfo)
    ensures r.pricingValue == rule.pricingValue && r.pricingType == rule.pricingType
    ensures r.maximum == rule.maximumAdjustment
  {
    DiscountInfo(rule.pricingValue, rule.pricingType, rule.maximumAdjustment)
  }

  /** `get_min_discount`: a rule with conditions may not apply at all, so
      its least discount is a zero fixed discount; without conditions it is
      the maximum discount. */
  function GetMinDiscount(rule: BundleRule, product: Product): (r: DiscountInfo)
    ensures rule.conditions != [] ==> r == DiscountInfo(0.0, "fixed_discount", 0.0)
    ensures rule.conditions == [] ==> r == GetMaxDiscount(rule, product)
  {
    if rule.conditions != [] then DiscountInfo(0.0, "fixed_discount", 0.0)
    else DiscountInfo(rule.pricingValue, rule.pricingType, rule.maximumAdjustment)
  }

  /** The encouragement the rule offers: the line it is about, the rule, and
      the encouragements its conditions produced. */
  datatype Encouragement = Encouragement(item: CartItem, rule: BundleRule, conditionsEncouragements: seq<string>)

  /** A line is within the scope of the product asked about: any line when
      no product is given, a line of one of its variations for a variable
      product, otherwise a line of that very product. */
  predicate InScope(item: CartItem, product: Option<Product>)
  {
    product.None?
    || (if IsVariableProduct(product.value) then item.product.id in product.value.children
        else product.value.id == item.product.id)
  }

  /** A line the rule can encourage: not an extra line, in scope, and one
      the rule's filters accept. */
  predicate Encourages(item: CartItem, product: Option<Product>, canApply: CanApply)
  {
    !item.isExtra && InScope(item, product) && canApply(item.product, item.key)
  }

  /** The index of the first line the rule can encourage, if any. */
  function FirstEncouraged(items: seq<CartItem>, product: Option<Product>, canApply: CanApply): (r: Option<nat>)
    ensures r.Some? ==> r.value < |items| && Encourages(items[r.value], product, canApply)
    ensures r.Some? ==> forall j :: 0 <= j < r.value ==> !Encourages(items[j], product, canApply)
    ensures r.None? <==> forall j :: 0 <= j < |items| ==> !Encourages(items[j], product, canApply)
  {
    if items == [] then None
    else if Encourages(items[0], product, canApply) then Some(0)
    else
      match FirstEncouraged(items[1..], product, canApply)
      case None => None
      case Some(k) => Some(k + 1)
  }

  /** `get_encouragements`: nothing when the conditions give no
      encouragement; otherwise the first line, in cart order, that the rule
      can encourage, or nothing. `conds` is what the rule's conditions give
      for the cart. */
  method GetEncouragements(rule: BundleRule, items: seq<CartItem>, product: Option<Product>,
                           canApply: CanApply, conds: seq<string>)
    returns (r: Option<Encouragement>)
    ensures conds == [] ==> r.None?
    ensures conds != [] ==>
      r == (match FirstEncouraged(items, product, canApply)
            case None => None
            case Some(k) => Some(Encouragement(items[k], rule, conds)))
  {
    if conds == [] {
      return None;
    }
    var i := 0;
    while i < |items|
      invariant 0 <= i <= |items|
      invariant forall j :: 0 <= j < i ==> !Encourages(items[j], product, canApply)
    {
      var item := items[i];
      if item.isExtra {
        i := i + 1;
        continue;
      }
      var itemProduct := item.product;
      if product.Some? {
        if IsVariableProduct(product.value) {
          if itemProduct.id !in product.value.children {
            i := i + 1;
            continue;
          }
        } else {
          if product.value.id != itemProduct.id {
            i := i + 1;
            continue;
          }
        }
      }
      if canApply(itemProduct, item.key) {
        FirstIsFirst(items, product, canApply, i);
        return Some(Encouragement(item, rule, conds));
      }
      i := i + 1;
    }
    return None;
  }

  /** A line every earlier line of which the rule cannot encourage, and
      which it can, is the first one. */
  lemma FirstIsFirst(items: seq<CartItem>, product: Option<Product>, canApply: CanApply, i: nat)
    requires i < |items| && Encourages(items[i], product, canApply)
    requires forall j :: 0 <= j < i ==> !Encourages(items[j], product, canApply)
    ensures FirstEncouraged(items, product, canApply) == Some(i)
  {
  }
}
