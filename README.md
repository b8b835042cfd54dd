# YayPricing product bundle engine in Dafny

This project models the rule-matching and discount-distribution engine behind
the "product bundle" pricing rule of the YayPricing WooCommerce plugin, and the
helper logic it relies on:

- **Bundle rule** (`ProductBundle`, `BundleMath`). Covers:
  - the purchase-quantity threshold;
  - the greedy, order-stable selection of eligible cart lines;
  - the adjustment proposal;
  - the left-to-right split of the threshold over the selected lines;
  - group mode, where one pooled discount is walked down the lines;
  - individual mode, where each line gets a weighted average of discounted and normal units;
  - the min/max discount descriptors;
  - the first-match encouragement search.
- **Filter matcher** (`Helper`, `ProductHelper`, `Catalog`). Covers:
  - any/all combination of typed filters with the two global gates;
  - in-list/not-in-list checks on product ids, variation children, category and tag closures (ancestors and parent product), prices, stock and attributes.
- **Helper data operations** (`Helper`, `RgbHex`). Covers:
  - stock floored at zero;
  - in-place updates of the "extra items" quantity map;
  - `map_cases`;
  - the `get_matching_pairs` product builder;
  - cart-line sorting by price;
  - the `rgb(r, g, b)` to `#rrggbb` rewriter. Its pattern is narrower than the `rgb()` notation of CSS Color Module Level 3 (section 4.2.1):
    - it accepts decimal integer components only, with no percentages;
    - it allows whitespace only after a comma;
    - it reduces each component modulo 256 instead of clipping it to 255, so `rgb(300, 0, 0)` becomes `#2c0000`.
- **WPClever Product Bundles integration** (`WpcBundles`): removing the cart entries a bundle added.

Cart lines are a class (`Cart.CartItem`) whose price and modifier list the
distributor updates in place. Money is `real`, quantities are `int`. The
collaborators whose code is not part of this model are parameters of arrow
type:
- `can_apply_adjustment`;
- `calculate_adjustment_amount`;
- `get_discount_amount_per_item`;
- `yaydp_is_flat_pricing_type`;
- `yaydp_compare_numeric`;
- price and stock resolvers.

WordPress lookups are maps in `Catalog.Catalog`. `get_conditions_encouragements`
is its result, passed in as a list. The `apply_filters` hooks are the identity,
or `false` for the unknown-filter hook.

Modules: `Common` holds sums, `array_intersect` and `array_unique`. `Catalog`
holds products, terms, filters and settings. `Cart` holds cart lines and
modifiers. Then come `ProductHelper`, `Helper`, `RgbHex`, `BundleMath`,
`ProductBundle` and `WpcBundles`.

Two points of the code shape the model:
- **Unguarded divisions by the discountable quantity and the line
  quantity.** In `class-yaydp-product-bundle.php`, line 155 divides by the
  discountable quantity with no guard, and lines 158 and 179 divide by the
  line quantity. The selection stops as soon as the threshold is reached,
  so every line of a proposal has a discountable quantity of at least 1.
  Cart quantities of at least 1 are what keep lines 158 and 179 defined.
  The distributor therefore requires `BundleMath.IsBundleSelection` over
  lines of quantity at least 1, which every proposal meets (see
  `ProductBundle.ProposalIsBundle`).
- **`get_matching_pairs` is not a plain cartesian product.** Its `empty()` test
  restarts the product after a case with no lines, and the model keeps that
  behaviour (`Helper.EmptyCaseRestarts`).

## Model

| member | source | states |
|---|---|---|
| ProductBundle.PurchaseQuantity | includes/core/rule/product-pricing/class-yaydp-product-bundle.php:32-34 | the threshold is `buy_quantity` when set and non-zero, otherwise 1; never 0 |
| ProductBundle.ForGroup | includes/core/rule/product-pricing/class-yaydp-product-bundle.php:41-43 | group mode exactly when `for_group` is set and true |
| ProductBundle.DiscountableItemsFilter | includes/core/rule/product-pricing/class-yaydp-product-bundle.php:85-101 | the loop with `break` returns the greedy selection `Selection` (whole lines, in order, until the accumulated quantity reaches the threshold) |
| ProductBundle.SelectionInOrder | includes/core/rule/product-pricing/class-yaydp-product-bundle.php:89-98 | the selection is an in-order subsequence of the cart lines, and each selected line passes `can_apply_adjustment` |
| ProductBundle.SelectionBelowThreshold | includes/core/rule/product-pricing/class-yaydp-product-bundle.php:90-92 | before each selected line the accumulated quantity is still below the threshold, so all lines but the last sum to less than it |
| ProductBundle.SelectionIsPrefix | includes/core/rule/product-pricing/class-yaydp-product-bundle.php:89-99 | the selection is a prefix of the cart's applicable lines: no applicable line is passed over before the threshold is reached |
| ProductBundle.SelectionShortTakesAll | includes/core/rule/product-pricing/class-yaydp-product-bundle.php:89-99 | when the selection stays below the threshold it holds every applicable line of the cart |
| ProductBundle.CreatePossibleAdjustment | includes/core/rule/product-pricing/class-yaydp-product-bundle.php:52-75 | no proposal exactly when the selection is empty or its quantity is below the threshold; otherwise the proposal is the rule with the selection |
| ProductBundle.ProposalIsBundle | includes/core/rule/product-pricing/class-yaydp-product-bundle.php:63-74 | a proposal's lines (each of quantity at least 1) form a bundle selection: the threshold falls inside the last line |
| BundleMath.PartitionShape | includes/core/rule/product-pricing/class-yaydp-product-bundle.php:143-144 | in a bundle selection every line but the last is discounted in full; the last gets between 1 and its quantity; the discountable quantities sum to the threshold |
| BundleMath.CoveredPositive | includes/core/rule/product-pricing/class-yaydp-product-bundle.php:176-177 | every discountable quantity lies between 1 and the line's quantity |
| BundleMath.CoveredStep | includes/core/rule/product-pricing/class-yaydp-product-bundle.php:143-144 | decrementing the running threshold by each line's quantity yields, line by line, the discountable quantities |
| ProductBundle.CalculateTotalDiscountableItemsPrice | includes/core/rule/product-pricing/class-yaydp-product-bundle.php:196-213 | the total is the sum of price × discountable quantity over the lines |
| BundleMath.PoolWalkBounds | includes/core/rule/product-pricing/class-yaydp-product-bundle.php:147-153 | starting from a non-negative pool, each line leaves the pool non-negative and no larger than it found it, the walk ends between 0 and the start, and each discounted line value lies between 0 and the line's value |
| BundleMath.PoolWalkRemoves | includes/core/rule/product-pricing/class-yaydp-product-bundle.php:147-153 | the walk removes min(initial pool, total line value) in all, and that much leaves the pool |
| BundleMath.GroupPoolOutcome | includes/core/rule/product-pricing/class-yaydp-product-bundle.php:136-153 | flat pricing brings the discounted lines to the adjustment amount; other types take the adjustment off, capped at the bundle's value |
| BundleMath.GroupLineReduction | includes/core/rule/product-pricing/class-yaydp-product-bundle.php:155-158 | a group line loses (price − new price) × quantity = discount per unit × discountable quantity = line value − discounted value |
| BundleMath.GroupLineBounds | includes/core/rule/product-pricing/class-yaydp-product-bundle.php:155-158 | when the discounted value lies within the line's value, the new price and the per-unit discount lie in [0, price] |
| BundleMath.IndividualLineReduction | includes/core/rule/product-pricing/class-yaydp-product-bundle.php:175-183 | the modifier records the raw amount; the line loses min(amount, price) × discountable quantity |
| BundleMath.IndividualLineBounds | includes/core/rule/product-pricing/class-yaydp-product-bundle.php:175-179 | for a non-negative amount the new price lies between max(0, price − amount) and the old price |
| BundleMath.GroupBundleTotal | includes/core/rule/product-pricing/class-yaydp-product-bundle.php:136-168 | over the whole group, every new price lies in [0, old price] and the prices fall in total by min(pool, pooled line value) |
| BundleMath.IndividualBundleLines | includes/core/rule/product-pricing/class-yaydp-product-bundle.php:171-189 | every line's modifier carries its amount and discountable quantity, and the line loses min(amount, price) × discountable quantity |
| BundleMath.FlatBundleExample | includes/core/rule/product-pricing/class-yaydp-product-bundle.php:136-158 | two lines of 10 and 20 priced as a flat bundle of 24 become 4 and 20 |
| ProductBundle.DiscountGroupLine | includes/core/rule/product-pricing/class-yaydp-product-bundle.php:141-168 | one group pass: the threshold drops by the quantity, the pool steps, the line gets its new price and one appended modifier |
| ProductBundle.GroupPlanWalkFrom | includes/core/rule/product-pricing/class-yaydp-product-bundle.php:140-168 | from any line on, with the threshold and the pool holding what the earlier lines left, the line-by-line group loop yields exactly the closed-form group outcomes |
| ProductBundle.GroupPlanIsWalk | includes/core/rule/product-pricing/class-yaydp-product-bundle.php:136-168 | the group loop started from the whole threshold and the whole pool yields exactly the closed-form group outcomes |
| ProductBundle.GroupDistribute | includes/core/rule/product-pricing/class-yaydp-product-bundle.php:140-169 | every selected line gets the price the group loop gives it and exactly one appended modifier |
| ProductBundle.IndividualPlanWalkFrom | includes/core/rule/product-pricing/class-yaydp-product-bundle.php:171-188 | from any line on, with the threshold holding what the earlier lines left, the line-by-line individual loop yields exactly the closed-form individual outcomes |
| ProductBundle.IndividualPlanIsWalk | includes/core/rule/product-pricing/class-yaydp-product-bundle.php:171-188 | the individual loop started from the whole threshold yields exactly the closed-form individual outcomes |
| ProductBundle.DiscountIndividualLine | includes/core/rule/product-pricing/class-yaydp-product-bundle.php:172-188 | one individual pass: the threshold drops by the quantity, the line gets the price the individual loop gives it and one appended modifier, and the loop goes on from the next line |
| ProductBundle.IndividualDistribute | includes/core/rule/product-pricing/class-yaydp-product-bundle.php:171-189 | every selected line gets the price the individual loop gives it and exactly one appended modifier |
| ProductBundle.DiscountForProductBundleItem | includes/core/rule/product-pricing/class-yaydp-product-bundle.php:130-191 | each line of the proposal ends with the price of the rule's outcome and its old modifiers plus exactly one for this rule |
| ProductBundle.GetMaxDiscount | includes/core/rule/product-pricing/class-yaydp-product-bundle.php:244-250 | the descriptor carries the rule's pricing value, type and maximum, whatever the product |
| ProductBundle.GetMinDiscount | includes/core/rule/product-pricing/class-yaydp-product-bundle.php:222-235 | with conditions, the zero `fixed_discount` sentinel; without, the same as the maximum |
| ProductBundle.FirstEncouraged | includes/core/rule/product-pricing/class-yaydp-product-bundle.php:265-293 | the first non-extra, in-scope, applicable line, or none exactly when no line qualifies |
| ProductBundle.GetEncouragements | includes/core/rule/product-pricing/class-yaydp-product-bundle.php:260-294 | null without condition encouragements; otherwise the encouragement for the first qualifying line, or null |
| ProductBundle.FirstIsFirst | includes/core/rule/product-pricing/class-yaydp-product-bundle.php:265-291 | a qualifying line with none before it is the one found |
| Catalog.MapFilterValue | includes/helper/class-yaydp-helper.php:75-82 | the filter's values, one per entry, in order |
| Helper.CheckApplicability | includes/helper/class-yaydp-helper.php:95-149 | false when a global gate blocks the product; under "any", true iff some filter matches; otherwise true iff the list is non-empty and all filters match |
| Helper.CheckFilter | includes/helper/class-yaydp-helper.php:109-136 | dispatch by filter type; `all_product` matches, an unknown type does not |
| Helper.AllProductAdmitsEverything | includes/helper/class-yaydp-helper.php:131-133 | an `all_product` filter admits every product the gates let through |
| Helper.ApplicableBySingletons | includes/helper/class-yaydp-helper.php:138-146 | "any" over a list is some single filter; "all" is every single filter |
| Helper.RemainingProductStock | includes/helper/class-yaydp-helper.php:159-163 | max(0, stock − quantity in cart) |
| Helper.RemainingStockIncludeExtraItems | includes/helper/class-yaydp-helper.php:174-179 | the stock itself for a product without extra items; otherwise max(0, stock − extra) |
| Helper.TakenBack | includes/helper/class-yaydp-helper.php:189-195 | same keys; keys also in the current items drop by max(0, current); others are unchanged |
| Helper.PushedIn | includes/helper/class-yaydp-helper.php:206-212 | the id is added or increased by the quantity; other keys are unchanged |
| Helper.TakeBackUndoesPush | includes/helper/class-yaydp-helper.php:189-212 | taking back what was pushed restores the map (an id pushed fresh stays at 0) |
| Helper.ExtraItems.TakeBackItems | includes/helper/class-yaydp-helper.php:189-195 | the loop over the keys updates the map to `TakenBack` of the old one |
| Helper.ExtraItems.PushInItems | includes/helper/class-yaydp-helper.php:206-212 | the map becomes `PushedIn` of the old one |
| Helper.MapCases | includes/helper/class-yaydp-helper.php:221-230 | each case wrapped in a one-element list, in order |
| Helper.FlattenMapCases | includes/helper/class-yaydp-helper.php:221-230 | flattening the wrapped cases gives the cases back |
| Helper.GetMatchingPairs | includes/helper/class-yaydp-helper.php:394-430 | one entry per bought case, each the case product the nested loops build |
| Helper.CaseProductSize | includes/helper/class-yaydp-helper.php:398-425 | with no empty case, the entry has as many rows as the product of the cases' line counts |
| Helper.CaseProductMembers | includes/helper/class-yaydp-helper.php:398-425 | with no empty case, a row is in the entry iff it picks one split line of each case, in case order (carrying the case quantity and the line's bought quantity) |
| Helper.EmptyCaseRestarts | includes/helper/class-yaydp-helper.php:411-417 | after a case with no lines, the entry is that of the later cases alone |
| Helper.EmptyMiddleCaseExample | includes/helper/class-yaydp-helper.php:411-417 | an empty middle case leaves the last case's line, not an empty product |
| Helper.SortItemsByPrice | includes/helper/class-yaydp-helper.php:369-389 | the lines are a permutation of the old ones, ordered by resolved price, ascending for "asc" and descending otherwise |
| Helper.InsertIntoSorted | includes/helper/class-yaydp-helper.php:369-389 | inserting one line keeps the prefix ordered and the contents a permutation |
| RgbHex.ReplaceWellFormedToken | includes/helper/class-yaydp-helper.php:291-310 | a well-formed `rgb(r, g, b)` becomes `#` and the two lowercase hex digits of each component mod 256; the rest is rewritten on its own |
| RgbHex.ReplaceMalformedToken | includes/helper/class-yaydp-helper.php:295-298 | a token that fails the component pattern becomes the empty string |
| RgbHex.NoTokenUnchanged | includes/helper/class-yaydp-helper.php:292-306 | text where no `rgb(` starts is unchanged (with the two token lemmas: text outside the tokens is copied unchanged) |
| RgbHex.ReplaceExample | includes/helper/class-yaydp-helper.php:291-310 | `rgb(255, 0, 16)` becomes `#ff0010` |
| RgbHex.ParseRgbText | includes/helper/class-yaydp-helper.php:295 | every well-formed token matches the component pattern with its own digit strings |
| RgbHex.ParseRgbSound | includes/helper/class-yaydp-helper.php:295 | every token that matches is a well-formed token of its captures |
| RgbHex.RewriteWellFormed | includes/helper/class-yaydp-helper.php:294-305 | the callback turns a well-formed token into `#` and three two-digit low bytes |
| RgbHex.HexComponentIsLowByte | includes/helper/class-yaydp-helper.php:299-305 | the last two hex digits, zero-padded, are the two-digit hex of the value mod 256 |
| RgbHex.IntVal | includes/helper/class-yaydp-helper.php:318 | `intval` of a digit string: its value when that is at most the largest 64-bit integer, and that largest integer otherwise |
| RgbHex.FromHexToHex | includes/helper/class-yaydp-helper.php:317-320 | reading back the hex digits of `base_convert` gives the number |
| RgbHex.Hex2 | includes/helper/class-yaydp-helper.php:302-305 | two lowercase hex digits that read back as the byte |
| ProductHelper.CheckProduct | includes/helper/class-yaydp-product-helper.php:25-36 | in-list iff the filter ids meet the id or the non-empty parent id; not-in-list is the negation |
| ProductHelper.CheckProductVariation | includes/helper/class-yaydp-product-helper.php:46-55 | in-list iff the filter ids meet the id or, for variable and grouped products, a child id; not-in-list is the negation |
| ProductHelper.CheckCategory | includes/helper/class-yaydp-product-helper.php:65-71 | in-list iff some category of the product's closure is in the filter; not-in-list is the negation |
| ProductHelper.CheckTag | includes/helper/class-yaydp-product-helper.php:81-87 | in-list iff some tag of the product's closure is in the filter; not-in-list is the negation |
| ProductHelper.CheckTerms | includes/helper/class-yaydp-product-helper.php:65-87 | the shared intersection/complement shape over a term closure |
| ProductHelper.TermsWithAncestorsMembers | includes/helper/class-yaydp-product-helper.php:145-149 | the loop's terms are exactly the direct terms and their ancestors |
| ProductHelper.ProductTermsIsClosure | includes/helper/class-yaydp-product-helper.php:136-186 | the result has no duplicates and holds exactly the term closure: direct terms, their ancestors, and the parent product's closure |
| ProductHelper.GetProductTerms | includes/helper/class-yaydp-product-helper.php:136-186 | the loop-and-recursion builder returns that duplicate-free closure |
| ProductHelper.GetProductCats | includes/helper/class-yaydp-product-helper.php:136-156 | duplicate-free, and exactly the category closure |
| ProductHelper.GetProductTags | includes/helper/class-yaydp-product-helper.php:166-186 | duplicate-free, and exactly the tag closure |
| Common.ArrayIntersect | includes/helper/class-yaydp-product-helper.php:34 | a value is in the intersection iff it is in both lists |
| Common.Dedup | includes/helper/class-yaydp-product-helper.php:155 | no duplicates, and the same members |
| ProductHelper.FilterPriceBySetting | includes/helper/class-yaydp-product-helper.php:97-110 | for variable products the sale-based price is at most the regular-based one, and an empty sale price falls back to the regular price; other products use the resolved price |
| ProductHelper.CheckPrice | includes/helper/class-yaydp-product-helper.php:97-113 | the filter's comparison applied to the minimum regular price of a variable product when discounts are based on the regular price; otherwise to its minimum sale price when non-empty, else its minimum regular price; other products use the resolved price |
| ProductHelper.CheckStock | includes/helper/class-yaydp-product-helper.php:123-126 | the filter's comparison applied to the product's stock quantity |
| ProductHelper.NumericFiltersReadOneNumber | includes/helper/class-yaydp-product-helper.php:97-126 | stock filters depend on the stock quantity alone, price filters on the resolved price and the variation minimums alone |
| ProductHelper.ResolvedTerms | includes/helper/class-yaydp-product-helper.php:199-208 | exactly the terms of the ids that resolve; the others are skipped |
| ProductHelper.ResolveAttributeTerms | includes/helper/class-yaydp-product-helper.php:197-208 | the loop with `continue` returns those resolved terms |
| ProductHelper.SetKey | includes/helper/class-yaydp-product-helper.php:217 | the assigned key holds the new attribute; other keys keep theirs; nothing else appears |
| ProductHelper.MergeInheritedMembers | includes/helper/class-yaydp-product-helper.php:209-221 | after the merge, a name carried by an inherited (visible, non-variation) parent attribute maps to the last such attribute; every other entry is the variation's own; nothing else appears |
| ProductHelper.CollectAttributes | includes/helper/class-yaydp-product-helper.php:209-221 | a non-variation keeps its own attributes; a variation with a parent gets its own entries, with each name an inherited parent attribute carries mapped to the last such attribute |
| ProductHelper.AttributesExpose | includes/helper/class-yaydp-product-helper.php:226-245 | the nested loops with `break 2`/`break 3` find a match iff some attribute holds the term by option slug or plain value |
| ProductHelper.VariationMatches | includes/helper/class-yaydp-product-helper.php:247-260 | found iff the line with the item key has a variation entry `attribute_<taxonomy>` equal to some term's slug |
| ProductHelper.CheckAttribute | includes/helper/class-yaydp-product-helper.php:196-263 | in-list iff an attribute or the line's variation matches a resolved term; not-in-list is the negation |
| Cart.CartItem.SetPrice | includes/core/rule/product-pricing/class-yaydp-product-bundle.php:167 | the price is set and the modifiers are kept |
| Cart.CartItem.AddModifier | includes/core/rule/product-pricing/class-yaydp-product-bundle.php:168 | the modifier is appended and the price is kept |
| WpcBundles.RemoveInitialBundledItems | includes/integrations/wpclever/class-yaydp-wpc-product-bundles-integration.php:31-38 | the survivors in order; none has a non-empty `woosb_parent_id`; an entry stays iff its parent id is empty |
| WpcBundles.SurvivorsMembers | includes/integrations/wpclever/class-yaydp-wpc-product-bundles-integration.php:32-36 | an entry (key and value unchanged) survives iff it was in the cart with an empty parent id |
| WpcBundles.SurvivorsInOrder | includes/integrations/wpclever/class-yaydp-wpc-product-bundles-integration.php:31-38 | the survivors are a subsequence of the cart: nothing added, order kept |
| WpcBundles.SurvivorsUnbundledAll | includes/integrations/wpclever/class-yaydp-wpc-product-bundles-integration.php:33-35 | no survivor was added by a bundle |
| WpcBundles.SurvivorsUnbundled | includes/integrations/wpclever/class-yaydp-wpc-product-bundles-integration.php:31-38 | a cart with no bundled entries is left as it is |
| WpcBundles.SurvivorsIdempotent | includes/integrations/wpclever/class-yaydp-wpc-product-bundles-integration.php:31-38 | removing twice is removing once |

## Left out

**Not modelled**
- Nonce and REST verification, `sanitize_array`, and coupon inspection. These are request plumbing and calls into WooCommerce objects.
- `sort_products_by_price`: it loads children through WooCommerce. Its comparator reads the second price from the first product and, in descending mode, compares objects, so it has no coherent contract.
- `get_min_require_quantity`: its body is commented out and it always returns 0.
- `get_bundled_products_adjustment_amount` and `calculate_adjustment_amount`: these are the `calcAdjustment` parameter. The percentage, fixed and flat-total formulas are not part of this model.
- `can_apply_adjustment`, `get_discount_amount_per_item`, `get_conditions_encouragements`, `yaydp_is_flat_pricing_type`, `yaydp_compare_numeric`, and the price and stock resolvers. These are parameters. The condition evaluation behind them is not modelled.
- WordPress lookups (`get_the_terms`, `get_ancestors`, `get_term`, `wc_get_product`) and the cart `WC()->cart`. These are maps and a list of cart lines passed in.
- The `apply_filters` hooks: the identity, or `false` for the unknown-filter hook.
- The WPC constructor's hook registration: plumbing.
- PHP floating point and its rounding: prices are exact reals.
- PHP's loose comparison of term ids and array keys: ids are `int`, keys are `string`.

**Modelled in a different form**
- `Helper.SortItemsByPrice`: `usort` is modelled as an insertion sort over an array. Before PHP 8.0 `usort` did not fix the order among lines of equal price; since PHP 8.0 it keeps their input order. The insertion sort moves a line only past lines of strictly greater (or, descending, strictly smaller) price, but that stability is not stated in its contract.
- `Helper.GetMatchingPairs`: the innermost loops are the helper methods `ExtendPair` and `ExtendPairs`.
- `WpcBundles.RemoveInitialBundledItems`: the PHP array is a sequence of key/value entries. The in-place `unset` becomes a loop that keeps the other entries.

**Weaker contracts and added preconditions**
- `ProductBundle.DiscountForProductBundleItem` requires a bundle selection of distinct lines. The source divides without a guard, and a proposal always provides such a selection.
- `Helper.CheckApplicability`, `Helper.CheckFilter`, `ProductHelper.CheckCategory`, `ProductHelper.CheckTag`, `ProductHelper.CheckTerms`, `ProductHelper.GetProductTerms`, `ProductHelper.GetProductCats`, `ProductHelper.GetProductTags`: require a catalog where every parent id resolves to a stored product and the parent chain ends (`Catalog.Valid`, `ProductHelper.ParentResolves`). The source needs this only in `get_product_cats`/`get_product_tags`, which call themselves on `wc_get_product` of the parent id with no guard: on a dangling parent id that is a fatal error, and on a cyclic chain the recursion never ends. Those inputs are excluded for every filter type, although `check_product` reads only the ids and `check_attribute` skips a missing parent.
- `ProductBundle.GetEncouragements`: `get_conditions_encouragements` is passed in as its result, and only its emptiness is used.
