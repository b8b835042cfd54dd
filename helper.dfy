/** The general helpers of the pricing engine: the filter-list matcher,
    stock arithmetic, the "extra items" quantity map, case wrapping, the
    matching-pairs builder and the cart-line sort. */
module Helper {
  import opened Common
  import opened Catalog
  import opened Cart
  import opened ProductHelper

  // ---------------------------------------------------------------------
  // Filter matcher

  /** Everything the filter checks read besides the product and the filter. */
  datatype MatchEnv = MatchEnv(catalog: Catalog, settings: Settings, resolvers: Resolvers, cartLines: seq<CartLine>)
  {
    /** The matcher can look up the product's parent when it has one. */
    ghost predicate Ready(p: Product)
    {
      catalog.Valid() && ParentResolves(catalog, p)
    }
  }

  /** The filter types the matcher's `switch` names. */
  predicate KnownFilterType(kind: string)
  {
    || kind == "product" || kind == "product_variation" || kind == "product_category"
    || kind == "product_attribute" || kind == "product_tag" || kind == "product_price"
    || kind == "product_in_stock" || kind == "all_product"
  }

  /** What one filter says about a product, by filter type. An unknown type
      is answered by the extension hook, which answers false. */
  predicate FilterMatches(env: MatchEnv, p: Product, f: Filter, itemKey: Option<string>)
    requires env.Ready(p)
  {
    match f.kind
    case "product" => CheckProduct(p, f)
    case "product_variation" => CheckProductVariation(p, f)
    case "product_category" => CheckCategory(env.catalog, p, f)
    case "product_attribute" =>
      InList(f) == AttributeMatch(env.catalog, p, f, itemKey, env.cartLines)
    case "product_tag" => CheckTag(env.catalog, p, f)
    case "product_price" => CheckPrice(p, f, env.settings, env.resolvers)
    case "product_in_stock" => CheckStock(p, f, env.resolvers)
    case "all_product" => true
    case _ => false
  }

  /** The global gates: products already discounted (when only
      non-discounted products may be priced) and products on sale (when
      pricing is disabled for them) never match. */
  predicate Blocked(env: MatchEnv, p: Product)
  {
    || (env.settings.nonDiscountedProductsOnly && env.resolvers.isDiscounted(p))
    || (env.settings.disableWhenOnSale && p.onSale)
  }

  /** Reference definition of `check_applicability`: under "any" some filter
      matches; under any other match type the list is non-empty and every
      filter matches. */
  predicate Applicable(env: MatchEnv, filters: seq<Filter>, p: Product, matchType: string, itemKey: Option<string>)
    requires env.Ready(p)
  {
    && !Blocked(env, p)
    && (if matchType == "any" then exists f :: f in filters && FilterMatches(env, p, f, itemKey)
        else filters != [] && forall f :: f in filters ==> FilterMatches(env, p, f, itemKey))
  }

  /** The `switch` of `check_applicability` for one filter: each known type
      goes to its own check, `all_product` always matches, and any other
      type is left to the extension hook, which rejects it. */
  method CheckFilter(env: MatchEnv, p: Product, f: Filter, itemKey: Option<string>) returns (check: bool)
    requires env.Ready(p)
    ensures check == FilterMatches(env, p, f, itemKey)
    ensures f.kind == "product" ==> (check <==> CheckProduct(p, f))
    ensures f.kind == "product_variation" ==> (check <==> CheckProductVariation(p, f))
    ensures f.kind == "product_category" ==> (check <==> CheckCategory(env.catalog, p, f))
    ensures f.kind == "product_attribute" ==>
      (check <==> (InList(f) <==> AttributeMatch(env.catalog, p, f, itemKey, env.cartLines)))
    ensures f.kind == "product_tag" ==> (check <==> CheckTag(env.catalog, p, f))
    ensures f.kind == "product_price" ==> (check <==> CheckPrice(p, f, env.settings, env.resolvers))
    ensures f.kind == "product_in_stock" ==> (check <==> CheckStock(p, f, env.resolvers))
    ensures f.kind == "all_product" ==> check
    ensures !KnownFilterType(f.kind) ==> !check
  {
    match f.kind
    case "product" => check := CheckProduct(p, f);
    case "product_variation" => check := CheckProductVariation(p, f);
    case "product_category" => check := CheckCategory(env.catalog, p, f);
    case "product_attribute" => check := CheckAttribute(env.catalog, p, f, itemKey, env.cartLines);
    case "product_tag" => check := CheckTag(env.catalog, p, f);
    case "product_price" => check := CheckPrice(p, f, env.settings, env.resolvers);
    case "product_in_stock" => check := CheckStock(p, f, env.resolvers);
    case "all_product" => check := true;
    case _ => check := false;
  }

  /** `check_applicability`: the gates, then the filters in order, stopping
      at the first match under "any" and at the first failure otherwise; the
      answer is the last check made (false for an empty list). */
  method CheckApplicability(env: MatchEnv, filters: seq<Filter>, p: Product, matchType: string, itemKey: Option<string>)
    returns (check: bool)
    requires env.Ready(p)
    ensures Blocked(env, p) ==> !check
    ensures !Blocked(env, p) && matchType == "any" ==>
      (check <==> exists i :: 0 <= i < |filters| && FilterMatches(env, p, filters[i], itemKey))
    ensures !Blocked(env, p) && matchType != "any" ==>
      (check <==> |filters| > 0 && forall i :: 0 <= i < |filters| ==> FilterMatches(env, p, filters[i], itemKey))
    ensures check == Applicable(env, filters, p, matchType, itemKey)
  {
    if env.settings.nonDiscountedProductsOnly && env.resolvers.isDiscounted(p) {
      return false;
    }
    if env.settings.disableWhenOnSale && p.onSale {
      return false;
    }
    check := false;
    var i := 0;
    while i < |filters|
      invariant 0 <= i <= |filters|
      invariant matchType == "any" ==> !check && forall j :: 0 <= j < i ==> !FilterMatches(env, p, filters[j], itemKey)
      invariant matchType != "any" ==> (check <==> i > 0) && forall j :: 0 <= j < i ==> FilterMatches(env, p, filters[j], itemKey)
    {
      check := CheckFilter(env, p, filters[i], itemKey);
      if matchType == "any" {
        if check {
          break;
        }
      } else {
        if !check {
          break;
        }
      }
      i := i + 1;
    }
    assert forall f :: f in filters <==> exists j :: 0 <= j < |filters| && filters[j] == f;
  }

  /** A single "all_product" filter admits every product the gates let
      through, whatever the match type. */
  lemma AllProductAdmitsEverything(env: MatchEnv, p: Product, f: Filter, matchType: string, itemKey: Option<string>)
    requires env.Ready(p) && f.kind == "all_product"
    ensures Applicable(env, [f], p, matchType, itemKey) <==> !Blocked(env, p)
  {
    assert f in [f];
  }

  /** Under "any" a list matches iff some singleton of it matches; under
      "all" iff every singleton matches. */
  lemma {:induction false} ApplicableBySingletons(env: MatchEnv, filters: seq<Filter>, p: Product, itemKey: Option<string>)
    requires env.Ready(p) && !Blocked(env, p) && filters != []
    ensures Applicable(env, filters, p, "any", itemKey) <==>
      exists i :: 0 <= i < |filters| && Applicable(env, [filters[i]], p, "any", itemKey)
    ensures Applicable(env, filters, p, "all", itemKey) <==>
      forall i :: 0 <= i < |filters| ==> Applicable(env, [filters[i]], p, "all", itemKey)
  {
    forall i | 0 <= i < |filters|
      ensures Applicable(env, [filters[i]], p, "any", itemKey) == FilterMatches(env, p, filters[i], itemKey)
      ensures Applicable(env, [filters[i]], p, "all", itemKey) == FilterMatches(env, p, filters[i], itemKey)
    {
      assert filters[i] in [filters[i]];
    }
    assert forall f :: f in filters <==> exists j :: 0 <= j < |filters| && filters[j] == f;
  }

  // ---------------------------------------------------------------------
  // Stock

  /** `get_remaining_product_stock`: stock left after what the cart holds,
      floored at zero. */
  function RemainingProductStock(stock: int, inCart: int): (r: int)
    ensures r >= 0 && r >= stock - inCart
    ensures r == 0 || r == stock - inCart
  {
    if stock - inCart > 0 then stock - inCart else 0
  }

  /** `get_remaining_product_stock_include_extra_items`: subtracts the extra
      items promised for the product, floored at zero, when there are any. */
  function RemainingStockIncludeExtraItems(id: ProductId, stock: int, extra: map<ProductId, int>): (r: int)
    ensures id !in extra ==> r == stock
    ensures id in extra ==> r >= 0 && r >= stock - extra[id] && (r == 0 || r == stock - extra[id])
  {
    if id in extra then RemainingProductStock(stock, extra[id]) else stock
  }

  // ---------------------------------------------------------------------
  // The "extra items" quantity map

  /** How much `take_back_items(current)` removes from key `k`. */
  function TakeBackAmount(current: map<ProductId, int>, k: ProductId): nat
  {
    if k in current && current[k] > 0 then current[k] else 0
  }

  /** The map after `take_back_items(current)`: every key present in both
      maps drops by the current quantity floored at zero. */
  function TakenBack(m: map<ProductId, int>, current: map<ProductId, int>): (r: map<ProductId, int>)
    ensures r.Keys == m.Keys
    ensures forall k :: k in m && k !in current ==> r[k] == m[k]
    ensures forall k :: k in m && k in current ==> r[k] == m[k] - (if current[k] > 0 then current[k] else 0)
  {
    map k | k in m :: if k in current then m[k] - (if current[k] > 0 then current[k] else 0) else m[k]
  }

  /** The map after `push_in_items(id, q)`. */
  function PushedIn(m: map<ProductId, int>, id: ProductId, q: int): (r: map<ProductId, int>)
    ensures r.Keys == m.Keys + {id}
    ensures r[id] == if id in m then m[id] + q else q
    ensures forall k :: k in m && k != id ==> r[k] == m[k]
  {
    if id in m then m[id := m[id] + q] else m[id := q]
  }

  /** Taking back what was just pushed for a product already in the map
      restores the map; for a new product it leaves a zero entry. */
  lemma TakeBackUndoesPush(m: map<ProductId, int>, id: ProductId, q: int)
    requires q >= 0
    ensures id in m ==> TakenBack(PushedIn(m, id, q), map[id := q]) == m
    ensures id !in m ==> TakenBack(PushedIn(m, id, q), map[id := q]) == m[id := 0]
  {
    var r := TakenBack(PushedIn(m, id, q), map[id := q]);
    if id in m {
      assert r.Keys == m.Keys;
      assert forall k :: k in m ==> r[k] == m[k];
    } else {
      assert r.Keys == m[id := 0].Keys;
      assert forall k :: k in r ==> r[k] == m[id := 0][k];
    }
  }

  /** The by-reference `$extra_items` array shared by the rules of one pass. */
  class ExtraItems {
    var quantities: map<ProductId, int>

    constructor (initial: map<ProductId, int>)
      ensures quantities == initial
    {
      quantities := initial;
    }

    /** `take_back_items`: walks the keys present when it starts. */
    method TakeBackItems(current: map<ProductId, int>)
      modifies this
      ensures quantities == TakenBack(old(quantities), current)
    {
      ghost var start := quantities;
      var keys := quantities.Keys;
      ghost var done: set<ProductId> := {};
      while keys != {}
        invariant keys !! done && keys + done == start.Keys
        invariant quantities.Keys == start.Keys
        invariant forall k :: k in done ==> quantities[k] == start[k] - TakeBackAmount(current, k)
        invariant forall k :: k in keys ==> quantities[k] == start[k]
        decreases keys
      {
        EmptyOrInhabited(keys);
        var k :| k in keys;
        if k in current {
          quantities := quantities[k := quantities[k] - (if current[k] > 0 then current[k] else 0)];
        }
        keys := keys - {k};
        done := done + {k};
      }
      assert forall k :: k in quantities ==> quantities[k] == TakenBack(start, current)[k];
    }

    /** `push_in_items`. */
    method PushInItems(id: ProductId, q: int)
      modifies this
      ensures quantities == PushedIn(old(quantities), id, q)
    {
      if id in quantities {
        quantities := quantities[id := quantities[id] + q];
      } else {
        quantities := quantities[id := q];
      }
    }
  }

  // ---------------------------------------------------------------------
  // Cases

  /** `map_cases`: every case wrapped in a one-element list. */
  function MapCases<T>(cases: seq<T>): (r: seq<seq<T>>)
    ensures |r| == |cases|
    ensures forall i :: 0 <= i < |r| ==> r[i] == [cases[i]]
  {
    seq(|cases|, i requires 0 <= i < |cases| => [cases[i]])
  }

  function Flatten<T>(xss: seq<seq<T>>): seq<T>
  {
    if xss == [] then [] else Flatten(xss[..|xss| - 1]) + xss[|xss| - 1]
  }

  /** Flattening the wrapped cases gives the cases back. */
  lemma {:induction false} FlattenMapCases<T>(cases: seq<T>)
    ensures Flatten(MapCases(cases)) == cases
  {
    if cases != [] {
      var init := cases[..|cases| - 1];
      FlattenMapCases(init);
      assert MapCases(cases)[..|cases| - 1] == MapCases(init);
    }
  }

  // ---------------------------------------------------------------------
  // Matching pairs

  /** One case of a bought case: a required quantity and the lines that can
      fill it. */
  datatype Case = Case(quantity: int, items: seq<CartItem>)

  /** One line of a case, with the case's quantity and the line's own. */
  datatype SplitItem = SplitItem(quantity: int, boughtQuantity: int, items: seq<CartItem>)

  /** The case's lines, each wrapped with the case quantity and its own. */
  function Split(c: Case): (r: seq<SplitItem>)
    ensures |r| == |c.items|
    ensures forall i :: 0 <= i < |r| ==> r[i] == SplitItem(c.quantity, c.items[i].quantity, [c.items[i]])
  {
    seq(|c.items|, i requires 0 <= i < |c.items| => SplitItem(c.quantity, c.items[i].quantity, [c.items[i]]))
  }

  /** Every pair extended by every split item, pair-major. */
  function ExtendAll(pairs: seq<seq<SplitItem>>, splits: seq<SplitItem>): seq<seq<SplitItem>>
  {
    if pairs == [] then []
    else ExtendAll(pairs[..|pairs| - 1], splits) + seq(|splits|, j requires 0 <= j < |splits| => pairs[|pairs| - 1] + [splits[j]])
  }

  /** One step of the inner loop of `get_matching_pairs`: an empty product so
      far starts afresh from the case's split items. */
  function Step(pairs: seq<seq<SplitItem>>, c: Case): seq<seq<SplitItem>>
  {
    ExtendAll(if pairs == [] then [[]] else pairs, Split(c))
  }

  /** The entry `get_matching_pairs` builds for one bought case. */
  function CaseProduct(cases: seq<Case>): seq<seq<SplitItem>>
  {
    if cases == [] then [] else Step(CaseProduct(cases[..|cases| - 1]), cases[|cases| - 1])
  }

  /** Extending the first `x + 1` pairs adds the row of pair `x` to
      extending the first `x`. */
  lemma ExtendAllStep(pairs: seq<seq<SplitItem>>, splits: seq<SplitItem>, x: nat, row: seq<seq<SplitItem>>)
    requires x < |pairs|
    requires |row| == |splits| && forall j :: 0 <= j < |splits| ==> row[j] == pairs[x] + [splits[j]]
    ensures ExtendAll(pairs[..x + 1], splits) == ExtendAll(pairs[..x], splits) + row
  {
    assert pairs[..x + 1][..x] == pairs[..x];
  }

  /** The innermost loop of `get_matching_pairs`: one pair followed by each
      split item in turn. */
  method ExtendPair(pair: seq<SplitItem>, splits: seq<SplitItem>) returns (row: seq<seq<SplitItem>>)
    ensures |row| == |splits|
    ensures forall j :: 0 <= j < |splits| ==> row[j] == pair + [splits[j]]
  {
    row := [];
    var y := 0;
    while y < |splits|
      invariant 0 <= y <= |splits| && |row| == y
      invariant forall j :: 0 <= j < y ==> row[j] == pair + [splits[j]]
    {
      row := row + [pair + [splits[y]]];
      y := y + 1;
    }
  }

  /** The two inner loops of `get_matching_pairs`: every pair built so far
      extended by every split item of the next case, pair-major. */
  method ExtendPairs(sub: seq<seq<SplitItem>>, splits: seq<SplitItem>) returns (tmp: seq<seq<SplitItem>>)
    ensures tmp == ExtendAll(sub, splits)
  {
    tmp := [];
    var x := 0;
    while x < |sub|
      invariant 0 <= x <= |sub|
      invariant tmp == ExtendAll(sub[..x], splits)
    {
      var row := ExtendPair(sub[x], splits);
      ExtendAllStep(sub, splits, x, row);
      tmp := tmp + row;
      x := x + 1;
    }
    assert sub[..x] == sub;
  }

  /** `get_matching_pairs`. */
  method GetMatchingPairs(bought: seq<seq<Case>>) returns (pairs: seq<seq<seq<SplitItem>>>)
    ensures |pairs| == |bought|
    ensures forall i :: 0 <= i < |bought| ==> pairs[i] == CaseProduct(bought[i])
  {
    pairs := [];
    var b := 0;
    while b < |bought|
      invariant 0 <= b <= |bought|
      invariant |pairs| == b
      invariant forall i :: 0 <= i < b ==> pairs[i] == CaseProduct(bought[i])
    {
      var cases := bought[b];
      var sub: seq<seq<SplitItem>> := [];
      var k := 0;
      while k < |cases|
        invariant 0 <= k <= |cases|
        invariant sub == CaseProduct(cases[..k])
      {
        assert cases[..k + 1][..k] == cases[..k];
        var splits := Split(cases[k]);
        var tmp;
        if sub == [] {
          var none: seq<SplitItem> := [];
          tmp := ExtendPairs([none], splits);
        } else {
          tmp := ExtendPairs(sub, splits);
        }
        sub := tmp;
        k := k + 1;
      }
      assert cases[..k] == cases;
      pairs := pairs + [sub];
      b := b + 1;
    }
  }

  /** Product of the numbers of lines of the cases. */
  function LineCountProduct(cases: seq<Case>): nat
  {
    if cases == [] then 1 else LineCountProduct(cases[..|cases| - 1]) * |cases[|cases| - 1].items|
  }

  lemma {:induction false} ExtendAllSize(pairs: seq<seq<SplitItem>>, splits: seq<SplitItem>)
    ensures |ExtendAll(pairs, splits)| == |pairs| * |splits|
  {
    if pairs != [] {
      var n, m := |pairs|, |splits|;
      ExtendAllSize(pairs[..n - 1], splits);
      assert |ExtendAll(pairs, splits)| == (n - 1) * m + m;
      assert (n - 1) * m + m == n * m by {
        assert (n - 1) * m == n * m - m;
      }
    }
  }

  /** When no case is empty, the entry has one element per combination. */
  lemma {:induction false} CaseProductSize(cases: seq<Case>)
    requires cases != []
    requires forall c :: c in cases ==> c.items != []
    ensures |CaseProduct(cases)| == LineCountProduct(cases)
  {
    var init := cases[..|cases| - 1];
    if init == [] {
      assert LineCountProduct(cases) == |cases[0].items|;
      ExtendAllSize([[]], Split(cases[0]));
    } else {
      assert forall c :: c in init ==> c in cases;
      CaseProductSize(init);
      assert LineCountProduct(init) > 0 by { LineCountPositive(init); }
      ExtendAllSize(CaseProduct(init), Split(cases[|cases| - 1]));
    }
  }

  lemma {:induction false} LineCountPositive(cases: seq<Case>)
    requires forall c :: c in cases ==> c.items != []
    ensures LineCountProduct(cases) > 0
  {
    if cases != [] {
      var init := cases[..|cases| - 1];
      assert forall c :: c in init ==> c in cases;
      LineCountPositive(init);
      assert cases[|cases| - 1] in cases;
    }
  }

  /** Every extended pair is some pair followed by some split item. */
  lemma {:induction false} ExtendAllSource(pairs: seq<seq<SplitItem>>, splits: seq<SplitItem>, e: seq<SplitItem>)
    returns (p: seq<SplitItem>, s: SplitItem)
    requires e in ExtendAll(pairs, splits)
    ensures p in pairs && s in splits && e == p + [s]
  {
    var init, last := pairs[..|pairs| - 1], pairs[|pairs| - 1];
    var row := seq(|splits|, j requires 0 <= j < |splits| => last + [splits[j]]);
    assert ExtendAll(pairs, splits) == ExtendAll(init, splits) + row;
    if e in row {
      var j :| 0 <= j < |splits| && row[j] == e;
      p, s := last, splits[j];
    } else {
      p, s := ExtendAllSource(init, splits, e);
      assert p in pairs by { assert pairs == init + [last]; }
    }
  }

  /** Every pair followed by every split item is an extended pair. */
  lemma {:induction false} ExtendAllContains(pairs: seq<seq<SplitItem>>, splits: seq<SplitItem>, p: seq<SplitItem>, s: SplitItem)
    requires p in pairs && s in splits
    ensures p + [s] in ExtendAll(pairs, splits)
  {
    var init, last := pairs[..|pairs| - 1], pairs[|pairs| - 1];
    var row := seq(|splits|, j requires 0 <= j < |splits| => last + [splits[j]]);
    assert ExtendAll(pairs, splits) == ExtendAll(init, splits) + row;
    if p == last {
      var j :| 0 <= j < |splits| && splits[j] == s;
      assert row[j] == p + [s];
    } else {
      assert pairs == init + [last];
      ExtendAllContains(init, splits, p, s);
    }
  }

  /** A choice of one line per case, in case order. */
  ghost predicate ChoosesOnePerCase(e: seq<SplitItem>, cases: seq<Case>)
  {
    |e| == |cases| && forall j :: 0 <= j < |cases| ==> e[j] in Split(cases[j])
  }

  lemma ChoosesExtend(p: seq<SplitItem>, s: SplitItem, init: seq<Case>, last: Case)
    ensures ChoosesOnePerCase(p + [s], init + [last]) <==> ChoosesOnePerCase(p, init) && s in Split(last)
  {
    var e, cases := p + [s], init + [last];
    if ChoosesOnePerCase(e, cases) {
      assert |p| == |init|;
      forall j | 0 <= j < |init|
        ensures p[j] in Split(init[j])
      {
        assert e[j] == p[j] && cases[j] == init[j];
      }
      assert e[|init|] == s && cases[|init|] == last;
    }
    if ChoosesOnePerCase(p, init) && s in Split(last) {
      forall j | 0 <= j < |cases|
        ensures e[j] in Split(cases[j])
      {
        if j < |init| {
          assert e[j] == p[j] && cases[j] == init[j];
        }
      }
    }
  }

  /** A single case with lines: the entry holds that case's split items,
      each on its own. */
  lemma SingleCaseMembers(c: Case, e: seq<SplitItem>)
    ensures e in CaseProduct([c]) <==> ChoosesOnePerCase(e, [c])
  {
    var splits := Split(c);
    var none: seq<SplitItem> := [];
    assert [c][..0] == [];
    assert CaseProduct([c]) == ExtendAll([none], splits);
    if e in CaseProduct([c]) {
      var p, s := ExtendAllSource([none], splits, e);
    }
    if ChoosesOnePerCase(e, [c]) {
      assert e == none + [e[0]];
      ExtendAllContains([none], splits, none, e[0]);
    }
  }

  /** With several cases and none of them empty, the entry extends the
      (non-empty) entry of all but the last case by the last case's lines. */
  lemma CaseProductUnfold(cases: seq<Case>)
    requires |cases| > 1
    requires forall c :: c in cases ==> c.items != []
    ensures forall c :: c in cases[..|cases| - 1] ==> c.items != []
    ensures CaseProduct(cases) == ExtendAll(CaseProduct(cases[..|cases| - 1]), Split(cases[|cases| - 1]))
  {
    var init := cases[..|cases| - 1];
    assert forall c :: c in init ==> c in cases;
    CaseProductSize(init);
    LineCountPositive(init);
  }

  /** Every entry picks one line of every case, in case order. */
  lemma {:induction false} CaseProductSound(cases: seq<Case>, e: seq<SplitItem>)
    requires cases != []
    requires forall c :: c in cases ==> c.items != []
    requires e in CaseProduct(cases)
    ensures ChoosesOnePerCase(e, cases)
  {
    var init, last := cases[..|cases| - 1], cases[|cases| - 1];
    if init == [] {
      assert cases == [last];
      SingleCaseMembers(last, e);
    } else {
      CaseProductUnfold(cases);
      var p, s := ExtendAllSource(CaseProduct(init), Split(last), e);
      CaseProductSound(init, p);
      ChoosesExtend(p, s, init, last);
      assert cases == init + [last];
    }
  }

  /** Every way of picking one line of every case, in case order, is an
      entry. */
  lemma {:induction false} CaseProductComplete(cases: seq<Case>, e: seq<SplitItem>)
    requires cases != []
    requires forall c :: c in cases ==> c.items != []
    requires ChoosesOnePerCase(e, cases)
    ensures e in CaseProduct(cases)
  {
    var init, last := cases[..|cases| - 1], cases[|cases| - 1];
    if init == [] {
      assert cases == [last];
      SingleCaseMembers(last, e);
    } else {
      CaseProductUnfold(cases);
      var p, s := e[..|e| - 1], e[|e| - 1];
      FrontLast(e);
      assert cases == init + [last];
      ChoosesExtend(p, s, init, last);
      CaseProductComplete(init, p);
      ExtendAllContains(CaseProduct(init), Split(last), p, s);
    }
  }

  /** When no case is empty, the entry holds exactly the combinations that
      pick one line of every case, in case order: the cartesian product. */
  lemma CaseProductMembers(cases: seq<Case>, e: seq<SplitItem>)
    requires cases != []
    requires forall c :: c in cases ==> c.items != []
    ensures e in CaseProduct(cases) <==> ChoosesOnePerCase(e, cases)
  {
    if e in CaseProduct(cases) {
      CaseProductSound(cases, e);
    }
    if ChoosesOnePerCase(e, cases) {
      CaseProductComplete(cases, e);
    }
  }

  /** The `empty()` test restarts the product after a case with no lines:
      the entry is that of the cases after the empty one. */
  lemma {:induction false} EmptyCaseRestarts(cases: seq<Case>, k: nat)
    requires k < |cases| && cases[k].items == []
    ensures CaseProduct(cases) == CaseProduct(cases[k + 1..])
  {
    var init, last := cases[..|cases| - 1], cases[|cases| - 1];
    if k == |cases| - 1 {
      assert cases[k + 1..] == [];
      ExtendAllSize(if CaseProduct(init) == [] then [[]] else CaseProduct(init), Split(last));
    } else {
      EmptyCaseRestarts(init, k);
      assert cases[k + 1..][..|cases[k + 1..]| - 1] == init[k + 1..];
    }
  }

  /** A concrete instance: with an empty middle case the entry is not empty
      (as a cartesian product would be) but the last case's lines alone. */
  lemma EmptyMiddleCaseExample(x: CartItem, y: CartItem)
    ensures CaseProduct([Case(1, [x]), Case(2, []), Case(3, [y])]) == [[SplitItem(3, y.quantity, [y])]]
  {
    var cases := [Case(1, [x]), Case(2, []), Case(3, [y])];
    EmptyCaseRestarts(cases, 1);
    var last := Case(3, [y]);
    assert cases[2..] == [last];
    assert [last][..0] == [];
    var splits := Split(last);
    assert splits == [SplitItem(3, y.quantity, [y])];
    var r := ExtendAll([[]], splits);
    assert CaseProduct([last]) == r;
    ExtendAllSize([[]], splits);
    assert |r| == 1;
    assert r[0] == [] + [splits[0]] == [splits[0]];
    assert splits[0] == SplitItem(3, y.quantity, [y]);
    assert r == [[SplitItem(3, y.quantity, [y])]];
    assert CaseProduct(cases) == CaseProduct([last]);
  }

  // ---------------------------------------------------------------------
  // Sorting cart lines by price

  /** `a` may come before `b`: prices non-decreasing for "asc", else
      non-increasing, with the price resolved from the line's product. */
  predicate InOrder(a: CartItem, b: CartItem, asc: bool, priceOf: Product -> real)
  {
    if asc then priceOf(a.product) <= priceOf(b.product) else priceOf(b.product) <= priceOf(a.product)
  }

  predicate SortedByPrice(s: seq<CartItem>, asc: bool, priceOf: Product -> real)
  {
    forall i, j :: 0 <= i < j < |s| ==> InOrder(s[i], s[j], asc, priceOf)
  }

  /** One pass of the insertion sort: moves `a[i]` down past every line
      it must precede, so that the first `i + 1` lines are in order. */
  method InsertIntoSorted(a: array<CartItem>, i: int, asc: bool, priceOf: Product -> real)
    requires 0 <= i < a.Length
    requires forall x, y :: 0 <= x < y < i ==> InOrder(a[x], a[y], asc, priceOf)
    modifies a
    ensures forall x, y :: 0 <= x < y <= i ==> InOrder(a[x], a[y], asc, priceOf)
    ensures multiset(a[..]) == multiset(old(a[..]))
  {
    var j := i;
    while j > 0 && !InOrder(a[j - 1], a[j], asc, priceOf)
      invariant 0 <= j <= i
      invariant forall x, y :: 0 <= x < y <= i && y != j ==> InOrder(a[x], a[y], asc, priceOf)
      invariant multiset(a[..]) == multiset(old(a[..]))
    {
      a[j - 1], a[j] := a[j], a[j - 1];
      j := j - 1;
    }
  }

  /** `sort_items_by_price`: sorts the lines in place, by an insertion sort
      standing in for `usort`. */
  method SortItemsByPrice(a: array<CartItem>, order: string, priceOf: Product -> real)
    modifies a
    ensures SortedByPrice(a[..], order == "asc", priceOf)
    ensures multiset(a[..]) == multiset(old(a[..]))
  {
    var asc := order == "asc";
    var i := 0;
    while i < a.Length
      invariant 0 <= i <= a.Length
      invariant forall x, y :: 0 <= x < y < i ==> InOrder(a[x], a[y], asc, priceOf)
      invariant multiset(a[..]) == multiset(old(a[..]))
    {
      InsertIntoSorted(a, i, asc, priceOf);
      i := i + 1;
    }
  }
}
