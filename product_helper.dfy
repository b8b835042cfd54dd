/** The per-filter checks of the filter matcher: product and variation ids,
    category and tag closures, price, stock and attributes. */
module ProductHelper {
  import opened Common
  import opened Catalog

  // ---------------------------------------------------------------------
  // Id filters

  /** `check_product`: the filter ids are intersected with the product's id
      and, when it has one, its parent's id. */
  function CheckProduct(p: Product, f: Filter): (r: bool)
    ensures r <==> (InList(f) <==>
      (p.id in MapFilterValue(f) || (p.parentId != 0 && p.parentId in MapFilterValue(f))))
  {
    var ids := [p.id] + (if p.parentId != 0 then [p.parentId] else []);
    var common := ArrayIntersect(MapFilterValue(f), ids);
    assert common != [] ==> common[0] in common;
    if InList(f) then common != [] else common == []
  }

  /** `check_product_variation`: a variable or grouped product also offers
      its children's ids to the intersection. */
  function CheckProductVariation(p: Product, f: Filter): (r: bool)
    ensures r <==> (InList(f) <==>
      (p.id in MapFilterValue(f) ||
       ((p.kind == Variable || p.kind == Grouped) &&
        exists c :: c in p.children && c in MapFilterValue(f))))
  {
    var ids := [p.id] + (if p.kind == Variable || p.kind == Grouped then p.children else []);
    var common := ArrayIntersect(ids, MapFilterValue(f));
    assert common != [] ==> common[0] in common;
    if InList(f) then common != [] else common == []
  }

  // ---------------------------------------------------------------------
  // Category and tag closures

  /** Each direct term followed by its ancestors, in order. */
  function TermsWithAncestors(c: Catalog, tax: Taxonomy, direct: seq<TermId>): seq<TermId>
  {
    if direct == [] then []
    else
      var last := direct[|direct| - 1];
      TermsWithAncestors(c, tax, direct[..|direct| - 1]) + [last] + c.AncestorsOf(last, tax)
  }

  /** The parent product resolves whenever the product names one. */
  predicate ParentResolves(c: Catalog, p: Product)
  {
    p.parentId != 0 ==> p.parentId in c.products
  }

  /** A measure that shrinks when moving from a product to its parent. */
  function ParentDepth(c: Catalog, p: Product): nat
    requires ParentResolves(c, p)
    requires c.Valid()
  {
    if p.parentId != 0 then c.rank[p.parentId] + 1 else 0
  }

  /** What `get_product_cats` / `get_product_tags` return: the direct terms
      with their ancestors, then the parent product's terms, made unique. */
  function ProductTerms(c: Catalog, tax: Taxonomy, p: Product): seq<TermId>
    requires c.Valid() && ParentResolves(c, p)
    decreases ParentDepth(c, p)
  {
    var own := TermsWithAncestors(c, tax, c.TermsOf(p.id, tax));
    if p.parentId != 0 then Dedup(own + ProductTerms(c, tax, c.products[p.parentId]))
    else Dedup(own)
  }

  /** Reference definition of the closure: a term belongs to a product when
      it is one of its direct terms, an ancestor of one, or belongs to the
      parent product. */
  ghost predicate InTermClosure(c: Catalog, tax: Taxonomy, p: Product, t: TermId)
    requires c.Valid() && ParentResolves(c, p)
    decreases ParentDepth(c, p)
  {
    || t in c.TermsOf(p.id, tax)
    || (exists d :: d in c.TermsOf(p.id, tax) && t in c.AncestorsOf(d, tax))
    || (p.parentId != 0 && InTermClosure(c, tax, c.products[p.parentId], t))
  }

  lemma {:induction false} TermsWithAncestorsMembers(c: Catalog, tax: Taxonomy, direct: seq<TermId>, t: TermId)
    ensures t in TermsWithAncestors(c, tax, direct) <==>
      (t in direct || exists d :: d in direct && t in c.AncestorsOf(d, tax))
  {
    if direct != [] {
      var init, last := direct[..|direct| - 1], direct[|direct| - 1];
      assert direct == init + [last];
      TermsWithAncestorsMembers(c, tax, init, t);
      if t in c.AncestorsOf(last, tax) {
        assert last in direct;
      }
      if d :| d in direct && t in c.AncestorsOf(d, tax) {
        if d != last {
          assert d in init;
        }
      }
    }
  }

  /** The list the source builds is duplicate-free and holds exactly the
      closure: each direct term, its ancestors and the parent's terms. */
  lemma {:induction false} ProductTermsIsClosure(c: Catalog, tax: Taxonomy, p: Product, t: TermId)
    requires c.Valid() && ParentResolves(c, p)
    ensures NoDup(ProductTerms(c, tax, p))
    ensures t in ProductTerms(c, tax, p) <==> InTermClosure(c, tax, p, t)
    decreases ParentDepth(c, p)
  {
    TermsWithAncestorsMembers(c, tax, c.TermsOf(p.id, tax), t);
    if p.parentId != 0 {
      ProductTermsIsClosure(c, tax, c.products[p.parentId], t);
    }
  }

  /** `get_product_cats` / `get_product_tags`: a loop over the direct terms
      appending each with its ancestors, then the parent's terms obtained by
      recursion, then `array_unique`. */
  method GetProductTerms(c: Catalog, tax: Taxonomy, p: Product) returns (result: seq<TermId>)
    requires c.Valid() && ParentResolves(c, p)
    ensures result == ProductTerms(c, tax, p)
    ensures NoDup(result)
    ensures forall t :: t in result <==> InTermClosure(c, tax, p, t)
    decreases ParentDepth(c, p)
  {
    var direct := c.TermsOf(p.id, tax);
    var acc: seq<TermId> := [];
    var i := 0;
    while i < |direct|
      invariant 0 <= i <= |direct|
      invariant acc == TermsWithAncestors(c, tax, direct[..i])
    {
      assert direct[..i + 1][..i] == direct[..i];
      acc := acc + [direct[i]] + c.AncestorsOf(direct[i], tax);
      i := i + 1;
    }
    assert direct[..i] == direct;
    if p.parentId != 0 {
      var parentTerms := GetProductTerms(c, tax, c.products[p.parentId]);
      acc := acc + parentTerms;
    }
    result := Dedup(acc);
    forall t | true
      ensures t in result <==> InTermClosure(c, tax, p, t)
    {
      ProductTermsIsClosure(c, tax, p, t);
    }
  }

  method GetProductCats(c: Catalog, p: Product) returns (cats: seq<TermId>)
    requires c.Valid() && ParentResolves(c, p)
    ensures NoDup(cats)
    ensures forall t :: t in cats <==> InTermClosure(c, ProductCat, p, t)
  {
    cats := GetProductTerms(c, ProductCat, p);
  }

  method GetProductTags(c: Catalog, p: Product) returns (tags: seq<TermId>)
    requires c.Valid() && ParentResolves(c, p)
    ensures NoDup(tags)
    ensures forall t :: t in tags <==> InTermClosure(c, ProductTag, p, t)
  {
    tags := GetProductTerms(c, ProductTag, p);
  }

  /** Shared shape of `check_category` and `check_tag`. */
  function CheckTerms(c: Catalog, tax: Taxonomy, p: Product, f: Filter): (r: bool)
    requires c.Valid() && ParentResolves(c, p)
    ensures r <==> (InList(f) <==>
      exists t :: InTermClosure(c, tax, p, t) && t in MapFilterValue(f))
  {
    var common := ArrayIntersect(ProductTerms(c, tax, p), MapFilterValue(f));
    var r := if InList(f) then common != [] else common == [];
    assert common != [] ==> common[0] in common;
    assert forall t :: t in ProductTerms(c, tax, p) <==> InTermClosure(c, tax, p, t) by {
      forall t | true
        ensures t in ProductTerms(c, tax, p) <==> InTermClosure(c, tax, p, t)
      {
        ProductTermsIsClosure(c, tax, p, t);
      }
    }
    r
  }

  /** `check_category`. */
  function CheckCategory(c: Catalog, p: Product, f: Filter): (r: bool)
    requires c.Valid() && ParentResolves(c, p)
    ensures r <==> (InList(f) <==>
      exists t :: InTermClosure(c, ProductCat, p, t) && t in MapFilterValue(f))
  {
    CheckTerms(c, ProductCat, p, f)
  }

  /** `check_tag`. */
  function CheckTag(c: Catalog, p: Product, f: Filter): (r: bool)
    requires c.Valid() && ParentResolves(c, p)
    ensures r <==> (InList(f) <==>
      exists t :: InTermClosure(c, ProductTag, p, t) && t in MapFilterValue(f))
  {
    CheckTerms(c, ProductTag, p, f)
  }

  // ---------------------------------------------------------------------
  // Price and stock

  /** The price a price filter compares: for a variable product the minimum
      regular price when discounts are based on the regular price, else the
      minimum sale price when there is one; otherwise the resolved price. */
  function FilterPrice(p: Product, s: Settings, resolvedPrice: real): real
  {
    if IsVariableProduct(p) then
      if s.discountBasedOnRegularPrice then p.minRegularPrice
      else if p.minSalePrice.Some? && p.minSalePrice.value != 0.0 then p.minSalePrice.value
      else p.minRegularPrice
    else resolvedPrice
  }

  /** For a variable product whose sale price never exceeds its regular
      price, basing discounts on the sale price never compares a higher
      price than basing them on the regular price, and the two agree when
      there is no sale price; a non-variable product ignores the setting. */
  lemma FilterPriceBySetting(p: Product, s: Settings, resolvedPrice: real)
    requires p.minSalePrice.Some? ==> p.minSalePrice.value <= p.minRegularPrice
    ensures IsVariableProduct(p) ==>
      FilterPrice(p, s.(discountBasedOnRegularPrice := false), resolvedPrice)
        <= FilterPrice(p, s.(discountBasedOnRegularPrice := true), resolvedPrice)
    ensures IsVariableProduct(p) && (p.minSalePrice.None? || p.minSalePrice == Some(0.0)) ==>
      FilterPrice(p, s, resolvedPrice) == p.minRegularPrice
    ensures !IsVariableProduct(p) ==> FilterPrice(p, s, resolvedPrice) == resolvedPrice
  {
  }

  /** `check_price`: the filter's numeric comparison applied to the price
      `FilterPrice` picks. */
  function CheckPrice(p: Product, f: Filter, s: Settings, rs: Resolvers): (r: bool)
    ensures IsVariableProduct(p) && s.discountBasedOnRegularPrice ==>
      (r <==> rs.compareNumeric(p.minRegularPrice, f.amount, f.comparation))
    ensures IsVariableProduct(p) && !s.discountBasedOnRegularPrice && p.minSalePrice.Some? && p.minSalePrice.value != 0.0 ==>
      (r <==> rs.compareNumeric(p.minSalePrice.value, f.amount, f.comparation))
    ensures IsVariableProduct(p) && !s.discountBasedOnRegularPrice && (p.minSalePrice.None? || p.minSalePrice == Some(0.0)) ==>
      (r <==> rs.compareNumeric(p.minRegularPrice, f.amount, f.comparation))
    ensures !IsVariableProduct(p) ==> (r <==> rs.compareNumeric(rs.productPrice(p), f.amount, f.comparation))
  {
    rs.compareNumeric(FilterPrice(p, s, rs.productPrice(p)), f.amount, f.comparation)
  }

  /** `check_stock`: the filter's numeric comparison applied to the stock
      quantity. */
  function CheckStock(p: Product, f: Filter, rs: Resolvers): (r: bool)
    ensures r <==> rs.compareNumeric(rs.stockQuantity(p) as real, f.amount, f.comparation)
  {
    rs.compareNumeric(rs.stockQuantity(p) as real, f.amount, f.comparation)
  }

  /** Price and stock filters read nothing of the product but the number
      they compare: products with the same stock quantity pass the same
      stock filters, and products the price resolver and the variation
      prices cannot tell apart pass the same price filters. */
  lemma NumericFiltersReadOneNumber(p: Product, q: Product, f: Filter, s: Settings, rs: Resolvers)
    ensures rs.stockQuantity(p) == rs.stockQuantity(q) ==> CheckStock(p, f, rs) == CheckStock(q, f, rs)
    ensures (&& IsVariableProduct(p) == IsVariableProduct(q)
             && rs.productPrice(p) == rs.productPrice(q)
             && p.minRegularPrice == q.minRegularPrice
             && p.minSalePrice == q.minSalePrice) ==>
      CheckPrice(p, f, s, rs) == CheckPrice(q, f, s, rs)
  {
  }

  // ---------------------------------------------------------------------
  // Attributes

  /** A cart line as the shop's cart holds it: its key and the attribute
      values chosen for a variation (`attribute_<taxonomy>` to slug). */
  datatype CartLine = CartLine(key: string, variation: map<string, string>)

  /** The filter's attribute ids resolved to terms, unresolvable ids skipped. */
  function ResolvedTerms(c: Catalog, ids: seq<int>): (ts: seq<Term>)
    ensures forall t :: t in ts <==> exists i :: i in ids && i in c.terms && c.terms[i] == t
  {
    if ids == [] then []
    else
      var rest := ResolvedTerms(c, ids[..|ids| - 1]);
      var last := ids[|ids| - 1];
      assert forall i :: i in ids <==> i in ids[..|ids| - 1] || i == last by {
        assert ids == ids[..|ids| - 1] + [last];
      }
      if last in c.terms then rest + [c.terms[last]] else rest
  }

  /** Replaces the value under key `k` in place, or appends it when absent:
      what assigning to a PHP array key does. */
  function SetKey(attrs: AttributeList, k: string, a: Attribute): (r: AttributeList)
    ensures (k, a) in r
    ensures forall e :: e in r && e.0 == k ==> e == (k, a)
    ensures forall e :: e in r ==> e == (k, a) || e in attrs
    ensures forall e :: e in attrs && e.0 != k ==> e in r
  {
    if attrs == [] then [(k, a)]
    else if attrs[0].0 == k then
      assert forall e :: e in attrs[1..] ==> e.0 != k;
      [(k, a)] + attrs[1..]
    else
      var rest := SetKey(attrs[1..], k, a);
      assert forall e :: e in rest ==> e.0 != attrs[0].0;
      [attrs[0]] + rest
  }

  /** A parent attribute a variation inherits: structured, visible, and not
      used for variations. */
  predicate Inherited(a: Attribute)
  {
    a.Structured? && a.visible && !a.variation
  }

  /** The variation's attributes after copying in the parent's inherited ones. */
  function MergeInherited(attrs: AttributeList, parentAttrs: seq<(string, Attribute)>): AttributeList
  {
    if parentAttrs == [] then attrs
    else
      var merged := MergeInherited(attrs, parentAttrs[..|parentAttrs| - 1]);
      var a := parentAttrs[|parentAttrs| - 1].1;
      if Inherited(a) then SetKey(merged, a.name, a) else merged
  }

  /** The last inherited parent attribute named `n`, if any. */
  function LastInherited(parentAttrs: seq<(string, Attribute)>, n: string): (r: Option<Attribute>)
    ensures r.Some? ==> Inherited(r.value) && r.value.name == n
  {
    if parentAttrs == [] then None
    else
      var a := parentAttrs[|parentAttrs| - 1].1;
      if Inherited(a) && a.name == n then Some(a) else LastInherited(parentAttrs[..|parentAttrs| - 1], n)
  }

  /** After the merge, a name some inherited parent attribute carries holds
      the last such attribute and nothing else; every other name keeps
      exactly the variation's own entry. */
  lemma {:induction false} MergeInheritedMembers(attrs: AttributeList, parentAttrs: seq<(string, Attribute)>)
    ensures forall e :: e in MergeInherited(attrs, parentAttrs) <==>
      if LastInherited(parentAttrs, e.0).Some? then e.1 == LastInherited(parentAttrs, e.0).value
      else e in attrs
  {
    if parentAttrs != [] {
      var init := parentAttrs[..|parentAttrs| - 1];
      MergeInheritedMembers(attrs, init);
    }
  }

  /** The attributes `check_attribute` inspects for a product. */
  function EffectiveAttributes(c: Catalog, p: Product): AttributeList
  {
    if p.kind == Variation && p.parentId != 0 && p.parentId in c.products
    then MergeInherited(p.attributes, c.products[p.parentId].attributes)
    else p.attributes
  }

  /** A product attribute exposes term `t`: a structured attribute under the
      term's taxonomy with an option resolving to the term's slug, or a plain
      value under that taxonomy equal to the slug. */
  predicate AttributeHasTerm(c: Catalog, t: Term, e: (string, Attribute))
  {
    && t.taxonomy == e.0
    && ((e.1.Structured? && exists o :: o in e.1.options && o in c.terms && c.terms[o].slug == t.slug)
        || e.1 == Plain(t.slug))
  }

  /** The cart line with key `key` chose slug `t.slug` for the term's taxonomy. */
  predicate VariationHasTerm(lines: seq<CartLine>, key: string, t: Term)
  {
    exists l :: l in lines && l.key == key &&
      ("attribute_" + t.taxonomy) in l.variation && l.variation["attribute_" + t.taxonomy] == t.slug
  }

  /** Reference definition of the `in_list` flag of `check_attribute`. */
  predicate AttributeMatch(c: Catalog, p: Product, f: Filter, itemKey: Option<string>, lines: seq<CartLine>)
  {
    exists t :: t in ResolvedTerms(c, MapFilterValue(f)) &&
      ((exists e :: e in EffectiveAttributes(c, p) && AttributeHasTerm(c, t, e))
       || (itemKey.Some? && VariationHasTerm(lines, itemKey.value, t)))
  }

  /** First loop of `check_attribute`: resolve each id, skipping failures. */
  method ResolveAttributeTerms(c: Catalog, ids: seq<int>) returns (ts: seq<Term>)
    ensures ts == ResolvedTerms(c, ids)
  {
    ts := [];
    var i := 0;
    while i < |ids|
      invariant 0 <= i <= |ids|
      invariant ts == ResolvedTerms(c, ids[..i])
    {
      assert ids[..i + 1][..i] == ids[..i];
      if ids[i] in c.terms {
        ts := ts + [c.terms[ids[i]]];
      }
      i := i + 1;
    }
    assert ids[..i] == ids;
  }

  /** Second loop: a variation takes over its parent's inherited attributes. */
  method CollectAttributes(c: Catalog, p: Product) returns (attrs: seq<(string, Attribute)>)
    ensures attrs == EffectiveAttributes(c, p)
    ensures !(p.kind == Variation && p.parentId != 0 && p.parentId in c.products) ==> attrs == p.attributes
    ensures p.kind == Variation && p.parentId != 0 && p.parentId in c.products ==>
      forall e :: e in attrs <==>
        if LastInherited(c.products[p.parentId].attributes, e.0).Some?
        then e.1 == LastInherited(c.products[p.parentId].attributes, e.0).value
        else e in p.attributes
  {
    attrs := p.attributes;
    if p.kind == Variation && p.parentId != 0 && p.parentId in c.products {
      var parentAttrs := c.products[p.parentId].attributes;
      var i := 0;
      while i < |parentAttrs|
        invariant 0 <= i <= |parentAttrs|
        invariant attrs == MergeInherited(p.attributes, parentAttrs[..i])
      {
        assert parentAttrs[..i + 1][..i] == parentAttrs[..i];
        var a := parentAttrs[i].1;
        if Inherited(a) {
          attrs := SetKey(attrs, a.name, a);
        }
        i := i + 1;
      }
      assert parentAttrs[..i] == parentAttrs;
      MergeInheritedMembers(p.attributes, parentAttrs);
    }
  }

  /** Does some attribute expose term `t`? The option scan skips options
      whose term does not resolve. */
  method AttributesExpose(c: Catalog, t: Term, attrs: seq<(string, Attribute)>) returns (found: bool)
    ensures found <==> exists e :: e in attrs && AttributeHasTerm(c, t, e)
  {
    var j := 0;
    while j < |attrs|
      invariant 0 <= j <= |attrs|
      invariant forall e :: e in attrs[..j] ==> !AttributeHasTerm(c, t, e)
    {
      var (taxonomy, a) := attrs[j];
      if t.taxonomy == taxonomy && a.Structured? {
        var k := 0;
        while k < |a.options|
          invariant 0 <= k <= |a.options|
          invariant forall o :: o in a.options[..k] ==> !(o in c.terms && c.terms[o].slug == t.slug)
        {
          var o := a.options[k];
          if o in c.terms && c.terms[o].slug == t.slug {
            assert AttributeHasTerm(c, t, attrs[j]);
            return true;
          }
          k := k + 1;
        }
        assert a.options[..k] == a.options;
      }
      if t.taxonomy == taxonomy && a == Plain(t.slug) {
        assert AttributeHasTerm(c, t, attrs[j]);
        return true;
      }
      assert attrs[..j + 1] == attrs[..j] + [attrs[j]];
      j := j + 1;
    }
    assert attrs[..j] == attrs;
    return false;
  }

  /** Does the cart line with key `key` carry one of the terms as its chosen
      variation value? */
  method VariationMatches(lines: seq<CartLine>, key: string, ts: seq<Term>) returns (found: bool)
    ensures found <==> exists t :: t in ts && VariationHasTerm(lines, key, t)
  {
    found := false;
    var i := 0;
    while i < |lines|
      invariant 0 <= i <= |lines|
      invariant found <==> exists t :: t in ts && VariationHasTerm(lines[..i], key, t)
    {
      var line := lines[i];
      assert lines[..i + 1] == lines[..i] + [line];
      if line.key == key && line.variation != map[] {
        var j := 0;
        while j < |ts|
          invariant 0 <= j <= |ts|
          invariant found <==>
            (exists t :: t in ts && VariationHasTerm(lines[..i], key, t)) ||
            (exists t :: t in ts[..j] && VariationHasTerm([line], key, t))
        {
          var t := ts[j];
          if ("attribute_" + t.taxonomy) in line.variation && line.variation["attribute_" + t.taxonomy] == t.slug {
            assert VariationHasTerm([line], key, t);
            found := true;
          }
          assert ts[..j + 1] == ts[..j] + [t];
          j := j + 1;
        }
        assert ts[..j] == ts;
      }
      forall t | true
        ensures VariationHasTerm(lines[..i + 1], key, t) <==>
          VariationHasTerm(lines[..i], key, t) || VariationHasTerm([line], key, t)
      {
      }
      i := i + 1;
    }
    assert lines[..i] == lines;
  }

  /** `check_attribute`: the filter's attribute terms against the product's
      (and, for a variation, the parent's inherited) attributes and against
      the variation chosen on the cart line `itemKey`. */
  method CheckAttribute(c: Catalog, p: Product, f: Filter, itemKey: Option<string>, lines: seq<CartLine>)
    returns (r: bool)
    ensures r <==> (InList(f) <==> AttributeMatch(c, p, f, itemKey, lines))
  {
    var ts := ResolveAttributeTerms(c, MapFilterValue(f));
    var attrs := CollectAttributes(c, p);
    var inList := false;
    var i := 0;
    while i < |ts|
      invariant 0 <= i <= |ts|
      invariant !inList
      invariant forall t :: t in ts[..i] ==> !exists e :: e in attrs && AttributeHasTerm(c, t, e)
    {
      var exposed := AttributesExpose(c, ts[i], attrs);
      if exposed {
        assert ts[i] in ts;
        inList := true;
        break;
      }
      assert ts[..i + 1] == ts[..i] + [ts[i]];
      i := i + 1;
    }
    assert !inList ==> ts[..i] == ts;
    ghost var productMatch := inList;
    assert productMatch <==> exists t :: t in ts && exists e :: e in attrs && AttributeHasTerm(c, t, e);
    if itemKey.Some? {
      var chosen := VariationMatches(lines, itemKey.value, ts);
      inList := inList || chosen;
    }
    assert inList <==> AttributeMatch(c, p, f, itemKey, lines);
    r := if InList(f) then inList else !inList;
  }
}
