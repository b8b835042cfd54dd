/** The storefront data the filter matcher reads: products, taxonomy terms,
    attributes, filters and the global settings. Everything the hosting shop
    looks up by id (products, terms, ancestors) is an explicit map here. */
module Catalog {
  import opened Common

  type ProductId = int
  type TermId = int

  datatype ProductKind = Simple | Variable | Grouped | Variation | External

  /** A product attribute as the shop returns it: a structured attribute
      with term-id options, or (for a variation) a plain chosen value. */
  datatype Attribute =
    | Structured(name: string, options: seq<TermId>, visible: bool, variation: bool)
    | Plain(value: string)

  /** No key appears twice: a PHP array holds each key once. */
  predicate DistinctKeys(s: seq<(string, Attribute)>)
  {
    forall i, j :: 0 <= i < j < |s| ==> s[i].0 != s[j].0
  }

  /** An attribute array keyed by taxonomy name, in the shop's order. */
  type AttributeList = s: seq<(string, Attribute)> | DistinctKeys(s) witness []

  datatype Product = Product(
    id: ProductId,
    /** 0 when the product has no parent. */
    parentId: ProductId,
    kind: ProductKind,
    children: seq<ProductId>,
    onSale: bool,
    /** The product's own attributes, in the order the shop lists them. */
    attributes: AttributeList,
    /** Minimum regular and sale price over the variations of a variable
        product; an empty sale price is None. */
    minRegularPrice: real,
    minSalePrice: Option<real>)

  predicate IsVariableProduct(p: Product) { p.kind == Variable }

  datatype Taxonomy = ProductCat | ProductTag

  /** A taxonomy term: the taxonomy it lives in and its slug. */
  datatype Term = Term(taxonomy: string, slug: string)

  /** The shop's lookups: products by id, the terms attached to a product
      per taxonomy, the ancestors of a term, terms by id. `rank` witnesses
      that following parents ends: a parent always has a smaller rank. */
  datatype Catalog = Catalog(
    products: map<ProductId, Product>,
    productTerms: map<(ProductId, Taxonomy), seq<TermId>>,
    ancestors: map<(TermId, Taxonomy), seq<TermId>>,
    terms: map<TermId, Term>,
    rank: map<ProductId, nat>)
  {
    /** Every product is stored under its id, and every parent id resolves
        to a stored product of smaller rank. */
    ghost predicate Valid()
    {
      && (forall id :: id in products ==> products[id].id == id && id in rank)
      && (forall id :: id in products && products[id].parentId != 0 ==>
            products[id].parentId in products && rank[products[id].parentId] < rank[id])
    }

    function TermsOf(id: ProductId, tax: Taxonomy): seq<TermId>
    {
      if (id, tax) in productTerms then productTerms[(id, tax)] else []
    }

    function AncestorsOf(t: TermId, tax: Taxonomy): seq<TermId>
    {
      if (t, tax) in ancestors then ancestors[(t, tax)] else []
    }
  }

  /** One entry of a filter's value list: an id with its display caption. */
  datatype FilterValue = FilterValue(value: int, caption: string)

  /** A rule filter: its type, its comparison ("in_list", "not_in_list", or a
      numeric operator), its id list and, for price and stock filters, the
      number compared against. */
  datatype Filter = Filter(kind: string, comparation: string, values: seq<FilterValue>, amount: real)

  /** Global settings the source reads from singletons. */
  datatype Settings = Settings(
    nonDiscountedProductsOnly: bool,
    disableWhenOnSale: bool,
    discountBasedOnRegularPrice: bool)

  /** `map_filter_value`: the id list of a filter, entry by entry. */
  function MapFilterValue(f: Filter): (ids: seq<int>)
    ensures |ids| == |f.values|
    ensures forall i :: 0 <= i < |ids| ==> ids[i] == f.values[i].value
  {
    seq(|f.values|, i requires 0 <= i < |f.values| => f.values[i].value)
  }

  /** True when the filter's comparison is "in_list"; any other comparison
      is read as its negation. */
  predicate InList(f: Filter) { f.comparation == "in_list" }

  /** Lookups the source delegates to code outside this model: the resolved
      product price, the stock quantity, the numeric comparison helper and
      the registry of already discounted products. */
  datatype Resolvers = Resolvers(
    productPrice: Product -> real,
    stockQuantity: Product -> int,
    compareNumeric: (real, real, string) -> bool,
    isDiscounted: Product -> bool)
}
