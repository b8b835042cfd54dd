/** The cart line the pricing engine works on. Its key, product, quantity and
    "extra" flag are fixed for a pricing pass; its price and its modifier log
    are changed in place by the rules that apply to it. */
module Cart {
  import opened Catalog

  /** Audit record of one rule's effect on one line: the rule, how many of
      the line's units it covers, the per-unit discount and the line's key. */
  datatype Modifier = Modifier(ruleId: string, modifyQuantity: int, discountPerUnit: real, itemKey: string)

  class CartItem {
    const key: string
    const product: Product
    const quantity: int
    /** A synthetic line a rule added (a free gift, say). */
    const isExtra: bool
    var price: real
    var modifiers: seq<Modifier>

    constructor (key: string, product: Product, quantity: int, isExtra: bool, price: real)
      ensures this.key == key && this.product == product && this.quantity == quantity
      ensures this.isExtra == isExtra && this.price == price && modifiers == []
    {
      this.key := key;
      this.product := product;
      this.quantity := quantity;
      this.isExtra := isExtra;
      this.price := price;
      modifiers := [];
    }

    /** `set_price`. */
    method SetPrice(p: real)
      modifies this
      ensures price == p && modifiers == old(modifiers)
    {
      price := p;
    }

    /** `add_modifier`: appends to the line's modifier log. */
    method AddModifier(m: Modifier)
      modifies this
      ensures modifiers == old(modifiers) + [m] && price == old(price)
    {
      modifiers := modifiers + [m];
    }
  }

  /** The quantities of a sequence of lines, in order. */
  function Quantities(items: seq<CartItem>): (qs: seq<int>)
    ensures |qs| == |items|
    ensures forall i :: 0 <= i < |items| ==> qs[i] == items[i].quantity
  {
    seq(|items|, i requires 0 <= i < |items| => items[i].quantity)
  }

  /** The current prices of a sequence of lines, in order. */
  function Prices(items: seq<CartItem>): (ps: seq<real>)
    reads items
    ensures |ps| == |items|
    ensures forall i :: 0 <= i < |items| ==> ps[i] == items[i].price
  {
    seq(|items|, i reads items requires 0 <= i < |items| => items[i].price)
  }

  /** The current modifier lists of a sequence of lines, in order. */
  function ModifierLists(items: seq<CartItem>): (ms: seq<seq<Modifier>>)
    reads items
    ensures |ms| == |items|
    ensures forall i :: 0 <= i < |items| ==> ms[i] == items[i].modifiers
  {
    seq(|items|, i reads items requires 0 <= i < |items| => items[i].modifiers)
  }

  /** The lines are distinct objects. */
  predicate Distinct(items: seq<CartItem>)
  {
    forall i, j :: 0 <= i < j < |items| ==> items[i] != items[j]
  }
}
