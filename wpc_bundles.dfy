/** The WPClever Product Bundles integration: before pricing rules see the
    cart, the items a bundle added on its own (those carrying a
    `woosb_parent_id`) are removed, so only the bundle and the items the
    shopper chose are priced. */
module WpcBundles {

  /** The raw `woosb_parent_id` entry of an initial cart item, as the
      bundle plugin may store it. */
  datatype ParentId =
    | Absent                  // no such entry, or `null`
    | Flag(b: bool)
    | IntId(n: int)
    | StrId(s: string)

  /** `empty()` on the entry: absent, `false`, `0`, `""` and `"0"` are
      empty. */
  predicate IsEmpty(p: ParentId)
  {
    match p
    case Absent => true
    case Flag(b) => !b
    case IntId(n) => n == 0
    case StrId(s) => s == "" || s == "0"
  }

  /** An initial cart item: its bundle parent and the rest of its data,
      which the integration does not look at. */
  datatype InitItem<T> = InitItem(woosbParentId: ParentId, data: T)

  /** The item was added by a bundle. */
  predicate Bundled<T>(item: InitItem<T>)
  {
    !IsEmpty(item.woosbParentId)
  }

  /** The entries (cart key and item) that survive, in their order. */
  function Survivors<T>(items: seq<(string, InitItem<T>)>): (r: seq<(string, InitItem<T>)>)
    ensures |r| <= |items|
  {
    if items == [] then []
    else if Bundled(items[0].1) then Survivors(items[1..])
    else [items[0]] + Survivors(items[1..])
  }

  /** `remove_initial_bundled_items`: walks the cart and unsets every entry
      whose `woosb_parent_id` is not empty. */
  method RemoveInitialBundledItems<T>(items: seq<(string, InitItem<T>)>) returns (r: seq<(string, InitItem<T>)>)
    ensures r == Survivors(items)
    ensures forall e :: e in r ==> !Bundled(e.1)
    ensures forall e :: e in items ==> (e in r <==> !Bundled(e.1))
  {
    r := [];
    var i := 0;
    while i < |items|
      invariant 0 <= i <= |items|
      invariant r + Survivors(items[i..]) == Survivors(items)
    {
      assert items[i..][1..] == items[i + 1..];
      if !IsEmpty(items[i].1.woosbParentId) {
        // the entry is unset
      } else {
        assert r + Survivors(items[i..]) == (r + [items[i]]) + Survivors(items[i + 1..]);
        r := r + [items[i]];
      }
      i := i + 1;
    }
    assert r == Survivors(items);
    SurvivorsMembers(items);
  }

  /** An entry survives exactly when it was in the cart and no bundle added
      it. */
  lemma {:induction false} SurvivorsMembers<T>(items: seq<(string, InitItem<T>)>)
    ensures forall e :: e in Survivors(items) <==> e in items && !Bundled(e.1)
  {
    if items != [] {
      SurvivorsMembers(items[1..]);
      assert items == [items[0]] + items[1..];
    }
  }

  /** `s` is `t` with some entries removed, the rest in their order. */
  ghost predicate Subsequence<U>(s: seq<U>, t: seq<U>)
  {
    s == [] || (t != [] && (Subsequence(s, t[1..]) || (s[0] == t[0] && Subsequence(s[1..], t[1..]))))
  }

  /** Removal keeps the order of the entries and adds none. */
  lemma {:induction false} SurvivorsInOrder<T>(items: seq<(string, InitItem<T>)>)
    ensures Subsequence(Survivors(items), items)
  {
    if items != [] {
      SurvivorsInOrder(items[1..]);
      if !Bundled(items[0].1) {
        assert Survivors(items)[1..] == Survivors(items[1..]);
      }
    }
  }

  /** A cart without bundled entries is left as it is. */
  lemma {:induction false} SurvivorsUnbundled<T>(items: seq<(string, InitItem<T>)>)
    requires forall k :: 0 <= k < |items| ==> !Bundled(items[k].1)
    ensures Survivors(items) == items
  {
    if items != [] {
      assert forall k :: 0 <= k < |items[1..]| ==> items[1..][k] == items[k + 1];
      SurvivorsUnbundled(items[1..]);
    }
  }

  /** No surviving entry was added by a bundle. */
  lemma {:induction false} SurvivorsUnbundledAll<T>(items: seq<(string, InitItem<T>)>)
    ensures forall k :: 0 <= k < |Survivors(items)| ==> !Bundled(Survivors(items)[k].1)
  {
    if items != [] {
      SurvivorsUnbundledAll(items[1..]);
    }
  }

  /** Removing twice removes nothing more. */
  lemma SurvivorsIdempotent<T>(items: seq<(string, InitItem<T>)>)
    ensures Survivors(Survivors(items)) == Survivors(items)
  {
    SurvivorsUnbundledAll(items);
    SurvivorsUnbundled(Survivors(items));
  }
}
