/**
 The public menu section: the category chips, the items a chip shows, the
 per-dish quantity stepper clamped to 1..10, and adding a dish to the cart
 with the chosen quantity and note before resetting both.
 */
module MenuSection {
  import opened Wrappers
  import Seqs
  import Store

  const AllCategories := "Todos"
  const MinQuantity := 1
  const MaxQuantity := 10

  function Category(item: Store.MenuItem): string { item.category }

  function CategoryIs(category: string): Store.MenuItem -> bool {
    (item: Store.MenuItem) => item.category == category
  }

  /** `menuItems.map(item => item.category)` */
  function CategoriesOf(items: seq<Store.MenuItem>): (r: seq<string>)
    ensures |r| == |items| && forall i :: 0 <= i < |items| ==> r[i] == items[i].category
  {
    seq(|items|, i requires 0 <= i < |items| => Category(items[i]))
  }

  /**
   `['Todos', ...new Set(categories)]`: "Todos" first, then each category
   once, in the order of its first dish on the menu.
   */
  function Categories(items: seq<Store.MenuItem>): (r: seq<string>)
    ensures |r| >= 1 && r[0] == AllCategories
    ensures forall c :: c in r[1..] <==> exists i :: 0 <= i < |items| && items[i].category == c
    ensures forall c :: c in r[1..] <==> c in CategoriesOf(items)
    ensures Seqs.NoDuplicates(r[1..])
    ensures forall i, j :: 1 <= i < j < |r| ==>
      Seqs.FirstIndex(CategoriesOf(items), r[i]) < Seqs.FirstIndex(CategoriesOf(items), r[j])
  {
    var categories := CategoriesOf(items);
    var distinct := Seqs.Distinct(categories);
    assert ([AllCategories] + distinct)[1..] == distinct;
    forall c ensures c in distinct <==> exists i :: 0 <= i < |items| && items[i].category == c {
      if c in categories {
        var i :| 0 <= i < |categories| && categories[i] == c;
        assert items[i].category == c;
      }
      if exists i :: 0 <= i < |items| && items[i].category == c {
        var i :| 0 <= i < |items| && items[i].category == c;
        assert categories[i] == c;
      }
    }
    [AllCategories] + distinct
  }

  /** The items shown under the active chip: all of them for "Todos", else that category's, in menu order. */
  function FilteredItems(items: seq<Store.MenuItem>, active: string): (r: seq<Store.MenuItem>)
    ensures active == AllCategories ==> r == items
    ensures active != AllCategories ==> forall x :: x in r <==> x in items && x.category == active
    ensures active != AllCategories ==> forall i :: 0 <= i < |r| ==> r[i].category == active
    ensures active != AllCategories ==>
      forall x :: multiset(r)[x] == if x.category == active then multiset(items)[x] else 0
  {
    if active == AllCategories then items
    else
      var r := Seqs.Filter(items, CategoryIs(active));
      assert forall x :: multiset(r)[x] == if x.category == active then multiset(items)[x] else 0 by {
        forall x ensures multiset(r)[x] == if x.category == active then multiset(items)[x] else 0 {
          Seqs.FilterMultiplicity(items, CategoryIs(active), x);
        }
      }
      r
  }

  /** The filtered list keeps the menu order. */
  lemma FilteredKeepsOrder(items: seq<Store.MenuItem>, active: string)
    ensures Seqs.IsSubsequence(FilteredItems(items, active), items)
  {
    if active == AllCategories {
      Seqs.SubsequenceOfSelf(items);
    } else {
      Seqs.FilterIsSubsequence(items, CategoryIs(active));
    }
  }

  /** Every chip after "Todos" shows at least one item. */
  lemma ChipsAreNonEmpty(items: seq<Store.MenuItem>, k: int)
    requires 1 <= k < |Categories(items)|
    ensures FilteredItems(items, Categories(items)[k]) != [] || Categories(items)[k] == AllCategories
  {
    var c := Categories(items)[k];
    assert c in Categories(items)[1..];
    var i :| 0 <= i < |items| && items[i].category == c;
    if c != AllCategories {
      assert items[i] in FilteredItems(items, c);
    }
  }

  // ---------------------------------------------------------------- quantity

  /** `quantities[id] || 1`: a missing or zero entry reads as one. */
  function ShownQuantity(quantities: map<string, int>, id: string): (q: int)
    ensures id !in quantities ==> q == 1
    ensures id in quantities && quantities[id] == 0 ==> q == 1
    ensures id in quantities && quantities[id] != 0 ==> q == quantities[id]
  {
    if id in quantities && quantities[id] != 0 then quantities[id] else 1
  }

  /** `Math.max(1, Math.min(10, n))` */
  function Clamp(n: int): (r: int)
    ensures MinQuantity <= r <= MaxQuantity
    ensures MinQuantity <= n <= MaxQuantity ==> r == n
    ensures n < MinQuantity ==> r == MinQuantity
    ensures n > MaxQuantity ==> r == MaxQuantity
  {
    if n > MaxQuantity then MaxQuantity else if n < MinQuantity then MinQuantity else n
  }

  /** `handleQuantityChange`: step the dish's quantity, staying within 1..10; no other dish changes. */
  function QuantityChange(quantities: map<string, int>, id: string, delta: int): (r: map<string, int>)
    ensures id in r && MinQuantity <= r[id] <= MaxQuantity
    ensures r[id] == Clamp(ShownQuantity(quantities, id) + delta)
    ensures forall k :: k != id ==> (k in r <==> k in quantities) && (k in r ==> r[k] == quantities[k])
  {
    quantities[id := Clamp(ShownQuantity(quantities, id) + delta)]
  }

  /** Within the bounds, a step down undoes a step up. */
  lemma StepDownUndoesStepUp(quantities: map<string, int>, id: string)
    requires id in quantities && MinQuantity <= quantities[id] < MaxQuantity
    ensures QuantityChange(QuantityChange(quantities, id, 1), id, -1) == quantities
  {
  }

  /** At the top of the range a step up changes nothing. */
  lemma StepUpSaturates(quantities: map<string, int>, id: string)
    requires id in quantities && quantities[id] == MaxQuantity
    ensures QuantityChange(quantities, id, 1) == quantities
  {
  }

  // ---------------------------------------------------------------- add to cart

  datatype Selections = Selections(quantities: map<string, int>, observations: map<string, string>)

  datatype AddStep = AddStep(cart: seq<Store.CartItem>, selections: Selections)

  /** `handleAddToCart`: add the shown quantity and the typed note, then reset the dish's quantity to 1 and note to "". */
  function AddFromMenu(cart: seq<Store.CartItem>, selections: Selections, item: Store.MenuItem): (r: AddStep)
    ensures var note := if item.id in selections.observations then Some(selections.observations[item.id]) else None;
      r.cart == Store.AddToCart(cart, item, ShownQuantity(selections.quantities, item.id), note)
    ensures r.selections.quantities == selections.quantities[item.id := 1]
    ensures r.selections.observations == selections.observations[item.id := ""]
  {
    var note := if item.id in selections.observations then Some(selections.observations[item.id]) else None;
    AddStep(
      Store.AddToCart(cart, item, ShownQuantity(selections.quantities, item.id), note),
      Selections(selections.quantities[item.id := 1], selections.observations[item.id := ""]))
  }

  /** The cart gains exactly the quantity the stepper showed, and other dishes keep theirs. */
  lemma AddFromMenuAddsShownQuantity(cart: seq<Store.CartItem>, selections: Selections, item: Store.MenuItem, other: string)
    requires Store.UniqueIds(cart, Store.CartId) && other != item.id
    ensures var r := AddFromMenu(cart, selections, item);
      && Store.QuantityOf(r.cart, item.id) == Store.QuantityOf(cart, item.id) + ShownQuantity(selections.quantities, item.id)
      && Store.QuantityOf(r.cart, other) == Store.QuantityOf(cart, other)
      && ShownQuantity(r.selections.quantities, item.id) == 1
  {
    var note := if item.id in selections.observations then Some(selections.observations[item.id]) else None;
    Store.AddToCartQuantity(cart, item, ShownQuantity(selections.quantities, item.id), note);
    Store.AddToCartOtherQuantity(cart, item, ShownQuantity(selections.quantities, item.id), note, other);
  }
}
