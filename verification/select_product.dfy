/** The product-selection screen: a fixed catalogue of three items, the
    highlighted card, and the projection of the chosen item onto the product
    context. */
module SelectProduct {
  import opened Base
  import opened ProductContext

  /** One catalogue entry; `image` names the bundled picture. */
  datatype CatalogueItem = CatalogueItem(
    name: string, id: string, size: string, color: string,
    price: real, ordered: string, received: string, image: string)

  const Catalogue: seq<CatalogueItem> := [
    CatalogueItem("Product A", "123", "M", "Black", 99.99, "2025-03-05", "2025-03-05", "blacktshirt.png"),
    CatalogueItem("Product B", "456", "L", "White", 199.99, "2025-03-05", "2025-03-05", "aj1.png"),
    CatalogueItem("Product C", "789", "S", "Red", 299.99, "2025-03-05", "2025-03-05", "nikewhite.png")
  ]

  /** A card is highlighted when its name equals the selected item's name. */
  predicate Highlighted(selected: Option<CatalogueItem>, item: CatalogueItem)
    ensures Highlighted(selected, item) ==> BottomBarShown(selected)
  {
    selected.Some? && selected.value.name == item.name
  }

  predicate BottomBarShown(selected: Option<CatalogueItem>)
  {
    selected.Some?
  }

  /** Continue: with an item selected, the context product becomes exactly
      that item's five base fields; with none, the context is untouched. */
  function HandleButtonClick(selected: Option<CatalogueItem>, context: Option<Product>): (next: Option<Product>)
    ensures selected.None? ==> next == context
    ensures selected.Some? ==> next.Some? && IsBase(next.value)
    ensures selected.Some? ==>
      && next.value.name == selected.value.name
      && next.value.id == selected.value.id
      && next.value.price == selected.value.price
      && next.value.ordered == selected.value.ordered
      && next.value.received == selected.value.received
  {
    match selected
    case None => context
    case Some(item) => Some(BaseProduct(item.name, item.id, item.price, item.ordered, item.received))
  }

  /** Whatever the context held before, including a product enriched by the
      assessment screen, Continue replaces it wholesale: the outcome depends
      on the selection alone. */
  lemma ContinueReplacesContext(item: CatalogueItem, before: Option<Product>, other: Option<Product>)
    ensures HandleButtonClick(Some(item), before) == HandleButtonClick(Some(item), other)
  {
  }

  /** Size, colour and image are dropped: two items that agree on the base
      fields project to the same product. */
  lemma ProjectionForgetsExtras(a: CatalogueItem, b: CatalogueItem, context: Option<Product>)
    requires a.name == b.name && a.id == b.id && a.price == b.price
    requires a.ordered == b.ordered && a.received == b.received
    ensures HandleButtonClick(Some(a), context) == HandleButtonClick(Some(b), context)
  {
  }

  /** The catalogue names are pairwise distinct, and so are its ids. */
  lemma CatalogueDistinct()
    ensures |Catalogue| == 3
    ensures forall j, k :: 0 <= j < k < |Catalogue| ==> Catalogue[j].name != Catalogue[k].name
    ensures forall j, k :: 0 <= j < k < |Catalogue| ==> Catalogue[j].id != Catalogue[k].id
  {
  }

  /** Selecting a catalogue entry highlights that card and no other; with no
      selection no card is highlighted. */
  lemma ExactlyOneHighlighted(k: nat)
    requires k < |Catalogue|
    ensures forall j :: 0 <= j < |Catalogue| ==> (Highlighted(Some(Catalogue[k]), Catalogue[j]) <==> j == k)
    ensures forall j :: 0 <= j < |Catalogue| ==> !Highlighted(None, Catalogue[j])
  {
    CatalogueDistinct();
  }
}
