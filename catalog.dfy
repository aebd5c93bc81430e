/**
 * The product lists: the point-of-sale product grid and the product
 * management page share one query (an optional category, then a search
 * over name and barcode). The grid's plus button adds a product to the
 * cart; the management page saves and deletes products in the local
 * product table.
 */
module Catalog {
  import opened Common
  import opened Text
  import opened Entities
  import opened CartStore

  /** The category button that stands for "no category". */
  const AllCategories := "Tất cả"

  /** A category is in force when one is chosen and it is not the empty text. */
  predicate CategoryChosen(category: Option<string>) {
    category.Some? && category.value != ""
  }

  /** The search test: the lower-cased name contains the lower-cased term, or the barcode contains the term as typed. */
  predicate MatchesSearch(p: Product, term: string) {
    Contains(Lower(p.name), Lower(term)) || Contains(p.barcode, term)
  }

  /**
   * The product query: `products` is the product table in key order. With
   * a category only that category is read, and a non-empty term then keeps
   * the matching products, in order.
   */
  function VisibleProducts(products: seq<Product>, category: Option<string>, term: string): (r: seq<Product>)
    ensures Subsequence(r, products)
    ensures forall p :: p in products ==>
              (p in r <==> (!CategoryChosen(category) || p.category == category.value)
                           && (term == "" || MatchesSearch(p, term)))
    ensures CategoryChosen(category) ==> forall i :: 0 <= i < |r| ==> r[i].category == category.value
  {
    var inCategory := if CategoryChosen(category) then Filter(products, (p: Product) => p.category == category.value)
                      else products;
    var r := if term != "" then Filter(inCategory, (p: Product) => MatchesSearch(p, term)) else inCategory;
    SubsequenceSelf(products);
    SubsequenceSelf(inCategory);
    SubsequenceTrans(r, inCategory, products);
    r
  }

  /** Without a category and a search term every product is shown. */
  lemma NoFilterShowsAll(products: seq<Product>)
    ensures VisibleProducts(products, None, "") == products
  {
    SubsequenceSelf(products);
  }

  /** The category buttons: "Tất cả" clears the category, any other picks it. */
  function SelectCategory(button: string): (category: Option<string>)
    ensures button == AllCategories <==> category.None?
    ensures category.Some? ==> category.value == button
  {
    if button == AllCategories then None else Some(button)
  }

  /** A button is highlighted when it is the chosen category, or it is "Tất cả" and none is chosen. */
  predicate ButtonActive(category: Option<string>, button: string) {
    category == Some(button) || (button == AllCategories && !CategoryChosen(category))
  }

  /** After a click the clicked button is the highlighted one, and "Tất cả" shows the search over every product. */
  lemma ClickHighlights(button: string, products: seq<Product>, term: string)
    requires button != ""
    ensures ButtonActive(SelectCategory(button), button)
    ensures button == AllCategories ==> VisibleProducts(products, SelectCategory(button), term)
                                        == VisibleProducts(products, None, term)
  {
  }

  /** The grid's plus button: add that product to the cart, once. */
  method ClickAdd(s: Store, p: Product)
    requires s.Valid()
    modifies s
    ensures s.Valid() && s.items == AddedToCart(old(s.items), p)
    ensures var t := old(LinkedOrderId(s.activeTableId, s.tables));
            s.orders == if t.Some? && t.value in old(s.orders) then old(s.orders)[t.value := Saved(old(s.orders)[t.value], s.items, s.customerId)]
                        else old(s.orders)
    ensures s.activeTableId == old(s.activeTableId) && s.isTableOccupied == old(s.isTableOccupied) && s.customerId == old(s.customerId)
    ensures s.notes == old(s.notes) && s.tables == old(s.tables) && s.customers == old(s.customers) && s.nextOrderId == old(s.nextOrderId)
  {
    s.AddToCart(p);
  }

  /** The product management page over the local product table. */
  class ProductsPage {
    var products: map<int, Product>
    var nextId: int
    /** The product whose deletion waits for confirmation. */
    var deleting: Option<Product>

    /** Keys are handed out from 1 upwards and each row carries its key as id. */
    ghost predicate Valid()
      reads this
    {
      nextId > 0 && forall k :: k in products ==> 0 < k < nextId && products[k].id == Some(k)
    }

    constructor (rows: map<int, Product>, next: int)
      requires next > 0 && forall k :: k in rows ==> 0 < k < next && rows[k].id == Some(k)
      ensures Valid() && products == rows && nextId == next && deleting == None
    {
      products := rows;
      nextId := next;
      deleting := None;
    }

    /** The trash button: remember the product until the deletion is confirmed. */
    method AskDelete(p: Product)
      modifies this
      ensures deleting == Some(p) && products == old(products) && nextId == old(nextId)
    {
      deleting := Some(p);
    }

    /** `handleSave`: a product with an id overwrites its row (a missing row is left alone); one without is added under a new key. */
    method HandleSave(data: Product)
      requires Valid()
      modifies this
      ensures Valid() && deleting == old(deleting)
      ensures Truthy(data.id) ==> nextId == old(nextId)
                                  && products == if data.id.value in old(products) then old(products)[data.id.value := data]
                                                 else old(products)
      ensures !Truthy(data.id) ==> nextId == old(nextId) + 1 && old(nextId) !in old(products)
                                   && products == old(products)[old(nextId) := data.(id := Some(old(nextId)))]
    {
      if Truthy(data.id) {
        if data.id.value in products {
          products := products[data.id.value := data];
        }
      } else {
        var key := nextId;
        products := products[key := data.(id := Some(key))];
        nextId := nextId + 1;
      }
    }

    /** `handleDelete`: only a pending product with an id is deleted, and then nothing is pending any more. */
    method HandleDelete()
      requires Valid()
      modifies this
      ensures Valid() && nextId == old(nextId)
      ensures old(deleting).Some? && Truthy(old(deleting).value.id) ==>
                products == old(products) - {old(deleting).value.id.value} && deleting == None
      ensures !(old(deleting).Some? && Truthy(old(deleting).value.id)) ==>
                products == old(products) && deleting == old(deleting)
    {
      if deleting.Some? && Truthy(deleting.value.id) {
        products := products - {deleting.value.id.value};
        deleting := None;
      }
    }
  }
}
