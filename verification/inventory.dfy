/** The `products` collection: the product record, the stored documents and
    the business rules shared by every operation (status derivation and the
    product-number lookup). */
module Inventory {
  import opened Wrappers
  import opened Strings

  /** Identifier the document store assigns to each stored document. */
  type Id = nat

  /** One car part. Quantities and prices are JavaScript numbers in the
      source; the model keeps them as integers. */
  datatype Product = Product(
    productNumber: string,
    productName: string,
    carName: string,
    modelNumber: string,
    partType: string,
    quantity: int,
    priceIqd: int,
    wholesalePriceIqd: int,
    image: Option<string>,
    originalQuantity: int,
    messageId: Option<int>,
    status: string,
    lastUpdate: string)

  /** A stored document: its identifier and its fields. */
  datatype Doc = Doc(id: Id, product: Product)

  /** The collection, in creation order (the order a full table scan
      returns documents in). */
  type Store = seq<Doc>

  /** Status written when the quantity is positive ("available"). */
  const InStock: string := "متوفر"
  /** Status written otherwise ("sold out"). */
  const SoldOut: string := "نفذ"
  /** Prefix of every generated product number. */
  const NumberPrefix: string := "PROD-"

  /** The status the source derives from a quantity. */
  function DerivedStatus(quantity: int): (s: string)
    ensures s == InStock <==> quantity > 0
    ensures s == InStock || s == SoldOut
  {
    if quantity > 0 then InStock else SoldOut
  }

  /** A product whose status agrees with its quantity. */
  predicate StatusConsistent(p: Product) {
    p.status == DerivedStatus(p.quantity)
  }

  /** JavaScript truthiness of an optional string: present and non-empty. */
  predicate Truthy(o: Option<string>) {
    o.Some? && o.value != ""
  }

  /** Some document carries identifier `id`. */
  predicate HasId(store: Store, id: Id) {
    exists i :: 0 <= i < |store| && store[i].id == id
  }

  /** No two documents share an identifier. */
  predicate DistinctIds(store: Store) {
    forall i, j :: 0 <= i < j < |store| ==> store[i].id != store[j].id
  }

  /** No two documents share a product number. */
  predicate NumbersUnique(store: Store) {
    forall i, j :: 0 <= i < j < |store| ==>
      store[i].product.productNumber != store[j].product.productNumber
  }

  /** The `by_product_number` index lookup: some document already carries
      product number `n`. */
  predicate NumberTaken(store: Store, n: string) {
    exists i :: 0 <= i < |store| && store[i].product.productNumber == n
  }

  /** Position of the document with identifier `id` (`db.get`). */
  function IndexOf(store: Store, id: Id): (i: nat)
    requires HasId(store, id)
    ensures i < |store| && store[i].id == id
    ensures forall j :: 0 <= j < i ==> store[j].id != id
  {
    if store[0].id == id then 0
    else
      assert HasId(store[1..], id) by {
        var k :| 0 <= k < |store| && store[k].id == id;
        assert store[1..][k - 1].id == id;
      }
      1 + IndexOf(store[1..], id)
  }

  /** An identifier no live document uses, as the store assigns on insert. */
  function FreshId(store: Store): (id: Id)
    ensures !HasId(store, id)
    ensures forall i :: 0 <= i < |store| ==> store[i].id < id
  {
    if |store| == 0 then 0
    else
      var rest := FreshId(store[1..]);
      var id := if store[0].id < rest then rest else store[0].id + 1;
      assert forall i :: 1 <= i < |store| ==> store[i].id == store[1..][i - 1].id;
      id
  }
}
