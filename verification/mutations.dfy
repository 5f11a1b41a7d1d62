/** `addProduct`, `updateProduct` and `deleteProduct`. Each takes the
    collection and returns the collection after its single write, or the
    error it raises before writing anything. The random product code, the
    timestamp-derived code and the current time are parameters. */
module Mutations {
  import opened Wrappers
  import opened Strings
  import opened Inventory

  /** Arguments of `addProduct`; the optional ones are `Option`s. */
  datatype NewProduct = NewProduct(
    productNumber: Option<string>,
    productName: string,
    carName: string,
    modelNumber: string,
    partType: string,
    quantity: int,
    priceIqd: int,
    wholesalePriceIqd: int,
    image: Option<string>,
    originalQuantity: Option<int>,
    messageId: Option<int>,
    status: Option<string>,
    lastUpdate: Option<string>)

  /** The `updates` object of `updateProduct`: every field optional. */
  datatype Updates = Updates(
    productName: Option<string>,
    carName: Option<string>,
    modelNumber: Option<string>,
    partType: Option<string>,
    quantity: Option<int>,
    priceIqd: Option<int>,
    wholesalePriceIqd: Option<int>,
    image: Option<string>,
    messageId: Option<int>,
    status: Option<string>,
    lastUpdate: Option<string>,
    productNumber: Option<string>)

  /** The errors the mutations throw. */
  datatype Error = DuplicateNumber(number: string) | NotFound(id: Id)

  /** A successful insert: the new collection and the new document's id. */
  datatype Inserted = Inserted(store: Store, id: Id)

  /** Product-number assignment on create. A non-empty requested number is
      used verbatim unless some document already carries it, which is an
      error. Otherwise the number is "PROD-" + `randomCode`, and if that is
      taken it is replaced, once and without a further check, by
      "PROD-" + `timestampCode`. */
  function AssignNumber(store: Store, requested: Option<string>, randomCode: string, timestampCode: string)
    : (r: Result<string, Error>)
    ensures Truthy(requested) ==> (r.Failure? <==> NumberTaken(store, requested.value))
    ensures Truthy(requested) && r.Failure? ==> r.error == DuplicateNumber(requested.value)
    ensures Truthy(requested) && r.Success? ==> r.value == requested.value && !NumberTaken(store, r.value)
    ensures !Truthy(requested) ==> r.Success? && StartsWith(r.value, NumberPrefix)
    ensures !Truthy(requested) && !NumberTaken(store, NumberPrefix + randomCode) ==>
              r.value == NumberPrefix + randomCode && !NumberTaken(store, r.value)
    ensures !Truthy(requested) && NumberTaken(store, NumberPrefix + randomCode) ==>
              r.value == NumberPrefix + timestampCode
  {
    var candidate := if Truthy(requested) then requested.value else NumberPrefix + randomCode;
    if !NumberTaken(store, candidate) then Success(candidate)
    else if Truthy(requested) then Failure(DuplicateNumber(candidate))
    else Success(NumberPrefix + timestampCode)
  }

  /** `addProduct`: assigns the number, fills in the defaults and appends
      the new document under a fresh id. */
  function AddProduct(store: Store, args: NewProduct, randomCode: string, timestampCode: string, now: string)
    : (r: Result<Inserted, Error>)
    ensures r.Failure? <==> Truthy(args.productNumber) && NumberTaken(store, args.productNumber.value)
    ensures r.Failure? ==> r.error == DuplicateNumber(args.productNumber.value)
    ensures r.Success? ==>
              && |r.value.store| == |store| + 1
              && r.value.store[..|store|] == store
              && r.value.store[|store|].id == r.value.id
              && !HasId(store, r.value.id)
    ensures r.Success? ==>
              var p := r.value.store[|store|].product;
              && p.productName == args.productName
              && p.carName == args.carName
              && p.modelNumber == args.modelNumber
              && p.partType == args.partType
              && p.quantity == args.quantity
              && p.priceIqd == args.priceIqd
              && p.wholesalePriceIqd == args.wholesalePriceIqd
              && p.image == args.image
              && p.messageId == args.messageId
              && (Truthy(args.productNumber) ==> p.productNumber == args.productNumber.value)
              && (!Truthy(args.productNumber) ==> StartsWith(p.productNumber, NumberPrefix))
              && p.productNumber == AssignNumber(store, args.productNumber, randomCode, timestampCode).value
              && (args.originalQuantity.None? ==> p.originalQuantity == p.quantity)
              && (args.originalQuantity.Some? ==> p.originalQuantity == args.originalQuantity.value)
              && (args.status.None? ==> StatusConsistent(p))
              && (args.status.Some? ==> p.status == args.status.value)
              && (args.lastUpdate.None? ==> p.lastUpdate == now)
              && (args.lastUpdate.Some? ==> p.lastUpdate == args.lastUpdate.value)
  {
    match AssignNumber(store, args.productNumber, randomCode, timestampCode)
    case Failure(e) => Failure(e)
    case Success(number) =>
      var p := Product(
        number, args.productName, args.carName, args.modelNumber, args.partType,
        args.quantity, args.priceIqd, args.wholesalePriceIqd, args.image,
        args.originalQuantity.GetOr(args.quantity),
        args.messageId,
        args.status.GetOr(DerivedStatus(args.quantity)),
        args.lastUpdate.GetOr(now));
      var id := FreshId(store);
      var store' := store + [Doc(id, p)];
      assert store'[..|store|] == store;
      Success(Inserted(store', id))
  }

  /** The product number after an update: a supplied empty number is
      regenerated from `randomCode` (no timestamp fallback, no uniqueness
      check), a supplied non-empty one is used, and none keeps the stored one. */
  function UpdatedNumber(stored: string, supplied: Option<string>, randomCode: string): (n: string)
    ensures supplied == Some("") ==> n == NumberPrefix + randomCode
    ensures supplied.Some? && supplied.value != "" ==> n == supplied.value
    ensures supplied.None? ==> n == stored
  {
    match supplied
    case None => stored
    case Some(s) => if s == "" then NumberPrefix + randomCode else s
  }

  /** The record `db.patch` leaves: the supplied fields over the stored
      ones, with status derived from the resulting quantity and the
      timestamp set to `now`. */
  function Patched(stored: Product, u: Updates, randomCode: string, now: string): Product {
    var quantity := u.quantity.GetOr(stored.quantity);
    Product(
      UpdatedNumber(stored.productNumber, u.productNumber, randomCode),
      u.productName.GetOr(stored.productName),
      u.carName.GetOr(stored.carName),
      u.modelNumber.GetOr(stored.modelNumber),
      u.partType.GetOr(stored.partType),
      quantity,
      u.priceIqd.GetOr(stored.priceIqd),
      u.wholesalePriceIqd.GetOr(stored.wholesalePriceIqd),
      if u.image.Some? then u.image else stored.image,
      stored.originalQuantity,
      if u.messageId.Some? then u.messageId else stored.messageId,
      DerivedStatus(quantity),
      now)
  }

  /** `p` holds every supplied field of `u` and the `stored` value of every
      field `u` leaves out. */
  predicate Overlays(stored: Product, u: Updates, p: Product) {
    && (u.productName.Some? ==> p.productName == u.productName.value)
    && (u.productName.None? ==> p.productName == stored.productName)
    && (u.carName.Some? ==> p.carName == u.carName.value)
    && (u.carName.None? ==> p.carName == stored.carName)
    && (u.modelNumber.Some? ==> p.modelNumber == u.modelNumber.value)
    && (u.modelNumber.None? ==> p.modelNumber == stored.modelNumber)
    && (u.partType.Some? ==> p.partType == u.partType.value)
    && (u.partType.None? ==> p.partType == stored.partType)
    && (u.quantity.Some? ==> p.quantity == u.quantity.value)
    && (u.quantity.None? ==> p.quantity == stored.quantity)
    && (u.priceIqd.Some? ==> p.priceIqd == u.priceIqd.value)
    && (u.priceIqd.None? ==> p.priceIqd == stored.priceIqd)
    && (u.wholesalePriceIqd.Some? ==> p.wholesalePriceIqd == u.wholesalePriceIqd.value)
    && (u.wholesalePriceIqd.None? ==> p.wholesalePriceIqd == stored.wholesalePriceIqd)
    && (u.image.Some? ==> p.image == u.image)
    && (u.image.None? ==> p.image == stored.image)
    && (u.messageId.Some? ==> p.messageId == u.messageId)
    && (u.messageId.None? ==> p.messageId == stored.messageId)
  }

  /** `updateProduct`: fails when no document has `id`; otherwise patches
      that one document and leaves every other document where it was. */
  function UpdateProduct(store: Store, id: Id, u: Updates, randomCode: string, now: string)
    : (r: Result<Store, Error>)
    ensures r.Failure? <==> !HasId(store, id)
    ensures r.Failure? ==> r.error == NotFound(id)
    ensures r.Success? ==>
              && |r.value| == |store|
              && (forall j :: 0 <= j < |store| ==> r.value[j].id == store[j].id)
              && (forall j :: 0 <= j < |store| && j != IndexOf(store, id) ==> r.value[j] == store[j])
    ensures r.Success? ==>
              var stored := store[IndexOf(store, id)].product;
              var p := r.value[IndexOf(store, id)].product;
              && Overlays(stored, u, p)
              && StatusConsistent(p)
              && p.lastUpdate == now
              && p.originalQuantity == stored.originalQuantity
              && (u.productNumber == Some("") ==> p.productNumber == NumberPrefix + randomCode)
              && (u.productNumber.Some? && u.productNumber.value != "" ==> p.productNumber == u.productNumber.value)
              && (u.productNumber.None? ==> p.productNumber == stored.productNumber)
  {
    if !HasId(store, id) then Failure(NotFound(id))
    else
      var i := IndexOf(store, id);
      Success(store[i := Doc(id, Patched(store[i].product, u, randomCode, now))])
  }

  /** `deleteProduct`: removes the document with `id`. The source does not
      check for a missing id; the store rejects it, writing nothing. */
  function DeleteProduct(store: Store, id: Id): (r: Result<Store, Error>)
    ensures r.Failure? <==> !HasId(store, id)
    ensures r.Failure? ==> r.error == NotFound(id)
    ensures r.Success? ==>
              && |r.value| == |store| - 1
              && multiset(r.value) + multiset{store[IndexOf(store, id)]} == multiset(store)
  {
    if !HasId(store, id) then Failure(NotFound(id))
    else
      var i := IndexOf(store, id);
      assert store == store[..i] + [store[i]] + store[i + 1..];
      Success(store[..i] + store[i + 1..])
  }

  /** Creating gives a document that can be read back under the returned
      id, and keeps ids distinct. */
  lemma AddThenGet(store: Store, args: NewProduct, randomCode: string, timestampCode: string, now: string)
    requires DistinctIds(store)
    requires AddProduct(store, args, randomCode, timestampCode, now).Success?
    ensures var ins := AddProduct(store, args, randomCode, timestampCode, now).value;
            && DistinctIds(ins.store)
            && HasId(ins.store, ins.id)
            && IndexOf(ins.store, ins.id) == |store|
  {
    var ins := AddProduct(store, args, randomCode, timestampCode, now).value;
    assert ins.store[|store|].id == ins.id;
    forall j | 0 <= j < |store|
      ensures ins.store[j].id != ins.id
    {
      assert ins.store[j] == store[j];
    }
  }

  /** Deleting what was just created restores the collection. */
  lemma AddThenDelete(store: Store, args: NewProduct, randomCode: string, timestampCode: string, now: string)
    requires AddProduct(store, args, randomCode, timestampCode, now).Success?
    ensures var ins := AddProduct(store, args, randomCode, timestampCode, now).value;
            DeleteProduct(ins.store, ins.id) == Success(store)
  {
    var ins := AddProduct(store, args, randomCode, timestampCode, now).value;
    forall j | 0 <= j < |store|
      ensures ins.store[j].id != ins.id
    {
      assert ins.store[j] == store[j];
    }
    assert ins.store[|store|].id == ins.id;
    assert HasId(ins.store, ins.id);
    assert IndexOf(ins.store, ins.id) == |store|;
    assert ins.store[..|store|] + ins.store[|store| + 1..] == store;
  }

  /** Product numbers stay unique across a create exactly when the assigned
      number was free. A caller-supplied number and a first-try generated
      number always are; the timestamp fallback is never checked. */
  lemma AddKeepsNumbersUnique(store: Store, args: NewProduct, randomCode: string, timestampCode: string, now: string)
    requires NumbersUnique(store)
    requires AddProduct(store, args, randomCode, timestampCode, now).Success?
    ensures var ins := AddProduct(store, args, randomCode, timestampCode, now).value;
            NumbersUnique(ins.store) <==> !NumberTaken(store, ins.store[|store|].product.productNumber)
    ensures Truthy(args.productNumber) || !NumberTaken(store, NumberPrefix + randomCode) ==>
              NumbersUnique(AddProduct(store, args, randomCode, timestampCode, now).value.store)
  {
    var ins := AddProduct(store, args, randomCode, timestampCode, now).value;
    var n := ins.store[|store|].product.productNumber;
    assert forall j :: 0 <= j < |store| ==> ins.store[j] == store[j] by {
      forall j | 0 <= j < |store|
        ensures ins.store[j] == store[j]
      {
        assert ins.store[..|store|][j] == store[j];
      }
    }
    if NumberTaken(store, n) {
      var j :| 0 <= j < |store| && store[j].product.productNumber == n;
      assert ins.store[j].product.productNumber == ins.store[|store|].product.productNumber;
    }
  }

  /** The fallback number is not checked: whenever both the random and the
      timestamp-derived numbers are taken, the create still succeeds and
      leaves two products with the same number. */
  lemma FallbackIsNotRechecked(store: Store, args: NewProduct, randomCode: string, timestampCode: string, now: string)
    requires NumbersUnique(store) && !Truthy(args.productNumber)
    requires NumberTaken(store, NumberPrefix + randomCode) && NumberTaken(store, NumberPrefix + timestampCode)
    ensures AddProduct(store, args, randomCode, timestampCode, now).Success?
    ensures !NumbersUnique(AddProduct(store, args, randomCode, timestampCode, now).value.store)
  {
    AddKeepsNumbersUnique(store, args, randomCode, timestampCode, now);
  }

  /** A two-product instance of the above. */
  lemma FallbackDuplicateExample()
    ensures var p := Product("PROD-A", "n", "c", "m", "t", 1, 1, 1, None, 1, None, InStock, "2024");
            var store := [Doc(0, p), Doc(1, p.(productNumber := "PROD-B"))];
            var args := NewProduct(None, "n", "c", "m", "t", 1, 1, 1, None, None, None, None, None);
            var r := AddProduct(store, args, "A", "B", "2025");
            && r.Success?
            && r.value.store[2].product.productNumber == "PROD-B"
            && !NumbersUnique(r.value.store)
  {
    var p := Product("PROD-A", "n", "c", "m", "t", 1, 1, 1, None, 1, None, InStock, "2024");
    var store := [Doc(0, p), Doc(1, p.(productNumber := "PROD-B"))];
    assert NumberTaken(store, "PROD-A") by { assert store[0].product.productNumber == "PROD-A"; }
    assert NumberTaken(store, "PROD-B") by { assert store[1].product.productNumber == "PROD-B"; }
    var args := NewProduct(None, "n", "c", "m", "t", 1, 1, 1, None, None, None, None, None);
    var r := AddProduct(store, args, "A", "B", "2025");
    assert r.value.store[1].product.productNumber == r.value.store[2].product.productNumber;
  }

  /** Updating twice with the same arguments is the same as updating once. */
  lemma UpdateIdempotent(store: Store, id: Id, u: Updates, randomCode: string, now: string)
    requires UpdateProduct(store, id, u, randomCode, now).Success?
    ensures var s' := UpdateProduct(store, id, u, randomCode, now).value;
            UpdateProduct(s', id, u, randomCode, now) == Success(s')
  {
    var i := IndexOf(store, id);
    var s' := UpdateProduct(store, id, u, randomCode, now).value;
    var p := Patched(store[i].product, u, randomCode, now);
    assert s' == store[i := Doc(id, p)];
    assert s'[i].id == id;
    assert HasId(s', id);
    assert IndexOf(s', id) == i;
    assert Patched(p, u, randomCode, now) == p;
    assert s'[i := Doc(id, p)] == s';
  }

  /** An update keeps every id, so it keeps them distinct. */
  lemma UpdateKeepsIdsDistinct(store: Store, id: Id, u: Updates, randomCode: string, now: string)
    requires DistinctIds(store)
    requires UpdateProduct(store, id, u, randomCode, now).Success?
    ensures DistinctIds(UpdateProduct(store, id, u, randomCode, now).value)
  {
  }

  /** An update supplying no field only re-derives the status and stamps
      the time. */
  lemma EmptyUpdateTouchesOnlyStatusAndTime(store: Store, id: Id, randomCode: string, now: string)
    requires HasId(store, id)
    ensures var u := Updates(None, None, None, None, None, None, None, None, None, None, None, None);
            var stored := store[IndexOf(store, id)].product;
            UpdateProduct(store, id, u, randomCode, now)
              == Success(store[IndexOf(store, id) := Doc(id, stored.(status := DerivedStatus(stored.quantity), lastUpdate := now))])
  {
  }

  /** The update path performs no uniqueness check on product numbers: it
      can give a document the number another document already has. */
  lemma UpdateMayDuplicateNumber()
    ensures var p := Product("PROD-A", "n", "c", "m", "t", 1, 1, 1, None, 1, None, InStock, "2024");
            var store := [Doc(0, p), Doc(1, p.(productNumber := "PROD-B"))];
            var u := Updates(None, None, None, None, None, None, None, None, None, None, None, Some("PROD-A"));
            var r := UpdateProduct(store, 1, u, "X", "2025");
            r.Success? && NumbersUnique(store) && !NumbersUnique(r.value)
  {
    var p := Product("PROD-A", "n", "c", "m", "t", 1, 1, 1, None, 1, None, InStock, "2024");
    var store := [Doc(0, p), Doc(1, p.(productNumber := "PROD-B"))];
    assert HasId(store, 1) by { assert store[1].id == 1; }
    assert IndexOf(store, 1) == 1;
  }

  /** A successful delete closes the gap left at the deleted position. */
  lemma DeleteShifts(store: Store, id: Id)
    requires DeleteProduct(store, id).Success?
    ensures var s' := DeleteProduct(store, id).value;
            var i := IndexOf(store, id);
            forall j :: 0 <= j < |s'| ==> s'[j] == if j < i then store[j] else store[j + 1]
  {
    var i := IndexOf(store, id);
    var s' := DeleteProduct(store, id).value;
    assert s' == store[..i] + store[i + 1..];
    forall j | 0 <= j < |s'|
      ensures s'[j] == if j < i then store[j] else store[j + 1]
    {
      if j < i {
        assert s'[j] == store[..i][j];
      } else {
        assert s'[j] == store[i + 1..][j - i];
      }
    }
  }

  /** With distinct ids, a delete removes exactly the document with `id`
      and keeps every other document. */
  lemma DeleteRemovesExactlyOne(store: Store, id: Id)
    requires DistinctIds(store)
    requires DeleteProduct(store, id).Success?
    ensures var s' := DeleteProduct(store, id).value;
            && !HasId(s', id)
            && DistinctIds(s')
            && (forall d :: d in store && d.id != id ==> d in s')
  {
    var i := IndexOf(store, id);
    var s' := DeleteProduct(store, id).value;
    DeleteShifts(store, id);
    forall j | 0 <= j < |s'|
      ensures s'[j].id != id
    {
      if j < i {
        assert store[j].id != store[i].id;
      } else {
        assert store[i].id != store[j + 1].id;
      }
    }
    forall j, k | 0 <= j < k < |s'|
      ensures s'[j].id != s'[k].id
    {
      var j' := if j < i then j else j + 1;
      var k' := if k < i then k else k + 1;
      assert s'[j] == store[j'] && s'[k] == store[k'] && j' < k';
    }
    forall d | d in store && d.id != id
      ensures d in s'
    {
      var k :| 0 <= k < |store| && store[k] == d;
      if k < i { assert s'[k] == d; } else { assert s'[k - 1] == d; }
    }
  }
}
