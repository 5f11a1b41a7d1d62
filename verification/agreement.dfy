/** How the statistics relate to the listings of the same collection. The
    listing's "out_of_stock" filter keeps quantity == 0 only, while the
    statistics count everything that is not positive as out of stock. */
module Agreement {
  import opened Wrappers
  import opened Inventory
  import opened Listing
  import opened Stats

  /** Number of products with a negative quantity. */
  function Negatives(s: seq<Doc>): nat {
    if |s| == 0 then 0 else (if s[0].product.quantity < 0 then 1 else 0) + Negatives(s[1..])
  }

  lemma {:induction false} NegativesZero(s: seq<Doc>)
    ensures Negatives(s) == 0 <==> forall i :: 0 <= i < |s| ==> s[i].product.quantity >= 0
  {
    if |s| > 0 {
      NegativesZero(s[1..]);
      assert forall i :: 1 <= i < |s| ==> s[i] == s[1..][i - 1];
    }
  }

  /** Every document is positive, zero or negative in quantity. */
  lemma {:induction false} StatusSplit(docs: seq<Doc>)
    ensures |ByStatus(docs, Some("available"))| == Available(docs)
    ensures |ByStatus(docs, Some("out_of_stock"))| + Available(docs) + Negatives(docs) == |docs|
  {
    if |docs| > 0 {
      StatusSplit(docs[1..]);
    }
  }

  lemma ListingLength(store: Store, status: Option<string>, resolve: string -> Option<string>)
    ensures |GetProducts(store, status, None, resolve)| == |ByStatus(store, status)|
  {
    var kept := BySearch(ByStatus(store, status), None);
    NoSearchKeepsAll(ByStatus(store, status), None);
    var r := SortDesc(AnnotateAll(kept, resolve));
    assert |multiset(r)| == |multiset(AnnotateAll(kept, resolve))|;
  }

  /** `available_products` is the length of the "available" listing;
      `out_of_stock` is at least the length of the "out_of_stock" listing,
      and equal to it exactly when no quantity is negative. */
  lemma StatsAgreeWithListing(store: Store, resolve: string -> Option<string>)
    ensures GetStats(store).overview.availableProducts
              == |GetProducts(store, Some("available"), None, resolve)|
    ensures |GetProducts(store, Some("out_of_stock"), None, resolve)| <= GetStats(store).overview.outOfStock
    ensures |GetProducts(store, Some("out_of_stock"), None, resolve)| == GetStats(store).overview.outOfStock
            <==> forall i :: 0 <= i < |store| ==> store[i].product.quantity >= 0
  {
    ListingLength(store, Some("available"), resolve);
    ListingLength(store, Some("out_of_stock"), resolve);
    StatusSplit(store);
    NegativesZero(store);
  }
}
