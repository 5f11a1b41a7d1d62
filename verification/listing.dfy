/** `getProducts`: the listing pipeline over a snapshot of the collection.
    It keeps the documents that pass the status filter and then the search,
    annotates each with a resolved image URL, and sorts the result by
    `last_update`, newest first. The storage URL resolver is a parameter. */
module Listing {
  import opened Wrappers
  import opened Strings
  import opened Inventory

  /** A listed product: the stored document plus its resolved `imageUrl`. */
  datatype Listed = Listed(id: Id, product: Product, imageUrl: Option<string>)

  /** The status filter: "available" keeps positive quantities,
      "out_of_stock" keeps zero quantities, anything else (including an
      absent or empty status) keeps everything. */
  predicate KeepsStatus(p: Product, status: Option<string>) {
    match status
    case None => true
    case Some(s) =>
      if s == "available" then p.quantity > 0
      else if s == "out_of_stock" then p.quantity == 0
      else true
  }

  /** Case-insensitive substring match of an already lower-cased query
      against the five searchable fields. */
  predicate FieldsMatch(p: Product, q: string) {
    || Contains(Lower(p.productName), q)
    || Contains(Lower(p.productNumber), q)
    || Contains(Lower(p.carName), q)
    || Contains(Lower(p.partType), q)
    || Contains(Lower(p.modelNumber), q)
  }

  /** The search filter: an absent or empty search keeps everything. */
  predicate MatchesSearch(p: Product, search: Option<string>) {
    !Truthy(search) || FieldsMatch(p, Lower(search.value))
  }

  /** A document survives both filters. */
  predicate Selected(p: Product, status: Option<string>, search: Option<string>) {
    KeepsStatus(p, status) && MatchesSearch(p, search)
  }

  /** The two filter passes. */
  datatype Pass = StatusPass(status: Option<string>) | SearchPass(search: Option<string>)

  predicate Passes(p: Product, pass: Pass) {
    match pass
    case StatusPass(status) => KeepsStatus(p, status)
    case SearchPass(search) => MatchesSearch(p, search)
  }

  /** `Array.prototype.filter`: the documents that pass, in their order. */
  function Keep(docs: seq<Doc>, pass: Pass): seq<Doc> {
    if |docs| == 0 then []
    else (if Passes(docs[0].product, pass) then [docs[0]] else []) + Keep(docs[1..], pass)
  }

  /** A pass keeps each passing document as often as it occurs and drops
      every other one. */
  lemma {:induction false} KeepCounts(docs: seq<Doc>, pass: Pass, d: Doc)
    ensures multiset(Keep(docs, pass))[d] == if Passes(d.product, pass) then multiset(docs)[d] else 0
  {
    if |docs| > 0 {
      KeepCounts(docs[1..], pass, d);
      var hd: seq<Doc> := if Passes(docs[0].product, pass) then [docs[0]] else [];
      assert docs == [docs[0]] + docs[1..];
      assert multiset(docs) == multiset{docs[0]} + multiset(docs[1..]);
      assert multiset(Keep(docs, pass)) == multiset(hd) + multiset(Keep(docs[1..], pass));
    }
  }

  /** The first filter pass, in snapshot order. */
  function ByStatus(docs: seq<Doc>, status: Option<string>): (r: seq<Doc>)
    ensures forall d :: multiset(r)[d] == if KeepsStatus(d.product, status) then multiset(docs)[d] else 0
  {
    var r := Keep(docs, StatusPass(status));
    assert forall d :: multiset(r)[d] == if KeepsStatus(d.product, status) then multiset(docs)[d] else 0 by {
      forall d
        ensures multiset(r)[d] == if KeepsStatus(d.product, status) then multiset(docs)[d] else 0
      {
        KeepCounts(docs, StatusPass(status), d);
      }
    }
    r
  }

  /** The second filter pass, in the order the first one left. */
  function BySearch(docs: seq<Doc>, search: Option<string>): (r: seq<Doc>)
    ensures forall d :: multiset(r)[d] == if MatchesSearch(d.product, search) then multiset(docs)[d] else 0
  {
    var r := Keep(docs, SearchPass(search));
    assert forall d :: multiset(r)[d] == if MatchesSearch(d.product, search) then multiset(docs)[d] else 0 by {
      forall d
        ensures multiset(r)[d] == if MatchesSearch(d.product, search) then multiset(docs)[d] else 0
      {
        KeepCounts(docs, SearchPass(search), d);
      }
    }
    r
  }

  /** The `imageUrl` of one product: none without a (non-empty) image, the
      image itself when it starts with "http", otherwise whatever the
      storage resolver returns for the reference. */
  function ImageUrl(image: Option<string>, resolve: string -> Option<string>): (u: Option<string>)
    ensures !Truthy(image) ==> u == None
    ensures Truthy(image) && StartsWith(image.value, "http") ==> u == image
    ensures Truthy(image) && !StartsWith(image.value, "http") ==> u == resolve(image.value)
  {
    if !Truthy(image) then None
    else if StartsWith(image.value, "http") then image
    else resolve(image.value)
  }

  /** The resolver is consulted only for storage references: an absent image
      or a direct URL yields the same `imageUrl` whatever the resolver. */
  lemma ResolverOnlyForReferences(image: Option<string>, r1: string -> Option<string>, r2: string -> Option<string>)
    requires !Truthy(image) || StartsWith(image.value, "http")
    ensures ImageUrl(image, r1) == ImageUrl(image, r2)
  {
  }

  /** `{ ...p, imageUrl }`. */
  function Annotate(d: Doc, resolve: string -> Option<string>): Listed {
    Listed(d.id, d.product, ImageUrl(d.product.image, resolve))
  }

  /** The image-resolution pass: one annotation per document, same order. */
  function AnnotateAll(docs: seq<Doc>, resolve: string -> Option<string>): (r: seq<Listed>)
    ensures |r| == |docs|
    ensures forall i :: 0 <= i < |docs| ==> r[i] == Annotate(docs[i], resolve)
  {
    if |docs| == 0 then [] else [Annotate(docs[0], resolve)] + AnnotateAll(docs[1..], resolve)
  }

  /** Annotation forgets nothing: it keeps the id and the fields. */
  lemma AnnotateInjective(d1: Doc, d2: Doc, resolve: string -> Option<string>)
    ensures Annotate(d1, resolve) == Annotate(d2, resolve) <==> d1 == d2
  {
  }

  /** So annotation carries multiplicities over one to one. */
  lemma {:induction false} AnnotateAllMultiset(docs: seq<Doc>, resolve: string -> Option<string>, d: Doc)
    ensures multiset(AnnotateAll(docs, resolve))[Annotate(d, resolve)] == multiset(docs)[d]
  {
    if |docs| > 0 {
      var h := docs[0];
      var rest := AnnotateAll(docs[1..], resolve);
      AnnotateAllMultiset(docs[1..], resolve, d);
      AnnotateInjective(h, d, resolve);
      assert docs == [h] + docs[1..];
      assert AnnotateAll(docs, resolve) == [Annotate(h, resolve)] + rest;
      assert multiset(AnnotateAll(docs, resolve)) == multiset{Annotate(h, resolve)} + multiset(rest);
      assert multiset(docs) == multiset{h} + multiset(docs[1..]);
    }
  }

  /** Newest first: no element has an earlier `last_update` than one after it. */
  predicate SortedDesc(xs: seq<Listed>) {
    forall i, j :: 0 <= i < j < |xs| ==> StrLe(xs[j].product.lastUpdate, xs[i].product.lastUpdate)
  }

  /** Inserts `x` in front of the first element that is not newer than it. */
  function Insert(x: Listed, xs: seq<Listed>): (r: seq<Listed>)
    ensures multiset(r) == multiset(xs) + multiset{x}
  {
    if |xs| == 0 then [x]
    else if StrLe(xs[0].product.lastUpdate, x.product.lastUpdate) then [x] + xs
    else
      assert xs == [xs[0]] + xs[1..];
      [xs[0]] + Insert(x, xs[1..])
  }

  /** No element of `xs` is newer than timestamp `t`. */
  predicate AllAtMost(xs: seq<Listed>, t: string) {
    forall i :: 0 <= i < |xs| ==> StrLe(xs[i].product.lastUpdate, t)
  }

  lemma {:induction false} InsertAtMost(x: Listed, xs: seq<Listed>, t: string)
    requires AllAtMost(xs, t) && StrLe(x.product.lastUpdate, t)
    ensures AllAtMost(Insert(x, xs), t)
  {
    if |xs| > 0 && !StrLe(xs[0].product.lastUpdate, x.product.lastUpdate) {
      assert AllAtMost(xs[1..], t) by {
        forall i | 0 <= i < |xs| - 1
          ensures StrLe(xs[1..][i].product.lastUpdate, t)
        {
          assert xs[1..][i] == xs[i + 1];
        }
      }
      InsertAtMost(x, xs[1..], t);
      var r := Insert(x, xs);
      assert r == [xs[0]] + Insert(x, xs[1..]);
      forall i | 0 <= i < |r|
        ensures StrLe(r[i].product.lastUpdate, t)
      {
        if i > 0 {
          assert r[i] == Insert(x, xs[1..])[i - 1];
        }
      }
    }
  }

  /** A sorted sequence stays sorted behind an element no older than any of it. */
  lemma ConsSorted(h: Listed, xs: seq<Listed>)
    requires SortedDesc(xs) && AllAtMost(xs, h.product.lastUpdate)
    ensures SortedDesc([h] + xs)
  {
    var r := [h] + xs;
    forall i, j | 0 <= i < j < |r|
      ensures StrLe(r[j].product.lastUpdate, r[i].product.lastUpdate)
    {
      assert r[j] == xs[j - 1];
      if i > 0 {
        assert r[i] == xs[i - 1];
      }
    }
  }

  lemma {:induction false} InsertSorted(x: Listed, xs: seq<Listed>)
    requires SortedDesc(xs)
    ensures SortedDesc(Insert(x, xs))
  {
    if |xs| == 0 {
    } else if StrLe(xs[0].product.lastUpdate, x.product.lastUpdate) {
      forall j | 0 <= j < |xs|
        ensures StrLe(xs[j].product.lastUpdate, x.product.lastUpdate)
      {
        if j > 0 {
          StrLeTransitive(xs[j].product.lastUpdate, xs[0].product.lastUpdate, x.product.lastUpdate);
        }
      }
      ConsSorted(x, xs);
    } else {
      var t := xs[0].product.lastUpdate;
      StrLeTotal(t, x.product.lastUpdate);
      InsertSorted(x, xs[1..]);
      assert AllAtMost(xs[1..], t) by {
        forall i | 0 <= i < |xs[1..]|
          ensures StrLe(xs[1..][i].product.lastUpdate, t)
        {
          assert xs[1..][i] == xs[i + 1];
        }
      }
      InsertAtMost(x, xs[1..], t);
      ConsSorted(xs[0], Insert(x, xs[1..]));
    }
  }

  /** The `last_update` sort, newest first: insertion sort, which is
      stable like JavaScript's `Array.prototype.sort`. */
  function SortDesc(xs: seq<Listed>): (r: seq<Listed>)
    ensures SortedDesc(r)
    ensures multiset(r) == multiset(xs)
  {
    if |xs| == 0 then []
    else
      assert xs == [xs[0]] + xs[1..];
      var rest := SortDesc(xs[1..]);
      InsertSorted(xs[0], rest);
      Insert(xs[0], rest)
  }

  /** The elements stamped with timestamp `t`, in their order in `xs`. */
  function WithTimestamp(xs: seq<Listed>, t: string): seq<Listed> {
    if |xs| == 0 then []
    else (if xs[0].product.lastUpdate == t then [xs[0]] else []) + WithTimestamp(xs[1..], t)
  }

  /** The tied elements of a sequence with a given head. */
  lemma WithTimestampCons(h: Listed, xs: seq<Listed>, t: string)
    ensures WithTimestamp([h] + xs, t) == (if h.product.lastUpdate == t then [h] else []) + WithTimestamp(xs, t)
  {
    assert ([h] + xs)[0] == h;
    assert ([h] + xs)[1..] == xs;
  }

  /** An element that goes behind a strictly newer head: the head and the
      element cannot both carry timestamp `t`, so their order among the
      ties does not matter. */
  lemma TiesBehindHead(x: Listed, h: Listed, rest: seq<Listed>, tail: seq<Listed>, t: string)
    requires !StrLe(h.product.lastUpdate, x.product.lastUpdate)
    requires WithTimestamp(rest, t) == (if x.product.lastUpdate == t then [x] else []) + WithTimestamp(tail, t)
    ensures WithTimestamp([h] + rest, t) == (if x.product.lastUpdate == t then [x] else []) + WithTimestamp([h] + tail, t)
  {
    WithTimestampCons(h, rest, t);
    WithTimestampCons(h, tail, t);
    if x.product.lastUpdate == t {
      StrLeReflexive(t);
    }
  }

  lemma {:induction false} InsertKeepsTies(x: Listed, xs: seq<Listed>, t: string)
    ensures WithTimestamp(Insert(x, xs), t) == (if x.product.lastUpdate == t then [x] else []) + WithTimestamp(xs, t)
  {
    if |xs| == 0 {
      WithTimestampCons(x, [], t);
    } else if StrLe(xs[0].product.lastUpdate, x.product.lastUpdate) {
      assert Insert(x, xs) == [x] + xs;
      WithTimestampCons(x, xs, t);
    } else {
      InsertKeepsTies(x, xs[1..], t);
      TiesBehindHead(x, xs[0], Insert(x, xs[1..]), xs[1..], t);
      assert Insert(x, xs) == [xs[0]] + Insert(x, xs[1..]);
      assert xs == [xs[0]] + xs[1..];
    }
  }

  /** The sort is stable: records with equal `last_update` keep their
      relative order. */
  lemma {:induction false} SortKeepsTies(xs: seq<Listed>, t: string)
    ensures WithTimestamp(SortDesc(xs), t) == WithTimestamp(xs, t)
  {
    if |xs| > 0 {
      SortKeepsTies(xs[1..], t);
      InsertKeepsTies(xs[0], SortDesc(xs[1..]), t);
    }
  }

  /** Both filter passes together keep a document exactly as often as it
      is stored when it is selected, and drop it otherwise. */
  lemma FiltersKeep(store: Store, status: Option<string>, search: Option<string>, d: Doc)
    ensures multiset(BySearch(ByStatus(store, status), search))[d]
              == if Selected(d.product, status, search) then multiset(store)[d] else 0
  {
  }

  /** Every entry of the sorted annotations comes from one of the documents. */
  lemma SortedAnnotationFrom(docs: seq<Doc>, resolve: string -> Option<string>, x: Listed)
    requires x in SortDesc(AnnotateAll(docs, resolve))
    ensures exists d :: d in docs && x == Annotate(d, resolve)
  {
    var annotated := AnnotateAll(docs, resolve);
    assert x in multiset(annotated);
    var i :| 0 <= i < |annotated| && annotated[i] == x;
    assert docs[i] in docs;
  }

  /** `getProducts(status, search)` over the snapshot `store`. */
  function GetProducts(store: Store, status: Option<string>, search: Option<string>,
                       resolve: string -> Option<string>): (r: seq<Listed>)
    ensures SortedDesc(r)
    ensures forall x :: x in r ==>
      exists d :: d in store && Selected(d.product, status, search) && x == Annotate(d, resolve)
    ensures forall d ::
              multiset(r)[Annotate(d, resolve)] ==
              if Selected(d.product, status, search) then multiset(store)[d] else 0
  {
    var kept := BySearch(ByStatus(store, status), search);
    var r := SortDesc(AnnotateAll(kept, resolve));
    assert forall d :: multiset(r)[Annotate(d, resolve)]
                         == if Selected(d.product, status, search) then multiset(store)[d] else 0 by {
      forall d
        ensures multiset(r)[Annotate(d, resolve)]
                  == if Selected(d.product, status, search) then multiset(store)[d] else 0
      {
        AnnotateAllMultiset(kept, resolve, d);
        FiltersKeep(store, status, search, d);
      }
    }
    assert forall x :: x in r ==>
      exists d :: d in store && Selected(d.product, status, search) && x == Annotate(d, resolve) by {
      forall x | x in r
        ensures exists d :: d in store && Selected(d.product, status, search) && x == Annotate(d, resolve)
      {
        SortedAnnotationFrom(kept, resolve, x);
        var d :| d in kept && x == Annotate(d, resolve);
        FiltersKeep(store, status, search, d);
        assert d in multiset(kept);
      }
    }
    r
  }

  /** What a listing shows of each product: its stored fields unchanged and
      the `imageUrl` the resolution rules give. */
  lemma ListingEntries(store: Store, status: Option<string>, search: Option<string>,
                       resolve: string -> Option<string>, x: Listed)
    requires x in GetProducts(store, status, search, resolve)
    ensures exists i :: 0 <= i < |store| && store[i].id == x.id && store[i].product == x.product
    ensures KeepsStatus(x.product, status) && MatchesSearch(x.product, search)
    ensures x.imageUrl == ImageUrl(x.product.image, resolve)
  {
    var d :| d in store && Selected(d.product, status, search) && x == Annotate(d, resolve);
    var i :| 0 <= i < |store| && store[i] == d;
  }

  /** A stored document is listed exactly when it passes both filters. */
  lemma ListedIffSelected(store: Store, status: Option<string>, search: Option<string>,
                          resolve: string -> Option<string>, d: Doc)
    requires d in store
    ensures Annotate(d, resolve) in GetProducts(store, status, search, resolve) <==> Selected(d.product, status, search)
  {
    var r := GetProducts(store, status, search, resolve);
    assert d in multiset(store);
    assert Annotate(d, resolve) in r <==> Annotate(d, resolve) in multiset(r);
  }

  /** The status filter keeps exactly the documents the source's three
      branches say: quantity > 0 for "available", quantity == 0 for
      "out_of_stock", all of them otherwise. */
  lemma StatusFilterExact(store: Store, status: Option<string>,
                          resolve: string -> Option<string>, d: Doc)
    requires d in store
    ensures status == Some("available") ==>
      (Annotate(d, resolve) in GetProducts(store, status, None, resolve) <==> d.product.quantity > 0)
    ensures status == Some("out_of_stock") ==>
      (Annotate(d, resolve) in GetProducts(store, status, None, resolve) <==> d.product.quantity == 0)
    ensures status != Some("available") && status != Some("out_of_stock") ==>
      Annotate(d, resolve) in GetProducts(store, status, None, resolve)
  {
    ListedIffSelected(store, status, None, resolve, d);
  }

  /** A non-empty search keeps a stored document exactly when the lower-cased
      query occurs in one of its five lower-cased searchable fields. */
  lemma {:induction false} SearchExact(store: Store, q: string, resolve: string -> Option<string>, d: Doc)
    requires d in store && q != ""
    ensures Annotate(d, resolve) in GetProducts(store, None, Some(q), resolve) <==>
      (|| Occurs(Lower(d.product.productName), Lower(q))
       || Occurs(Lower(d.product.productNumber), Lower(q))
       || Occurs(Lower(d.product.carName), Lower(q))
       || Occurs(Lower(d.product.partType), Lower(q))
       || Occurs(Lower(d.product.modelNumber), Lower(q)))
  {
    ListedIffSelected(store, None, Some(q), resolve, d);
    ContainsIffOccurs(Lower(d.product.productName), Lower(q));
    ContainsIffOccurs(Lower(d.product.productNumber), Lower(q));
    ContainsIffOccurs(Lower(d.product.carName), Lower(q));
    ContainsIffOccurs(Lower(d.product.partType), Lower(q));
    ContainsIffOccurs(Lower(d.product.modelNumber), Lower(q));
  }

  /** The search ignores ASCII case in the query. */
  lemma SearchIgnoresQueryCase(store: Store, q1: string, q2: string, resolve: string -> Option<string>)
    requires Lower(q1) == Lower(q2) && q1 != "" && q2 != ""
    ensures GetProducts(store, None, Some(q1), resolve) == GetProducts(store, None, Some(q2), resolve)
  {
    assert forall p :: MatchesSearch(p, Some(q1)) == MatchesSearch(p, Some(q2));
    assert BySearch(ByStatus(store, None), Some(q1)) == BySearch(ByStatus(store, None), Some(q2)) by {
      SameSearchSameResult(ByStatus(store, None), Some(q1), Some(q2));
    }
  }

  lemma {:induction false} SameSearchSameResult(docs: seq<Doc>, s1: Option<string>, s2: Option<string>)
    requires forall p :: MatchesSearch(p, s1) == MatchesSearch(p, s2)
    ensures BySearch(docs, s1) == BySearch(docs, s2)
  {
    if |docs| > 0 {
      SameSearchSameResult(docs[1..], s1, s2);
    }
  }

  /** Documents sharing a `last_update` appear in the listing in the order
      the filters and URL resolution left them: the sort is stable. */
  lemma ListingTiesKeepStoreOrder(store: Store, status: Option<string>, search: Option<string>,
                                  resolve: string -> Option<string>, t: string)
    ensures WithTimestamp(GetProducts(store, status, search, resolve), t)
         == WithTimestamp(AnnotateAll(BySearch(ByStatus(store, status), search), resolve), t)
  {
    SortKeepsTies(AnnotateAll(BySearch(ByStatus(store, status), search), resolve), t);
  }

  // ---------------------------------------------------------------------
  // Order. `Array.prototype.filter` and `map` keep the order of their input,
  // so two selected documents keep their relative order through the
  // pipeline, and the stable sort keeps it among equal timestamps.

  /** `a` occurs in `xs` at some position before an occurrence of `b`. */
  predicate Before<T(==)>(xs: seq<T>, a: T, b: T) {
    exists p, q :: 0 <= p < q < |xs| && xs[p] == a && xs[q] == b
  }

  lemma BeforeSplit<T>(xs: seq<T>, a: T, b: T) returns (pre: seq<T>, mid: seq<T>, post: seq<T>)
    requires Before(xs, a, b)
    ensures xs == pre + [a] + mid + [b] + post
  {
    var p, q :| 0 <= p < q < |xs| && xs[p] == a && xs[q] == b;
    pre, mid, post := xs[..p], xs[p + 1..q], xs[q + 1..];
    assert xs == xs[..p] + [xs[p]] + xs[p + 1..q] + [xs[q]] + xs[q + 1..];
  }

  lemma BeforeJoin<T>(pre: seq<T>, a: T, mid: seq<T>, b: T, post: seq<T>)
    ensures Before(pre + [a] + mid + [b] + post, a, b)
  {
    var xs := pre + [a] + mid + [b] + post;
    assert xs[|pre|] == a;
    assert xs[|pre| + 1 + |mid|] == b;
  }

  lemma {:induction false} WithTimestampAppend(a: seq<Listed>, b: seq<Listed>, t: string)
    ensures WithTimestamp(a + b, t) == WithTimestamp(a, t) + WithTimestamp(b, t)
  {
    if |a| > 0 {
      WithTimestampAppend(a[1..], b, t);
      assert (a + b)[0] == a[0];
      assert (a + b)[1..] == a[1..] + b;
    } else {
      assert a + b == b;
    }
  }

  /** A passing head comes before every passing document of the rest. */
  lemma KeepHeadFirst(docs: seq<Doc>, pass: Pass, y: Doc)
    requires |docs| > 0 && Passes(docs[0].product, pass)
    requires y in docs[1..] && Passes(y.product, pass)
    ensures Before(Keep(docs, pass), docs[0], y)
  {
    var r, tail := Keep(docs, pass), Keep(docs[1..], pass);
    assert r == [docs[0]] + tail;
    KeepCounts(docs[1..], pass, y);
    assert y in multiset(docs[1..]);
    assert y in multiset(tail);
    var k :| 0 <= k < |tail| && tail[k] == y;
    assert r[0] == docs[0] && r[k + 1] == y;
  }

  /** An order kept by the pass over the rest is kept over the whole. */
  lemma KeepShiftsBefore(docs: seq<Doc>, pass: Pass, x: Doc, y: Doc)
    requires |docs| > 0 && Before(Keep(docs[1..], pass), x, y)
    ensures Before(Keep(docs, pass), x, y)
  {
    var tail := Keep(docs[1..], pass);
    var hd: seq<Doc> := if Passes(docs[0].product, pass) then [docs[0]] else [];
    assert Keep(docs, pass) == hd + tail;
    var p, q :| 0 <= p < q < |tail| && tail[p] == x && tail[q] == y;
    assert Keep(docs, pass)[|hd| + p] == x && Keep(docs, pass)[|hd| + q] == y;
  }

  /** Two documents that pass stay in their order: a filter pass keeps the
      snapshot order. */
  lemma {:induction false} KeepKeepsBefore(docs: seq<Doc>, pass: Pass, x: Doc, y: Doc)
    requires Before(docs, x, y) && Passes(x.product, pass) && Passes(y.product, pass)
    ensures Before(Keep(docs, pass), x, y)
  {
    var p, q :| 0 <= p < q < |docs| && docs[p] == x && docs[q] == y;
    assert docs[1..][q - 1] == y;
    if p == 0 {
      KeepHeadFirst(docs, pass, y);
    } else {
      assert docs[1..][p - 1] == x;
      KeepKeepsBefore(docs[1..], pass, x, y);
      KeepShiftsBefore(docs, pass, x, y);
    }
  }

  /** URL resolution keeps the order of the documents. */
  lemma AnnotateAllKeepsBefore(docs: seq<Doc>, resolve: string -> Option<string>, x: Doc, y: Doc)
    requires Before(docs, x, y)
    ensures Before(AnnotateAll(docs, resolve), Annotate(x, resolve), Annotate(y, resolve))
  {
    var p, q :| 0 <= p < q < |docs| && docs[p] == x && docs[q] == y;
    var r := AnnotateAll(docs, resolve);
    assert r[p] == Annotate(x, resolve) && r[q] == Annotate(y, resolve);
  }

  /** Two entries stamped `t` stay in their order among the entries stamped `t`. */
  lemma WithTimestampKeepsBefore(xs: seq<Listed>, t: string, x: Listed, y: Listed)
    requires Before(xs, x, y) && x.product.lastUpdate == t && y.product.lastUpdate == t
    ensures Before(WithTimestamp(xs, t), x, y)
  {
    var pre, mid, post := BeforeSplit(xs, x, y);
    WithTimestampAppend(pre + [x] + mid + [y], post, t);
    WithTimestampAppend(pre + [x] + mid, [y], t);
    WithTimestampAppend(pre + [x], mid, t);
    WithTimestampAppend(pre, [x], t);
    assert WithTimestamp([x], t) == [x] by { assert [x][1..] == []; }
    assert WithTimestamp([y], t) == [y] by { assert [y][1..] == []; }
    BeforeJoin(WithTimestamp(pre, t), x, WithTimestamp(mid, t), y, WithTimestamp(post, t));
  }

  lemma {:induction false} WithTimestampMember(xs: seq<Listed>, t: string, b: Listed)
    requires b in WithTimestamp(xs, t)
    ensures b in xs
  {
    if |xs| > 0 && b != xs[0] {
      assert b in WithTimestamp(xs[1..], t);
      WithTimestampMember(xs[1..], t, b);
    }
  }

  /** An order among the entries stamped `t` is an order in the whole sequence. */
  lemma {:induction false} TiesBeforeLift(xs: seq<Listed>, t: string, a: Listed, b: Listed)
    requires Before(WithTimestamp(xs, t), a, b)
    ensures Before(xs, a, b)
  {
    var w := WithTimestamp(xs, t);
    var p, q :| 0 <= p < q < |w| && w[p] == a && w[q] == b;
    assert |xs| > 0;
    var rest := WithTimestamp(xs[1..], t);
    if xs[0].product.lastUpdate == t && p == 0 {
      assert w == [xs[0]] + rest;
      assert rest[q - 1] == b;
      WithTimestampMember(xs[1..], t, b);
      var k :| 0 <= k < |xs| - 1 && xs[1..][k] == b;
      assert xs[0] == a && xs[k + 1] == b;
    } else {
      if xs[0].product.lastUpdate == t {
        assert w == [xs[0]] + rest;
        assert rest[p - 1] == a && rest[q - 1] == b;
      } else {
        assert w == rest;
      }
      TiesBeforeLift(xs[1..], t, a, b);
      var p', q' :| 0 <= p' < q' < |xs| - 1 && xs[1..][p'] == a && xs[1..][q'] == b;
      assert xs[p' + 1] == a && xs[q' + 1] == b;
    }
  }

  /** Two selected products stamped with the same `last_update` are listed
      in the order they are stored: the earlier-created one first. */
  lemma TiesListedInStoreOrder(store: Store, status: Option<string>, search: Option<string>,
                               resolve: string -> Option<string>, i: int, j: int)
    requires 0 <= i < j < |store|
    requires Selected(store[i].product, status, search) && Selected(store[j].product, status, search)
    requires store[i].product.lastUpdate == store[j].product.lastUpdate
    ensures Before(GetProducts(store, status, search, resolve), Annotate(store[i], resolve), Annotate(store[j], resolve))
  {
    var x, y := store[i], store[j];
    var t := x.product.lastUpdate;
    var filtered := ByStatus(store, status);
    var kept := BySearch(filtered, search);
    var annotated := AnnotateAll(kept, resolve);
    KeepKeepsBefore(store, StatusPass(status), x, y);
    KeepKeepsBefore(filtered, SearchPass(search), x, y);
    AnnotateAllKeepsBefore(kept, resolve, x, y);
    WithTimestampKeepsBefore(annotated, t, Annotate(x, resolve), Annotate(y, resolve));
    ListingTiesKeepStoreOrder(store, status, search, resolve, t);
    TiesBeforeLift(GetProducts(store, status, search, resolve), t, Annotate(x, resolve), Annotate(y, resolve));
  }

  /** A status other than "available" and "out_of_stock" (absent and empty
      included) keeps the whole snapshot, in order. */
  lemma {:induction false} NoStatusKeepsAll(docs: seq<Doc>, status: Option<string>)
    requires status != Some("available") && status != Some("out_of_stock")
    ensures ByStatus(docs, status) == docs
  {
    if |docs| > 0 {
      NoStatusKeepsAll(docs[1..], status);
      assert KeepsStatus(docs[0].product, status);
      assert docs == [docs[0]] + docs[1..];
    }
  }

  /** An absent or empty search keeps every document, in order. */
  lemma {:induction false} NoSearchKeepsAll(docs: seq<Doc>, search: Option<string>)
    requires !Truthy(search)
    ensures BySearch(docs, search) == docs
  {
    if |docs| > 0 {
      NoSearchKeepsAll(docs[1..], search);
      assert docs == [docs[0]] + docs[1..];
    }
  }

  /** With no status and no search, the listing is the sorted snapshot. */
  lemma UnfilteredListing(store: Store, resolve: string -> Option<string>)
    ensures GetProducts(store, None, None, resolve) == SortDesc(AnnotateAll(store, resolve))
  {
    NoStatusKeepsAll(store, None);
    NoSearchKeepsAll(store, None);
  }

  /** `xs` in reverse order. */
  function Reverse(xs: seq<Listed>): (r: seq<Listed>)
    ensures |r| == |xs|
    ensures forall i :: 0 <= i < |xs| ==> r[i] == xs[|xs| - 1 - i]
  {
    if |xs| == 0 then [] else Reverse(xs[1..]) + [xs[0]]
  }

  /** Every later entry of `xs` is strictly newer than every earlier one:
      listed entries in the order they were stored, oldest first. */
  predicate StrictlyAscending(xs: seq<Listed>) {
    forall i, j :: 0 <= i < j < |xs| ==> !StrLe(xs[j].product.lastUpdate, xs[i].product.lastUpdate)
  }

  /** An element older than everything already sorted goes last. */
  lemma {:induction false} InsertOldest(x: Listed, ys: seq<Listed>)
    requires forall i :: 0 <= i < |ys| ==> !StrLe(ys[i].product.lastUpdate, x.product.lastUpdate)
    ensures Insert(x, ys) == ys + [x]
  {
    if |ys| > 0 {
      InsertOldest(x, ys[1..]);
      assert ys == [ys[0]] + ys[1..];
    }
  }

  /** The tail of an ascending sequence is ascending, and every element of
      it, in reverse order, is strictly newer than the head. */
  lemma AscendingTail(xs: seq<Listed>)
    requires |xs| > 0 && StrictlyAscending(xs)
    ensures StrictlyAscending(xs[1..])
    ensures var ys := Reverse(xs[1..]);
            forall i :: 0 <= i < |ys| ==> !StrLe(ys[i].product.lastUpdate, xs[0].product.lastUpdate)
  {
    var ys := Reverse(xs[1..]);
    forall i | 0 <= i < |ys|
      ensures !StrLe(ys[i].product.lastUpdate, xs[0].product.lastUpdate)
    {
      assert ys[i] == xs[|xs| - 1 - i];
    }
  }

  /** A snapshot stored oldest first, with distinct timestamps, is listed in
      exactly the reverse order. */
  lemma {:induction false} SortReversesAscending(xs: seq<Listed>)
    requires StrictlyAscending(xs)
    ensures SortDesc(xs) == Reverse(xs)
  {
    if |xs| > 0 {
      AscendingTail(xs);
      SortReversesAscending(xs[1..]);
      var ys := Reverse(xs[1..]);
      InsertOldest(xs[0], ys);
      assert SortDesc(xs) == Insert(xs[0], SortDesc(xs[1..]));
      assert Reverse(xs) == ys + [xs[0]];
    }
  }

  /** Timestamps strictly increase along the snapshot. This is
      `StrictlyAscending` stated over stored documents rather than listed
      entries, so that `NewestFirst` can be read without URL resolution;
      annotation keeps each product, so the one gives the other. */
  predicate StoredOldestFirst(store: Store) {
    forall i, j :: 0 <= i < j < |store| ==> !StrLe(store[j].product.lastUpdate, store[i].product.lastUpdate)
  }

  /** Records stamped T1 < T2 < ... < Tn and stored in that order are
      listed Tn, ..., T2, T1. */
  lemma NewestFirst(store: Store, resolve: string -> Option<string>)
    requires StoredOldestFirst(store)
    ensures var r := GetProducts(store, None, None, resolve);
            |r| == |store| && forall i :: 0 <= i < |r| ==> r[i] == Annotate(store[|store| - 1 - i], resolve)
  {
    UnfilteredListing(store, resolve);
    var xs := AnnotateAll(store, resolve);
    assert StrictlyAscending(xs);
    SortReversesAscending(xs);
  }
}
