/** `getStats`: overview counters over the whole collection, and per-group
    tallies keyed verbatim on the part type and on the car name. */
module Stats {
  import opened Wrappers
  import opened Inventory

  /** A `by_type` entry. */
  datatype Group = Group(count: int, quantity: int, value: int)

  /** A `by_car` entry (the source keeps no value per car). */
  datatype CarGroup = CarGroup(count: int, quantity: int)

  datatype Overview = Overview(
    totalProducts: int,
    availableProducts: int,
    outOfStock: int,
    totalValue: int,
    totalItems: int)

  datatype Stats = Stats(overview: Overview, byType: map<string, Group>, byCar: map<string, CarGroup>)

  /** The field a tally groups by. */
  datatype GroupKey = ByType | ByCar

  function KeyOf(p: Product, g: GroupKey): string {
    match g
    case ByType => p.partType
    case ByCar => p.carName
  }

  /** Stock value of one product: unit price times quantity. */
  function ValueOf(p: Product): int {
    p.priceIqd * p.quantity
  }

  /** Number of products with a positive quantity. */
  function Available(s: seq<Doc>): (n: nat)
    ensures n <= |s|
    ensures n == |s| <==> forall i :: 0 <= i < |s| ==> s[i].product.quantity > 0
    ensures n == 0 <==> forall i :: 0 <= i < |s| ==> s[i].product.quantity <= 0
  {
    if |s| == 0 then 0
    else
      assert forall i :: 1 <= i < |s| ==> s[i] == s[1..][i - 1];
      (if s[0].product.quantity > 0 then 1 else 0) + Available(s[1..])
  }

  /** Sum of the quantities. */
  function TotalItems(s: seq<Doc>): int {
    if |s| == 0 then 0 else TotalItems(s[..|s| - 1]) + s[|s| - 1].product.quantity
  }

  /** Sum of the stock values. */
  function TotalValue(s: seq<Doc>): int {
    if |s| == 0 then 0 else TotalValue(s[..|s| - 1]) + ValueOf(s[|s| - 1].product)
  }

  /** Number of products in group `k`. */
  function CountIn(s: seq<Doc>, g: GroupKey, k: string): int {
    if |s| == 0 then 0
    else CountIn(s[..|s| - 1], g, k) + (if KeyOf(s[|s| - 1].product, g) == k then 1 else 0)
  }

  /** Sum of the quantities in group `k`. */
  function QuantityIn(s: seq<Doc>, g: GroupKey, k: string): int {
    if |s| == 0 then 0
    else QuantityIn(s[..|s| - 1], g, k) + (if KeyOf(s[|s| - 1].product, g) == k then s[|s| - 1].product.quantity else 0)
  }

  /** Sum of the stock values in group `k`. */
  function ValueIn(s: seq<Doc>, g: GroupKey, k: string): int {
    if |s| == 0 then 0
    else ValueIn(s[..|s| - 1], g, k) + (if KeyOf(s[|s| - 1].product, g) == k then ValueOf(s[|s| - 1].product) else 0)
  }

  /** Some product's key is exactly `k`. */
  predicate KeyOccurs(s: seq<Doc>, g: GroupKey, k: string) {
    exists i :: 0 <= i < |s| && KeyOf(s[i].product, g) == k
  }

  /** One step of the grouping loop: opens the group on first sight, then
      adds one to its count and the product's quantity and value. */
  function AddTo(m: map<string, Group>, p: Product, g: GroupKey): map<string, Group> {
    var k := KeyOf(p, g);
    var cur := if k in m then m[k] else Group(0, 0, 0);
    m[k := Group(cur.count + 1, cur.quantity + p.quantity, cur.value + ValueOf(p))]
  }

  /** The grouping loop over the products in collection order. */
  function Tally(s: seq<Doc>, g: GroupKey): map<string, Group> {
    if |s| == 0 then map[] else AddTo(Tally(s[..|s| - 1], g), s[|s| - 1].product, g)
  }

  /** `by_car` keeps only count and quantity of each group. */
  function CarView(m: map<string, Group>): map<string, CarGroup> {
    map k | k in m :: CarGroup(m[k].count, m[k].quantity)
  }

  /** `getStats` over the snapshot `store`. */
  function GetStats(store: Store): (r: Stats)
    ensures r.overview.totalProducts == |store|
    ensures r.overview.availableProducts + r.overview.outOfStock == r.overview.totalProducts
    ensures 0 <= r.overview.availableProducts <= r.overview.totalProducts
    ensures |store| == 0 ==> r == Stats(Overview(0, 0, 0, 0, 0), map[], map[])
  {
    var available := Available(store);
    Stats(
      Overview(|store|, available, |store| - available, TotalValue(store), TotalItems(store)),
      Tally(store, ByType),
      CarView(Tally(store, ByCar)))
  }

  /** The tally has a group for exactly the keys that occur, verbatim, and
      each group holds the count, quantity and value of its products. */
  lemma {:induction false} TallyExact(s: seq<Doc>, g: GroupKey)
    ensures forall k :: k in Tally(s, g) <==> KeyOccurs(s, g, k)
    ensures forall k :: k in Tally(s, g) ==>
              Tally(s, g)[k] == Group(CountIn(s, g, k), QuantityIn(s, g, k), ValueIn(s, g, k))
  {
    if |s| > 0 {
      var s0 := s[..|s| - 1];
      var p := s[|s| - 1].product;
      var m := Tally(s0, g);
      TallyExact(s0, g);
      forall k
        ensures KeyOccurs(s, g, k) <==> KeyOccurs(s0, g, k) || KeyOf(p, g) == k
      {
        if KeyOccurs(s, g, k) {
          var i :| 0 <= i < |s| && KeyOf(s[i].product, g) == k;
          if i < |s| - 1 {
            assert s0[i] == s[i];
          }
        }
        if KeyOccurs(s0, g, k) {
          var i :| 0 <= i < |s0| && KeyOf(s0[i].product, g) == k;
          assert s[i] == s0[i];
        }
      }
      forall k | k in Tally(s, g)
        ensures Tally(s, g)[k] == Group(CountIn(s, g, k), QuantityIn(s, g, k), ValueIn(s, g, k))
      {
        if k == KeyOf(p, g) && k !in m {
          CountAbsent(s0, g, k);
        }
      }
    }
  }

  /** A key that occurs nowhere has empty sums. */
  lemma {:induction false} CountAbsent(s: seq<Doc>, g: GroupKey, k: string)
    requires !KeyOccurs(s, g, k)
    ensures CountIn(s, g, k) == 0 && QuantityIn(s, g, k) == 0 && ValueIn(s, g, k) == 0
  {
    if |s| > 0 {
      var s0 := s[..|s| - 1];
      forall i | 0 <= i < |s0|
        ensures KeyOf(s0[i].product, g) != k
      {
        assert s0[i] == s[i];
      }
      assert KeyOf(s[|s| - 1].product, g) != k;
      CountAbsent(s0, g, k);
    }
  }

  /** Sum of the values of an integer-valued map. */
  ghost function Sum(m: map<string, int>): int
    decreases |m|
  {
    if m == map[] then 0
    else
      var k :| k in m;
      m[k] + Sum(m - {k})
  }

  /** The key `Sum` takes apart first. */
  lemma SumPick(m: map<string, int>) returns (k: string)
    requires m != map[]
    ensures k in m && Sum(m) == m[k] + Sum(m - {k})
  {
    k :| k in m && Sum(m) == m[k] + Sum(m - {k});
  }

  /** `Sum` does not depend on the key it takes apart first. */
  lemma {:induction false} SumRemove(m: map<string, int>, k: string)
    requires k in m
    ensures Sum(m) == m[k] + Sum(m - {k})
    decreases |m|
  {
    var k' := SumPick(m);
    if k' != k {
      var m1 := m - {k'};
      var m2 := m - {k};
      assert m1.Keys == m.Keys - {k'};
      assert m2.Keys == m.Keys - {k};
      assert |m1| < |m|;
      SumRemove(m1, k);
      assert m1 - {k} == m2 - {k'};
      SumRemove(m2, k');
    }
  }

  lemma SumUpdate(m: map<string, int>, k: string, v: int)
    ensures Sum(m[k := v]) == Sum(m) - (if k in m then m[k] else 0) + v
  {
    SumRemove(m[k := v], k);
    if k in m {
      SumRemove(m, k);
      assert m[k := v] - {k} == m - {k};
    } else {
      assert m[k := v] - {k} == m;
    }
  }

  function Counts(m: map<string, Group>): map<string, int> {
    map k | k in m :: m[k].count
  }

  function Quantities(m: map<string, Group>): map<string, int> {
    map k | k in m :: m[k].quantity
  }

  function Values(m: map<string, Group>): map<string, int> {
    map k | k in m :: m[k].value
  }

  function CarCounts(m: map<string, CarGroup>): map<string, int> {
    map k | k in m :: m[k].count
  }

  function CarQuantities(m: map<string, CarGroup>): map<string, int> {
    map k | k in m :: m[k].quantity
  }

  /** The entry a grouping step starts from for key `k`. */
  function Current(m: map<string, Group>, k: string): Group {
    if k in m then m[k] else Group(0, 0, 0)
  }

  /** Projections of one grouping step: only key `k`'s entry changes. */
  lemma ProjectCounts(m: map<string, Group>, p: Product, g: GroupKey)
    ensures Sum(Counts(AddTo(m, p, g))) == Sum(Counts(m)) + 1
  {
    var k := KeyOf(p, g);
    assert Counts(AddTo(m, p, g)) == Counts(m)[k := Current(m, k).count + 1];
    SumUpdate(Counts(m), k, Current(m, k).count + 1);
  }

  lemma ProjectQuantities(m: map<string, Group>, p: Product, g: GroupKey)
    ensures Sum(Quantities(AddTo(m, p, g))) == Sum(Quantities(m)) + p.quantity
  {
    var k := KeyOf(p, g);
    assert Quantities(AddTo(m, p, g)) == Quantities(m)[k := Current(m, k).quantity + p.quantity];
    SumUpdate(Quantities(m), k, Current(m, k).quantity + p.quantity);
  }

  lemma ProjectValues(m: map<string, Group>, p: Product, g: GroupKey)
    ensures Sum(Values(AddTo(m, p, g))) == Sum(Values(m)) + ValueOf(p)
  {
    var k := KeyOf(p, g);
    assert Values(AddTo(m, p, g)) == Values(m)[k := Current(m, k).value + ValueOf(p)];
    SumUpdate(Values(m), k, Current(m, k).value + ValueOf(p));
  }

  lemma {:induction false} TallyCountSum(s: seq<Doc>, g: GroupKey)
    ensures Sum(Counts(Tally(s, g))) == |s|
  {
    if |s| == 0 {
      assert Counts(map[]) == map[];
    } else {
      TallyCountSum(s[..|s| - 1], g);
      ProjectCounts(Tally(s[..|s| - 1], g), s[|s| - 1].product, g);
    }
  }

  lemma {:induction false} TallyQuantitySum(s: seq<Doc>, g: GroupKey)
    ensures Sum(Quantities(Tally(s, g))) == TotalItems(s)
  {
    if |s| == 0 {
      assert Quantities(map[]) == map[];
    } else {
      TallyQuantitySum(s[..|s| - 1], g);
      ProjectQuantities(Tally(s[..|s| - 1], g), s[|s| - 1].product, g);
    }
  }

  lemma {:induction false} TallyValueSum(s: seq<Doc>, g: GroupKey)
    ensures Sum(Values(Tally(s, g))) == TotalValue(s)
  {
    if |s| == 0 {
      assert Values(map[]) == map[];
    } else {
      TallyValueSum(s[..|s| - 1], g);
      ProjectValues(Tally(s[..|s| - 1], g), s[|s| - 1].product, g);
    }
  }

  /** The group counts add up to the number of products, the group
      quantities to the total quantity and the group values to the total
      value. */
  lemma TallySums(s: seq<Doc>, g: GroupKey)
    ensures Sum(Counts(Tally(s, g))) == |s|
    ensures Sum(Quantities(Tally(s, g))) == TotalItems(s)
    ensures Sum(Values(Tally(s, g))) == TotalValue(s)
  {
    TallyCountSum(s, g);
    TallyQuantitySum(s, g);
    TallyValueSum(s, g);
  }

  /** The statistics the source promises: the `by_type` counts, quantities
      and values and the `by_car` counts and quantities add up to the
      overview totals. */
  lemma StatsGroupsAddUp(store: Store)
    ensures var r := GetStats(store);
            && Sum(Counts(r.byType)) == r.overview.totalProducts
            && Sum(Quantities(r.byType)) == r.overview.totalItems
            && Sum(Values(r.byType)) == r.overview.totalValue
            && Sum(CarCounts(r.byCar)) == r.overview.totalProducts
            && Sum(CarQuantities(r.byCar)) == r.overview.totalItems
  {
    TallySums(store, ByType);
    TallySums(store, ByCar);
    var t := Tally(store, ByCar);
    assert CarCounts(CarView(t)) == Counts(t);
    assert CarQuantities(CarView(t)) == Quantities(t);
  }

  /** Groups are keyed on the stored strings verbatim: one group per distinct
      `type` (or `car_name`), holding exactly the products with that key.
      Keys differing only in case are different groups. */
  lemma StatsKeysVerbatim(store: Store)
    ensures var r := GetStats(store);
            && (forall k :: k in r.byType <==> KeyOccurs(store, ByType, k))
            && (forall k :: k in r.byType ==>
                  r.byType[k] == Group(CountIn(store, ByType, k), QuantityIn(store, ByType, k), ValueIn(store, ByType, k)))
            && (forall k :: k in r.byCar <==> KeyOccurs(store, ByCar, k))
            && (forall k :: k in r.byCar ==>
                  r.byCar[k] == CarGroup(CountIn(store, ByCar, k), QuantityIn(store, ByCar, k)))
  {
    TallyExact(store, ByType);
    TallyExact(store, ByCar);
  }

  /** Two "Filter" parts with quantities 3 and 5 at prices 1000 and 2000
      form one group of count 2, quantity 8 and value 13000. */
  lemma FilterGroupExample()
    ensures var a := Product("P1", "oil filter", "Kia", "M1", "Filter", 3, 1000, 900, None, 3, None, InStock, "2024");
            var b := a.(productNumber := "P2", quantity := 5, priceIqd := 2000);
            GetStats([Doc(0, a), Doc(1, b)]).byType["Filter"] == Group(2, 8, 13000)
  {
    var a := Product("P1", "oil filter", "Kia", "M1", "Filter", 3, 1000, 900, None, 3, None, InStock, "2024");
    var b := a.(productNumber := "P2", quantity := 5, priceIqd := 2000);
    var s := [Doc(0, a), Doc(1, b)];
    assert s[..1] == [Doc(0, a)];
    assert s[..1][..0] == [];
    assert Tally(s[..1], ByType) == map["Filter" := Group(1, 3, 3000)];
  }

  // ---------------------------------------------------------------------
  // The grouping exactly as written: `by_type` and `by_car` are plain
  // object literals, so a lookup of a key that the object does not have
  // falls back to Object.prototype. For the inherited names below that
  // lookup is truthy, no own group is created, and the updates land on the
  // inherited value instead.

  /** Property names a plain object inherits with a truthy value. */
  const InheritedNames: set<string> := {
    "constructor", "__proto__", "toString", "toLocaleString", "valueOf",
    "hasOwnProperty", "isPrototypeOf", "propertyIsEnumerable",
    "__defineGetter__", "__defineSetter__", "__lookupGetter__", "__lookupSetter__"}

  /** One step of the source's grouping loop on a plain object. */
  function AddToAsWritten(m: map<string, Group>, p: Product, g: GroupKey): map<string, Group> {
    var k := KeyOf(p, g);
    if k in m then m[k := Group(m[k].count + 1, m[k].quantity + p.quantity, m[k].value + ValueOf(p))]
    else if k in InheritedNames then m
    else m[k := Group(1, p.quantity, ValueOf(p))]
  }

  function TallyAsWritten(s: seq<Doc>, g: GroupKey): map<string, Group> {
    if |s| == 0 then map[] else AddToAsWritten(TallyAsWritten(s[..|s| - 1], g), s[|s| - 1].product, g)
  }

  /** As written, the groups are those of the intended tally minus every
      group whose key is an inherited property name. */
  lemma {:induction false} AsWrittenDropsInheritedKeys(s: seq<Doc>, g: GroupKey)
    ensures TallyAsWritten(s, g) == map k | k in Tally(s, g) && k !in InheritedNames :: Tally(s, g)[k]
  {
    if |s| > 0 {
      AsWrittenDropsInheritedKeys(s[..|s| - 1], g);
    }
  }

  /** A single product of type "constructor": the intended statistics have
      one group of count 1, the code as written returns no group at all, so
      its `by_type` counts no longer add up to `total_products`. */
  lemma AsWrittenLosesConstructorGroup()
    ensures var p := Product("P1", "n", "c", "m", "constructor", 2, 10, 5, None, 2, None, InStock, "2024");
            var s := [Doc(0, p)];
            && TallyAsWritten(s, ByType) == map[]
            && Sum(Counts(TallyAsWritten(s, ByType))) == 0
            && Tally(s, ByType) == map["constructor" := Group(1, 2, 20)]
            && Sum(Counts(Tally(s, ByType))) == |s|
  {
    var p := Product("P1", "n", "c", "m", "constructor", 2, 10, 5, None, 2, None, InStock, "2024");
    var s := [Doc(0, p)];
    assert s[..0] == [];
    assert Counts(TallyAsWritten(s, ByType)) == map[];
    TallySums(s, ByType);
  }

  /** A grouping over keys that are no inherited property names is the same
      as written and as intended. */
  lemma {:induction false} AsWrittenAgreesOffInheritedKeys(s: seq<Doc>, g: GroupKey)
    requires forall i :: 0 <= i < |s| ==> KeyOf(s[i].product, g) !in InheritedNames
    ensures TallyAsWritten(s, g) == Tally(s, g)
  {
    if |s| > 0 {
      var s0 := s[..|s| - 1];
      assert forall i :: 0 <= i < |s0| ==> s0[i] == s[i];
      AsWrittenAgreesOffInheritedKeys(s0, g);
      assert KeyOf(s[|s| - 1].product, g) !in InheritedNames;
    }
  }

  /** Where no type or car name is an inherited property name, the groups
      `GetStats` reports are exactly those the code as written builds. */
  lemma StatsAgreeWithSourceGrouping(store: Store)
    requires forall i :: 0 <= i < |store| ==>
               store[i].product.partType !in InheritedNames && store[i].product.carName !in InheritedNames
    ensures GetStats(store).byType == TallyAsWritten(store, ByType)
    ensures GetStats(store).byCar == CarView(TallyAsWritten(store, ByCar))
  {
    assert GetStats(store).byType == Tally(store, ByType);
    assert GetStats(store).byCar == CarView(Tally(store, ByCar));
    AsWrittenAgreesOffInheritedKeys(store, ByType);
    AsWrittenAgreesOffInheritedKeys(store, ByCar);
  }
}
