/** The linear scans behind every query of the store.

    Go ranges over a map in an order the runtime chooses afresh on every
    loop. A scan is therefore modelled as a function of the store AND of an
    enumeration `order` of its keys; the order-free meaning of a scan is the
    multiset `Selected`, and `CollectIsSelected` shows that every order gives
    that multiset. */
module Queries {
  import opened Vehicles

  /** The selection predicates used by the store's filters and averages. */
  datatype Query =
    | ColorAndYear(color: string, year: int)
    | BrandBetween(brand: string, startYear: int, endYear: int)
    | OfBrand(brand: string)
    | FuelType(fuelType: string)
    | Transmission(transmission: string)
    | DimensionsWithin(minLength: real, maxLength: real, minWidth: real, maxWidth: real)
    | WeightWithin(minWeight: real, maxWeight: real)

  /** Whether `v` is kept by the scan for `q`; every range is inclusive. */
  predicate Matches(q: Query, v: Vehicle) {
    var a := v.attrs;
    match q
    case ColorAndYear(color, year) =>
      a.color == color && a.fabricationYear == year
    case BrandBetween(brand, startYear, endYear) =>
      a.brand == brand && a.fabricationYear >= startYear && a.fabricationYear <= endYear
    case OfBrand(brand) =>
      a.brand == brand
    case FuelType(fuelType) =>
      a.fuelType == fuelType
    case Transmission(transmission) =>
      a.transmission == transmission
    case DimensionsWithin(minLength, maxLength, minWidth, maxWidth) =>
      a.dimensions.length >= minLength && a.dimensions.length <= maxLength
      && a.dimensions.width >= minWidth && a.dimensions.width <= maxWidth
    case WeightWithin(minWeight, maxWeight) =>
      a.weight >= minWeight && a.weight <= maxWeight
  }

  /** `order` lists every key of `db` exactly once: one possible order of a
      Go `range` over the map. */
  predicate Enumerates(order: seq<int>, db: Db) {
    && (forall i, j :: 0 <= i < j < |order| ==> order[i] != order[j])
    && (forall i :: 0 <= i < |order| ==> order[i] in db)
    && (forall k :: k in db ==> k in order)
  }

  /** Some key of `db` satisfies `q`. */
  ghost predicate AnyMatch(db: Db, q: Query) {
    exists k :: k in db && Matches(q, db[k])
  }

  /** The scan: the values of the keys in `order` that satisfy `q`, appended
      in that order. */
  function Collect(db: Db, order: seq<int>, q: Query): (vs: seq<Vehicle>)
    requires forall i :: 0 <= i < |order| ==> order[i] in db
    ensures |vs| <= |order|
    ensures forall x :: x in vs ==> Matches(q, x)
    ensures forall i :: 0 <= i < |order| && Matches(q, db[order[i]]) ==> db[order[i]] in vs
    ensures forall x :: x in vs ==> exists i :: 0 <= i < |order| && db[order[i]] == x
  {
    if |order| == 0 then []
    else
      var v := db[order[0]];
      (if Matches(q, v) then [v] else []) + Collect(db, order[1..], q)
  }

  /** The multiset contribution of one stored value to a selection. */
  function Kept(q: Query, v: Vehicle): multiset<Vehicle> {
    if Matches(q, v) then multiset{v} else multiset{}
  }

  lemma HasKey(db: Db)
    requires |db.Keys| != 0
    ensures exists k :: k in db.Keys
  {
    if forall k :: k !in db.Keys {
      assert false;
    }
  }

  /** The order-free result of scanning `db` for `q`: every stored value that
      satisfies `q`, counted once per key holding it. */
  ghost function Selected(db: Db, q: Query): multiset<Vehicle>
    decreases db.Keys
  {
    if |db.Keys| == 0 then multiset{}
    else
      HasKey(db);
      var k :| k in db.Keys;
      Kept(q, db[k]) + Selected(db - {k}, q)
  }

  /** A value is selected only if some key holds it and it satisfies `q`. */
  lemma {:induction false} SelectedSound(db: Db, q: Query, x: Vehicle)
    requires x in Selected(db, q)
    ensures Matches(q, x)
    ensures exists k :: k in db && db[k] == x
    decreases db.Keys
  {
    var c :| c in db.Keys && Selected(db, q) == Kept(q, db[c]) + Selected(db - {c}, q);
    var rest := db - {c};
    if x in Kept(q, db[c]) {
      assert db[c] == x;
    } else {
      SelectedSound(rest, q, x);
      var k :| k in rest && rest[k] == x;
      assert db[k] == x;
    }
  }

  /** Every stored value that satisfies `q` is selected. */
  lemma {:induction false} SelectedComplete(db: Db, q: Query, k: int)
    requires k in db && Matches(q, db[k])
    ensures db[k] in Selected(db, q)
    decreases db.Keys
  {
    var c :| c in db.Keys && Selected(db, q) == Kept(q, db[c]) + Selected(db - {c}, q);
    if k == c {
      assert Kept(q, db[c]) == multiset{db[k]};
      assert db[k] in Kept(q, db[c]) + Selected(db - {c}, q);
    } else {
      var rest := db - {c};
      SelectedComplete(rest, q, k);
      assert rest[k] == db[k];
      assert db[k] in Kept(q, db[c]) + Selected(rest, q);
    }
  }

  /** `Selected` may peel off ANY key, not only the one it happens to choose. */
  lemma {:induction false} SelectedAnyKey(db: Db, q: Query, k: int)
    requires k in db
    ensures Selected(db, q) == Kept(q, db[k]) + Selected(db - {k}, q)
    decreases db.Keys
  {
    var j :| j in db.Keys && Selected(db, q) == Kept(q, db[j]) + Selected(db - {j}, q);
    if j != k {
      var rest := db - {j} - {k};
      assert db - {k} - {j} == rest;
      SelectedAnyKey(db - {j}, q, k);
      SelectedAnyKey(db - {k}, q, j);
    }
  }

  /** The scan depends only on the values stored under the keys it visits. */
  lemma {:induction false} CollectFrame(db1: Db, db2: Db, order: seq<int>, q: Query)
    requires forall i :: 0 <= i < |order| ==> order[i] in db1 && order[i] in db2
    requires forall i :: 0 <= i < |order| ==> db1[order[i]] == db2[order[i]]
    ensures Collect(db1, order, q) == Collect(db2, order, q)
  {
    if |order| > 0 {
      CollectFrame(db1, db2, order[1..], q);
    }
  }

  /** Whatever order the runtime picks, the scan returns the same values with
      the same multiplicities. */
  lemma {:induction false} CollectIsSelected(db: Db, order: seq<int>, q: Query)
    requires Enumerates(order, db)
    ensures multiset(Collect(db, order, q)) == Selected(db, q)
    decreases |order|
  {
    if |order| == 0 {
      assert forall k :: k !in db.Keys;
      assert db.Keys == {};
    } else {
      var k := order[0];
      var rest := db - {k};
      EnumeratesTail(order, db);
      CollectIsSelected(rest, order[1..], q);
      CollectFrame(db, rest, order[1..], q);
      SelectedAnyKey(db, q, k);
    }
  }

  /** Dropping the first key of an enumeration enumerates the rest of the store. */
  lemma EnumeratesTail(order: seq<int>, db: Db)
    requires Enumerates(order, db) && |order| > 0
    ensures Enumerates(order[1..], db - {order[0]})
  {
  }

  /** Every store has at least one enumeration of its keys. */
  lemma {:induction false} EnumerationExists(db: Db) returns (order: seq<int>)
    ensures Enumerates(order, db)
    decreases db.Keys
  {
    if |db.Keys| == 0 {
      order := [];
    } else {
      HasKey(db);
      var k :| k in db.Keys;
      var rest := EnumerationExists(db - {k});
      order := [k] + rest;
    }
  }

  /** The scan comes back empty exactly when no stored value satisfies `q`. */
  lemma CollectEmptyIff(db: Db, order: seq<int>, q: Query)
    requires Enumerates(order, db)
    ensures |Collect(db, order, q)| == 0 <==> !AnyMatch(db, q)
  {
    var vs := Collect(db, order, q);
    if AnyMatch(db, q) {
      var k :| k in db && Matches(q, db[k]);
      var i :| 0 <= i < |order| && order[i] == k;
      assert db[order[i]] in vs;
    }
    if |vs| > 0 {
      assert vs[0] in vs;
      var i :| 0 <= i < |order| && db[order[i]] == vs[0];
      assert Matches(q, db[order[i]]);
    }
  }

  /** Sum of the passenger capacities of `vs`, in Go's `int` read as unbounded. */
  function CapacitySum(vs: seq<Vehicle>): int {
    if |vs| == 0 then 0 else vs[0].attrs.capacity + CapacitySum(vs[1..])
  }

  /** Sum of the maximum speeds of `vs`, in exact real arithmetic. */
  function SpeedSum(vs: seq<Vehicle>): real {
    if |vs| == 0 then 0.0 else vs[0].attrs.maxSpeed + SpeedSum(vs[1..])
  }

  lemma {:induction false} SumsAppend(a: seq<Vehicle>, b: seq<Vehicle>)
    ensures CapacitySum(a + b) == CapacitySum(a) + CapacitySum(b)
    ensures SpeedSum(a + b) == SpeedSum(a) + SpeedSum(b)
  {
    if |a| == 0 {
      assert a + b == b;
    } else {
      assert (a + b)[0] == a[0];
      assert (a + b)[1..] == a[1..] + b;
      SumsAppend(a[1..], b);
    }
  }

  /** The sums do not depend on the order of the summands. */
  lemma {:induction false} SumsPermutation(a: seq<Vehicle>, b: seq<Vehicle>)
    requires multiset(a) == multiset(b)
    ensures CapacitySum(a) == CapacitySum(b)
    ensures SpeedSum(a) == SpeedSum(b)
    decreases |a|
  {
    if |a| > 0 {
      var x := a[0];
      assert x in multiset(b);
      var i :| 0 <= i < |b| && b[i] == x;
      var b' := b[..i] + b[i + 1..];
      assert b == b[..i] + ([x] + b[i + 1..]);
      assert a == [x] + a[1..];
      assert multiset([x]) == multiset{x};
      assert multiset(b) == multiset(b[..i]) + multiset{x} + multiset(b[i + 1..]);
      assert multiset(a) == multiset{x} + multiset(a[1..]);
      assert multiset(b') == multiset(b[..i]) + multiset(b[i + 1..]);
      assert multiset(a[1..]) == multiset(a) - multiset{x};
      assert multiset(b') == multiset(b) - multiset{x};
      SumsPermutation(a[1..], b');
      SumsAppend(b[..i], [x] + b[i + 1..]);
      SumsAppend([x], b[i + 1..]);
      SumsAppend(b[..i], b[i + 1..]);
    }
  }
}
