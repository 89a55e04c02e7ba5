/** Properties that relate several store operations: inverses, read-after-
    write, order independence of the scans, and bounds on the averages. */
module StoreProperties {
  import opened Errors
  import opened Vehicles
  import opened Queries
  import opened VehicleMap

  /** A store made from a `nil` map is empty: FindAll returns an empty map and
      every query reports VehiclesNotFound. */
  lemma EmptyStoreFindsNothing(q: Query, brand: string)
    ensures FindAll(NewVehicleMap(None)) == Ok(map[])
    ensures Search(NewVehicleMap(None), [], q) == Err(VehiclesNotFound)
    ensures GetAverageCapacityByBrand(NewVehicleMap(None), [], brand) == Err(VehiclesNotFound)
    ensures GetAverageSpeedByBrand(NewVehicleMap(None), [], brand) == Err(VehiclesNotFound)
  {
  }

  /** Adding records with distinct ids to an empty store and then listing the
      store yields exactly those records, each under its own id. */
  lemma AddedRecordsAreFound(vs: seq<Vehicle>)
    requires forall i, j :: 0 <= i < j < |vs| ==> vs[i].id != vs[j].id
    ensures AddMultiple(map[], vs).err.Nil?
    ensures FindAll(AddMultiple(map[], vs).db).value.Keys == Ids(vs)
    ensures forall i :: 0 <= i < |vs| ==> FindAll(AddMultiple(map[], vs).db).value[vs[i].id] == vs[i]
  {
    AddMultipleSpec(map[], vs);
  }

  /** A batch whose second vehicle collides with the store keeps the first
      one inserted: the batch insert is not all-or-nothing. */
  lemma AddMultiplePartial(db: Db, v1: Vehicle, v2: Vehicle)
    requires v1.id !in db && v2.id in db
    ensures AddMultiple(db, [v1, v2]) == Effect(db[v1.id := v1], Fail(AlreadyExists))
  {
  }

  /** A collision inside the batch itself is reported like one with the store. */
  lemma AddMultipleDuplicateInBatch(db: Db, v1: Vehicle, v2: Vehicle)
    requires v1.id !in db && v2.id == v1.id
    ensures AddMultiple(db, [v1, v2]) == Effect(db[v1.id := v1], Fail(AlreadyExists))
  {
  }

  /** Deleting what was just added restores the store. */
  lemma AddThenDelete(db: Db, v: Vehicle)
    requires v.id !in db
    ensures DeleteById(Add(db, v).db, v.id) == Effect(db, Nil)
  {
  }

  /** Re-adding what was just deleted restores the store, provided each key
      holds the vehicle with that id. */
  lemma DeleteThenAdd(db: Db, id: int)
    requires KeyedById(db) && id in db
    ensures Add(DeleteById(db, id).db, db[id]) == Effect(db, Nil)
  {
  }

  /** A second delete of the same id fails and changes nothing. */
  lemma DeleteTwiceFails(db: Db, id: int)
    ensures DeleteById(DeleteById(db, id).db, id) == Effect(DeleteById(db, id).db, Fail(VehicleNotFound))
  {
  }

  /** Only the last of two speed updates of one vehicle is visible. */
  lemma UpdateMaxSpeedLastWins(db: Db, id: int, s1: real, s2: real)
    ensures UpdateMaxSpeedById(UpdateMaxSpeedById(db, id, s1).db, id, s2).db
         == UpdateMaxSpeedById(db, id, s2).db
  {
  }

  /** Writing back the current speed or fuel type leaves the store as it was. */
  lemma UpdateWithCurrentValueIsIdentity(db: Db, id: int)
    requires id in db
    ensures UpdateMaxSpeedById(db, id, db[id].attrs.maxSpeed) == Effect(db, Nil)
    ensures UpdateFuelTypeById(db, id, db[id].attrs.fuelType) == Effect(db, Nil)
  {
  }

  /** Two enumerations of the same store give the same scan results, up to order. */
  lemma SearchOrderFree(db: Db, order1: seq<int>, order2: seq<int>, q: Query)
    requires Enumerates(order1, db) && Enumerates(order2, db)
    ensures Search(db, order1, q).Ok? <==> Search(db, order2, q).Ok?
    ensures Search(db, order1, q).Ok? ==>
      multiset(Search(db, order1, q).value) == multiset(Search(db, order2, q).value)
  {
  }

  /** A vehicle of the brand built exactly in the first or the last year of
      the range is returned: both year bounds are inclusive. */
  lemma SearchByBrandBoundsIncluded(db: Db, order: seq<int>, brand: string,
                                    startYear: int, endYear: int, k: int)
    requires Enumerates(order, db) && k in db && db[k].attrs.brand == brand
    requires startYear <= endYear
    requires db[k].attrs.fabricationYear == startYear || db[k].attrs.fabricationYear == endYear
    ensures SearchByBrand(db, order, brand, startYear, endYear).Ok?
    ensures db[k] in SearchByBrand(db, order, brand, startYear, endYear).value
  {
  }

  /** A vehicle whose length and width sit exactly on the range bounds is returned. */
  lemma DimensionsBoundsIncluded(db: Db, order: seq<int>, k: int)
    requires Enumerates(order, db) && k in db
    ensures var d := db[k].attrs.dimensions;
      var r := GetVehiclesByDimensions(db, order, d.length, d.length, d.width, d.width);
      r.Ok? && db[k] in r.value
  {
  }

  /** A vehicle whose weight equals either bound of the range is returned. */
  lemma WeightBoundsIncluded(db: Db, order: seq<int>, minWeight: real, maxWeight: real, k: int)
    requires Enumerates(order, db) && k in db && minWeight <= maxWeight
    requires db[k].attrs.weight == minWeight || db[k].attrs.weight == maxWeight
    ensures GetVehiclesByWeight(db, order, minWeight, maxWeight).Ok?
    ensures db[k] in GetVehiclesByWeight(db, order, minWeight, maxWeight).value
  {
  }

  /** Go's division truncates toward zero, unlike Dafny's Euclidean `/`. */
  lemma TruncDivRoundsTowardZero()
    ensures TruncDiv(-7, 2) == -3 && -7 / 2 == -4
    ensures TruncDiv(7, 2) == 3
  {
  }

  /** The average capacity does not depend on the order in which the map is
      ranged over. */
  lemma {:induction false} AverageCapacityOrderFree(db: Db, order1: seq<int>, order2: seq<int>, brand: string)
    requires Enumerates(order1, db) && Enumerates(order2, db)
    ensures GetAverageCapacityByBrand(db, order1, brand) == GetAverageCapacityByBrand(db, order2, brand)
  {
    CollectIsSelected(db, order1, OfBrand(brand));
  }

  /** The average speed does not depend on the order in which the map is
      ranged over. */
  lemma {:induction false} AverageSpeedOrderFree(db: Db, order1: seq<int>, order2: seq<int>, brand: string)
    requires Enumerates(order1, db) && Enumerates(order2, db)
    ensures GetAverageSpeedByBrand(db, order1, brand) == GetAverageSpeedByBrand(db, order2, brand)
  {
    CollectIsSelected(db, order1, OfBrand(brand));
  }

  lemma MulMonotone(a: int, b: int, n: int)
    requires a <= b && n >= 0
    ensures a * n <= b * n
  {
  }

  /** Some vehicle's capacity is at most the mean capacity of `vs`. */
  lemma {:induction false} CapacityBelowMean(vs: seq<Vehicle>) returns (lo: int)
    requires |vs| > 0
    ensures 0 <= lo < |vs| && vs[lo].attrs.capacity * |vs| <= CapacitySum(vs)
  {
    if |vs| == 1 {
      lo := 0;
    } else {
      var n := |vs| - 1;
      var tail := vs[1..];
      var l := CapacityBelowMean(tail);
      var c := vs[0].attrs.capacity;
      var cl := tail[l].attrs.capacity;
      assert CapacitySum(vs) == c + CapacitySum(tail);
      if c <= cl {
        MulMonotone(c, cl, n);
        assert c * (n + 1) == c * n + c;
        lo := 0;
      } else {
        assert cl * (n + 1) == cl * n + cl;
        lo := l + 1;
      }
    }
  }

  /** Some vehicle's capacity is at least the mean capacity of `vs`. */
  lemma {:induction false} CapacityAboveMean(vs: seq<Vehicle>) returns (hi: int)
    requires |vs| > 0
    ensures 0 <= hi < |vs| && CapacitySum(vs) <= vs[hi].attrs.capacity * |vs|
  {
    if |vs| == 1 {
      hi := 0;
    } else {
      var n := |vs| - 1;
      var tail := vs[1..];
      var h := CapacityAboveMean(tail);
      var c := vs[0].attrs.capacity;
      var ch := tail[h].attrs.capacity;
      assert CapacitySum(vs) == c + CapacitySum(tail);
      if ch <= c {
        MulMonotone(ch, c, n);
        assert c * (n + 1) == c * n + c;
        hi := 0;
      } else {
        assert ch * (n + 1) == ch * n + ch;
        hi := h + 1;
      }
    }
  }

  /** A truncated quotient of a value between `lo * n` and `hi * n` lies
      between `lo` and `hi`. */
  lemma TruncDivBetween(s: int, n: int, lo: int, hi: int)
    requires n > 0 && lo * n <= s <= hi * n
    ensures lo <= TruncDiv(s, n) <= hi
  {
    var r := TruncDiv(s, n);
    if r < lo {
      MulMonotone(r + 1, lo, n);
    }
    if r > hi {
      MulMonotone(hi + 1, r, n);
    }
  }

  /** The average capacity of a brand lies between the smallest and the
      largest capacity among that brand's vehicles. */
  lemma AverageCapacityWithinRange(db: Db, order: seq<int>, brand: string)
    requires Enumerates(order, db)
    ensures var r := GetAverageCapacityByBrand(db, order, brand);
      r.Ok? ==>
        && (exists k :: k in db && db[k].attrs.brand == brand && db[k].attrs.capacity <= r.value)
        && (exists k :: k in db && db[k].attrs.brand == brand && r.value <= db[k].attrs.capacity)
  {
    var r := GetAverageCapacityByBrand(db, order, brand);
    var vs := Collect(db, order, OfBrand(brand));
    if r.Ok? {
      var lo := CapacityBelowMean(vs);
      var hi := CapacityAboveMean(vs);
      TruncDivBetween(CapacitySum(vs), |vs|, vs[lo].attrs.capacity, vs[hi].attrs.capacity);
      assert vs[lo] in vs && vs[hi] in vs;
      var i :| 0 <= i < |order| && db[order[i]] == vs[lo];
      var j :| 0 <= j < |order| && db[order[j]] == vs[hi];
      assert db[order[i]].attrs.brand == brand && db[order[j]].attrs.brand == brand;
    }
  }
}
