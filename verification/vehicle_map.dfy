/** The in-memory vehicle repository: a map from id to vehicle with thirteen
    operations. Writes are pure functions from the store to an `Effect`
    (the new store and the error returned); queries take the store and an
    enumeration of its keys (see `Queries`) and return no store at all, so
    no query can change it. */
module VehicleMap {
  import opened Errors
  import opened Vehicles
  import opened Queries

  /** The store after a write, with the error the write returned. A failed
      batch insert keeps what it inserted before failing, so both parts are
      needed. */
  datatype Effect = Effect(db: Db, err: Outcome)

  /** A `nil` map gives an empty store; any other map becomes the store. */
  function NewVehicleMap(db: Option<Db>): (r: Db)
    ensures db.None? ==> |r| == 0
    ensures db.Some? ==> r == db.value
  {
    if db.Some? then db.value else map[]
  }

  /** A copy of the whole store; never fails. */
  function FindAll(db: Db): (r: Result<Db>)
    ensures r.Ok? && r.value == db
  {
    Ok(db)
  }

  /** Inserts `v` under its own id unless that id is taken. */
  function Add(db: Db, v: Vehicle): (e: Effect)
    ensures e.err.Nil? <==> v.id !in db
    ensures e.err.Fail? ==> e.err.kind == AlreadyExists && e.db == db
    ensures e.err.Nil? ==> e.db.Keys == db.Keys + {v.id} && e.db[v.id] == v
    ensures forall k :: k in db ==> k in e.db && e.db[k] == db[k]
    ensures KeyedById(db) ==> KeyedById(e.db)
  {
    if v.id in db then Effect(db, Fail(AlreadyExists))
    else Effect(db[v.id := v], Nil)
  }

  /** The ids of a batch. */
  ghost function Ids(vs: seq<Vehicle>): set<int> {
    set i | 0 <= i < |vs| :: vs[i].id
  }

  /** No vehicle of `vs` has an id already in `db` or used earlier in `vs`. */
  ghost predicate NoCollision(db: Db, vs: seq<Vehicle>) {
    && (forall i :: 0 <= i < |vs| ==> vs[i].id !in db)
    && (forall i, j :: 0 <= i < j < |vs| ==> vs[i].id != vs[j].id)
  }

  /** `after` is `db` with every vehicle of `vs` stored under its id. */
  ghost predicate InsertedAll(db: Db, vs: seq<Vehicle>, after: Db) {
    && after.Keys == db.Keys + Ids(vs)
    && (forall k :: k in db ==> after[k] == db[k])
    && (forall i :: 0 <= i < |vs| ==> after[vs[i].id] == vs[i])
  }

  /** Inserts the batch in order and stops at the first id already present,
      keeping the vehicles inserted before it. */
  function AddMultiple(db: Db, vs: seq<Vehicle>): (e: Effect)
    ensures e.err.Fail? ==> e.err.kind == AlreadyExists
    ensures forall k :: k in db ==> k in e.db && e.db[k] == db[k]
    ensures KeyedById(db) ==> KeyedById(e.db)
    decreases |vs|
  {
    if |vs| == 0 then Effect(db, Nil)
    else if vs[0].id in db then Effect(db, Fail(AlreadyExists))
    else AddMultiple(db[vs[0].id := vs[0]], vs[1..])
  }

  /** Inserting the head of a batch first changes neither whether the batch
      collides nor what inserting all of it means. */
  lemma BatchStep(db: Db, vs: seq<Vehicle>, after: Db)
    requires |vs| > 0 && vs[0].id !in db
    ensures NoCollision(db, vs) <==> NoCollision(db[vs[0].id := vs[0]], vs[1..])
    ensures InsertedAll(db[vs[0].id := vs[0]], vs[1..], after) ==> InsertedAll(db, vs, after)
  {
  }

  /** Batch insert succeeds exactly when nothing collides, and then stores
      the whole batch; otherwise it fails at the FIRST colliding vehicle `n`
      (colliding with the store or with an earlier vehicle of the batch),
      leaving exactly the vehicles before `n` inserted. */
  lemma {:induction false} AddMultipleSpec(db: Db, vs: seq<Vehicle>)
    ensures AddMultiple(db, vs).err.Nil? <==> NoCollision(db, vs)
    ensures AddMultiple(db, vs).err.Nil? ==> InsertedAll(db, vs, AddMultiple(db, vs).db)
    ensures AddMultiple(db, vs).err.Fail? ==>
      exists n :: 0 <= n < |vs| && NoCollision(db, vs[..n]) && vs[n].id in AddMultiple(db, vs).db
        && InsertedAll(db, vs[..n], AddMultiple(db, vs).db)
    decreases |vs|
  {
    var e := AddMultiple(db, vs);
    if |vs| == 0 {
      assert Ids(vs) == {};
    } else if vs[0].id in db {
      assert vs[..0] == [];
      assert Ids(vs[..0]) == {};
      assert !NoCollision(db, vs);
    } else {
      var db' := db[vs[0].id := vs[0]];
      var tail := vs[1..];
      AddMultipleSpec(db', tail);
      BatchStep(db, vs, e.db);
      if e.err.Fail? {
        var n :| 0 <= n < |tail| && NoCollision(db', tail[..n]) && tail[n].id in e.db
          && InsertedAll(db', tail[..n], e.db);
        var pre := vs[..n + 1];
        assert pre[1..] == tail[..n];
        BatchStep(db, pre, e.db);
        assert vs[n + 1] == tail[n];
      }
    }
  }

  /** Sets the maximum speed of the vehicle stored under `id`. */
  function UpdateMaxSpeedById(db: Db, id: int, maxSpeed: real): (e: Effect)
    ensures e.err.Nil? <==> id in db
    ensures e.err.Fail? ==> e.err.kind == VehicleNotFound && e.db == db
    ensures e.db.Keys == db.Keys
    ensures forall k :: k in db && k != id ==> e.db[k] == db[k]
    ensures id in db ==> e.db[id].attrs.maxSpeed == maxSpeed
    ensures id in db ==>
      e.db[id].(attrs := e.db[id].attrs.(maxSpeed := db[id].attrs.maxSpeed)) == db[id]
    ensures KeyedById(db) ==> KeyedById(e.db)
  {
    if id in db then
      var entry := db[id];
      Effect(db[id := entry.(attrs := entry.attrs.(maxSpeed := maxSpeed))], Nil)
    else Effect(db, Fail(VehicleNotFound))
  }

  /** Sets the fuel type of the vehicle stored under `id`. */
  function UpdateFuelTypeById(db: Db, id: int, fuelType: string): (e: Effect)
    ensures e.err.Nil? <==> id in db
    ensures e.err.Fail? ==> e.err.kind == VehicleNotFound && e.db == db
    ensures e.db.Keys == db.Keys
    ensures forall k :: k in db && k != id ==> e.db[k] == db[k]
    ensures id in db ==> e.db[id].attrs.fuelType == fuelType
    ensures id in db ==>
      e.db[id].(attrs := e.db[id].attrs.(fuelType := db[id].attrs.fuelType)) == db[id]
    ensures KeyedById(db) ==> KeyedById(e.db)
  {
    if id in db then
      var entry := db[id];
      Effect(db[id := entry.(attrs := entry.attrs.(fuelType := fuelType))], Nil)
    else Effect(db, Fail(VehicleNotFound))
  }

  /** Removes the vehicle stored under `id`. */
  function DeleteById(db: Db, id: int): (e: Effect)
    ensures e.err.Nil? <==> id in db
    ensures e.err.Fail? ==> e.err.kind == VehicleNotFound && e.db == db
    ensures e.db.Keys == db.Keys - {id}
    ensures forall k :: k in e.db ==> e.db[k] == db[k]
    ensures KeyedById(db) ==> KeyedById(e.db)
  {
    if id in db then Effect(db - {id}, Nil)
    else Effect(db, Fail(VehicleNotFound))
  }

  /** The scan shared by the six filters: the matching values, or
      VehiclesNotFound when there are none. */
  function Search(db: Db, order: seq<int>, q: Query): (r: Result<seq<Vehicle>>)
    requires Enumerates(order, db)
    ensures r.Err? <==> !AnyMatch(db, q)
    ensures r.Err? ==> r.kind == VehiclesNotFound
    ensures r.Ok? ==> multiset(r.value) == Selected(db, q)
    ensures r.Ok? ==> forall x :: x in r.value ==> x in db.Values && Matches(q, x)
    ensures forall k :: k in db && Matches(q, db[k]) ==> r.Ok? && db[k] in r.value
  {
    var vs := Collect(db, order, q);
    CollectEmptyIff(db, order, q);
    CollectIsSelected(db, order, q);
    assert forall k :: k in db && Matches(q, db[k]) ==> db[k] in vs by {
      forall k | k in db && Matches(q, db[k]) ensures db[k] in vs {
        var i :| 0 <= i < |order| && order[i] == k;
      }
    }
    if |vs| == 0 then Err(VehiclesNotFound) else Ok(vs)
  }

  function SearchByColorAndYear(db: Db, order: seq<int>, color: string, year: int)
    : (r: Result<seq<Vehicle>>)
    requires Enumerates(order, db)
    ensures r.Err? <==>
      forall k :: k in db ==> !(db[k].attrs.color == color && db[k].attrs.fabricationYear == year)
    ensures r.Err? ==> r.kind == VehiclesNotFound
    ensures r.Ok? ==> multiset(r.value) == Selected(db, ColorAndYear(color, year))
    ensures r.Ok? ==> forall x :: x in r.value ==>
      x in db.Values && x.attrs.color == color && x.attrs.fabricationYear == year
  {
    Search(db, order, ColorAndYear(color, year))
  }

  /** Brand equality and an inclusive fabrication-year range. */
  function SearchByBrand(db: Db, order: seq<int>, brand: string, startYear: int, endYear: int)
    : (r: Result<seq<Vehicle>>)
    requires Enumerates(order, db)
    ensures r.Err? <==>
      forall k :: k in db ==>
        !(db[k].attrs.brand == brand && startYear <= db[k].attrs.fabricationYear <= endYear)
    ensures r.Err? ==> r.kind == VehiclesNotFound
    ensures r.Ok? ==> multiset(r.value) == Selected(db, BrandBetween(brand, startYear, endYear))
    ensures r.Ok? ==> forall x :: x in r.value ==>
      x in db.Values && x.attrs.brand == brand && startYear <= x.attrs.fabricationYear <= endYear
  {
    Search(db, order, BrandBetween(brand, startYear, endYear))
  }

  function GetVehiclesByFuelType(db: Db, order: seq<int>, fuelType: string)
    : (r: Result<seq<Vehicle>>)
    requires Enumerates(order, db)
    ensures r.Err? <==> forall k :: k in db ==> db[k].attrs.fuelType != fuelType
    ensures r.Err? ==> r.kind == VehiclesNotFound
    ensures r.Ok? ==> multiset(r.value) == Selected(db, FuelType(fuelType))
    ensures r.Ok? ==> forall x :: x in r.value ==> x in db.Values && x.attrs.fuelType == fuelType
  {
    Search(db, order, FuelType(fuelType))
  }

  function GetVehiclesByTransmission(db: Db, order: seq<int>, transmission: string)
    : (r: Result<seq<Vehicle>>)
    requires Enumerates(order, db)
    ensures r.Err? <==> forall k :: k in db ==> db[k].attrs.transmission != transmission
    ensures r.Err? ==> r.kind == VehiclesNotFound
    ensures r.Ok? ==> multiset(r.value) == Selected(db, Transmission(transmission))
    ensures r.Ok? ==> forall x :: x in r.value ==>
      x in db.Values && x.attrs.transmission == transmission
  {
    Search(db, order, Transmission(transmission))
  }

  /** Inclusive ranges on both length and width. */
  function GetVehiclesByDimensions(db: Db, order: seq<int>,
                                   minLength: real, maxLength: real, minWidth: real, maxWidth: real)
    : (r: Result<seq<Vehicle>>)
    requires Enumerates(order, db)
    ensures r.Err? <==>
      forall k :: k in db ==>
        !(minLength <= db[k].attrs.dimensions.length <= maxLength
          && minWidth <= db[k].attrs.dimensions.width <= maxWidth)
    ensures r.Err? ==> r.kind == VehiclesNotFound
    ensures r.Ok? ==>
      multiset(r.value) == Selected(db, DimensionsWithin(minLength, maxLength, minWidth, maxWidth))
    ensures r.Ok? ==> forall x :: x in r.value ==>
      x in db.Values
      && minLength <= x.attrs.dimensions.length <= maxLength
      && minWidth <= x.attrs.dimensions.width <= maxWidth
  {
    Search(db, order, DimensionsWithin(minLength, maxLength, minWidth, maxWidth))
  }

  /** An inclusive weight range. */
  function GetVehiclesByWeight(db: Db, order: seq<int>, minWeight: real, maxWeight: real)
    : (r: Result<seq<Vehicle>>)
    requires Enumerates(order, db)
    ensures r.Err? <==> forall k :: k in db ==> !(minWeight <= db[k].attrs.weight <= maxWeight)
    ensures r.Err? ==> r.kind == VehiclesNotFound
    ensures r.Ok? ==> multiset(r.value) == Selected(db, WeightWithin(minWeight, maxWeight))
    ensures r.Ok? ==> forall x :: x in r.value ==>
      x in db.Values && minWeight <= x.attrs.weight <= maxWeight
  {
    Search(db, order, WeightWithin(minWeight, maxWeight))
  }

  /** Go's integer division, which truncates toward zero: the remainder takes
      the sign of the dividend (Dafny's own `/` is Euclidean). */
  function TruncDiv(a: int, b: int): (r: int)
    requires b > 0
    ensures a >= 0 ==> 0 <= a - r * b < b
    ensures a < 0 ==> -b < a - r * b <= 0
  {
    if a >= 0 then a / b else -((-a) / b)
  }

  /** Mean passenger capacity of the vehicles of `brand`, with Go's
      truncating integer division; VehiclesNotFound when the brand has no
      vehicle, so the division never sees a zero count. The value is stated
      over ANY listing of the brand's vehicles, so it does not depend on the
      enumeration. */
  function GetAverageCapacityByBrand(db: Db, order: seq<int>, brand: string): (r: Result<int>)
    requires Enumerates(order, db)
    ensures r.Err? <==> forall k :: k in db ==> db[k].attrs.brand != brand
    ensures r.Err? ==> r.kind == VehiclesNotFound
    ensures r.Ok? ==> forall vs :: multiset(vs) == Selected(db, OfBrand(brand)) ==>
      |vs| > 0 && r.value == TruncDiv(CapacitySum(vs), |vs|)
  {
    var q := OfBrand(brand);
    var found := Collect(db, order, q);
    CollectEmptyIff(db, order, q);
    CollectIsSelected(db, order, q);
    if |found| == 0 then Err(VehiclesNotFound)
    else
      assert forall vs :: multiset(vs) == Selected(db, q) ==>
        |vs| == |found| && CapacitySum(vs) == CapacitySum(found)
      by {
        forall vs | multiset(vs) == Selected(db, q)
          ensures |vs| == |found| && CapacitySum(vs) == CapacitySum(found)
        {
          assert |vs| == |multiset(vs)| == |multiset(found)| == |found|;
          SumsPermutation(found, vs);
        }
      }
      Ok(TruncDiv(CapacitySum(found), |found|))
  }

  /** Mean maximum speed of the vehicles of `brand`, in exact arithmetic;
      VehiclesNotFound when the brand has no vehicle. As for the capacity,
      the value is stated over any listing of the brand's vehicles. */
  function GetAverageSpeedByBrand(db: Db, order: seq<int>, brand: string): (r: Result<real>)
    requires Enumerates(order, db)
    ensures r.Err? <==> forall k :: k in db ==> db[k].attrs.brand != brand
    ensures r.Err? ==> r.kind == VehiclesNotFound
    ensures r.Ok? ==> forall vs :: multiset(vs) == Selected(db, OfBrand(brand)) ==>
      |vs| > 0 && r.value == SpeedSum(vs) / (|vs| as real)
  {
    var q := OfBrand(brand);
    var found := Collect(db, order, q);
    CollectEmptyIff(db, order, q);
    CollectIsSelected(db, order, q);
    if |found| == 0 then Err(VehiclesNotFound)
    else
      assert forall vs :: multiset(vs) == Selected(db, q) ==>
        |vs| == |found| && SpeedSum(vs) == SpeedSum(found)
      by {
        forall vs | multiset(vs) == Selected(db, q)
          ensures |vs| == |found| && SpeedSum(vs) == SpeedSum(found)
        {
          assert |vs| == |multiset(vs)| == |multiset(found)| == |found|;
          SumsPermutation(found, vs);
        }
      }
      Ok(SpeedSum(found) / (|found| as real))
  }
}
