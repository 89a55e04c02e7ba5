/** The service layer: passes each call to the repository and rewrites the
    errors it gets back. `Add` keeps the AlreadyExists kind (Go wraps it with
    `%w`, which keeps it recognisable); the three queries turn any repository
    error into VehiclesNotFound. */
module VehicleService {
  import opened Errors
  import opened Vehicles
  import opened Queries
  import VehicleMap

  /** The query error normalisation: total over error kinds, it maps every
      failure to VehiclesNotFound and leaves a success untouched. */
  function NotFoundOnError<T>(r: Result<T>): (n: Result<T>)
    ensures n.Ok? <==> r.Ok?
    ensures n.Ok? ==> n.value == r.value
    ensures n.Err? ==> n.kind == VehiclesNotFound
  {
    match r
    case Ok(_) => r
    case Err(_) => Err(VehiclesNotFound)
  }

  /** Exactly what the repository returns. */
  function FindAll(db: Db): (r: Result<Db>)
    ensures r == VehicleMap.FindAll(db)
    ensures r.Ok? && r.value == db
  {
    VehicleMap.FindAll(db)
  }

  /** The repository's insert; AlreadyExists stays AlreadyExists and any other
      error passes through unchanged. */
  function Add(db: Db, v: Vehicle): (e: VehicleMap.Effect)
    ensures e.db == VehicleMap.Add(db, v).db
    ensures e.err.Nil? <==> VehicleMap.Add(db, v).err.Nil?
    ensures VehicleMap.Add(db, v).err.Fail? ==> e.err.Fail? && e.err.kind == VehicleMap.Add(db, v).err.kind
    ensures e.err.Nil? <==> v.id !in db
    ensures e.err.Fail? ==> e.err.kind == AlreadyExists
  {
    var e := VehicleMap.Add(db, v);
    match e.err
    case Fail(AlreadyExists) => VehicleMap.Effect(e.db, Fail(AlreadyExists))
    case _ => e
  }

  function SearchByColorAndYear(db: Db, order: seq<int>, color: string, year: int)
    : (r: Result<seq<Vehicle>>)
    requires Enumerates(order, db)
    ensures var repo := VehicleMap.SearchByColorAndYear(db, order, color, year);
      && (r.Ok? <==> repo.Ok?)
      && (r.Ok? ==> r.value == repo.value)
    ensures r.Err? ==> r.kind == VehiclesNotFound
    ensures r.Err? <==> !AnyMatch(db, ColorAndYear(color, year))
  {
    NotFoundOnError(VehicleMap.SearchByColorAndYear(db, order, color, year))
  }

  function SearchByBrand(db: Db, order: seq<int>, brand: string, startYear: int, endYear: int)
    : (r: Result<seq<Vehicle>>)
    requires Enumerates(order, db)
    ensures var repo := VehicleMap.SearchByBrand(db, order, brand, startYear, endYear);
      && (r.Ok? <==> repo.Ok?)
      && (r.Ok? ==> r.value == repo.value)
    ensures r.Err? ==> r.kind == VehiclesNotFound
    ensures r.Err? <==> !AnyMatch(db, BrandBetween(brand, startYear, endYear))
  {
    NotFoundOnError(VehicleMap.SearchByBrand(db, order, brand, startYear, endYear))
  }

  function GetAverageSpeedByBrand(db: Db, order: seq<int>, brand: string): (r: Result<real>)
    requires Enumerates(order, db)
    ensures var repo := VehicleMap.GetAverageSpeedByBrand(db, order, brand);
      && (r.Ok? <==> repo.Ok?)
      && (r.Ok? ==> r.value == repo.value)
    ensures r.Err? ==> r.kind == VehiclesNotFound
    ensures r.Err? <==> forall k :: k in db ==> db[k].attrs.brand != brand
  {
    NotFoundOnError(VehicleMap.GetAverageSpeedByBrand(db, order, brand))
  }

  /** The repository's queries only ever fail with VehiclesNotFound, so over
      this repository the service's error rewriting changes nothing. */
  lemma NormalisationChangesNothingHere(db: Db, order: seq<int>, brand: string,
                                        color: string, year: int, startYear: int, endYear: int)
    requires Enumerates(order, db)
    ensures SearchByColorAndYear(db, order, color, year)
         == VehicleMap.SearchByColorAndYear(db, order, color, year)
    ensures SearchByBrand(db, order, brand, startYear, endYear)
         == VehicleMap.SearchByBrand(db, order, brand, startYear, endYear)
    ensures GetAverageSpeedByBrand(db, order, brand)
         == VehicleMap.GetAverageSpeedByBrand(db, order, brand)
  {
  }
}
