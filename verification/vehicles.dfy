/** The domain record of the vehicle service and the store that holds it. */
module Vehicles {

  datatype Dimensions = Dimensions(height: real, length: real, width: real)

  /** Everything about a vehicle except its identity. Go's `float64` fields
      are modelled as `real`. */
  datatype VehicleAttributes = VehicleAttributes(
    brand: string,
    model: string,
    registration: string,
    color: string,
    fabricationYear: int,
    capacity: int,
    maxSpeed: real,
    fuelType: string,
    transmission: string,
    weight: real,
    dimensions: Dimensions)

  datatype Vehicle = Vehicle(id: int, attrs: VehicleAttributes)

  /** The store: a map from vehicle id to vehicle. */
  type Db = map<int, Vehicle>

  /** Every key maps to the vehicle carrying that id. The store does not
      demand this, but every insertion keeps it because it keys by `v.id`. */
  ghost predicate KeyedById(db: Db) {
    forall k :: k in db ==> db[k].id == k
  }
}
