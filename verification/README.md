# Vehicle store: a Dafny model

This project models the core of a small Go REST service for vehicles. It has three layers:

- **Repository.** An in-memory store, `map[int]Vehicle`, with thirteen operations:
  - insert and batch insert;
  - two single-field updates and a delete by id;
  - six linear-scan filters;
  - two per-brand averages.

  Each operation succeeds or returns one of three sentinel errors: AlreadyExists, VehiclesNotFound or VehicleNotFound.
- **Service.** It passes each call to the repository and rewrites the error it gets back.
- **Handlers.** They check a fixed list of required JSON keys and convert between the flat wire record and the nested domain record. They also pick the HTTP status code for each endpoint.

The model is functional.

- The store is an immutable `map<int, Vehicle>`.
- A write returns an `Effect`: the new store plus the Go error value (`Nil` or `Fail(kind)`). It needs both because a failed batch insert keeps what it inserted before the failure.
- A query returns a `Result` and no store, so no query can change the store.

A Go `range` over a map visits keys in an order the runtime picks. Every scan therefore takes an extra parameter `order`: a list of the store's keys, each once (`Queries.Enumerates`). `Queries.EnumerationExists` proves that every store has such a list, so this precondition of the scans excludes no store. The order-free meaning of a scan is the multiset `Queries.Selected`. `Queries.CollectIsSelected` proves that every order yields that multiset.

Files:

- `errors.dfy`: the error kinds and result wrappers.
- `vehicles.dfy`: the domain record and the `KeyedById` invariant. That invariant says every key maps to the vehicle with that id.
- `queries.dfy`: the shared scan and its order-free reference.
- `vehicle_map.dfy`: the repository.
- `store_properties.dfy`: lemmas that relate several repository operations.
- `vehicle_service.dfy`: the service layer.
- `vehicle_handler.dfy`: the handler decisions.

Facts about the code that shape the model:

- The code has no speed-range check and no `InvalidSpeed` or `InvalidFuelType` errors.
- The service layer exposes only `FindAll`, `Add`, `SearchByColorAndYear`, `SearchByBrand` and `GetAverageSpeedByBrand`.
- The repository's "not found" is two distinct kinds. VehiclesNotFound comes from queries and VehicleNotFound from id lookups.

The `Vehicle` struct's own file (`internal/vehicle.go`) is not part of this model. Its field layout is taken from how `internal/handler/vehicle.go:124-143` builds it.

## Model

| member | source | states |
|---|---|---|
| Queries.Matches | internal/repository/vehicle_map.go:53-244 | the condition each scan keeps a record by, every range inclusive: colour and year equal (:53); brand equal and year within [start, end] (:69); brand equal, for both averages (:87, :203); fuel type equal (:136); transmission equal (:169); length and width each within their range (:225); weight within its range (:244) |
| Queries.Collect | internal/repository/vehicle_map.go:52-56 | the `range` loop of a scan appends only values that satisfy the predicate, only values of visited keys, and the value of every visited key that satisfies it |
| Queries.CollectIsSelected | internal/repository/vehicle_map.go:52-56 | whatever order the map is ranged in, the values a scan appends are, as a multiset, exactly the stored values that satisfy its predicate |
| Queries.CollectEmptyIff | internal/repository/vehicle_map.go:58-60 | a scan's result is empty exactly when no stored value satisfies the predicate |
| Queries.SelectedSound | internal/repository/vehicle_map.go:52-55 | everything a scan selects is a stored value that satisfies the predicate |
| Queries.SelectedComplete | internal/repository/vehicle_map.go:68-71 | every stored value that satisfies the predicate is selected |
| StoreProperties.EmptyStoreFindsNothing | internal/repository/vehicle_map.go:6-13 | a store made from a nil map is empty: FindAll gives an empty map, every filter and both averages give VehiclesNotFound |
| StoreProperties.AddedRecordsAreFound | internal/repository/vehicle_map.go:22-31 | after inserting records with distinct ids into an empty store, FindAll returns exactly those records under their own ids |
| VehicleMap.NewVehicleMap | internal/repository/vehicle_map.go:6-13 | a `nil` map gives an empty store; any other map becomes the store as given |
| VehicleMap.FindAll | internal/repository/vehicle_map.go:22-31 | never fails and returns a copy equal to the whole store |
| VehicleMap.Add | internal/repository/vehicle_map.go:34-47 | AlreadyExists exactly when the id is taken, store unchanged then; otherwise the store gains exactly `v` under `v.id`; every existing record is untouched; the id-keying invariant is kept |
| VehicleMap.AddMultiple | internal/repository/vehicle_map.go:101-115 | fails only with AlreadyExists, never overwrites a stored record, keeps the id-keying invariant |
| VehicleMap.AddMultipleSpec | internal/repository/vehicle_map.go:102-114 | succeeds exactly when no id collides with the store or with an earlier vehicle of the batch, and then stores the whole batch; otherwise stops at the first colliding vehicle with exactly the vehicles before it inserted |
| StoreProperties.AddMultiplePartial | internal/repository/vehicle_map.go:105-111 | a batch whose second vehicle collides with the store fails with the first vehicle left inserted |
| StoreProperties.AddMultipleDuplicateInBatch | internal/repository/vehicle_map.go:104-109 | a repeated id inside one batch fails at the repeat, the first occurrence left inserted |
| VehicleMap.UpdateMaxSpeedById | internal/repository/vehicle_map.go:118-129 | VehicleNotFound exactly when the id is absent, store unchanged then; otherwise only the max speed of that one record changes, to the given value, and the key set is unchanged |
| VehicleMap.UpdateFuelTypeById | internal/repository/vehicle_map.go:183-194 | VehicleNotFound exactly when the id is absent, store unchanged then; otherwise only the fuel type of that one record changes, to the given value, and the key set is unchanged |
| VehicleMap.DeleteById | internal/repository/vehicle_map.go:152-162 | VehicleNotFound exactly when the id is absent, store unchanged then; otherwise exactly that key is removed and every remaining record is unchanged |
| StoreProperties.AddThenDelete | internal/repository/vehicle_map.go:154-157 | deleting a vehicle just added under a fresh id restores the original store |
| StoreProperties.DeleteThenAdd | internal/repository/vehicle_map.go:37-44 | re-adding a just-deleted vehicle restores the store when keys match ids |
| StoreProperties.DeleteTwiceFails | internal/repository/vehicle_map.go:154-161 | a second delete of the same id fails with VehicleNotFound and changes nothing |
| StoreProperties.UpdateMaxSpeedLastWins | internal/repository/vehicle_map.go:120-124 | of two speed updates of one id, only the last is visible |
| StoreProperties.UpdateWithCurrentValueIsIdentity | internal/repository/vehicle_map.go:185-189 | writing back a record's current speed or fuel type succeeds and leaves the store as it was |
| VehicleMap.Search | internal/repository/vehicle_map.go:52-62 | VehiclesNotFound exactly when nothing matches; otherwise the result is, as a multiset, the matching stored values, and contains every matching record |
| VehicleMap.SearchByColorAndYear | internal/repository/vehicle_map.go:50-63 | VehiclesNotFound exactly when no record has that color and that year; otherwise exactly the matching stored values, as a multiset |
| VehicleMap.SearchByBrand | internal/repository/vehicle_map.go:66-79 | VehiclesNotFound exactly when no record of the brand has a year within the inclusive range; otherwise exactly those records, as a multiset |
| VehicleMap.GetVehiclesByFuelType | internal/repository/vehicle_map.go:132-149 | VehiclesNotFound exactly when no record has that fuel type; otherwise exactly those records, as a multiset |
| VehicleMap.GetVehiclesByTransmission | internal/repository/vehicle_map.go:165-180 | VehiclesNotFound exactly when no record has that transmission; otherwise exactly those records, as a multiset |
| VehicleMap.GetVehiclesByDimensions | internal/repository/vehicle_map.go:220-237 | VehiclesNotFound exactly when no record has length and width both within their inclusive ranges; otherwise exactly those records, as a multiset |
| VehicleMap.GetVehiclesByWeight | internal/repository/vehicle_map.go:240-255 | VehiclesNotFound exactly when no record's weight is within the inclusive range; otherwise exactly those records, as a multiset |
| StoreProperties.SearchOrderFree | internal/repository/vehicle_map.go:134-142 | two enumerations of the same store give results with the same outcome and the same multiset |
| StoreProperties.SearchByBrandBoundsIncluded | internal/repository/vehicle_map.go:69 | a record of the brand built exactly in the start or the end year is returned |
| StoreProperties.DimensionsBoundsIncluded | internal/repository/vehicle_map.go:225 | a record whose length and width equal the range bounds is returned |
| StoreProperties.WeightBoundsIncluded | internal/repository/vehicle_map.go:244 | a record whose weight equals either bound is returned |
| VehicleMap.TruncDiv | internal/repository/vehicle_map.go:216 | Go's integer quotient: the remainder has the sign of the dividend and is smaller than the divisor |
| StoreProperties.TruncDivRoundsTowardZero | internal/repository/vehicle_map.go:216 | -7 divided by 2 is -3 in Go, where Dafny's Euclidean division gives -4 |
| VehicleMap.GetAverageCapacityByBrand | internal/repository/vehicle_map.go:197-217 | VehiclesNotFound exactly when no record has the brand, so the division never sees a zero count; otherwise the brand's capacity total divided by its record count, truncated toward zero, computed over any listing of the brand's records |
| StoreProperties.AverageCapacityWithinRange | internal/repository/vehicle_map.go:201-216 | the truncated mean capacity lies between the smallest and the largest capacity of the brand's records |
| VehicleMap.GetAverageSpeedByBrand | internal/repository/vehicle_map.go:82-98 | VehiclesNotFound exactly when no record has the brand; otherwise the brand's speed total divided by its record count, as an exact real, computed over any listing of the brand's records |
| StoreProperties.AverageCapacityOrderFree | internal/repository/vehicle_map.go:201-216 | the average capacity is the same for every order in which the map is ranged over, including the truncating division |
| StoreProperties.AverageSpeedOrderFree | internal/repository/vehicle_map.go:86-97 | the exact real mean of the speeds is the same for every order in which the map is ranged over |
| VehicleService.NotFoundOnError | internal/service/vehicle_default.go:47-52 | any error becomes VehiclesNotFound, and a success passes through with its value |
| VehicleService.FindAll | internal/service/vehicle_default.go:20-23 | returns exactly what the repository returns: the whole store, never an error |
| VehicleService.Add | internal/service/vehicle_default.go:26-41 | same effect on the store as the repository's insert; nil exactly when the repository returned nil; the repository's error kind is kept, and it can only be AlreadyExists |
| VehicleService.SearchByColorAndYear | internal/service/vehicle_default.go:44-55 | the repository's result on success; otherwise VehiclesNotFound, which happens exactly when nothing matches |
| VehicleService.SearchByBrand | internal/service/vehicle_default.go:58-70 | the repository's result on success; otherwise VehiclesNotFound, which happens exactly when nothing matches |
| VehicleService.GetAverageSpeedByBrand | internal/service/vehicle_default.go:73-83 | the repository's value on success; otherwise VehiclesNotFound, which happens exactly when the brand has no record |
| VehicleService.NormalisationChangesNothingHere | internal/service/vehicle_default.go:45-50 | over this repository the error rewriting of the three queries changes nothing, since the repository only fails with VehiclesNotFound |
| VehicleHandler.ToWire | internal/handler/vehicle.go:153-168 | the JSON record carries every field of the vehicle: "year" is the fabrication year, "passengers" the capacity, and the dimensions become top-level fields |
| VehicleHandler.CarriesIsOneToOne | internal/handler/vehicle.go:124-143 | the field correspondence is one-to-one: two records carrying the same vehicle are equal, and so are two vehicles carried by the same record |
| VehicleHandler.ToDomain | internal/handler/vehicle.go:124-143 | wire to domain loses nothing: converting back gives the original JSON record, dimensions included |
| VehicleHandler.DomainRoundTrip | internal/handler/vehicle.go:153-168 | domain to wire loses nothing: converting back gives the original vehicle |
| VehicleHandler.ToWireAll | internal/handler/vehicle.go:211-232 | a result list is converted element by element, in order, with nothing lost |
| VehicleHandler.FirstMissing | internal/handler/vehicle.go:182-190 | none exactly when every listed key is present; otherwise a missing key with every key before it present |
| VehicleHandler.ValidateKeyExistance | internal/handler/vehicle.go:178-192 | nil exactly when all thirteen required keys are present; otherwise names the first missing one in list order |
| VehicleHandler.LengthIsNotRequired | internal/handler/vehicle.go:180 | removing "length" from a body never changes the validation verdict |
| VehicleHandler.EmptyBodyMissesId | internal/handler/vehicle.go:180-186 | an empty object is reported as missing "id" |
| VehicleHandler.Add | internal/handler/vehicle.go:92-176 | 400 exactly when the body is unreadable, lacks a required key or does not decode, with the store untouched; 409 exactly when the id is taken; otherwise 200, with the request's record echoed back and stored under its id |
| VehicleHandler.GetAll | internal/handler/vehicle.go:52-90 | 500 on a service error; otherwise 200 with the same key set as the service result and each value the converted vehicle |
| VehicleHandler.GetAllShowsStore | internal/handler/vehicle.go:59-63 | over the real service the listing is always 200 and shows the whole store |
| VehicleHandler.SearchByColorAndYear | internal/handler/vehicle.go:194-240 | 400 exactly when the year does not parse, without consulting the store; 409 exactly when nothing matches; otherwise 200 listing exactly the matching vehicles |
| VehicleHandler.ListReply | internal/handler/vehicle.go:261-285 | a 200 reply whose list is the result vehicles converted one by one: same length, same order |
| VehicleHandler.SearchByBrand | internal/handler/vehicle.go:242-289 | as written: 400 exactly when the end year does not parse; a bad start year is searched with Atoi's fallback value; 404 exactly when nothing matches; otherwise 200 listing exactly the matching vehicles |
| VehicleHandler.SearchBrandYears | internal/handler/vehicle.go:254-285 | 404 exactly when no record of the brand lies in the inclusive year range; otherwise 200 listing exactly those records |
| VehicleHandler.SearchByBrandChecked | internal/handler/vehicle.go:246-252 | corrected: 400 exactly when either year does not parse; otherwise the same reply as the written handler |
| VehicleHandler.StartYearErrorIgnored | internal/handler/vehicle.go:246-249 | with start year "abc" and end year 2020, the written handler answers 200 and the corrected one 400 |
| VehicleHandler.GetAverageSpeedByBrand | internal/handler/vehicle.go:291-309 | 404 exactly when the brand has no vehicle; otherwise 200 carrying the service's average |

## Left out

- HTTP and JSON plumbing is not modelled; the handlers receive its outcomes as inputs. This covers `io.ReadAll`, both `json.Unmarshal` calls, `chi.URLParam`, `strconv.Atoi` and `response.JSON`/`response.Text`.
- Response message strings are not modelled; only error kinds and status codes are. This includes the `"%w: id"` decoration in the service and the text of the missing-key error. `ValidateKeyExistance` returns the missing key itself.
- Floating-point arithmetic is not modelled: every `float64` is a `real` and comparisons are exact.
- VehicleMap.GetAverageSpeedByBrand: returns the exact mean of the speeds. The Go code sums `float64` values in map order and divides, so its rounding can differ and can depend on the order.
- StoreProperties.AverageSpeedOrderFree: holds only of the exact real mean. The Go `float64` sum at internal/repository/vehicle_map.go:88 rounds after each addition, so its result can depend on the range order.
- VehicleMap.GetAverageCapacityByBrand: the capacity sum is an unbounded integer. The API does not bound capacities: POST /vehicles accepts any JSON integer for "passengers". Go's platform-sized `int` sum would therefore wrap around for large enough capacities, and the model's sum does not.
- Ids, years and capacities are unbounded integers instead of 64-bit ones.
- Concurrency is not modelled. The Go map has no lock, and the model is sequential.
- The Go store aliases the map passed to `NewVehicleMap`. A pure model has no aliasing, so it is not modelled.
- The interface files `internal/vehicle_repository.go` and `internal/vehicle_service.go` hold only signatures and contribute nothing beyond the three error kinds. The service methods commented out there have no service-layer model.
- There are no handlers for batch insert, the updates, delete, fuel type, transmission, dimensions, weight or average capacity. They do not exist in the handler file, so none are invented here.

## Findings

| source | as written | input that shows it | evidently intended | confidence | as-written member | corrected member |
|---|---|---|---|---|---|---|
| internal/handler/vehicle.go:246-249 | `end, err :=` overwrites the start year's parse error before it is checked, so only the end year is validated | GET /vehicles/brand/Toyota/between/abc/2020 on a store holding a Toyota built in 2010: Atoi yields 0 for "abc" and the reply is 200 with that Toyota | 400 "invalid year" when either year does not parse | not executed; high | VehicleHandler.SearchByBrand (shown by VehicleHandler.StartYearErrorIgnored) | VehicleHandler.SearchByBrandChecked |
