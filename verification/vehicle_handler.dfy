/** The HTTP handlers' decisions, with the transport abstracted away: reading
    the body, JSON decoding and URL-parameter parsing are given as their
    outcomes, and a reply is a status code with an optional payload. */
module VehicleHandler {
  import opened Errors
  import opened Vehicles
  import opened Queries
  import VehicleService

  const StatusOK: int := 200
  const StatusBadRequest: int := 400
  const StatusNotFound: int := 404
  const StatusConflict: int := 409
  const StatusInternalServerError: int := 500

  /** The flat JSON form of a vehicle; the dimensions are top-level fields. */
  datatype VehicleJson = VehicleJson(
    id: int,
    brand: string,
    model: string,
    registration: string,
    color: string,
    year: int,
    passengers: int,
    maxSpeed: real,
    fuelType: string,
    transmission: string,
    weight: real,
    height: real,
    length: real,
    width: real)

  /** A decoded JSON value, as `json.Unmarshal` produces it for `any`. */
  datatype Json =
    | JNull
    | JBool(b: bool)
    | JNumber(n: real)
    | JString(s: string)
    | JArray(items: seq<Json>)
    | JObject(fields: map<string, Json>)

  /** The outcome of `strconv.Atoi`: on failure Go still hands back a value
      (0 for a syntax error, the clamped bound for an out-of-range one). */
  datatype Parsed = Parsed(value: int, ok: bool)

  /** A response: status code and, on success, the JSON payload. */
  datatype Reply<T> = Reply(status: int, data: Option<T>)

  /** The field correspondence between the two forms: JSON "year" is the
      fabrication year, "passengers" the capacity, and the three dimensions
      are top-level fields. */
  predicate Carries(j: VehicleJson, v: Vehicle) {
    var a := v.attrs;
    && j.id == v.id && j.brand == a.brand && j.model == a.model
    && j.registration == a.registration && j.color == a.color
    && j.year == a.fabricationYear && j.passengers == a.capacity
    && j.maxSpeed == a.maxSpeed && j.fuelType == a.fuelType
    && j.transmission == a.transmission && j.weight == a.weight
    && j.height == a.dimensions.height && j.length == a.dimensions.length
    && j.width == a.dimensions.width
  }

  /** Domain to wire: every field copied, the dimensions flattened. */
  function ToWire(v: Vehicle): (j: VehicleJson)
    ensures Carries(j, v)
  {
    var a := v.attrs;
    VehicleJson(v.id, a.brand, a.model, a.registration, a.color, a.fabricationYear,
                a.capacity, a.maxSpeed, a.fuelType, a.transmission, a.weight,
                a.dimensions.height, a.dimensions.length, a.dimensions.width)
  }

  /** Wire to domain; converting back gives the same JSON record. */
  function ToDomain(j: VehicleJson): (v: Vehicle)
    ensures Carries(j, v)
    ensures ToWire(v) == j
  {
    Vehicle(j.id, VehicleAttributes(j.brand, j.model, j.registration, j.color, j.year,
                                    j.passengers, j.maxSpeed, j.fuelType, j.transmission, j.weight,
                                    Dimensions(j.height, j.length, j.width)))
  }

  /** The other round trip: no field of a vehicle is lost on the wire. */
  lemma DomainRoundTrip(v: Vehicle)
    ensures ToDomain(ToWire(v)) == v
  {
  }

  /** The correspondence is one-to-one: a JSON record carries one vehicle,
      and a vehicle is carried by one JSON record. */
  lemma CarriesIsOneToOne(j1: VehicleJson, v1: Vehicle, j2: VehicleJson, v2: Vehicle)
    requires Carries(j1, v1) && Carries(j2, v2)
    ensures j1 == j2 <==> v1 == v2
  {
  }

  /** Every vehicle of a result list converted, in the same order. */
  function ToWireAll(vs: seq<Vehicle>): (ws: seq<VehicleJson>)
    ensures |ws| == |vs|
    ensures forall i :: 0 <= i < |vs| ==> ToDomain(ws[i]) == vs[i]
  {
    seq(|vs|, i requires 0 <= i < |vs| => ToWire(vs[i]))
  }

  /** The keys a create request must carry, in the order they are checked.
      "length" is not among them. */
  const RequiredKeys: seq<string> :=
    ["id", "brand", "model", "registration", "color", "year", "passengers",
     "max_speed", "fuel_type", "transmission", "weight", "height", "width"]

  /** The first of `keys` that `body` lacks, if any. */
  function FirstMissing(keys: seq<string>, body: map<string, Json>): (missing: Option<string>)
    ensures missing.None? <==> forall i :: 0 <= i < |keys| ==> keys[i] in body
    ensures missing.Some? ==>
      exists i :: 0 <= i < |keys| && keys[i] == missing.value && keys[i] !in body
        && forall j :: 0 <= j < i ==> keys[j] in body
  {
    if |keys| == 0 then None
    else if keys[0] !in body then Some(keys[0])
    else
      var rest := FirstMissing(keys[1..], body);
      assert rest.Some? ==>
        exists i :: 1 <= i < |keys| && keys[i] == rest.value && keys[i] !in body
          && forall j :: 1 <= j < i ==> keys[j] in body
      by {
        if rest.Some? {
          var i :| 0 <= i < |keys[1..]| && keys[1..][i] == rest.value && keys[1..][i] !in body
            && forall j :: 0 <= j < i ==> keys[1..][j] in body;
          assert forall j :: 1 <= j < i + 1 ==> keys[j] == keys[1..][j - 1];
        }
      }
      rest
  }

  /** `None` means every required key is present; otherwise the error names
      the first missing key in checklist order. */
  function ValidateKeyExistance(body: map<string, Json>): (missing: Option<string>)
    ensures missing.None? <==> forall i :: 0 <= i < |RequiredKeys| ==> RequiredKeys[i] in body
    ensures missing.Some? ==>
      exists i :: 0 <= i < |RequiredKeys| && RequiredKeys[i] == missing.value
        && missing.value !in body
        && forall j :: 0 <= j < i ==> RequiredKeys[j] in body
  {
    FirstMissing(RequiredKeys, body)
  }

  /** Removing a key that is not in the checklist never changes the verdict. */
  lemma {:induction false} FirstMissingIgnores(keys: seq<string>, body: map<string, Json>, key: string)
    requires key !in keys
    ensures FirstMissing(keys, body - {key}) == FirstMissing(keys, body)
  {
    if |keys| > 0 {
      assert keys[0] != key;
      assert keys[0] in body - {key} <==> keys[0] in body;
      FirstMissingIgnores(keys[1..], body, key);
    }
  }

  /** A body without "length" is judged exactly like the same body with it. */
  lemma LengthIsNotRequired(body: map<string, Json>)
    ensures ValidateKeyExistance(body - {"length"}) == ValidateKeyExistance(body)
  {
    FirstMissingIgnores(RequiredKeys, body, "length");
  }

  /** An empty object is reported as missing "id", the first key of the list. */
  lemma EmptyBodyMissesId()
    ensures ValidateKeyExistance(map[]) == Some("id")
  {
  }

  /** The request of POST /vehicles after reading and decoding: `body` is the
      object decoded as a generic map (None when reading the body or decoding
      it failed) and `decoded` is the same bytes decoded into the wire record
      (None when that decoding failed). */
  datatype AddRequest = AddRequest(body: Option<map<string, Json>>, decoded: Option<VehicleJson>)

  /** The reply of a create request together with the store it leaves. */
  datatype AddExchange = AddExchange(reply: Reply<VehicleJson>, db: Db)

  /** A create request rejected before the service is consulted. */
  predicate Malformed(req: AddRequest) {
    || req.body.None?
    || ValidateKeyExistance(req.body.value).Some?
    || req.decoded.None?
  }

  /** POST /vehicles: 400 for an unreadable body, a missing key or a body that
      does not decode, without touching the store; 409 for any service error;
      otherwise 200 with the created vehicle. */
  function Add(db: Db, req: AddRequest): (x: AddExchange)
    ensures x.reply.status in {StatusOK, StatusBadRequest, StatusConflict}
    ensures x.reply.status == StatusBadRequest <==> Malformed(req)
    ensures Malformed(req) ==> x == AddExchange(Reply(StatusBadRequest, None), db)
    ensures x.reply.status == StatusConflict <==> !Malformed(req) && req.decoded.value.id in db
    ensures x.reply.status == StatusConflict ==> x.db == db && x.reply.data.None?
    ensures x.reply.status == StatusOK ==>
      && x.reply.data == req.decoded
      && x.db == db[req.decoded.value.id := ToDomain(req.decoded.value)]
  {
    if req.body.None? then AddExchange(Reply(StatusBadRequest, None), db)
    else if ValidateKeyExistance(req.body.value).Some? then AddExchange(Reply(StatusBadRequest, None), db)
    else if req.decoded.None? then AddExchange(Reply(StatusBadRequest, None), db)
    else
      var vehicle := ToDomain(req.decoded.value);
      var e := VehicleService.Add(db, vehicle);
      if e.err.Fail? then AddExchange(Reply(StatusConflict, None), e.db)
      else AddExchange(Reply(StatusOK, Some(ToWire(vehicle))), e.db)
  }

  /** GET /vehicles, given what the service's FindAll returned: 500 on an
      error, otherwise 200 with every vehicle converted under its own key. */
  function GetAll(found: Result<Db>): (r: Reply<map<int, VehicleJson>>)
    ensures found.Err? ==> r == Reply(StatusInternalServerError, None)
    ensures found.Ok? ==>
      && r.status == StatusOK && r.data.Some?
      && r.data.value.Keys == found.value.Keys
      && forall k :: k in found.value ==> ToDomain(r.data.value[k]) == found.value[k]
  {
    match found
    case Err(_) => Reply(StatusInternalServerError, None)
    case Ok(vehicles) => Reply(StatusOK, Some(map k | k in vehicles :: ToWire(vehicles[k])))
  }

  /** Over the real service the listing never fails and shows the whole store. */
  lemma GetAllShowsStore(db: Db)
    ensures GetAll(VehicleService.FindAll(db)).status == StatusOK
    ensures var data := GetAll(VehicleService.FindAll(db)).data.value;
      data.Keys == db.Keys && forall k :: k in db ==> ToDomain(data[k]) == db[k]
  {
  }

  /** GET /vehicles/color/{color}/year/{year}: 400 when the year does not
      parse (the service is not consulted), 409 when nothing matches,
      otherwise 200 with the matching vehicles. */
  function SearchByColorAndYear(db: Db, order: seq<int>, color: string, year: Parsed)
    : (r: Reply<seq<VehicleJson>>)
    requires Enumerates(order, db)
    ensures r.status in {StatusOK, StatusBadRequest, StatusConflict}
    ensures !year.ok ==> r == Reply(StatusBadRequest, None)
    ensures r.status == StatusBadRequest <==> !year.ok
    ensures year.ok ==> (r.status == StatusConflict <==> !AnyMatch(db, ColorAndYear(color, year.value)))
    ensures r.status == StatusConflict ==> r.data.None?
    ensures r.status == StatusOK ==> r.data.Some?
    ensures r.status == StatusOK ==> forall w :: w in r.data.value ==>
      ToDomain(w) in db.Values && ToDomain(w).attrs.color == color
      && ToDomain(w).attrs.fabricationYear == year.value
    ensures r.status == StatusOK ==> forall k ::
      (k in db && db[k].attrs.color == color && db[k].attrs.fabricationYear == year.value)
      ==> ToWire(db[k]) in r.data.value
    ensures r.status == StatusOK ==> exists vs ::
      multiset(vs) == Selected(db, ColorAndYear(color, year.value)) && r.data.value == ToWireAll(vs)
  {
    if !year.ok then Reply(StatusBadRequest, None)
    else
      match VehicleService.SearchByColorAndYear(db, order, color, year.value)
      case Err(_) => Reply(StatusConflict, None)
      case Ok(vs) =>
        assert multiset(vs) == Selected(db, ColorAndYear(color, year.value));
        ListReply(vs)
  }

  /** A 200 reply carrying `vs` converted, in order. */
  function ListReply(vs: seq<Vehicle>): (r: Reply<seq<VehicleJson>>)
    ensures r.status == StatusOK && r.data.Some?
    ensures |r.data.value| == |vs|
    ensures forall i :: 0 <= i < |vs| ==> ToDomain(r.data.value[i]) == vs[i]
    ensures forall w :: w in r.data.value ==> ToDomain(w) in vs
    ensures forall v :: v in vs ==> ToWire(v) in r.data.value
  {
    var ws := ToWireAll(vs);
    assert forall v :: v in vs ==> ToWire(v) in ws by {
      forall v | v in vs ensures ToWire(v) in ws {
        var i :| 0 <= i < |vs| && vs[i] == v;
        assert ToWire(ToDomain(ws[i])) == ws[i];
      }
    }
    Reply(StatusOK, Some(ws))
  }

  /** GET /vehicles/brand/{brand}/between/{start_year}/{end_year}, as written:
      the start year's parse error is overwritten by the end year's before it
      is checked, so only a bad end year gives 400; a bad start year is
      searched with whatever value Atoi returned. 404 when nothing matches. */
  function SearchByBrand(db: Db, order: seq<int>, brand: string, startYear: Parsed, endYear: Parsed)
    : (r: Reply<seq<VehicleJson>>)
    requires Enumerates(order, db)
    ensures r.status in {StatusOK, StatusBadRequest, StatusNotFound}
    ensures r.status == StatusBadRequest <==> !endYear.ok
    ensures !endYear.ok ==> r == Reply(StatusBadRequest, None)
    ensures endYear.ok ==>
      (r.status == StatusNotFound <==> !AnyMatch(db, BrandBetween(brand, startYear.value, endYear.value)))
    ensures r.status == StatusNotFound ==> r.data.None?
    ensures r.status == StatusOK ==> r.data.Some?
    ensures r.status == StatusOK ==> forall w :: w in r.data.value ==>
      ToDomain(w) in db.Values && Matches(BrandBetween(brand, startYear.value, endYear.value), ToDomain(w))
    ensures r.status == StatusOK ==> forall k ::
      (k in db && Matches(BrandBetween(brand, startYear.value, endYear.value), db[k]))
      ==> ToWire(db[k]) in r.data.value
    ensures r.status == StatusOK ==> exists vs ::
      multiset(vs) == Selected(db, BrandBetween(brand, startYear.value, endYear.value))
      && r.data.value == ToWireAll(vs)
  {
    if !endYear.ok then Reply(StatusBadRequest, None)
    else SearchBrandYears(db, order, brand, startYear.value, endYear.value)
  }

  /** The search and reply once both years are known. */
  function SearchBrandYears(db: Db, order: seq<int>, brand: string, startYear: int, endYear: int)
    : (r: Reply<seq<VehicleJson>>)
    requires Enumerates(order, db)
    ensures r.status in {StatusOK, StatusNotFound}
    ensures r.status == StatusNotFound <==> !AnyMatch(db, BrandBetween(brand, startYear, endYear))
    ensures r.status == StatusNotFound ==> r.data.None?
    ensures r.status == StatusOK ==> r.data.Some?
    ensures r.status == StatusOK ==> forall w :: w in r.data.value ==>
      ToDomain(w) in db.Values && Matches(BrandBetween(brand, startYear, endYear), ToDomain(w))
    ensures r.status == StatusOK ==> forall k ::
      (k in db && Matches(BrandBetween(brand, startYear, endYear), db[k]))
      ==> ToWire(db[k]) in r.data.value
    ensures r.status == StatusOK ==> exists vs ::
      multiset(vs) == Selected(db, BrandBetween(brand, startYear, endYear)) && r.data.value == ToWireAll(vs)
  {
    match VehicleService.SearchByBrand(db, order, brand, startYear, endYear)
    case Err(_) => Reply(StatusNotFound, None)
    case Ok(vs) =>
      assert multiset(vs) == Selected(db, BrandBetween(brand, startYear, endYear));
      ListReply(vs)
  }

  /** The same endpoint with both parse errors checked: any unparsable year
      gives 400 and the service is not consulted. */
  function SearchByBrandChecked(db: Db, order: seq<int>, brand: string, startYear: Parsed, endYear: Parsed)
    : (r: Reply<seq<VehicleJson>>)
    requires Enumerates(order, db)
    ensures r.status in {StatusOK, StatusBadRequest, StatusNotFound}
    ensures r.status == StatusBadRequest <==> !startYear.ok || !endYear.ok
    ensures !startYear.ok || !endYear.ok ==> r == Reply(StatusBadRequest, None)
    ensures startYear.ok && endYear.ok ==>
      r == SearchByBrand(db, order, brand, startYear, endYear)
  {
    if !startYear.ok || !endYear.ok then Reply(StatusBadRequest, None)
    else SearchBrandYears(db, order, brand, startYear.value, endYear.value)
  }

  /** A store holding one Toyota built in 2010. */
  const OneToyota: Db := map[1 := Vehicle(1, VehicleAttributes(
    "Toyota", "Corolla", "AB-123", "red", 2010, 5, 180.0, "gas", "manual", 1200.0,
    Dimensions(1.5, 4.5, 1.8)))]

  /** GET /vehicles/brand/Toyota/between/abc/2020 over that store: Atoi
      rejects "abc" and returns 0, the error is lost, and the request
      succeeds with the Toyota instead of being rejected. */
  lemma StartYearErrorIgnored()
    ensures SearchByBrand(OneToyota, [1], "Toyota", Parsed(0, false), Parsed(2020, true)).status == StatusOK
    ensures SearchByBrandChecked(OneToyota, [1], "Toyota", Parsed(0, false), Parsed(2020, true)).status
         == StatusBadRequest
  {
  }

  /** GET /vehicles/average_speed/brand/{brand}: 404 when the brand has no
      vehicle, otherwise 200 with the service's average. */
  function GetAverageSpeedByBrand(db: Db, order: seq<int>, brand: string): (r: Reply<real>)
    requires Enumerates(order, db)
    ensures r.status in {StatusOK, StatusNotFound}
    ensures r.status == StatusNotFound <==> forall k :: k in db ==> db[k].attrs.brand != brand
    ensures r.status == StatusNotFound ==> r.data.None?
    ensures r.status == StatusOK ==>
      r.data == Some(VehicleService.GetAverageSpeedByBrand(db, order, brand).value)
  {
    match VehicleService.GetAverageSpeedByBrand(db, order, brand)
    case Err(_) => Reply(StatusNotFound, None)
    case Ok(speed) => Reply(StatusOK, Some(speed))
  }
}
