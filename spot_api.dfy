/** The spot detail views, backend/cntrlrs/parkingspot_apis.py: `ParkingSpotAPI.get` (a spot, its
    lot and, when Occupied, the vehicle parked there) and `AdminSpotDetailsAPI.get` (the open
    reservation of a spot, if any). Both find the open reservation by querying the reservation
    table, so what they report agrees with the spot row only in a consistent store. */
module SpotApi {
  import opened Wrappers
  import opened Model
  import opened Tables
  import opened Api
  import Ordering

  const SpotIdRequiredMessage := "Spot ID required"
  const SpotNotFoundMessage := "Spot not found"

  /** The open reservations (`leaving_timestamp IS NULL`) of spot `sid`. */
  function ActiveOn(reservations: map<Id, Reservation>, sid: Id): set<Id> {
    set rid | rid in reservations && reservations[rid].spotId == sid && Active(reservations[rid])
  }

  /** `.filter_by(spot_id=sid, leaving_timestamp=None).first()`: the open reservation of the spot
      with the lowest id, if there is one. */
  ghost function FirstActive(reservations: map<Id, Reservation>, sid: Id): (r: Option<Id>)
    ensures r.None? <==> ActiveOn(reservations, sid) == {}
    ensures r.Some? ==> r.value in ActiveOn(reservations, sid) && forall rid | rid in ActiveOn(reservations, sid) :: r.value <= rid
  {
    var open := ActiveOn(reservations, sid);
    if open == {} then None else Some(Ordering.Min(open))
  }

  /** In a consistent store an Occupied spot has exactly one open reservation, and an Available
      one has none. */
  lemma ActiveOnConsistent(db: Db, sid: Id)
    requires Consistent(db.spots, db.reservations) && sid in db.spots
    ensures IsAvailable(db.spots[sid]) <==> ActiveOn(db.reservations, sid) == {}
    ensures forall r1, r2 | r1 in ActiveOn(db.reservations, sid) && r2 in ActiveOn(db.reservations, sid) :: r1 == r2
  {
    if !IsAvailable(db.spots[sid]) {
      var rid :| rid in db.reservations && Active(db.reservations[rid]) && db.reservations[rid].spotId == sid;
      assert rid in ActiveOn(db.reservations, sid);
    } else {
      assert ActiveOn(db.reservations, sid) == {};
    }
  }

  // ---------------------------------------------------------------------------------------
  // ParkingSpotAPI.get
  // ---------------------------------------------------------------------------------------

  /** The vehicle part of a spot's details: not reported at all (an Occupied spot without an open
      reservation), all null (a spot that is not Occupied), or the open reservation's vehicle, start
      and user (whose name and email are null when the user row is missing). */
  datatype Occupant =
    | NotReported
    | Vacant
    | Parked(vehicleNumber: string, reservedAt: Timestamp, userName: Option<string>, userEmail: Option<string>)

  datatype SpotDetail = SpotDetail(spotId: Id, spotNumber: string, status: string, lotName: Option<string>, occupant: Occupant)

  /** The occupant reported for reservation `rid`. */
  function ParkedBy(db: Db, rid: Id): (o: Occupant)
    requires rid in db.reservations
    ensures o.Parked? && o.vehicleNumber == db.reservations[rid].vehicleNumber
    ensures o.reservedAt == db.reservations[rid].parkingTimestamp
    ensures o.userName.Some? <==> db.reservations[rid].userId in db.users
    ensures o.userName.Some? ==> o.userName.value == db.users[db.reservations[rid].userId].username
    ensures o.userEmail.Some? <==> db.reservations[rid].userId in db.users
    ensures o.userEmail.Some? ==> o.userEmail.value == db.users[db.reservations[rid].userId].email
  {
    var r := db.reservations[rid];
    var user := if r.userId in db.users then Some(db.users[r.userId]) else None;
    Parked(r.vehicleNumber, r.parkingTimestamp,
      if user.Some? then Some(user.value.username) else None,
      if user.Some? then Some(user.value.email) else None)
  }

  /** `ParkingSpotAPI.get`: a missing (or zero) id is a 400, an unknown one a 404; otherwise the
      spot's label, status code and lot name (null without a lot), and the occupant: Vacant unless
      the status is Occupied, then the first open reservation's vehicle, or nothing when there is
      none. */
  ghost function SpotDetails(db: Db, spotId: Option<nat>): (r: Result<SpotDetail, ApiError>)
    ensures r == Err(ApiError(400, SpotIdRequiredMessage)) <==> Missing(spotId, 0)
    ensures r == Err(ApiError(404, SpotNotFoundMessage)) <==> !Missing(spotId, 0) && spotId.value !in db.spots
    ensures r.Ok? ==>
      var sid := spotId.value;
      && sid in db.spots
      && var spot := db.spots[sid];
      && r.value.spotId == sid && r.value.spotNumber == spot.spotNumber && r.value.status == StatusCode(spot.status)
      && (r.value.lotName.Some? <==> spot.lotId in db.lots)
      && (r.value.lotName.Some? ==> r.value.lotName.value == db.lots[spot.lotId].name)
      && (r.value.occupant.Vacant? <==> IsAvailable(spot))
      && (r.value.occupant.NotReported? <==> !IsAvailable(spot) && ActiveOn(db.reservations, sid) == {})
      && (r.value.occupant.Parked? ==> exists rid | rid in ActiveOn(db.reservations, sid) :: r.value.occupant == ParkedBy(db, rid))
  {
    if Missing(spotId, 0) then Err(ApiError(400, SpotIdRequiredMessage))
    else if spotId.value !in db.spots then Err(ApiError(404, SpotNotFoundMessage))
    else
      var sid := spotId.value;
      var spot := db.spots[sid];
      var lotName := if spot.lotId in db.lots then Some(db.lots[spot.lotId].name) else None;
      var occupant :=
        if IsAvailable(spot) then Vacant
        else
          var first := FirstActive(db.reservations, sid);
          if first.None? then NotReported else ParkedBy(db, first.value);
      Ok(SpotDetail(sid, spot.spotNumber, StatusCode(spot.status), lotName, occupant))
  }

  /** In a store that keeps the invariant, the details of an Occupied spot always report its
      vehicle, and what they report is what the spot row records: its vehicle, its start and its
      holder's name. */
  lemma SpotDetailsAgreeWithSpot(db: Db, sid: nat)
    requires Invariant(db) && sid in db.spots && sid != 0
    ensures var r := SpotDetails(db, Some(sid));
      var spot := db.spots[sid];
      && r.Ok?
      && (r.value.occupant.Vacant? <==> IsAvailable(spot))
      && (r.value.occupant.Parked? <==> !IsAvailable(spot))
      && (r.value.occupant.Parked? ==>
            && Some(r.value.occupant.vehicleNumber) == spot.vehicleNumber
            && Some(r.value.occupant.reservedAt) == spot.reservedAt
            && r.value.occupant.userName.Some?)
  {
    ActiveOnConsistent(db, sid);
    var r := SpotDetails(db, Some(sid));
    if r.value.occupant.Parked? {
      var rid :| rid in ActiveOn(db.reservations, sid) && r.value.occupant == ParkedBy(db, rid);
      assert Mirrors(db.spots[sid], db.reservations[rid]);
    }
  }

  // ---------------------------------------------------------------------------------------
  // AdminSpotDetailsAPI.get
  // ---------------------------------------------------------------------------------------

  /** The admin details of a spot; `costTillNow` is `None` where the answer has no such key. */
  datatype AdminSpotDetail = AdminSpotDetail(
    userName: Option<string>,
    userEmail: Option<string>,
    vehicleNumber: Option<string>,
    startTime: Option<Timestamp>,
    costTillNow: Option<int>)

  /** `AdminSpotDetailsAPI.get`: 404 for an unknown spot. The first open reservation of the spot,
      whatever the spot's status, gives the user, vehicle and start; its user row must exist, for
      the handler reads the user's name unguarded (a 500 otherwise). Without an open reservation
      everything is null and the cost so far is 0. */
  ghost function AdminSpotDetails(db: Db, spotId: nat): (r: Result<AdminSpotDetail, ApiError>)
    ensures r == Err(ApiError(404, SpotNotFoundMessage)) <==> spotId !in db.spots
    ensures r == Err(InternalError) <==>
      && spotId in db.spots && FirstActive(db.reservations, spotId).Some?
      && db.reservations[FirstActive(db.reservations, spotId).value].userId !in db.users
    ensures r.Ok? ==>
      && (r.value.vehicleNumber.Some? <==> ActiveOn(db.reservations, spotId) != {})
      && (r.value.vehicleNumber.None? ==> r.value == AdminSpotDetail(None, None, None, None, Some(0)))
      && (r.value.vehicleNumber.Some? ==>
            var rid := FirstActive(db.reservations, spotId).value;
            var res := db.reservations[rid];
            && res.userId in db.users
            && r.value == AdminSpotDetail(Some(db.users[res.userId].username), Some(db.users[res.userId].email),
                 Some(res.vehicleNumber), Some(res.parkingTimestamp), None))
  {
    if spotId !in db.spots then Err(ApiError(404, SpotNotFoundMessage))
    else
      var first := FirstActive(db.reservations, spotId);
      if first.None? then Ok(AdminSpotDetail(None, None, None, None, Some(0)))
      else
        var res := db.reservations[first.value];
        if res.userId !in db.users then Err(InternalError)
        else
          var user := db.users[res.userId];
          Ok(AdminSpotDetail(Some(user.username), Some(user.email), Some(res.vehicleNumber), Some(res.parkingTimestamp), None))
  }

  /** In a store that keeps the invariant the admin details of a stored spot never fail, report a
      vehicle exactly when the spot is Occupied, and that vehicle is the spot's own. */
  lemma AdminSpotDetailsAgreeWithSpot(db: Db, sid: nat)
    requires Invariant(db) && sid in db.spots
    ensures var r := AdminSpotDetails(db, sid);
      var spot := db.spots[sid];
      && r.Ok?
      && (r.value.vehicleNumber.Some? <==> !IsAvailable(spot))
      && (r.value.vehicleNumber.Some? ==> r.value.vehicleNumber == spot.vehicleNumber && r.value.startTime == spot.reservedAt)
  {
    ActiveOnConsistent(db, sid);
    var first := FirstActive(db.reservations, sid);
    if first.Some? {
      assert Mirrors(db.spots[sid], db.reservations[first.value]);
    }
  }
}
