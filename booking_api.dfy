/** The booking handlers, backend/cntrlrs/booking_apis.py: `ReserveSpotAPI.post` (first-fit
    allocation of an Available spot), `ReleaseSpotAPI.post` (finalize a reservation and free its
    spot) and `UserBookingsAPI.get` (a user's reservations), with the reservation view
    `Reservation.to_dict` they answer with. */
module BookingApi {
  import opened Wrappers
  import opened Decimal
  import opened Model
  import opened Tables
  import opened Api
  import opened Store
  import Ordering

  const RequiredMessage := "user_id, lot_id and vehicle_number required"
  const UserNotFoundMessage := "User not found"
  const LotNotFoundMessage := "Parking lot not found"
  const NoSpotMessage := "No available spots in this lot"
  const BookingNotFoundMessage := "Reservation not found"
  const AlreadyReleasedMessage := "Reservation already released"
  const UserIdRequiredMessage := "user_id is required"

  // ---------------------------------------------------------------------------------------
  // The reservation view
  // ---------------------------------------------------------------------------------------

  /** `Reservation.to_dict()`: the row with the name of its lot, the label of its spot and its
      status; the cost appears under both `cost` and `parking_cost`. */
  datatype BookingView = BookingView(
    id: Id,
    userId: Id,
    spotId: Id,
    lotName: Option<string>,
    spotNumber: Option<string>,
    status: string,
    cost: Option<int>,
    parkingTimestamp: Timestamp,
    leavingTimestamp: Option<Timestamp>,
    vehicleNumber: string)

  /** The view of reservation `rid`: the spot's label when the spot is stored, the lot's name when
      the lot is stored too, null otherwise. */
  function View(db: Db, rid: Id): (v: BookingView)
    requires rid in db.reservations
    ensures var r := db.reservations[rid];
      && v.id == rid && v.userId == r.userId && v.spotId == r.spotId
      && (v.spotNumber.Some? <==> r.spotId in db.spots)
      && (v.lotName.Some? <==> r.spotId in db.spots && db.spots[r.spotId].lotId in db.lots)
      && (v.status == "active" <==> Active(r))
      && (r.spotId in db.spots ==> v.spotNumber == Some(db.spots[r.spotId].spotNumber))
      && (r.spotId in db.spots && db.spots[r.spotId].lotId in db.lots ==>
            v.lotName == Some(db.lots[db.spots[r.spotId].lotId].name))
      && v.cost == r.parkingCost && v.parkingTimestamp == r.parkingTimestamp
      && v.leavingTimestamp == r.leavingTimestamp && v.vehicleNumber == r.vehicleNumber
  {
    var r := db.reservations[rid];
    var spot := if r.spotId in db.spots then Some(db.spots[r.spotId]) else None;
    var lot := if spot.Some? && spot.value.lotId in db.lots then Some(db.lots[spot.value.lotId]) else None;
    BookingView(
      rid, r.userId, r.spotId,
      if lot.Some? then Some(lot.value.name) else None,
      if spot.Some? then Some(spot.value.spotNumber) else None,
      ReservationStatus(r), r.parkingCost, r.parkingTimestamp, r.leavingTimestamp, r.vehicleNumber)
  }

  // ---------------------------------------------------------------------------------------
  // Reserve
  // ---------------------------------------------------------------------------------------

  /** The JSON body of `POST /reserve`; ids are JSON numbers, and 0 is as good as absent. */
  datatype ReservePayload = ReservePayload(userId: Option<int>, lotId: Option<int>, vehicleNumber: Option<string>)

  /** The answer of a successful reservation. */
  datatype Booking = Booking(reservationId: Id, spotId: Id)

  predicate MissingField(payload: ReservePayload) {
    Missing(payload.userId, 0) || Missing(payload.lotId, 0) || Missing(payload.vehicleNumber, "")
  }

  /** `X.query.get(id)` finds a row only under a stored (so non-negative) key. */
  predicate Stored<T>(table: map<Id, T>, id: int) {
    id >= 0 && id as nat in table
  }

  /** What `ReserveSpotAPI.post` answers: 400 for a missing field, 404 for an unknown user or lot,
      400 when the lot has no Available spot, and otherwise the next reservation id with the
      Available spot of the lot with the lowest id (first fit). */
  ghost function ReserveAnswer(db: Db, nextReservationId: Id, payload: ReservePayload): (r: Result<Booking, ApiError>)
    ensures r == Err(ApiError(400, RequiredMessage)) <==> MissingField(payload)
    ensures r == Err(ApiError(404, UserNotFoundMessage)) <==> !MissingField(payload) && !Stored(db.users, payload.userId.value)
    ensures r == Err(ApiError(404, LotNotFoundMessage)) <==>
      !MissingField(payload) && Stored(db.users, payload.userId.value) && !Stored(db.lots, payload.lotId.value)
    ensures r == Err(ApiError(400, NoSpotMessage)) <==>
      && !MissingField(payload) && Stored(db.users, payload.userId.value) && Stored(db.lots, payload.lotId.value)
      && AvailableIn(db.spots, payload.lotId.value as nat) == {}
    ensures r.Ok? ==>
      var avail := AvailableIn(db.spots, payload.lotId.value as nat);
      && r.value.reservationId == nextReservationId
      && r.value.spotId in avail
      && forall sid | sid in avail :: r.value.spotId <= sid
  {
    if MissingField(payload) then Err(ApiError(400, RequiredMessage))
    else if !Stored(db.users, payload.userId.value) then Err(ApiError(404, UserNotFoundMessage))
    else if !Stored(db.lots, payload.lotId.value) then Err(ApiError(404, LotNotFoundMessage))
    else
      var avail := AvailableIn(db.spots, payload.lotId.value as nat);
      if avail == {} then Err(ApiError(400, NoSpotMessage))
      else Ok(Booking(nextReservationId, Ordering.Min(avail)))
  }

  /** `ReserveSpotAPI.post`: answer as `ReserveAnswer` says; on success store the reservation
      (started `now`, open, with the vehicle) and occupy its spot, which adds one Occupied spot and
      one active reservation. A refusal changes nothing. */
  method Reserve(st: Store, payload: ReservePayload, now: Timestamp) returns (r: Result<Booking, ApiError>)
    requires st.Valid() && Invariant(st.State())
    modifies st
    ensures st.Valid() && Invariant(st.State())
    ensures r == ReserveAnswer(old(st.State()), old(st.nextReservationId), payload)
    ensures r.Err? ==> st.State() == old(st.State())
    ensures r.Ok? ==>
      var sid := r.value.spotId;
      var vehicle := payload.vehicleNumber.value;
      && sid in old(st.spots)
      && st.spots == old(st.spots)[sid := Occupy(old(st.spots[sid]), vehicle, now).value]
      && st.reservations == old(st.reservations)[r.value.reservationId :=
           Reservation(payload.userId.value as nat, sid, now, None, None, vehicle)]
      && st.lots == old(st.lots) && st.users == old(st.users)
      && OccupiedCount(st.spots) == OccupiedCount(old(st.spots)) + 1
      && ActiveCount(st.reservations) == ActiveCount(old(st.reservations)) + 1
  {
    if MissingField(payload) {
      return Err(ApiError(400, RequiredMessage));
    }
    var userId, lotId, vehicle := payload.userId.value, payload.lotId.value, payload.vehicleNumber.value;
    if !Stored(st.users, userId) {
      return Err(ApiError(404, UserNotFoundMessage));
    }
    if !Stored(st.lots, lotId) {
      return Err(ApiError(404, LotNotFoundMessage));
    }
    var avail := AvailableIn(st.spots, lotId as nat);
    if avail == {} {
      return Err(ApiError(400, NoSpotMessage));
    }
    assert Ordering.Min(avail) in avail;
    var sid :| sid in avail && forall x | x in avail :: sid <= x;
    assert sid == Ordering.Min(avail);
    assert ReserveAnswer(st.State(), st.nextReservationId, payload) == Ok(Booking(st.nextReservationId, sid));
    var booking := Book(st, userId as nat, sid, vehicle, now);
    r := Ok(booking);
  }

  /** The commit of a reservation: insert it under the next id, started `now`, and occupy its
      Available spot; one more Occupied spot and one more active reservation. */
  method Book(st: Store, userId: Id, sid: Id, vehicle: string, now: Timestamp) returns (b: Booking)
    requires st.Valid() && Invariant(st.State())
    requires userId in st.users && sid in st.spots && IsAvailable(st.spots[sid])
    modifies st
    ensures st.Valid() && Invariant(st.State())
    ensures b == Booking(old(st.nextReservationId), sid)
    ensures st.spots == old(st.spots)[sid := Occupy(old(st.spots[sid]), vehicle, now).value]
    ensures st.reservations == old(st.reservations)[b.reservationId := Reservation(userId, sid, now, None, None, vehicle)]
    ensures st.lots == old(st.lots) && st.users == old(st.users)
    ensures OccupiedCount(st.spots) == OccupiedCount(old(st.spots)) + 1
    ensures ActiveCount(st.reservations) == ActiveCount(old(st.reservations)) + 1
  {
    var rid := st.nextReservationId;
    ReserveKeepsInvariant(st.State(), sid, rid, userId, vehicle, now);
    st.reservations := st.reservations[rid := Reservation(userId, sid, now, None, None, vehicle)];
    st.nextReservationId := rid + 1;
    var _ := st.OccupySpot(sid, vehicle, now);
    b := Booking(rid, sid);
  }

  // ---------------------------------------------------------------------------------------
  // Release
  // ---------------------------------------------------------------------------------------

  /** `ReleaseSpotAPI.post(booking_id)`: 404 for an unknown reservation, 400 for one already
      released; otherwise the reservation is finalized at `now` at its lot's price, its spot is
      released, and the answer is the view of the finalized reservation. This removes one Occupied
      spot and one active reservation. */
  method Release(st: Store, bookingId: Id, now: Timestamp) returns (r: Result<BookingView, ApiError>)
    requires st.Valid() && Invariant(st.State())
    modifies st
    ensures st.Valid() && Invariant(st.State())
    ensures bookingId !in old(st.reservations) ==>
      r == Err(ApiError(404, BookingNotFoundMessage)) && st.State() == old(st.State())
    ensures bookingId in old(st.reservations) && !Active(old(st.reservations[bookingId])) ==>
      r == Err(ApiError(400, AlreadyReleasedMessage)) && st.State() == old(st.State())
    ensures bookingId in old(st.reservations) && Active(old(st.reservations[bookingId])) ==>
      var res := old(st.reservations[bookingId]);
      && res.spotId in old(st.spots) && old(st.spots[res.spotId]).lotId in old(st.lots)
      && var price := old(st.lots[st.spots[res.spotId].lotId].pricePerHour);
      && st.reservations == old(st.reservations)[bookingId := Finalized(res, now, price)]
      && st.spots == old(st.spots)[res.spotId := Model.Release(old(st.spots[res.spotId])).value]
      && st.lots == old(st.lots) && st.users == old(st.users)
      && r == Ok(View(st.State(), bookingId))
      && OccupiedCount(st.spots) + 1 == OccupiedCount(old(st.spots))
      && ActiveCount(st.reservations) + 1 == ActiveCount(old(st.reservations))
  {
    if bookingId !in st.reservations {
      return Err(ApiError(404, BookingNotFoundMessage));
    }
    if !Active(st.reservations[bookingId]) {
      return Err(ApiError(400, AlreadyReleasedMessage));
    }
    var res := st.reservations[bookingId];
    ReleaseKeepsInvariant(st.State(), bookingId, now, st.lots[st.spots[res.spotId].lotId].pricePerHour);
    var closed := st.Finalize(bookingId, None, now);
    r := Ok(View(st.State(), bookingId));
  }

  // ---------------------------------------------------------------------------------------
  // User bookings
  // ---------------------------------------------------------------------------------------

  /** The ids of the reservations of user `userId`. */
  function ReservationsOf(reservations: map<Id, Reservation>, userId: Id): set<Id> {
    set rid | rid in reservations && reservations[rid].userId == userId
  }

  /** `UserBookingsAPI.get`: the `user_id` query parameter is required (400); it is looked up as
      an integer key (404 when it names no user); the answer is the view of each of the user's
      reservations, in id order, each once (`UserBookingsComplete`: none is missing). */
  ghost function UserBookings(db: Db, userId: Option<string>): (r: Result<seq<BookingView>, ApiError>)
    ensures r == Err(ApiError(400, UserIdRequiredMessage)) <==> Missing(userId, "")
    ensures r == Err(ApiError(404, UserNotFoundMessage)) <==>
      !Missing(userId, "") && (ParseInt(userId.value).None? || !Stored(db.users, ParseInt(userId.value).value))
    ensures r.Ok? ==>
      var uid := ParseInt(userId.value).value as nat;
      && |r.value| == |ReservationsOf(db.reservations, uid)|
      && (forall i | 0 <= i < |r.value| ::
            r.value[i].id in ReservationsOf(db.reservations, uid) && r.value[i] == View(db, r.value[i].id))
      && (forall i, j | 0 <= i < j < |r.value| :: r.value[i].id < r.value[j].id)
  {
    if Missing(userId, "") then Err(ApiError(400, UserIdRequiredMessage))
    else
      var parsed := ParseInt(userId.value);
      if parsed.None? || !Stored(db.users, parsed.value) then Err(ApiError(404, UserNotFoundMessage))
      else
        var ids := Ordering.SortedAsc(ReservationsOf(db.reservations, parsed.value as nat));
        assert forall i | 0 <= i < |ids| :: ids[i] in ReservationsOf(db.reservations, parsed.value as nat);
        Ok(seq(|ids|, i requires 0 <= i < |ids| => View(db, ids[i])))
  }

  /** Every reservation of the user is among the bookings `UserBookings` lists. */
  lemma UserBookingsComplete(db: Db, userId: Option<string>)
    requires UserBookings(db, userId).Ok?
    ensures var views := UserBookings(db, userId).value;
      var mine := ReservationsOf(db.reservations, ParseInt(userId.value).value as nat);
      forall rid | rid in mine :: exists i :: 0 <= i < |views| && views[i].id == rid
  {
    var views := UserBookings(db, userId).value;
    var mine := ReservationsOf(db.reservations, ParseInt(userId.value).value as nat);
    var ids := seq(|views|, i requires 0 <= i < |views| => views[i].id);
    Ordering.DistinctCovers(ids, mine);
    forall rid | rid in mine ensures exists i :: 0 <= i < |views| && views[i].id == rid {
      var i :| 0 <= i < |ids| && ids[i] == rid;
      assert views[i].id == rid;
    }
  }
}
