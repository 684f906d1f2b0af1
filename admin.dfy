/** The admin views, backend/cntrlrs/admin_apis.py: `AdminDashboardAPI.get` (the summary counts)
    and `AdminAllBookingsAPI.get` (every reservation, newest first, with its user). */
module Admin {
  import opened Wrappers
  import opened Model
  import opened Tables
  import opened Api
  import opened BookingApi
  import Ordering

  // ---------------------------------------------------------------------------------------
  // Dashboard
  // ---------------------------------------------------------------------------------------

  datatype Dashboard = Dashboard(lots: nat, spots: nat, occupiedSpots: nat, users: nat, activeReservations: nat)

  /** The dashboard counts the rows of each table; `occupied_spots` is counted on the reservation
      table (the open reservations), and `active_reservations` is that same number. */
  function DashboardOf(db: Db): (d: Dashboard)
    ensures d.lots == |db.lots| && d.spots == |db.spots| && d.users == |db.users|
    ensures d.occupiedSpots == ActiveCount(db.reservations)
    ensures d.activeReservations == d.occupiedSpots
  {
    var occupied := ActiveCount(db.reservations);
    Dashboard(|db.lots|, |db.spots|, occupied, |db.users|, occupied)
  }

  /** In a consistent store the `occupied_spots` figure, counted on reservations, is also the
      number of spots whose status is Occupied. */
  lemma DashboardCountsOccupiedSpots(db: Db)
    requires Consistent(db.spots, db.reservations)
    ensures DashboardOf(db).occupiedSpots == OccupiedCount(db.spots)
  {
    ConsistentCounts(db.spots, db.reservations);
  }

  // ---------------------------------------------------------------------------------------
  // All bookings
  // ---------------------------------------------------------------------------------------

  /** The `user` entry of an admin booking. */
  datatype UserRef = UserRef(id: Id, username: string, email: string)

  /** One element of the admin bookings list: the reservation view and its user (null when the
      user row is missing). */
  datatype AdminBooking = AdminBooking(view: BookingView, user: Option<UserRef>)

  /** The handler's completion of a view: `lot_name` is taken from the spot's lot and
      `spot_number` from the spot when the view's entry is null or empty and the rows exist. */
  function Filled(db: Db, v: BookingView): (w: BookingView)
    ensures w == v.(lotName := w.lotName, spotNumber := w.spotNumber)
    ensures !Missing(v.lotName, "") ==> w.lotName == v.lotName
    ensures !Missing(v.spotNumber, "") ==> w.spotNumber == v.spotNumber
    ensures w.lotName.Some? <==> v.lotName.Some? || (v.spotId in db.spots && db.spots[v.spotId].lotId in db.lots)
    ensures w.spotNumber.Some? <==> v.spotNumber.Some? || v.spotId in db.spots
    ensures Missing(v.lotName, "") && v.spotId in db.spots && db.spots[v.spotId].lotId in db.lots ==>
      w.lotName == Some(db.lots[db.spots[v.spotId].lotId].name)
    ensures !(v.spotId in db.spots && db.spots[v.spotId].lotId in db.lots) ==> w.lotName == v.lotName
    ensures Missing(v.spotNumber, "") && v.spotId in db.spots ==> w.spotNumber == Some(db.spots[v.spotId].spotNumber)
    ensures v.spotId !in db.spots ==> w.spotNumber == v.spotNumber
  {
    var spot := if v.spotId in db.spots then Some(db.spots[v.spotId]) else None;
    var lotName :=
      if Missing(v.lotName, "") && spot.Some? && spot.value.lotId in db.lots then Some(db.lots[spot.value.lotId].name)
      else v.lotName;
    var spotNumber := if Missing(v.spotNumber, "") && spot.Some? then Some(spot.value.spotNumber) else v.spotNumber;
    v.(lotName := lotName, spotNumber := spotNumber)
  }

  /** The completion never changes what `Reservation.to_dict` produced: a null entry there means
      the row it would be read from is missing, and an empty one is read back as the same empty
      text. */
  lemma FilledKeepsView(db: Db, rid: Id)
    requires rid in db.reservations
    ensures Filled(db, View(db, rid)) == View(db, rid)
  {
    var v := View(db, rid);
    var spotId := db.reservations[rid].spotId;
    if v.lotName.Some? {
      assert db.lots[db.spots[spotId].lotId].name == v.lotName.value;
    }
    if v.spotNumber.Some? {
      assert db.spots[spotId].spotNumber == v.spotNumber.value;
    }
  }

  /** The list element of reservation `rid`. */
  function Entry(db: Db, rid: Id): (e: AdminBooking)
    requires rid in db.reservations
    ensures e.view == View(db, rid)
    ensures e.user.Some? <==> db.reservations[rid].userId in db.users
    ensures e.user.Some? ==>
      var u := db.users[db.reservations[rid].userId];
      e.user.value == UserRef(db.reservations[rid].userId, u.username, u.email)
  {
    FilledKeepsView(db, rid);
    var userId := db.reservations[rid].userId;
    var user := if userId in db.users then Some(UserRef(userId, db.users[userId].username, db.users[userId].email)) else None;
    AdminBooking(Filled(db, View(db, rid)), user)
  }

  /** The stored reservations, highest id first (`ORDER BY id DESC`). */
  ghost function NewestFirst(db: Db): (ids: seq<Id>)
    ensures |ids| == |db.reservations.Keys|
    ensures forall rid :: rid in ids <==> rid in db.reservations
    ensures forall i, j | 0 <= i < j < |ids| :: ids[i] > ids[j]
  {
    Ordering.SortedDesc(db.reservations.Keys)
  }

  /** `AdminAllBookingsAPI.get`: one element per reservation, newest id first. */
  ghost function AllBookings(db: Db): (bookings: seq<AdminBooking>)
    ensures |bookings| == |db.reservations.Keys|
    ensures forall i | 0 <= i < |bookings| :: bookings[i].view.id in db.reservations && bookings[i] == Entry(db, bookings[i].view.id)
    ensures forall i, j | 0 <= i < j < |bookings| :: bookings[i].view.id > bookings[j].view.id
  {
    var ids := NewestFirst(db);
    seq(|ids|, i requires 0 <= i < |ids| => assert ids[i] in ids; Entry(db, ids[i]))
  }

  /** Every reservation appears in the admin list, at exactly one position. */
  lemma AllBookingsListEach(db: Db, rid: Id)
    requires rid in db.reservations
    ensures var bookings := AllBookings(db);
      && (exists i :: 0 <= i < |bookings| && bookings[i].view.id == rid)
      && forall i, j | 0 <= i < |bookings| && 0 <= j < |bookings| && bookings[i].view.id == rid && bookings[j].view.id == rid :: i == j
  {
    var bookings, ids := AllBookings(db), NewestFirst(db);
    assert rid in ids;
    var i :| 0 <= i < |ids| && ids[i] == rid;
    assert bookings[i].view.id == rid;
  }
}
