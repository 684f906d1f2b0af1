/** The database session: the four tables as mutable fields, with the autoincrement counters that
    hand out primary keys, and the row operations of backend/model.py that change it —
    `ParkingLot.create_spots`, `ParkingSpot.occupy` / `release` and `Reservation.finalize`. */
module Store {
  import opened Wrappers
  import opened Model
  import opened Tables
  import opened Api

  /** The loop of `create_spots`: for i = k + 1 .. n, a new Available spot of lot `lotId` labelled
      `prefix` + i, under the next id from `first` on. Returns the rows and their ids in order. */
  method PendingSpots(lotId: Id, prefix: string, first: Id, k: nat, n: int)
    returns (added: map<Id, Spot>, created: seq<Id>)
    ensures added == NewSpots(lotId, prefix, first, k + 1, CreateCount(k + 1, n))
    ensures |created| == CreateCount(k + 1, n)
    ensures forall j | 0 <= j < |created| :: created[j] == first + j && created[j] in added
  {
    added, created := map[], [];
    var i := k + 1;
    while i <= n
      invariant k + 1 <= i && i - (k + 1) <= CreateCount(k + 1, n)
      invariant added == NewSpots(lotId, prefix, first, k + 1, i - (k + 1))
      invariant |created| == i - (k + 1)
      invariant forall j | 0 <= j < |created| :: created[j] == first + j && created[j] in added
      decreases n - i
    {
      added := added[first + (i - (k + 1)) := NewSpot(lotId, SpotLabel(prefix, i))];
      created := created + [first + (i - (k + 1))];
      i := i + 1;
    }
  }

  /** How many spots `create_spots` inserts into lot `lotId` whose stored count is `n`. */
  function PlannedCount(spots: map<Id, Spot>, lotId: Id, n: int): nat {
    CreateCount(|LotSpotIds(spots, lotId)| + 1, n)
  }

  /** The rows `create_spots` inserts into lot `lotId` whose stored count is `n`, under ids from
      `first` on. */
  function PlannedSpots(spots: map<Id, Spot>, lotId: Id, n: int, prefix: string, first: Id): map<Id, Spot> {
    var k := |LotSpotIds(spots, lotId)|;
    NewSpots(lotId, prefix, first, k + 1, CreateCount(k + 1, n))
  }

  /** The planned rows take the ids `first` .. `first + count - 1`. */
  lemma PlannedSpotsIds(spots: map<Id, Spot>, lotId: Id, n: int, prefix: string, first: Id)
    ensures forall id | id in PlannedSpots(spots, lotId, n, prefix, first) :: first <= id < first + PlannedCount(spots, lotId, n)
  {
    var k := |LotSpotIds(spots, lotId)|;
    NewSpotsRows(lotId, prefix, first, k + 1, CreateCount(k + 1, n));
  }

  /** Storing the planned rows of a lot keeps the invariant when they do not clash and `first` is
      above every stored spot id. */
  lemma PlannedSpotsKeepInvariant(db: Db, lotId: Id, prefix: string, first: Id)
    requires Invariant(db) && lotId in db.lots && forall id | id in db.spots :: id < first
    requires !Clashes(db.spots, PlannedSpots(db.spots, lotId, db.lots[lotId].numberOfSpots, prefix, first))
    ensures Invariant(db.(spots := db.spots + PlannedSpots(db.spots, lotId, db.lots[lotId].numberOfSpots, prefix, first)))
  {
    var k := |LotSpotIds(db.spots, lotId)|;
    var count := CreateCount(k + 1, db.lots[lotId].numberOfSpots);
    NewRowsFit(db.spots, db.lots, lotId, prefix, first, k + 1, count);
    AddSpotsKeepsInvariant(db, NewSpots(lotId, prefix, first, k + 1, count));
  }

  /** Rows made for a stored lot under ids above every stored spot id are fresh Available rows of
      that lot with distinct labels: what `AddSpotsKeepsInvariant` asks of them. */
  lemma NewRowsFit(spots: map<Id, Spot>, lots: map<Id, Lot>, lotId: Id, prefix: string, first: Id, from: nat, count: nat)
    requires lotId in lots && forall id | id in spots :: id < first
    ensures var added := NewSpots(lotId, prefix, first, from, count);
      && LabelsUnique(added)
      && forall id | id in added ::
           (id !in spots && added[id].lotId in lots && IsAvailable(added[id])
             && added[id].vehicleNumber.None? && added[id].reservedAt.None?)
  {
    NewSpotsRows(lotId, prefix, first, from, count);
    NewSpotsLabelsDistinct(lotId, prefix, first, from, count);
  }

  class Store {
    var lots: map<Id, Lot>
    var spots: map<Id, Spot>
    var reservations: map<Id, Reservation>
    var users: map<Id, User>
    /** The next primary key each autoincrement table hands out. */
    var nextLotId: Id
    var nextSpotId: Id
    var nextReservationId: Id

    /** The tables as a value, for the read views. */
    function State(): Db
      reads this
    {
      Db(lots, spots, reservations, users)
    }

    /** Primary keys start at 1 and every stored key is below its table's counter. */
    ghost predicate Valid()
      reads this
    {
      && 1 <= nextLotId && 1 <= nextSpotId && 1 <= nextReservationId
      && (forall id | id in lots :: 1 <= id < nextLotId)
      && (forall id | id in spots :: 1 <= id < nextSpotId)
      && (forall id | id in reservations :: 1 <= id < nextReservationId)
    }

    /** An empty parking database over an existing set of user accounts. */
    constructor (users: map<Id, User>)
      ensures Valid() && Invariant(State())
      ensures this.users == users && lots == map[] && spots == map[] && reservations == map[]
    {
      this.users := users;
      lots, spots, reservations := map[], map[], map[];
      nextLotId, nextSpotId, nextReservationId := 1, 1, 1;
    }

    /** `ParkingLot.create_spots(commit=True, prefix)`: insert the spots labelled
        `prefix` + (k + 1) .. `prefix` + n, where k is the number of spots the lot has and n its
        stored count, under fresh ids. If a label repeats one the lot already has, the unique
        constraint fails the commit: the insert is rolled back and the request ends in a 500. */
    method CreateSpots(lotId: Id, prefix: string) returns (r: Result<seq<Id>, ApiError>)
      requires Valid() && lotId in lots
      modifies this
      ensures Valid()
      ensures var added := PlannedSpots(old(spots), lotId, old(lots[lotId].numberOfSpots), prefix, old(nextSpotId));
        if Clashes(old(spots), added) then
          r == Err(InternalError) && spots == old(spots) && nextSpotId == old(nextSpotId)
        else
          && r.Ok? && spots == old(spots) + added
          && |r.value| == PlannedCount(old(spots), lotId, old(lots[lotId].numberOfSpots))
          && (forall j | 0 <= j < |r.value| :: r.value[j] == old(nextSpotId) + j)
          && nextSpotId == old(nextSpotId) + |r.value|
      ensures lots == old(lots) && reservations == old(reservations) && users == old(users)
      ensures nextLotId == old(nextLotId) && nextReservationId == old(nextReservationId)
      ensures old(Invariant(State())) ==> Invariant(State())
    {
      var k := |LotSpotIds(spots, lotId)|;
      var first := nextSpotId;
      var added, created := PendingSpots(lotId, prefix, first, k, lots[lotId].numberOfSpots);
      if Clashes(spots, added) {
        return Err(InternalError);
      }
      assert added == PlannedSpots(spots, lotId, lots[lotId].numberOfSpots, prefix, first);
      assert |created| == PlannedCount(spots, lotId, lots[lotId].numberOfSpots);
      PlannedSpotsIds(spots, lotId, lots[lotId].numberOfSpots, prefix, first);
      if Invariant(State()) {
        PlannedSpotsKeepInvariant(State(), lotId, prefix, first);
      }
      InsertSpots(added, |created|);
      r := Ok(created);
    }

    /** Store `count` new spot rows under the next `count` ids. */
    method InsertSpots(added: map<Id, Spot>, count: nat)
      requires Valid()
      requires forall id | id in added :: nextSpotId <= id < nextSpotId + count
      modifies this
      ensures Valid()
      ensures spots == old(spots) + added && nextSpotId == old(nextSpotId) + count
      ensures lots == old(lots) && reservations == old(reservations) && users == old(users)
      ensures nextLotId == old(nextLotId) && nextReservationId == old(nextReservationId)
    {
      spots := spots + added;
      nextSpotId := nextSpotId + count;
    }

    /** `ParkingSpot.occupy`: the spot row becomes `Occupy` of itself, or stays as it was when the
        spot is not Available. */
    method OccupySpot(sid: Id, vehicleNumber: string, now: Timestamp) returns (r: Result<Spot, SpotError>)
      requires sid in spots
      modifies this
      ensures r == Occupy(old(spots[sid]), vehicleNumber, now)
      ensures spots == if r.Ok? then old(spots)[sid := r.value] else old(spots)
      ensures lots == old(lots) && reservations == old(reservations) && users == old(users)
      ensures nextLotId == old(nextLotId) && nextSpotId == old(nextSpotId) && nextReservationId == old(nextReservationId)
    {
      r := Occupy(spots[sid], vehicleNumber, now);
      if r.Ok? {
        spots := spots[sid := r.value];
      }
    }

    /** `ParkingSpot.release`: the spot row becomes `Release` of itself, or stays as it was when the
        spot is already Available. */
    method ReleaseSpot(sid: Id) returns (r: Result<Spot, SpotError>)
      requires sid in spots
      modifies this
      ensures r == Release(old(spots[sid]))
      ensures spots == if r.Ok? then old(spots)[sid := r.value] else old(spots)
      ensures lots == old(lots) && reservations == old(reservations) && users == old(users)
      ensures nextLotId == old(nextLotId) && nextSpotId == old(nextSpotId) && nextReservationId == old(nextReservationId)
    {
      r := Release(spots[sid]);
      if r.Ok? {
        spots := spots[sid := r.value];
      }
    }

    /** `Reservation.finalize(leaving_ts)`: a released reservation is returned untouched; an active
        one gets its leaving time (`leavingTs`, or `now` when none is given) and its cost at its
        lot's price, and its spot is released; a spot that is already Available stays so and the
        finalization goes on. A reservation whose spot or lot is gone raises: the request ends in a
        500 and nothing is stored. */
    method Finalize(rid: Id, leavingTs: Option<Timestamp>, now: Timestamp) returns (r: Result<Reservation, ApiError>)
      requires rid in reservations
      modifies this
      ensures var old_r := old(reservations[rid]);
        var leaving := if leavingTs.Some? then leavingTs.value else now;
        if !Active(old_r) then
          r == Ok(old_r) && reservations == old(reservations) && spots == old(spots)
        else if old_r.spotId !in old(spots) || old(spots[old_r.spotId]).lotId !in old(lots) then
          r == Err(InternalError) && reservations == old(reservations) && spots == old(spots)
        else
          var s := old(spots[old_r.spotId]);
          && r == Ok(Finalized(old_r, leaving, old(lots[s.lotId].pricePerHour)))
          && reservations == old(reservations)[rid := r.value]
          && spots == if IsAvailable(s) then old(spots) else old(spots)[old_r.spotId := Release(s).value]
      ensures lots == old(lots) && users == old(users)
      ensures nextLotId == old(nextLotId) && nextSpotId == old(nextSpotId) && nextReservationId == old(nextReservationId)
    {
      var res := reservations[rid];
      if !Active(res) {
        return Ok(res);
      }
      var leaving := if leavingTs.Some? then leavingTs.value else now;
      if res.spotId !in spots || spots[res.spotId].lotId !in lots {
        return Err(InternalError);
      }
      var price := lots[spots[res.spotId].lotId].pricePerHour;
      var closed := Finalized(res, leaving, price);
      // a failed release is swallowed
      var _ := ReleaseSpot(res.spotId);
      reservations := reservations[rid := closed];
      r := Ok(closed);
    }
  }
}
