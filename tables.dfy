/** The database as a value: the lot, spot, reservation and user tables keyed by id, the sets and
    counts the read views query, and the invariants that the handlers maintain together:

    - `Consistent`: a spot is Occupied exactly when one active reservation holds it, and the spot's
      vehicle and reservation time mirror that reservation; this is the equality the dashboard's
      `occupied_spots` relies on (backend/cntrlrs/admin_apis.py:45-49).
    - `Linked`: every spot belongs to a stored lot, every reservation to a stored spot and user
      (the foreign keys of backend/model.py, with their cascades).
    - `LabelsUnique`: no two spots of one lot share a label (the unique constraint of
      backend/model.py:146-148).
    - `Reconciled`: each lot has as many spot rows as its stored count says (none for a negative
      count). Every handler that succeeds keeps it, but a resize whose spot insert fails leaves the
      new count stored without the rows, so it is not part of `Invariant`. */
module Tables {
  import opened Wrappers
  import opened Model
  import Ordering

  datatype Db = Db(
    lots: map<Id, Lot>,
    spots: map<Id, Spot>,
    reservations: map<Id, Reservation>,
    users: map<Id, User>)

  // ---------------------------------------------------------------------------------------
  // Queries
  // ---------------------------------------------------------------------------------------

  /** `lot.spots`: the ids of the spots of one lot. */
  function LotSpotIds(spots: map<Id, Spot>, lotId: Id): set<Id> {
    set id | id in spots && spots[id].lotId == lotId
  }

  /** The Available spots of one lot. */
  function AvailableIn(spots: map<Id, Spot>, lotId: Id): set<Id> {
    set id | id in spots && spots[id].lotId == lotId && IsAvailable(spots[id])
  }

  /** The Occupied spots of one lot. */
  function OccupiedIn(spots: map<Id, Spot>, lotId: Id): set<Id> {
    set id | id in spots && spots[id].lotId == lotId && !IsAvailable(spots[id])
  }

  /** All Occupied spots. */
  function OccupiedIds(spots: map<Id, Spot>): set<Id> {
    set id | id in spots && !IsAvailable(spots[id])
  }

  /** All active reservations (`leaving_timestamp IS NULL`). */
  function ActiveIds(reservations: map<Id, Reservation>): set<Id> {
    set id | id in reservations && Active(reservations[id])
  }

  function OccupiedCount(spots: map<Id, Spot>): nat {
    |OccupiedIds(spots)|
  }

  function ActiveCount(reservations: map<Id, Reservation>): nat {
    |ActiveIds(reservations)|
  }

  /** The labels of one lot's spots. */
  function LotLabels(spots: map<Id, Spot>, lotId: Id): set<string> {
    set id | id in spots && spots[id].lotId == lotId :: spots[id].spotNumber
  }

  /** The labels `prefix` + 1 .. `prefix` + k. */
  function LabelRange(prefix: string, k: nat): set<string> {
    set i | i in Ordering.Range(1, k + 1) :: SpotLabel(prefix, i)
  }

  /** The spot table without the rows in `ids`. */
  function WithoutSpots(spots: map<Id, Spot>, ids: set<Id>): map<Id, Spot> {
    spots - ids
  }

  /** The reservation table without the reservations of the spots in `ids` (the cascade of
      deleting those spots, backend/model.py:144). */
  function WithoutReservationsOf(reservations: map<Id, Reservation>, ids: set<Id>): map<Id, Reservation> {
    map rid | rid in reservations && reservations[rid].spotId !in ids :: reservations[rid]
  }

  // ---------------------------------------------------------------------------------------
  // Invariants
  // ---------------------------------------------------------------------------------------

  /** Spot `s` is the one held by active reservation `r`: Occupied by its vehicle since its start. */
  predicate Mirrors(s: Spot, r: Reservation) {
    s.status == Occupied && s.vehicleNumber == Some(r.vehicleNumber) && s.reservedAt == Some(r.parkingTimestamp)
  }

  /** Every active reservation holds a stored spot that mirrors it. */
  ghost predicate HeldSpotsMirror(spots: map<Id, Spot>, reservations: map<Id, Reservation>) {
    forall rid | rid in reservations && Active(reservations[rid]) ::
      reservations[rid].spotId in spots && Mirrors(spots[reservations[rid].spotId], reservations[rid])
  }

  /** No spot is held by two active reservations. */
  ghost predicate SingleHolder(reservations: map<Id, Reservation>) {
    forall r1, r2 | r1 in reservations && r2 in reservations && Active(reservations[r1]) && Active(reservations[r2])
      && reservations[r1].spotId == reservations[r2].spotId :: r1 == r2
  }

  /** Every Occupied spot is held by an active reservation; an Available one carries no vehicle. */
  ghost predicate OccupiedHeld(spots: map<Id, Spot>, reservations: map<Id, Reservation>) {
    forall sid | sid in spots ::
      if IsAvailable(spots[sid]) then spots[sid].vehicleNumber.None? && spots[sid].reservedAt.None?
      else exists rid :: rid in reservations && Active(reservations[rid]) && reservations[rid].spotId == sid
  }

  /** Spot states mirror the active reservations one to one. */
  ghost predicate Consistent(spots: map<Id, Spot>, reservations: map<Id, Reservation>) {
    HeldSpotsMirror(spots, reservations) && SingleHolder(reservations) && OccupiedHeld(spots, reservations)
  }

  ghost predicate Linked(db: Db) {
    && (forall sid | sid in db.spots :: db.spots[sid].lotId in db.lots)
    && (forall rid | rid in db.reservations ::
          db.reservations[rid].spotId in db.spots && db.reservations[rid].userId in db.users)
  }

  ghost predicate LabelsUnique(spots: map<Id, Spot>) {
    forall a, b | a in spots && b in spots && spots[a].lotId == spots[b].lotId
      && spots[a].spotNumber == spots[b].spotNumber :: a == b
  }

  ghost predicate Reconciled(lots: map<Id, Lot>, spots: map<Id, Spot>) {
    forall lid | lid in lots :: |LotSpotIds(spots, lid)| == if lots[lid].numberOfSpots < 0 then 0 else lots[lid].numberOfSpots
  }

  /** The invariant every handler keeps. */
  ghost predicate Invariant(db: Db) {
    Consistent(db.spots, db.reservations) && Linked(db) && LabelsUnique(db.spots)
  }

  /** Some inserted row repeats the label of a stored spot of the same lot: the insert violates the
      unique constraint on (lot, label). */
  predicate Clashes(spots: map<Id, Spot>, added: map<Id, Spot>) {
    exists a, b | a in spots && b in added ::
      spots[a].lotId == added[b].lotId && spots[a].spotNumber == added[b].spotNumber
  }

  // ---------------------------------------------------------------------------------------
  // The dashboard equality
  // ---------------------------------------------------------------------------------------

  /** A map from reservations onto spots that is one to one makes the two sets equally large. */
  lemma {:induction false} HolderBijection(holders: set<Id>, held: set<Id>, reservations: map<Id, Reservation>)
    requires forall r | r in holders :: r in reservations && reservations[r].spotId in held
    requires forall r1, r2 | r1 in holders && r2 in holders && reservations[r1].spotId == reservations[r2].spotId :: r1 == r2
    requires forall s | s in held :: exists r :: r in holders && reservations[r].spotId == s
    ensures |holders| == |held|
    decreases holders
  {
    if holders != {} {
      var r :| r in holders;
      var s := reservations[r].spotId;
      var holders', held' := holders - {r}, held - {s};
      forall s' | s' in held' ensures exists r' :: r' in holders' && reservations[r'].spotId == s' {
        var r' :| r' in holders && reservations[r'].spotId == s';
        assert r' != r;
      }
      HolderBijection(holders', held', reservations);
    }
  }

  /** In a consistent store, the number of Occupied spots equals the number of active
      reservations. */
  lemma ConsistentCounts(spots: map<Id, Spot>, reservations: map<Id, Reservation>)
    requires Consistent(spots, reservations)
    ensures OccupiedCount(spots) == ActiveCount(reservations)
  {
    var holders, held := ActiveIds(reservations), OccupiedIds(spots);
    forall s | s in held ensures exists r :: r in holders && reservations[r].spotId == s {
      var r :| r in reservations && Active(reservations[r]) && reservations[r].spotId == s;
      assert r in holders;
    }
    HolderBijection(holders, held, reservations);
  }

  // ---------------------------------------------------------------------------------------
  // What reserve, release, spot creation and spot deletion do to the invariant
  // ---------------------------------------------------------------------------------------

  /** Reserving Available spot `sid` under a fresh reservation id keeps the store consistent and
      adds one Occupied spot and one active reservation. */
  lemma ReserveKeepsConsistent(
    spots: map<Id, Spot>, reservations: map<Id, Reservation>,
    sid: Id, rid: Id, userId: Id, vehicleNumber: string, now: Timestamp)
    requires Consistent(spots, reservations)
    requires sid in spots && IsAvailable(spots[sid])
    requires rid !in reservations
    ensures var spots' := spots[sid := Occupy(spots[sid], vehicleNumber, now).value];
      var reservations' := reservations[rid := Reservation(userId, sid, now, None, None, vehicleNumber)];
      && Consistent(spots', reservations')
      && OccupiedCount(spots') == OccupiedCount(spots) + 1
      && ActiveCount(reservations') == ActiveCount(reservations) + 1
  {
    var spots' := spots[sid := Occupy(spots[sid], vehicleNumber, now).value];
    var reservations' := reservations[rid := Reservation(userId, sid, now, None, None, vehicleNumber)];
    UnheldWhenAvailable(spots, reservations, sid);
    ReserveMirrors(spots, reservations, sid, rid, userId, vehicleNumber, now);
    ReserveHeld(spots, reservations, sid, rid, userId, vehicleNumber, now);
    OccupiedAfterUpdate(spots, sid, spots'[sid]);
    ActiveAfterUpdate(reservations, rid, reservations'[rid]);
  }

  /** Replacing one spot row changes the number of Occupied spots by the change of that row. */
  lemma OccupiedAfterUpdate(spots: map<Id, Spot>, sid: Id, s: Spot)
    requires sid in spots
    ensures OccupiedCount(spots[sid := s]) + (if IsAvailable(spots[sid]) then 0 else 1)
      == OccupiedCount(spots) + (if IsAvailable(s) then 0 else 1)
  {
    var before, after := OccupiedIds(spots), OccupiedIds(spots[sid := s]);
    var common := before - {sid};
    assert after - {sid} == common;
    assert |before| == |common| + (if IsAvailable(spots[sid]) then 0 else 1) by {
      if !IsAvailable(spots[sid]) { assert before == common + {sid}; } else { assert before == common; }
    }
    assert |after| == |common| + (if IsAvailable(s) then 0 else 1) by {
      if !IsAvailable(s) { assert after == common + {sid}; } else { assert after == common; }
    }
  }

  /** Storing one reservation row changes the number of active reservations by the change of that
      row. */
  lemma ActiveAfterUpdate(reservations: map<Id, Reservation>, rid: Id, r: Reservation)
    ensures ActiveCount(reservations[rid := r]) + (if rid in reservations && Active(reservations[rid]) then 1 else 0)
      == ActiveCount(reservations) + (if Active(r) then 1 else 0)
  {
    var before, after := ActiveIds(reservations), ActiveIds(reservations[rid := r]);
    var common := before - {rid};
    assert after - {rid} == common;
    assert |before| == |common| + (if rid in reservations && Active(reservations[rid]) then 1 else 0) by {
      if rid in before { assert before == common + {rid}; } else { assert before == common; }
    }
    assert |after| == |common| + (if Active(r) then 1 else 0) by {
      if Active(r) { assert after == common + {rid}; } else { assert after == common; }
    }
  }

  /** No active reservation holds an Available spot. */
  lemma UnheldWhenAvailable(spots: map<Id, Spot>, reservations: map<Id, Reservation>, sid: Id)
    requires HeldSpotsMirror(spots, reservations)
    requires sid in spots && IsAvailable(spots[sid])
    ensures forall r | r in reservations && Active(reservations[r]) :: reservations[r].spotId != sid
  {
    forall r | r in reservations && Active(reservations[r]) ensures reservations[r].spotId != sid {
      assert Mirrors(spots[reservations[r].spotId], reservations[r]);
    }
  }

  lemma ReserveMirrors(
    spots: map<Id, Spot>, reservations: map<Id, Reservation>,
    sid: Id, rid: Id, userId: Id, vehicleNumber: string, now: Timestamp)
    requires HeldSpotsMirror(spots, reservations) && SingleHolder(reservations)
    requires sid in spots && IsAvailable(spots[sid])
    requires rid !in reservations
    requires forall r | r in reservations && Active(reservations[r]) :: reservations[r].spotId != sid
    ensures var spots' := spots[sid := Occupy(spots[sid], vehicleNumber, now).value];
      var reservations' := reservations[rid := Reservation(userId, sid, now, None, None, vehicleNumber)];
      HeldSpotsMirror(spots', reservations') && SingleHolder(reservations')
  {
    var spots' := spots[sid := Occupy(spots[sid], vehicleNumber, now).value];
    var reservations' := reservations[rid := Reservation(userId, sid, now, None, None, vehicleNumber)];
    forall r | r in reservations' && Active(reservations'[r])
      ensures reservations'[r].spotId in spots' && Mirrors(spots'[reservations'[r].spotId], reservations'[r])
    {
      if r != rid {
        assert reservations'[r] == reservations[r];
      }
    }
  }

  lemma ReserveHeld(
    spots: map<Id, Spot>, reservations: map<Id, Reservation>,
    sid: Id, rid: Id, userId: Id, vehicleNumber: string, now: Timestamp)
    requires OccupiedHeld(spots, reservations)
    requires sid in spots && IsAvailable(spots[sid])
    requires rid !in reservations
    ensures var spots' := spots[sid := Occupy(spots[sid], vehicleNumber, now).value];
      var reservations' := reservations[rid := Reservation(userId, sid, now, None, None, vehicleNumber)];
      OccupiedHeld(spots', reservations')
  {
    var spots' := spots[sid := Occupy(spots[sid], vehicleNumber, now).value];
    var booking := Reservation(userId, sid, now, None, None, vehicleNumber);
    var reservations' := reservations[rid := booking];
    forall s | s in spots'
      ensures if IsAvailable(spots'[s]) then spots'[s].vehicleNumber.None? && spots'[s].reservedAt.None?
        else exists r :: r in reservations' && Active(reservations'[r]) && reservations'[r].spotId == s
    {
      if s == sid {
        assert reservations'[rid] == booking;
      } else if !IsAvailable(spots[s]) {
        var r :| r in reservations && Active(reservations[r]) && reservations[r].spotId == s;
        assert reservations'[r] == reservations[r];
      }
    }
  }

  /** Finalizing active reservation `rid` and releasing its spot keeps the store consistent and
      removes one Occupied spot and one active reservation; the release cannot fail. */
  lemma ReleaseKeepsConsistent(
    spots: map<Id, Spot>, reservations: map<Id, Reservation>,
    rid: Id, leaving: Timestamp, pricePerHour: real)
    requires Consistent(spots, reservations)
    requires rid in reservations && Active(reservations[rid])
    ensures reservations[rid].spotId in spots && Release(spots[reservations[rid].spotId]).Ok?
    ensures var sid := reservations[rid].spotId;
      var spots' := spots[sid := Release(spots[sid]).value];
      var reservations' := reservations[rid := Finalized(reservations[rid], leaving, pricePerHour)];
      && Consistent(spots', reservations')
      && OccupiedCount(spots') + 1 == OccupiedCount(spots)
      && ActiveCount(reservations') + 1 == ActiveCount(reservations)
  {
    var sid := reservations[rid].spotId;
    var spots' := spots[sid := Release(spots[sid]).value];
    var reservations' := reservations[rid := Finalized(reservations[rid], leaving, pricePerHour)];
    forall s | s in spots' && !IsAvailable(spots'[s])
      ensures exists r :: r in reservations' && Active(reservations'[r]) && reservations'[r].spotId == s
    {
      var r :| r in reservations && Active(reservations[r]) && reservations[r].spotId == s;
      assert r != rid;
      assert reservations'[r] == reservations[r];
    }
    assert OccupiedIds(spots') == OccupiedIds(spots) - {sid};
    assert ActiveIds(reservations') == ActiveIds(reservations) - {rid};
  }

  /** Adding fresh spot rows, each Available with no vehicle, keeps the store consistent and the
      number of Occupied spots. */
  lemma AddSpotsKeepsConsistent(spots: map<Id, Spot>, reservations: map<Id, Reservation>, added: map<Id, Spot>)
    requires Consistent(spots, reservations)
    requires forall id | id in added ::
      (id !in spots && IsAvailable(added[id]) && added[id].vehicleNumber.None? && added[id].reservedAt.None?)
    ensures Consistent(spots + added, reservations)
    ensures OccupiedCount(spots + added) == OccupiedCount(spots)
  {
    assert OccupiedIds(spots + added) == OccupiedIds(spots);
  }

  /** Deleting Available spots together with their reservations keeps the store consistent and
      both counts. */
  lemma RemoveSpotsKeepsConsistent(spots: map<Id, Spot>, reservations: map<Id, Reservation>, ids: set<Id>)
    requires Consistent(spots, reservations)
    requires forall id | id in ids && id in spots :: IsAvailable(spots[id])
    ensures Consistent(WithoutSpots(spots, ids), WithoutReservationsOf(reservations, ids))
    ensures OccupiedCount(WithoutSpots(spots, ids)) == OccupiedCount(spots)
    ensures ActiveCount(WithoutReservationsOf(reservations, ids)) == ActiveCount(reservations)
  {
    var spots', reservations' := WithoutSpots(spots, ids), WithoutReservationsOf(reservations, ids);
    forall s | s in spots' && !IsAvailable(spots'[s])
      ensures exists r :: r in reservations' && Active(reservations'[r]) && reservations'[r].spotId == s
    {
      var r :| r in reservations && Active(reservations[r]) && reservations[r].spotId == s;
      assert r in reservations';
    }
    assert OccupiedIds(spots') == OccupiedIds(spots);
    assert ActiveIds(reservations') == ActiveIds(reservations);
  }

  /** Inserting rows under fresh ids whose labels repeat neither each other (within a lot) nor a
      stored label of their lot keeps the labels of every lot unique. */
  lemma AddSpotsKeepsLabelsUnique(spots: map<Id, Spot>, added: map<Id, Spot>)
    requires LabelsUnique(spots) && LabelsUnique(added)
    requires forall id | id in added :: id !in spots
    requires !Clashes(spots, added)
    ensures LabelsUnique(spots + added)
  {
    var all := spots + added;
    forall a, b | a in all && b in all && all[a].lotId == all[b].lotId && all[a].spotNumber == all[b].spotNumber
      ensures a == b
    {
    }
  }

  /** Inserting fresh Available spot rows of stored lots, whose labels clash neither with each other
      nor with the stored labels of their lot, keeps the invariant. */
  lemma AddSpotsKeepsInvariant(db: Db, added: map<Id, Spot>)
    requires Invariant(db)
    requires forall id | id in added ::
      (id !in db.spots && added[id].lotId in db.lots && IsAvailable(added[id])
        && added[id].vehicleNumber.None? && added[id].reservedAt.None?)
    requires LabelsUnique(added) && !Clashes(db.spots, added)
    ensures Invariant(db.(spots := db.spots + added))
  {
    AddSpotsKeepsConsistent(db.spots, db.reservations, added);
    AddSpotsKeepsLabelsUnique(db.spots, added);
  }

  /** Deleting Available spots, with the reservations that cascade from them, keeps the
      invariant. */
  lemma RemoveSpotsKeepsInvariant(db: Db, ids: set<Id>)
    requires Invariant(db)
    requires forall id | id in ids && id in db.spots :: IsAvailable(db.spots[id])
    ensures Invariant(db.(spots := WithoutSpots(db.spots, ids), reservations := WithoutReservationsOf(db.reservations, ids)))
  {
    RemoveSpotsKeepsConsistent(db.spots, db.reservations, ids);
  }

  /** Rewriting the columns of a stored lot keeps the invariant. */
  lemma UpdateLotKeepsInvariant(db: Db, lotId: Id, lot: Lot)
    requires Invariant(db) && lotId in db.lots
    ensures Invariant(db.(lots := db.lots[lotId := lot]))
  {
  }

  /** Deleting a lot whose spots are all Available, with its spots and their reservations, keeps the
      invariant. */
  lemma RemoveLotKeepsInvariant(db: Db, lotId: Id)
    requires Invariant(db)
    requires OccupiedIn(db.spots, lotId) == {}
    ensures var ids := LotSpotIds(db.spots, lotId);
      Invariant(Db(db.lots - {lotId}, WithoutSpots(db.spots, ids), WithoutReservationsOf(db.reservations, ids), db.users))
  {
    var ids := LotSpotIds(db.spots, lotId);
    forall id | id in ids && id in db.spots ensures IsAvailable(db.spots[id]) {
      assert id !in OccupiedIn(db.spots, lotId);
    }
    RemoveSpotsKeepsConsistent(db.spots, db.reservations, ids);
  }

  // ---------------------------------------------------------------------------------------
  // Spots per lot under inserts and deletes
  // ---------------------------------------------------------------------------------------

  /** Deleting spots of lot `lotId` takes them out of that lot and leaves every other lot alone. */
  lemma LotSpotIdsWithout(spots: map<Id, Spot>, ids: set<Id>, lotId: Id, lid: Id)
    requires forall id | id in ids :: id in spots && spots[id].lotId == lotId
    ensures LotSpotIds(WithoutSpots(spots, ids), lid)
      == if lid == lotId then LotSpotIds(spots, lid) - ids else LotSpotIds(spots, lid)
  {
  }

  /** Inserting new spots of lot `lotId` adds them to that lot and leaves every other lot alone. */
  lemma LotSpotIdsPlus(spots: map<Id, Spot>, added: map<Id, Spot>, lotId: Id, lid: Id)
    requires forall id | id in added :: id !in spots && added[id].lotId == lotId
    ensures LotSpotIds(spots + added, lid)
      == if lid == lotId then LotSpotIds(spots, lid) + added.Keys else LotSpotIds(spots, lid)
    ensures LotSpotIds(spots, lid) !! added.Keys
  {
  }

  /** Storing lot `lotId` with a new row keeps every lot reconciled when the spot rows of the other
      lots are untouched and that lot has as many rows as its new count says. */
  lemma ReconciledAfterResize(lots: map<Id, Lot>, spots: map<Id, Spot>, spots': map<Id, Spot>, lotId: Id, lot: Lot)
    requires Reconciled(lots, spots)
    requires forall lid | lid in lots && lid != lotId :: LotSpotIds(spots', lid) == LotSpotIds(spots, lid)
    requires |LotSpotIds(spots', lotId)| == if lot.numberOfSpots < 0 then 0 else lot.numberOfSpots
    ensures Reconciled(lots[lotId := lot], spots')
  {
  }

  /** Deleting `ids`, all spots of lot `lotId`, from a reconciled table and storing the lot with its
      count lowered by their number keeps every lot reconciled. */
  lemma ShrinkKeepsReconciled(lots: map<Id, Lot>, spots: map<Id, Spot>, lotId: Id, lot: Lot, ids: set<Id>)
    requires Reconciled(lots, spots) && lotId in lots
    requires forall id | id in ids :: id in spots && spots[id].lotId == lotId
    requires 0 <= lot.numberOfSpots == lots[lotId].numberOfSpots - |ids|
    ensures Reconciled(lots[lotId := lot], WithoutSpots(spots, ids))
  {
    forall lid | lid in lots
      ensures LotSpotIds(WithoutSpots(spots, ids), lid)
        == if lid == lotId then LotSpotIds(spots, lid) - ids else LotSpotIds(spots, lid)
    {
      LotSpotIdsWithout(spots, ids, lotId, lid);
    }
    assert ids <= LotSpotIds(spots, lotId);
    ReconciledAfterResize(lots, spots, WithoutSpots(spots, ids), lotId, lot);
  }

  /** Inserting new spots of lot `lotId` into a reconciled table and storing the lot with its count
      raised by their number keeps every lot reconciled. */
  lemma GrowKeepsReconciled(lots: map<Id, Lot>, spots: map<Id, Spot>, lotId: Id, lot: Lot, added: map<Id, Spot>)
    requires Reconciled(lots, spots)
    requires forall id | id in added :: id !in spots && added[id].lotId == lotId
    requires lot.numberOfSpots == |LotSpotIds(spots, lotId)| + |added.Keys|
    ensures Reconciled(lots[lotId := lot], spots + added)
  {
    forall lid | lid in lots
      ensures LotSpotIds(spots + added, lid)
        == if lid == lotId then LotSpotIds(spots, lid) + added.Keys else LotSpotIds(spots, lid)
    {
      LotSpotIdsPlus(spots, added, lotId, lid);
    }
    LotSpotIdsPlus(spots, added, lotId, lotId);
    ReconciledAfterResize(lots, spots, spots + added, lotId, lot);
  }

  /** The rows `create_spots` plans from an id above every stored one are new spots of their lot,
      `count` of them. */
  lemma NewSpotsFresh(spots: map<Id, Spot>, lotId: Id, prefix: string, first: Id, from: nat, count: nat)
    requires forall id | id in spots :: id < first
    ensures var added := NewSpots(lotId, prefix, first, from, count);
      && (forall id | id in added :: id !in spots && added[id].lotId == lotId)
      && |added.Keys| == count
  {
    NewSpotsRows(lotId, prefix, first, from, count);
    NewSpotsCount(lotId, prefix, first, from, count);
  }

  /** Reserving Available spot `sid` for a stored user under a fresh reservation id keeps the
      invariant, and adds one Occupied spot and one active reservation. */
  lemma ReserveKeepsInvariant(db: Db, sid: Id, rid: Id, userId: Id, vehicleNumber: string, now: Timestamp)
    requires Invariant(db)
    requires sid in db.spots && IsAvailable(db.spots[sid]) && rid !in db.reservations && userId in db.users
    ensures var db' := db.(spots := db.spots[sid := Occupy(db.spots[sid], vehicleNumber, now).value],
        reservations := db.reservations[rid := Reservation(userId, sid, now, None, None, vehicleNumber)]);
      && Invariant(db')
      && OccupiedCount(db'.spots) == OccupiedCount(db.spots) + 1
      && ActiveCount(db'.reservations) == ActiveCount(db.reservations) + 1
  {
    ReserveKeepsConsistent(db.spots, db.reservations, sid, rid, userId, vehicleNumber, now);
  }

  /** Finalizing active reservation `rid` and releasing its spot keeps the invariant, and removes
      one Occupied spot and one active reservation. */
  lemma ReleaseKeepsInvariant(db: Db, rid: Id, leaving: Timestamp, pricePerHour: real)
    requires Invariant(db)
    requires rid in db.reservations && Active(db.reservations[rid])
    ensures var sid := db.reservations[rid].spotId;
      && sid in db.spots && !IsAvailable(db.spots[sid]) && db.spots[sid].lotId in db.lots
      && var db' := db.(spots := db.spots[sid := Release(db.spots[sid]).value],
           reservations := db.reservations[rid := Finalized(db.reservations[rid], leaving, pricePerHour)]);
      && Invariant(db')
      && OccupiedCount(db'.spots) + 1 == OccupiedCount(db.spots)
      && ActiveCount(db'.reservations) + 1 == ActiveCount(db.reservations)
  {
    ReleaseKeepsConsistent(db.spots, db.reservations, rid, leaving, pricePerHour);
    assert Mirrors(db.spots[db.reservations[rid].spotId], db.reservations[rid]);
  }
}
