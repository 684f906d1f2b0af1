/** The lot registry, backend/cntrlrs/parkinglot_apis.py: `ParkingLotAPI.get` (one lot with its
    spots, or all lots), `post` (create a lot and its spots), `put` (partial update and resize) and
    `delete` (refused while a spot is Occupied, otherwise cascading to spots and reservations). */
module LotApi {
  import opened Wrappers
  import opened Decimal
  import opened Model
  import opened Tables
  import opened Api
  import opened Store
  import Ordering

  /** The JSON body of `POST /lots` and `PUT /lots/<id>`: each field absent (`None`) or given.
      `number_of_spots` is kept as the text `int()` reads, so a non-numeric value can be told apart. */
  datatype LotPayload = LotPayload(
    name: Option<string>,
    address: Option<string>,
    pinCode: Option<string>,
    pricePerHour: Option<real>,
    numberOfSpots: Option<string>)

  const RequiredMessage := "prime_location_name, address and pin_code required"
  const NotFoundMessage := "Parking lot not found"
  const NegativeMessage := "number_of_spots must be >= 0"
  const ReduceMessage := "Cannot reduce spots: some spots are occupied"
  const DeleteMessage := "Cannot delete lot: some spots are occupied"

  /** The prefix of the labels `create_spots` gives. */
  const Prefix := "S"

  // ---------------------------------------------------------------------------------------
  // Get
  // ---------------------------------------------------------------------------------------

  /** What `GET /lots[/<id>]` answers: one lot with the ids of its spots, or the ids of all lots. */
  datatype Listing = LotDetail(id: Id, lot: Lot, spotIds: seq<Id>) | LotList(lotIds: seq<Id>)

  /** `ParkingLotAPI.get(lot_id)`: id 0 (falsy, as when no id is given) lists every lot; another id
      is looked up and answered with the lot and its spots, or 404. Rows come in id order. */
  ghost function Get(db: Db, lotId: Id): (r: Result<Listing, ApiError>)
    ensures r.Err? <==> lotId != 0 && lotId !in db.lots
    ensures r.Err? ==> r.error == ApiError(404, NotFoundMessage)
    ensures r.Ok? && lotId == 0 ==>
      && r.value.LotList?
      && (forall id :: id in r.value.lotIds <==> id in db.lots)
      && Ordering.StrictlyIncreasing(r.value.lotIds)
    ensures r.Ok? && lotId != 0 ==>
      && r.value.LotDetail? && r.value.id == lotId && r.value.lot == db.lots[lotId]
      && (forall id :: id in r.value.spotIds <==> id in db.spots && db.spots[id].lotId == lotId)
      && Ordering.StrictlyIncreasing(r.value.spotIds)
  {
    if lotId != 0 then
      if lotId !in db.lots then Err(ApiError(404, NotFoundMessage))
      else Ok(LotDetail(lotId, db.lots[lotId], Ordering.SortedAsc(LotSpotIds(db.spots, lotId))))
    else
      Ok(LotList(Ordering.SortedAsc(db.lots.Keys)))
  }

  // ---------------------------------------------------------------------------------------
  // Post
  // ---------------------------------------------------------------------------------------

  /** `int(payload.get("number_of_spots", 0))`: an absent count reads as 0; `None` is a failed
      conversion. */
  function RequestedCount(text: Option<string>): (n: Option<int>)
    ensures text.None? ==> n == Some(0)
    ensures text.Some? ==> n == ParseInt(text.value)
  {
    if text.None? then Some(0) else ParseInt(text.value)
  }

  /** The name, address and pin code of a new lot must all be present and non-empty. */
  predicate MissingRequired(payload: LotPayload) {
    Missing(payload.name, "") || Missing(payload.address, "") || Missing(payload.pinCode, "")
  }

  /** Every spot of a lot no stored spot refers to is new: the lot has no spots, the rows
      `create_spots` plans are `S1` .. `Sn`, and they clash with nothing. */
  lemma FreshLotSpots(spots: map<Id, Spot>, lotId: Id, n: int, first: Id)
    requires forall id | id in spots :: spots[id].lotId != lotId
    ensures PlannedSpots(spots, lotId, n, Prefix, first) == NewSpots(lotId, Prefix, first, 1, CreateCount(1, n))
    ensures !Clashes(spots, PlannedSpots(spots, lotId, n, Prefix, first))
  {
    assert LotSpotIds(spots, lotId) == {};
    var added := NewSpots(lotId, Prefix, first, 1, CreateCount(1, n));
    assert PlannedSpots(spots, lotId, n, Prefix, first) == added;
    NewSpotsRows(lotId, Prefix, first, 1, CreateCount(1, n));
    forall a, b | a in spots && b in added ensures spots[a].lotId != added[b].lotId {
      assert added[b].lotId == lotId;
    }
  }

  /** `ParkingLotAPI.post`: convert the count (a failed conversion raises: 500), require name,
      address and pin code (400), store the lot under the next id and create its spots S1 .. Sn. */
  method Post(st: Store, payload: LotPayload) returns (r: Result<Id, ApiError>)
    requires st.Valid() && Invariant(st.State())
    modifies st
    ensures st.Valid() && Invariant(st.State())
    ensures var n := RequestedCount(payload.numberOfSpots);
      if n.None? then r == Err(InternalError) && st.State() == old(st.State())
      else if MissingRequired(payload) then
        r == Err(ApiError(400, RequiredMessage)) && st.State() == old(st.State())
      else
        var lot := Lot(payload.name.value, payload.address.value, payload.pinCode.value,
          if payload.pricePerHour.Some? then payload.pricePerHour.value else 0.0, n.value);
        && r == Ok(old(st.nextLotId)) && r.value !in old(st.lots)
        && st.lots == old(st.lots)[r.value := lot]
        && st.spots == old(st.spots) + NewSpots(r.value, Prefix, old(st.nextSpotId), 1, CreateCount(1, n.value))
        && st.reservations == old(st.reservations) && st.users == old(st.users)
  {
    var n := RequestedCount(payload.numberOfSpots);
    if n.None? {
      return Err(InternalError);
    }
    if MissingRequired(payload) {
      return Err(ApiError(400, RequiredMessage));
    }
    var lot := Lot(payload.name.value, payload.address.value, payload.pinCode.value,
      if payload.pricePerHour.Some? then payload.pricePerHour.value else 0.0, n.value);
    var id := st.nextLotId;
    ghost var before := st.State();
    st.lots := st.lots[id := lot];
    st.nextLotId := id + 1;
    assert Invariant(st.State());
    FreshLotSpots(st.spots, id, n.value, st.nextSpotId);
    ghost var added := NewSpots(id, Prefix, st.nextSpotId, 1, CreateCount(1, n.value));
    var created := st.CreateSpots(id, Prefix);
    r := Ok(id);
    assert st.spots == before.spots + added;
  }

  // ---------------------------------------------------------------------------------------
  // Put
  // ---------------------------------------------------------------------------------------

  /** The lot with each present field of the payload written over it (the count is handled
      apart). */
  function Patched(lot: Lot, payload: LotPayload): (p: Lot)
    ensures p.name == if payload.name.Some? then payload.name.value else lot.name
    ensures p.address == if payload.address.Some? then payload.address.value else lot.address
    ensures p.pinCode == if payload.pinCode.Some? then payload.pinCode.value else lot.pinCode
    ensures p.pricePerHour == if payload.pricePerHour.Some? then payload.pricePerHour.value else lot.pricePerHour
    ensures p.numberOfSpots == lot.numberOfSpots
  {
    var l1 := if payload.name.Some? then lot.(name := payload.name.value) else lot;
    var l2 := if payload.address.Some? then l1.(address := payload.address.value) else l1;
    var l3 := if payload.pinCode.Some? then l2.(pinCode := payload.pinCode.value) else l2;
    if payload.pricePerHour.Some? then l3.(pricePerHour := payload.pricePerHour.value) else l3
  }

  /** The spots a shrink by `d` deletes: the `d` Available spots of the lot with the highest ids. */
  ghost function ShrinkVictims(spots: map<Id, Spot>, lotId: Id, d: nat): set<Id>
    requires d <= |AvailableIn(spots, lotId)|
  {
    Ordering.Elems(ShrinkOrder(spots, lotId)[..d])
  }

  /** A shrink by `d` deletes exactly `d` spots, all Available spots of the lot, and no Available
      spot of the lot it keeps has a higher id than one it deletes. */
  lemma ShrinkVictimsShape(spots: map<Id, Spot>, lotId: Id, d: nat)
    requires d <= |AvailableIn(spots, lotId)|
    ensures var v := ShrinkVictims(spots, lotId, d);
      && |v| == d
      && (forall id | id in v :: id in AvailableIn(spots, lotId))
      && (forall a, b | a in v && b in AvailableIn(spots, lotId) - v :: b < a)
  {
    var avail := AvailableIn(spots, lotId);
    var order := ShrinkOrder(spots, lotId);
    var prefix := order[..d];
    assert Ordering.Distinct(prefix);
    Ordering.DistinctCard(prefix);
    forall a, b | a in ShrinkVictims(spots, lotId, d) && b in avail - ShrinkVictims(spots, lotId, d) ensures b < a {
      Ordering.DecreasingPrefix(order, d, a, b);
    }
  }

  /** The deletion loop of a shrink: the Available spots of the lot, highest id first, are
      deletable; the first `d` of them are deleted, each with the reservations that cascade from
      it. Returns the spot and reservation tables that are left. */
  method DeleteHighestAvailable(spots0: map<Id, Spot>, reservations0: map<Id, Reservation>, lotId: Id, d: nat)
    returns (spots: map<Id, Spot>, reservations: map<Id, Reservation>)
    requires d <= |AvailableIn(spots0, lotId)|
    ensures spots == WithoutSpots(spots0, ShrinkVictims(spots0, lotId, d))
    ensures reservations == WithoutReservationsOf(reservations0, ShrinkVictims(spots0, lotId, d))
  {
    spots, reservations := spots0, reservations0;
    var deletable := AvailableIn(spots, lotId);
    ghost var order := ShrinkOrder(spots, lotId);
    ghost var removed: set<Id> := {};
    var j := 0;
    while j < d
      invariant j <= d
      invariant removed == Ordering.Elems(order[..j])
      invariant spots == WithoutSpots(spots0, removed)
      invariant reservations == WithoutReservationsOf(reservations0, removed)
      invariant Ordering.SortedDesc(deletable) == order[j..]
    {
      RestNonEmpty(deletable, order, j);
      var m := Highest(deletable);
      DeleteStep(spots0, reservations0, deletable, order, removed, j, m);
      spots := spots - {m};
      reservations := WithoutReservationsOf(reservations, {m});
      deletable := deletable - {m};
      removed := removed + {m};
      j := j + 1;
    }
  }

  /** The Available spots of a lot, highest id first: the order `put` deletes them in. */
  ghost function ShrinkOrder(spots: map<Id, Spot>, lotId: Id): (r: seq<Id>)
    ensures |r| == |AvailableIn(spots, lotId)|
  {
    Ordering.SortedDesc(AvailableIn(spots, lotId))
  }

  /** One turn of the deletion loop: the highest id still deletable is the next one of the order,
      and the ids after it are the rest of the order. */
  lemma NextDeleted(deletable: set<Id>, order: seq<Id>, j: nat, m: Id)
    requires j < |order| && Ordering.SortedDesc(deletable) == order[j..]
    requires m in deletable && forall x | x in deletable :: x <= m
    ensures order[j] == m && Ordering.SortedDesc(deletable - {m}) == order[j + 1..]
  {
    Ordering.SortedDescFirst(deletable, m);
    assert order[j..][0] == order[j] && order[j..][1..] == order[j + 1..];
  }

  /** The highest id of a non-empty set of ids. */
  method Highest(s: set<Id>) returns (m: Id)
    requires s != {}
    ensures m in s && forall x | x in s :: x <= m
  {
    ghost var top := Ordering.Max(s);
    m :| m in s && forall x | x in s :: x <= m;
  }

  /** While the order has positions left, some spot is still deletable. */
  lemma RestNonEmpty(deletable: set<Id>, order: seq<Id>, j: nat)
    requires j < |order| && Ordering.SortedDesc(deletable) == order[j..]
    ensures deletable != {}
  {
    assert |Ordering.SortedDesc(deletable)| == |deletable|;
  }

  /** One turn of the deletion loop, all told: the next order position is deleted, and the
      tables left are those without one more spot. */
  lemma DeleteStep(spots: map<Id, Spot>, reservations: map<Id, Reservation>, deletable: set<Id>, order: seq<Id>,
                   removed: set<Id>, j: nat, m: Id)
    requires j < |order| && Ordering.SortedDesc(deletable) == order[j..] && removed == Ordering.Elems(order[..j])
    requires m in deletable && forall x | x in deletable :: x <= m
    ensures Ordering.SortedDesc(deletable - {m}) == order[j + 1..]
    ensures removed + {m} == Ordering.Elems(order[..j + 1])
    ensures WithoutSpots(spots, removed) - {m} == WithoutSpots(spots, removed + {m})
    ensures WithoutReservationsOf(WithoutReservationsOf(reservations, removed), {m})
      == WithoutReservationsOf(reservations, removed + {m})
  {
    NextDeleted(deletable, order, j, m);
    Ordering.ElemsSnoc(order, j);
    ShrinkStep(spots, reservations, removed, m);
  }

  /** Deleting one more spot after a set of spots is deleting the union. */
  lemma ShrinkStep(spots: map<Id, Spot>, reservations: map<Id, Reservation>, removed: set<Id>, m: Id)
    ensures WithoutSpots(spots, removed) - {m} == WithoutSpots(spots, removed + {m})
    ensures WithoutReservationsOf(WithoutReservationsOf(reservations, removed), {m})
      == WithoutReservationsOf(reservations, removed + {m})
  {
  }

  /** A handler's answer together with the tables it leaves behind. */
  datatype Outcome = Outcome(result: Result<Id, ApiError>, db: Db)

  /** What `ParkingLotAPI.put(lot_id)` answers and stores. An unknown lot is 404. The present
      fields are written over the lot. A present count is converted (a failure raises: 500), must
      not be negative (400), and resizes the lot. */
  ghost function PutOutcome(db: Db, nextSpotId: Id, lotId: Id, payload: LotPayload): Outcome
  {
    if lotId !in db.lots then Outcome(Err(ApiError(404, NotFoundMessage)), db)
    else
      var patched := Patched(db.lots[lotId], payload);
      if payload.numberOfSpots.None? then Outcome(Ok(lotId), db.(lots := db.lots[lotId := patched]))
      else
        var parsed := ParseInt(payload.numberOfSpots.value);
        if parsed.None? then Outcome(Err(InternalError), db)
        else if parsed.value < 0 then Outcome(Err(ApiError(400, NegativeMessage)), db)
        else ResizeOutcome(db, nextSpotId, lotId, patched, parsed.value)
  }

  /** The resize of `put`, measured against the STORED count of the lot. A smaller count deletes
      that many fewer spots, highest-id Available ones first, or is refused (400) when the lot has
      too few Available spots. A larger count is committed with the other fields and then grows
      the lot through `create_spots`, whose label clash ends the request in a 500 with the lot row
      already committed. */
  ghost function ResizeOutcome(db: Db, nextSpotId: Id, lotId: Id, patched: Lot, newCount: nat): Outcome
    requires lotId in db.lots
  {
    var current := db.lots[lotId].numberOfSpots;
    var resized := db.(lots := db.lots[lotId := patched.(numberOfSpots := newCount)]);
    if newCount < current then
      if |AvailableIn(db.spots, lotId)| < current - newCount then
        Outcome(Err(ApiError(400, ReduceMessage)), db)
      else
        var victims := ShrinkVictims(db.spots, lotId, current - newCount);
        Outcome(Ok(lotId), resized.(spots := WithoutSpots(db.spots, victims),
          reservations := WithoutReservationsOf(db.reservations, victims)))
    else if newCount == current then Outcome(Ok(lotId), resized)
    else
      var added := PlannedSpots(db.spots, lotId, newCount, Prefix, nextSpotId);
      if Clashes(db.spots, added) then Outcome(Err(InternalError), resized)
      else Outcome(Ok(lotId), resized.(spots := db.spots + added))
  }

  /** `ParkingLotAPI.put(lot_id)`. */
  method Put(st: Store, lotId: Id, payload: LotPayload) returns (r: Result<Id, ApiError>)
    requires st.Valid() && Invariant(st.State())
    modifies st
    ensures st.Valid() && Invariant(st.State())
    ensures Outcome(r, st.State()) == PutOutcome(old(st.State()), old(st.nextSpotId), lotId, payload)
  {
    if lotId !in st.lots {
      return Err(ApiError(404, NotFoundMessage));
    }
    var patched := Patched(st.lots[lotId], payload);
    if payload.numberOfSpots.None? {
      UpdateLotKeepsInvariant(st.State(), lotId, patched);
      st.lots := st.lots[lotId := patched];
      return Ok(lotId);
    }
    var parsed := ParseInt(payload.numberOfSpots.value);
    if parsed.None? {
      return Err(InternalError);
    }
    if parsed.value < 0 {
      return Err(ApiError(400, NegativeMessage));
    }
    r := Resize(st, lotId, patched, parsed.value);
  }

  /** The resize part of `put` (backend/cntrlrs/parkinglot_apis.py:85-101). */
  method Resize(st: Store, lotId: Id, patched: Lot, newCount: nat) returns (r: Result<Id, ApiError>)
    requires st.Valid() && Invariant(st.State()) && lotId in st.lots
    modifies st
    ensures st.Valid() && Invariant(st.State())
    ensures Outcome(r, st.State()) == ResizeOutcome(old(st.State()), old(st.nextSpotId), lotId, patched, newCount)
  {
    if newCount < st.lots[lotId].numberOfSpots {
      r := Shrink(st, lotId, patched, newCount);
    } else {
      r := Grow(st, lotId, patched, newCount);
    }
  }

  /** A resize below the stored count. */
  method Shrink(st: Store, lotId: Id, patched: Lot, newCount: nat) returns (r: Result<Id, ApiError>)
    requires st.Valid() && Invariant(st.State()) && lotId in st.lots
    requires newCount < st.lots[lotId].numberOfSpots
    modifies st
    ensures st.Valid() && Invariant(st.State())
    ensures Outcome(r, st.State()) == ResizeOutcome(old(st.State()), old(st.nextSpotId), lotId, patched, newCount)
  {
    var d := st.lots[lotId].numberOfSpots - newCount;
    if |AvailableIn(st.spots, lotId)| < d {
      return Err(ApiError(400, ReduceMessage));
    }
    ShrinkKeepsInvariant(st.State(), lotId, patched.(numberOfSpots := newCount), d);
    ShrinkOutcomeOf(st.State(), st.nextSpotId, lotId, patched, newCount, ShrinkVictims(st.spots, lotId, d));
    st.spots, st.reservations := DeleteHighestAvailable(st.spots, st.reservations, lotId, d);
    st.lots := st.lots[lotId := patched.(numberOfSpots := newCount)];
    r := Ok(lotId);
  }

  /** Deleting the victims of a shrink and rewriting the lot keeps the invariant. */
  lemma ShrinkKeepsInvariant(db: Db, lotId: Id, lot: Lot, d: nat)
    requires Invariant(db) && lotId in db.lots && d <= |AvailableIn(db.spots, lotId)|
    ensures var victims := ShrinkVictims(db.spots, lotId, d);
      Invariant(Db(db.lots[lotId := lot], WithoutSpots(db.spots, victims),
        WithoutReservationsOf(db.reservations, victims), db.users))
  {
    var victims := ShrinkVictims(db.spots, lotId, d);
    assert forall id | id in victims && id in db.spots :: IsAvailable(db.spots[id]) by {
      ShrinkVictimsShape(db.spots, lotId, d);
    }
    RemoveSpotsKeepsInvariant(db, victims);
    var shrunk := db.(spots := WithoutSpots(db.spots, victims), reservations := WithoutReservationsOf(db.reservations, victims));
    UpdateLotKeepsInvariant(shrunk, lotId, lot);
  }

  /** A resize to the stored count or above it. */
  method Grow(st: Store, lotId: Id, patched: Lot, newCount: nat) returns (r: Result<Id, ApiError>)
    requires st.Valid() && Invariant(st.State()) && lotId in st.lots
    requires newCount >= st.lots[lotId].numberOfSpots
    modifies st
    ensures st.Valid() && Invariant(st.State())
    ensures Outcome(r, st.State()) == ResizeOutcome(old(st.State()), old(st.nextSpotId), lotId, patched, newCount)
  {
    var current := st.lots[lotId].numberOfSpots;
    UpdateLotKeepsInvariant(st.State(), lotId, patched.(numberOfSpots := newCount));
    st.lots := st.lots[lotId := patched.(numberOfSpots := newCount)];
    r := Ok(lotId);
    if newCount > current {
      var created := st.CreateSpots(lotId, Prefix);
      if created.Err? {
        r := Err(created.error);
      }
    }
  }

  /** `put` answers 404 exactly for an unknown lot. A refusal changes nothing; the one 500 that
      leaves a trace is a failed grow, which has stored the lot row but no spot. */
  lemma PutRefusals(db: Db, nextSpotId: Id, lotId: Id, payload: LotPayload)
    ensures var o := PutOutcome(db, nextSpotId, lotId, payload);
      && (o.result == Err(ApiError(404, NotFoundMessage)) <==> lotId !in db.lots)
      && (o.result.Err? && o.result.error.code != 500 ==> o.db == db)
      && (o.result.Err? ==>
            o.db.spots == db.spots && o.db.reservations == db.reservations
            && o.db.users == db.users && o.db.lots.Keys == db.lots.Keys)
  {
  }

  /** A successful `put` rewrites only lot `lotId`, and only the fields the payload carries; a
      carried count is stored as converted, and it is not negative. */
  lemma PutWritesPayload(db: Db, nextSpotId: Id, lotId: Id, payload: LotPayload)
    ensures var o := PutOutcome(db, nextSpotId, lotId, payload);
      o.result.Ok? ==>
        && lotId in db.lots && o.db.lots.Keys == db.lots.Keys
        && (forall id | id in db.lots && id != lotId :: o.db.lots[id] == db.lots[id])
        && var before, after := db.lots[lotId], o.db.lots[lotId];
        && after.name == (if payload.name.Some? then payload.name.value else before.name)
        && after.address == (if payload.address.Some? then payload.address.value else before.address)
        && after.pinCode == (if payload.pinCode.Some? then payload.pinCode.value else before.pinCode)
        && after.pricePerHour == (if payload.pricePerHour.Some? then payload.pricePerHour.value else before.pricePerHour)
        && (payload.numberOfSpots.None? ==> after.numberOfSpots == before.numberOfSpots && o.db.spots == db.spots)
        && (payload.numberOfSpots.Some? ==>
              ParseInt(payload.numberOfSpots.value) == Some(after.numberOfSpots) && after.numberOfSpots >= 0)
  {
  }

  /** A negative count is refused with no change. */
  lemma PutNegativeRefused(db: Db, nextSpotId: Id, lotId: Id, payload: LotPayload)
    requires lotId in db.lots && payload.numberOfSpots.Some?
    requires var n := ParseInt(payload.numberOfSpots.value); n.Some? && n.value < 0
    ensures PutOutcome(db, nextSpotId, lotId, payload) == Outcome(Err(ApiError(400, NegativeMessage)), db)
  {
  }

  /** A shrink from the stored count to n is refused, with no change, when the lot has fewer
      Available spots than it would delete. Otherwise it deletes exactly (stored - n) spots, every
      one of them an Available spot of the lot, none with a lower id than an Available spot of the
      lot it keeps, and every other spot (in particular every Occupied one) stays as it was. */
  lemma PutShrink(db: Db, nextSpotId: Id, lotId: Id, payload: LotPayload, n: nat)
    requires lotId in db.lots && payload.numberOfSpots.Some?
    requires ParseInt(payload.numberOfSpots.value) == Some(n) && n < db.lots[lotId].numberOfSpots
    ensures var o := PutOutcome(db, nextSpotId, lotId, payload);
      var d := db.lots[lotId].numberOfSpots - n;
      var deleted := db.spots.Keys - o.db.spots.Keys;
      && (|AvailableIn(db.spots, lotId)| < d ==> o == Outcome(Err(ApiError(400, ReduceMessage)), db))
      && (|AvailableIn(db.spots, lotId)| >= d ==>
            && o.result == Ok(lotId)
            && |deleted| == d
            && (forall id | id in deleted :: id in AvailableIn(db.spots, lotId))
            && (forall a, b | a in deleted && b in AvailableIn(db.spots, lotId) - deleted :: b < a)
            && (forall id | id in o.db.spots :: id in db.spots && o.db.spots[id] == db.spots[id])
            && (forall id | id in db.spots && !IsAvailable(db.spots[id]) :: id in o.db.spots))
  {
    var d := db.lots[lotId].numberOfSpots - n;
    if |AvailableIn(db.spots, lotId)| >= d {
      var o := PutOutcome(db, nextSpotId, lotId, payload);
      var victims := ShrinkVictims(db.spots, lotId, d);
      ShrinkVictimsShape(db.spots, lotId, d);
      assert o.db.spots == WithoutSpots(db.spots, victims);
      assert db.spots.Keys - o.db.spots.Keys == victims;
    }
  }

  /** A grow from the stored count to n stores the new count and inserts exactly the spots
      `create_spots` plans (see `Model.NewSpotsRows` for their ids and labels), unless one of their
      labels clashes, in which case the request ends in a 500 with the spots unchanged. */
  lemma PutGrow(db: Db, nextSpotId: Id, lotId: Id, payload: LotPayload, n: nat)
    requires lotId in db.lots && payload.numberOfSpots.Some?
    requires ParseInt(payload.numberOfSpots.value) == Some(n) && n > db.lots[lotId].numberOfSpots
    ensures var o := PutOutcome(db, nextSpotId, lotId, payload);
      var added := PlannedSpots(db.spots, lotId, n, Prefix, nextSpotId);
      && o.db.lots[lotId].numberOfSpots == n
      && (Clashes(db.spots, added) <==> o.result == Err(InternalError))
      && (Clashes(db.spots, added) ==> o.db.spots == db.spots)
      && (!Clashes(db.spots, added) ==> o.result == Ok(lotId) && o.db.spots == db.spots + added)
  {
  }

  /** A successful `put` leaves every lot with as many spot rows as its stored count says, when
      that held before and the spot ids handed out next are fresh. */
  lemma PutKeepsReconciled(db: Db, nextSpotId: Id, lotId: Id, payload: LotPayload)
    requires Reconciled(db.lots, db.spots)
    requires forall id | id in db.spots :: id < nextSpotId
    ensures var o := PutOutcome(db, nextSpotId, lotId, payload);
      o.result.Ok? ==> Reconciled(o.db.lots, o.db.spots)
  {
    if lotId in db.lots && payload.numberOfSpots.Some? {
      var parsed := ParseInt(payload.numberOfSpots.value);
      if parsed.Some? && parsed.value >= 0 {
        ResizeKeepsReconciled(db, nextSpotId, lotId, Patched(db.lots[lotId], payload), parsed.value);
      }
    }
  }

  lemma ResizeKeepsReconciled(db: Db, nextSpotId: Id, lotId: Id, patched: Lot, n: nat)
    requires lotId in db.lots && Reconciled(db.lots, db.spots)
    requires forall id | id in db.spots :: id < nextSpotId
    ensures var o := ResizeOutcome(db, nextSpotId, lotId, patched, n);
      o.result.Ok? ==> Reconciled(o.db.lots, o.db.spots)
  {
    var current := db.lots[lotId].numberOfSpots;
    if n < current {
      ShrinkOutcomeReconciled(db, nextSpotId, lotId, patched, n);
    } else if n > current {
      GrowOutcomeReconciled(db, nextSpotId, lotId, patched, n);
    } else {
      ReconciledAfterResize(db.lots, db.spots, db.spots, lotId, patched.(numberOfSpots := n));
    }
  }

  lemma ShrinkOutcomeReconciled(db: Db, nextSpotId: Id, lotId: Id, patched: Lot, n: nat)
    requires lotId in db.lots && Reconciled(db.lots, db.spots) && n < db.lots[lotId].numberOfSpots
    ensures var o := ResizeOutcome(db, nextSpotId, lotId, patched, n);
      o.result.Ok? ==> Reconciled(o.db.lots, o.db.spots)
  {
    var d := db.lots[lotId].numberOfSpots - n;
    if |AvailableIn(db.spots, lotId)| >= d {
      var victims := ShrinkVictims(db.spots, lotId, d);
      assert |victims| == d && forall id | id in victims :: id in db.spots && db.spots[id].lotId == lotId by {
        ShrinkVictimsShape(db.spots, lotId, d);
      }
      ShrinkKeepsReconciled(db.lots, db.spots, lotId, patched.(numberOfSpots := n), victims);
      ShrinkOutcomeOf(db, nextSpotId, lotId, patched, n, victims);
    }
  }

  lemma GrowOutcomeReconciled(db: Db, nextSpotId: Id, lotId: Id, patched: Lot, n: nat)
    requires lotId in db.lots && Reconciled(db.lots, db.spots) && n > db.lots[lotId].numberOfSpots
    requires forall id | id in db.spots :: id < nextSpotId
    ensures var o := ResizeOutcome(db, nextSpotId, lotId, patched, n);
      o.result.Ok? ==> Reconciled(o.db.lots, o.db.spots)
  {
    var k := |LotSpotIds(db.spots, lotId)|;
    var added := PlannedSpots(db.spots, lotId, n, Prefix, nextSpotId);
    if !Clashes(db.spots, added) {
      var current := db.lots[lotId].numberOfSpots;
      assert k == if current < 0 then 0 else current;
      assert k + CreateCount(k + 1, n) == n;
      NewSpotsFresh(db.spots, lotId, Prefix, nextSpotId, k + 1, CreateCount(k + 1, n));
      GrowKeepsReconciled(db.lots, db.spots, lotId, patched.(numberOfSpots := n), added);
    }
  }

  /** `post` leaves every lot with as many spot rows as its stored count says, when that held
      before: the new lot gets exactly its n spots. */
  lemma PostKeepsReconciled(db: Db, id: Id, lot: Lot, first: Id)
    requires Reconciled(db.lots, db.spots) && id !in db.lots
    requires forall sid | sid in db.spots :: sid < first && db.spots[sid].lotId in db.lots
    ensures Reconciled(db.lots[id := lot], db.spots + NewSpots(id, Prefix, first, 1, CreateCount(1, lot.numberOfSpots)))
  {
    var count := CreateCount(1, lot.numberOfSpots);
    NewSpotsFresh(db.spots, id, Prefix, first, 1, count);
    assert LotSpotIds(db.spots, id) == {};
    if lot.numberOfSpots < 0 {
      var stored := lot.(numberOfSpots := 0);
      GrowKeepsReconciled(db.lots, db.spots, id, stored, NewSpots(id, Prefix, first, 1, count));
      ReconciledAfterResize(db.lots[id := stored], db.spots + NewSpots(id, Prefix, first, 1, count),
        db.spots + NewSpots(id, Prefix, first, 1, count), id, lot);
    } else {
      GrowKeepsReconciled(db.lots, db.spots, id, lot, NewSpots(id, Prefix, first, 1, count));
    }
  }

  /** Deleting a lot with its spots leaves every other lot's spot rows as they were. */
  lemma DeleteKeepsReconciled(db: Db, lotId: Id)
    requires Reconciled(db.lots, db.spots)
    ensures var ids := LotSpotIds(db.spots, lotId);
      Reconciled(db.lots - {lotId}, WithoutSpots(db.spots, ids))
  {
    var ids := LotSpotIds(db.spots, lotId);
    forall lid | lid in db.lots - {lotId}
      ensures |LotSpotIds(WithoutSpots(db.spots, ids), lid)| == |LotSpotIds(db.spots, lid)|
    {
      LotSpotIdsWithout(db.spots, ids, lotId, lid);
    }
  }

  /** `create_spots` numbers new labels from the number of spots the lot has, not from its highest
      label. As long as a lot's labels are exactly `S1` .. `Sk` for its k spots, the labels it plans
      clash with none of them, and after the insert the labels are again `S1` .. `Sm`, m the new
      number of spots. */
  lemma CanonicalLabelsGrow(spots: map<Id, Spot>, lotId: Id, n: int, first: Id)
    requires LotLabels(spots, lotId) == LabelRange(Prefix, |LotSpotIds(spots, lotId)|)
    requires forall id | id in spots :: id < first
    ensures var k := |LotSpotIds(spots, lotId)|;
      var added := PlannedSpots(spots, lotId, n, Prefix, first);
      && !Clashes(spots, added)
      && LotLabels(spots + added, lotId) == LabelRange(Prefix, k + CreateCount(k + 1, n))
  {
    var k := |LotSpotIds(spots, lotId)|;
    var count := CreateCount(k + 1, n);
    var added := NewSpots(lotId, Prefix, first, k + 1, count);
    CanonicalLabelsNoClash(spots, lotId, k, count, first);
    GrownLabelsCover(spots, lotId, k, count, first);
    GrownLabelsWithin(spots, lotId, k, count, first);
  }

  lemma CanonicalLabelsNoClash(spots: map<Id, Spot>, lotId: Id, k: nat, count: nat, first: Id)
    requires LotLabels(spots, lotId) == LabelRange(Prefix, k)
    ensures !Clashes(spots, NewSpots(lotId, Prefix, first, k + 1, count))
  {
    var added := NewSpots(lotId, Prefix, first, k + 1, count);
    NewSpotsRows(lotId, Prefix, first, k + 1, count);
    forall a, b | a in spots && b in added && spots[a].lotId == added[b].lotId
      ensures spots[a].spotNumber != added[b].spotNumber
    {
      assert added[b].spotNumber == SpotLabel(Prefix, k + 1 + (b - first));
      StoredLabelInRange(spots, lotId, k, a);
    }
  }

  /** A stored label of a lot whose labels are `S1` .. `Sk` differs from every label above `Sk`. */
  lemma StoredLabelInRange(spots: map<Id, Spot>, lotId: Id, k: nat, a: Id)
    requires LotLabels(spots, lotId) == LabelRange(Prefix, k)
    requires a in spots && spots[a].lotId == lotId
    ensures forall j: nat | j > k :: spots[a].spotNumber != SpotLabel(Prefix, j)
  {
    assert spots[a].spotNumber in LotLabels(spots, lotId);
    var i :| i in Ordering.Range(1, k + 1) && SpotLabel(Prefix, i) == spots[a].spotNumber;
    forall j: nat | j > k ensures spots[a].spotNumber != SpotLabel(Prefix, j) {
      if spots[a].spotNumber == SpotLabel(Prefix, j) {
        SpotLabelInjective(Prefix, i, j);
      }
    }
  }

  lemma GrownLabelsCover(spots: map<Id, Spot>, lotId: Id, k: nat, count: nat, first: Id)
    requires LotLabels(spots, lotId) == LabelRange(Prefix, k)
    requires forall id | id in spots :: id < first
    ensures LabelRange(Prefix, k + count) <= LotLabels(spots + NewSpots(lotId, Prefix, first, k + 1, count), lotId)
  {
    forall i | i in Ordering.Range(1, k + count + 1)
      ensures SpotLabel(Prefix, i) in LotLabels(spots + NewSpots(lotId, Prefix, first, k + 1, count), lotId)
    {
      GrownLabelCovered(spots, lotId, k, count, first, i);
    }
  }

  lemma GrownLabelCovered(spots: map<Id, Spot>, lotId: Id, k: nat, count: nat, first: Id, i: nat)
    requires LotLabels(spots, lotId) == LabelRange(Prefix, k)
    requires forall id | id in spots :: id < first
    requires 1 <= i <= k + count
    ensures SpotLabel(Prefix, i) in LotLabels(spots + NewSpots(lotId, Prefix, first, k + 1, count), lotId)
  {
    var added := NewSpots(lotId, Prefix, first, k + 1, count);
    var grown := spots + added;
    NewSpotsRows(lotId, Prefix, first, k + 1, count);
    if i <= k {
      assert SpotLabel(Prefix, i) in LabelRange(Prefix, k);
      var a :| a in spots && spots[a].lotId == lotId && spots[a].spotNumber == SpotLabel(Prefix, i);
      assert a !in added && grown[a] == spots[a];
    } else {
      var b := first + (i - k - 1);
      assert b in added && grown[b] == added[b];
    }
  }

  lemma GrownLabelsWithin(spots: map<Id, Spot>, lotId: Id, k: nat, count: nat, first: Id)
    requires LotLabels(spots, lotId) == LabelRange(Prefix, k)
    ensures LotLabels(spots + NewSpots(lotId, Prefix, first, k + 1, count), lotId) <= LabelRange(Prefix, k + count)
  {
    var grown := spots + NewSpots(lotId, Prefix, first, k + 1, count);
    forall a | a in grown && grown[a].lotId == lotId ensures grown[a].spotNumber in LabelRange(Prefix, k + count) {
      GrownLabelWithin(spots, lotId, k, count, first, a);
    }
  }

  lemma GrownLabelWithin(spots: map<Id, Spot>, lotId: Id, k: nat, count: nat, first: Id, a: Id)
    requires LotLabels(spots, lotId) == LabelRange(Prefix, k)
    requires var grown := spots + NewSpots(lotId, Prefix, first, k + 1, count); a in grown && grown[a].lotId == lotId
    ensures (spots + NewSpots(lotId, Prefix, first, k + 1, count))[a].spotNumber in LabelRange(Prefix, k + count)
  {
    var added := NewSpots(lotId, Prefix, first, k + 1, count);
    NewSpotsRows(lotId, Prefix, first, k + 1, count);
    if a in added {
      assert k + 1 + (a - first) in Ordering.Range(1, k + count + 1);
    } else {
      assert spots[a].spotNumber in LotLabels(spots, lotId);
      var i :| i in Ordering.Range(1, k + 1) && SpotLabel(Prefix, i) == spots[a].spotNumber;
      assert i in Ordering.Range(1, k + count + 1);
    }
  }

  /** Once a shrink has deleted an Available spot below an Occupied one, the labels are no longer
      `S1` .. `Sk`, and growing the lot back plans a label the lot still has. Lot 7 has spots 1, 2, 3
      labelled S1, S2, S3, with spot 3 Occupied. `put` with count 2 deletes spot 2; `put` with
      count 3 then plans `S3` for a new spot 4, the unique constraint fails, and the request ends in
      a 500 with the count 3 already stored over the lot's two spot rows. */
  lemma ShrinkThenGrowClashes()
    ensures var db0 := ClashExample();
      var o1 := PutOutcome(db0, 4, 7, CountPayload("2"));
      var o2 := PutOutcome(o1.db, 4, 7, CountPayload("3"));
      && o1.result == Ok(7) && o1.db.spots == db0.spots - {2}
      && o2.result == Err(InternalError)
      && 7 in o2.db.lots && o2.db.lots[7].numberOfSpots == 3 && !Reconciled(o2.db.lots, o2.db.spots)
  {
    ClashExampleShrink();
    ClashExampleGrow();
  }

  /** The example starts from tables that satisfy the invariant, with every lot's rows matching its
      count. */
  lemma ClashExampleSound()
    ensures Reconciled(ClashExample().lots, ClashExample().spots) && Invariant(ClashExample())
  {
    var db := ClashExample();
    assert LotSpotIds(db.spots, 7) == {1, 2, 3};
    assert |{1, 2, 3}| == 3;
    assert HeldSpotsMirror(db.spots, db.reservations);
    assert OccupiedHeld(db.spots, db.reservations) by {
      assert db.reservations[1].spotId == 3 && Active(db.reservations[1]);
    }
  }

  lemma ClashExampleShrink()
    ensures var db0 := ClashExample();
      var o1 := PutOutcome(db0, 4, 7, CountPayload("2"));
      o1.result == Ok(7) && o1.db.spots == db0.spots - {2} && o1.db.lots == map[7 := db0.lots[7].(numberOfSpots := 2)]
  {
    ClashExampleShrinkParse();
    ClashExampleShrinkResize();
  }

  lemma ClashExampleShrinkParse()
    ensures var db0 := ClashExample();
      PutOutcome(db0, 4, 7, CountPayload("2")) == ResizeOutcome(db0, 4, 7, db0.lots[7], 2)
  {
    assert ParseInt("2") == Some(2) by {
      assert ParseNat("2") == Some(2);
    }
    assert Patched(ClashExample().lots[7], CountPayload("2")) == ClashExample().lots[7];
  }

  lemma ClashExampleShrinkResize()
    ensures var db0 := ClashExample();
      var o := ResizeOutcome(db0, 4, 7, db0.lots[7], 2);
      o.result == Ok(7) && o.db.spots == db0.spots - {2} && o.db.lots == map[7 := db0.lots[7].(numberOfSpots := 2)]
  {
    var db0 := ClashExample();
    ClashExampleVictims();
    assert db0.lots.Keys == {7};
    ShrinkOfSoleLot(db0, 4, 7, db0.lots[7], 2, {2});
  }

  /** A shrink the lot has enough Available spots for succeeds: it deletes the victims with their
      reservations and stores the patched lot with the new count. */
  lemma ShrinkOutcomeOf(db: Db, nextSpotId: Id, lotId: Id, patched: Lot, n: nat, victims: set<Id>)
    requires lotId in db.lots && n < db.lots[lotId].numberOfSpots
    requires db.lots[lotId].numberOfSpots - n <= |AvailableIn(db.spots, lotId)|
    requires victims == ShrinkVictims(db.spots, lotId, db.lots[lotId].numberOfSpots - n)
    ensures ResizeOutcome(db, nextSpotId, lotId, patched, n)
      == Outcome(Ok(lotId), Db(db.lots[lotId := patched.(numberOfSpots := n)], WithoutSpots(db.spots, victims),
           WithoutReservationsOf(db.reservations, victims), db.users))
  {
  }

  /** The same, for a table holding that one lot only. */
  lemma ShrinkOfSoleLot(db: Db, nextSpotId: Id, lotId: Id, patched: Lot, n: nat, victims: set<Id>)
    requires db.lots.Keys == {lotId} && n < db.lots[lotId].numberOfSpots
    requires db.lots[lotId].numberOfSpots - n <= |AvailableIn(db.spots, lotId)|
    requires victims == ShrinkVictims(db.spots, lotId, db.lots[lotId].numberOfSpots - n)
    ensures var o := ResizeOutcome(db, nextSpotId, lotId, patched, n);
      o.result == Ok(lotId) && o.db.spots == db.spots - victims && o.db.lots == map[lotId := patched.(numberOfSpots := n)]
  {
    ShrinkOutcomeOf(db, nextSpotId, lotId, patched, n, victims);
    assert db.lots[lotId := patched.(numberOfSpots := n)] == map[lotId := patched.(numberOfSpots := n)];
  }

  lemma ClashExampleVictims()
    ensures |AvailableIn(ClashExample().spots, 7)| == 2 && ShrinkVictims(ClashExample().spots, 7, 1) == {2}
  {
    var avail := AvailableIn(ClashExample().spots, 7);
    assert avail == {1, 2};
    assert |avail| == 2;
    Ordering.SortedDescFirst(avail, 2);
    assert ShrinkOrder(ClashExample().spots, 7)[..1] == [2];
  }

  lemma ClashExampleGrow()
    ensures var db1 := PutOutcome(ClashExample(), 4, 7, CountPayload("2")).db;
      var o2 := PutOutcome(db1, 4, 7, CountPayload("3"));
      && o2.result == Err(InternalError) && o2.db.spots == db1.spots
      && 7 in o2.db.lots && o2.db.lots[7].numberOfSpots == 3 && !Reconciled(o2.db.lots, o2.db.spots)
  {
    ClashExampleShrink();
    ClashExampleGrowFrom(PutOutcome(ClashExample(), 4, 7, CountPayload("2")).db);
  }

  lemma ClashExampleGrowFrom(db1: Db)
    requires db1.spots == ClashExample().spots - {2} && db1.lots == map[7 := ClashExample().lots[7].(numberOfSpots := 2)]
    ensures var o2 := PutOutcome(db1, 4, 7, CountPayload("3"));
      && o2.result == Err(InternalError) && o2.db.spots == db1.spots
      && 7 in o2.db.lots && o2.db.lots[7].numberOfSpots == 3 && !Reconciled(o2.db.lots, o2.db.spots)
  {
    assert ParseInt("3") == Some(3) by {
      assert ParseNat("3") == Some(3);
    }
    assert LotSpotIds(db1.spots, 7) == {1, 3};
    assert |{1, 3}| == 2;
    assert SpotLabel(Prefix, 3) == "S3";
    var added := PlannedSpots(db1.spots, 7, 3, Prefix, 4);
    assert added == map[4 := NewSpot(7, "S3")];
    assert 3 in db1.spots && 4 in added && db1.spots[3].lotId == added[4].lotId
      && db1.spots[3].spotNumber == added[4].spotNumber;
  }

  /** A `put` body that carries only a count. */
  function CountPayload(count: string): (p: LotPayload)
    ensures p.numberOfSpots == Some(count)
  {
    LotPayload(None, None, None, None, Some(count))
  }

  /** Lot 7 with three spots S1, S2, S3, the last one held by user 1's active reservation. */
  function ClashExample(): (db: Db)
    ensures 7 in db.lots && db.lots[7].numberOfSpots == 3
  {
    Db(
      map[7 := Lot("Central", "1 Main Road", "560001", 10.0, 3)],
      map[1 := NewSpot(7, "S1"), 2 := NewSpot(7, "S2"), 3 := Spot(7, "S3", Occupied, Some("KA01AB1234"), Some(0))],
      map[1 := Reservation(1, 3, 0, None, None, "KA01AB1234")],
      map[1 := User("driver", "driver@example.com")])
  }

  // ---------------------------------------------------------------------------------------
  // Delete
  // ---------------------------------------------------------------------------------------

  /** `ParkingLotAPI.delete(lot_id)`: an unknown lot is 404; a lot with an Occupied spot is refused
      (400); otherwise the lot is deleted, and the ORM cascades delete its spots and their
      reservations. */
  method Delete(st: Store, lotId: Id) returns (r: Result<(), ApiError>)
    requires st.Valid() && Invariant(st.State())
    modifies st
    ensures st.Valid() && Invariant(st.State())
    ensures lotId !in old(st.lots) ==> r == Err(ApiError(404, NotFoundMessage)) && st.State() == old(st.State())
    ensures lotId in old(st.lots) && OccupiedIn(old(st.spots), lotId) != {} ==>
      r == Err(ApiError(400, DeleteMessage)) && st.State() == old(st.State())
    ensures lotId in old(st.lots) && OccupiedIn(old(st.spots), lotId) == {} ==>
      var ids := LotSpotIds(old(st.spots), lotId);
      && r == Ok(())
      && st.lots == old(st.lots) - {lotId}
      && st.spots == WithoutSpots(old(st.spots), ids)
      && st.reservations == WithoutReservationsOf(old(st.reservations), ids)
      && st.users == old(st.users)
  {
    if lotId !in st.lots {
      return Err(ApiError(404, NotFoundMessage));
    }
    if |OccupiedIn(st.spots, lotId)| > 0 {
      return Err(ApiError(400, DeleteMessage));
    }
    var ids := LotSpotIds(st.spots, lotId);
    RemoveLotKeepsInvariant(st.State(), lotId);
    st.lots := st.lots - {lotId};
    st.spots := WithoutSpots(st.spots, ids);
    st.reservations := WithoutReservationsOf(st.reservations, ids);
    r := Ok(());
  }
}
