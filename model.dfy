/** The rows of backend/model.py and the logic its classes compute on a single row: spot labels
    and the spots `create_spots` makes, the Available/Occupied state machine of a spot
    (`occupy` / `release`), the duration-based cost of a reservation (`calculate_cost`), the
    values `finalize` writes, and the `status` a reservation reports.

    Timestamps are whole seconds (UTC) passed in by the caller; prices are exact reals; costs
    are whole hundredths (Python's `round(x, 2)`). */
module Model {
  import opened Wrappers
  import opened Decimal
  import Ordering

  /** A primary key. */
  type Id = nat

  /** Seconds since an epoch, UTC. */
  type Timestamp = int

  /** A spot's `status` column: "A" (Available) or "O" (Occupied). */
  datatype Status = Available | Occupied

  function StatusCode(s: Status): string {
    match s
    case Available => "A"
    case Occupied => "O"
  }

  datatype User = User(username: string, email: string)

  /** A parking lot row; `numberOfSpots` is the stored count, which the API can set negative. */
  datatype Lot = Lot(name: string, address: string, pinCode: string, pricePerHour: real, numberOfSpots: int)

  datatype Spot = Spot(
    lotId: Id,
    spotNumber: string,
    status: Status,
    vehicleNumber: Option<string>,
    reservedAt: Option<Timestamp>)

  /** A reservation row; `leavingTimestamp == None` means the reservation is active.
      `parkingCost` is in hundredths of the currency unit. */
  datatype Reservation = Reservation(
    userId: Id,
    spotId: Id,
    parkingTimestamp: Timestamp,
    leavingTimestamp: Option<Timestamp>,
    parkingCost: Option<int>,
    vehicleNumber: string)

  /** The `ValueError`s raised by `occupy` and `release`. */
  datatype SpotError = NotAvailable | AlreadyAvailable {
    function Message(): string {
      match this
      case NotAvailable => "Spot is not available to occupy."
      case AlreadyAvailable => "Spot is already available."
    }
  }

  predicate IsAvailable(s: Spot) {
    s.status == Available
  }

  predicate Active(r: Reservation) {
    r.leavingTimestamp.None?
  }

  // ---------------------------------------------------------------------------------------
  // Spot labels and create_spots
  // ---------------------------------------------------------------------------------------

  /** The label `f"{prefix}{i}"`. */
  function SpotLabel(prefix: string, i: nat): string {
    prefix + NatToString(i)
  }

  /** With one prefix, distinct indices give distinct labels. */
  lemma SpotLabelInjective(prefix: string, i: nat, j: nat)
    requires SpotLabel(prefix, i) == SpotLabel(prefix, j)
    ensures i == j
  {
    assert NatToString(i) == SpotLabel(prefix, i)[|prefix|..];
    assert NatToString(j) == SpotLabel(prefix, j)[|prefix|..];
    NatToStringInjective(i, j);
  }

  /** A freshly inserted spot row: the column defaults make it Available with no vehicle. */
  function NewSpot(lotId: Id, spotNumber: string): Spot {
    Spot(lotId, spotNumber, Available, None, None)
  }

  /** How many spots `create_spots` makes for labels `from` .. `to`: `len(range(from, to + 1))`. */
  function CreateCount(from: nat, to: int): nat {
    if to < from then 0 else to - from + 1
  }

  /** The first `count` rows `create_spots` inserts for lot `lotId`, labelled from `from` on: the k-th
      of them (k = 0, 1, ...) has label `prefix` + `from + k` and the id `firstId + k`. */
  function NewSpots(lotId: Id, prefix: string, firstId: Id, from: nat, count: nat): map<Id, Spot> {
    if count == 0 then map[]
    else NewSpots(lotId, prefix, firstId, from, count - 1)[firstId + count - 1 := NewSpot(lotId, SpotLabel(prefix, from + count - 1))]
  }

  /** The rows are exactly the ids `firstId` .. `firstId + count - 1`, each a fresh Available spot of
      the lot labelled with its own index. */
  lemma {:induction false} NewSpotsRows(lotId: Id, prefix: string, firstId: Id, from: nat, count: nat)
    ensures var m := NewSpots(lotId, prefix, firstId, from, count);
      && m.Keys == Ordering.Range(firstId, firstId + count)
      && (forall i | i in m :: m[i] == NewSpot(lotId, SpotLabel(prefix, from + (i - firstId))))
  {
    if count > 0 {
      NewSpotsRows(lotId, prefix, firstId, from, count - 1);
    }
  }

  /** `create_spots` inserts exactly `count` rows. */
  lemma NewSpotsCount(lotId: Id, prefix: string, firstId: Id, from: nat, count: nat)
    ensures |NewSpots(lotId, prefix, firstId, from, count).Keys| == count
  {
    var keys := NewSpots(lotId, prefix, firstId, from, count).Keys;
    assert keys == Ordering.Range(firstId, firstId + count) by {
      NewSpotsRows(lotId, prefix, firstId, from, count);
    }
    Ordering.RangeCard(firstId, firstId + count);
  }

  /** No two rows of `m` share a label. */
  predicate LabelsDistinct(m: map<Id, Spot>) {
    forall i, j | i in m && j in m && m[i].spotNumber == m[j].spotNumber :: i == j
  }

  /** No two rows `create_spots` inserts in one call share a label. */
  lemma NewSpotsLabelsDistinct(lotId: Id, prefix: string, firstId: Id, from: nat, count: nat)
    ensures LabelsDistinct(NewSpots(lotId, prefix, firstId, from, count))
  {
    var m := NewSpots(lotId, prefix, firstId, from, count);
    NewSpotsRows(lotId, prefix, firstId, from, count);
    forall i, j | i in m && j in m && m[i].spotNumber == m[j].spotNumber ensures i == j {
      var li, lj := from + (i - firstId), from + (j - firstId);
      assert m[i].spotNumber == SpotLabel(prefix, li);
      assert m[j].spotNumber == SpotLabel(prefix, lj);
      SpotLabelInjective(prefix, li, lj);
    }
  }

  // ---------------------------------------------------------------------------------------
  // The spot state machine
  // ---------------------------------------------------------------------------------------

  /** `ParkingSpot.occupy`: only an Available spot can be occupied; it then records the vehicle and
      the time. */
  function Occupy(s: Spot, vehicleNumber: string, now: Timestamp): (r: Result<Spot, SpotError>)
    ensures r.Ok? <==> IsAvailable(s)
    ensures r.Ok? ==> r.value.lotId == s.lotId && r.value.spotNumber == s.spotNumber && !IsAvailable(r.value)
    ensures r.Ok? ==> r.value.vehicleNumber == Some(vehicleNumber) && r.value.reservedAt == Some(now)
  {
    if !IsAvailable(s) then Err(NotAvailable)
    else Ok(s.(status := Occupied, vehicleNumber := Some(vehicleNumber), reservedAt := Some(now)))
  }

  /** `ParkingSpot.release`: only a spot that is not Available can be released; it then forgets the
      vehicle and the time. */
  function Release(s: Spot): (r: Result<Spot, SpotError>)
    ensures r.Ok? <==> !IsAvailable(s)
    ensures r.Ok? ==> r.value.lotId == s.lotId && r.value.spotNumber == s.spotNumber && IsAvailable(r.value)
    ensures r.Ok? ==> r.value.vehicleNumber.None? && r.value.reservedAt.None?
  {
    if IsAvailable(s) then Err(AlreadyAvailable)
    else Ok(s.(status := Available, vehicleNumber := None, reservedAt := None))
  }

  /** Occupying then releasing an Available spot succeeds both times and leaves it Available with
      no vehicle and no reservation time; a spot that had none to begin with comes back unchanged. */
  lemma OccupyThenRelease(s: Spot, vehicleNumber: string, now: Timestamp)
    requires IsAvailable(s)
    ensures Occupy(s, vehicleNumber, now).Ok?
    ensures Release(Occupy(s, vehicleNumber, now).value) == Ok(s.(vehicleNumber := None, reservedAt := None))
    ensures s.vehicleNumber.None? && s.reservedAt.None? ==> Release(Occupy(s, vehicleNumber, now).value) == Ok(s)
  {
  }

  // ---------------------------------------------------------------------------------------
  // Cost
  // ---------------------------------------------------------------------------------------

  /** Rounding to the nearest integer, ties to the even neighbour (Python's `round`). */
  function RoundHalfEven(x: real): (n: int)
    ensures (n as real) - 0.5 <= x <= (n as real) + 0.5
    ensures x == (n as real) - 0.5 || x == (n as real) + 0.5 ==> n % 2 == 0
  {
    var f := x.Floor;
    var frac := x - f as real;
    if frac < 0.5 then f
    else if frac > 0.5 then f + 1
    else if f % 2 == 0 then f
    else f + 1
  }

  /** Rounding never reverses the order of two values. */
  lemma RoundHalfEvenMonotone(a: real, b: real)
    requires a <= b
    ensures RoundHalfEven(a) <= RoundHalfEven(b)
  {
  }

  /** `round(x, 2)` expressed in hundredths. */
  function RoundToCents(x: real): (cents: int)
    ensures (cents as real) - 0.5 <= x * 100.0 <= (cents as real) + 0.5
  {
    RoundHalfEven(x * 100.0)
  }

  /** The unrounded cost of parking `seconds` at `pricePerHour`: `seconds / 3600 * price`. */
  function ExactCost(seconds: int, pricePerHour: real): real {
    (seconds as real) / 3600.0 * pricePerHour
  }

  /** The rounded cost of parking `seconds` at `pricePerHour`, in hundredths: it is within half a
      hundredth of the exact cost. */
  function CostFor(seconds: int, pricePerHour: real): (cents: int)
    ensures (cents as real) - 0.5 <= ExactCost(seconds, pricePerHour) * 100.0 <= (cents as real) + 0.5
  {
    RoundToCents(ExactCost(seconds, pricePerHour))
  }

  /** `Reservation.calculate_cost`: zero while the reservation is active, otherwise the cost of the
      time between parking and leaving. */
  function CalculateCost(r: Reservation, pricePerHour: real): (cents: int)
    ensures r.leavingTimestamp.None? ==> cents == 0
    ensures r.leavingTimestamp.Some? ==> cents == CostFor(r.leavingTimestamp.value - r.parkingTimestamp, pricePerHour)
  {
    match r.leavingTimestamp
    case None => 0
    case Some(leaving) => CostFor(leaving - r.parkingTimestamp, pricePerHour)
  }

  /** No time parked costs nothing. */
  lemma CostOfNoTime(pricePerHour: real)
    ensures CostFor(0, pricePerHour) == 0
  {
  }

  lemma ExactCostMonotone(s1: int, s2: int, p: real)
    requires s1 <= s2 && 0.0 <= p
    ensures ExactCost(s1, p) <= ExactCost(s2, p)
  {
    var x, y := (s1 as real) / 3600.0, (s2 as real) / 3600.0;
    assert 0.0 <= (y - x) * p;
    assert (y - x) * p == y * p - x * p;
  }

  /** At a non-negative price, a longer stay never costs less. */
  lemma CostMonotone(s1: int, s2: int, pricePerHour: real)
    requires s1 <= s2 && 0.0 <= pricePerHour
    ensures CostFor(s1, pricePerHour) <= CostFor(s2, pricePerHour)
  {
    var x, y := ExactCost(s1, pricePerHour), ExactCost(s2, pricePerHour);
    ExactCostMonotone(s1, s2, pricePerHour);
    RoundHalfEvenMonotone(x * 100.0, y * 100.0);
  }

  /** Ninety minutes at 10.0 per hour cost 15.00. */
  lemma NinetyMinutesAtTenPerHour()
    ensures CostFor(90 * 60, 10.0) == 1500
  {
    assert ExactCost(90 * 60, 10.0) * 100.0 == 1500.0;
  }

  // ---------------------------------------------------------------------------------------
  // Finalize and to_dict
  // ---------------------------------------------------------------------------------------

  /** The reservation `finalize` writes: leaving time set and the cost of the stay at `pricePerHour`
      stored; every other column is kept. */
  function Finalized(r: Reservation, leaving: Timestamp, pricePerHour: real): (f: Reservation)
  {
    var closed := r.(leavingTimestamp := Some(leaving));
    closed.(parkingCost := Some(CalculateCost(closed, pricePerHour)))
  }

  /** A finalized reservation is no longer active, records the given leaving time and the cost of
      the whole stay, and keeps the user, spot, vehicle and start time. */
  lemma FinalizedShape(r: Reservation, leaving: Timestamp, pricePerHour: real)
    ensures var f := Finalized(r, leaving, pricePerHour);
      && !Active(f)
      && f.leavingTimestamp == Some(leaving)
      && f.parkingCost == Some(CostFor(leaving - r.parkingTimestamp, pricePerHour))
      && f.userId == r.userId && f.spotId == r.spotId
      && f.parkingTimestamp == r.parkingTimestamp && f.vehicleNumber == r.vehicleNumber
  {
  }

  /** The `status` field of `Reservation.to_dict`. */
  function ReservationStatus(r: Reservation): (s: string)
    ensures s == "active" <==> Active(r)
    ensures s == "released" <==> !Active(r)
  {
    if Active(r) then "active" else "released"
  }
}
