# Parking lot spot pool and reservation lifecycle, in Dafny

This project models the core of a vehicle-parking reservation backend (a Flask/SQLAlchemy
application). The core is the state kept in four tables, the handlers that change it, and the
views that read it:

- **Lots** (`ParkingLot`) have a stored `number_of_spots` and a `price_per_hour`.
- **Spots** (`ParkingSpot`) belong to a lot. Each has a label (`S1`, `S2`, ...) and a status:
  `"A"` (Available) or `"O"` (Occupied). An Occupied spot records the vehicle and the time it
  was reserved.
- **Reservations** tie a user to a spot. They record a start time and an optional leaving time
  (none means active), a cost and a vehicle.
- **Users** are read only.

The handlers modelled are:

- **Lot registry** (`ParkingLotAPI`). Create a lot together with its spots S1..Sn. Update it
  partially. Resize it: grow through `create_spots`, or shrink by deleting the
  highest-id Available spots. Delete it, which is refused while a spot is Occupied.
- **Booking** (`ReserveSpotAPI`, `ReleaseSpotAPI`, `UserBookingsAPI`). Reserve is first fit: it
  takes the Available spot with the lowest id. Release finalizes the reservation: it sets the
  leaving time, charges seconds / 3600 × price rounded to hundredths, and frees the spot. A
  failed spot release inside finalization is swallowed.
- **Read views**: the chart data, the user chart, the admin dashboard, the admin list of all
  bookings, and the two spot-detail views.

The central property is `Tables.Invariant`. Its main part is `Consistent`: a spot is Occupied
exactly when one active reservation holds it, and the spot's vehicle and time mirror that
reservation. Every handler keeps the invariant. Reserve adds one Occupied spot and one active
reservation; release removes one of each. From the invariant, `Tables.ConsistentCounts`
proves the equality the admin dashboard relies on: the number of Occupied spots equals the
number of active reservations.

Layout (one module per file):

| file | module | models |
|---|---|---|
| `wrappers.dfy` | `Wrappers` | `Option` (SQL NULL / Python `None`) and `Result` |
| `decimal.dfy` | `Decimal` | decimal rendering of naturals (`f"{prefix}{i}"`) and Python's `int(text)` |
| `ordering.dfy` | `Ordering` | `ORDER BY id ASC/DESC` as sorted enumerations of id sets |
| `api.dfy` | `Api` | the error half of a handler's answer (status code and message); Python's `not x` |
| `model.dfy` | `Model` | rows; spot labels; `occupy` / `release`; `calculate_cost`; finalized row; `status` |
| `tables.dfy` | `Tables` | the database as a value, its invariants, and what each kind of change does to them |
| `store.dfy` | `Store` | class `Store`: the tables as mutable fields; `create_spots`, `occupy`, `release`, `finalize` |
| `lot_api.dfy` | `LotApi` | `ParkingLotAPI.get/post/put/delete` |
| `booking_api.dfy` | `BookingApi` | `ReserveSpotAPI.post`, `ReleaseSpotAPI.post`, `UserBookingsAPI.get`, `Reservation.to_dict` |
| `charts.dfy` | `Charts` | `ChartDataAPI.get`, `UserChartDataAPI.get` |
| `admin.dfy` | `Admin` | `AdminDashboardAPI.get`, `AdminAllBookingsAPI.get` |
| `spot_api.dfy` | `SpotApi` | `ParkingSpotAPI.get`, `AdminSpotDetailsAPI.get` |

Conventions:

- Handlers that change state are methods on a `Store` object (`modifies st`). Each method's
  `ensures` gives the whole new state, and each method keeps `Invariant`.
- Read-only handlers are functions over the value `st.State()`.
- Each HTTP error is an `Err(ApiError(code, message))` carrying the source's message. Except
  where noted below, the store is then unchanged.
- Time is an explicit `now`, in whole seconds.
- Prices are exact reals. Costs are whole hundredths, rounded half to even like Python's `round`.

Behaviours of the code that the model keeps as written:

- **Spot labels.** `create_spots` (backend/model.py:111-115) numbers new labels from the
  current number of spot rows plus one, so a label can repeat after a shrink.
  `LotApi.CanonicalLabelsGrow` proves that no label is repeated while a lot's labels are
  exactly S1..Sk. `LotApi.ShrinkThenGrowClashes` shows a shrink followed by a grow that
  repeats a label. The repeated label breaks the unique constraint on (lot, label)
  (backend/model.py:147), and the request ends in a 500.
- **Shrink and grow.** `put` compares the new count with the stored `number_of_spots`
  (backend/cntrlrs/parkinglot_apis.py:85-86), not with the live rows. A grow commits the new
  count before inserting spots (backend/cntrlrs/parkinglot_apis.py:97-101), so a grow whose
  insert fails leaves the new count stored without the spot rows. For this reason
  `Reconciled` (rows = stored count) is proved for every successful handler
  (`PutKeepsReconciled`, `PostKeepsReconciled`, `DeleteKeepsReconciled`) but is not part of
  `Invariant`.
- **Dashboard.** `occupied_spots` is the number of open reservations
  (backend/cntrlrs/admin_apis.py:46), and `active_reservations` repeats it (line 49).
  `Admin.DashboardCountsOccupiedSpots` proves that it equals the number of Occupied spots in
  every store that keeps the invariant.
- **Reserve.** `occupy` commits on its own (backend/model.py:166-167), before the reservation
  is committed. The model runs each handler atomically (see "Left out").

## Model

| member | source | states |
|---|---|---|
| `Model.SpotLabelInjective` | backend/model.py:115 | with one prefix, equal labels `prefix+i` and `prefix+j` imply i = j |
| `Model.NewSpotsRows` | backend/model.py:111-118 | the rows `create_spots` inserts take exactly the ids first..first+count-1; each row is an Available spot of the lot with no vehicle, labelled prefix + (from + offset) |
| `Model.NewSpotsCount` | backend/model.py:111-118 | `create_spots` inserts exactly `count` rows |
| `Model.NewSpotsLabelsDistinct` | backend/model.py:114-116 | no two rows inserted by one `create_spots` call share a label |
| `Model.Occupy` | backend/model.py:156-167 | succeeds exactly on an Available spot; the result is Occupied with the same lot and label, records the vehicle and `reserved_at` = `now`, and otherwise raises "not available" |
| `Model.Release` | backend/model.py:169-180 | succeeds exactly on a spot that is not Available; the result is Available with the same lot and label, with vehicle and `reserved_at` cleared, and otherwise raises "already available" |
| `Model.OccupyThenRelease` | backend/model.py:156-180 | occupy followed by release on an Available spot succeeds both times and gives back the spot with null vehicle and null `reserved_at` |
| `Model.RoundHalfEven` | backend/model.py:228 | the result is within 0.5 of x, and ties go to the even neighbour |
| `Model.RoundHalfEvenMonotone` | backend/model.py:228 | rounding preserves order |
| `Model.CostFor` | backend/model.py:226-228 | the cost in hundredths is within half a hundredth of seconds/3600 × price |
| `Model.CalculateCost` | backend/model.py:219-229 | 0 while the leaving time is null, otherwise the rounded cost of leaving − parking seconds |
| `Model.CostOfNoTime` | backend/model.py:226-228 | zero elapsed time costs 0.00 |
| `Model.CostMonotone` | backend/model.py:226-228 | at a non-negative price, a longer stay never costs less |
| `Model.NinetyMinutesAtTenPerHour` | backend/model.py:226-228 | 90 minutes at 10.0 per hour cost 15.00 |
| `Model.FinalizedShape` | backend/model.py:240-247 | a finalized reservation is not active, has the given leaving time and the cost of its stay, and keeps user, spot, vehicle and start time |
| `Model.ReservationStatus` | backend/model.py:272 | "active" exactly when the leaving time is null, "released" exactly when it is not |
| `Charts.LotSplits` | backend/model.py:85-89 | a lot's spots split into its Available spots and its Occupied spots, with no overlap, so the two counts add up to its spot count |
| `Store.PendingSpots` | backend/model.py:114-118 | the loop builds exactly the planned rows for labels k+1..n, with ids first, first+1, ... |
| `Store.Store.CreateSpots` | backend/model.py:105-121 | inserts the planned rows under fresh ids, or fails with a 500 and no change when a label repeats one of the lot's labels; keeps the invariant |
| `Store.Store.OccupySpot` | backend/model.py:156-167 | the spot row becomes `Occupy` of itself; on failure nothing changes; no other table changes |
| `Store.Store.ReleaseSpot` | backend/model.py:169-180 | the spot row becomes `Release` of itself; on failure nothing changes; no other table changes |
| `Store.Store.Finalize` | backend/model.py:231-259 | already released: returned unchanged; spot or lot missing: 500 and no change; otherwise leaving time = given or now, cost at the lot's price, spot released if Occupied and left alone if already Available |
| `Tables.ConsistentCounts` | backend/cntrlrs/admin_apis.py:46-49 | in a consistent store, the number of Occupied spots equals the number of active reservations |
| `Tables.HolderBijection` | backend/cntrlrs/admin_apis.py:46-49 | a one-to-one map of active reservations onto Occupied spots makes the two sets equally large |
| `Tables.ReserveKeepsConsistent` | backend/cntrlrs/booking_apis.py:49-57 | occupying an Available spot under a new active reservation keeps spots and reservations consistent, and adds one to both counts |
| `Tables.ReleaseKeepsConsistent` | backend/model.py:240-254 | finalizing an active reservation and releasing its spot keeps consistency, cannot fail to release, and takes one from both counts |
| `Tables.ReserveKeepsInvariant` | backend/cntrlrs/booking_apis.py:49-57 | reserve keeps the whole invariant, with Occupied and active counts each up by one |
| `Tables.ReleaseKeepsInvariant` | backend/cntrlrs/booking_apis.py:78 | the spot of an active reservation exists, is Occupied and has a lot; release keeps the invariant, with both counts each down by one |
| `Tables.AddSpotsKeepsInvariant` | backend/model.py:111-120 | inserting fresh Available spots of stored lots, with no label clash, keeps the invariant |
| `Tables.AddSpotsKeepsLabelsUnique` | backend/model.py:146-148 | inserting rows whose labels clash with no stored label of their lot keeps labels unique per lot |
| `Tables.RemoveSpotsKeepsInvariant` | backend/cntrlrs/parkinglot_apis.py:94-95 | deleting Available spots together with their cascaded reservations keeps the invariant |
| `Tables.RemoveSpotsKeepsConsistent` | backend/model.py:144 | deleting Available spots and their reservations keeps both counts |
| `Tables.RemoveLotKeepsInvariant` | backend/cntrlrs/parkinglot_apis.py:118-119 | deleting a lot with no Occupied spot, with its spots and their reservations, keeps the invariant |
| `Tables.ShrinkKeepsReconciled` | backend/cntrlrs/parkinglot_apis.py:94-96 | deleting d of a lot's spots and lowering its stored count by d keeps rows = stored count |
| `Tables.GrowKeepsReconciled` | backend/cntrlrs/parkinglot_apis.py:96-101 | inserting spots of a lot and storing the raised count keeps rows = stored count |
| `Tables.LotSpotIdsWithout` | backend/cntrlrs/parkinglot_apis.py:94-95 | deleting spots of one lot changes no other lot's spots |
| `LotApi.Get` | backend/cntrlrs/parkinglot_apis.py:26-35 | id 0 lists every lot once in id order; an unknown id is a 404 "Parking lot not found"; a known one gives the lot and exactly its spots, listed in id order (see Left out) |
| `LotApi.RequestedCount` | backend/cntrlrs/parkinglot_apis.py:43 | an absent count reads as 0; a present one is parsed as Python's `int` |
| `LotApi.FreshLotSpots` | backend/cntrlrs/parkinglot_apis.py:59 | for a new lot, `create_spots` plans S1..Sn, which clash with nothing |
| `LotApi.Post` | backend/cntrlrs/parkinglot_apis.py:37-63 | an unparsable count is a 500 and an empty name, address or pin code is a 400, both with no change; otherwise the lot is stored under a new id and spots S1..Sn are added, reservations untouched |
| `LotApi.PostKeepsReconciled` | backend/cntrlrs/parkinglot_apis.py:48-59 | after create, the new lot has exactly max(0, n) spot rows and other lots are unaffected |
| `LotApi.Patched` | backend/cntrlrs/parkinglot_apis.py:72-79 | each field present in the payload overwrites the lot's field, and every absent field (and the count) is kept |
| `LotApi.ShrinkVictimsShape` | backend/cntrlrs/parkinglot_apis.py:88-95 | a shrink by d deletes exactly d Available spots of the lot, and no Available spot it keeps has a higher id |
| `LotApi.DeleteHighestAvailable` | backend/cntrlrs/parkinglot_apis.py:90-95 | the deletion loop removes exactly the victims, and the reservations of those spots with them |
| `LotApi.Highest` | backend/cntrlrs/parkinglot_apis.py:90 | picks the largest id of a non-empty set |
| `LotApi.Put` | backend/cntrlrs/parkinglot_apis.py:65-108 | answers and stores what `PutOutcome` specifies, and keeps the invariant |
| `LotApi.Resize` | backend/cntrlrs/parkinglot_apis.py:85-101 | the resize step stores what `ResizeOutcome` specifies, and keeps the invariant |
| `LotApi.Shrink` | backend/cntrlrs/parkinglot_apis.py:86-96 | a resize below the stored count stores what `ResizeOutcome` specifies, and keeps the invariant |
| `LotApi.ShrinkOutcomeOf` | backend/cntrlrs/parkinglot_apis.py:86-96 | a shrink the lot has enough Available spots for succeeds, deleting exactly the victims and their reservations and storing the new count |
| `LotApi.Grow` | backend/cntrlrs/parkinglot_apis.py:96-101 | a resize at or above the stored count stores what `ResizeOutcome` specifies, and keeps the invariant |
| `LotApi.ShrinkKeepsInvariant` | backend/cntrlrs/parkinglot_apis.py:94-96 | deleting the shrink victims and rewriting the lot keeps the invariant |
| `LotApi.PutRefusals` | backend/cntrlrs/parkinglot_apis.py:66-68 | 404 exactly for an unknown lot; every refusal except a 500 changes nothing; no error changes spots, reservations, users or the set of lots |
| `LotApi.PutWritesPayload` | backend/cntrlrs/parkinglot_apis.py:72-96 | a successful update rewrites only that lot, only its present fields, and stores a present count as parsed (never negative) |
| `LotApi.PutNegativeRefused` | backend/cntrlrs/parkinglot_apis.py:81-83 | a negative count is a 400 with no change |
| `LotApi.PutShrink` | backend/cntrlrs/parkinglot_apis.py:85-95 | fewer Available spots than stored − n: 400 and no change; otherwise exactly stored − n spots are deleted, all Available, highest ids first, other rows unchanged and no Occupied spot deleted |
| `LotApi.PutGrow` | backend/cntrlrs/parkinglot_apis.py:96-101 | a grow stores the new count and inserts exactly the planned spots; on a label clash it ends in a 500 with the spots unchanged |
| `LotApi.PutKeepsReconciled` | backend/cntrlrs/parkinglot_apis.py:85-101 | a successful update keeps rows = stored count for every lot |
| `LotApi.ResizeKeepsReconciled` | backend/cntrlrs/parkinglot_apis.py:86-101 | a successful resize keeps rows = stored count for every lot |
| `LotApi.DeleteKeepsReconciled` | backend/cntrlrs/parkinglot_apis.py:118-119 | deleting a lot with its spots leaves the other lots reconciled |
| `LotApi.CanonicalLabelsGrow` | backend/model.py:111-115 | if a lot's labels are exactly S1..Sk, the labels `create_spots` plans clash with none of them, and afterwards they are exactly S1..Sm |
| `LotApi.ShrinkThenGrowClashes` | backend/model.py:147 | a lot with S1, S2 and S3 (S3 Occupied), shrunk to 2 (which deletes S2) and grown back to 3, plans S3 again: 500, count 3 stored over 2 rows |
| `LotApi.ClashExampleSound` | backend/cntrlrs/parkinglot_apis.py:86-101 | the example's starting tables keep the invariant and are reconciled |
| `LotApi.Delete` | backend/cntrlrs/parkinglot_apis.py:110-123 | unknown lot: 404; some Occupied spot: 400; both with no change; otherwise the lot, its spots and their reservations are removed, users untouched |
| `BookingApi.View` | backend/model.py:261-281 | `to_dict`: the spot's label exactly when the spot exists, the lot's name exactly when spot and lot exist, status "active" iff open; user, spot, cost, parking and leaving times and vehicle copied from the row |
| `BookingApi.ReserveAnswer` | backend/cntrlrs/booking_apis.py:26-63 | a missing field is a 400; an unknown user or lot is a 404; a lot with no Available spot is a 400; otherwise the answer is the next reservation id and the lowest-id Available spot of the lot |
| `BookingApi.Reserve` | backend/cntrlrs/booking_apis.py:26-63 | answers as `ReserveAnswer`, and a refusal changes nothing; on success, only the chosen spot is occupied with the vehicle at `now`, and only one new active reservation is added; both counts go up by one and the invariant holds |
| `BookingApi.Book` | backend/cntrlrs/booking_apis.py:49-58 | the commit inserts the reservation under the next id and occupies the chosen Available spot with the vehicle at `now`, changing nothing else; the invariant holds and both counts go up by one |
| `BookingApi.Release` | backend/cntrlrs/booking_apis.py:71-87 | unknown reservation: 404; already released: 400; both with no change; otherwise the reservation is finalized at now at its lot's price, its spot is released, and both counts go down by one |
| `BookingApi.UserBookings` | backend/cntrlrs/booking_apis.py:95-105 | missing id: 400; unparsable or unknown id: 404; otherwise the views of that user's reservations, each once, listed in id order (see Left out) |
| `BookingApi.UserBookingsComplete` | backend/cntrlrs/booking_apis.py:104 | every reservation of the user is in the list |
| `Charts.Bar` | backend/cntrlrs/chart_apis.py:28-36 | total = the lot's spot rows, available = its status-"A" spots, available + occupied = total, and occupied = its Occupied spots, within 0..total |
| `Charts.LotOrder` | backend/cntrlrs/chart_apis.py:25 | every lot exactly once, listed in ascending id order (see Left out) |
| `Charts.Bars` | backend/cntrlrs/chart_apis.py:25-37 | one `spots_by_lot` entry per lot, in lot order |
| `Charts.BarsOccupiedTotal` | backend/cntrlrs/chart_apis.py:27-37 | when every spot has a lot, the occupied figures add up to the number of Occupied spots |
| `Charts.SumOccupiedLots` | backend/cntrlrs/chart_apis.py:27-37 | over a list of distinct lots, the occupied figures add up to the Occupied spots of those lots |
| `Charts.CivilMonthInRange` | backend/cntrlrs/chart_apis.py:40 | every timestamp is grouped under a month between 1 and 12 |
| `Charts.EpochMonth` | backend/cntrlrs/chart_apis.py:40 | the first second of 1970 is in month 1970-01 |
| `Charts.BeforeEpochMonth` | backend/cntrlrs/chart_apis.py:40 | the last second of 1969 is in month 1969-12 |
| `Charts.LeapDayMonth` | backend/cntrlrs/chart_apis.py:40 | the last second of 29 February 2024 is in month 2024-02 |
| `Charts.AfterLeapDayMonth` | backend/cntrlrs/chart_apis.py:40 | the first second of 1 March 2024 is in month 2024-03 |
| `Charts.MonthlyCounts` | backend/cntrlrs/chart_apis.py:40-42 | one row per month in which some reservation started; each row counts the reservations started that month, and is never 0 |
| `Charts.MonthlyCountsSum` | backend/cntrlrs/chart_apis.py:40-42 | the monthly counts add up to the number of reservations |
| `Charts.SumOverMonths` | backend/cntrlrs/chart_apis.py:40-42 | over any set of months, the counts add up to the reservations started in those months |
| `Charts.GetChartData` | backend/cntrlrs/chart_apis.py:24-45 | the chart is the per-lot bars and the monthly counts |
| `Charts.UserBarOf` | backend/cntrlrs/chart_apis.py:84-103 | `total_spots` is the lot's spot rows; `user_booked` is that user's reservations whose spot lies in the lot |
| `Charts.UserChart` | backend/cntrlrs/chart_apis.py:69-105 | missing id: 400 "user_id required"; non-integer id: 400 "user_id must be integer"; otherwise one entry per lot, listed in id order (see Left out) |
| `Charts.UserChartTotal` | backend/cntrlrs/chart_apis.py:84-103 | in a linked store, `user_booked` adds up over the lots to the user's number of reservations |
| `Charts.SumBookedLots` | backend/cntrlrs/chart_apis.py:84-103 | over a list of distinct lots, `user_booked` adds up to the user's reservations in those lots |
| `Admin.DashboardOf` | backend/cntrlrs/admin_apis.py:41-58 | lots, spots and users are the row counts; `occupied_spots` is the number of reservations with a null leaving time; `active_reservations` equals it |
| `Admin.DashboardCountsOccupiedSpots` | backend/cntrlrs/admin_apis.py:45-49 | in a consistent store `occupied_spots` is also the number of spots with status Occupied |
| `Admin.Filled` | backend/cntrlrs/admin_apis.py:97-100 | `lot_name` and `spot_number` are set to the spot's lot's name and the spot's label when null or empty and the rows exist, and kept otherwise; nothing else changes |
| `Admin.FilledKeepsView` | backend/cntrlrs/admin_apis.py:97-100 | filling never changes a `to_dict` view |
| `Admin.Entry` | backend/cntrlrs/admin_apis.py:84-102 | a booking is its view plus its user (id, username, email), null exactly when the user row is missing |
| `Admin.NewestFirst` | backend/cntrlrs/admin_apis.py:81 | every reservation id once, strictly descending |
| `Admin.AllBookings` | backend/cntrlrs/admin_apis.py:80-104 | one entry per reservation, each the entry of its own id, ids strictly descending |
| `Admin.AllBookingsListEach` | backend/cntrlrs/admin_apis.py:81-102 | every reservation appears at exactly one position |
| `SpotApi.FirstActive` | backend/cntrlrs/parkingspot_apis.py:46-50 | none exactly when the spot has no open reservation; otherwise the open reservation of the spot with the lowest id |
| `SpotApi.ActiveOnConsistent` | backend/cntrlrs/parkingspot_apis.py:45-50 | in a consistent store an Available spot has no open reservation and an Occupied one has exactly one |
| `SpotApi.ParkedBy` | backend/cntrlrs/parkingspot_apis.py:52-59 | the vehicle and start come from the reservation; the user's name and email are null exactly when the user row is missing |
| `SpotApi.SpotDetails` | backend/cntrlrs/parkingspot_apis.py:29-68 | missing id: 400; unknown: 404; otherwise label, status, lot name (null without a lot) and occupant: all null iff not Occupied, the open reservation's vehicle when Occupied |
| `SpotApi.SpotDetailsAgreeWithSpot` | backend/cntrlrs/parkingspot_apis.py:45-66 | under the invariant, an Occupied spot always reports the vehicle and start its row records, and its user |
| `SpotApi.AdminSpotDetails` | backend/cntrlrs/parkingspot_apis.py:71-98 | unknown spot: 404; an open reservation whose user is missing: 500; with an open reservation, its user, vehicle and start; otherwise all null and `cost_till_now` 0 |
| `SpotApi.AdminSpotDetailsAgreeWithSpot` | backend/cntrlrs/parkingspot_apis.py:76-96 | under the invariant, the admin details never fail, and report a vehicle exactly when the spot is Occupied: the spot's own vehicle and start |
| `Decimal.NatToStringInjective` | backend/model.py:115 | distinct numbers render to distinct decimal strings |
| `Decimal.ParseIntOfNatToString` | backend/cntrlrs/parkinglot_apis.py:81 | parsing the decimal rendering of n gives n back |

## Left out

- Caching. `cache.cached` and `cache.delete_memoized` (flask-caching over Redis) are treated as no-ops. Every view is computed from the current tables, which is what an invalidated cache gives. The time-to-live staleness of a cache hit is not modelled.
- `backend/cntrlrs/lot_spots_apis.py` and `ParkingLotSpotsAPI` (backend/cntrlrs/parkinglot_apis.py:128-152) are not part of this model. They are listings of a lot's spots, ordered by id or by label.
- Concurrency and partial commits. Each handler runs atomically. The model does not cover races between two reserves, or `occupy`'s own commit before the reservation commit. The one partial commit that is modelled is the grow path of `put`, where the lot row is committed before `create_spots`.
- Clock. `datetime.utcnow()` is the parameter `now`. `occupy` and the new reservation read the clock separately in the source; here both use the same `now`. Timestamps are whole seconds, with no microseconds. `isoformat` and the rest of the JSON serialisation are left out; only the reservation's `status` is modelled.
- `Model.CostFor`: does not reproduce binary floating point. The cost is computed over exact reals and rounded half to even to hundredths, so it can differ from Python's `round` on a float in the last cent.
- Request parsing. A JSON body is a record of optional fields, so an absent field and an explicit `null` are the same here. In the source, `null` for a lot field in `put` fails the NOT NULL constraint, and `int(None)` raises. `int()` is modelled on text only: an optional sign and digits, with no surrounding whitespace, no `_` separators, and no float truncation of a JSON number. `float(price_per_hour)` is taken as already converted.
- `LotApi.Put`: a label clash in the grow path is a 500 with the new count stored. `Tables.Reconciled` is therefore proved per successful handler, not kept as an invariant.
- Ids in a reserve body are JSON integers. A string id that the ORM would coerce is not modelled.
- `BookingApi.UserBookings`: the `user_id` query text is looked up as `ParseInt` of the text. The source hands the raw text to `User.query.get` (backend/cntrlrs/booking_apis.py:100), and SQLite's type coercion also finds a user for text such as "5.0", which the model answers with a 404.
- Row ids. `Store` hands out ids from counters that only increase, so an id is never reused. On SQLite a table with a plain integer primary key gives a new row the highest stored id plus one, so an id can come back after the row holding the highest id is deleted (for example by the cascades of backend/model.py:80 and backend/model.py:144). The returned ids of `LotApi.Post`, `BookingApi.Reserve` and `BookingApi.ReserveAnswer` can therefore differ from the program's in that case.
- Load order. `ParkingLot.query.all()` (backend/cntrlrs/parkinglot_apis.py:33, backend/cntrlrs/chart_apis.py:25 and :81), the `lot.spots` relationship and `user.reservations` (backend/cntrlrs/booking_apis.py:104) carry no ORDER BY. The model lists them in ascending id order (`LotApi.Get`, `BookingApi.UserBookings`, `Charts.LotOrder`, `Charts.UserChart`), which is one order the database may return but not the only one; a spot listing read through the (lot, label) index would come back in label order. Likewise the unordered `.first()` of an open reservation (backend/cntrlrs/parkingspot_apis.py:45-49, 76-78) is modelled as the lowest id (`SpotApi.FirstActive`); under the invariant there is only one (`SpotApi.ActiveOnConsistent`).
- User deletion and its cascade to reservations, authentication, roles and `AdminCreateRoleAPI`, and `user_apis.py` are outside the core. Users are a read-only table.
- Scheduled e-mail (`celery_app.py`, `mail.py`), CSV export (`export_csv_task.py`, `export_csv_apis.py`), app wiring and configuration, and the frontend are outside the core.
- `ChartDataAPI.get`'s month grouping uses a proleptic Gregorian UTC calendar (`Charts.CivilMonth`). It is proved to give a month between 1 and 12 and checked on four dates; no round trip against a days-from-civil conversion is proved, and the rendering of `"%Y-%m"` as text is not modelled.
