/** The chart views, backend/cntrlrs/chart_apis.py: `ChartDataAPI.get` (per lot: total, Available
    and Occupied spots; reservations per calendar month) and `UserChartDataAPI.get` (per lot: the
    spots and how many of one user's reservations lie in it). Both list lots in id order. */
module Charts {
  import opened Wrappers
  import opened Decimal
  import opened Model
  import opened Tables
  import opened Api
  import BookingApi
  import Ordering

  const UserIdRequiredMessage := "user_id required"
  const UserIdIntegerMessage := "user_id must be integer"

  // ---------------------------------------------------------------------------------------
  // Spots by lot
  // ---------------------------------------------------------------------------------------

  /** One `spots_by_lot` entry of `ChartDataAPI.get`. */
  datatype LotBar = LotBar(lotId: Id, lotName: string, total: nat, available: nat, occupied: int)

  /** The entry of lot `lotId`: its spots, those with status "A", and the difference. The
      difference is exactly the number of its Occupied spots, so it is never negative. */
  function Bar(db: Db, lotId: Id): (b: LotBar)
    requires lotId in db.lots
    ensures b.lotId == lotId && b.lotName == db.lots[lotId].name
    ensures b.total == |LotSpotIds(db.spots, lotId)| && b.available == |AvailableIn(db.spots, lotId)|
    ensures b.available + b.occupied == b.total
    ensures b.occupied == |OccupiedIn(db.spots, lotId)| && 0 <= b.occupied <= b.total
  {
    var total := |LotSpotIds(db.spots, lotId)|;
    var available := |AvailableIn(db.spots, lotId)|;
    LotSplits(db.spots, lotId);
    LotBar(lotId, db.lots[lotId].name, total, available, total - available)
  }

  /** A lot's spots are its Available spots and its Occupied spots, and no spot is both. */
  lemma LotSplits(spots: map<Id, Spot>, lotId: Id)
    ensures |LotSpotIds(spots, lotId)| == |AvailableIn(spots, lotId)| + |OccupiedIn(spots, lotId)|
  {
    assert LotSpotIds(spots, lotId) == AvailableIn(spots, lotId) + OccupiedIn(spots, lotId);
    assert AvailableIn(spots, lotId) !! OccupiedIn(spots, lotId);
  }

  /** The stored lots in ascending id order, each once (`ORDER BY id` over the lot table). */
  ghost function LotOrder(db: Db): (ids: seq<Id>)
    ensures forall id :: id in ids <==> id in db.lots
    ensures forall i, j | 0 <= i < j < |ids| :: ids[i] < ids[j]
  {
    Ordering.SortedAsc(db.lots.Keys)
  }

  /** The `spots_by_lot` list: one entry per lot, in id order. */
  ghost function Bars(db: Db): (bars: seq<LotBar>)
    ensures |bars| == |LotOrder(db)|
    ensures forall i | 0 <= i < |bars| :: LotOrder(db)[i] in db.lots && bars[i] == Bar(db, LotOrder(db)[i])
  {
    var ids := LotOrder(db);
    seq(|ids|, i requires 0 <= i < |ids| => assert ids[i] in ids; Bar(db, ids[i]))
  }

  /** The Occupied spots of the first lots of a list. */
  function OccupiedInLots(spots: map<Id, Spot>, lotIds: seq<Id>): set<Id> {
    set sid | sid in spots && !IsAvailable(spots[sid]) && spots[sid].lotId in lotIds
  }

  function SumOccupied(bars: seq<LotBar>): int {
    if bars == [] then 0 else SumOccupied(bars[..|bars| - 1]) + bars[|bars| - 1].occupied
  }

  /** When every spot belongs to a stored lot, the `occupied` figures of the chart add up to the
      number of Occupied spots, the dashboard's `occupied_spots` count in a consistent store. */
  lemma BarsOccupiedTotal(db: Db)
    requires forall sid | sid in db.spots :: db.spots[sid].lotId in db.lots
    ensures SumOccupied(Bars(db)) == OccupiedCount(db.spots)
  {
    BarsOccupied(db);
    OccupiedInAllLots(db.spots, LotOrder(db));
  }

  lemma BarsOccupied(db: Db)
    ensures SumOccupied(Bars(db)) == |OccupiedInLots(db.spots, LotOrder(db))|
  {
    SumOccupiedLots(db, Bars(db), LotOrder(db));
  }

  lemma OccupiedInAllLots(spots: map<Id, Spot>, lotIds: seq<Id>)
    requires forall sid | sid in spots :: spots[sid].lotId in lotIds
    ensures OccupiedInLots(spots, lotIds) == OccupiedIds(spots)
  {
  }

  lemma {:induction false} SumOccupiedLots(db: Db, bars: seq<LotBar>, ids: seq<Id>)
    requires |ids| == |bars|
    requires forall i | 0 <= i < |bars| :: ids[i] in db.lots && bars[i] == Bar(db, ids[i])
    requires forall i, j | 0 <= i < j < |ids| :: ids[i] < ids[j]
    ensures SumOccupied(bars) == |OccupiedInLots(db.spots, ids)|
  {
    if bars != [] {
      var n := |bars| - 1;
      SumOccupiedLots(db, bars[..n], ids[..n]);
      var before, here := OccupiedInLots(db.spots, ids[..n]), OccupiedIn(db.spots, ids[n]);
      assert ids == ids[..n] + [ids[n]];
      assert OccupiedInLots(db.spots, ids) == before + here;
      assert before !! here by {
        forall sid | sid in here ensures sid !in before {
          assert ids[n] !in ids[..n];
        }
      }
    }
  }

  // ---------------------------------------------------------------------------------------
  // Monthly reservations
  // ---------------------------------------------------------------------------------------

  /** A calendar month (UTC), what `strftime('%Y-%m', parking_timestamp)` names. */
  datatype YearMonth = YearMonth(year: int, month: int)

  /** The calendar month of a timestamp: whole days since 1970-01-01 taken to the proleptic
      Gregorian calendar (the civil-from-days conversion, with March-based years). */
  function CivilMonth(ts: Timestamp): YearMonth {
    var z := ts / 86400 + 719468;
    var era := z / 146097;
    var doe := z - era * 146097;
    var yoe := (doe - doe / 1460 + doe / 36524 - doe / 146096) / 365;
    var doy := doe - (365 * yoe + yoe / 4 - yoe / 100);
    var mp := (5 * doy + 2) / 153;
    var m := if mp < 10 then mp + 3 else mp - 9;
    YearMonth(yoe + era * 400 + (if m <= 2 then 1 else 0), m)
  }

  /** Every timestamp falls in one of the twelve months. */
  lemma CivilMonthInRange(ts: Timestamp)
    ensures 1 <= CivilMonth(ts).month <= 12
  {
    var z := ts / 86400 + 719468;
    var era := z / 146097;
    var doe := z - era * 146097;
    assert 0 <= doe < 146097;
    var t := doe - doe / 1460 + doe / 36524 - doe / 146096;
    assert doe / 1460 <= 100 && doe / 36524 <= 4 && doe / 146096 <= 1;
    assert doe - 101 <= t <= doe + 4;
    var yoe := t / 365;
    assert 365 * yoe <= t < 365 * yoe + 365;
    assert 0 <= yoe <= 400;
    assert 4 * (yoe / 4) <= yoe && 1460 * (doe / 1460) > doe - 1460;
    assert yoe / 4 <= doe / 1460 + 1;
    var doy := doe - (365 * yoe + yoe / 4 - yoe / 100);
    assert -61 <= doy <= 672;
    var mp := (5 * doy + 2) / 153;
    assert -2 <= mp <= 21;
  }

  /** The epoch is in January 1970. */
  lemma EpochMonth()
    ensures CivilMonth(0) == YearMonth(1970, 1)
  {
    assert 719468 / 146097 == 4;
    assert 135080 / 1460 == 92 && 135080 / 36524 == 3 && 135080 / 146096 == 0;
    assert 134991 / 365 == 369 && 369 / 4 == 92 && 369 / 100 == 3;
    assert 1532 / 153 == 10;
  }

  /** The second before the epoch is in December 1969: days are counted by floor division. */
  lemma BeforeEpochMonth()
    ensures CivilMonth(-1) == YearMonth(1969, 12)
  {
    assert -1 / 86400 == -1;
    assert 719467 / 146097 == 4;
    assert 135079 / 1460 == 92 && 135079 / 36524 == 3 && 135079 / 146096 == 0;
    assert 134990 / 365 == 369 && 369 / 4 == 92 && 369 / 100 == 3;
    assert 1527 / 153 == 9;
  }

  /** The last second of 29 February 2024 is in February, a leap day. */
  lemma LeapDayMonth()
    ensures CivilMonth(1709251199) == YearMonth(2024, 2)
  {
    assert 1709251199 / 86400 == 19782;
    assert 739250 / 146097 == 5;
    assert 8765 / 1460 == 6 && 8765 / 36524 == 0 && 8765 / 146096 == 0;
    assert 8759 / 365 == 23 && 23 / 4 == 5 && 23 / 100 == 0;
    assert 1827 / 153 == 11;
  }

  /** The next second, 1 March 2024, is in March. */
  lemma AfterLeapDayMonth()
    ensures CivilMonth(1709251200) == YearMonth(2024, 3)
  {
    assert 1709251200 / 86400 == 19783;
    assert 739251 / 146097 == 5;
    assert 8766 / 1460 == 6 && 8766 / 36524 == 0 && 8766 / 146096 == 0;
    assert 8760 / 365 == 24 && 24 / 4 == 6 && 24 / 100 == 0;
    assert 2 / 153 == 0;
  }

  function Months(reservations: map<Id, Reservation>): set<YearMonth> {
    set rid | rid in reservations :: CivilMonth(reservations[rid].parkingTimestamp)
  }

  /** The reservations that started in one of the months of `months`. */
  function StartedIn(reservations: map<Id, Reservation>, months: set<YearMonth>): set<Id> {
    set rid | rid in reservations && CivilMonth(reservations[rid].parkingTimestamp) in months
  }

  /** The `monthly_reservations` rows: for each month in which some reservation started, how many
      did. */
  function MonthlyCounts(reservations: map<Id, Reservation>): (counts: map<YearMonth, nat>)
    ensures counts.Keys == Months(reservations)
    ensures forall ym | ym in counts :: counts[ym] == |StartedIn(reservations, {ym})| && counts[ym] > 0
  {
    var counts := map ym | ym in Months(reservations) :: |StartedIn(reservations, {ym})|;
    assert forall ym | ym in counts :: counts[ym] > 0 by {
      forall ym | ym in counts ensures counts[ym] > 0 {
        var rid :| rid in reservations && CivilMonth(reservations[rid].parkingTimestamp) == ym;
        assert rid in StartedIn(reservations, {ym});
      }
    }
    counts
  }

  ghost function SumCounts(counts: map<YearMonth, nat>, keys: set<YearMonth>): nat
    requires keys <= counts.Keys
    decreases keys
  {
    if keys == {} then 0
    else
      var k := Pick(keys);
      counts[k] + SumCounts(counts, keys - {k})
  }

  /** Some element of a non-empty set of months, the same one every time. */
  ghost function Pick(keys: set<YearMonth>): (k: YearMonth)
    requires keys != {}
    ensures k in keys
  {
    var k :| k in keys; k
  }

  /** Grouping by month counts every reservation once: the monthly counts add up to the number of
      reservations. */
  lemma MonthlyCountsSum(reservations: map<Id, Reservation>)
    ensures SumCounts(MonthlyCounts(reservations), Months(reservations)) == |reservations|
  {
    SumOverMonths(reservations, Months(reservations));
    assert StartedIn(reservations, Months(reservations)) == reservations.Keys;
  }

  lemma {:induction false} SumOverMonths(reservations: map<Id, Reservation>, keys: set<YearMonth>)
    requires keys <= Months(reservations)
    ensures SumCounts(MonthlyCounts(reservations), keys) == |StartedIn(reservations, keys)|
    decreases keys
  {
    var counts := MonthlyCounts(reservations);
    if keys == {} {
      assert StartedIn(reservations, keys) == {};
    } else {
      var k := Pick(keys);
      SumOverMonths(reservations, keys - {k});
      StartedInSplit(reservations, keys, k);
    }
  }

  /** The reservations started in a set of months are those started in one of them plus those
      started in the others. */
  lemma StartedInSplit(reservations: map<Id, Reservation>, keys: set<YearMonth>, k: YearMonth)
    requires k in keys
    ensures |StartedIn(reservations, keys)| == |StartedIn(reservations, {k})| + |StartedIn(reservations, keys - {k})|
  {
    var here, rest := StartedIn(reservations, {k}), StartedIn(reservations, keys - {k});
    assert StartedIn(reservations, keys) == here + rest;
    assert here !! rest;
  }

  /** `ChartDataAPI.get`. */
  datatype ChartData = ChartData(spotsByLot: seq<LotBar>, monthly: map<YearMonth, nat>)

  ghost function GetChartData(db: Db): (c: ChartData)
    ensures c.spotsByLot == Bars(db) && c.monthly == MonthlyCounts(db.reservations)
  {
    ChartData(Bars(db), MonthlyCounts(db.reservations))
  }

  // ---------------------------------------------------------------------------------------
  // User chart
  // ---------------------------------------------------------------------------------------

  /** One `spots_by_lot` entry of `UserChartDataAPI.get`. */
  datatype UserBar = UserBar(lotId: Id, lotName: string, total: nat, userBooked: nat)

  /** The reservations of user `userId` whose spot is a stored spot of lot `lotId` (the join of
      reservations with spots). */
  function BookedIn(db: Db, userId: int, lotId: Id): set<Id> {
    set rid | rid in db.reservations && db.reservations[rid].userId as int == userId
      && db.reservations[rid].spotId in db.spots && db.spots[db.reservations[rid].spotId].lotId == lotId
  }

  function UserBarOf(db: Db, userId: int, lotId: Id): (b: UserBar)
    requires lotId in db.lots
    ensures b.lotId == lotId && b.lotName == db.lots[lotId].name
    ensures b.total == |LotSpotIds(db.spots, lotId)| && b.userBooked == |BookedIn(db, userId, lotId)|
  {
    UserBar(lotId, db.lots[lotId].name, |LotSpotIds(db.spots, lotId)|, |BookedIn(db, userId, lotId)|)
  }

  /** `UserChartDataAPI.get`: the `user_id` query parameter is required (400) and must read as an
      integer (400); then one entry per lot, in id order. An id that names no user is not an error:
      every lot shows 0 bookings. */
  ghost function UserChart(db: Db, userId: Option<string>): (r: Result<seq<UserBar>, ApiError>)
    ensures r == Err(ApiError(400, UserIdRequiredMessage)) <==> Missing(userId, "")
    ensures r == Err(ApiError(400, UserIdIntegerMessage)) <==> !Missing(userId, "") && ParseInt(userId.value).None?
    ensures r.Ok? ==>
      && |r.value| == |LotOrder(db)|
      && forall i | 0 <= i < |r.value| ::
           LotOrder(db)[i] in db.lots && r.value[i] == UserBarOf(db, ParseInt(userId.value).value, LotOrder(db)[i])
  {
    if Missing(userId, "") then Err(ApiError(400, UserIdRequiredMessage))
    else
      var parsed := ParseInt(userId.value);
      if parsed.None? then Err(ApiError(400, UserIdIntegerMessage))
      else
        var ids := LotOrder(db);
        Ok(seq(|ids|, i requires 0 <= i < |ids| => assert ids[i] in ids; UserBarOf(db, parsed.value, ids[i])))
  }

  function SumBooked(bars: seq<UserBar>): nat {
    if bars == [] then 0 else SumBooked(bars[..|bars| - 1]) + bars[|bars| - 1].userBooked
  }

  /** In a linked store the `user_booked` figures of a user's chart add up to the number of that
      user's reservations. */
  lemma UserChartTotal(db: Db, userId: Option<string>)
    requires Linked(db)
    requires UserChart(db, userId).Ok? && ParseInt(userId.value).value >= 0
    ensures SumBooked(UserChart(db, userId).value)
      == |BookingApi.ReservationsOf(db.reservations, ParseInt(userId.value).value as nat)|
  {
    var uid := ParseInt(userId.value).value;
    var bars, ids := UserChart(db, userId).value, LotOrder(db);
    assert SumBooked(bars) == |BookedInLots(db, uid, ids)| by {
      SumBookedLots(db, uid, bars, ids);
    }
    assert BookedInLots(db, uid, ids) == BookingApi.ReservationsOf(db.reservations, uid as nat) by {
      BookedInAllLots(db, uid, ids);
    }
  }

  /** The reservations of user `userId` whose spot lies in one of the lots of `lotIds`. */
  function BookedInLots(db: Db, userId: int, lotIds: seq<Id>): set<Id> {
    set rid | rid in db.reservations && db.reservations[rid].userId as int == userId
      && db.reservations[rid].spotId in db.spots && db.spots[db.reservations[rid].spotId].lotId in lotIds
  }

  lemma BookedInAllLots(db: Db, userId: nat, lotIds: seq<Id>)
    requires Linked(db)
    requires forall lid | lid in db.lots :: lid in lotIds
    ensures BookedInLots(db, userId, lotIds) == BookingApi.ReservationsOf(db.reservations, userId)
  {
  }

  lemma {:induction false} SumBookedLots(db: Db, userId: int, bars: seq<UserBar>, ids: seq<Id>)
    requires |ids| == |bars|
    requires forall i | 0 <= i < |bars| :: ids[i] in db.lots && bars[i] == UserBarOf(db, userId, ids[i])
    requires forall i, j | 0 <= i < j < |ids| :: ids[i] < ids[j]
    ensures SumBooked(bars) == |BookedInLots(db, userId, ids)|
  {
    if bars != [] {
      var n := |bars| - 1;
      SumBookedLots(db, userId, bars[..n], ids[..n]);
      var before, here := BookedInLots(db, userId, ids[..n]), BookedIn(db, userId, ids[n]);
      assert ids == ids[..n] + [ids[n]];
      assert BookedInLots(db, userId, ids) == before + here;
      assert before !! here by {
        forall rid | rid in here ensures rid !in before {
          assert ids[n] !in ids[..n];
        }
      }
    }
  }
}
