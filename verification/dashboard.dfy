/** The dashboard figures: a hospital's bed totals and per-ward breakdown
    (most free beds first), today's movement, pending referrals, and the
    administrators' system-wide totals. */
module Dashboard {
  import opened Base
  import opened Http
  import opened Lists

  /** A row of `wards` as the dashboard selects it; missing counts are
      `None`. */
  datatype WardStat = WardStat(
    id: Id,
    hospitalId: Option<Id>,
    name: Option<string>,
    wardType: Option<string>,
    totalBeds: Option<int>,
    occupiedBeds: Option<int>)

  /** An occupancy percentage: 0 when there are no beds, otherwise the
      share `occupied / total` (shown rounded, as a percentage). */
  datatype Occupancy = NoBeds | Share(occupied: int, total: int)

  datatype WardBreakdown = WardBreakdown(
    id: Id,
    name: Option<string>,
    wardType: Option<string>,
    totalBeds: int,
    occupiedBeds: int,
    availableBeds: int,
    occupancy: Occupancy)

  datatype Summary = Summary(totalBeds: int, occupiedBeds: int, availableBeds: int, occupancy: Occupancy)
  datatype Today = Today(admissions: int, discharges: int, netChange: int)

  datatype HospitalStats = HospitalStats(
    summary: Summary,
    today: Today,
    pendingIncoming: int,
    pendingOutgoing: int,
    wards: seq<WardBreakdown>)

  /** The two pending-referral counts of the dashboard; a count the
      database does not return is `None`. */
  datatype Pending = Pending(incoming: Option<int>, outgoing: Option<int>)

  /** A row of `admissions` or `discharges` as the day's counts read it:
      its hospital and its time, as a UTC day and the whole seconds since
      that day's midnight. */
  datatype Movement = Movement(hospitalId: Option<Id>, day: int, second: nat)

  /** 23:59:59, the last whole second of a day. */
  const LastSecond := 86399

  predicate OnDay(m: Movement, today: int) {
    m.day == today
  }

  /** A movement of one hospital on one day. */
  predicate MovedOn(m: Movement, hospitalId: Option<Id>, today: int) {
    SqlEq(m.hospitalId, hospitalId) && OnDay(m, today)
  }

  /** The window the day's queries select, `>= <today>T00:00:00` and
      `< <today>T23:59:59`: it leaves out the day's last second. */
  predicate InWindowAsWritten(m: Movement, today: int) {
    m.day == today && m.second < LastSecond
  }

  /** Today's counts as the queries are written: the hospital's admissions
      but every hospital's discharges, both in the window above. */
  function TodayAsWritten(admissions: seq<Movement>, discharges: seq<Movement>, hospitalId: Option<Id>, today: int)
    : Today
  {
    var a := Count(admissions, (m: Movement) => SqlEq(m.hospitalId, hospitalId) && InWindowAsWritten(m, today));
    var d := Count(discharges, (m: Movement) => InWindowAsWritten(m, today));
    Today(a, d, a - d)
  }

  /** Today's counts as intended: the hospital's admissions and discharges
      over the whole day. */
  function TodayMovement(admissions: seq<Movement>, discharges: seq<Movement>, hospitalId: Option<Id>, today: int)
    : (t: Today)
    ensures 0 <= t.admissions <= |admissions| && 0 <= t.discharges <= |discharges|
    ensures t.netChange == t.admissions - t.discharges
  {
    var a := Count(admissions, (m: Movement) => MovedOn(m, hospitalId, today));
    var d := Count(discharges, (m: Movement) => MovedOn(m, hospitalId, today));
    Today(a, d, a - d)
  }

  /** Each row counts exactly when it is a movement of that hospital on that
      day, at whatever second: another row of the hospital's day adds one,
      and any other row adds nothing. */
  lemma TodayCountsEachOwnMovement(admissions: seq<Movement>, discharges: seq<Movement>, hospitalId: Option<Id>,
                                   today: int, m: Movement)
    ensures var before := TodayMovement(admissions, discharges, hospitalId, today);
      var bump := if MovedOn(m, hospitalId, today) then 1 else 0;
      && TodayMovement(admissions + [m], discharges, hospitalId, today).admissions == before.admissions + bump
      && TodayMovement(admissions, discharges + [m], hospitalId, today).discharges == before.discharges + bump
  {
    CountAppend(admissions, m, (m: Movement) => MovedOn(m, hospitalId, today));
    CountAppend(discharges, m, (m: Movement) => MovedOn(m, hospitalId, today));
  }

  /** As written, a discharge at another hospital inside the window counts
      against this hospital's day, although the intended count ignores it. */
  lemma DischargesAsWrittenCountOtherHospitals(admissions: seq<Movement>, discharges: seq<Movement>,
                                               hospitalId: Option<Id>, today: int, m: Movement)
    requires InWindowAsWritten(m, today) && !SqlEq(m.hospitalId, hospitalId)
    ensures TodayAsWritten(admissions, discharges + [m], hospitalId, today).netChange
         == TodayAsWritten(admissions, discharges, hospitalId, today).netChange - 1
    ensures TodayMovement(admissions, discharges + [m], hospitalId, today)
         == TodayMovement(admissions, discharges, hospitalId, today)
  {
    CountAppend(discharges, m, (m: Movement) => InWindowAsWritten(m, today));
    TodayCountsEachOwnMovement(admissions, discharges, hospitalId, today, m);
  }

  /** As written, an admission in the day's last second is not counted,
      although it is the hospital's own admission of that day. */
  lemma LastSecondAsWrittenMissed(admissions: seq<Movement>, discharges: seq<Movement>,
                                  hospitalId: Option<Id>, today: int, m: Movement)
    requires MovedOn(m, hospitalId, today) && m.second == LastSecond
    ensures TodayAsWritten(admissions + [m], discharges, hospitalId, today).admissions
         == TodayAsWritten(admissions, discharges, hospitalId, today).admissions
    ensures TodayMovement(admissions + [m], discharges, hospitalId, today).admissions
         == TodayMovement(admissions, discharges, hospitalId, today).admissions + 1
  {
    CountAppend(admissions, m, (m: Movement) => SqlEq(m.hospitalId, hospitalId) && InWindowAsWritten(m, today));
    TodayCountsEachOwnMovement(admissions, discharges, hospitalId, today, m);
  }

  /** `n || 0` for a count. */
  function OrZero(n: Option<int>): int {
    n.GetOr(0)
  }

  function TotalOf(w: WardStat): int {
    OrZero(w.totalBeds)
  }

  function OccupiedOf(w: WardStat): int {
    OrZero(w.occupiedBeds)
  }

  /** `total > 0 ? <percentage> : 0`. */
  function OccupancyOf(occupied: int, total: int): (o: Occupancy)
    ensures total <= 0 <==> o == NoBeds
    ensures o.Share? ==> o.occupied == occupied && o.total == total
  {
    if total > 0 then Share(occupied, total) else NoBeds
  }

  function Breakdown(w: WardStat): (b: WardBreakdown)
    ensures b.id == w.id && b.name == w.name && b.wardType == w.wardType
    ensures b.totalBeds == TotalOf(w) && b.occupiedBeds == OccupiedOf(w)
    ensures b.availableBeds == b.totalBeds - b.occupiedBeds
    ensures b.occupancy == NoBeds <==> w.totalBeds.None? || w.totalBeds.value <= 0
  {
    WardBreakdown(w.id, w.name, w.wardType, TotalOf(w), OccupiedOf(w), TotalOf(w) - OccupiedOf(w),
      OccupancyOf(OccupiedOf(w), TotalOf(w)))
  }

  function AvailableOf(b: WardBreakdown): int {
    b.availableBeds
  }

  /** The wards of one hospital. */
  function HospitalWards(table: seq<WardStat>, hospitalId: Option<Id>): (ws: seq<WardStat>)
    ensures forall w :: w in ws <==> w in table && SqlEq(w.hospitalId, hospitalId)
  {
    FilterMembers(table, (w: WardStat) => SqlEq(w.hospitalId, hospitalId));
    Filter(table, (w: WardStat) => SqlEq(w.hospitalId, hospitalId))
  }

  /** `getDashboardStats` for the actor's hospital. The day's counts are
      the intended ones, `TodayMovement`: the source's queries count other
      hospitals' discharges and leave out the day's last second (see
      `DischargesAsWrittenCountOtherHospitals` and
      `LastSecondAsWrittenMissed`). */
  function DashboardStats(table: seq<WardStat>, hospitalId: Option<Id>, admissions: seq<Movement>,
                          discharges: seq<Movement>, today: int, c: Pending): (r: HospitalStats)
    ensures var ws := HospitalWards(table, hospitalId);
      && r.summary.totalBeds == SumBy(ws, TotalOf)
      && r.summary.occupiedBeds == SumBy(ws, OccupiedOf)
      && r.summary.availableBeds == r.summary.totalBeds - r.summary.occupiedBeds
      && r.summary.occupancy == OccupancyOf(r.summary.occupiedBeds, r.summary.totalBeds)
      && multiset(r.wards) == multiset(Map(ws, Breakdown))
    ensures SortedDesc(r.wards, AvailableOf)
    ensures r.today == TodayMovement(admissions, discharges, hospitalId, today)
    ensures r.pendingIncoming == OrZero(c.incoming) && r.pendingOutgoing == OrZero(c.outgoing)
  {
    var ws := HospitalWards(table, hospitalId);
    var total := SumBy(ws, TotalOf);
    var occupied := SumBy(ws, OccupiedOf);
    HospitalStats(
      Summary(total, occupied, total - occupied, OccupancyOf(occupied, total)),
      TodayMovement(admissions, discharges, hospitalId, today),
      OrZero(c.incoming),
      OrZero(c.outgoing),
      SortDesc(Map(ws, Breakdown), AvailableOf))
  }

  /** The summary's free beds are the sum of the breakdown's free beds, so
      the two parts of the dashboard agree. */
  lemma {:induction false} SummaryMatchesBreakdown(table: seq<WardStat>, hospitalId: Option<Id>, admissions: seq<Movement>,
                                                   discharges: seq<Movement>, today: int, c: Pending)
    ensures var r := DashboardStats(table, hospitalId, admissions, discharges, today, c);
      r.summary.availableBeds == SumBy(r.wards, AvailableOf)
  {
    var ws := HospitalWards(table, hospitalId);
    var bs := Map(ws, Breakdown);
    SumBySortDesc(bs, AvailableOf, AvailableOf);
    var free := (w: WardStat) => TotalOf(w) - OccupiedOf(w);
    SumByMap(ws, Breakdown, AvailableOf, free);
    SumByDifference(ws, TotalOf, OccupiedOf, free);
  }

  /** With no beds in the hospital the occupancy shown is 0. */
  lemma NoBedsNoOccupancy(table: seq<WardStat>, hospitalId: Option<Id>, admissions: seq<Movement>,
                          discharges: seq<Movement>, today: int, c: Pending)
    requires forall w :: w in table ==> TotalOf(w) == 0
    ensures DashboardStats(table, hospitalId, admissions, discharges, today, c).summary.occupancy == NoBeds
  {
    var ws := HospitalWards(table, hospitalId);
    forall i | 0 <= i < |ws| ensures TotalOf(ws[i]) >= 0 {
      assert ws[i] in ws;
    }
    SumByNonNegative(ws, TotalOf);
    assert SumBy(ws, TotalOf) == 0 by {
      forall i | 0 <= i < |ws| ensures TotalOf(ws[i]) == 0 {
        assert ws[i] in ws;
      }
    }
  }

  const AdminOnly := "Only administrators can view system-wide stats"

  datatype SystemStats = SystemStats(
    hospitals: int,
    totalBeds: int,
    occupiedBeds: int,
    availableBeds: int,
    occupancy: Occupancy,
    todayAdmissions: int,
    pendingReferrals: int)

  /** `getSystemStats`: administrators only, totals over every ward. The
      day's admissions are counted over the whole day, as intended; the
      source's own window leaves out the last second (see
      `SystemLastSecondAsWrittenMissed`). */
  function GetSystemStats(role: Option<string>, table: seq<WardStat>, hospitals: Option<int>,
                          admissions: seq<Movement>, today: int, pendingReferrals: Option<int>): (r: Reply<SystemStats>)
    ensures role != Some("admin") <==> r == Fail(Forbidden, AdminOnly)
    ensures r.Ok? ==>
      && r.status == OkStatus
      && r.value.totalBeds == SumBy(table, TotalOf)
      && r.value.occupiedBeds == SumBy(table, OccupiedOf)
      && r.value.availableBeds == r.value.totalBeds - r.value.occupiedBeds
      && r.value.occupancy == OccupancyOf(r.value.occupiedBeds, r.value.totalBeds)
      && r.value.todayAdmissions == Count(admissions, (m: Movement) => OnDay(m, today))
      && r.value.hospitals == OrZero(hospitals) && r.value.pendingReferrals == OrZero(pendingReferrals)
  {
    if role != Some("admin") then Fail(Forbidden, AdminOnly)
    else
      var total := SumBy(table, TotalOf);
      var occupied := SumBy(table, OccupiedOf);
      Ok(OkStatus, SystemStats(OrZero(hospitals), total, occupied, total - occupied,
        OccupancyOf(occupied, total), Count(admissions, (m: Movement) => OnDay(m, today)), OrZero(pendingReferrals)))
  }

  /** The system-wide free beds are the sum of every ward's free beds as
      the per-hospital breakdown computes them. */
  lemma {:induction false} SystemAvailableIsSumOfWards(table: seq<WardStat>, hospitals: Option<int>,
                                                       admissions: seq<Movement>, today: int, pendingReferrals: Option<int>)
    ensures var r := GetSystemStats(Some("admin"), table, hospitals, admissions, today, pendingReferrals);
      r.Ok? && r.value.availableBeds == SumBy(Map(table, Breakdown), AvailableOf)
  {
    var free := (w: WardStat) => TotalOf(w) - OccupiedOf(w);
    SumByMap(table, Breakdown, AvailableOf, free);
    SumByDifference(table, TotalOf, OccupiedOf, free);
  }

  /** The system-wide admissions of the day include every hospital's own
      admissions of that day. */
  lemma SystemAdmissionsCoverEachHospital(table: seq<WardStat>, hospitals: Option<int>, admissions: seq<Movement>,
                                          today: int, pendingReferrals: Option<int>, hospitalId: Option<Id>)
    ensures var r := GetSystemStats(Some("admin"), table, hospitals, admissions, today, pendingReferrals);
      r.Ok? && TodayMovement(admissions, [], hospitalId, today).admissions <= r.value.todayAdmissions
  {
    CountImplies(admissions, (m: Movement) => MovedOn(m, hospitalId, today), (m: Movement) => OnDay(m, today));
  }

  /** The system-wide count of the day's admissions as the query is
      written, over the window that leaves out the last second. */
  function SystemAdmissionsAsWritten(admissions: seq<Movement>, today: int): nat {
    Count(admissions, (m: Movement) => InWindowAsWritten(m, today))
  }

  /** As written, an admission in the day's last second is missing from the
      system-wide count, although the intended count includes it. */
  lemma SystemLastSecondAsWrittenMissed(table: seq<WardStat>, hospitals: Option<int>, admissions: seq<Movement>,
                                        today: int, pendingReferrals: Option<int>, m: Movement)
    requires OnDay(m, today) && m.second == LastSecond
    ensures SystemAdmissionsAsWritten(admissions + [m], today) == SystemAdmissionsAsWritten(admissions, today)
    ensures var before := GetSystemStats(Some("admin"), table, hospitals, admissions, today, pendingReferrals);
      var after := GetSystemStats(Some("admin"), table, hospitals, admissions + [m], today, pendingReferrals);
      before.Ok? && after.Ok? && after.value.todayAdmissions == before.value.todayAdmissions + 1
  {
    CountAppend(admissions, m, (m: Movement) => InWindowAsWritten(m, today));
    CountAppend(admissions, m, (m: Movement) => OnDay(m, today));
  }
}
