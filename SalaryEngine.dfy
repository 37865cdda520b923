/** `salaryCalculate`: validates the request, looks up the employee and the
    month's statistics, resolves the rates, folds the attendance rows, applies
    the formula and upserts the salary record. */
module SalaryEngine {
  import opened Wrappers
  import opened Coerce
  import opened Records
  import opened RateResolution
  import opened Aggregation
  import opened Formula
  import opened SalaryStore

  /** A calculation request. `year` and `month` are the results of `parseInt`
      on the query strings, None standing for NaN; `""` stands for a missing
      employee id or name. */
  datatype CalcRequest = CalcRequest(
    employeeId: string,
    employeeName: string,
    year: Option<int>,
    month: Option<int>,
    overrides: Overrides)

  /** A parsed number is truthy unless it is NaN or 0. */
  predicate TruthyNumber(v: Option<int>)
  {
    v.Some? && v.value != 0
  }

  /** The four request parameters the handler insists on. */
  predicate RequiredGiven(req: CalcRequest)
  {
    TruthyNumber(req.year) && TruthyNumber(req.month) && req.employeeId != "" && req.employeeName != ""
  }

  function RequestKey(req: CalcRequest): Key
    requires RequiredGiven(req)
  {
    Key(req.employeeId, req.employeeName, req.year.value, req.month.value)
  }

  /** `EmployeeSchema.findOne({ id, name })`: the first matching employee in directory order. */
  function FindEmployee(directory: seq<Employee>, id: string, name: string): (r: Option<Employee>)
    ensures r.Some? ==> r.value in directory && r.value.id == id && r.value.name == name
    ensures r.Some? ==> exists i :: 0 <= i < |directory| && directory[i] == r.value
                                    && forall j :: 0 <= j < i ==> !(directory[j].id == id && directory[j].name == name)
    ensures r.None? <==> forall e :: e in directory ==> !(e.id == id && e.name == name)
  {
    if |directory| == 0 then None
    else if directory[0].id == id && directory[0].name == name then Some(directory[0])
    else
      var r := FindEmployee(directory[1..], id, name);
      if r.Some? then
        var i :| 0 <= i < |directory[1..]| && directory[1..][i] == r.value
                 && forall j :: 0 <= j < i ==> !(directory[1..][j].id == id && directory[1..][j].name == name);
        assert directory[i + 1] == r.value;
        r
      else r
  }

  predicate StatsMatch(s: MonthlyStats, k: Key)
  {
    s.employeeId == k.employeeId && s.employeeName == k.employeeName && s.year == k.year && s.month == k.month
  }

  /** `StatsSchema.findOne(...)` for the period: the first matching aggregate in storage order. */
  function FindStats(stats: seq<MonthlyStats>, k: Key): (r: Option<MonthlyStats>)
    ensures r.Some? ==> r.value in stats && StatsMatch(r.value, k)
    ensures r.Some? ==> exists i :: 0 <= i < |stats| && stats[i] == r.value
                                    && forall j :: 0 <= j < i ==> !StatsMatch(stats[j], k)
    ensures r.None? <==> forall s :: s in stats ==> !StatsMatch(s, k)
  {
    if |stats| == 0 then None
    else if StatsMatch(stats[0], k) then Some(stats[0])
    else
      var r := FindStats(stats[1..], k);
      if r.Some? then
        var i :| 0 <= i < |stats[1..]| && stats[1..][i] == r.value
                 && forall j :: 0 <= j < i ==> !StatsMatch(stats[1..][j], k);
        assert stats[i + 1] == r.value;
        r
      else r
  }

  /** What the precondition checks hand on to the calculation. */
  datatype Checked = Checked(key: Key, employee: Employee, stats: MonthlyStats)

  /** The checks, in the handler's order: the required parameters before any
      lookup, then the employee's existence, its status, and the statistics. */
  function Precheck(req: CalcRequest, directory: seq<Employee>, stats: seq<MonthlyStats>): (r: Result<Checked, ApiError>)
    ensures r == Err(BadRequest) <==> !RequiredGiven(req)
    ensures r == Err(NotFound(EmployeeNotFound))
        <==> RequiredGiven(req) && forall e :: e in directory ==> !(e.id == req.employeeId && e.name == req.employeeName)
    ensures r == Err(NotFound(EmployeeNotActive))
        <==> RequiredGiven(req) && FindEmployee(directory, req.employeeId, req.employeeName).Some?
             && FindEmployee(directory, req.employeeId, req.employeeName).value.status == InactiveStatus
    ensures r == Err(NotFound(StatsNotFound))
        <==> RequiredGiven(req) && FindEmployee(directory, req.employeeId, req.employeeName).Some?
             && FindEmployee(directory, req.employeeId, req.employeeName).value.status != InactiveStatus
             && forall s :: s in stats ==> !StatsMatch(s, RequestKey(req))
    ensures r.Err? ==> r.error in {BadRequest, NotFound(EmployeeNotFound), NotFound(EmployeeNotActive), NotFound(StatsNotFound)}
    ensures r.Ok? ==> RequiredGiven(req) && r.value.key == RequestKey(req)
                      && r.value.employee in directory && r.value.employee.status != InactiveStatus
                      && r.value.employee.id == req.employeeId && r.value.employee.name == req.employeeName
                      && r.value.stats in stats && StatsMatch(r.value.stats, r.value.key)
    ensures r.Ok? ==> r.value.employee == FindEmployee(directory, req.employeeId, req.employeeName).value
                      && r.value.stats == FindStats(stats, RequestKey(req)).value
  {
    if !RequiredGiven(req) then Err(BadRequest)
    else
      match FindEmployee(directory, req.employeeId, req.employeeName)
      case None => Err(NotFound(EmployeeNotFound))
      case Some(e) =>
        if e.status == InactiveStatus then Err(NotFound(EmployeeNotActive))
        else
          match FindStats(stats, RequestKey(req))
          case None => Err(NotFound(StatsNotFound))
          case Some(s) => Ok(Checked(RequestKey(req), e, s))
  }

  function PriorRates(prior: Option<SalaryRecord>): Option<Rates>
  {
    if prior.Some? then Some(prior.value.rates) else None
  }

  /** The record the handler builds from the checked inputs, the resolved
      rates and the month's rows, stamped with `now`. */
  function BuildRecord(c: Checked, rates: Rates, rows: seq<AttendanceRow>, now: int): SalaryRecord
  {
    var e := c.employee;
    var totalTimes := EnsureNumber(c.stats.attendanceTotalTimes) + EnsureNumber(c.stats.attendanceOvertime);
    var daysOff := EnsureNumber(e.defaultDayOff) - EnsureNumber(e.realisticDayOff);
    var km := DistanceTotal(e.department, rows);
    SalaryRecord(
      e.id, e.name, c.key.year, c.key.month, Some(now),
      TotalSalary(rates, totalTimes, EnsureNumber(e.totalTimePerMonth), EnsureNumber(e.houseRentMoney), km, daysOff),
      totalTimes, daysOff, Breakdown(rows),
      EnsureNumber(c.stats.attendanceTotalTimes), EnsureNumber(c.stats.attendanceOvertime),
      km, rates)
  }

  /** The reference outcome of a calculation against the stored records. */
  function Calculation(records: seq<SalaryRecord>, req: CalcRequest, directory: seq<Employee>,
                       stats: seq<MonthlyStats>, rows: seq<AttendanceRow>, now: int): Result<SalaryRecord, ApiError>
  {
    match Precheck(req, directory, stats)
    case Err(e) => Err(e)
    case Ok(c) =>
      Ok(BuildRecord(c, ResolvedRates(req.overrides, PriorRates(RecordFor(records, c.key))), rows, now))
  }

  /** A stored salary is NaN/Infinity or a whole number of cents. */
  predicate SalaryInCents(a: Amount)
  {
    a.Finite? ==> IsCents(a.value)
  }

  /** The salary collection the handler reads and upserts. */
  class SalaryTable {
    var records: seq<SalaryRecord>

    ghost predicate Valid()
      reads this
    {
      && KeysUnique(records)
      && forall i :: 0 <= i < |records| ==> SalaryInCents(records[i].totalSalary)
    }

    constructor ()
      ensures Valid() && records == []
    {
      records := [];
    }

    /** The handler. `directory`, `stats` and `rows` are the employee, statistics
        and attendance collections (the rows already narrowed to the employee's
        month); `now` is the calculation time. */
    method Calculate(req: CalcRequest, directory: seq<Employee>, stats: seq<MonthlyStats>,
                     rows: seq<AttendanceRow>, now: int) returns (res: Result<SalaryRecord, ApiError>)
      requires Valid()
      modifies this
      ensures Valid()
      ensures res == Calculation(old(records), req, directory, stats, rows, now)
      ensures res.Err? ==> records == old(records)
      ensures res.Ok? ==> records == Upserted(old(records), res.value)
    {
      var checked := Precheck(req, directory, stats);
      if checked.Err? {
        return Err(checked.error);
      }
      var c := checked.value;
      var employee := c.employee;

      var existing := KeyIndex(records, c.key);
      var prior: Option<SalaryRecord> := if existing < 0 then None else Some(records[existing]);
      var rates := ResolveRates(req.overrides, PriorRates(prior));

      var hourNormal, totalKm := Aggregate(employee.department, rows);
      var totalTimes := EnsureNumber(c.stats.attendanceTotalTimes) + EnsureNumber(c.stats.attendanceOvertime);
      var daysOff := EnsureNumber(employee.defaultDayOff) - EnsureNumber(employee.realisticDayOff);
      var salary := TotalSalary(rates, totalTimes, EnsureNumber(employee.totalTimePerMonth),
                                EnsureNumber(employee.houseRentMoney), totalKm, daysOff);
      var rec := SalaryRecord(
        employee.id, employee.name, c.key.year, c.key.month, Some(now),
        salary, totalTimes, daysOff, hourNormal,
        EnsureNumber(c.stats.attendanceTotalTimes), EnsureNumber(c.stats.attendanceOvertime),
        totalKm, rates);
      assert KeyOf(rec) == c.key;

      UpsertKeepsKeysUnique(records, rec);
      if existing >= 0 {
        records := records[existing := rec];
      } else {
        records := records + [rec];
      }
      res := Ok(rec);
    }
  }

  /** A failing call fails the same way whatever is stored and whatever the
      rows are; a missing required parameter fails before any lookup. */
  lemma FailureIndependentOfTableAndRows(records: seq<SalaryRecord>, records': seq<SalaryRecord>, req: CalcRequest,
                                         directory: seq<Employee>, stats: seq<MonthlyStats>,
                                         rows: seq<AttendanceRow>, rows': seq<AttendanceRow>, now: int)
    ensures Calculation(records, req, directory, stats, rows, now).Err?
        <==> Calculation(records', req, directory, stats, rows', now).Err?
    ensures Calculation(records, req, directory, stats, rows, now).Err? ==>
      Calculation(records, req, directory, stats, rows, now) == Calculation(records', req, directory, stats, rows', now)
    ensures !RequiredGiven(req) ==> Calculation(records, req, directory, stats, rows, now) == Err(BadRequest)
  {
  }

  /** What a successful calculation stores: the request's key, the time of
      the call, the resolved rates, the fold's results, the worked and
      overtime hours of the month's statistics and their sum, and the
      formula's salary over them (see SalaryByBranch for its two branches). */
  lemma CalculatedRecord(records: seq<SalaryRecord>, req: CalcRequest, directory: seq<Employee>,
                         stats: seq<MonthlyStats>, rows: seq<AttendanceRow>, now: int)
    requires Calculation(records, req, directory, stats, rows, now).Ok?
    ensures
      var rec := Calculation(records, req, directory, stats, rows, now).value;
      var e := FindEmployee(directory, req.employeeId, req.employeeName).value;
      var s := FindStats(stats, RequestKey(req)).value;
      && RequiredGiven(req)
      && KeyOf(rec) == RequestKey(req)
      && rec.dateCalculate == Some(now)
      && rec.rates == ResolvedRates(req.overrides, PriorRates(RecordFor(records, RequestKey(req))))
      && rec.hourNormal == Breakdown(rows)
      && rec.totalKm == DistanceTotal(e.department, rows)
      && rec.totalHourWork == EnsureNumber(s.attendanceTotalTimes)
      && rec.totalHourOvertime == EnsureNumber(s.attendanceOvertime)
      && rec.totalTimes == rec.totalHourWork + rec.totalHourOvertime
      && rec.dayOff == EnsureNumber(e.defaultDayOff) - EnsureNumber(e.realisticDayOff)
      && rec.totalSalary == TotalSalary(rec.rates, rec.totalTimes, EnsureNumber(e.totalTimePerMonth),
                                        EnsureNumber(e.houseRentMoney), rec.totalKm, rec.dayOff)
  {
  }

  /** Calculating twice with the same inputs keeps a single record for the
      key, and the second record equals the first up to its timestamp exactly
      when d had a truthy override or a record was stored before the first
      call (otherwise d changes from 0 to 0.25). */
  lemma Recalculation(records: seq<SalaryRecord>, req: CalcRequest, directory: seq<Employee>,
                      stats: seq<MonthlyStats>, rows: seq<AttendanceRow>, now: int, later: int)
    requires KeysUnique(records)
    requires Calculation(records, req, directory, stats, rows, now).Ok?
    ensures
      var first := Calculation(records, req, directory, stats, rows, now).value;
      var after := Upserted(records, first);
      var second := Calculation(after, req, directory, stats, rows, later);
      && second.Ok?
      && KeyOf(second.value) == KeyOf(first)
      && |Upserted(after, second.value)| == |after|
      && (second.value == first.(dateCalculate := Some(later))
          <==> Truthy(req.overrides.dNew) || RecordFor(records, KeyOf(first)).Some?)
  {
    var c := Precheck(req, directory, stats).value;
    var prior := PriorRates(RecordFor(records, c.key));
    var first := Calculation(records, req, directory, stats, rows, now).value;
    var after := Upserted(records, first);
    var second := Calculation(after, req, directory, stats, rows, later).value;
    assert KeyOf(first) == c.key;
    UpsertStoresRecord(records, first);
    assert PriorRates(RecordFor(after, c.key)) == Some(ResolvedRates(req.overrides, prior));
    ResolutionStable(req.overrides, prior);
    UpsertTwice(records, first, second);
    UpsertSize(records, first);
    UpsertSize(records, second);
    assert second.rates == ResolvedRates(req.overrides, Some(ResolvedRates(req.overrides, prior)));
    assert first.rates == ResolvedRates(req.overrides, prior);
    if second == first.(dateCalculate := Some(later)) {
      assert second.rates == first.rates;
    }
  }
}
