/** The documents the salary controller reads and writes: employees, monthly
    statistics, attendance rows and salary records. */
module Records {
  import opened Wrappers
  import opened Coerce

  /** The position title that makes attendance in a department count towards distance pay. */
  const DriverRole: string := "Autofahrer"

  /** The employee status that blocks a salary calculation. */
  const InactiveStatus: string := "inactive"

  const EmployeeNotFound: string := "Employee not found!"
  const EmployeeNotActive: string := "Employee not active!"
  const StatsNotFound: string := "Stats not found!"
  const NoEmployeesFound: string := "No employees found."

  /** The failures the handlers report. */
  datatype ApiError = BadRequest | NotFound(message: string)

  /** One entry of an employee's `department` list. */
  datatype Membership = Membership(name: string, position: seq<string>)

  datatype Employee = Employee(
    id: string,
    name: string,
    status: string,
    department: seq<Membership>,
    totalTimePerMonth: Value,
    houseRentMoney: Value,
    defaultDayOff: Value,
    realisticDayOff: Value)

  /** The precomputed monthly aggregate for one employee and period. */
  datatype MonthlyStats = MonthlyStats(
    employeeId: string,
    employeeName: string,
    year: int,
    month: int,
    attendanceTotalTimes: Value,
    attendanceOvertime: Value)

  /** One attendance row of the month, with its shift information flattened in. */
  datatype AttendanceRow = AttendanceRow(
    departmentName: string,
    totalHour: Value,
    totalMinutes: Value,
    totalKm: Value)

  /** The five rate parameters a, b, c, d and f. */
  datatype Rates = Rates(a: real, b: real, c: real, d: real, f: real)

  /** The optional rate overrides `a_new` .. `f_new` of a calculation request. */
  datatype Overrides = Overrides(aNew: Value, bNew: Value, cNew: Value, dNew: Value, fNew: Value)

  /** One entry of a salary record's `hour_normal` list. */
  datatype DepartmentHours = DepartmentHours(departmentName: string, totalHour: real, totalMinutes: real)

  /** A computed salary: a number, or the NaN/Infinity the formula yields for zero contracted hours. */
  datatype Amount = Finite(value: real) | NonFinite

  /** The logical key of a salary record. */
  datatype Key = Key(employeeId: string, employeeName: string, year: int, month: int)

  datatype SalaryRecord = SalaryRecord(
    employeeId: string,
    employeeName: string,
    year: int,
    month: int,
    dateCalculate: Option<int>,
    totalSalary: Amount,
    totalTimes: real,
    dayOff: real,
    hourNormal: seq<DepartmentHours>,
    totalHourWork: real,
    totalHourOvertime: real,
    totalKm: real,
    rates: Rates)

  function KeyOf(r: SalaryRecord): Key
  {
    Key(r.employeeId, r.employeeName, r.year, r.month)
  }
}
