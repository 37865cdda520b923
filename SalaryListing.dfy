/** `getSalary`: the salary records (or zero-filled placeholders) of the
    employees a query selects. */
module SalaryListing {
  import opened Wrappers
  import opened Records

  /** The query. `year` and `month` are None when not given; `""` stands for a
      missing employee id, employee name or department name. */
  datatype ListQuery = ListQuery(
    year: Option<int>,
    month: Option<int>,
    employeeId: string,
    employeeName: string,
    departmentName: string)

  predicate InDepartment(e: Employee, departmentName: string)
  {
    exists i :: 0 <= i < |e.department| && e.department[i].name == departmentName
  }

  /** The ids of the employees with a membership in the department, in directory order. */
  function DepartmentIds(directory: seq<Employee>, departmentName: string): (ids: seq<string>)
    ensures forall e :: e in directory && InDepartment(e, departmentName) ==> e.id in ids
    ensures forall id :: id in ids ==> exists e :: e in directory && InDepartment(e, departmentName) && e.id == id
  {
    if |directory| == 0 then []
    else
      var rest := DepartmentIds(directory[1..], departmentName);
      if InDepartment(directory[0], departmentName) then [directory[0].id] + rest else rest
  }

  /** The employees with the given id and name, in directory order. */
  function WithIdentity(directory: seq<Employee>, id: string, name: string): (s: seq<Employee>)
    ensures forall e :: e in s <==> e in directory && e.id == id && e.name == name
  {
    if |directory| == 0 then []
    else
      var rest := WithIdentity(directory[1..], id, name);
      if directory[0].id == id && directory[0].name == name then [directory[0]] + rest else rest
  }

  /** The employees whose id is among the given ids, in directory order. */
  function WithIdIn(directory: seq<Employee>, ids: seq<string>): (s: seq<Employee>)
    ensures forall e :: e in s <==> e in directory && e.id in ids
  {
    if |directory| == 0 then []
    else
      var rest := WithIdIn(directory[1..], ids);
      if directory[0].id in ids then [directory[0]] + rest else rest
  }

  /** The employees the query selects: by identity when an id is given, else
      those whose id belongs to a member of the department when one is given,
      else everyone. */
  function EmployeeScope(directory: seq<Employee>, q: ListQuery): seq<Employee>
  {
    if q.employeeId != "" then WithIdentity(directory, q.employeeId, q.employeeName)
    else if q.departmentName != "" then WithIdIn(directory, DepartmentIds(directory, q.departmentName))
    else directory
  }

  /** A stored record belongs to the employee and passes the year and month filters that are given. */
  predicate MatchesQuery(rec: SalaryRecord, e: Employee, q: ListQuery)
  {
    && rec.employeeId == e.id && rec.employeeName == e.name
    && (q.year.Some? ==> rec.year == q.year.value)
    && (q.month.Some? ==> rec.month == q.month.value)
  }

  /** `SalarySchema.findOne(...)`: the first matching record in storage order. */
  function FirstMatch(records: seq<SalaryRecord>, e: Employee, q: ListQuery): (r: Option<SalaryRecord>)
    ensures r.Some? ==> r.value in records && MatchesQuery(r.value, e, q)
    ensures r.Some? ==> exists i :: 0 <= i < |records| && records[i] == r.value
                                    && forall j :: 0 <= j < i ==> !MatchesQuery(records[j], e, q)
    ensures r.None? <==> forall rec :: rec in records ==> !MatchesQuery(rec, e, q)
  {
    if |records| == 0 then None
    else if MatchesQuery(records[0], e, q) then Some(records[0])
    else
      var r := FirstMatch(records[1..], e, q);
      if r.Some? then
        var i :| 0 <= i < |records[1..]| && records[1..][i] == r.value
                 && forall j :: 0 <= j < i ==> !MatchesQuery(records[1..][j], e, q);
        assert records[i + 1] == r.value;
        r
      else r
  }

  /** The zero-filled stand-in for an employee without a matching record. */
  function Placeholder(e: Employee, q: ListQuery): SalaryRecord
  {
    SalaryRecord(
      e.id, e.name,
      if q.year.Some? then q.year.value else 0,
      if q.month.Some? then q.month.value else 0,
      None, Finite(0.0), 0.0, 0.0, [], 0.0, 0.0, 0.0, Rates(0.0, 0.0, 0.0, 0.0, 0.0))
  }

  /** Every numeric field of a listed record is zero. */
  predicate ZeroFilled(rec: SalaryRecord)
  {
    && rec.totalSalary == Finite(0.0) && rec.totalTimes == 0.0 && rec.dayOff == 0.0
    && rec.totalHourWork == 0.0 && rec.totalHourOvertime == 0.0 && rec.totalKm == 0.0
    && rec.rates == Rates(0.0, 0.0, 0.0, 0.0, 0.0)
  }

  function Entry(records: seq<SalaryRecord>, e: Employee, q: ListQuery): SalaryRecord
  {
    match FirstMatch(records, e, q)
    case Some(rec) => rec
    case None => Placeholder(e, q)
  }

  /** The handler's result: one entry per selected employee, in order, or
      NotFound when the query selects nobody. */
  function ListSalaries(directory: seq<Employee>, records: seq<SalaryRecord>, q: ListQuery)
    : (r: Result<seq<SalaryRecord>, ApiError>)
    ensures r.Err? <==> |EmployeeScope(directory, q)| == 0
    ensures r.Err? ==> r.error == NotFound(NoEmployeesFound)
    ensures r.Ok? ==> |r.value| == |EmployeeScope(directory, q)|
  {
    var scope := EmployeeScope(directory, q);
    var entries := seq(|scope|, i requires 0 <= i < |scope| => Entry(records, scope[i], q));
    if |entries| == 0 then Err(NotFound(NoEmployeesFound)) else Ok(entries)
  }

  /** Entry i belongs to the i-th selected employee: it is that employee's
      first matching stored record, or, when none matches, a placeholder that
      echoes the employee's identity and the query's year and month (0 when
      not given) and has every numeric field zero. */
  lemma ListedEntry(directory: seq<Employee>, records: seq<SalaryRecord>, q: ListQuery, i: nat)
    requires i < |EmployeeScope(directory, q)|
    ensures ListSalaries(directory, records, q).Ok?
    ensures
      var e := EmployeeScope(directory, q)[i];
      var entry := ListSalaries(directory, records, q).value[i];
      && entry.employeeId == e.id && entry.employeeName == e.name
      && ((exists rec :: rec in records && MatchesQuery(rec, e, q)) ==>
            entry in records && MatchesQuery(entry, e, q) && entry == FirstMatch(records, e, q).value)
      && ((forall rec :: rec in records ==> !MatchesQuery(rec, e, q)) ==>
            && ZeroFilled(entry) && entry.hourNormal == [] && entry.dateCalculate == None
            && entry.year == (if q.year.Some? then q.year.value else 0)
            && entry.month == (if q.month.Some? then q.month.value else 0))
  {
  }

  /** With an employee id given the department filter plays no part. */
  lemma IdentityOverridesDepartment(directory: seq<Employee>, records: seq<SalaryRecord>, q: ListQuery, departmentName: string)
    requires q.employeeId != ""
    ensures EmployeeScope(directory, q) == EmployeeScope(directory, q.(departmentName := departmentName))
    ensures ListSalaries(directory, records, q) == ListSalaries(directory, records, q.(departmentName := departmentName))
  {
    var q' := q.(departmentName := departmentName);
    var scope := EmployeeScope(directory, q);
    assert forall i :: 0 <= i < |scope| ==> Entry(records, scope[i], q) == Entry(records, scope[i], q') by {
      forall i | 0 <= i < |scope| ensures Entry(records, scope[i], q) == Entry(records, scope[i], q') {
        EntryIgnoresDepartment(records, scope[i], q, q');
      }
    }
    var entries := seq(|scope|, i requires 0 <= i < |scope| => Entry(records, scope[i], q));
    var entries' := seq(|scope|, i requires 0 <= i < |scope| => Entry(records, scope[i], q'));
    assert entries == entries';
  }

  /** The record lookup does not read the department filter. */
  lemma {:induction false} EntryIgnoresDepartment(records: seq<SalaryRecord>, e: Employee, q: ListQuery, q': ListQuery)
    requires q' == q.(departmentName := q'.departmentName)
    ensures FirstMatch(records, e, q) == FirstMatch(records, e, q')
    ensures Entry(records, e, q) == Entry(records, e, q')
  {
    if |records| > 0 {
      EntryIgnoresDepartment(records[1..], e, q, q');
    }
  }

  /** Who is selected: with an id, exactly the directory's employees with that
      id and name; with only a department, exactly the employees sharing an id
      with a member of it (so a non-member with a member's id is listed too);
      otherwise the whole directory. */
  lemma ScopeMembers(directory: seq<Employee>, q: ListQuery)
    ensures q.employeeId != "" ==>
      forall e :: e in EmployeeScope(directory, q) <==> e in directory && e.id == q.employeeId && e.name == q.employeeName
    ensures q.employeeId == "" && q.departmentName != "" ==>
      forall e :: e in EmployeeScope(directory, q) <==>
        e in directory && exists m :: m in directory && InDepartment(m, q.departmentName) && m.id == e.id
    ensures q.employeeId == "" && q.departmentName == "" ==> EmployeeScope(directory, q) == directory
  {
  }
}
