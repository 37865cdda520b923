/** The fold over the month's attendance rows: per-department hour and minute
    accumulators, and the distance total of the rows worked in a driver
    position. */
module Aggregation {
  import opened Coerce
  import opened Records

  /** Some membership entry (not necessarily the first with that name) names
      the department and lists the driver role among its positions. */
  predicate HoldsDriverRole(memberships: seq<Membership>, departmentName: string)
  {
    exists i :: 0 <= i < |memberships| && memberships[i].name == departmentName && DriverRole in memberships[i].position
  }

  /** The coerced kilometres of the rows that count towards distance pay. */
  function DistanceTotal(memberships: seq<Membership>, rows: seq<AttendanceRow>): real
  {
    if |rows| == 0 then 0.0
    else
      var last := rows[|rows| - 1];
      DistanceTotal(memberships, rows[..|rows| - 1])
      + (if HoldsDriverRole(memberships, last.departmentName) then EnsureNumber(last.totalKm) else 0.0)
  }

  /** The coerced hours of the rows of one department. */
  function HourSum(rows: seq<AttendanceRow>, departmentName: string): real
  {
    if |rows| == 0 then 0.0
    else
      var last := rows[|rows| - 1];
      HourSum(rows[..|rows| - 1], departmentName)
      + (if last.departmentName == departmentName then EnsureNumber(last.totalHour) else 0.0)
  }

  /** The coerced minutes of the rows of one department. */
  function MinuteSum(rows: seq<AttendanceRow>, departmentName: string): real
  {
    if |rows| == 0 then 0.0
    else
      var last := rows[|rows| - 1];
      MinuteSum(rows[..|rows| - 1], departmentName)
      + (if last.departmentName == departmentName then EnsureNumber(last.totalMinutes) else 0.0)
  }

  /** The departments of the rows, each once, in order of first occurrence. */
  function DepartmentNames(rows: seq<AttendanceRow>): seq<string>
  {
    if |rows| == 0 then []
    else
      var names := DepartmentNames(rows[..|rows| - 1]);
      var last := rows[|rows| - 1].departmentName;
      if last in names then names else names + [last]
  }

  /** The reference value of `hour_normal`: one entry per department name, in
      order of first occurrence, holding that department's sums. */
  function Breakdown(rows: seq<AttendanceRow>): (b: seq<DepartmentHours>)
    ensures |b| == |DepartmentNames(rows)|
  {
    var names := DepartmentNames(rows);
    seq(|names|, i requires 0 <= i < |names| =>
      DepartmentHours(names[i], HourSum(rows, names[i]), MinuteSum(rows, names[i])))
  }

  /** `hour_normal.find`: the index of the first entry for the department, or -1. */
  function FindDepartment(hours: seq<DepartmentHours>, departmentName: string): (j: int)
    ensures -1 <= j < |hours|
    ensures j >= 0 ==> hours[j].departmentName == departmentName
    ensures j >= 0 ==> forall k :: 0 <= k < j ==> hours[k].departmentName != departmentName
    ensures j == -1 ==> forall k :: 0 <= k < |hours| ==> hours[k].departmentName != departmentName
  {
    if |hours| == 0 then -1
    else if hours[0].departmentName == departmentName then 0
    else
      var k := FindDepartment(hours[1..], departmentName);
      if k < 0 then -1 else k + 1
  }

  /** The `forEach` over the month's rows: adds each driver row's kilometres to
      the distance total, and adds each row's hours and minutes to its
      department's entry, appending a zeroed entry on a department's first row. */
  method Aggregate(memberships: seq<Membership>, rows: seq<AttendanceRow>)
    returns (hourNormal: seq<DepartmentHours>, totalKm: real)
    ensures hourNormal == Breakdown(rows)
    ensures totalKm == DistanceTotal(memberships, rows)
  {
    hourNormal := [];
    totalKm := 0.0;
    var i := 0;
    while i < |rows|
      invariant 0 <= i <= |rows|
      invariant hourNormal == Breakdown(rows[..i])
      invariant totalKm == DistanceTotal(memberships, rows[..i])
    {
      var row := rows[i];
      assert rows[..i + 1] == rows[..i] + [row];
      assert (rows[..i] + [row])[..i] == rows[..i];
      if HoldsDriverRole(memberships, row.departmentName) {
        totalKm := totalKm + EnsureNumber(row.totalKm);
      }
      BreakdownAppend(rows[..i], row);
      var j := FindDepartment(hourNormal, row.departmentName);
      if j < 0 {
        hourNormal := hourNormal + [DepartmentHours(row.departmentName, 0.0, 0.0)];
        j := |hourNormal| - 1;
      }
      hourNormal := hourNormal[j := hourNormal[j].(
        totalHour := hourNormal[j].totalHour + EnsureNumber(row.totalHour),
        totalMinutes := hourNormal[j].totalMinutes + EnsureNumber(row.totalMinutes))];
      i := i + 1;
    }
    assert rows[..|rows|] == rows;
  }

  /** A department with no rows sums to zero. */
  lemma {:induction false} SumsOfAbsentDepartment(rows: seq<AttendanceRow>, departmentName: string)
    requires departmentName !in DepartmentNames(rows)
    ensures HourSum(rows, departmentName) == 0.0 && MinuteSum(rows, departmentName) == 0.0
  {
    if |rows| > 0 {
      SumsOfAbsentDepartment(rows[..|rows| - 1], departmentName);
    }
  }

  /** The department names never repeat. */
  lemma {:induction false} DepartmentNamesDistinct(rows: seq<AttendanceRow>)
    ensures forall i, j :: 0 <= i < j < |DepartmentNames(rows)| ==> DepartmentNames(rows)[i] != DepartmentNames(rows)[j]
  {
    if |rows| > 0 {
      DepartmentNamesDistinct(rows[..|rows| - 1]);
    }
  }

  /** A name is listed exactly when some row carries it. */
  lemma {:induction false} DepartmentNamesComplete(rows: seq<AttendanceRow>, departmentName: string)
    ensures departmentName in DepartmentNames(rows)
        <==> exists i :: 0 <= i < |rows| && rows[i].departmentName == departmentName
  {
    if |rows| > 0 {
      var init := rows[..|rows| - 1];
      DepartmentNamesComplete(init, departmentName);
      if exists i :: 0 <= i < |rows| && rows[i].departmentName == departmentName {
        var i :| 0 <= i < |rows| && rows[i].departmentName == departmentName;
        if i < |rows| - 1 {
          assert init[i] == rows[i];
        }
      }
      if exists i :: 0 <= i < |init| && init[i].departmentName == departmentName {
        var i :| 0 <= i < |init| && init[i].departmentName == departmentName;
        assert rows[i] == init[i];
      }
    }
  }

  /** The names of a prefix of the rows are a prefix of the names of all rows. */
  lemma {:induction false} DepartmentNamesPrefix(rows: seq<AttendanceRow>, n: nat)
    requires n <= |rows|
    ensures DepartmentNames(rows[..n]) <= DepartmentNames(rows)
  {
    if n < |rows| {
      var init := rows[..|rows| - 1];
      assert init[..n] == rows[..n];
      DepartmentNamesPrefix(init, n);
    } else {
      assert rows[..n] == rows;
    }
  }

  /** Order of first occurrence: the department first seen at row i comes
      right after the names of all earlier rows. */
  lemma FirstOccurrencePosition(rows: seq<AttendanceRow>, i: nat)
    requires i < |rows|
    requires forall k :: 0 <= k < i ==> rows[k].departmentName != rows[i].departmentName
    ensures |DepartmentNames(rows[..i])| < |DepartmentNames(rows)|
    ensures DepartmentNames(rows)[|DepartmentNames(rows[..i])|] == rows[i].departmentName
  {
    var before := rows[..i];
    assert rows[..i + 1][..i] == before;
    DepartmentNamesComplete(before, rows[i].departmentName);
    assert rows[i].departmentName !in DepartmentNames(before);
    assert DepartmentNames(rows[..i + 1]) == DepartmentNames(before) + [rows[i].departmentName];
    DepartmentNamesPrefix(rows, i + 1);
  }

  /** The step the loop of Aggregate takes: a row of a new department appends
      its entry, a row of a known department adds to that entry only. */
  lemma BreakdownAppend(rows: seq<AttendanceRow>, row: AttendanceRow)
    ensures row.departmentName !in DepartmentNames(rows) ==>
      Breakdown(rows + [row])
      == Breakdown(rows) + [DepartmentHours(row.departmentName, EnsureNumber(row.totalHour), EnsureNumber(row.totalMinutes))]
    ensures forall j :: 0 <= j < |DepartmentNames(rows)| && DepartmentNames(rows)[j] == row.departmentName ==>
      Breakdown(rows + [row])
      == Breakdown(rows)[j := Breakdown(rows)[j].(
           totalHour := Breakdown(rows)[j].totalHour + EnsureNumber(row.totalHour),
           totalMinutes := Breakdown(rows)[j].totalMinutes + EnsureNumber(row.totalMinutes))]
  {
    var all := rows + [row];
    assert all[..|all| - 1] == rows;
    var names := DepartmentNames(rows);
    forall n ensures HourSum(all, n) == HourSum(rows, n) + (if n == row.departmentName then EnsureNumber(row.totalHour) else 0.0)
                 ensures MinuteSum(all, n) == MinuteSum(rows, n) + (if n == row.departmentName then EnsureNumber(row.totalMinutes) else 0.0)
    {
    }
    if row.departmentName !in names {
      SumsOfAbsentDepartment(rows, row.departmentName);
    }
    DepartmentNamesDistinct(rows);
  }

  /** With no rows both results are empty. */
  lemma NoRows(memberships: seq<Membership>)
    ensures Breakdown([]) == [] && DistanceTotal(memberships, []) == 0.0
  {
  }

  /** The distance total of two stretches of rows is the sum of theirs. */
  lemma {:induction false} DistanceTotalConcat(memberships: seq<Membership>, xs: seq<AttendanceRow>, ys: seq<AttendanceRow>)
    ensures DistanceTotal(memberships, xs + ys) == DistanceTotal(memberships, xs) + DistanceTotal(memberships, ys)
  {
    if |ys| == 0 {
      assert xs + ys == xs;
    } else {
      var init := ys[..|ys| - 1];
      assert (xs + ys)[..|xs + ys| - 1] == xs + init;
      DistanceTotalConcat(memberships, xs, init);
    }
  }

  /** A row worked outside a driver position, wherever it stands, does not change the distance total. */
  lemma NonDriverRowIgnored(memberships: seq<Membership>, xs: seq<AttendanceRow>, row: AttendanceRow, ys: seq<AttendanceRow>)
    requires !HoldsDriverRole(memberships, row.departmentName)
    ensures DistanceTotal(memberships, xs + [row] + ys) == DistanceTotal(memberships, xs + ys)
  {
    DistanceTotalConcat(memberships, xs + [row], ys);
    DistanceTotalConcat(memberships, xs, ys);
    assert (xs + [row])[..|xs + [row]| - 1] == xs;
  }

  /** Without a row worked in a driver position the distance total is 0. */
  lemma {:induction false} NoDriverRowsNoDistance(memberships: seq<Membership>, rows: seq<AttendanceRow>)
    requires forall i :: 0 <= i < |rows| ==> !HoldsDriverRole(memberships, rows[i].departmentName)
    ensures DistanceTotal(memberships, rows) == 0.0
  {
    if |rows| > 0 {
      var init := rows[..|rows| - 1];
      assert forall i :: 0 <= i < |init| ==> init[i] == rows[i];
      NoDriverRowsNoDistance(memberships, init);
    }
  }

  /** The role check looks at every membership with the department's name:
      any entry with that name and the driver role qualifies the row, whatever
      the entries before it (with the same name or not) list. */
  lemma AnyMembershipQualifies(memberships: seq<Membership>, j: nat, row: AttendanceRow)
    requires j < |memberships| && memberships[j].name == row.departmentName
    requires DriverRole in memberships[j].position
    ensures HoldsDriverRole(memberships, row.departmentName)
    ensures DistanceTotal(memberships, [row]) == EnsureNumber(row.totalKm)
  {
  }

  /** The names and hours of the breakdown depend only on the rows' department
      names and hours: minutes are never carried into hours. */
  lemma {:induction false} HoursIgnoreMinutes(rows: seq<AttendanceRow>, other: seq<AttendanceRow>)
    requires |rows| == |other|
    requires forall i :: 0 <= i < |rows| ==>
      rows[i].departmentName == other[i].departmentName && rows[i].totalHour == other[i].totalHour
    ensures DepartmentNames(rows) == DepartmentNames(other)
    ensures forall n :: HourSum(rows, n) == HourSum(other, n)
  {
    if |rows| > 0 {
      var k := |rows| - 1;
      HoursIgnoreMinutes(rows[..k], other[..k]);
    }
  }
}
