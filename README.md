# Salary engine of the HR/payroll backend, in Dafny

This project models the salary controller of the payroll backend
(`controllers/salaryController.js`). It has two handlers.

- `salaryCalculate` computes one employee's salary record for a year and month. It validates the request, then looks up the employee and the month's statistics. It resolves the rate parameters a, b, c, d and f from the request's overrides and from the record already stored for the period. It folds the month's attendance rows into per-department hours and minutes and a distance total. It applies the regular or overtime formula and upserts the result into the salary collection.
- `getSalary` lists, for every employee a query selects, that employee's stored salary record or a zero-filled placeholder.

Modules, one per component of the controller:

- `Wrappers`: the `Option` and `Result` datatypes.
- `Coerce`: field values (`Absent | Num(r) | Junk`), JavaScript truthiness, and `ensureNumber`.
- `Records`: the documents (employee, monthly statistics, attendance row, salary record) and the error messages.
- `RateResolution`: the precedence of overrides, stored values and defaults. `ResolveRates` makes the handler's step-by-step reassignments and is proved equal to the case-by-case reference `ResolvedRates`.
- `Aggregation`: the `forEach` fold as an imperative loop (`Aggregate`). It is proved equal to a declarative reference: department names in order of first occurrence, with per-department sums (`Breakdown`), and the driver-gated distance sum (`DistanceTotal`).
- `Formula`: the day-off component, both salary branches and rounding to cents.
- `SalaryStore`: the salary collection as a sequence in storage order, with lookup by key and upsert.
- `SalaryEngine`: precondition checks in the handler's order, the reference outcome `Calculation`, and the class `SalaryTable`. That class keeps the collection as a field, and its method `Calculate` updates it in place. Its invariant is one record per key, with every finite salary a whole number of cents; calls are taken one at a time.
- `SalaryListing`: `getSalary`, whose employee scope and record-or-placeholder mapping are functions over sequences.

Behaviour worth knowing, all taken from the code:

- **d has no carry-over.** A falsy `d_new` (missing or 0) gives 0.25 when a record is already stored, and 0 when none is. The stored `d_parameter` is never read.
- **No stored record means zero rates.** With no overrides and no stored record, every rate is 0, d included.
- **The driver check looks at every membership.** A row qualifies when any membership entry has the row's department name and lists "Autofahrer". It need not be the first entry with that name.
- **The day-off term is a scalar product.** `[(b*3)/65] * days_off` coerces the one-element array to its number, so it equals `(b*3/65)*days_off`.
- **Recalculation is not always stable.** Calculating twice with the same inputs leaves one record per key. The second record equals the first, up to its timestamp, exactly when `d_new` is truthy or a record existed before the first call. Otherwise d moves from 0 to 0.25 (`Recalculation`).
- **Zero contracted hours give a non-finite salary.** When `total_time_per_month` coerces to 0, the formula yields NaN or Infinity, modelled as `NonFinite`. The model stores that record; whether the database accepts such a value is not modelled (see "Left out").

## Model

| member | source | states |
|---|---|---|
| `Coerce.FalsyCoercesToZero` | controllers/salaryController.js:8-10 | a falsy value coerces to 0; a non-zero coercion comes from a truthy number equal to it |
| `RateResolution.ResolveRates` | controllers/salaryController.js:45-60 | the step-by-step reassignment of a, b, c, d, f equals the case-by-case precedence `ResolvedRates` |
| `RateResolution.CarriedRateCases` | controllers/salaryController.js:45-60 | for a, b, c, f: a truthy override is used after coercion (non-numeric gives 0); a falsy override carries the stored value over, or gives 0 when no record is stored |
| `RateResolution.DistanceRateCases` | controllers/salaryController.js:48-59 | for d: a non-zero number is used; a non-numeric override gives 0.25; a falsy override gives 0.25 with a stored record and 0 without |
| `RateResolution.StoredDistanceRateIgnored` | controllers/salaryController.js:48-59 | two stored records that differ only in d resolve to the same rates |
| `RateResolution.NoOverrides` | controllers/salaryController.js:45-60 | without overrides a stored record's a, b, c, f are reproduced and d is 0.25; without a stored record all five rates are 0 |
| `RateResolution.ResolutionStable` | controllers/salaryController.js:45-60 | resolving again against the rates just resolved changes nothing iff d had a truthy override or a record was stored |
| `Aggregation.Aggregate` | controllers/salaryController.js:93-117 | the in-place fold yields exactly the declarative breakdown (names in first-occurrence order, per-name sums) and the driver-gated distance sum |
| `Aggregation.FindDepartment` | controllers/salaryController.js:106 | `find` returns the index of the first entry with the department name, or -1 when no entry has that name |
| `Aggregation.BreakdownAppend` | controllers/salaryController.js:106-116 | a row of a new department appends a zero-based entry holding its hours and minutes; a row of a known department adds only to that entry |
| `Aggregation.SumsOfAbsentDepartment` | controllers/salaryController.js:107-116 | a department without rows sums to zero hours and zero minutes |
| `Aggregation.DepartmentNamesDistinct` | controllers/salaryController.js:106-114 | each department name occurs at most once in `hour_normal` |
| `Aggregation.DepartmentNamesComplete` | controllers/salaryController.js:106-114 | a name is in `hour_normal` iff some row carries it |
| `Aggregation.DepartmentNamesPrefix` | controllers/salaryController.js:106-114 | the names after a prefix of the rows are a prefix of the final names, so entries are never reordered |
| `Aggregation.FirstOccurrencePosition` | controllers/salaryController.js:106-114 | the department first seen at row i sits right after all names seen before row i (order of first occurrence) |
| `Aggregation.NoRows` | controllers/salaryController.js:82-93 | with zero rows the breakdown is empty and the distance total is 0 |
| `Aggregation.DistanceTotalConcat` | controllers/salaryController.js:97-104 | the distance total of two stretches of rows is the sum of their totals |
| `Aggregation.NonDriverRowIgnored` | controllers/salaryController.js:97-104 | inserting a row of a department without the driver role anywhere leaves the distance total unchanged |
| `Aggregation.NoDriverRowsNoDistance` | controllers/salaryController.js:85-104 | without qualifying rows the distance total stays 0 |
| `Aggregation.AnyMembershipQualifies` | controllers/salaryController.js:98-100 | for any membership list, any entry with the row's department name and the driver role qualifies the row and its kilometres are counted, whatever earlier entries of that name list |
| `Aggregation.HoursIgnoreMinutes` | controllers/salaryController.js:115-116 | the names and hour sums depend only on the rows' department names and hours, so minutes are never carried into hours |
| `Formula.Round2` | controllers/salaryController.js:125 | the result is a whole number of cents, lies within half a cent of the input and keeps its sign; an exact half cent is rounded away from zero |
| `Formula.Round2Idempotent` | controllers/salaryController.js:125 | rounding an already rounded amount changes nothing |
| `Formula.TotalSalary` | controllers/salaryController.js:123-129 | the salary is non-finite iff the contracted hours are 0; otherwise it is a whole number of cents |
| `Formula.OvertimeFormula` | controllers/salaryController.js:124 | over contract, `(a/T)*T + (total-T)*f - b - c + sdo - house + km*d` equals `a + (total-T)*f - b - c + (b*3/65)*days_off - house + km*d` |
| `Formula.RegularFormula` | controllers/salaryController.js:127 | within contract (total equal to T included) the salary is `(a/T)*total - b - c + (b*3/65)*days_off - house + km*d` |
| `Formula.SalaryByBranch` | controllers/salaryController.js:119-129 | the stored salary per branch: non-finite for T = 0; the rounded overtime formula with a in place of `(a/T)*T` iff total > T; else the rounded regular formula |
| `Formula.BranchesMeetAtContract` | controllers/salaryController.js:123-127 | at and above T the salary is the boundary salary plus `(total-T)*f`, so the two branches meet at T |
| `Formula.WorkedExample` | controllers/salaryController.js:120-128 | T = 200, total 220, a = 2000, b = 100, c = 50, d = 0.25, f = 15, house 100, one day off, 40 km gives 2064.62 |
| `SalaryStore.KeyIndex` | controllers/salaryController.js:38-43 | the index of the first record with the key, or -1 exactly when no record has it |
| `SalaryStore.RecordFor` | controllers/salaryController.js:38-43 | the lookup yields a stored record with the key, or nothing exactly when no record has it |
| `SalaryStore.UpsertKeepsKeysUnique` | controllers/salaryController.js:133-153 | upserting keeps at most one record per key |
| `SalaryStore.UpsertStoresRecord` | controllers/salaryController.js:133-153 | after an upsert the key's only record is the upserted one |
| `SalaryStore.UpsertKeepsOtherKeys` | controllers/salaryController.js:133-153 | every other key keeps its record or its absence |
| `SalaryStore.UpsertSize` | controllers/salaryController.js:133-153 | an overwrite keeps the collection's size; an insert grows it by one |
| `SalaryStore.UpsertTwice` | controllers/salaryController.js:133-153 | two upserts under one key leave what the second alone would |
| `SalaryEngine.FindEmployee` | controllers/salaryController.js:26 | the lookup yields the first directory employee with the requested id and name, or nothing exactly when none exists |
| `SalaryEngine.FindStats` | controllers/salaryController.js:30-35 | the lookup yields the first statistics document for the employee and period, or nothing exactly when none exists |
| `SalaryEngine.Precheck` | controllers/salaryController.js:18-36 | BadRequest iff year, month, id or name is falsy; only then, in order: "Employee not found!", "Employee not active!" and "Stats not found!"; success hands on the first matching employee, which is active, and the first matching statistics document |
| `SalaryEngine.FailureIndependentOfTableAndRows` | controllers/salaryController.js:18-36 | whether and how a call fails does not depend on the stored records or the rows; a missing required parameter fails with BadRequest before any lookup |
| `SalaryEngine.CalculatedRecord` | controllers/salaryController.js:73-129 | a stored record has the request's key, the call's time, the resolved rates, the fold's breakdown and distance, the coerced worked and overtime hours of the month's statistics and their sum as total, default minus realistic day-offs, and the formula's salary |
| `SalaryEngine.SalaryTable.Calculate` | controllers/salaryController.js:12-154 | returns the reference outcome; a failed call leaves the collection unchanged; a successful one leaves the collection upserted with the record; one record per key and rounded salaries are kept invariant |
| `SalaryEngine.Recalculation` | controllers/salaryController.js:45-153 | a second identical call keeps the collection's size and yields the same record up to its timestamp iff d was overridden with a truthy value or a record existed before |
| `SalaryListing.DepartmentIds` | controllers/salaryController.js:166-169 | the ids are those of the directory employees with a membership in the department |
| `SalaryListing.WithIdentity` | controllers/salaryController.js:172-173 | the selection is exactly the directory employees with the given id and name |
| `SalaryListing.WithIdIn` | controllers/salaryController.js:174 | the selection is exactly the directory employees whose id is among the given ids |
| `SalaryListing.ScopeMembers` | controllers/salaryController.js:166-174 | with an id, the scope is exactly the matching employees; with only a department, it is exactly the employees sharing an id with a member, so a non-member with a member's id is listed; otherwise it is the whole directory |
| `SalaryListing.IdentityOverridesDepartment` | controllers/salaryController.js:172-174 | when an employee id is given, the department filter changes neither the scope nor the listing |
| `SalaryListing.FirstMatch` | controllers/salaryController.js:178-182 | the first stored record, in storage order, of the employee that passes the given year and month filters, or nothing exactly when none does |
| `SalaryListing.ListSalaries` | controllers/salaryController.js:177-214 | NotFound ("No employees found.") iff the scope is empty; otherwise one entry per selected employee |
| `SalaryListing.ListedEntry` | controllers/salaryController.js:184-204 | entry i is for the i-th selected employee: its first matching record, or a placeholder echoing id, name and the query's year/month (0 when absent) with every numeric field 0 |

## Left out

- HTTP transport is out: status codes, JSON response shapes, `next(err)`, the `try`/`catch` around `getSalary` and database errors. Failures are modelled as `BadRequest` or `NotFound(message)`.
- Route wiring, the admin-token middleware, server start-up, CORS, the database connection and the scheduled auto-checkin are out. They hold no salary logic.
- Mongoose queries are modelled over sequences. `findOne` takes the first match in sequence order. `find({'department.name': …})` becomes "some membership has that name", and `$in` becomes membership in the list of ids. The order `find` returns is taken to be directory order.
- The attendance query's date range (lines 62-65) only narrows the database query. Its JavaScript `Date` month arithmetic is not modelled. `Calculate` takes the employee's rows for the month as an input.
- `employee.save()` (line 131) changes nothing and is not modelled. The calculation time `new Date()` is a parameter.
- `Promise.all` (line 177) is modelled as a sequential map. Only the order of its results matters.
- The salary collection holds at most one record per key. A real collection could hold duplicates written by other code; the model does not. The document `_id` is not modelled.
- `SalaryEngine.SalaryTable.Calculate`: each call is modelled as atomic. The handler awaits between its lookup of the stored record (line 38) and its insert (lines 146-147), so two overlapping calls for a fresh key can both insert, leaving two records for one key. The model does not capture this; its one-record-per-key invariant holds for calls made one after another.
- `SalaryEngine.SalaryTable.Calculate`: whether the database accepts a NaN or infinite `total_salary` is not modelled. The salary schema is not part of this model, and a cast error would make the write fail and leave the collection unchanged. The model stores `NonFinite`.
- Numbers are exact reals, not IEEE-754 doubles.
- `Formula.Round2`: rounds the exact real to the nearest cent, halves away from zero. It does not reproduce `toFixed` on binary doubles, or its exponent form for magnitudes of 1e21 and above.
- `Formula.TotalSalary`: NaN and ±Infinity (zero contracted hours) are one value, `NonFinite`.
- Coercion covers only `Absent | Num | Junk`. `Junk` is a non-empty non-numeric string, which is truthy. These are left out:
  - numeric strings from the request body;
  - an empty string;
  - `null`, for which `ensureNumber` returns `null`.
- A missing `shift_info` in a row makes the handler throw. Rows here always carry hours and minutes.
- Stored rate parameters are numbers, since this handler is what writes them. So the `ensureNumber` applied to them at lines 51-54 is the identity here.
- The request's year and month are the results of `parseInt`, with NaN as `None`. In `getSalary` a given year or month is an integer filter. A placeholder echoes it as that integer, where the source echoes the raw query string (lines 191-192). A query year that is given but non-numeric is not modelled.
- In `getSalary`, an absent `employeeName` alongside an `employeeID` is modelled as the empty name. Mongoose's handling of an `undefined` filter value is not modelled.
- A placeholder has no `hour_normal` and no `date_calculate` in the source. Here they are `[]` and `None`.
