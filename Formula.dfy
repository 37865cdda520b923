/** The salary formula: the day-off component, the regular and overtime
    branches, and rounding to cents. */
module Formula {
  import opened Records

  /** `[(b * 3) / 65] * days_off`: the one-element array coerces to its number,
      so this is the scalar product. */
  function SalaryDayOff(b: real, daysOff: real): real
  {
    (b * 3.0 / 65.0) * daysOff
  }

  /** The overtime branch is taken only when the total strictly exceeds the contracted hours. */
  predicate IsOvertime(totalTimes: real, contracted: real)
  {
    totalTimes > contracted
  }

  /** The unrounded salary, written as the handler writes both branches. */
  function RawSalary(r: Rates, totalTimes: real, contracted: real, houseRent: real, totalKm: real, daysOff: real): real
    requires contracted != 0.0
  {
    var common := - r.b - r.c + SalaryDayOff(r.b, daysOff) - houseRent + totalKm * r.d;
    if IsOvertime(totalTimes, contracted) then
      (r.a / contracted) * contracted + (totalTimes - contracted) * r.f + common
    else
      (r.a / contracted) * totalTimes + common
  }

  /** A value with a whole number of cents. */
  predicate IsCents(x: real)
  {
    (x * 100.0).Floor as real == x * 100.0
  }

  /** The amount of n cents. */
  function Cents(n: int): (r: real)
    ensures r * 100.0 == n as real
    ensures IsCents(r)
  {
    n as real / 100.0
  }

  /** `Number(x.toFixed(2))` over the reals: the nearest multiple of 0.01,
      halves rounded away from zero. */
  function Round2(x: real): (r: real)
    ensures IsCents(r)
    ensures -0.005 <= r - x <= 0.005
    ensures x >= 0.0 ==> r - x > -0.005
    ensures x < 0.0 ==> r - x < 0.005
    ensures (x >= 0.0 ==> r >= 0.0) && (x <= 0.0 ==> r <= 0.0)
  {
    if x >= 0.0 then
      var y := x * 100.0 + 0.5;
      assert y.Floor as real <= y < y.Floor as real + 1.0;
      Cents(y.Floor)
    else
      var y := -x * 100.0 + 0.5;
      assert y.Floor as real <= y < y.Floor as real + 1.0;
      Cents(-y.Floor)
  }

  /** The stored salary: NaN or Infinity when the contracted hours are 0,
      otherwise the rounded formula. */
  function TotalSalary(r: Rates, totalTimes: real, contracted: real, houseRent: real, totalKm: real, daysOff: real): (s: Amount)
    ensures s.NonFinite? <==> contracted == 0.0
    ensures s.Finite? ==> IsCents(s.value)
  {
    if contracted == 0.0 then NonFinite
    else Finite(Round2(RawSalary(r, totalTimes, contracted, houseRent, totalKm, daysOff)))
  }

  /** Over contract the source's `(a / T) * T` is the base rate a itself. */
  lemma OvertimeFormula(r: Rates, totalTimes: real, contracted: real, houseRent: real, totalKm: real, daysOff: real)
    requires contracted != 0.0 && totalTimes > contracted
    ensures RawSalary(r, totalTimes, contracted, houseRent, totalKm, daysOff)
         == r.a + (totalTimes - contracted) * r.f - r.b - r.c + (r.b * 3.0 / 65.0) * daysOff - houseRent + totalKm * r.d
  {
  }

  /** The stored salary branch by branch, with the overtime branch's
      `(a / T) * T` reduced to a. */
  lemma SalaryByBranch(r: Rates, totalTimes: real, contracted: real, houseRent: real, totalKm: real, daysOff: real)
    ensures var common := - r.b - r.c + (r.b * 3.0 / 65.0) * daysOff - houseRent + totalKm * r.d;
      && (contracted == 0.0 ==> TotalSalary(r, totalTimes, contracted, houseRent, totalKm, daysOff) == NonFinite)
      && (contracted != 0.0 && totalTimes > contracted ==>
            TotalSalary(r, totalTimes, contracted, houseRent, totalKm, daysOff)
            == Finite(Round2(r.a + (totalTimes - contracted) * r.f + common)))
      && (contracted != 0.0 && totalTimes <= contracted ==>
            TotalSalary(r, totalTimes, contracted, houseRent, totalKm, daysOff)
            == Finite(Round2((r.a / contracted) * totalTimes + common)))
  {
    if contracted != 0.0 && totalTimes > contracted {
      OvertimeFormula(r, totalTimes, contracted, houseRent, totalKm, daysOff);
      var raw := RawSalary(r, totalTimes, contracted, houseRent, totalKm, daysOff);
      var common := - r.b - r.c + (r.b * 3.0 / 65.0) * daysOff - houseRent + totalKm * r.d;
      assert raw == r.a + (totalTimes - contracted) * r.f + common;
    } else if contracted != 0.0 {
      var raw := RawSalary(r, totalTimes, contracted, houseRent, totalKm, daysOff);
      var common := - r.b - r.c + (r.b * 3.0 / 65.0) * daysOff - houseRent + totalKm * r.d;
      assert raw == (r.a / contracted) * totalTimes + common;
    }
  }

  /** Within contract the base rate is paid pro rata. */
  lemma RegularFormula(r: Rates, totalTimes: real, contracted: real, houseRent: real, totalKm: real, daysOff: real)
    requires contracted != 0.0 && totalTimes <= contracted
    ensures RawSalary(r, totalTimes, contracted, houseRent, totalKm, daysOff)
         == (r.a / contracted) * totalTimes - r.b - r.c + (r.b * 3.0 / 65.0) * daysOff - houseRent + totalKm * r.d
  {
  }

  /** The two branches meet at the contracted hours: at the boundary, and for
      any total above it, the salary is the boundary salary plus the overtime
      pay. */
  lemma BranchesMeetAtContract(r: Rates, totalTimes: real, contracted: real, houseRent: real, totalKm: real, daysOff: real)
    requires contracted != 0.0 && totalTimes >= contracted
    ensures RawSalary(r, totalTimes, contracted, houseRent, totalKm, daysOff)
         == RawSalary(r, contracted, contracted, houseRent, totalKm, daysOff) + (totalTimes - contracted) * r.f
  {
  }

  /** Rounding an amount that is already in cents changes nothing. */
  lemma Round2Idempotent(x: real)
    ensures Round2(Round2(x)) == Round2(x)
  {
    var r := Round2(x);
    var n := (r * 100.0).Floor;
    assert r * 100.0 == n as real;
    if r >= 0.0 {
      assert (r * 100.0 + 0.5).Floor == n;
    } else {
      assert (-r * 100.0 + 0.5).Floor == -n;
    }
  }

  /** A worked example: 200 contracted hours, 220 hours in total, a = 2000,
      b = 100, c = 50, d = 0.25, f = 15, house rent 100, one day off,
      40 km: 2000 + 300 - 150 + 300/65 - 100 + 10, rounded. */
  lemma WorkedExample()
    ensures TotalSalary(Rates(2000.0, 100.0, 50.0, 0.25, 15.0), 220.0, 200.0, 100.0, 40.0, 1.0) == Finite(2064.62)
  {
  }
}
