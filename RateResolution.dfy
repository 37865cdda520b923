/** Resolution of the rate parameters a, b, c, d and f from the request's
    overrides and the salary record already stored for the period. */
module RateResolution {
  import opened Wrappers
  import opened Coerce
  import opened Records

  /** The value `d` falls back to. */
  const DefaultDistanceRate: real := 0.25

  /** The effective value of a, b, c or f, case by case: a truthy override is
      used after coercion (so a non-numeric one gives 0); a falsy override
      (missing or 0) carries the stored value over, or gives 0 without a
      stored record. */
  function CarriedRate(override: Value, stored: Option<real>): real
  {
    match override
    case Num(n) =>
      if n != 0.0 then n
      else if stored.Some? then stored.value else 0.0
    case Junk => 0.0
    case Absent => if stored.Some? then stored.value else 0.0
  }

  /** The effective value of d, case by case: a non-zero numeric override is
      used; a non-numeric override gives 0.25; a falsy override gives 0.25 when
      a record is stored and 0 when none is. The stored d is never consulted. */
  function DistanceRate(override: Value, hasStored: bool): real
  {
    match override
    case Num(n) =>
      if n != 0.0 then n
      else if hasStored then DefaultDistanceRate else 0.0
    case Junk => DefaultDistanceRate
    case Absent => if hasStored then DefaultDistanceRate else 0.0
  }

  /** All five effective rates. */
  function ResolvedRates(o: Overrides, prior: Option<Rates>): Rates
  {
    match prior
    case None =>
      Rates(CarriedRate(o.aNew, None), CarriedRate(o.bNew, None), CarriedRate(o.cNew, None),
            DistanceRate(o.dNew, false), CarriedRate(o.fNew, None))
    case Some(p) =>
      Rates(CarriedRate(o.aNew, Some(p.a)), CarriedRate(o.bNew, Some(p.b)), CarriedRate(o.cNew, Some(p.c)),
            DistanceRate(o.dNew, true), CarriedRate(o.fNew, Some(p.f)))
  }

  /** The handler's resolution: every rate starts as its coerced override (d
      with the `|| 0.25` fallback), then falsy overrides are replaced by the
      stored value, or by 0 when nothing is stored (for d only the latter). */
  method ResolveRates(o: Overrides, prior: Option<Rates>) returns (r: Rates)
    ensures r == ResolvedRates(o, prior)
  {
    var a := EnsureNumber(o.aNew);
    var b := EnsureNumber(o.bNew);
    var c := EnsureNumber(o.cNew);
    var d := EnsureNumber(o.dNew);
    if d == 0.0 {
      d := DefaultDistanceRate;
    }
    var f := EnsureNumber(o.fNew);

    if !Truthy(o.aNew) && prior.Some? { a := prior.value.a; }
    if !Truthy(o.bNew) && prior.Some? { b := prior.value.b; }
    if !Truthy(o.cNew) && prior.Some? { c := prior.value.c; }
    if !Truthy(o.fNew) && prior.Some? { f := prior.value.f; }

    if !Truthy(o.aNew) && prior.None? { a := 0.0; }
    if !Truthy(o.bNew) && prior.None? { b := 0.0; }
    if !Truthy(o.cNew) && prior.None? { c := 0.0; }
    if !Truthy(o.dNew) && prior.None? { d := 0.0; }
    if !Truthy(o.fNew) && prior.None? { f := 0.0; }

    r := Rates(a, b, c, d, f);
  }

  /** The precedence for a, b, c and f in the three cases. */
  lemma CarriedRateCases(override: Value, stored: Option<real>)
    ensures Truthy(override) ==> CarriedRate(override, stored) == EnsureNumber(override)
    ensures !Truthy(override) && stored.Some? ==> CarriedRate(override, stored) == stored.value
    ensures !Truthy(override) && stored.None? ==> CarriedRate(override, stored) == 0.0
  {
  }

  /** The precedence for d in its four cases. */
  lemma DistanceRateCases(override: Value, hasStored: bool)
    ensures override.Num? && override.n != 0.0 ==> DistanceRate(override, hasStored) == override.n
    ensures override.Junk? ==> DistanceRate(override, hasStored) == DefaultDistanceRate
    ensures !Truthy(override) && hasStored ==> DistanceRate(override, hasStored) == DefaultDistanceRate
    ensures !Truthy(override) && !hasStored ==> DistanceRate(override, hasStored) == 0.0
  {
  }

  /** The stored d_parameter never influences the resolved d. */
  lemma StoredDistanceRateIgnored(o: Overrides, p: Rates, q: Rates)
    requires p.a == q.a && p.b == q.b && p.c == q.c && p.f == q.f
    ensures ResolvedRates(o, Some(p)) == ResolvedRates(o, Some(q))
  {
  }

  /** Without overrides a stored record's a, b, c and f are reproduced and d becomes 0.25;
      without a stored record every rate, d included, is 0. */
  lemma NoOverrides(o: Overrides, prior: Option<Rates>)
    requires !Truthy(o.aNew) && !Truthy(o.bNew) && !Truthy(o.cNew) && !Truthy(o.dNew) && !Truthy(o.fNew)
    ensures prior.Some? ==> ResolvedRates(o, prior) == prior.value.(d := DefaultDistanceRate)
    ensures prior.None? ==> ResolvedRates(o, prior) == Rates(0.0, 0.0, 0.0, 0.0, 0.0)
  {
  }

  /** Resolving again against the record just resolved gives the same rates
      exactly when d had a truthy override or a record was already stored:
      otherwise d moves from 0 to 0.25. */
  lemma ResolutionStable(o: Overrides, prior: Option<Rates>)
    ensures ResolvedRates(o, Some(ResolvedRates(o, prior))) == ResolvedRates(o, prior)
        <==> (Truthy(o.dNew) || prior.Some?)
  {
  }
}
