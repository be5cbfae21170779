/** Disk figures read from sensors, the figures derived from them, and the consistency check
    that follows; numbers are reals, rounded half to even. */
module DiskHealth {
  import opened Wrappers

  function Abs(x: real): real {
    if x < 0.0 then -x else x
  }

  function Round(x: real): int {
    var f := x.Floor;
    var d := x - f as real;
    if d < 0.5 || (d == 0.5 && f % 2 == 0) then f else f + 1
  }

  function RoundCents(x: real): real {
    Round(x * 100.0) as real / 100.0
  }

  /** Rounding is exact on integers, monotone, and nearest. */
  lemma RoundIsNearest(x: real, n: int)
    ensures Abs(Round(x) as real - x) <= 0.5
    ensures n as real <= x ==> n <= Round(x)
    ensures x <= n as real ==> Round(x) <= n
    ensures x <= 0.5 ==> Round(x) <= 0
  {
    var f := x.Floor;
    assert f as real <= x < f as real + 1.0;
  }

  // ---------------------------------------------------------------- one reading

  datatype Metric = Bytes | Percent | Count

  datatype ReadingError = SourceUnavailable | InvalidNumber | InvalidPercent | InvalidCountUnit | InvalidCountValue | InvalidByteUnit

  /** The state of a sensor: its text as a finite number if it is one, and its normalized unit. */
  datatype State = Unavailable | Reading(number: Option<real>, unit: string)

  function Factor(unit: string): Option<nat> {
    if unit == "b" || unit == "byte" || unit == "bytes" then Some(1)
    else if unit == "kb" then Some(1_000)
    else if unit == "mb" then Some(1_000_000)
    else if unit == "gb" then Some(1_000_000_000)
    else if unit == "tb" then Some(1_000_000_000_000)
    else if unit == "kib" then Some(1_024)
    else if unit == "mib" then Some(1_048_576)
    else if unit == "gib" then Some(1_073_741_824)
    else if unit == "tib" then Some(1_099_511_627_776)
    else None
  }

  function MetricValue(metric: Metric, state: State): Result<real, ReadingError> {
    if state.Unavailable? then Failure(SourceUnavailable)
    else if state.number.None? || state.number.value < 0.0 then Failure(InvalidNumber)
    else
      var number := state.number.value;
      match metric
      case Percent =>
        if state.unit != "%" || number > 100.0 then Failure(InvalidPercent) else Success(RoundCents(number))
      case Count =>
        if state.unit !in {"", "backup", "backups", "item", "items"} then Failure(InvalidCountUnit)
        else if number.Floor as real != number then Failure(InvalidCountValue)
        else Success(number)
      case Bytes =>
        var factor := Factor(state.unit);
        if factor.None? then Failure(InvalidByteUnit) else Success(Round(number * factor.value as real) as real)
  }

  /** An accepted percentage lies in 0..100 and an accepted size or count is a natural number,
      each as near its source as its grain allows. */
  lemma AcceptedReading(metric: Metric, state: State)
    requires MetricValue(metric, state).Success?
    ensures var value := MetricValue(metric, state).value;
            match metric
            case Percent => 0.0 <= value <= 100.0 && Abs(value - state.number.value) <= 0.005
            case Count => 0.0 <= value == state.number.value && value == value.Floor as real
            case Bytes => 0.0 <= value == value.Floor as real
                          && Abs(value - state.number.value * Factor(state.unit).value as real) <= 0.5
  {
    var number := state.number.value;
    match metric
    case Percent =>
      RoundIsNearest(number * 100.0, 0);
      RoundIsNearest(number * 100.0, 10_000);
    case Count =>
    case Bytes =>
      RoundIsNearest(number * Factor(state.unit).value as real, 0);
  }

  /** A reading is accepted exactly when the sensor gives a number that is not negative, in a unit
      the metric has, a percentage up to 100 and a count without a fraction. */
  lemma ReadingAccepted(metric: Metric, state: State)
    ensures MetricValue(metric, state).Success? <==>
              && state.Reading? && state.number.Some? && state.number.value >= 0.0
              && match metric
                 case Percent => state.unit == "%" && state.number.value <= 100.0
                 case Count => state.unit in {"", "backup", "backups", "item", "items"}
                               && state.number.value.Floor as real == state.number.value
                 case Bytes => Factor(state.unit).Some?
    ensures MetricValue(metric, state) == Failure(SourceUnavailable) <==> state.Unavailable?
    ensures MetricValue(metric, state) == Failure(InvalidNumber) <==>
              state.Reading? && (state.number.None? || state.number.value < 0.0)
  {
  }

  /** Each decimal unit is 1000, and each binary one 1024, of the one before. */
  lemma FactorsStep()
    ensures Factor("b") == Factor("byte") == Factor("bytes") == Some(1)
    ensures Factor("kb") == Some(1000) && Factor("mb") == Some(1000 * Factor("kb").value)
    ensures Factor("gb") == Some(1000 * Factor("mb").value) && Factor("tb") == Some(1000 * Factor("gb").value)
    ensures Factor("kib") == Some(1024) && Factor("mib") == Some(1024 * Factor("kib").value)
    ensures Factor("gib") == Some(1024 * Factor("mib").value) && Factor("tib") == Some(1024 * Factor("gib").value)
  {
  }

  // ---------------------------------------------------------------- derivation

  datatype Values = Values(total: Option<int>, used: Option<int>, free: Option<int>, percent: Option<real>)

  datatype Name = Total | Used | Free | UsedPercent

  /** What a percentage of a total is, in whole bytes. */
  function Share(total: int, percent: real): int {
    Round(Hundredth(total as real * percent))
  }

  function Hundredth(x: real): real {
    x / 100.0
  }

  function PercentOf(used: int, total: int): real
    requires total != 0
  {
    used as real * 100.0 / total as real
  }

  ghost function Has(v: Values, name: Name): bool {
    match name
    case Total => v.total.Some?
    case Used => v.used.Some?
    case Free => v.free.Some?
    case UsedPercent => v.percent.Some?
  }

  ghost predicate Sensible(v: Values) {
    && (v.total.Some? ==> v.total.value >= 0)
    && (v.used.Some? ==> v.used.value >= 0)
    && (v.free.Some? ==> v.free.value >= 0)
    && (v.percent.Some? ==> 0.0 <= v.percent.value <= 100.0)
  }

  datatype Given = Exactly(used: int) | FromPercent | Nothing

  /** The total that is given or adds up. */
  ghost function KnownTotal(v: Values): Option<int> {
    if v.total.Some? then v.total
    else if v.used.Some? && v.free.Some? then Some(v.used.value + v.free.value)
    else None
  }

  /** The use that is given, or is left by what is free, or is only a rounded share. */
  ghost function KnownUse(v: Values): Given {
    var total := KnownTotal(v);
    if v.used.Some? then Exactly(v.used.value)
    else if total.None? then Nothing
    else if v.free.Some? && v.free.value <= total.value then Exactly(total.value - v.free.value)
    else if v.percent.Some? then FromPercent
    else Nothing
  }

  class Snapshot {
    var total: Option<int>
    var used: Option<int>
    var free: Option<int>
    var percent: Option<real>

    constructor (v: Values)
      ensures Current() == v
    {
      total, used, free, percent := v.total, v.used, v.free, v.percent;
    }

    ghost function Current(): Values
      reads this
    {
      Values(total, used, free, percent)
    }

    /** Fills in what can be derived. Nothing given is changed, and what is listed is exactly what was added. */
    method Derive() returns (derived: seq<Name>)
      modifies this
      ensures Current() == Derived(old(Current()))
      ensures forall name :: name in derived <==> Has(Current(), name) && !Has(old(Current()), name)
    {
      derived := [];
      if total.None? && used.Some? && free.Some? {
        total := Some(used.value + free.value);
        derived := derived + [Total];
      }
      if used.None? && total.Some? && free.Some? && total.value >= free.value {
        used := Some(total.value - free.value);
        derived := derived + [Used];
      }
      if used.None? && total.Some? && percent.Some? {
        used := Some(Share(total.value, percent.value));
        derived := derived + [Used];
      }
      if free.None? && total.Some? && used.Some? && total.value >= used.value {
        free := Some(total.value - used.value);
        derived := derived + [Free];
      }
      if percent.None? && total.Some? && total.value != 0 && used.Some? {
        percent := Some(RoundCents(PercentOf(used.value, total.value)));
        derived := derived + [UsedPercent];
      }
    }
  }

  /** The whole of what is derived, by where each figure comes from. */
  ghost function Derived(v: Values): Values {
    var total := KnownTotal(v);
    var used := match KnownUse(v)
      case Exactly(n) => Some(n)
      case FromPercent => Some(Share(total.value, v.percent.value))
      case Nothing => None;
    var free := if v.free.None? && total.Some? && used.Some? && used.value <= total.value
                then Some(total.value - used.value) else v.free;
    var percent := if v.percent.None? && total.Some? && total.value != 0 && used.Some?
                   then Some(RoundCents(PercentOf(used.value, total.value))) else v.percent;
    Values(total, used, free, percent)
  }

  // ---------------------------------------------------------------- the check

  datatype Issue = TotalNotPositive | ValuesInconsistent | PercentInconsistent

  function Tolerance(total: int): real {
    if total as real * 0.02 > 10_000_000.0 then total as real * 0.02 else 10_000_000.0
  }

  function QualityIssues(v: Values): seq<Issue> {
    if v.total.Some? && v.total.value <= 0 then [TotalNotPositive]
    else
      (if v.total.Some? && v.used.Some? && v.free.Some?
          && Abs((v.total.value - v.used.value - v.free.value) as real) > Tolerance(v.total.value)
       then [ValuesInconsistent] else [])
      + (if v.total.Some? && v.used.Some? && v.percent.Some?
            && Abs(PercentOf(v.used.value, v.total.value) - v.percent.value) > 2.0
         then [PercentInconsistent] else [])
  }

  // ---------------------------------------------------------------- rounding

  lemma Quotient(a: real, b: real, t: real)
    requires a <= b && t > 0.0
    ensures a / t <= b / t
  {
  }

  lemma ShareIsNearest(total: int, percent: real)
    ensures var r, x := Share(total, percent) as real, total as real * percent;
            r * 100.0 - x <= 50.0 && x - r * 100.0 <= 50.0
  {
    RoundIsNearest(Hundredth(total as real * percent), 0);
  }

  /** A share taken of a total, seen as a percentage again, is off by at most 50 / total. */
  lemma ShareShift(total: int, percent: real)
    requires total > 0
    ensures Abs(PercentOf(Share(total, percent), total) - percent) <= 50.0 / total as real
  {
    hide Share;
    var t, r := total as real, Share(total, percent) as real;
    ShareIsNearest(total, percent);
    Quotient(r * 100.0 - t * percent, 50.0, t);
    Quotient(t * percent - r * 100.0, 50.0, t);
    var p := PercentOf(Share(total, percent), total);
    assert (r * 100.0 - t * percent) / t == p - percent;
    assert (t * percent - r * 100.0) / t == percent - p;
  }

  /** Whether a share of this total can be so far from its percentage that the check objects. */
  ghost predicate ShareRaises(total: int, cents: int)
    requires total > 0
  {
    0 <= cents <= 10_000 && Abs(PercentOf(Share(total, cents as real / 100.0), total) - cents as real / 100.0) > 2.0
  }

  /** The check objects to its own derived use for some percentage of two decimals exactly when
      the total is under 25 bytes. */
  lemma OnlyTinyTotalsRaise(total: int)
    requires total > 0
    ensures total < 25 <==> exists cents :: ShareRaises(total, cents)
  {
    if total < 25 {
      TinyTotalRaises(total);
    } else {
      forall cents ensures !ShareRaises(total, cents) {
        ShareShift(total, cents as real / 100.0);
        assert 50.0 / total as real <= 2.0;
      }
    }
  }

  lemma HalfAtMost(total: int, cents: int)
    requires total > 0 && 0 <= cents && cents * total <= 5000
    ensures 0.0 <= Hundredth(total as real * (cents as real / 100.0)) <= 0.5
  {
    assert (cents * total) as real == cents as real * total as real;
    assert total as real * (cents as real / 100.0) == (cents * total) as real / 100.0;
  }

  lemma TinyTotalRaises(total: int)
    requires 0 < total < 25
    ensures ShareRaises(total, 5000 / total)
  {
    hide Round, Hundredth;
    var cents := 5000 / total;
    var p := cents as real / 100.0;
    assert cents >= 208;
    HalfAtMost(total, cents);
    RoundIsNearest(Hundredth(total as real * p), 0);
    assert Share(total, p) == 0;
    assert PercentOf(0, total) == 0.0;
  }

  lemma DerivedPercentIsClose(used: int, total: int)
    requires total > 0
    ensures Abs(PercentOf(used, total) - RoundCents(PercentOf(used, total))) <= 0.005
  {
    hide Round;
    var x := PercentOf(used, total) * 100.0;
    RoundIsNearest(x, 0);
    var r := Round(x) as real;
    assert x - r <= 0.5 && r - x <= 0.5;
    Quotient(x - r, 0.5, 100.0);
    Quotient(r - x, 0.5, 100.0);
  }

  // ---------------------------------------------------------------- what is derived

  /** As a share of the total in percent this use is off by at most half a byte either way. */
  predicate NearestUse(used: int, total: int, percent: real) {
    -50.0 <= 100.0 * used as real - total as real * percent <= 50.0
  }

  predicate NearestPercent(percent: real, used: int, total: int)
    requires total != 0
  {
    Abs(used as real * 100.0 / total as real - percent) <= 0.005
  }

  lemma ShareIsNearestUse(total: int, percent: real)
    ensures NearestUse(Share(total, percent), total, percent)
  {
    hide Share;
    ShareIsNearest(total, percent);
  }

  lemma RoundedIsNearestPercent(used: int, total: int)
    requires total > 0
    ensures NearestPercent(RoundCents(PercentOf(used, total)), used, total)
  {
    hide RoundCents;
    DerivedPercentIsClose(used, total);
  }

  /** A figure is there exactly when it was given or follows from what is there; given ones stay, and
      one that is added satisfies total = used + free, or is the nearest share or percentage. */
  lemma DerivedFigures(v: Values)
    ensures var d := Derived(v);
            && (d.total.Some? <==> v.total.Some? || (v.used.Some? && v.free.Some?))
            && (d.used.Some? <==>
                  v.used.Some? || (v.total.Some? && ((v.free.Some? && v.free.value <= v.total.value) || v.percent.Some?)))
            && (d.free.Some? <==> v.free.Some? || (d.total.Some? && d.used.Some? && d.used.value <= d.total.value))
            && (d.percent.Some? <==> v.percent.Some? || (d.total.Some? && d.total.value != 0 && d.used.Some?))
            && (v.total.Some? ==> d.total == v.total) && (v.used.Some? ==> d.used == v.used)
            && (v.free.Some? ==> d.free == v.free) && (v.percent.Some? ==> d.percent == v.percent)
            && (v.total.None? && d.total.Some? ==> d.total.value == v.used.value + v.free.value)
            && (v.free.None? && d.free.Some? ==> d.total.value == d.used.value + d.free.value)
            && (v.used.None? && d.used.Some? ==>
                  if v.free.Some? && v.free.value <= v.total.value then v.total.value == d.used.value + v.free.value
                  else NearestUse(d.used.value, v.total.value, v.percent.value))
            && (v.percent.None? && d.percent.Some? && d.total.value > 0 ==>
                  NearestPercent(d.percent.value, d.used.value, d.total.value))
  {
    hide Round, Share, RoundCents, PercentOf, NearestUse, NearestPercent;
    var d := Derived(v);
    if v.total.Some? && v.percent.Some? {
      ShareIsNearestUse(v.total.value, v.percent.value);
    }
    if d.total.Some? && d.total.value > 0 && d.used.Some? {
      RoundedIsNearestPercent(d.used.value, d.total.value);
    }
  }

  // ---------------------------------------------------------------- what the check can object to

  /** More than ten million bytes off, and more than two percent of the total, in either direction. */
  predicate BeyondTolerance(total: int, off: int) {
    (off > 10_000_000 && 50 * off > total) || (off < -10_000_000 && -50 * off > total)
  }

  /** After derivation the check objects only to what the given figures themselves contradict. */
  lemma IssuesExplained(v: Values)
    requires Sensible(v)
    ensures var issues, total, use := QualityIssues(Derived(v)), KnownTotal(v), KnownUse(v);
            && (TotalNotPositive in issues <==> total == Some(0))
            && (ValuesInconsistent in issues <==>
                  && v.total.Some? && v.free.Some? && v.total.value > 0
                  && match use
                     case Exactly(n) => v.used.Some? && BeyondTolerance(v.total.value, v.total.value - n - v.free.value)
                     case FromPercent => v.free.value > v.total.value
                                         && BeyondTolerance(v.total.value, v.total.value - Share(v.total.value, v.percent.value) - v.free.value)
                     case Nothing => false)
            && (PercentInconsistent in issues <==>
                  && v.percent.Some? && total.Some? && total.value > 0
                  && match use
                     case Exactly(n) => Abs(PercentOf(n, total.value) - v.percent.value) > 2.0
                     case FromPercent => total.value < 25
                                         && Abs(PercentOf(Share(total.value, v.percent.value), total.value) - v.percent.value) > 2.0
                     case Nothing => false)
  {
    hide Round, PercentOf, Share, RoundCents;
    var total, use := KnownTotal(v), KnownUse(v);
    if total.Some? && total.value > 0 {
      match use
      case Exactly(n) => DerivedPercentIsClose(n, total.value);
      case FromPercent =>
        ShareShift(total.value, v.percent.value);
        assert total.value >= 25 ==> 50.0 / total.value as real <= 2.0;
      case Nothing =>
    }
  }

  /** From any two figures that determine the rest without contradiction, all four are known,
      they add up exactly, and nothing is objected to. */
  lemma PairsDeriveTheRest(v: Values)
    requires Sensible(v) && KnownTotal(v).Some? && KnownTotal(v).value > 0
    requires
      || (v.used.Some? && v.free.Some? && v.total.None? && v.percent.None?)
      || (v.total.Some? && v.free.Some? && v.used.None? && v.free.value <= v.total.value && v.percent.None?)
      || (v.total.Some? && v.used.Some? && v.free.None? && v.used.value <= v.total.value && v.percent.None?)
      || (v.total.Some? && v.percent.Some? && v.used.None? && v.free.None? && v.total.value >= 25)
    ensures var d := Derived(v);
            && d.total.Some? && d.used.Some? && d.free.Some? && d.percent.Some?
            && d.total.value == d.used.value + d.free.value
            && 0 <= d.used.value <= d.total.value
            && QualityIssues(d) == []
  {
    hide Round, PercentOf, RoundCents;
    IssuesExplained(v);
    if KnownUse(v).FromPercent? {
      ShareIsWithin(v.total.value, v.percent.value);
    }
  }

  lemma Product(a: real, b: real)
    requires a >= 0.0 && b >= 0.0
    ensures a * b >= 0.0
  {
  }

  lemma ScaledIsWithin(total: int, percent: real)
    requires total >= 0 && 0.0 <= percent <= 100.0
    ensures 0.0 <= Hundredth(total as real * percent) <= total as real
  {
    var t := total as real;
    Product(t, percent);
    Product(t, 100.0 - percent);
    assert t * (100.0 - percent) == t * 100.0 - t * percent;
  }

  lemma ShareIsWithin(total: int, percent: real)
    requires total >= 0 && 0.0 <= percent <= 100.0
    ensures 0 <= Share(total, percent) <= total
  {
    hide Hundredth, Round;
    ScaledIsWithin(total, percent);
    Between(Hundredth(total as real * percent), total);
  }

  lemma Between(x: real, n: int)
    requires 0.0 <= x <= n as real
    ensures 0 <= Round(x) <= n
  {
    RoundIsNearest(x, 0);
    RoundIsNearest(x, n);
  }
}
