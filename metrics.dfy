/**
 * The body-metrics formulas of the shared function library: BMI, age on a date,
 * BMR by the Mifflin-St Jeor equation, TDEE, the activity factor, the
 * height/weight range check and the BMR-to-weight inverse.
 * Numbers are exact reals; the library's round($x, 2) is Rounding.Round2.
 */
module Metrics {
  import opened Wrappers
  import opened Rounding
  import opened Messages

  // ---------------------------------------------------------------- dates

  datatype Date = Date(year: int, month: int, day: int)

  /** Calendar order: by year, then month, then day. */
  predicate OnOrBefore(a: Date, b: Date) {
    a.year < b.year || (a.year == b.year && (a.month < b.month || (a.month == b.month && a.day <= b.day)))
  }

  /** The same month and day, n years later. */
  function AddYears(d: Date, n: int): Date {
    Date(d.year + n, d.month, d.day)
  }

  /** Whole years from `from` to `to`: the number of anniversaries of `from` passed by `to`. */
  function CompletedYears(from: Date, to: Date): (n: nat)
    requires OnOrBefore(from, to)
    ensures OnOrBefore(AddYears(from, n), to)
    ensures !OnOrBefore(AddYears(from, n + 1), to)
  {
    var beforeAnniversary := to.month < from.month || (to.month == from.month && to.day < from.day);
    to.year - from.year - (if beforeAnniversary then 1 else 0)
  }

  /**
   * age_on_date: the year count of the interval between the birth date and the
   * given date. The interval is absolute, so a date before the birth date
   * counts the whole years from that date up to the birth date.
   */
  function AgeOnDate(birth: Date, onDate: Date): (age: nat)
    ensures OnOrBefore(birth, onDate) ==>
              OnOrBefore(AddYears(birth, age), onDate) && !OnOrBefore(AddYears(birth, age + 1), onDate)
    ensures !OnOrBefore(birth, onDate) ==>
              OnOrBefore(AddYears(onDate, age), birth) && !OnOrBefore(AddYears(onDate, age + 1), birth)
  {
    if OnOrBefore(birth, onDate) then CompletedYears(birth, onDate) else CompletedYears(onDate, birth)
  }

  // ---------------------------------------------------------------- BMI

  datatype MetricError = HeightNotPositive

  /** The unrounded body-mass index: weight over the square of the height in metres. */
  function Quetelet(weightKg: real, heightCm: real): real
    requires heightCm != 0.0
  {
    weightKg / ((heightCm / 100.0) * (heightCm / 100.0))
  }

  /** calc_bmi: fails for a height that is not positive, else the index to two decimals. */
  function CalcBmi(weightKg: real, heightCm: real): (r: Result<real, MetricError>)
    ensures r.Err? <==> heightCm <= 0.0
    ensures r.Ok? ==> IsCents(r.value) && Abs(r.value - Quetelet(weightKg, heightCm)) <= 0.005
  {
    if heightCm <= 0.0 then Err(HeightNotPositive)
    else Ok(Round2(Quetelet(weightKg, heightCm)))
  }

  /** The worked example of the library's tests: 70 kg at 175 cm has BMI 22.86. */
  lemma CalcBmiExample()
    ensures CalcBmi(70.0, 175.0) == Ok(22.86)
  {
    var x := 70.0 / (1.75 * 1.75);
    assert 2285.0 < x * 100.0 < 2286.0;
    assert (x * 100.0 + 0.5).Floor == 2286;
  }

  /** The weight whose unrounded index at the given height is exactly `bmi`. */
  function WeightForBmi(bmi: real, heightCm: real): real {
    bmi * ((heightCm / 100.0) * (heightCm / 100.0))
  }

  // ---------------------------------------------------------------- BMR

  /**
   * The per-sex constant of the Mifflin-St Jeor equation as weight_from_bmr
   * names it: 5 for male, -161 for female, -78 for any other value.
   */
  function SexConstant(sex: string): real {
    if sex == "male" then 5.0 else if sex == "female" then -161.0 else -78.0
  }

  /**
   * The unrounded Mifflin-St Jeor BMR as calc_bmr computes it: the male and the
   * female equations, and their mean for any other sex. Every branch is the
   * linear equation with the constant that weight_from_bmr uses.
   */
  function MifflinStJeor(sex: string, weightKg: real, heightCm: real, age: int): (bmr: real)
    ensures bmr == 10.0 * weightKg + 6.25 * heightCm - 5.0 * (age as real) + SexConstant(sex)
  {
    var male := 10.0 * weightKg + 6.25 * heightCm - 5.0 * (age as real) + 5.0;
    var female := 10.0 * weightKg + 6.25 * heightCm - 5.0 * (age as real) - 161.0;
    if sex == "male" then male
    else if sex == "female" then female
    else (male + female) / 2.0
  }

  /** calc_bmr: absent when any input is absent, else the equation to two decimals. */
  function CalcBmr(sex: Option<string>, weightKg: Option<real>, heightCm: Option<real>, age: Option<int>): (r: Option<real>)
    ensures r.None? <==> sex.None? || weightKg.None? || heightCm.None? || age.None?
    ensures r.Some? ==>
              IsCents(r.value) &&
              Abs(r.value - MifflinStJeor(sex.value, weightKg.value, heightCm.value, age.value)) <= 0.005
  {
    if sex.None? || weightKg.None? || heightCm.None? || age.None? then None
    else Some(Round2(MifflinStJeor(sex.value, weightKg.value, heightCm.value, age.value)))
  }

  /**
   * For a sex other than male and female the rounded BMR is the mean of the
   * rounded male and female BMRs, whenever the female equation is not negative.
   */
  lemma {:induction false} CalcBmrOtherIsMean(sex: string, weightKg: real, heightCm: real, age: int)
    requires sex != "male" && sex != "female"
    requires MifflinStJeor("female", weightKg, heightCm, age) >= 0.0
    ensures CalcBmr(Some(sex), Some(weightKg), Some(heightCm), Some(age)).value ==
            (CalcBmr(Some("male"), Some(weightKg), Some(heightCm), Some(age)).value +
             CalcBmr(Some("female"), Some(weightKg), Some(heightCm), Some(age)).value) / 2.0
  {
    var y := MifflinStJeor("female", weightKg, heightCm, age);
    assert MifflinStJeor("male", weightKg, heightCm, age) == y + 166.0;
    assert MifflinStJeor(sex, weightKg, heightCm, age) == y + 83.0;
    Round2Shift(y, 166.0);
    Round2Shift(y, 83.0);
  }

  // ---------------------------------------------------------------- TDEE

  /** calc_tdee: absent exactly when the BMR is, else BMR times the factor to two decimals. */
  function CalcTdee(bmr: Option<real>, activityFactor: real): (r: Option<real>)
    ensures r.Some? <==> bmr.Some?
    ensures r.Some? ==> IsCents(r.value) && Abs(r.value - bmr.value * activityFactor) <= 0.005
  {
    if bmr.None? then None else Some(Round2(bmr.value * activityFactor))
  }

  /**
   * activity_factor_from_level: "high" gives 1.725, "medium" 1.55, and
   * everything else (absent, empty, "low" or any other text) 1.2.
   */
  function ActivityFactor(level: Option<string>): (f: real)
    ensures f == 1.725 <==> level == Some("high")
    ensures f == 1.55 <==> level == Some("medium")
    ensures f == 1.2 <==> level != Some("high") && level != Some("medium")
  {
    if level.None? || level.value == "" then 1.2
    else if level.value == "high" then 1.725
    else if level.value == "medium" then 1.55
    else 1.2
  }

  // ---------------------------------------------------------------- validation

  /** A numeric height in (0, 300]; absence stands for a value that is not numeric. */
  predicate HeightInRange(heightCm: Option<real>) {
    heightCm.Some? && 0.0 < heightCm.value <= 300.0
  }

  /** A numeric weight in (0, 1000]. */
  predicate WeightInRange(weightKg: Option<real>) {
    weightKg.Some? && 0.0 < weightKg.value <= 1000.0
  }

  /** validate_height_weight: one message per failing field, the height's first. */
  function ValidateHeightWeight(heightCm: Option<real>, weightKg: Option<real>): (errors: seq<Message>)
    ensures |errors| <= 2
    ensures errors == [] <==> HeightInRange(heightCm) && WeightInRange(weightKg)
    ensures HeightOutOfRange in errors <==> !HeightInRange(heightCm)
    ensures WeightOutOfRange in errors <==> !WeightInRange(weightKg)
    ensures forall e :: e in errors ==> e == HeightOutOfRange || e == WeightOutOfRange
    ensures !HeightInRange(heightCm) ==> errors[0] == HeightOutOfRange
  {
    var errors := [];
    var errors := if heightCm.None? || heightCm.value <= 0.0 || heightCm.value > 300.0
                  then errors + [HeightOutOfRange] else errors;
    var errors := if weightKg.None? || weightKg.value <= 0.0 || weightKg.value > 1000.0
                  then errors + [WeightOutOfRange] else errors;
    errors
  }

  // ---------------------------------------------------------------- BMR inverse

  /**
   * weight_from_bmr: solves the Mifflin-St Jeor equation for the weight.
   * Absent when the sex is absent or when the BMR is no more than that of a
   * zero weight (the solved weight would not be positive); otherwise a
   * two-decimal weight whose equation value is within 0.05 of the given BMR.
   */
  function WeightFromBmr(sex: Option<string>, bmr: real, heightCm: real, age: int): (r: Option<real>)
    ensures r.None? <==> sex.None? || bmr <= MifflinStJeor(sex.value, 0.0, heightCm, age)
    ensures r.Some? ==> IsCents(r.value) && r.value >= 0.0
    ensures r.Some? ==> Abs(MifflinStJeor(sex.value, r.value, heightCm, age) - bmr) <= 0.05
  {
    if sex.None? then None
    else
      var c := if sex.value == "male" then 5.0 else if sex.value == "female" then -161.0 else -78.0;
      var w := (bmr - 6.25 * heightCm + 5.0 * (age as real) - c) / 10.0;
      if w <= 0.0 then None else Some(Round2(w))
  }

  /**
   * Round trip: a BMR computed by calc_bmr inverts to the original weight
   * exactly when that weight has two decimals.
   */
  lemma {:induction false} WeightFromBmrInvertsCalcBmr(sex: string, weightKg: real, heightCm: real, age: int)
    requires IsCents(weightKg) && weightKg > 0.0
    ensures WeightFromBmr(Some(sex), CalcBmr(Some(sex), Some(weightKg), Some(heightCm), Some(age)).value, heightCm, age)
            == Some(weightKg)
  {
    var bmr := CalcBmr(Some(sex), Some(weightKg), Some(heightCm), Some(age)).value;
    var e := bmr - MifflinStJeor(sex, weightKg, heightCm, age);
    var w := (bmr - 6.25 * heightCm + 5.0 * (age as real) - SexConstant(sex)) / 10.0;
    assert w == weightKg + e / 10.0;
    Round2Near(weightKg, e / 10.0);
  }

  /** Round trip for any weight above a thousandth of a kilogram: within 0.01 of the original. */
  lemma {:induction false} WeightFromBmrNearlyInvertsCalcBmr(sex: string, weightKg: real, heightCm: real, age: int)
    requires weightKg > 0.001
    ensures var w := WeightFromBmr(Some(sex), CalcBmr(Some(sex), Some(weightKg), Some(heightCm), Some(age)).value, heightCm, age);
            w.Some? && Abs(w.value - weightKg) <= 0.01
  {
    var bmr := CalcBmr(Some(sex), Some(weightKg), Some(heightCm), Some(age)).value;
    var e := bmr - MifflinStJeor(sex, weightKg, heightCm, age);
    var w := (bmr - 6.25 * heightCm + 5.0 * (age as real) - SexConstant(sex)) / 10.0;
    assert w == weightKg + e / 10.0;
    assert w > 0.0;
  }
}
