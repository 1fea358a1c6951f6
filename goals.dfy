/**
 * The goal solver of the goal settings page (public/settings_goal.php): the
 * user edits one of target weight, BMI, BMR or TDEE, the others are derived
 * from the profile (height, birth date, sex, activity level, age as of today),
 * then every present target is range-checked.
 */
module Goals {
  import opened Wrappers
  import opened Rounding
  import opened Messages
  import opened Metrics
  import opened Records

  /** The four targets of the goals row; absence is NULL. */
  datatype Goal = Goal(weightKg: Option<real>, bmi: Option<real>, bmr: Option<real>, tdee: Option<real>)

  /**
   * What the solver produces: the solved targets, the range-check messages, or
   * a crash (calc_bmi's exception for a negative profile height, which aborts
   * the request before anything is written).
   */
  datatype Solution = Solved(goal: Goal) | Invalid(errors: seq<Message>) | Crashed

  /** Which target the user edited. */
  datatype EditField = WeightEdited | BmiEdited | BmrEdited | TdeeEdited | NoneEdited

  /** The selector's value by name; any other name selects no branch. */
  function FieldNamed(name: string): EditField {
    if name == "weight" then WeightEdited
    else if name == "bmi" then BmiEdited
    else if name == "bmr" then BmrEdited
    else if name == "tdee" then TdeeEdited
    else NoneEdited
  }

  /** The posted selector after `?: null`; an empty one ("" or "0") means the weight was edited. */
  function SelectedField(selector: string): EditField {
    var editField := NullIfEmpty(selector);
    FieldNamed(if editField.None? then "weight" else editField.value)
  }

  function AgeToday(p: Profile, today: Date): nat
    requires p.birthDate.Some?
  {
    AgeOnDate(p.birthDate.value, today)
  }

  /** The BMR and TDEE targets a target weight implies (weight and BMI branches). */
  function EnergyTargets(p: Profile, today: Date, weightKg: real): (e: (real, real))
    requires HasHeight(p) && HasBirthAndSex(p)
  {
    var bmr := Round2(CalcBmr(p.sex, Some(weightKg), p.heightCm, Some(AgeToday(p, today))).value);
    (bmr, Round2(CalcTdee(Some(bmr), ActivityFactor(p.activityLevel)).value))
  }

  /** Weight edited: BMI from the weight when the height is known, BMR and TDEE when birth date and sex are too. */
  function FromWeight(p: Profile, today: Date, posted: Goal): Solution
    requires posted.weightKg.Some?
  {
    var w := posted.weightKg.value;
    if HasHeight(p) && CalcBmi(w, p.heightCm.value).Err? then Crashed
    else
      var bmi := if HasHeight(p) then Some(Round2(CalcBmi(w, p.heightCm.value).value)) else posted.bmi;
      if HasHeight(p) && HasBirthAndSex(p) then
        var e := EnergyTargets(p, today, w);
        Solved(Goal(posted.weightKg, bmi, Some(e.0), Some(e.1)))
      else Solved(posted.(bmi := bmi))
  }

  /** BMI edited with the height known: the weight for that BMI, then BMR and TDEE from it. */
  function FromBmi(p: Profile, today: Date, posted: Goal): Solution
    requires posted.bmi.Some? && HasHeight(p)
  {
    var w := Round2(WeightForBmi(posted.bmi.value, p.heightCm.value));
    if HasBirthAndSex(p) then
      var e := EnergyTargets(p, today, w);
      Solved(Goal(Some(w), posted.bmi, Some(e.0), Some(e.1)))
    else Solved(posted.(weightKg := Some(w)))
  }

  /** BMR edited with height, birth date and sex known: the inverse weight, its BMI, and TDEE of the posted BMR. */
  function FromBmr(p: Profile, today: Date, posted: Goal): Solution
    requires posted.bmr.Some? && HasHeight(p) && HasBirthAndSex(p)
  {
    var h := p.heightCm.value;
    var w := WeightFromBmr(p.sex, posted.bmr.value, h, AgeToday(p, today));
    if w.None? then Solved(posted)
    else if CalcBmi(w.value, h).Err? then Crashed
    else
      var tdee := Round2(CalcTdee(posted.bmr, ActivityFactor(p.activityLevel)).value);
      Solved(Goal(w, Some(Round2(CalcBmi(w.value, h).value)), posted.bmr, Some(tdee)))
  }

  /** TDEE edited with height, birth date and sex known: BMR = tdee / factor, then weight and BMI from the quotient. */
  function FromTdee(p: Profile, today: Date, posted: Goal): Solution
    requires posted.tdee.Some? && HasHeight(p) && HasBirthAndSex(p)
  {
    var h := p.heightCm.value;
    var bmr := posted.tdee.value / ActivityFactor(p.activityLevel);
    var w := WeightFromBmr(p.sex, bmr, h, AgeToday(p, today));
    if w.None? then Solved(posted.(bmr := Some(Round2(bmr))))
    else if CalcBmi(w.value, h).Err? then Crashed
    else Solved(Goal(w, Some(Round2(CalcBmi(w.value, h).value)), Some(Round2(bmr)), posted.tdee))
  }

  /** The four derivation branches; a selector outside the four names, or a missing input, derives nothing. */
  function Derive(p: Profile, today: Date, field: EditField, posted: Goal): (s: Solution)
    ensures !s.Invalid?
    ensures field == NoneEdited ==> s == Solved(posted)
    ensures field == WeightEdited && posted.weightKg.None? ==> s == Solved(posted)
    ensures field == BmiEdited && (posted.bmi.None? || !HasHeight(p)) ==> s == Solved(posted)
    ensures field == BmrEdited && (posted.bmr.None? || !HasHeight(p) || !HasBirthAndSex(p)) ==> s == Solved(posted)
    ensures field == TdeeEdited && (posted.tdee.None? || !HasHeight(p) || !HasBirthAndSex(p)) ==> s == Solved(posted)
  {
    if field == WeightEdited && posted.weightKg.Some? then FromWeight(p, today, posted)
    else if field == BmiEdited && posted.bmi.Some? && HasHeight(p) then FromBmi(p, today, posted)
    else if field == BmrEdited && posted.bmr.Some? && HasHeight(p) && HasBirthAndSex(p) then FromBmr(p, today, posted)
    else if field == TdeeEdited && posted.tdee.Some? && HasHeight(p) && HasBirthAndSex(p) then FromTdee(p, today, posted)
    else Solved(posted)
  }

  /** A present value lies in [lo, hi]. */
  predicate InRange(x: Option<real>, lo: real, hi: real) {
    x.None? || (lo <= x.value && x.value <= hi)
  }

  predicate GoalInRange(g: Goal) {
    && InRange(g.weightKg, 2.0, 1000.0)
    && InRange(g.bmi, 10.0, 60.0)
    && InRange(g.bmr, 100.0, 5000.0)
    && InRange(g.tdee, 100.0, 10000.0)
  }

  /** The range checks: one message per present target outside its range, in field order. */
  function GoalRangeErrors(g: Goal): (errors: seq<Message>)
    ensures |errors| <= 4
    ensures errors == [] <==> GoalInRange(g)
    ensures GoalWeightOutOfRange in errors <==> !InRange(g.weightKg, 2.0, 1000.0)
    ensures GoalBmiOutOfRange in errors <==> !InRange(g.bmi, 10.0, 60.0)
    ensures GoalBmrOutOfRange in errors <==> !InRange(g.bmr, 100.0, 5000.0)
    ensures GoalTdeeOutOfRange in errors <==> !InRange(g.tdee, 100.0, 10000.0)
    ensures forall e :: e in errors ==>
              e == GoalWeightOutOfRange || e == GoalBmiOutOfRange || e == GoalBmrOutOfRange || e == GoalTdeeOutOfRange
  {
    (if g.weightKg.Some? && (g.weightKg.value < 2.0 || g.weightKg.value > 1000.0) then [GoalWeightOutOfRange] else [])
    + (if g.bmi.Some? && (g.bmi.value < 10.0 || g.bmi.value > 60.0) then [GoalBmiOutOfRange] else [])
    + (if g.bmr.Some? && (g.bmr.value < 100.0 || g.bmr.value > 5000.0) then [GoalBmrOutOfRange] else [])
    + (if g.tdee.Some? && (g.tdee.value < 100.0 || g.tdee.value > 10000.0) then [GoalTdeeOutOfRange] else [])
  }

  /**
   * The solver: derive, then range-check. A solved goal is in range; rejection
   * lists exactly the derived targets that are out of range.
   */
  function SolveGoal(p: Profile, today: Date, selector: string, posted: Goal): (s: Solution)
    ensures s.Solved? ==> GoalInRange(s.goal)
    ensures s.Solved? ==> s == Derive(p, today, SelectedField(selector), posted)
    ensures s.Crashed? <==> Derive(p, today, SelectedField(selector), posted).Crashed?
    ensures s.Invalid? ==> s.errors != [] && s.errors == GoalRangeErrors(Derive(p, today, SelectedField(selector), posted).goal)
    ensures !s.Crashed? ==> (s.Solved? <==> GoalInRange(Derive(p, today, SelectedField(selector), posted).goal))
  {
    var d := Derive(p, today, SelectedField(selector), posted);
    if d.Crashed? then Crashed
    else
      var errors := GoalRangeErrors(d.goal);
      if errors == [] then d else Invalid(errors)
  }

  /**
   * The handler's own steps: default the selector, then solve and range-check
   * the posted targets.
   */
  method SolveGoalSteps(p: Profile, today: Date, selector: string, posted: Goal) returns (s: Solution)
    ensures s == SolveGoal(p, today, selector, posted)
  {
    var editField := NullIfEmpty(selector);
    if editField.None? {
      editField := Some("weight");
    }
    var field := FieldNamed(editField.value);
    s := DeriveSteps(p, today, field, posted);
    if s.Solved? {
      var errors := RangeCheckSteps(s.goal);
      if errors != [] {
        s := Invalid(errors);
      }
    }
  }

  /** The four derivation blocks as the handler runs them, overwriting the posted targets in turn. */
  method DeriveSteps(p: Profile, today: Date, field: EditField, posted: Goal) returns (s: Solution)
    ensures s == Derive(p, today, field, posted)
  {
    var weightKg, bmi, bmr, tdee := posted.weightKg, posted.bmi, posted.bmr, posted.tdee;

    if field == WeightEdited && weightKg.Some? {
      if HasHeight(p) {
        var b := CalcBmi(weightKg.value, p.heightCm.value);
        if b.Err? {
          return Crashed;
        }
        bmi := Some(Round2(b.value));
      }
      if p.birthDate.Some? && Truthy(p.sex) && HasHeight(p) {
        var age := AgeOnDate(p.birthDate.value, today);
        var calculated := CalcBmr(p.sex, weightKg, p.heightCm, Some(age));
        bmr := Some(Round2(calculated.value));
        var activity := ActivityFactor(p.activityLevel);
        tdee := Some(Round2(CalcTdee(bmr, activity).value));
      }
      assert Solved(Goal(weightKg, bmi, bmr, tdee)) == FromWeight(p, today, posted);
    }

    if field == BmiEdited && bmi.Some? && HasHeight(p) {
      weightKg := Some(Round2(WeightForBmi(bmi.value, p.heightCm.value)));
      if p.birthDate.Some? && Truthy(p.sex) {
        var age := AgeOnDate(p.birthDate.value, today);
        var calculated := CalcBmr(p.sex, weightKg, p.heightCm, Some(age));
        bmr := Some(Round2(calculated.value));
        var activity := ActivityFactor(p.activityLevel);
        tdee := Some(Round2(CalcTdee(bmr, activity).value));
      }
      assert Solved(Goal(weightKg, bmi, bmr, tdee)) == FromBmi(p, today, posted);
    }

    if field == BmrEdited && bmr.Some? && HasHeight(p) && p.birthDate.Some? && Truthy(p.sex) {
      var age := AgeOnDate(p.birthDate.value, today);
      var w := WeightFromBmr(p.sex, bmr.value, p.heightCm.value, age);
      if w.Some? {
        weightKg := w;
        var b := CalcBmi(weightKg.value, p.heightCm.value);
        if b.Err? {
          return Crashed;
        }
        bmi := Some(Round2(b.value));
        var activity := ActivityFactor(p.activityLevel);
        tdee := Some(Round2(CalcTdee(bmr, activity).value));
      }
      assert Solved(Goal(weightKg, bmi, bmr, tdee)) == FromBmr(p, today, posted);
    }

    if field == TdeeEdited && tdee.Some? && HasHeight(p) && p.birthDate.Some? && Truthy(p.sex) {
      var activity := ActivityFactor(p.activityLevel);
      var bmrValue := tdee.value / activity;
      bmr := Some(Round2(bmrValue));
      var age := AgeOnDate(p.birthDate.value, today);
      var w := WeightFromBmr(p.sex, bmrValue, p.heightCm.value, age);
      if w.Some? {
        weightKg := w;
        var b := CalcBmi(weightKg.value, p.heightCm.value);
        if b.Err? {
          return Crashed;
        }
        bmi := Some(Round2(b.value));
      }
      assert Solved(Goal(weightKg, bmi, bmr, tdee)) == FromTdee(p, today, posted);
    }

    s := Solved(Goal(weightKg, bmi, bmr, tdee));
  }

  /** The range checks as the handler runs them, appending one message per violation. */
  method RangeCheckSteps(g: Goal) returns (errors: seq<Message>)
    ensures errors == GoalRangeErrors(g)
  {
    errors := [];
    if g.weightKg.Some? && (g.weightKg.value < 2.0 || g.weightKg.value > 1000.0) {
      errors := errors + [GoalWeightOutOfRange];
    }
    if g.bmi.Some? && (g.bmi.value < 10.0 || g.bmi.value > 60.0) {
      errors := errors + [GoalBmiOutOfRange];
    }
    if g.bmr.Some? && (g.bmr.value < 100.0 || g.bmr.value > 5000.0) {
      errors := errors + [GoalBmrOutOfRange];
    }
    if g.tdee.Some? && (g.tdee.value < 100.0 || g.tdee.value > 10000.0) {
      errors := errors + [GoalTdeeOutOfRange];
    }
  }

  /**
   * What the goals row stores: `$x ? (float)$x : null`, so a zero target
   * becomes NULL. A solved goal has no zero target, so it is stored as solved.
   */
  function GoalColumns(g: Goal): Goal {
    Goal(ZeroToNull(g.weightKg), ZeroToNull(g.bmi), ZeroToNull(g.bmr), ZeroToNull(g.tdee))
  }

  function ZeroToNull(x: Option<real>): Option<real> {
    if x.Some? && x.value == 0.0 then None else x
  }

  lemma SolvedGoalIsStoredUnchanged(p: Profile, today: Date, selector: string, posted: Goal)
    requires SolveGoal(p, today, selector, posted).Solved?
    ensures GoalColumns(SolveGoal(p, today, selector, posted).goal) == SolveGoal(p, today, selector, posted).goal
  {
  }

  // ---------------------------------------------------------------- properties of the branches

  /** An empty selector ("" or "0", NULL after `?: null`) is the weight selector. */
  lemma EmptySelectorIsWeight(p: Profile, today: Date, posted: Goal)
    ensures SolveGoal(p, today, "", posted) == SolveGoal(p, today, "weight", posted)
    ensures SolveGoal(p, today, "0", posted) == SolveGoal(p, today, "weight", posted)
  {
  }

  /** A selector outside the four names only range-checks the posted targets. */
  lemma UnknownSelectorDerivesNothing(p: Profile, today: Date, field: string, posted: Goal)
    requires field != "" && field != "0"
    requires field != "weight" && field != "bmi" && field != "bmr" && field != "tdee"
    ensures SolveGoal(p, today, field, posted) ==
            if GoalInRange(posted) then Solved(posted) else Invalid(GoalRangeErrors(posted))
  {
  }

  /** A derived target never replaces a posted one by NULL. */
  lemma DerivationNeverNullsPostedTargets(p: Profile, today: Date, field: EditField, posted: Goal)
    requires Derive(p, today, field, posted).Solved?
    ensures var g := Derive(p, today, field, posted).goal;
            && (posted.weightKg.Some? ==> g.weightKg.Some?)
            && (posted.bmi.Some? ==> g.bmi.Some?)
            && (posted.bmr.Some? ==> g.bmr.Some?)
            && (posted.tdee.Some? ==> g.tdee.Some?)
  {
  }

  /**
   * Weight edited: BMI is calc_bmi at the profile height (when known), BMR is
   * calc_bmr at today's age and TDEE is calc_tdee of that BMR (when height,
   * birth date and sex are known); the rest stays as posted. Only a negative
   * profile height crashes.
   */
  lemma WeightEditDerivesTheOthers(p: Profile, today: Date, posted: Goal)
    requires posted.weightKg.Some?
    ensures var s := Derive(p, today, WeightEdited, posted);
            var w := posted.weightKg.value;
            && (s.Crashed? <==> HasHeight(p) && p.heightCm.value < 0.0)
            && (s.Solved? ==>
                  && s.goal.weightKg == posted.weightKg
                  && s.goal.bmi == (if HasHeight(p) then Some(CalcBmi(w, p.heightCm.value).value) else posted.bmi)
                  && (HasHeight(p) && HasBirthAndSex(p) ==>
                        && s.goal.bmr == CalcBmr(p.sex, Some(w), p.heightCm, Some(AgeToday(p, today)))
                        && s.goal.tdee == CalcTdee(s.goal.bmr, ActivityFactor(p.activityLevel)))
                  && (!(HasHeight(p) && HasBirthAndSex(p)) ==> s.goal.bmr == posted.bmr && s.goal.tdee == posted.tdee))
  {
    var w := posted.weightKg.value;
    if HasHeight(p) && p.heightCm.value > 0.0 {
      Round2OfCents(CalcBmi(w, p.heightCm.value).value);
      if HasBirthAndSex(p) {
        var bmr := CalcBmr(p.sex, Some(w), p.heightCm, Some(AgeToday(p, today)));
        Round2OfCents(bmr.value);
        Round2OfCents(CalcTdee(bmr, ActivityFactor(p.activityLevel)).value);
      }
    }
  }

  /**
   * BMI edited with the height known: the weight is bmi * (h/100)^2 to two
   * decimals, and BMR/TDEE are derived from that weight (when birth date and
   * sex are known). It never crashes; without a height nothing is derived.
   */
  lemma BmiEditDerivesWeight(p: Profile, today: Date, posted: Goal)
    requires posted.bmi.Some?
    ensures !HasHeight(p) ==> Derive(p, today, BmiEdited, posted) == Solved(posted)
    ensures HasHeight(p) ==>
              var s := Derive(p, today, BmiEdited, posted);
              && s.Solved?
              && s.goal.bmi == posted.bmi
              && s.goal.weightKg.Some? && IsCents(s.goal.weightKg.value)
              && Abs(s.goal.weightKg.value - WeightForBmi(posted.bmi.value, p.heightCm.value)) <= 0.005
              && (HasBirthAndSex(p) ==>
                    && s.goal.bmr == CalcBmr(p.sex, s.goal.weightKg, p.heightCm, Some(AgeToday(p, today)))
                    && s.goal.tdee == CalcTdee(s.goal.bmr, ActivityFactor(p.activityLevel)))
              && (!HasBirthAndSex(p) ==> s.goal.bmr == posted.bmr && s.goal.tdee == posted.tdee)
  {
    if HasHeight(p) && HasBirthAndSex(p) {
      var w := Round2(WeightForBmi(posted.bmi.value, p.heightCm.value));
      var bmr := CalcBmr(p.sex, Some(w), p.heightCm, Some(AgeToday(p, today)));
      Round2OfCents(bmr.value);
      Round2OfCents(CalcTdee(bmr, ActivityFactor(p.activityLevel)).value);
    }
  }

  /**
   * BMR edited with height, birth date and sex known: the weight is
   * weight_from_bmr of the posted BMR, BMI comes from that weight and TDEE from
   * the posted BMR; the BMR stays as posted. When no positive weight solves the
   * equation every target stays as posted.
   */
  lemma BmrEditInvertsToWeight(p: Profile, today: Date, posted: Goal)
    requires posted.bmr.Some? && HasHeight(p) && HasBirthAndSex(p)
    ensures var h := p.heightCm.value;
            var w := WeightFromBmr(p.sex, posted.bmr.value, h, AgeToday(p, today));
            var s := Derive(p, today, BmrEdited, posted);
            && (w.None? ==> s == Solved(posted))
            && (s.Crashed? <==> w.Some? && h < 0.0)
            && (w.Some? && h > 0.0 ==>
                  && s.Solved?
                  && s.goal.weightKg == w
                  && Abs(MifflinStJeor(p.sex.value, w.value, h, AgeToday(p, today)) - posted.bmr.value) <= 0.05
                  && s.goal.bmi == Some(CalcBmi(w.value, h).value)
                  && s.goal.bmr == posted.bmr
                  && s.goal.tdee == CalcTdee(posted.bmr, ActivityFactor(p.activityLevel)))
  {
    var h := p.heightCm.value;
    var w := WeightFromBmr(p.sex, posted.bmr.value, h, AgeToday(p, today));
    if w.Some? && h > 0.0 {
      Round2OfCents(CalcBmi(w.value, h).value);
      Round2OfCents(CalcTdee(posted.bmr, ActivityFactor(p.activityLevel)).value);
    }
  }

  /**
   * TDEE edited with height, birth date and sex known: the TDEE stays as
   * posted, the BMR is tdee / factor to two decimals and its own TDEE is within
   * 0.015 of the posted one; weight and BMI come from the unrounded quotient,
   * the weight's TDEE at that factor within 0.1 of the posted one.
   */
  lemma {:induction false} TdeeEditDerivesBmr(p: Profile, today: Date, posted: Goal)
    requires posted.tdee.Some? && HasHeight(p) && HasBirthAndSex(p)
    ensures var h := p.heightCm.value;
            var factor := ActivityFactor(p.activityLevel);
            var q := posted.tdee.value / factor;
            var w := WeightFromBmr(p.sex, q, h, AgeToday(p, today));
            var s := Derive(p, today, TdeeEdited, posted);
            && (s.Crashed? <==> w.Some? && h < 0.0)
            && (s.Solved? ==>
                  && s.goal.tdee == posted.tdee
                  && s.goal.bmr == Some(Round2(q))
                  && Abs(CalcTdee(s.goal.bmr, factor).value - posted.tdee.value) <= 0.015
                  && (w.None? ==> s.goal.weightKg == posted.weightKg && s.goal.bmi == posted.bmi)
                  && (w.Some? ==>
                        && s.goal.weightKg == w
                        && s.goal.bmi == Some(CalcBmi(w.value, h).value)
                        && Abs(MifflinStJeor(p.sex.value, w.value, h, AgeToday(p, today)) * factor - posted.tdee.value) <= 0.1))
  {
    var h := p.heightCm.value;
    var factor := ActivityFactor(p.activityLevel);
    var t := posted.tdee.value;
    var q := t / factor;
    var w := WeightFromBmr(p.sex, q, h, AgeToday(p, today));
    var b := Round2(q);
    var tdee := CalcTdee(Some(b), factor).value;
    // Each factor is a constant, so every product below is linear.
    if factor == 1.2 {
      assert q * 1.2 == t;
    } else if factor == 1.55 {
      assert q * 1.55 == t;
    } else {
      assert factor == 1.725;
      assert q * 1.725 == t;
    }
    if w.Some? {
      var e := MifflinStJeor(p.sex.value, w.value, h, AgeToday(p, today)) - q;
      assert Abs(e) <= 0.05;
      if factor == 1.2 {
        assert (q + e) * 1.2 - t == e * 1.2;
      } else if factor == 1.55 {
        assert (q + e) * 1.55 - t == e * 1.55;
      } else {
        assert (q + e) * 1.725 - t == e * 1.725;
      }
      if h > 0.0 {
        Round2OfCents(CalcBmi(w.value, h).value);
      }
    }
  }

  /** A posted BMI outside [10, 60] with the BMI selected is always rejected, naming the BMI. */
  lemma BmiOutOfRangeIsRejected(p: Profile, today: Date, posted: Goal)
    requires posted.bmi.Some? && !InRange(posted.bmi, 10.0, 60.0)
    ensures var s := SolveGoal(p, today, "bmi", posted);
            s.Invalid? && GoalBmiOutOfRange in s.errors
  {
    BmiEditDerivesWeight(p, today, posted);
  }

  /**
   * Round trip of the solver: re-submitting a goal solved from a two-decimal
   * weight, with the BMR selected instead, derives the very same goal.
   */
  lemma {:induction false} WeightThenBmrRoundTrip(p: Profile, today: Date, posted: Goal)
    requires posted.weightKg.Some? && IsCents(posted.weightKg.value) && posted.weightKg.value > 0.0
    requires HasHeight(p) && p.heightCm.value > 0.0 && HasBirthAndSex(p)
    ensures var s := Derive(p, today, WeightEdited, posted);
            s.Solved? && Derive(p, today, BmrEdited, s.goal) == s
    ensures SolveGoal(p, today, "bmr", Derive(p, today, WeightEdited, posted).goal) == SolveGoal(p, today, "weight", posted)
  {
    var w := posted.weightKg.value;
    var h := p.heightCm.value;
    var age := AgeToday(p, today);
    var bmr := CalcBmr(p.sex, Some(w), p.heightCm, Some(age));
    Round2OfCents(bmr.value);
    WeightFromBmrInvertsCalcBmr(p.sex.value, w, h, age);
  }
}
