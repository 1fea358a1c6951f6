/**
 * Profiles and body records, and the derivation of a body record from the
 * add form (public/dashboard.php) and the edit form (public/record_edit.php):
 * height fallback to the profile, required and range checks, server-side
 * BMI, and BMR/TDEE only when the profile has a birth date and a sex.
 */
module Records {
  import opened Wrappers
  import opened Rounding
  import opened Messages
  import opened Metrics

  /** The profile columns of a user; absence is a NULL column. */
  datatype Profile = Profile(birthDate: Option<Date>, sex: Option<string>, heightCm: Option<real>, activityLevel: Option<string>)

  /** A stored body record. */
  datatype BodyRecord = BodyRecord(
    id: nat, userId: nat, recordDate: Date, heightCm: real, weightKg: real, memo: Option<string>,
    bmi: real, bmr: Option<real>, tdee: Option<real>, createdAt: int, updatedAt: int)

  /** Truthiness of an optional text column: NULL, "" and "0" are false. */
  predicate Truthy(s: Option<string>) {
    s.Some? && s.value != "" && s.value != "0"
  }

  /** empty() of a numeric field: absent or zero. */
  predicate Blank(x: Option<real>) {
    x.None? || x.value == 0.0
  }

  predicate HasHeight(p: Profile) {
    !Blank(p.heightCm)
  }

  /** The profile has what BMR and TDEE need: a birth date and a sex. */
  predicate HasBirthAndSex(p: Profile) {
    p.birthDate.Some? && Truthy(p.sex)
  }

  /**
   * The BMR and TDEE a record of the given date, weight and height gets under
   * profile p: both present exactly when the profile has a birth date and a sex,
   * the age taken on the record's own date.
   */
  function EnergyMetrics(p: Profile, recordDate: Date, weightKg: real, heightCm: real): (m: (Option<real>, Option<real>))
    ensures m.0.Some? <==> HasBirthAndSex(p)
    ensures m.1.Some? <==> m.0.Some?
  {
    if HasBirthAndSex(p) then
      var age := AgeOnDate(p.birthDate.value, recordDate);
      var bmr := CalcBmr(p.sex, Some(weightKg), Some(heightCm), Some(age));
      (bmr, CalcTdee(bmr, ActivityFactor(p.activityLevel)))
    else (None, None)
  }

  /** The stored BMI is calc_bmi of the stored weight and height. */
  predicate BmiConsistent(r: BodyRecord) {
    CalcBmi(r.weightKg, r.heightCm) == Ok(r.bmi)
  }

  /** The stored BMR and TDEE are what the profile dictates. */
  predicate EnergyConsistent(r: BodyRecord, p: Profile) {
    (r.bmr, r.tdee) == EnergyMetrics(p, r.recordDate, r.weightKg, r.heightCm)
  }

  // ---------------------------------------------------------------- the record form

  /** The posted fields; absent height or weight stands for an empty or non-numeric field. */
  datatype RecordForm = RecordForm(recordDate: Option<Date>, heightCm: Option<real>, weightKg: Option<real>, memo: string)

  /** The columns the form writes. */
  datatype RecordFields = RecordFields(
    recordDate: Date, heightCm: real, weightKg: real, memo: Option<string>,
    bmi: real, bmr: Option<real>, tdee: Option<real>)

  /** An empty height field falls back to the profile's height when the profile has one. */
  function EffectiveHeight(p: Profile, heightCm: Option<real>): Option<real> {
    if Blank(heightCm) && HasHeight(p) then p.heightCm else heightCm
  }

  /** `$x ?: null`: a falsy text ("" or "0") becomes NULL. */
  function NullIfEmpty(s: string): (r: Option<string>)
    ensures r.None? <==> s == "" || s == "0"
    ensures r.Some? ==> r.value == s && Truthy(r)
  {
    if s == "" || s == "0" then None else Some(s)
  }

  /** The error list of the form, in the order the page builds it. */
  function RecordErrors(p: Profile, f: RecordForm): seq<Message> {
    var h := EffectiveHeight(p, f.heightCm);
    (if f.recordDate.None? then [MissingRecordDate] else [])
    + (if Blank(h) || Blank(f.weightKg) then [HeightAndWeightRequired] else [])
    + ValidateHeightWeight(h, f.weightKg)
  }

  /**
   * The outcome of the add or edit form: the error list, or the columns to
   * write. Accepted exactly when there is a date and the (fallback) height and
   * the weight are in range; the BMI is always computed from the written weight
   * and height, and BMR/TDEE follow the profile, never half-populated.
   */
  function DeriveRecord(p: Profile, f: RecordForm): (r: Result<RecordFields, seq<Message>>)
    ensures r.Ok? <==> f.recordDate.Some? && HeightInRange(EffectiveHeight(p, f.heightCm)) && WeightInRange(f.weightKg)
    ensures r.Err? ==> r.error != []
    ensures r.Err? ==> (MissingRecordDate in r.error <==> f.recordDate.None?)
    ensures r.Err? ==> (HeightOutOfRange in r.error <==> !HeightInRange(EffectiveHeight(p, f.heightCm)))
    ensures r.Err? ==> (WeightOutOfRange in r.error <==> !WeightInRange(f.weightKg))
    ensures r.Err? ==> (HeightAndWeightRequired in r.error <==> Blank(EffectiveHeight(p, f.heightCm)) || Blank(f.weightKg))
    ensures r.Err? ==> forall e :: e in r.error ==>
              e == MissingRecordDate || e == HeightAndWeightRequired || e == HeightOutOfRange || e == WeightOutOfRange
    ensures r.Ok? ==>
              var v := r.value;
              && v.recordDate == f.recordDate.value
              && Some(v.heightCm) == EffectiveHeight(p, f.heightCm)
              && Some(v.weightKg) == f.weightKg
              && v.memo == NullIfEmpty(f.memo)
              && CalcBmi(v.weightKg, v.heightCm) == Ok(v.bmi)
              && (v.bmr, v.tdee) == EnergyMetrics(p, v.recordDate, v.weightKg, v.heightCm)
  {
    var errors := RecordErrors(p, f);
    if errors != [] then Err(errors)
    else
      var h, w := EffectiveHeight(p, f.heightCm).value, f.weightKg.value;
      var m := EnergyMetrics(p, f.recordDate.value, w, h);
      Ok(RecordFields(f.recordDate.value, h, w, NullIfEmpty(f.memo), CalcBmi(w, h).value, m.0, m.1))
  }

  /**
   * The page's own steps: reassign the height from the profile, append and merge
   * the errors, compute the BMI, set BMR and TDEE starting from NULL.
   */
  method BuildRecord(p: Profile, f: RecordForm) returns (r: Result<RecordFields, seq<Message>>)
    ensures r == DeriveRecord(p, f)
  {
    var errors: seq<Message> := [];
    if f.recordDate.None? {
      errors := errors + [MissingRecordDate];
    }
    var heightCm := f.heightCm;
    if Blank(heightCm) {
      if HasHeight(p) {
        heightCm := p.heightCm;
      }
    }
    if Blank(heightCm) || Blank(f.weightKg) {
      errors := errors + [HeightAndWeightRequired];
    }
    var validationErrors := ValidateHeightWeight(heightCm, f.weightKg);
    errors := errors + validationErrors;
    assert heightCm == EffectiveHeight(p, f.heightCm);
    assert errors == RecordErrors(p, f);
    if errors != [] {
      return Err(errors);
    }
    var bmi := CalcBmi(f.weightKg.value, heightCm.value).value;
    var bmr: Option<real> := None;
    var tdee: Option<real> := None;
    if p.birthDate.Some? && Truthy(p.sex) {
      var age := AgeOnDate(p.birthDate.value, f.recordDate.value);
      bmr := CalcBmr(p.sex, f.weightKg, heightCm, Some(age));
      var activity := ActivityFactor(p.activityLevel);
      tdee := CalcTdee(bmr, activity);
    }
    r := Ok(RecordFields(f.recordDate.value, heightCm.value, f.weightKg.value, NullIfEmpty(f.memo), bmi, bmr, tdee));
  }

  /** A derived record satisfies both stored-metric invariants under the profile it was derived with. */
  lemma DerivedRecordIsConsistent(p: Profile, f: RecordForm, id: nat, userId: nat, now: int)
    requires DeriveRecord(p, f).Ok?
    ensures var v := DeriveRecord(p, f).value;
            var r := BodyRecord(id, userId, v.recordDate, v.heightCm, v.weightKg, v.memo, v.bmi, v.bmr, v.tdee, now, now);
            BmiConsistent(r) && EnergyConsistent(r, p) && (r.bmr.None? <==> r.tdee.None?)
  {
  }

  // ---------------------------------------------------------------- recalculation

  /** recalc_body_records_for_user on one record: new BMR, TDEE and update time, nothing else. */
  function Recalculated(r: BodyRecord, p: Profile, now: int): BodyRecord {
    var m := EnergyMetrics(p, r.recordDate, r.weightKg, r.heightCm);
    r.(bmr := m.0, tdee := m.1, updatedAt := now)
  }

  /** Recalculation makes a record agree with the profile and changes only BMR, TDEE and the update time. */
  lemma RecalculatedIsConsistent(r: BodyRecord, p: Profile, now: int)
    ensures var r' := Recalculated(r, p, now);
            && EnergyConsistent(r', p)
            && (BmiConsistent(r') <==> BmiConsistent(r))
            && r'.(bmr := r.bmr, tdee := r.tdee, updatedAt := r.updatedAt) == r
  {
  }

  /** A record that already agrees with the profile only gets a new update time. */
  lemma RecalculatingConsistentRecordTouchesOnlyTime(r: BodyRecord, p: Profile, now: int)
    requires EnergyConsistent(r, p)
    ensures Recalculated(r, p, now) == r.(updatedAt := now)
  {
  }

  // ---------------------------------------------------------------- dashboard

  /**
   * The dashboard's difference column: shown only when a target weight is set,
   * then the record's weight minus the target to two decimals.
   */
  function WeightDifference(weightKg: real, targetWeightKg: Option<real>): (d: Option<real>)
    ensures d.Some? <==> !Blank(targetWeightKg)
    ensures d.Some? ==> IsCents(d.value) && Abs(d.value - (weightKg - targetWeightKg.value)) <= 0.005
  {
    if Blank(targetWeightKg) then None else Some(Round2(weightKg - targetWeightKg.value))
  }
}
