/**
 * The profile form of public/settings_profile.php: empty inputs become NULL,
 * and a present sex or activity level must be one of its enumerated values.
 */
module ProfileSettings {
  import opened Wrappers
  import opened Messages
  import opened Metrics
  import opened Records

  /** The posted fields; an absent birth date or height stands for an empty field. */
  datatype ProfileForm = ProfileForm(birthDate: Option<Date>, sex: string, heightCm: Option<real>, activityLevel: string)

  /** The profile columns the form writes. */
  function NormalisedProfile(f: ProfileForm): Profile {
    Profile(f.birthDate, NullIfEmpty(f.sex), f.heightCm, NullIfEmpty(f.activityLevel))
  }

  predicate ValidSex(s: string) {
    s == "male" || s == "female" || s == "other"
  }

  predicate ValidActivityLevel(s: string) {
    s == "low" || s == "medium" || s == "high"
  }

  /** The form's error list: one message for an unknown sex, one for an unknown activity level. */
  function ProfileErrors(p: Profile): (errors: seq<Message>)
    ensures |errors| <= 2
    ensures errors == [] <==>
              (p.sex.None? || ValidSex(p.sex.value)) && (p.activityLevel.None? || ValidActivityLevel(p.activityLevel.value))
    ensures InvalidSex in errors <==> p.sex.Some? && !ValidSex(p.sex.value)
    ensures InvalidActivityLevel in errors <==> p.activityLevel.Some? && !ValidActivityLevel(p.activityLevel.value)
    ensures forall e :: e in errors ==> e == InvalidSex || e == InvalidActivityLevel
  {
    (if p.sex.Some? && !(p.sex.value == "male" || p.sex.value == "female" || p.sex.value == "other")
     then [InvalidSex] else [])
    + (if p.activityLevel.Some? && !(p.activityLevel.value == "low" || p.activityLevel.value == "medium" || p.activityLevel.value == "high")
       then [InvalidActivityLevel] else [])
  }

  /**
   * An accepted profile form stores a sex that is absent or one of the three
   * names, so the BMR of its records is present exactly when a birth date and a
   * sex were given.
   */
  lemma AcceptedProfileHasKnownValues(f: ProfileForm)
    requires ProfileErrors(NormalisedProfile(f)) == []
    ensures var p := NormalisedProfile(f);
            && (p.sex.None? || ValidSex(p.sex.value))
            && (p.activityLevel.None? || ValidActivityLevel(p.activityLevel.value))
            && (HasBirthAndSex(p) <==> f.birthDate.Some? && f.sex != "" && f.sex != "0")
  {
  }
}
