# BMIcal core in Dafny

A model of the calculation core of BMIcal, a small PHP body-metrics tracker.
Users keep a profile (birth date, sex, height, activity level), log dated body
records (height, weight, memo) for which the server computes BMI, BMR and TDEE,
and set targets (weight, BMI, BMR, TDEE) of which one is edited and the others
are derived.

The model has these modules:

- `Rounding`: PHP's `round($x, 2)` on exact reals. It rounds half away from zero,
  with lemmas about values that are whole hundredths ("cents").
- `Metrics`: the formulas of `lib/functions.php`:
  - BMI, with its failure for a non-positive height;
  - the age on a date;
  - BMR by the Mifflin-St Jeor equation, where any other sex takes the mean of male and female;
  - TDEE and the activity factor;
  - the height/weight validator;
  - the BMR-to-weight inverse.
- `Records`: the body-record form shared by the dashboard (add) and the record
  edit page:
  - the height falls back to the profile;
  - the error list, in page order;
  - the server-side BMI, and BMR/TDEE only with a birth date and a sex, at the age on the record's date;
  - the dashboard's weight-difference column;
  - one record's recalculation.
  `BuildRecord` follows the page's own steps and is proved equal to the declarative `DeriveRecord`.
- `Goals`: the goal solver of the goal settings page:
  - the edit-field selector and its default;
  - the four derivation branches and the range checks;
  - the write of the goal columns.
  `SolveGoalSteps`, `DeriveSteps` and `RangeCheckSteps` follow the handler's reassignments. Each is proved equal to a function (`SolveGoal`, `Derive`, `GoalRangeErrors`), and the lemmas are stated about those functions.
- `ProfileSettings`: the profile form:
  - empty inputs become NULL;
  - the sex and activity level enumerations are checked.
- `App`: class `Tracker`, which holds the `users`, `body_records` and `goals` tables:
  - `RecalcBodyRecordsForUser` is `recalc_body_records_for_user`, a loop with invariants;
  - `AddRecord`, `EditRecord`, `UpdateProfile` and `SaveGoal` are the POST handlers.

  Each method states the whole new state. Each also keeps two invariants:
  - `Valid`: record ids are distinct and positive;
  - `Consistent`: each stored BMI is `calc_bmi` of the stored weight and height, and each BMR/TDEE is what the owner's profile gives.

The model makes these choices:

- Numbers are exact `real`s.
- Text fields arrive as the trimmed posted text, and the model applies `?: null` itself (`NullIfEmpty`): the profile's sex and activity level, the memo and the goal selector.
- An empty or non-numeric form field or a NULL column is `None`. Where the code uses `empty()`, zero counts as empty too (see `Records.Blank` under "## Left out").
- The CSRF check is a boolean input. "Now" (a timestamp) and "today" (a date) are parameters.
- `calc_bmi` throws for a non-positive height. On the goal page that can only happen with a negative profile height, and it is the solver's `Crashed` outcome; the handler then writes nothing (`Aborted`).
- `age_on_date` is `DateTime::diff(...)->y`: the whole years of the absolute interval. For an on-date before the birth date, the model counts the years from the on-date up to the birth date.
- The goal weight range is [2.0, 1000.0] with 2.0 included, as the code checks it (`$w < 2.0` rejects).

## Model

| member | source | states |
|---|---|---|
| Rounding.Round2 | lib/functions.php:13 | `round(x, 2)`: the result is a whole number of hundredths within half a hundredth of x, with ties going away from zero |
| Metrics.CompletedYears | lib/functions.php:17-21 | the number of whole years from one date to a later one: its anniversary is on or before the later date, and the next one is after it |
| Metrics.AgeOnDate | lib/functions.php:17-21 | `age_on_date`: the whole years of the interval, counted from whichever date is earlier |
| Metrics.CalcBmi | lib/functions.php:6-14 | fails exactly when the height is not positive; otherwise a two-decimal value within 0.005 of weight / (height/100)^2 |
| Metrics.CalcBmiExample | tests/FunctionsTest.php:8-12 | 70 kg at 175 cm gives exactly 22.86 |
| Metrics.MifflinStJeor | lib/functions.php:31-42 | every branch (male, female, mean for any other sex) is 10w + 6.25h - 5a plus the constant 5, -161 or -78 |
| Metrics.CalcBmr | lib/functions.php:25-45 | absent exactly when any input is absent; otherwise the equation to two decimals |
| Metrics.CalcBmrOtherIsMean | lib/functions.php:38-44 | for another sex, the rounded BMR is exactly the mean of the rounded male and female BMRs, whenever the female equation is not negative |
| Metrics.CalcTdee | lib/functions.php:48-52 | absent exactly when the BMR is absent; otherwise BMR times the factor to two decimals |
| Metrics.ActivityFactor | lib/functions.php:55-71 | 1.725 exactly for "high", 1.55 exactly for "medium", 1.2 for everything else, including NULL, "" and "low" |
| Metrics.ValidateHeightWeight | lib/functions.php:74-84 | empty exactly when 0 < h <= 300 and 0 < w <= 1000; there is one message per failing field and nothing else, at most two, with the height's message first |
| Metrics.WeightFromBmr | lib/functions.php:154-171 | absent exactly when the sex is absent or the solved weight would not be positive; otherwise a two-decimal weight whose BMR is within 0.05 of the given one |
| Metrics.WeightFromBmrInvertsCalcBmr | tests/FunctionsTest.php:21-30 | inverting `calc_bmr` of a positive two-decimal weight gives back exactly that weight |
| Metrics.WeightFromBmrNearlyInvertsCalcBmr | tests/FunctionsTest.php:21-30 | inverting `calc_bmr` of any weight above 0.001 kg is defined and within 0.01 of it, inside the test's tolerance of 0.5 |
| Records.EnergyMetrics | public/dashboard.php:63-74 | BMR is present exactly when the profile has a birth date and a sex, and TDEE exactly when BMR is: the two are never half-populated |
| Records.DeriveRecord | public/dashboard.php:36-93 | accepted exactly when there is a date and the fallback height and the weight are in range; a rejection is non-empty and holds the date message exactly when the date is missing, the required message exactly when the fallback height or the weight is blank, each range message exactly when its range check fails, and no other message; an accepted record carries the date, the fallback height, the weight, the memo with "" stored as NULL, `calc_bmi` of the written values, and BMR/TDEE from the profile at the age on the record date |
| Records.BuildRecord | public/dashboard.php:36-93 | the page's stepwise height fallback, error merging and metric computation give exactly `DeriveRecord` |
| Records.DerivedRecordIsConsistent | public/dashboard.php:59-93 | a record built from an accepted form satisfies both stored-metric invariants, with BMR and TDEE absent together |
| Records.RecalculatedIsConsistent | lib/functions.php:124-141 | one record recalculated under a profile agrees with it; its BMI invariant is unchanged; only BMR, TDEE and the update time differ |
| Records.RecalculatingConsistentRecordTouchesOnlyTime | lib/functions.php:124-141 | recalculating a record already consistent with the profile changes only its update time |
| Records.WeightDifference | public/dashboard.php:212-213 | shown exactly when a (non-zero) target weight is set; then the weight minus the target to two decimals |
| Records.NullIfEmpty | public/settings_profile.php:26-29 | `$x ?: null`: NULL exactly for "" and "0", otherwise the text itself (used for the profile's sex and activity level, the record memo and the goal selector) |
| ProfileSettings.ProfileErrors | public/settings_profile.php:31-38 | empty exactly when a present sex is male/female/other and a present activity level is low/medium/high; one message for each failing field, and nothing else |
| ProfileSettings.AcceptedProfileHasKnownValues | public/settings_profile.php:26-40 | an accepted form stores only known enumeration values, and its records get a BMR exactly when a birth date and a sex were posted |
| Goals.Derive | public/settings_goal.php:43-105 | the derivation branches never produce range errors; the posted targets come back unchanged when no branch is selected, when the selected target is empty, when BMI is edited without a profile height, and when BMR or TDEE is edited without a height, a birth date or a sex |
| Goals.GoalRangeErrors | public/settings_goal.php:107-134 | empty exactly when every present target is in range; each target has its own message exactly when it is out of range; at most four; nothing else |
| Goals.SolveGoal | public/settings_goal.php:31-134 | a solved goal is in range and is exactly the goal `Derive` produced for the selected field; it crashes exactly when the derivation does; otherwise it is solved exactly when the derived goal is in range, and a rejection lists exactly that goal's range messages |
| Goals.SolveGoalSteps | public/settings_goal.php:31-134 | the handler's stepwise defaulting, derivation and range checks give exactly `SolveGoal` |
| Goals.DeriveSteps | public/settings_goal.php:43-105 | the four sequential if-blocks give exactly `Derive` |
| Goals.RangeCheckSteps | public/settings_goal.php:107-134 | the four appending checks give exactly `GoalRangeErrors` |
| Goals.SolvedGoalIsStoredUnchanged | public/settings_goal.php:144-165 | writing `$x ? (float)$x : null` stores a solved goal unchanged, since no in-range target is zero |
| Goals.EmptySelectorIsWeight | public/settings_goal.php:38-41 | an empty edit field ("" or "0", NULL after `?: null`) solves exactly as "weight" |
| Goals.UnknownSelectorDerivesNothing | public/settings_goal.php:43-105 | a non-empty selector outside the four names only range-checks the posted targets |
| Goals.DerivationNeverNullsPostedTargets | public/settings_goal.php:33-105 | a target that was posted is still present after derivation |
| Goals.WeightEditDerivesTheOthers | public/settings_goal.php:45-58 | weight edited: it crashes exactly when the profile height is known and negative; BMI is `calc_bmi` when the height is known; BMR and TDEE come from the weight at today's age when height, birth date and sex are known; everything else stays as posted |
| Goals.BmiEditDerivesWeight | public/settings_goal.php:61-74 | BMI edited with a height: weight = Round2(bmi * (h/100)^2), then BMR/TDEE from it when birth date and sex are known; never crashes; without a height nothing changes |
| Goals.BmrEditInvertsToWeight | public/settings_goal.php:77-89 | BMR edited: weight is `weight_from_bmr` of the posted BMR, BMI comes from that weight, TDEE is `calc_tdee` of the posted BMR, and the BMR stays as posted; with no solution, everything stays as posted |
| Goals.TdeeEditDerivesBmr | public/settings_goal.php:92-105 | TDEE edited: TDEE stays as posted and BMR = Round2(tdee / factor), whose own TDEE is within 0.015 of the posted one; weight and BMI come from the unrounded quotient, and the weight's TDEE is within 0.1 |
| Goals.BmiOutOfRangeIsRejected | public/settings_goal.php:115-120 | a posted BMI outside [10, 60] with "bmi" selected is always rejected, and the BMI message is among the errors |
| Goals.WeightThenBmrRoundTrip | public/settings_goal.php:45-89 | re-posting a goal solved from a two-decimal weight, with "bmr" selected instead, solves to the same goal |
| App.CountOwned | lib/functions.php:121-141 | the count of the user's records: at most the number of records, and zero exactly when the user owns none |
| App.RecalcAllMakesUserConsistent | lib/functions.php:121-141 | after bulk recalculation every record of the user agrees with the profile and differs only in BMR, TDEE and update time; other users' records are untouched; ids and owners are kept |
| App.RecalcAllIsIdempotent | lib/functions.php:103-150 | recalculating twice under the same profile equals recalculating once |
| App.RecalcAllKeepsIds | lib/functions.php:121-141 | recalculation keeps the record-id invariant |
| App.RecalcAllRestoresConsistency | public/settings_profile.php:44-50 | overwriting a user's profile and then recalculating that user's records keeps every record consistent with its owner's profile |
| App.AppendKeepsIds | public/dashboard.php:78-93 | appending a record with the next id keeps the ids distinct and below the advanced next id |
| App.AppendKeepsConsistency | public/dashboard.php:59-93 | appending a record consistent with its owner's profile keeps the store consistent |
| App.Tracker.RecalcBodyRecordsForUser | lib/functions.php:103-150 | returns 0 and changes nothing for an unknown user; otherwise the records become `RecalcAll` of the old ones (BMR/TDEE from the profile, or both NULL without birth date or sex) and the count of the user's records is returned; nothing else changes and both invariants are kept |
| App.Tracker.FindOwnedRecord | public/record_edit.php:28-37 | finds a record with that id and owner exactly when one exists |
| App.Tracker.AddRecord | public/dashboard.php:31-97 | with a bad CSRF token or any form error nothing is written and the errors are reported; otherwise exactly one record, `DeriveRecord`'s columns with a fresh id and both timestamps now, is appended; the invariants are kept |
| App.Tracker.EditRecord | public/record_edit.php:22-106 | aborts unless the id is non-zero and names a record of the user; with a bad token or form errors nothing changes; otherwise exactly the matching record is overwritten with `DeriveRecord`'s columns and the new update time; the invariants are kept |
| App.Tracker.UpdateProfile | public/settings_profile.php:20-58 | with a bad token or an enumeration error nothing changes; otherwise the normalised profile is written, the user's records are recalculated, and their count is returned; consistency is kept |
| App.Tracker.SaveGoal | public/settings_goal.php:25-166 | nothing is written unless the goal is solved; a solved goal updates the user's row, keeping its creation time, or inserts it with both timestamps now; the crash aborts |

## Left out

- Sessions, login, registration, logout and password changes: session state and foreign password hashing. The CSRF token check is an input flag, and `csrf_token`/`verify_csrf_token` are not modelled.
- SQL, PDO and the database schema: the tables are a map of profiles, a sequence of records and a map of goals. Ids are allocated from a counter.
- App.Tracker.RecalcBodyRecordsForUser: the transaction and its rollback on a storage failure are not modelled, because storage cannot fail in the model.
- App.Tracker.RecalcBodyRecordsForUser: the count is the number of the user's records. PDO's `rowCount` of unchanged rows is not modelled.
- The order of recalculation (`ORDER BY record_date`) is not modelled. Each record's new values depend only on that record and the profile, so the order does not affect the result.
- HTML, templates, the chart and the field-disabling script: presentation only.
- The CSV export, the record deletion page, the recalculation command-line tool and the schema-to-ALTER script: I/O wrappers outside the calculation core.
- IEEE-754 floating point and PHP's `round()` pre-rounding: the model uses exact reals.
- `DateTime` parsing, time zones and the clock: dates are (year, month, day) values, and the current time and date are parameters.
- PHP loose typing: text-to-number coercion, `is_numeric` on non-numeric text, and `trim`. Form fields arrive already trimmed and parsed, and a field that is not numeric is `None`. An input of only spaces is therefore the empty case.
- Metrics.WeightFromBmr: it states `>= 0`, not `> 0`, for the result. A positive solved weight below 0.005 kg rounds to 0.0.
- Metrics.WeightForBmi: it has no inverse lemma; `WeightForBmi` and `Quetelet` are not proved to undo each other.
- Records.Blank: a posted number is `Option<real>`, so the model cannot tell a posted "0" from "0.0". PHP's `empty()` is true only for "" and "0", so a posted "0.0" height does not fall back to the profile in the code and is rejected by the range check. In the model `Some(0.0)` counts as blank, falls back to the profile height and can be accepted.
- Records.BodyRecord: the stored BMI is a real; the `DECIMAL(5,2)` column width is not modelled.
