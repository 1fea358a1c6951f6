/** The validation messages the form handlers collect in their error list, one constructor per message. */
module Messages {
  datatype Message =
    | InvalidCsrfToken          // the CSRF token did not verify
    | MissingRecordDate         // a body record needs a date
    | HeightAndWeightRequired   // height and weight are both required
    | HeightOutOfRange          // height must lie in (0, 300]
    | WeightOutOfRange          // weight must lie in (0, 1000]
    | InvalidSex                // sex must be male, female or other
    | InvalidActivityLevel      // activity level must be low, medium or high
    | GoalWeightOutOfRange      // target weight must lie in [2.0, 1000.0]
    | GoalBmiOutOfRange         // target BMI must lie in [10.0, 60.0]
    | GoalBmrOutOfRange         // target BMR must lie in [100.0, 5000.0]
    | GoalTdeeOutOfRange        // target TDEE must lie in [100.0, 10000.0]
}
