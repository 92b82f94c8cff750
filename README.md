# HealthyLife core, modelled in Dafny

HealthyLife is a Streamlit health tracker. Behind its pages sits a small amount of deterministic
logic, and this project models that logic and proves properties of it:

- **Goal arithmetic** (`utils.py`, `healthylife_app/utils.py`, and the copies in `new.py` and `user.py`):
  - metric/imperial conversion;
  - age from a date of birth;
  - the Mifflin-St Jeor baseline goals (`auto_goals`);
  - scenario macros (`recommended_macros`);
  - the date-sorted log frame (`logs_to_df`);
  - the rolling-window TDEE re-estimate (`estimate_tdee_from_logs`);
  - the adherence tuner (`adherence_tune`). Its window is a parameter: 14 rows in `utils.py` and
    `new.py`, 7 rows in `healthylife_app/utils.py`.
- **Food catalog and meal ranker** (`healthylife_app/foods.py`):
  - header matching against synonym lists (`_find_col`);
  - the number scanner for messy cells (`_to_number`);
  - the normaliser with its diagnostics (`load_foods`);
  - goal macro ratios (`_goal_ratios`);
  - the score, sort and truncate ranker (`suggest_meals`).
- **In-memory account table** (`new.py`, `user.py`):
  - registration and login over a map from normalised email to user record, plus `add_log`;
  - the email and password validators these use;
  - the three "Smart Tuning" apply steps of the tracker page, which overwrite a user's goals.

The two account pages differ slightly. The tracker page (`new.py`) gives new users an empty list
of logs, and the account page (`user.py`) gives them none. The model therefore has one class,
`Accounts.AccountTable`, parameterised by an `Edition`. Both pages hash with the same deterministic
function `hashPw`, which the model does not look into. The fresh salt is an input.

Floats are exact reals. NaN and None are `None` of an `Option`. The model spells out Python's
truncating `int()` (`Numerics.Trunc`) and its round-half-to-even `round()`
(`Numerics.RoundHalfEven`). Today's date is a parameter wherever the source calls `date.today()`.

A few behaviours of the code are easy to misread. The model follows the code:

- **TDEE needs 14 rows.** `utils.py:92` checks for 10 complete rows, but the 7-row rolling sum and
  the shift of 7 (`utils.py:98-101`) leave no window below 14 rows. So the estimate exists exactly
  when there are at least 14 complete rows (`Tdee.EstimateTdee`, `Tdee.TenToThirteenRowsGiveNone`).
- **No food-name column gives "0.0".** When no food-name header matches, the field becomes an
  all-NaN column (`healthylife_app/foods.py:57-60`), so the row-index fallback of
  `healthylife_app/foods.py:67` is never taken. The frame-wide `fillna(0.0)` and `astype(str)`
  (`healthylife_app/foods.py:93-96`) then turn every name into "0.0"
  (`FoodCatalog.NoFoodHeaderGivesZeroText`).
- **Truncation toward zero.** `int()` truncates toward zero, not down. This matters for the carbs
  of the TDEE apply step (`new.py:459`), which are never clamped at 0 (`Tuning.TdeeCarbs`).
- **Scenario macros without stored goals erase the kcal goal.** The scenario-macro apply step
  writes the macros over `goals or {}`. When no goals were stored, the new record has no "kcal".
  From then on the page's baseline `(goals or auto_goals(profile))["kcal"]` raises, and every
  apply step fails (`Accounts.ScenarioWithoutGoalsBlocksTuning`).

## Model

| member | source | states |
|---|---|---|
| Numerics.Trunc | utils.py:69 | `int(x)` truncates toward zero: the result is the integer between 0 and x that is less than 1 away from x |
| Numerics.RoundHalfEven | new.py:206 | `round(x)` is within 0.5 of x, and an exact tie goes to the even neighbour |
| Numerics.Round1 | utils.py:35-36 | `round(x, 1)` is within 0.05 of x |
| Numerics.RoundHalfEvenMonotone | utils.py:110 | rounding preserves order, so the rounded TDEE clamp bounds hold |
| Text.Lower | new.py:85 | `str.lower` keeps the length and maps every character through the ASCII lower-casing |
| Text.LowerChar | new.py:85 | a lower-cased character is never a capital, and non-capitals are unchanged |
| Text.LowerIdempotent | new.py:85 | lower-casing twice is lower-casing once |
| Text.LowerAppend | healthylife_app/foods.py:19 | lower-casing distributes over concatenation |
| Text.Strip | healthylife_app/foods.py:19 | `str.strip` is no longer than its input and neither starts nor ends with whitespace |
| Text.StripIsSlice | healthylife_app/foods.py:19 | the stripped text is a contiguous slice of the input |
| Text.StripIdempotent | healthylife_app/foods.py:32 | stripping twice is stripping once |
| Text.StripLeadingSpace | new.py:85 | a leading whitespace character never changes the stripped text |
| Text.StripTrailingSpace | new.py:85 | a trailing whitespace character never changes the stripped text |
| Text.StripKeepsNonSpace | healthylife_app/foods.py:32 | stripping keeps exactly the non-whitespace characters present |
| Text.StripNoSpaceEnds | healthylife_app/foods.py:96 | text without whitespace at either end is its own strip |
| Text.LowerOfLowerCase | healthylife_app/foods.py:19 | text without capitals is its own lower case |
| Text.StripKeepsNoCapitals | healthylife_app/foods.py:19 | stripping text without capitals leaves none |
| Text.RemoveChar | healthylife_app/foods.py:36 | `replace(",", "")` keeps every other character and no comma |
| Text.RemoveAbsentChar | healthylife_app/foods.py:36 | deleting a character that is absent changes nothing |
| Text.RemoveCharAppend | healthylife_app/foods.py:36 | deleting commas distributes over concatenation |
| Units.ToMetricFromImperial | utils.py:26-29 | cm / 2.54 is 12·ft + inch, and kg / 0.45359237 is lb |
| Units.ToImperialFromMetric | utils.py:32-37 | feet are the whole feet in cm/2.54; inch is within 0.05 of the remainder and lies in [0, 12.05]; lb is within 0.05 of kg/0.45359237 |
| Units.MetricRoundTrip | user.py:189-193 | metric to imperial and back lands within 0.05·2.54 cm and 0.05·0.45359237 kg of the input |
| Units.ImperialRoundTrip | user.py:44-54 | imperial with inch in [0, 12) to metric and back gives the same feet and inch and lb within 0.05 |
| Units.TwelveInchesAfterRounding | utils.py:35 | the rounded inch can reach 12.0: 30.3784 cm gives 0 ft 12.0 in |
| Dates.ParseAge | utils.py:40-49 | None exactly for a missing or unparseable date; otherwise never negative, and 0 for a date of birth in the future |
| Dates.AgeCountsAnniversaries | utils.py:46-47 | for a date of birth not after today, the age is the number of birthdays reached: that anniversary is on or before today, the next one after |
| Dates.BirthdayCountsOnTheDay | user.py:62-63 | on the birthday itself the full year count is returned |
| Dates.LeapDayBirthday | utils.py:44-47 | a 29 February birthday is not yet counted on 28 February of a common year, but is on 1 March |
| Validators.ValidateEmail | user.py:31-32 | true iff the text is present and wholly matches `[^@\s]+@[^@\s]+\.[^@\s]+` |
| Validators.EmailPatternIff | user.py:32 | the pattern holds iff the first '@' splits the text into a non-empty plain local part and a plain domain with an inner '.' |
| Validators.ValidEmailShape | user.py:32 | a valid address has no whitespace and exactly one '@', which is neither first nor last |
| Validators.ThreePartsValidate | user.py:32 | three non-empty runs without '@' or whitespace, joined as local@name.tld, always validate |
| Validators.NoAtIsInvalid | user.py:32 | text without '@' never validates |
| Validators.StrongPassword | user.py:34-39 | too short iff missing or shorter than 8 characters (checked first); strong iff at least 8 characters with an ASCII letter and a digit |
| Validators.PasswordExamples | user.py:34-39 | "abcdefgh" lacks a digit, "abcdefg1" is strong, "a1" and a missing password are too short |
| Goals.NumberOr | utils.py:56-57 | `x or default`: the default when x is missing or 0, and x itself when it is present and non-zero |
| Goals.AutoGoals | utils.py:55-77 | fiber 25 and water 2000; kcal is the truncated BMR times the activity factor; protein, carbs and fat are the truncated 25/45/30 % shares of kcal over 4, 4 and 9; for kcal ≥ 0 they are non-negative, each within one gram of its share, and together fit the kcal goal |
| Goals.EmptyProfileGoals | healthylife_app/utils.py:58-81 | an empty profile gives 2251 kcal, 140 g protein, 253 g carbs, 75 g fat, 25 g fiber, 2000 ml water |
| Goals.FemaleExample | user.py:112-135 | a 25-year-old 60 kg, 165 cm, light, female profile has BMR 1345.25 and goals 1849/115/208/61 |
| Goals.SameInputsSameGoals | utils.py:55-68 | the goals depend only on the defaulted weight, height, age, lower-cased sex and activity factor |
| Goals.ZeroWeightIsDefault | utils.py:56 | weight 0 is treated as the default 70 kg |
| Goals.ZeroHeightIsDefault | utils.py:57 | height 0 is treated as missing |
| Goals.ZeroAgeIsDefault | utils.py:58 | a date of birth of today (age 0) is treated as missing (age 25) |
| Goals.SexIgnoresCase | utils.py:59-66 | the sex is compared after lower-casing |
| Goals.SexTextIgnoresCase | utils.py:59 | lower-casing the sex text first changes nothing |
| Goals.UnknownActivityIsLight | utils.py:68 | an unknown activity level gives the same goals as a missing one (factor 1.375) |
| Goals.RecommendedMacros | utils.py:113-128 | each value is the clamp at 0 of its raw value: protein the rounded scenario factor times weight, fat the truncated scenario share of kcal over 9, carbs the truncated remainder over 4; all three are at least 0 |
| Goals.ProteinIgnoresKcal | utils.py:116-124 | the recommended protein does not depend on kcal |
| Goals.MacroBudget | healthylife_app/utils.py:107-110 | for kcal ≥ 0 with a non-negative remainder, 4·protein + 9·fat + 4·carbs ≤ kcal < that + 4 |
| Goals.FatLossExample | utils.py:119-128 | 70 kg at 2000 kcal, fat loss, gives 126 g protein, 66 g fat, 225 g carbs |
| Goals.TruncatedRemainderExceedsBudget | utils.py:127-128 | with a remainder in (−4, 0), truncation gives carbs 0 and the macros exceed kcal (710 kcal → 711) |
| Logs.InsertByDate | utils.py:85 | inserting into a date-sorted log keeps it sorted and adds exactly that entry |
| Logs.LogsToFrame | healthylife_app/utils.py:84-91 | the log frame is sorted by date and is a permutation of the logs; an empty list stays empty |
| Logs.SortedCons | utils.py:85 | a sorted log stays sorted with an entry in front that is not later than any of it |
| Tdee.CompleteRows | utils.py:91 | the kept rows are exactly the (intake, weight) pairs of rows that have both: every such row is kept, nothing else appears, and there are no more rows than before |
| Tdee.CompleteRowsAppend | utils.py:91 | the complete-row filter keeps the order: it distributes over concatenation |
| Tdee.KeptWindows | utils.py:98-101 | the windows kept after the 7-row rolling sum and the shift of 7 are exactly indices 6..n−8, and there are that many |
| Tdee.Clamp | utils.py:109 | for b ≥ 0 the clamped value lies in [0.7b, 1.3b]; a value inside is unchanged, one below is 0.7b and one above is 1.3b |
| Tdee.RoundedClampBounds | utils.py:109-110 | the rounded clamp lies between the rounded bounds |
| Tdee.EstimateTdee | utils.py:88-110 | a value exists iff at least 14 rows are complete; it is the rounded clamp of the mean implied daily expenditure, within the rounded bounds |
| Tdee.RawTdeeIsDailyMean | utils.py:105-108 | with n ≥ 14 complete rows there are n − 13 windows, and 7·(n − 13) times the unclamped estimate is the sum of their implied weekly expenditures |
| Tdee.TenToThirteenRowsGiveNone | utils.py:92-103 | 10 to 13 complete rows pass the first check but still give no estimate |
| Tdee.SumConstant | utils.py:98 | a rolling sum over constant values is the count times the value |
| Tdee.SumShift | utils.py:98-100 | when every value moves by delta 7 rows later, the shifted sum moves by count·delta |
| Tdee.ImpliedWeekOfTrend | utils.py:105-106 | with constant intake k and weight rising by delta each week, every window implies 7k − 7700·delta |
| Tdee.RepeatIsProduct | utils.py:107 | adding v n times gives n·v |
| Tdee.RepeatMean | utils.py:107 | the mean of n copies of v is v |
| Tdee.TrendSumImplied | utils.py:105-107 | under a steady trend the sum of implied weeks is the same value repeated |
| Tdee.MeanOfTrend | utils.py:107-108 | under a steady trend the mean over windows divided by 7 is k − 7700·delta/7 |
| Tdee.RawTdeeOfTrend | utils.py:105-108 | the unclamped estimate under a steady trend is k − 7700·delta/7 |
| Tdee.SteadyTrendEstimate | utils.py:88-110 | for logs with constant intake and steady weekly weight change the estimate is the rounded clamp of k − 7700·delta/7 |
| Adherence.Tail | healthylife_app/utils.py:118 | `tail(n)` is the last min(n, len) rows |
| Adherence.CompleteIntake | utils.py:135 | the kept rows are exactly the (intake, protein) pairs of rows that have both, and there are no more rows than before |
| Adherence.CompleteIntakeAppend | utils.py:135 | the complete-row filter keeps the order: it distributes over concatenation |
| Adherence.CountInBandCounts | utils.py:144 | the band count is the number of rows whose intake lies in the inclusive ±5 % band |
| Adherence.CountProteinMetCounts | utils.py:145 | the protein count is the number of rows whose protein reaches 90 % of the goal |
| Adherence.CountInBandAppend | utils.py:144 | the band count of two runs of rows is the sum of their counts |
| Adherence.CountProteinMetAppend | utils.py:145 | the protein count of two runs of rows is the sum of their counts |
| Adherence.Rate | utils.py:144-145 | the share of hits: rate × total = hits, so it is in [0, 1], 1 iff all rows hit and 0 iff none do |
| Adherence.RateBounds | healthylife_app/utils.py:127-128 | the mean of the band test is in [0, 1], 1 iff all complete rows hit and 0 iff none do |
| Adherence.KcalAdjust | utils.py:147-151 | −100 iff the rate is below 0.4, +100 iff above 0.8, else 0 |
| Adherence.KcalAdjustMonotone | healthylife_app/utils.py:130-134 | the adjustment never decreases as the rate grows |
| Adherence.AdherenceTune | utils.py:131-153 | None iff the frame or goals are empty, no row in the window is complete, or the kcal or protein target is missing or 0; otherwise the kcal rate is the share of the window's complete rows in the ±5 % band, the protein rate the share meeting 90 % of the goal, and the adjustment follows the kcal rate |
| Adherence.AdherenceRatesAreShares | utils.py:135-145 | when the tune gives a result, its kcal rate is the number of complete window rows in the band over the number of complete window rows, and its protein rate the number meeting the protein goal over the same |
| Adherence.OlderRowsIgnored | healthylife_app/utils.py:117-118 | rows older than the window never change the result, because the tail is taken before the filter |
| Adherence.CountInBandAll | healthylife_app/utils.py:127 | when every complete row is in the inclusive band, all are counted |
| Adherence.CountInBandNone | healthylife_app/utils.py:127 | when no complete row is in the band, none are counted |
| Adherence.FullAdherenceRaisesTarget | utils.py:144-151 | every complete row in the band gives rate 1 and +100 |
| Adherence.NoAdherenceLowersTarget | utils.py:144-151 | no complete row in the band gives rate 0 and −100 |
| Tuning.GoalsOrEmpty | new.py:452 | `goals or {}`: the stored goals when present and non-empty, otherwise the empty map |
| Tuning.BaseKcal | new.py:436 | the stored kcal goal, or the automatic one when no goals are stored; None (the `KeyError`) iff stored goals lack "kcal" |
| Tuning.DailyShift | new.py:446 | the daily shift is `round(1100 × weekly change)` with ties to even, so within 0.5 of it |
| Tuning.HalfKiloAWeek | new.py:446 | losing 0.5 kg a week shifts the daily goal by −550 kcal |
| Tuning.TdeeFat | new.py:458 | `int(0.30·kcal/9)`: for kcal ≥ 0, 9f ≤ 0.30·kcal < 9(f+1) and the fat is non-negative; for kcal < 0 the same bounds from the other side |
| Tuning.TdeeCarbs | new.py:459 | `int(remainder/4)` truncates toward zero: for a non-negative remainder 0 ≤ 4c ≤ remainder < 4c + 4; for a negative one remainder ≤ 4c ≤ 0 and 4c < remainder + 4, so the carbs can be negative and are never clamped at 0 |
| Tuning.TdeeGoals | new.py:452-461 | intended TDEE step: kcal, protein 1.8 g/kg rounded, fat and carbs from the new protein are set; every other stored goal is kept |
| Tuning.TdeeGoalsFitBudget | new.py:456-460 | with a non-negative carbs remainder the intended goals fit their kcal |
| Tuning.TdeeGoalsAsWritten | new.py:452-461 | as written: raises iff no "protein_g" is stored, and then a non-empty stored record keeps the new kcal written in place while an unset or empty one is unchanged; otherwise kcal, protein and fat take their new values, carbs use the stored protein rather than the new one, and every other stored goal is kept |
| Tuning.StaleProteinOverBudget | new.py:456-460 | stored protein 100, 70 kg, 2000 kcal: as written gives carbs 250 and 2098 kcal of macros; the intended step gives 224 and 1994 |
| Tuning.NoGoalsRaises | new.py:452-459 | as written, a user without stored goals makes the TDEE step raise |
| Tuning.AsWrittenAgreesWhenProteinUnchanged | new.py:456-460 | when the stored protein already equals the new one, as written and intended agree |
| Tuning.StoredTdee | new.py:178-206 | the estimate over the date-sorted stored logs with the page's baseline; it exists iff that log has at least 14 complete rows |
| Tuning.InsertKeepsCompleteCount | new.py:173 | inserting one entry by date adds its own complete rows to the count |
| Tuning.CompleteCountIgnoresOrder | new.py:168-173 | sorting the logs by date keeps the number of complete rows |
| Tuning.StoredTdeeNeeds14Days | new.py:183-196 | the stored-log estimate exists iff at least 14 logged days have both intake and weight |
| Tuning.NudgedKcal | new.py:482 | `max(1000, kcal + adjust)` is at least 1000, and it is kcal + adjust unless that is below 1000 |
| Tuning.AdherenceGoals | new.py:477-485 | a result iff the 14-row tune gives a non-zero adjustment; then only "kcal" changes, to `max(1000, kcal + adjustment)` |
| Tuning.NudgeIsSmall | new.py:481-485 | a nudge happens only for a rate below 0.4 or above 0.8; above 0.8 the kcal goal becomes max(1000, k + 100), below 0.4 max(1000, k − 100) |
| Tuning.ScenarioKcal | new.py:468 | `(goals or {}).get("kcal", base)`: the stored kcal goal when there is one, otherwise the baseline |
| Tuning.ScenarioGoals | new.py:466-474 | None iff the baseline raises; otherwise protein, fat and carbs are the recommended macros for the stored kcal goal (or the baseline), and every other stored goal is kept |
| Tuning.ScenarioGoalsFitBudget | new.py:469-473 | with a stored kcal goal and a non-negative remainder, the written macros fit the kcal goal to within 4 kcal |
| Tuning.ScenarioWithoutGoalsLosesKcal | new.py:469-473 | with no goals stored, the step succeeds but leaves a record without "kcal", so the next baseline raises |
| Accounts.NormalizeEmail | new.py:85 | the key is the lower-cased, stripped email (empty for a missing one), so it has no capitals and no surrounding whitespace |
| Accounts.NormalizeEmailIdempotent | new.py:85 | normalising twice is normalising once |
| Accounts.NormalizeEmailIgnoresCase | new.py:116 | any capitalisation of an email logs into the same key |
| Accounts.NormalizeEmailIgnoresSpace | new.py:116 | surrounding whitespace never changes the key |
| Accounts.RegisterMessage | new.py:84-113 | the success message iff registration succeeded; an invalid email gives "Please enter formal Email format." |
| Accounts.CanLogIn | new.py:115-121 | a login succeeds only for a registered normalised email |
| Accounts.RegistrationOf | new.py:84-92 | email format, then password strength, then duplicates are checked in that order; registration succeeds iff all pass |
| Accounts.NewRecord | user.py:79-97 | a new record has the salt and hash, a profile with only the name and activity "light", default settings and no goals; logs are an empty list on the tracker page and absent on the account page |
| Accounts.UnknownEmailCannotLogIn | new.py:115-119 | an unknown normalised email never logs in |
| Accounts.NewUserCanLogIn | new.py:93-121 | after registration, the same password with any spelling of the email that normalises the same logs in |
| Accounts.OtherLoginsUnchanged | new.py:94 | storing one record changes no other email's login |
| Accounts.NewEntry | new.py:156-165 | the entry keeps date and weight; intake, protein, carbs, fat and steps are each truncated toward zero when given and absent otherwise |
| Accounts.TruncOpt | new.py:160-164 | `int(x) if x is not None else None` |
| Accounts.TdeeStep | new.py:436-461 | new goals iff the baseline does not raise and the stored-log estimate exists and is non-zero; then only the goals change, to the TDEE goals for the estimate plus the daily shift |
| Accounts.TdeeStepFitsBudget | new.py:452-461 | the stored goals hold kcal and the three macros, and fit the kcal goal when the carbs remainder is not negative |
| Accounts.AdherenceStep | new.py:477-489 | a new record iff the adherence goals exist; then only the goals change, to those goals, and the kcal goal is at least 1000 |
| Accounts.ScenarioStep | new.py:466-474 | the macros are written iff the baseline does not raise; only the goals change, to the scenario goals |
| Accounts.ScenarioWithoutGoalsBlocksTuning | new.py:436 | after the scenario step on a user without goals, the TDEE, adherence and scenario steps all fail |
| Accounts.ValidAfterInsert | new.py:94 | storing under a valid normalised email keeps every key a normalised valid email |
| Accounts.ValidAfterUpdate | new.py:461 | replacing a record that keeps its logs keeps the table valid |
| Accounts.AccountTable.constructor | new.py:30-31 | the table starts empty |
| Accounts.AccountTable.Register | new.py:84-113 | returns the page's message for the outcome; on success exactly one record is added under the normalised email, otherwise the table is unchanged |
| Accounts.AccountTable.LogIn | user.py:100-106 | true iff the normalised email is registered and its stored hash equals the hash of the stored salt and the password |
| Accounts.AccountTable.AddLog | new.py:156-166 | appends exactly one entry to that user's logs; an unknown email or a record without logs raises and changes nothing; on the tracker page every registered user has logs (new.py:111), so a registered email never raises |
| Accounts.AccountTable.ApplyTdee | new.py:442-461 | stores the TDEE step's record iff it exists, and otherwise changes nothing |
| Accounts.AccountTable.ApplyScenario | new.py:466-474 | stores the scenario step's record iff it exists, and otherwise changes nothing |
| Accounts.AccountTable.ApplyAdherence | new.py:477-489 | stores the nudged record iff it exists, so the kcal goal set is at least 1000; otherwise nothing changes |
| FoodColumns.NormalizeAll | healthylife_app/foods.py:19 | every header is compared stripped and lower-cased |
| FoodColumns.LowerAll | healthylife_app/foods.py:21 | every candidate is compared lower-cased |
| FoodColumns.IndexOf | healthylife_app/foods.py:22 | `lc.index(key)` is the first position holding key, and None iff key is absent |
| FoodColumns.FirstHitNoneIff | healthylife_app/foods.py:20-23 | no header is found iff no key occurs among the headers |
| FoodColumns.ResolveColumnNoneIff | healthylife_app/foods.py:17-23 | `_find_col` gives None iff no normalised header equals any lower-cased candidate |
| FoodColumns.ResolveColumnFirstHit | healthylife_app/foods.py:17-23 | the earliest matching candidate wins, with its leftmost header returned as written |
| FoodColumns.Search | healthylife_app/foods.py:21-22 | the search loop finds the first position of the key, or the end when it is absent |
| FoodColumns.FindCol | healthylife_app/foods.py:17-23 | the loop with early return gives exactly the resolved header |
| FoodColumns.LengthMismatchNeverMatches | healthylife_app/foods.py:19-21 | a header whose normal form differs in length from a candidate never matches it |
| FoodColumns.NormalizeCarbsG | healthylife_app/foods.py:19 | the header `carbs_g` is its own normal form |
| FoodColumns.NormalizeOfClean | healthylife_app/foods.py:19 | a header without surrounding whitespace or capitals is its own normal form |
| FoodColumns.CarbsSpellingLengths | healthylife_app/foods.py:12 | no carbs synonym has the 7 characters of `carbs_g` |
| FoodNumbers.DigitRun | healthylife_app/foods.py:38 | `\d+` takes the maximal run of digits |
| FoodNumbers.Fraction | healthylife_app/foods.py:38 | a fraction part is in [0, 1] |
| FoodNumbers.FirstMatch | healthylife_app/foods.py:38 | `re.search` finds the leftmost position where `-?\d+(\.\d+)?` matches, and None iff there is none |
| FoodNumbers.ToNumber | healthylife_app/foods.py:27-44 | a missing cell gives NaN |
| FoodNumbers.ToNumberNoneIff | healthylife_app/foods.py:30-40 | NaN iff the cell is missing or has no digit after stripping and deleting commas |
| FoodNumbers.ScanNumberNoneIff | healthylife_app/foods.py:38-40 | the scan finds no number iff the text has no digit |
| FoodNumbers.ToNumberOfTrimmed | healthylife_app/foods.py:32-38 | for text without surrounding whitespace, the value is the scan of the text with its commas deleted |
| FoodNumbers.ScanDigitsAt | healthylife_app/foods.py:38-42 | the first digit run after digit-free text, not preceded by '-' nor followed by a digit or '.', scans to its decimal value |
| FoodNumbers.ScanDigitsOf | healthylife_app/foods.py:38-42 | a digit string sitting as such a run scans to its decimal value |
| FoodNumbers.ScanDecimalAt | healthylife_app/foods.py:38-42 | text starting with digits, a point and digits not followed by a digit scans to the integer part plus the fraction |
| FoodNumbers.ScanNegativeAt | healthylife_app/foods.py:38-42 | a minus sign and digits after digit-free text, followed by neither digit nor point, scan to the negated integer |
| FoodNumbers.ScanDigitsAfterText | healthylife_app/foods.py:38-42 | digit-free text, then digits, then a non-digit, non-point suffix scans to the digits' value |
| FoodNumbers.DigitsScan | healthylife_app/foods.py:38-42 | a plain run of digits scans to its decimal value |
| FoodNumbers.UnitSuffixIgnored | healthylife_app/foods.py:27-44 | digits followed by a unit such as " kcal" or "g" give the digits' value ('120 kcal' → 120) |
| FoodNumbers.CommaDeleted | healthylife_app/foods.py:36-42 | digits joined by a comma read as one number ('1,234' → 1234, '1,5' → 15) |
| FoodNumbers.LeadingPointSkipped | healthylife_app/foods.py:38-42 | a leading point is skipped ('.5' → 5) |
| FoodNumbers.DecimalPointRead | healthylife_app/foods.py:27-42 | digits, a point and digits read as the integer part plus the fraction ('12.5' → 12.5) |
| FoodNumbers.MinusSignRead | healthylife_app/foods.py:27-42 | a minus sign before digits reads as the negated integer ('-3' → −3) |
| FoodNumbers.LettersAreNaN | healthylife_app/foods.py:39-40 | 'abc' gives NaN |
| FoodNumbers.RemoveJoiningComma | healthylife_app/foods.py:36 | deleting the comma between two digit runs joins them |
| FoodCatalog.NaNColumn | healthylife_app/foods.py:59 | `df[std] = np.nan` is a full-height column of NaN |
| FoodCatalog.SetNaNColumnWellFormed | healthylife_app/foods.py:59 | assigning the NaN column keeps every header paired with a full-height column and drops no column |
| FoodCatalog.MapFieldsWellFormed | healthylife_app/foods.py:55-62 | the mapping loop keeps the frame well formed and keeps every uploaded column |
| FoodCatalog.MapFieldsKeys | healthylife_app/foods.py:55-62 | after k loop rounds the mapping holds exactly the first k standard fields |
| FoodCatalog.MapFieldsMapping | healthylife_app/foods.py:55-62 | every mapped field points at an uploaded header or at its own name, and at a column of the frame |
| FoodCatalog.ResolutionsFound | healthylife_app/foods.py:56 | every header `_find_col` returns is among the uploaded headers |
| FoodCatalog.StandardMappingSound | healthylife_app/foods.py:53-62 | the mapping has exactly the five standard fields, each pointing at an uploaded header or its own name, with a column for each |
| FoodCatalog.UnmatchedFieldIsNaN | healthylife_app/foods.py:57-60 | an unmatched field maps to its own name, whose column is all NaN after the loop, whatever later rounds do |
| FoodCatalog.StandardUnmatchedIsNaN | healthylife_app/foods.py:57-60 | an unmatched standard field maps to its own name, which holds an all-NaN column |
| FoodCatalog.MapColumns | healthylife_app/foods.py:53-62 | the mapping loop computes the standard mapping and frame |
| FoodCatalog.ParseRows | healthylife_app/foods.py:66-72 | the five-column frame has one row per uploaded row |
| FoodCatalog.DropMissingKcal | healthylife_app/foods.py:77 | the kept rows are exactly the rows with a kcal value; there are no more rows than before |
| FoodCatalog.DropMissingKcalAppend | healthylife_app/foods.py:77 | the filter keeps the order: it distributes over concatenation |
| FoodCatalog.FillColumn | healthylife_app/foods.py:83 | `fillna(0.0)` on one column fills every row of it, and only it |
| FoodCatalog.FillMacros | healthylife_app/foods.py:82-83 | the fill loop keeps the row count |
| FoodCatalog.FillMacroColumns | healthylife_app/foods.py:82-83 | the loop over the three macro columns computes the filled rows |
| FoodCatalog.FillMacrosDefaults | healthylife_app/foods.py:82-83 | each missing macro becomes 0 and every other cell stays |
| FoodCatalog.FinishAll | healthylife_app/foods.py:87-96 | densities, the final fill and the name text are applied row by row |
| FoodCatalog.Finish | healthylife_app/foods.py:83-96 | a finished row has the name stripped ("0.0" when missing), each missing kcal or macro as 0, and consistent per-100-kcal densities |
| FoodCatalog.Per100KcalScales | healthylife_app/foods.py:89-91 | for kcal ≠ 0 a density times kcal is 100 times the grams |
| FoodCatalog.FinishDensities | healthylife_app/foods.py:87-93 | a row built with the per-100-kcal densities has x/kcal·100 densities when kcal ≠ 0 and 0 when kcal is 0 |
| FoodCatalog.LoadFoods | healthylife_app/foods.py:48-103 | the method with its loops builds the normalised catalog |
| FoodCatalog.NormalizeCatalog | healthylife_app/foods.py:48-103 | rows_in is the uploaded height, rows_after_kcal is at most that and equals the number of rows, and columns_mapped is the standard mapping |
| FoodCatalog.CatalogDiagnostics | healthylife_app/foods.py:74-102 | rows_in is the uploaded height, rows_after_kcal is at most that and is the catalog size, and the mapping covers the five fields |
| FoodCatalog.CatalogDensities | healthylife_app/foods.py:85-93 | every catalog row's densities are consistent with its grams and kcal |
| FoodCatalog.CatalogMapping | healthylife_app/foods.py:102 | `columns_mapped` is the mapping the loop built |
| FoodCatalog.CatalogRowSource | healthylife_app/foods.py:66-96 | every catalog row comes from an uploaded row with a kcal value, its macros filled and its name stripped |
| FoodCatalog.NoFoodHeaderGivesZeroText | healthylife_app/foods.py:57-67 | without a food-name header every name is "0.0" |
| FoodCatalog.NoCarbsFinish | healthylife_app/foods.py:82-93 | a missing carbs cell finishes as 0 g and 0 per 100 kcal |
| FoodCatalog.UnmatchedCarbsRow | healthylife_app/foods.py:57-91 | with no carbs header matched, a catalog row has 0 carbs and 0 carbs density |
| FoodCatalog.UnmatchedCarbsAreZero | healthylife_app/foods.py:55-91 | with no carbs header matched, carbs map to `carbs_g` and every row has 0 carbs |
| FoodCatalog.CarbsGColumnDiscarded | healthylife_app/foods.py:12 | a header spelled exactly `carbs_g` is overwritten with NaN, so all carbs read 0 |
| FoodCatalog.StandardNamesDistinct | healthylife_app/foods.py:8-14 | the five standard field names are distinct |
| MealRanker.GoalOr | healthylife_app/foods.py:108-111 | `goals.get(key) or default`: the stored goal when present and non-zero, otherwise the default |
| MealRanker.GoalRatios | healthylife_app/foods.py:107-119 | non-negative goals give non-negative ratios, which sum to 1 when the macro energy is at least 1 |
| MealRanker.GoalRatiosAreShares | healthylife_app/foods.py:107-120 | each goal ratio times max(4p + 4c + 9f, 1) is that macro's goal energy 4p, 4c or 9f, with 120, 200 and 60 g for goals missing or 0 |
| MealRanker.DefaultGoalRatios | healthylife_app/foods.py:108-119 | empty goals give the shares 480, 800 and 540 of 1820 |
| MealRanker.FoodRatios | healthylife_app/foods.py:148-156 | a food of 0 kcal, or a meal of 0 kcal, has all-zero ratios; otherwise the ratios are all zero or sum to 1 |
| MealRanker.Shares | healthylife_app/foods.py:150-156 | three energies as shares of their sum are all zero or sum to 1 |
| MealRanker.SharesIgnoreScale | healthylife_app/foods.py:148-156 | scaling every energy by the same non-zero factor leaves the shares unchanged |
| MealRanker.FoodRatiosIgnoreMealSize | healthylife_app/foods.py:148-156 | for meal ≠ 0 and kcal ≠ 0 the scale cancels, and a food's ratios are its unscaled macro energy shares |
| MealRanker.RatioDistance | healthylife_app/foods.py:159 | the squared ratio distance is non-negative, and 0 iff the ratios are equal |
| MealRanker.KcalPenalty | healthylife_app/foods.py:162 | the penalty times max(meal, 1) is |kcal − meal|, so it is non-negative and 0 iff the food's kcal equals the meal size |
| MealRanker.BalancedScoreBounds | healthylife_app/foods.py:168-169 | a balanced score is never negative, and 0 iff the food matches the goal shares and the meal size |
| MealRanker.Score | healthylife_app/foods.py:162-169 | high protein scores at least −protein density, low carb at least carbs density, balanced at least the ratio distance; each with equality iff the food's kcal equals the meal size |
| MealRanker.HighProteinPrefersDenser | healthylife_app/foods.py:164-165 | at equal kcal, high-protein ranks the denser protein source first |
| MealRanker.LowCarbPrefersLeaner | healthylife_app/foods.py:166-167 | at equal kcal, low-carb ranks the leaner carbs source first |
| MealRanker.Scored | healthylife_app/foods.py:164-178 | every food gets the score of its strategy, in catalog order |
| MealRanker.InsertByScore | healthylife_app/foods.py:179 | inserting into a score-sorted list keeps it sorted and adds exactly that suggestion |
| MealRanker.SortByScore | healthylife_app/foods.py:179 | `sort_values("score")` gives a non-decreasing permutation |
| MealRanker.Head | healthylife_app/foods.py:188 | `head(n)` is the first min(n, len) rows for n ≥ 0 and all but the last −n rows for n < 0 |
| MealRanker.HeadOfSortedIsSmallest | healthylife_app/foods.py:179-188 | the head of a sorted list is sorted, is taken from it, and scores no higher than anything left out |
| MealRanker.PrefixOfSortedIsSmallest | healthylife_app/foods.py:179-188 | a prefix of a sorted list is sorted, is taken from it, and scores no higher than anything after it |
| MealRanker.SuggestMeals | healthylife_app/foods.py:122-188 | empty for an empty catalog; min(topn, rows) suggestions for topn ≥ 0 and max(rows + topn, 0) for a negative topn (`head(-n)`); sorted by score; drawn from the scored catalog, with no left-out food scoring lower |

## Left out

- Streamlit pages, widgets, routing, charts and the hydration tracker are UI. So are `app.py`, the root `foods.py` page script, `auth.py` and `db.py` with its SQLite storage and PBKDF2; `db.py` is not part of this model.
- `sha256` is the uninterpreted function `hashPw`. The 16 random salt bytes are an input, and the hex round trip of the stored salt is taken as exact.
- `date.today()` is the parameter `today`.
- `strptime` is reduced to its outcome: a date of birth is `Option<Date>`, `None` for a missing, empty or unparseable text.
- `pd.read_csv` type inference is left out: an uploaded table is its headers plus text cells, `None` for an empty cell. A cell that pandas already read as a number is taken as its text form.
- Floats are exact reals. IEEE-754 rounding of products, `round(x, 1)` on binary floats, and `str()` of floats in scientific notation are not modelled.
- Unicode is not modelled. Whitespace, digits, letters and case are ASCII.
- pandas' `sort_values` is not stable (quicksort by default). The model sorts by a stable insertion, which is one admissible order. `MealRanker.SortByScore` and `MealRanker.SuggestMeals` state only sortedness, the permutation and the top-k property, which hold for every order of equal scores.
- Tuning.StoredTdee, Tuning.AdherenceGoals, Accounts.TdeeStep and Accounts.AdherenceStep: their values are those for the stable order of same-date logs (`Logs.LogsToFrame`). With two logs on one date, `sort_values("date")` (new.py:173) may order them the other way. That changes the 7-row rolling windows of the estimate (new.py:190-193) and which rows the 14-row tail keeps (new.py:237).
- The `est_*_g` and `meal_kcal_target` columns of `suggest_meals` are dropped by the `keep` list before returning, so they are not modelled.
- The row-index fallback for food names (`healthylife_app/foods.py:67`) is unreachable and not modelled.
- A missing `kcal_in`, `weight_kg` or `protein_g` column in a log frame is treated as a column of missing values. Both give the same `None`.
- Exceptions such as the `KeyError` of a goals record without "kcal" are a `None` result or a `raised` flag; the page aborting is not modelled.
- Accounts.AccountTable.ApplyTdee: stores the intended goals (`Tuning.TdeeGoals`), not the as-written computation. As written (new.py:452-459), a user with stored goals gets carbs from the stale protein, and a user with no stored goals (as `register_user` leaves them, new.py:110) hits `KeyError` on `g["protein_g"]` and stores nothing. Both paths are modelled by `Tuning.TdeeGoalsAsWritten` and listed under Findings.
- Accounts.TdeeStep: models the corrected step. It returns new goals where the source as written uses the stale protein for carbs, and also where the source raises `KeyError` because no goals are stored (new.py:459). `Tuning.TdeeGoalsAsWritten` and `Tuning.NoGoalsRaises` state both as-written paths.
- Accounts.TdeeStepFitsBudget: the budget is proved for the corrected step only. The source as written breaks it through the stale protein (`Tuning.StaleProteinOverBudget`), and it stores nothing when no goals are stored.
- FoodNumbers.ToNumber: its own contract states only that a missing cell is NaN. The value it reads is stated by the lemmas beside it (`ToNumberNoneIff`, `ToNumberOfTrimmed`, `UnitSuffixIgnored`, `CommaDeleted`, `LeadingPointSkipped`, `DecimalPointRead`, `MinusSignRead`). These cover text that is one number, possibly with a unit or a joining comma; the scan of text with several numbers is stated only through `FirstMatch`.
- Goals.MacroBudget: holds only for kcal ≥ 0, non-negative weight and a non-negative unclamped carbs remainder. `Goals.TruncatedRemainderExceedsBudget` shows the budget failing outside that.
- Logs.LogsToFrame: converting date text with `pd.to_datetime` is reduced to already-parsed dates.

## Findings

| source | as written | input that shows it | evidently intended | confidence | as-written member | corrected member |
|---|---|---|---|---|---|---|
| new.py:456-460 | The carbs value inside the `g.update({...})` argument reads `g["protein_g"]` before the update. So it uses the previously stored protein, and raises `KeyError` when none is stored. | stored protein 100 g, weight 70 kg, new kcal 2000: protein becomes 126, fat 66, carbs 250, so the macros hold 2098 kcal, above the 2000 goal | carbs from the new protein (224 g, 1994 kcal), so the macros fit the kcal goal whenever the remainder is not negative | not executed | Tuning.TdeeGoalsAsWritten | Tuning.TdeeGoals |
