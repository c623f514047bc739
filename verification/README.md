# FitForge core in Dafny

FitForge is a fitness tracker. It has a Next.js API backed by PostgreSQL through the Drizzle ORM, and a React Native client. This project models the core of both sides as pure functions over immutable data and proves what they promise.

**Server**
- The schema is one datatype per table. The database is a sequence of rows per table. The declared constraints are the invariant `Schema.Valid`:
  - unique user ids and e-mails;
  - one profile row and one goals row per user;
  - every `userId` references a user.
- Each route handler is a function from the database and the request to a `Reply`: the HTTP response plus the database the handler leaves behind.
- Request bodies distinguish an absent field, `null` and a value (`Js.Field`). The JavaScript operators the handlers use are modelled on that: `||`, `??` and `=== undefined`.
- The ORM's write rule is `Js.Written`. An absent key keeps the column, `null` stores NULL, and a value stores itself.
- A statement the database refuses answers the route's `catch` message with status 500. That covers a foreign key to a missing user, NOT NULL, the 4-byte `integer` range, and a duplicate e-mail or id.

**Workout statistics** (`WorkoutStats`)
- Days are integers.
- The streak walk is proved equal to a reference definition, `IsStreak`: the run of workout days ending today (or yesterday, when today has none), capped at 365 days.
- The date listing is proved to be the unique strictly descending listing of the distinct workout days.
- The percentage uses exact integer rounding.

**Client**
- The theme state (`Theme`), the authentication flags (`AuthContext`) and the start-screen redirect (`StartRoute`).
- The fitness-goals screen (`FitnessGoalsScreen`): its toggle, its mapping from a server row to form text, and the body it saves. The body is connected end to end to the goals route.

Inputs the code reads from its environment are parameters:
- today's day number and day of the month;
- the current instant;
- the caller's user id and the id the database would generate;
- the API key;
- the model call, `JSON.parse` and the `Date` constructor on a request's date string, with `None` standing for a throw or an Invalid Date;
- the outcome of each storage call.

## Model

| member | source | states |
|---|---|---|
| Schema.NewUser | fitme-web/lib/db/schema.ts:3-12 | a user inserted with only id, e-mail, name and image gets theme "dark" and notifications 1 |
| Schema.FirstWhere | fitme-web/app/api/v1/user/goals/route.ts:47-49 | `findFirst` returns a matching row, or none when no row matches; every lookup is on a unique key, so at most one row matches and the scan order is immaterial |
| Schema.FirstWhereIs | fitme-web/app/api/v1/user/goals/route.ts:47-49 | the scan answers the position of a matching row exactly when no earlier row matches; under the unique keys that is the only matching row |
| Schema.EmptyDbValid | fitme-web/lib/db/schema.ts:3-69 | the empty database satisfies the declared unique and foreign-key constraints |
| Js.WriteKeepsColumn | fitme-web/app/api/v1/user/goals/route.ts:21-31 | a conflict update leaves a column as it was exactly when its key is undefined, or it stores what the column already holds |
| Js.WriteIsIdempotent | fitme-web/app/api/v1/user/goals/route.ts:21-31 | repeating the write of a field changes nothing more |
| Js.LaterWriteWins | fitme-web/app/api/v1/user/goals/route.ts:21-31 | a present key (a value or `null`) overwrites the column whatever it held, so the later of two writes decides |
| WorkoutStats.UserWorkouts | fitme-web/app/api/v1/progress/stats/route.ts:12-15 | the selected rows are the rows of the caller, no more than the table holds |
| WorkoutStats.UserWorkoutsAreTheCallersRows | fitme-web/app/api/v1/progress/stats/route.ts:12-15 | every row of the caller is selected as many times as the table holds it, and no other row is selected |
| WorkoutStats.WalkCountsRun | fitme-web/app/api/v1/progress/stats/route.ts:34-45 | after the first iteration the loop adds the length of the run of workout days ending at the cursor, capped by the iterations left |
| WorkoutStats.CurrentStreak | fitme-web/app/api/v1/progress/stats/route.ts:33-45 | the streak is the run ending today, or ending yesterday when today has no workout; it is at most 365, and at most 364 without a workout today |
| WorkoutStats.StreakIsUnique | fitme-web/app/api/v1/progress/stats/route.ts:33-45 | the reference definition admits only the computed streak |
| WorkoutStats.GapEndsStreak | fitme-web/app/api/v1/progress/stats/route.ts:33-45 | workouts on D-1 and D-3 only give streak 1 |
| WorkoutStats.SixDaysBeforeToday | fitme-web/app/api/v1/progress/stats/route.ts:33-45 | workouts on D-6..D-1 give streak 6 |
| WorkoutStats.SevenDaysEndingToday | fitme-web/app/api/v1/progress/stats/route.ts:33-45 | workouts on D-6..D give streak 7 |
| WorkoutStats.StreakReachesCap | fitme-web/app/api/v1/progress/stats/route.ts:34-41 | a workout on each of the last 365 days gives exactly the cap, 365 |
| WorkoutStats.FutureDaysIgnored | fitme-web/app/api/v1/progress/stats/route.ts:33-45 | days after today do not affect the streak |
| WorkoutStats.WorkoutTodayKeepsStreak | fitme-web/app/api/v1/progress/stats/route.ts:33-45 | adding today to the workout days never lowers the streak |
| WorkoutStats.FutureDayLeavesStreak | fitme-web/app/api/v1/progress/stats/route.ts:33-45 | adding a day after today leaves the streak unchanged |
| WorkoutStats.InsertDescending | fitme-web/app/api/v1/progress/stats/route.ts:30 | inserting a day into a strictly descending list keeps it strictly descending, with exactly the old days and the new one |
| WorkoutStats.DescendingDates | fitme-web/app/api/v1/progress/stats/route.ts:23-30 | the listing is strictly descending and holds exactly the distinct workout days |
| WorkoutStats.DescendingListingIsUnique | fitme-web/app/api/v1/progress/stats/route.ts:30 | two strictly descending listings of the same days are equal |
| WorkoutStats.DistinctListingSize | fitme-web/app/api/v1/progress/stats/route.ts:23-30 | a strictly descending listing has as many entries as distinct days |
| WorkoutStats.CountFromIsCardinality | fitme-web/app/api/v1/progress/stats/route.ts:49-52 | the filtered length is the number of distinct workout days on or after the first of the month, with no upper bound |
| WorkoutStats.NewDayCountsOnce | fitme-web/app/api/v1/progress/stats/route.ts:49-52 | a new day on or after the month start raises the monthly count by exactly one |
| WorkoutStats.ConsistencyPercentage | fitme-web/app/api/v1/progress/stats/route.ts:56-62 | the percentage is at most 100, rounds monthly/daysPassed·100 half up, is 100 exactly when 200·m ≥ 199·d, and is 0 with no workouts |
| WorkoutStats.RoundedHalfUp | fitme-web/app/api/v1/progress/stats/route.ts:57 | (200m+d) div 2d is the integer q with 2qd ≤ 200m+d < 2(q+1)d |
| WorkoutStats.ConsistencyIsMonotonic | fitme-web/app/api/v1/progress/stats/route.ts:56-62 | more workout days in the month never lower the percentage |
| WorkoutStats.GetStats | fitme-web/app/api/v1/progress/stats/route.ts:12-65 | the total counts rows; the dates are the distinct days, descending; the streak meets the reference; monthly counts distinct days since the month start; the percentage is the rounded consistency of that count over the day of the month, at most 100 |
| WorkoutStats.NoWorkoutsGiveZeroStats | fitme-web/app/api/v1/progress/stats/route.ts:18-65 | a user without workouts gets streak, monthly, percentage and total 0 and no dates |
| WorkoutStats.StatsDependOnlyOnDays | fitme-web/app/api/v1/progress/stats/route.ts:23-64 | all figures but the total depend only on the set of workout days |
| WorkoutStats.UserDaysWithWorkout | fitme-web/app/api/v1/progress/stats/route.ts:23-28 | a new row of the user adds its day to the day set and one to the row count |
| WorkoutStats.RepeatedDayCountsOnce | fitme-web/app/api/v1/progress/stats/route.ts:23-63 | a second workout on a day already counted raises only the total |
| WorkoutStats.OtherUsersWorkoutIgnored | fitme-web/app/api/v1/progress/stats/route.ts:12-15 | another user's workout changes none of the caller's figures |
| WorkoutStats.FutureWorkoutCountsOnlyInMonth | fitme-web/app/api/v1/progress/stats/route.ts:33-52 | a future-dated workout on a new day raises the monthly count by one and leaves the streak alone |
| WorkoutStats.WorkoutTodayLowersNothing | fitme-web/app/api/v1/progress/stats/route.ts:33-62 | a workout logged today lowers none of the figures and raises the total by one |
| Schema.RequestTime | fitme-web/app/api/v1/progress/workout-complete/route.ts:12 | a truthy date string is parsed, and a string that does not parse gives no instant; a falsy one gives the current time (the same expression is nutrition/log/route.ts:16 and nutrition/water/route.ts:17) |
| WorkoutCompleteRoute.EpochDateIsKept | fitme-web/app/api/v1/progress/workout-complete/route.ts:12-19 | a non-empty date string that parses to instant 0 is stored as 0, not replaced by the current time |
| WorkoutCompleteRoute.NewWorkout | fitme-web/app/api/v1/progress/workout-complete/route.ts:14-20 | name: first truthy of workoutName, workoutType, "General Workout"; duration: first truthy of duration, durationMinutes, else 0; calories: 0 when falsy; the timestamp is the log time |
| WorkoutCompleteRoute.Post | fitme-web/app/api/v1/progress/workout-complete/route.ts:14-30 | there is no 400; a date string that does not parse gives 500; otherwise success exactly when the caller exists and the row fits, appending exactly the built row; every failure is a 500 that changes nothing; the constraints are kept |
| WorkoutCompleteRoute.ZeroDurationFallsThrough | fitme-web/app/api/v1/progress/workout-complete/route.ts:17 | a duration of 0 falls through to durationMinutes |
| WorkoutCompleteRoute.RecordedWorkoutCounts | fitme-web/app/api/v1/progress/workout-complete/route.ts:14-20 | a recorded workout raises the statistics total by one and its day appears among the dates |
| NutritionLogRoute.Macro | fitme-web/app/api/v1/nutrition/log/route.ts:22-24 | a macro that is missing, null or 0 is stored as 0, any other value as itself |
| NutritionLogRoute.NewFood | fitme-web/app/api/v1/nutrition/log/route.ts:16-26 | the row carries the caller, the name, the calories, the zero-defaulted macros and the log time |
| NutritionLogRoute.Post | fitme-web/app/api/v1/nutrition/log/route.ts:12-36 | 400 exactly when the name is falsy or the calories are undefined; an accepted body whose timestamp string does not parse gives 500; success appends exactly the built row, stamped with the parsed timestamp or now; an error changes nothing; the constraints are kept |
| NutritionLogRoute.ZeroCaloriesAccepted | fitme-web/app/api/v1/nutrition/log/route.ts:12 | calories 0 passes the request validation |
| NutritionLogRoute.NullCaloriesFailInDatabase | fitme-web/app/api/v1/nutrition/log/route.ts:12-36 | null calories pass the request validation and fail with 500 at the NOT NULL column |
| NutritionWaterRoute.WaterAmount | fitme-web/app/api/v1/nutrition/water/route.ts:11 | `amount ?? count`: amount unless it is null or undefined, count otherwise |
| NutritionWaterRoute.Post | fitme-web/app/api/v1/nutrition/water/route.ts:11-33 | 400 exactly when amount is null or absent and count is absent; success, exactly when a present amount, a parseable or falsy timestamp and the caller exist and the amount fits, appends one row of the caller with the selected amount and the parsed timestamp or now; an error changes nothing |
| NutritionWaterRoute.ZeroAmountWins | fitme-web/app/api/v1/nutrition/water/route.ts:11 | an amount of 0 is used even when a count is sent |
| ProgressPhotoRoute.MockUrl | fitme-web/app/api/v1/progress/photo/route.ts:21 | the mock storage base followed by the file name, or "photo.jpg" when it is missing or empty |
| ProgressPhotoRoute.Post | fitme-web/app/api/v1/progress/photo/route.ts:8-42 | JSON bodies supply URL and caption, a falsy URL gives 400, and success comes exactly with a truthy URL and an existing user; form uploads get the mock URL; a body that does not parse as its content type says gives 500; success appends one row of the caller; errors change nothing |
| ProgressPhotoRoute.FormUploadNeverBadRequest | fitme-web/app/api/v1/progress/photo/route.ts:21-26 | a form upload never answers 400 |
| UserGoalsRoute.ApplyTargets | fitme-web/app/api/v1/user/goals/route.ts:21-31 | each of the five targets gets the sent value, NULL for `null`, and stays as it was when undefined; the owner is kept |
| UserGoalsRoute.Get | fitme-web/app/api/v1/user/goals/route.ts:44-58 | the caller's row when there is one, nothing otherwise |
| UserGoalsRoute.Post | fitme-web/app/api/v1/user/goals/route.ts:7-42 | echoes the body; afterwards the caller has a row holding the sent targets; an existing row is overwritten, not duplicated; other users' rows and other tables are unchanged; the constraints are kept |
| UserGoalsRoute.PostIsIdempotent | fitme-web/app/api/v1/user/goals/route.ts:14-31 | posting the same body twice leaves what posting it once left |
| UserGoalsRoute.CurrentWeightIgnored | fitme-web/app/api/v1/user/goals/route.ts:10-20 | currentWeight is accepted and never stored |
| UserGoalsRoute.UpdateKeepsGoalsOrder | fitme-web/app/api/v1/user/goals/route.ts:21-31 | the conflict update rewrites the caller's row in place: the lookup still finds it there, other users' rows stay, the constraints are kept |
| UserGoalsRoute.InsertKeepsGoalsOrder | fitme-web/app/api/v1/user/goals/route.ts:14-20 | the insert of a first row for an existing user makes it the row the lookup finds and keeps the constraints |
| UserProfileRoute.NewEmail | fitme-web/app/api/v1/user/profile/route.ts:16 | the supplied e-mail when truthy, "test@example.com" otherwise |
| UserProfileRoute.Get | fitme-web/app/api/v1/user/profile/route.ts:57-74 | the caller's user row with its profile row, or nothing when there is no such user |
| UserProfileRoute.UpdateUser | fitme-web/app/api/v1/user/profile/route.ts:19-26 | the conflict branch writes name and image as the body gives them (an undefined key keeps the column) and keeps id, e-mail, theme and notifications |
| UserProfileRoute.UpsertUser | fitme-web/app/api/v1/user/profile/route.ts:14-26 | an existing user's row is rewritten in place by the conflict branch; a new user is appended with the supplied or fallback e-mail and the sent name and image, and fails exactly when that e-mail is taken |
| UserProfileRoute.ApplyProfile | fitme-web/app/api/v1/user/profile/route.ts:29-44 | age, height, gender and weight each get the sent value, NULL for `null`, and stay as they were when undefined; owner and activity level are kept |
| UserProfileRoute.UpsertProfile | fitme-web/app/api/v1/user/profile/route.ts:29-44 | succeeds exactly when the age fits; the caller's profile row holds the sent fields; other profiles are unchanged; the constraints are kept |
| UserProfileRoute.Post | fitme-web/app/api/v1/user/profile/route.ts:7-55 | echoes the body; the users table is the users upsert's result, kept even when the profile is then refused; an existing user's e-mail never changes; a new user gets the supplied or fallback e-mail; afterwards the caller has a profile holding the sent fields |
| UserProfileRoute.Put | fitme-web/app/api/v1/user/profile/route.ts:76-78 | PUT answers exactly as POST |
| UserProfileRoute.UpsertUserKeeps | fitme-web/app/api/v1/user/profile/route.ts:14-26 | after the users upsert the caller exists with its old e-mail or the new one, other users are unchanged, the constraints are kept |
| UserProfileRoute.EchoedEmailNotStored | fitme-web/app/api/v1/user/profile/route.ts:46-50 | the response echoes an e-mail that an existing user did not get |
| UserProfileRoute.SecondFallbackEmailFails | fitme-web/app/api/v1/user/profile/route.ts:14-18 | a new user without e-mail fails once another user holds the fallback address |
| UserProfileRoute.UpdateKeepsProfiles | fitme-web/app/api/v1/user/profile/route.ts:35-44 | the conflict update rewrites the caller's profile in place; other users' profiles stay; the constraints are kept |
| UserProfileRoute.InsertKeepsProfiles | fitme-web/app/api/v1/user/profile/route.ts:29-34 | a first profile for an existing user becomes the one the lookup finds; other profiles stay; the constraints are kept |
| UserSettingsRoute.NotificationFlag | fitme-web/app/api/v1/user/settings/route.ts:15 | 1 when the flag is true, 0 otherwise |
| UserSettingsRoute.ApplySettings | fitme-web/app/api/v1/user/settings/route.ts:13-17 | the update keeps id, e-mail, name and image |
| UserSettingsRoute.UpdateWhere | fitme-web/app/api/v1/user/settings/route.ts:13-17 | rows of the caller get the sent theme and the 0/1 flag; every other row is unchanged |
| UserSettingsRoute.Post | fitme-web/app/api/v1/user/settings/route.ts:7-28 | always succeeds, echoing the raw body; creates no user; the constraints are kept |
| UserSettingsRoute.UnknownUserChangesNothing | fitme-web/app/api/v1/user/settings/route.ts:13-17 | an unknown caller leaves the database unchanged |
| UserSettingsRoute.FalsyFlagStoresZero | fitme-web/app/api/v1/user/settings/route.ts:15 | a missing, null or false flag is stored as 0 |
| AuthRegisterRoute.DisplayName | fitme-web/app/api/v1/auth/register/route.ts:27 | the supplied name when truthy, else the part of the e-mail before the first "@" |
| AuthRegisterRoute.Registered | fitme-web/app/api/v1/auth/register/route.ts:25-28 | the new row has the e-mail, the display name and the column defaults |
| AuthRegisterRoute.Post | fitme-web/app/api/v1/auth/register/route.ts:6-39 | 400 "Email is required" for a falsy e-mail and "User already exists" for a taken one; otherwise the new user is appended, unless the generated id is taken (500); errors change nothing; the constraints are kept |
| AuthRegisterRoute.InsertKeepsValid | fitme-web/lib/db/schema.ts:3-12 | a user whose id and e-mail are both new keeps the declared constraints |
| AuthRegisterRoute.RegisteredEmailIsUnique | fitme-web/app/api/v1/auth/register/route.ts:16-28 | after registering, exactly one user has the e-mail |
| AuthLoginRoute.Post | fitme-web/app/api/v1/auth/login/route.ts:6-32 | 400 exactly for a falsy e-mail; 404 exactly when no user has it; success returns a user with that e-mail; the store is not written |
| AuthLoginRoute.LoginFindsTheOwner | fitme-web/app/api/v1/auth/login/route.ts:15-27 | with unique e-mails, login returns the one user with that e-mail |
| AuthLoginRoute.RegisterThenLogin | fitme-web/app/api/v1/auth/login/route.ts:15-27 | a successful registration followed by login with that e-mail returns the registered user |
| AnalyzeMealRoute.StripDataUrl | fitme-web/app/api/v1/ai/analyze-meal/route.ts:34 | the result is the input or a proper suffix of it; input without the prefix is unchanged |
| AnalyzeMealRoute.StripDataUrlOfDataUrl | fitme-web/app/api/v1/ai/analyze-meal/route.ts:34 | a `data:image/<word>;base64,` prefix is removed once, leaving exactly the payload |
| AnalyzeMealRoute.StripDataUrlRemovesOnlyPrefix | fitme-web/app/api/v1/ai/analyze-meal/route.ts:34 | whenever something is removed, it was such a prefix |
| AnalyzeMealRoute.BraceSpan | fitme-web/app/api/v1/ai/analyze-meal/route.ts:51 | the span runs from the first "{" to the last "}" after it, and there is none exactly when no "{" precedes a "}" |
| AnalyzeMealRoute.Post | fitme-web/app/api/v1/ai/analyze-meal/route.ts:4-70 | 400 exactly without an image; without a key, the fixed estimate; otherwise success exactly when the model answers, a span exists and parses; any other failure is 500 |
| AnalyzeMealRoute.OnlyPayloadReachesModel | fitme-web/app/api/v1/ai/analyze-meal/route.ts:34-46 | images with the same stripped payload get the same answer |
| AnalyzeMealRoute.AnswerWithoutObjectFails | fitme-web/app/api/v1/ai/analyze-meal/route.ts:51-56 | a model answer without a brace span yields 500 |
| Theme.Initial | fitme/constants/Colors.tsx:83-86 | the app starts in mode "system" |
| Theme.ParseThemeMode | fitme/constants/Colors.tsx:99 | a stored value is accepted exactly when it is one of the three spellings |
| Theme.ParseThemeModeInvertsModeName | fitme/constants/Colors.tsx:99-109 | reading back the stored spelling gives the mode, and only that spelling does |
| Theme.EffectiveScheme | fitme/constants/Colors.tsx:117-122 | in system mode dark exactly when the OS is dark; otherwise the mode itself |
| Theme.Colors | fitme/constants/Colors.tsx:124-126 | the dark palette exactly when the scheme is dark, the light one otherwise |
| Theme.DarkPaletteExactly | fitme/constants/Colors.tsx:117-126 | dark palette exactly for mode dark, or mode system with a dark OS |
| Theme.SystemChanged | fitme/constants/Colors.tsx:90-92 | an OS change updates the OS scheme and keeps the mode |
| Theme.ExplicitModeIgnoresSystem | fitme/constants/Colors.tsx:117-122 | with an explicit mode, OS changes leave the palette alone |
| Theme.LoadTheme | fitme/constants/Colors.tsx:96-105 | a saved valid spelling is adopted; anything else, or a failed read, leaves the state unchanged |
| Theme.SetTheme | fitme/constants/Colors.tsx:107-114 | the mode changes only after the write succeeded; a failed write changes nothing |
| Theme.SetThemeSurvivesRestart | fitme/constants/Colors.tsx:96-114 | a mode set successfully is the mode the next start loads |
| AuthContext.Load | fitme/context/AuthContext.tsx:26-42 | loading ends either way; on success each flag is set exactly when its stored string is "true", and the id is the stored one |
| AuthContext.Login | fitme/context/AuthContext.tsx:44-55 | on success authenticated with the id, onboarding unchanged; a failed write changes nothing; storage stays in sync |
| AuthContext.Logout | fitme/context/AuthContext.tsx:57-65 | on success signed out with no id, onboarding unchanged; a failed removal changes nothing; storage stays in sync |
| AuthContext.CompleteOnboarding | fitme/context/AuthContext.tsx:67-74 | on success only the onboarding flag becomes true; a failed write changes nothing; storage stays in sync |
| AuthContext.RestartRestoresState | fitme/context/AuthContext.tsx:26-74 | restarting from storage reproduces a synced state |
| AuthContext.LoginAndLogoutPersist | fitme/context/AuthContext.tsx:26-65 | after login and a restart the user is signed in under the id; after logout and a restart nobody is |
| StartRoute.Choose | fitme/app/index.tsx:6-27 | spinner exactly while loading; welcome exactly when not onboarded; login exactly when onboarded and signed out; tabs exactly when onboarded and signed in |
| StartRoute.LoadEndsSpinner | fitme/app/index.tsx:10-16 | after loading, with or without a storage failure, no spinner is shown |
| StartRoute.FirstStartWelcomes | fitme/app/index.tsx:18-20 | a first start with empty storage redirects to the welcome screen |
| StartRoute.LogoutThenLogin | fitme/app/index.tsx:18-26 | an onboarded user who logs out lands on login, and after logging in again on the tabs |
| FitnessGoalsScreen.Without | fitme/app/fitness-goals.tsx:248 | the filter removes every occurrence of the id and keeps the count of every other entry |
| FitnessGoalsScreen.WithoutDistributes | fitme/app/fitness-goals.tsx:248 | the filter works piece by piece, so it keeps the order of the kept entries |
| FitnessGoalsScreen.WithoutAbsent | fitme/app/fitness-goals.tsx:248 | filtering out an id that is not there changes nothing |
| FitnessGoalsScreen.Toggle | fitme/app/fitness-goals.tsx:247-249 | a present id is removed everywhere with the others kept; an absent id is appended at the end |
| FitnessGoalsScreen.ToggleWorkoutType | fitme/app/fitness-goals.tsx:244-251 | the toggle changes only the workout types |
| FitnessGoalsScreen.ToggleTwiceRestores | fitme/app/fitness-goals.tsx:247-249 | toggling an absent id twice restores the list |
| FitnessGoalsScreen.ToggleTwiceMovesToEnd | fitme/app/fitness-goals.tsx:247-249 | toggling a present id twice moves it, once, to the end |
| FitnessGoalsScreen.FormFromBackend | fitme/app/fitness-goals.tsx:191-197 | a calorie target shows as its decimal text (0 as "0"), a NULL one as "2000"; weekly workouts "4"; target weight "" and no workout types |
| FitnessGoalsScreen.LoadGoals | fitme/app/fitness-goals.tsx:184-217 | the server's row wins and is stored; otherwise a stored form; otherwise the form is unchanged |
| FitnessGoalsScreen.SaveGoalsPayload | fitme/app/fitness-goals.tsx:222-229 | the calorie text as parsed (null when unreadable) and the fixed targets 150, 200, 70 and 8 |
| FitnessGoalsScreen.StoredAfterSave | fitme/app/fitness-goals.tsx:231-232 | the form is stored only after the server accepted it |
| FitnessGoalsScreen.LoadThenSaveKeepsCalories | fitme/app/fitness-goals.tsx:191-229 | loading the caller's row and saving it at once stores the same calorie target and the fixed macro targets |
| FitnessGoalsScreen.EmptyCaloriesReloadAsDefault | fitme/app/fitness-goals.tsx:194-224 | an empty calorie field is saved as NULL and reloads as "2000" |
| Text.BeforeFirst | fitme-web/app/api/v1/auth/register/route.ts:27 | `split('@')[0]` is the longest prefix without "@", ending just before the first "@" |
| Text.ParseIntOfIntToString | fitme/app/fitness-goals.tsx:194-224 | `parseInt` reads back exactly the integer `toString` rendered |
| Text.ParseIntOfNegative | fitme/app/fitness-goals.tsx:194-224 | the round trip holds for negative numbers, whose text starts with "-" |
| Text.TrimStart | fitme/app/fitness-goals.tsx:224 | `parseInt` skips leading white space: the rest is a suffix that does not start with white space |
| Text.IndexOf | fitme-web/app/api/v1/ai/analyze-meal/route.ts:51 | the position of the first occurrence, none exactly when the character does not occur |
| Text.LastIndexOf | fitme-web/app/api/v1/ai/analyze-meal/route.ts:51 | the position of the last occurrence, none exactly when the character does not occur |
| Text.WordPrefixLength | fitme-web/app/api/v1/ai/analyze-meal/route.ts:34 | the length of the longest run of `\w` characters at the start (what `\w+` matches there) |

## Left out

- Real clocks and time zones. The stats route truncates to local midnight, keys days by UTC date strings, and compares UTC-parsed dates with a local month start. The model uses integer day numbers with `today` and the day of the month as inputs, so it does not reproduce the offsets these conventions create between each other.
- The unused `daysInMonth` of the stats route computes nothing that reaches the response.
- Floating point:
  - `parseFloat` and the `doublePrecision` weight and height are carried as values, not computed;
  - `Math.round` is modelled by the exact integer formula `(200m+d) div 2d`, which agrees with it for 1 ≤ d ≤ 31.
- `parseInt` is modelled for decimal text. Its `0x` prefix and the radix rules are not modelled, and neither is white space outside ASCII, the no-break space and the byte-order mark.
- JSON handling:
  - `JSON.parse`, the Gemini model call and base64 are parameters;
  - malformed request bodies are not modelled;
  - JSON values of unexpected types (a number where a string is expected) are not modelled; in particular the `date` and `timestamp` fields are modelled as strings only, so a numeric date (milliseconds, which `new Date` also accepts) is not represented;
  - numeric body fields are integers: a fractional JSON number sent to an `integer` column (calories 250.5), which PostgreSQL refuses with a 500, is not represented.
- UserSettingsRoute.NotificationFlag: the flag is a boolean field, so truthy numbers or strings sent as the flag are not modelled.
- AnalyzeMealRoute.Post: the success answer with a parsed result carries no message in the source; the model gives it the empty message.
- ORM internals:
  - the generated row uuids of the log, photo, profile and goals tables;
  - `createdAt`, `updatedAt` and `defaultNow`: timestamps of log rows that the handlers leave to the default are the current instant passed in.
- User ids are abstract numbers. How the caller's id is obtained (a request header with a constant fallback) is not part of this model.
- Failures of the database itself, such as lost connections, are not modelled. Only constraint violations produce the 500 answers.
- Storage on the client: each action is one step that succeeds or fails. The partial writes a failed `Promise.all` can leave behind are not modelled. Neither is a failed storage write after the goals form was already set.
- The `GET` routes' 500 answers on database errors are not modelled; the reads are total here.
- Rendering, styling and navigation side effects (alerts, `router.back`) of the screens.
- The theme settings screen sends `{theme}` while the settings route reads `themeMode`, so the server never receives the chosen theme. That screen is not part of this model; the route is modelled as written.
- The daily nutrition route, which the client calls, is not part of this model.
