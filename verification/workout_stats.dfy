/**
 The workout statistics of `GET /api/v1/progress/stats`: the distinct workout
 days of a user, the current streak found by walking backward from today with
 a one-day grace for today, the number of workout days this month, the
 consistency percentage, the total number of workouts, and the workout days in
 descending order. Days are whole day numbers; `today` and its day of the
 month are inputs.
 */
module WorkoutStats {
  import opened Js
  import opened Schema

  /** A calendar day, numbered consecutively. */
  type Day = int

  const MsPerDay: int := 86_400_000

  /** The streak walk examines at most this many days. */
  const StreakIterations: nat := 365

  /** The calendar day of an instant. */
  function DayOf(t: Instant): Day {
    t / MsPerDay
  }

  /** The workout rows of one user, in table order. */
  function UserWorkouts(rows: seq<WorkoutLog>, id: UserId): (r: seq<WorkoutLog>)
    ensures |r| <= |rows|
    ensures forall w :: w in r <==> w in rows && w.userId == id
  {
    if |rows| == 0 then []
    else (if rows[0].userId == id then [rows[0]] else []) + UserWorkouts(rows[1..], id)
  }

  /** The selection keeps every row of the caller as often as the table holds
      it, and no other row. */
  lemma {:induction false} UserWorkoutsAreTheCallersRows(rows: seq<WorkoutLog>, id: UserId)
    ensures forall w ::
      multiset(UserWorkouts(rows, id))[w] == (if w.userId == id then multiset(rows)[w] else 0)
  {
    if |rows| > 0 {
      UserWorkoutsAreTheCallersRows(rows[1..], id);
      assert rows == [rows[0]] + rows[1..];
    }
  }

  /** The set of days on which at least one of `rows` took place. */
  function WorkoutDays(rows: seq<WorkoutLog>): set<Day> {
    set w | w in rows :: DayOf(w.timestamp)
  }

  // ---------------------------------------------------------------------------
  // The streak walk

  /** The walk as the source loops: iteration `i` looks at `cursor`; a workout
      day is counted and the walk moves one day back; a day without workout
      is skipped only on the first iteration, and ends the walk otherwise. */
  function Walk(days: set<Day>, cursor: Day, i: nat, streak: nat): nat
    requires i <= StreakIterations
    decreases StreakIterations - i
  {
    if i == StreakIterations then streak
    else if cursor in days then Walk(days, cursor - 1, i + 1, streak + 1)
    else if i == 0 then Walk(days, cursor - 1, i + 1, streak)
    else streak
  }

  /** All of the `n` days ending at `last` (inclusive) are workout days. */
  ghost predicate RunEndingAt(days: set<Day>, last: Day, n: nat) {
    forall d :: last - n < d <= last ==> d in days
  }

  /** The reference meaning of the streak: the length of the run of workout
      days ending today when today has a workout, and ending yesterday when
      it has not, capped at the number of days the walk can still look at
      (365, or 364 when the grace step used one iteration). */
  ghost predicate IsStreak(days: set<Day>, today: Day, n: nat) {
    var last := if today in days then today else today - 1;
    var cap := if today in days then StreakIterations else StreakIterations - 1;
    && n <= cap
    && RunEndingAt(days, last, n)
    && (n == cap || last - n !in days)
  }

  /** From iteration `i >= 1` on, the walk adds the run ending at `cursor`,
      capped at the iterations left. */
  lemma {:induction false} WalkCountsRun(days: set<Day>, cursor: Day, i: nat, streak: nat)
    requires 1 <= i <= StreakIterations
    ensures var r := Walk(days, cursor, i, streak);
      && streak <= r
      && r - streak <= StreakIterations - i
      && RunEndingAt(days, cursor, r - streak)
      && (r - streak == StreakIterations - i || cursor - (r - streak) !in days)
    decreases StreakIterations - i
  {
    if i < StreakIterations && cursor in days {
      var r := Walk(days, cursor - 1, i + 1, streak + 1);
      WalkCountsRun(days, cursor - 1, i + 1, streak + 1);
    }
  }

  /** The walk started today with the first iteration's grace step yields a
      streak in the reference sense. */
  lemma WalkFromTodayIsStreak(days: set<Day>, today: Day)
    ensures IsStreak(days, today, Walk(days, today, 0, 0))
  {
    var start := if today in days then 1 else 0;
    WalkCountsRun(days, today - 1, 1, start);
  }

  /** The current streak of `GET /progress/stats`. */
  function CurrentStreak(days: set<Day>, today: Day): (r: nat)
    ensures IsStreak(days, today, r)
    ensures r <= 365
    ensures today !in days ==> r <= 364
  {
    WalkFromTodayIsStreak(days, today);
    Walk(days, today, 0, 0)
  }

  /** The reference determines the streak: no other length satisfies it. */
  lemma {:induction false} StreakIsUnique(days: set<Day>, today: Day, n: nat)
    requires IsStreak(days, today, n)
    ensures n == CurrentStreak(days, today)
  {
    var r := CurrentStreak(days, today);
    var last := if today in days then today else today - 1;
    if n < r {
      assert false;
    } else if r < n {
      assert false;
    }
  }

  /** Workouts on yesterday and three days ago, none today nor two days ago:
      the walk skips today, counts yesterday and stops at the gap. */
  lemma GapEndsStreak(today: Day)
    ensures CurrentStreak({today - 1, today - 3}, today) == 1
  {
    var days := {today - 1, today - 3};
    assert RunEndingAt(days, today - 1, 1);
    assert today - 2 !in days;
    StreakIsUnique(days, today, 1);
  }

  /** The six days before today, none today: streak 6. */
  lemma SixDaysBeforeToday(today: Day)
    ensures CurrentStreak({today - 6, today - 5, today - 4, today - 3, today - 2, today - 1}, today) == 6
  {
    var days := {today - 6, today - 5, today - 4, today - 3, today - 2, today - 1};
    assert RunEndingAt(days, today - 1, 6);
    StreakIsUnique(days, today, 6);
  }

  /** The same six days plus today: streak 7. */
  lemma SevenDaysEndingToday(today: Day)
    ensures CurrentStreak({today - 6, today - 5, today - 4, today - 3, today - 2, today - 1, today}, today) == 7
  {
    var days := {today - 6, today - 5, today - 4, today - 3, today - 2, today - 1, today};
    assert RunEndingAt(days, today, 7);
    StreakIsUnique(days, today, 7);
  }

  /** A workout on every one of the last 365 days (today included) reaches
      the cap, however long the true run is. */
  lemma StreakReachesCap(days: set<Day>, today: Day)
    requires forall d :: today - 365 < d <= today ==> d in days
    ensures CurrentStreak(days, today) == 365
  {
    var r := CurrentStreak(days, today);
    assert today in days;
    if r < 365 {
      assert false;
    }
  }

  /** Workout days after today never affect the streak. */
  lemma FutureDaysIgnored(days: set<Day>, today: Day)
    ensures CurrentStreak(days, today) == CurrentStreak((set d | d in days && d <= today), today)
  {
    var past := set d | d in days && d <= today;
    var r := CurrentStreak(days, today);
    assert today in days <==> today in past;
    StreakIsUnique(past, today, r);
  }

  /** Logging a workout today never lowers the streak. */
  lemma WorkoutTodayKeepsStreak(days: set<Day>, today: Day)
    ensures CurrentStreak(days, today) <= CurrentStreak(days + {today}, today)
  {
    var r := CurrentStreak(days, today);
    var r' := CurrentStreak(days + {today}, today);
    if today !in days && r' <= r {
      assert false;
    }
  }

  // ---------------------------------------------------------------------------
  // The list of workout dates

  ghost predicate StrictlyDescending(s: seq<Day>) {
    forall i, j :: 0 <= i < j < |s| ==> s[i] > s[j]
  }

  /** Adds `d` to a strictly descending list of distinct days. */
  function InsertDescending(xs: seq<Day>, d: Day): (r: seq<Day>)
    requires StrictlyDescending(xs)
    ensures StrictlyDescending(r)
    ensures forall x :: x in r <==> x in xs || x == d
  {
    if |xs| == 0 then [d]
    else if d == xs[0] then xs
    else if d > xs[0] then [d] + xs
    else
      HeadIsLargest(xs);
      var rest := InsertDescending(xs[1..], d);
      ConsDescending(xs[0], rest);
      [xs[0]] + rest
  }

  lemma ConsDescending(h: Day, t: seq<Day>)
    requires StrictlyDescending(t)
    requires forall x :: x in t ==> x < h
    ensures StrictlyDescending([h] + t)
  {
    forall i, j | 0 <= i < j < |[h] + t|
      ensures ([h] + t)[i] > ([h] + t)[j]
    {
      assert t[j - 1] in t;
    }
  }

  /** The first entry of a strictly descending list is in it and exceeds
      every later entry. */
  lemma HeadIsLargest(xs: seq<Day>)
    requires StrictlyDescending(xs) && |xs| > 0
    ensures xs[0] in xs
    ensures forall x :: x in xs[1..] ==> x < xs[0]
    ensures forall x :: x in xs ==> x <= xs[0]
  {
  }

  /** The distinct workout days of `rows`, latest first: the source collects
      the day keys in a set, sorts them and reverses the result. */
  function DescendingDates(rows: seq<WorkoutLog>): (r: seq<Day>)
    ensures StrictlyDescending(r)
    ensures forall x :: x in r <==> x in WorkoutDays(rows)
  {
    if |rows| == 0 then []
    else
      var init := rows[..|rows| - 1];
      var last := rows[|rows| - 1];
      WorkoutDaysOfAppend(init, last);
      assert rows == init + [last];
      InsertDescending(DescendingDates(init), DayOf(last.timestamp))
  }

  lemma WorkoutDaysOfAppend(rows: seq<WorkoutLog>, w: WorkoutLog)
    ensures WorkoutDays(rows + [w]) == WorkoutDays(rows) + {DayOf(w.timestamp)}
  {
    forall d | d in WorkoutDays(rows + [w])
      ensures d in WorkoutDays(rows) + {DayOf(w.timestamp)}
    {
      var v :| v in rows + [w] && DayOf(v.timestamp) == d;
      if v != w {
        assert v in rows;
      }
    }
    forall d | d in WorkoutDays(rows)
      ensures d in WorkoutDays(rows + [w])
    {
      var v :| v in rows && DayOf(v.timestamp) == d;
      assert v in rows + [w];
    }
    assert w in rows + [w];
  }

  /** A set of days has exactly one strictly descending listing. */
  lemma {:induction false} DescendingListingIsUnique(a: seq<Day>, b: seq<Day>)
    requires StrictlyDescending(a) && StrictlyDescending(b)
    requires forall x :: x in a <==> x in b
    ensures a == b
    decreases |a|
  {
    if |a| == 0 {
      if |b| > 0 {
        HeadIsLargest(b);
        assert false;
      }
    } else {
      HeadIsLargest(a);
      if |b| == 0 {
        assert false;
      }
      HeadIsLargest(b);
      if a[0] != b[0] {
        assert false;
      }
      forall x
        ensures x in a[1..] <==> x in b[1..]
      {
        if x in a[1..] {
          var i :| 1 <= i < |a| && a[i] == x;
          assert x in b && x != b[0];
        }
        if x in b[1..] {
          var i :| 1 <= i < |b| && b[i] == x;
          assert x in a && x != a[0];
        }
      }
      DescendingListingIsUnique(a[1..], b[1..]);
    }
  }

  // ---------------------------------------------------------------------------
  // Monthly count and consistency

  /** The number of entries of `dates` on or after `from`. */
  function CountFrom(dates: seq<Day>, from: Day): nat {
    if |dates| == 0 then 0
    else (if dates[0] >= from then 1 else 0) + CountFrom(dates[1..], from)
  }

  /** On a list without repetitions the count is the number of distinct days
      on or after `from`. */
  lemma {:induction false} CountFromIsCardinality(dates: seq<Day>, from: Day)
    requires StrictlyDescending(dates)
    ensures CountFrom(dates, from) == |set d | d in dates && d >= from|
    decreases |dates|
  {
    if |dates| > 0 {
      var rest := dates[1..];
      CountFromIsCardinality(rest, from);
      var tail := set d | d in rest && d >= from;
      var all := set d | d in dates && d >= from;
      assert dates[0] !in rest;
      if dates[0] >= from {
        assert all == tail + {dates[0]};
      } else {
        assert all == tail;
      }
    }
  }

  /** `min(Math.round(monthly / daysPassed * 100), 100)` in exact integer
      arithmetic: `Math.round` rounds halves up, so the rounded value is
      `floor((200 * monthly + daysPassed) / (2 * daysPassed))`. */
  function ConsistencyPercentage(monthly: nat, daysPassed: nat): (r: nat)
    requires 1 <= daysPassed <= 31
    ensures r <= 100
    ensures r < 100 ==> r * (2 * daysPassed) <= 200 * monthly + daysPassed < (r + 1) * (2 * daysPassed)
    ensures r == 100 <==> 200 * monthly >= 199 * daysPassed
    ensures monthly == 0 ==> r == 0
  {
    var rounded := (200 * monthly + daysPassed) / (2 * daysPassed);
    RoundedHalfUp(monthly, daysPassed, rounded);
    if rounded < 100 then rounded else 100
  }

  /** The rounded quotient, stated without division. */
  lemma RoundedHalfUp(m: nat, d: nat, q: nat)
    requires 1 <= d <= 31 && q == (200 * m + d) / (2 * d)
    ensures q * (2 * d) <= 200 * m + d < (q + 1) * (2 * d)
    ensures q >= 100 <==> 200 * m >= 199 * d
    ensures m == 0 ==> q == 0
  {
    var y := 2 * d;
    DivBounds(200 * m + d, y);
    if m == 0 && q > 0 {
      AtLeastOnce(q, y);
      assert false;
    }
  }

  lemma AtLeastOnce(q: nat, y: nat)
    requires q >= 1
    ensures q * y >= y
  {
    assert q * y == (q - 1) * y + y;
  }

  /** The quotient of Euclidean division brackets the dividend. */
  lemma DivBounds(x: nat, y: nat)
    requires y > 0
    ensures (x / y) * y <= x < (x / y + 1) * y
    ensures x / y >= 100 <==> x >= 100 * y
  {
    var q := x / y;
    assert q * y + x % y == x;
    if q >= 100 {
      assert q * y >= 100 * y;
    } else {
      assert (q + 1) * y <= 100 * y;
    }
  }

  /** More workout days this month never lower the percentage. */
  lemma ConsistencyIsMonotonic(m: nat, m': nat, daysPassed: nat)
    requires 1 <= daysPassed <= 31
    requires m <= m'
    ensures ConsistencyPercentage(m, daysPassed) <= ConsistencyPercentage(m', daysPassed)
  {
    DivIsMonotonic(200 * m + daysPassed, 200 * m' + daysPassed, 2 * daysPassed);
  }

  lemma DivIsMonotonic(x: nat, x': nat, y: nat)
    requires 0 < y && x <= x'
    ensures x / y <= x' / y
  {
    var q, q' := x / y, x' / y;
    assert q * y <= x;
    assert x' < (q' + 1) * y;
    if q' < q {
      assert false;
    }
  }

  // ---------------------------------------------------------------------------
  // The statistics record

  datatype Stats = Stats(
    currentStreak: nat,
    monthlyWorkouts: nat,
    consistencyPercentage: nat,
    totalWorkouts: nat,
    workoutDates: seq<Day>)

  /** The distinct workout days of user `id`. */
  function UserDays(db: Db, id: UserId): set<Day> {
    WorkoutDays(UserWorkouts(db.workoutLogs, id))
  }

  /** The first day of the month that contains `today`. */
  function MonthStart(today: Day, dayOfMonth: nat): Day {
    today - (dayOfMonth - 1)
  }

  /** `GET /api/v1/progress/stats` for user `id`, given today's day number and
      its day of the month. */
  function GetStats(db: Db, id: UserId, today: Day, dayOfMonth: nat): (s: Stats)
    requires 1 <= dayOfMonth <= 31
    ensures s.totalWorkouts == |UserWorkouts(db.workoutLogs, id)|
    ensures StrictlyDescending(s.workoutDates)
    ensures forall d :: d in s.workoutDates <==> d in UserDays(db, id)
    ensures IsStreak(UserDays(db, id), today, s.currentStreak)
    ensures s.monthlyWorkouts == |set d | d in UserDays(db, id) && d >= MonthStart(today, dayOfMonth)|
    ensures s.consistencyPercentage == ConsistencyPercentage(s.monthlyWorkouts, dayOfMonth)
    ensures s.consistencyPercentage <= 100
    ensures s.monthlyWorkouts <= |s.workoutDates|
  {
    var mine := UserWorkouts(db.workoutLogs, id);
    var days := WorkoutDays(mine);
    var dates := DescendingDates(mine);
    var monthly := CountFrom(dates, MonthStart(today, dayOfMonth));
    CountFromIsCardinality(dates, MonthStart(today, dayOfMonth));
    CountFromIsBounded(dates, MonthStart(today, dayOfMonth));
    assert (set d | d in dates && d >= MonthStart(today, dayOfMonth))
        == (set d | d in days && d >= MonthStart(today, dayOfMonth));
    Stats(
      CurrentStreak(days, today),
      monthly,
      ConsistencyPercentage(monthly, dayOfMonth),
      |mine|,
      dates)
  }

  lemma CountFromIsBounded(dates: seq<Day>, from: Day)
    ensures CountFrom(dates, from) <= |dates|
  {
  }

  lemma FirstIsMember<T>(s: seq<T>)
    requires |s| > 0
    ensures s[0] in s
  {
  }

  /** A user without workouts gets zero everywhere and no dates. */
  lemma NoWorkoutsGiveZeroStats(db: Db, id: UserId, today: Day, dayOfMonth: nat)
    requires 1 <= dayOfMonth <= 31
    requires forall k :: 0 <= k < |db.workoutLogs| ==> db.workoutLogs[k].userId != id
    ensures GetStats(db, id, today, dayOfMonth) == Stats(0, 0, 0, 0, [])
  {
    var mine := UserWorkouts(db.workoutLogs, id);
    if |mine| > 0 {
      FirstIsMember(mine);
      assert false;
    }
    var s := GetStats(db, id, today, dayOfMonth);
    assert UserDays(db, id) == {};
    if |s.workoutDates| > 0 {
      assert false;
    }
    assert (set d | d in UserDays(db, id) && d >= MonthStart(today, dayOfMonth)) == {};
  }

  /** Everything but the total depends only on the set of workout days. */
  lemma {:induction false} StatsDependOnlyOnDays(db: Db, db': Db, id: UserId, today: Day, dayOfMonth: nat)
    requires 1 <= dayOfMonth <= 31
    requires UserDays(db, id) == UserDays(db', id)
    ensures var s, s' := GetStats(db, id, today, dayOfMonth), GetStats(db', id, today, dayOfMonth);
      && s'.currentStreak == s.currentStreak
      && s'.monthlyWorkouts == s.monthlyWorkouts
      && s'.consistencyPercentage == s.consistencyPercentage
      && s'.workoutDates == s.workoutDates
  {
    var s, s' := GetStats(db, id, today, dayOfMonth), GetStats(db', id, today, dayOfMonth);
    DescendingListingIsUnique(s.workoutDates, s'.workoutDates);
  }

  /** The database after inserting the workout row `w`. */
  function WithWorkout(db: Db, w: WorkoutLog): Db {
    db.(workoutLogs := db.workoutLogs + [w])
  }

  lemma {:induction false} UserWorkoutsOfAppend(rows: seq<WorkoutLog>, w: WorkoutLog, id: UserId)
    ensures UserWorkouts(rows + [w], id)
         == UserWorkouts(rows, id) + (if w.userId == id then [w] else [])
    decreases |rows|
  {
    if |rows| > 0 {
      assert (rows + [w])[1..] == rows[1..] + [w];
      UserWorkoutsOfAppend(rows[1..], w, id);
    }
  }

  /** A new workout row of the user adds its day to the user's workout days. */
  lemma UserDaysWithWorkout(db: Db, w: WorkoutLog, id: UserId)
    ensures UserDays(WithWorkout(db, w), id)
         == UserDays(db, id) + (if w.userId == id then {DayOf(w.timestamp)} else {})
    ensures |UserWorkouts(WithWorkout(db, w).workoutLogs, id)|
         == |UserWorkouts(db.workoutLogs, id)| + (if w.userId == id then 1 else 0)
  {
    UserWorkoutsOfAppend(db.workoutLogs, w, id);
    if w.userId == id {
      WorkoutDaysOfAppend(UserWorkouts(db.workoutLogs, id), w);
    } else {
      assert UserWorkouts(db.workoutLogs, id) + [] == UserWorkouts(db.workoutLogs, id);
    }
  }

  /** Another workout on a day that already has one changes only the total. */
  lemma RepeatedDayCountsOnce(db: Db, w: WorkoutLog, today: Day, dayOfMonth: nat)
    requires 1 <= dayOfMonth <= 31
    requires DayOf(w.timestamp) in UserDays(db, w.userId)
    ensures var s := GetStats(db, w.userId, today, dayOfMonth);
      GetStats(WithWorkout(db, w), w.userId, today, dayOfMonth)
        == s.(totalWorkouts := s.totalWorkouts + 1)
  {
    UserDaysWithWorkout(db, w, w.userId);
    StatsDependOnlyOnDays(db, WithWorkout(db, w), w.userId, today, dayOfMonth);
  }

  /** A workout of another user changes nothing. */
  lemma OtherUsersWorkoutIgnored(db: Db, w: WorkoutLog, id: UserId, today: Day, dayOfMonth: nat)
    requires 1 <= dayOfMonth <= 31
    requires w.userId != id
    ensures GetStats(WithWorkout(db, w), id, today, dayOfMonth) == GetStats(db, id, today, dayOfMonth)
  {
    UserDaysWithWorkout(db, w, id);
    StatsDependOnlyOnDays(db, WithWorkout(db, w), id, today, dayOfMonth);
  }

  /** A workout dated after today on a new day counts in the month but leaves
      the streak alone. */
  lemma FutureWorkoutCountsOnlyInMonth(db: Db, w: WorkoutLog, today: Day, dayOfMonth: nat)
    requires 1 <= dayOfMonth <= 31
    requires DayOf(w.timestamp) > today
    requires DayOf(w.timestamp) !in UserDays(db, w.userId)
    ensures var s := GetStats(db, w.userId, today, dayOfMonth);
      var s' := GetStats(WithWorkout(db, w), w.userId, today, dayOfMonth);
      && s'.currentStreak == s.currentStreak
      && s'.monthlyWorkouts == s.monthlyWorkouts + 1
  {
    var id, d := w.userId, DayOf(w.timestamp);
    var days := UserDays(db, id);
    UserDaysWithWorkout(db, w, id);
    FutureDayLeavesStreak(days, d, today);
    NewDayCountsOnce(days, d, MonthStart(today, dayOfMonth));
  }

  lemma FutureDayLeavesStreak(days: set<Day>, d: Day, today: Day)
    requires d > today
    ensures CurrentStreak(days + {d}, today) == CurrentStreak(days, today)
  {
    FutureDaysIgnored(days, today);
    FutureDaysIgnored(days + {d}, today);
    assert (set x | x in days && x <= today) == (set x | x in days + {d} && x <= today);
  }

  lemma NewDayCountsOnce(days: set<Day>, d: Day, from: Day)
    requires d !in days && d >= from
    ensures |set x | x in days + {d} && x >= from| == |set x | x in days && x >= from| + 1
  {
    assert (set x | x in days + {d} && x >= from) == (set x | x in days && x >= from) + {d};
  }

  /** Logging a workout today lowers none of the figures and adds one to the
      total. */
  lemma WorkoutTodayLowersNothing(db: Db, w: WorkoutLog, today: Day, dayOfMonth: nat)
    requires 1 <= dayOfMonth <= 31
    requires DayOf(w.timestamp) == today
    ensures var s := GetStats(db, w.userId, today, dayOfMonth);
      var s' := GetStats(WithWorkout(db, w), w.userId, today, dayOfMonth);
      && s.currentStreak <= s'.currentStreak
      && s.monthlyWorkouts <= s'.monthlyWorkouts
      && s.consistencyPercentage <= s'.consistencyPercentage
      && s'.totalWorkouts == s.totalWorkouts + 1
      && |s.workoutDates| <= |s'.workoutDates|
  {
    var id := w.userId;
    var days := UserDays(db, id);
    UserDaysWithWorkout(db, w, id);
    WorkoutTodayKeepsStreak(days, today);
    var from := MonthStart(today, dayOfMonth);
    var before := set x | x in days && x >= from;
    var after := set x | x in days + {today} && x >= from;
    assert before <= after;
    SubsetIsNoLarger(before, after);
    var s := GetStats(db, id, today, dayOfMonth);
    var s' := GetStats(WithWorkout(db, w), id, today, dayOfMonth);
    ConsistencyIsMonotonic(s.monthlyWorkouts, s'.monthlyWorkouts, dayOfMonth);
    ListingLength(s.workoutDates, s'.workoutDates);
  }

  lemma SubsetIsNoLarger(a: set<Day>, b: set<Day>)
    requires a <= b
    ensures |a| <= |b|
  {
    assert b == a + (b - a);
  }

  /** A listing whose entries all appear in a longer-or-equal listing without
      repetitions is no longer. */
  lemma ListingLength(a: seq<Day>, b: seq<Day>)
    requires StrictlyDescending(a) && StrictlyDescending(b)
    requires forall x :: x in a ==> x in b
    ensures |a| <= |b|
  {
    var sa := set x | x in a;
    var sb := set x | x in b;
    DistinctListingSize(a);
    DistinctListingSize(b);
    SubsetIsNoLarger(sa, sb);
  }

  lemma {:induction false} DistinctListingSize(a: seq<Day>)
    requires StrictlyDescending(a)
    ensures |set x | x in a| == |a|
    decreases |a|
  {
    if |a| > 0 {
      DistinctListingSize(a[1..]);
      HeadIsLargest(a);
      assert (set x | x in a) == (set x | x in a[1..]) + {a[0]};
    }
  }
}
