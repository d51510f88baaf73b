/**
 * Workout templates, workout plans and the days of a plan
 * (workouts/models.py): the choice fields, the `(plan, day_number)`
 * uniqueness constraint, the listing order of plan days, the display
 * strings, and the seven-day plan layout the seed commands write.
 */
module Workouts {
  import opened Common
  import opened Text

  /** How demanding a workout (or a whole plan) is; `Beginner` unless told otherwise. */
  datatype Difficulty = Beginner | Intermediate | Advanced

  const DefaultDifficulty: Difficulty := Beginner

  function DifficultyName(d: Difficulty): string
  {
    match d
    case Beginner => "beginner"
    case Intermediate => "intermediate"
    case Advanced => "advanced"
  }

  function ParseDifficulty(s: string): (r: Option<Difficulty>)
    ensures r.Some? ==> DifficultyName(r.value) == s
  {
    if s == "beginner" then Some(Beginner)
    else if s == "intermediate" then Some(Intermediate)
    else if s == "advanced" then Some(Advanced)
    else None
  }

  /** Every difficulty is read back from its stored value, exactly the three listed strings are accepted, and the default is "beginner". */
  lemma DifficultyRoundTrip(d: Difficulty, s: string)
    ensures ParseDifficulty(DifficultyName(d)) == Some(d)
    ensures ParseDifficulty(s).Some? <==> s in ["beginner", "intermediate", "advanced"]
    ensures DifficultyName(DefaultDifficulty) == "beginner"
  {
  }

  /** The six kinds of workout template. */
  datatype Category = Cardio | Strength | Flexibility | Hiit | Sports | Mixed

  function CategoryName(c: Category): string
  {
    match c
    case Cardio => "cardio"
    case Strength => "strength"
    case Flexibility => "flexibility"
    case Hiit => "hiit"
    case Sports => "sports"
    case Mixed => "mixed"
  }

  function ParseCategory(s: string): (r: Option<Category>)
    ensures r.Some? ==> CategoryName(r.value) == s
  {
    if s == "cardio" then Some(Cardio)
    else if s == "strength" then Some(Strength)
    else if s == "flexibility" then Some(Flexibility)
    else if s == "hiit" then Some(Hiit)
    else if s == "sports" then Some(Sports)
    else if s == "mixed" then Some(Mixed)
    else None
  }

  const CategoryChoices: seq<string> := ["cardio", "strength", "flexibility", "hiit", "sports", "mixed"]

  /** Every category is read back from its stored value, and exactly the six distinct listed strings are accepted. */
  lemma CategoryRoundTrip(c: Category, s: string)
    ensures ParseCategory(CategoryName(c)) == Some(c)
    ensures ParseCategory(s).Some? <==> s in CategoryChoices
    ensures |CategoryChoices| == 6 && Distinct(CategoryChoices)
  {
  }

  /** A workout template; its display string is its title. */
  datatype Workout = Workout(id: nat, title: string, category: Category, difficulty: Difficulty,
                             estimatedDurationMinutes: int, createdAt: int)

  /** A user's plan of `durationDays` days. */
  datatype WorkoutPlan = WorkoutPlan(id: nat, user: UserId, name: string, description: string, durationDays: int,
                                     difficultyLevel: Difficulty, isActive: bool, createdAt: int)

  const MaxPlanNameLength := 200

  /** The default listing of plans: most recently created first. */
  function ListPlans(plans: seq<WorkoutPlan>): (r: seq<WorkoutPlan>)
    ensures multiset(r) == multiset(plans)
    ensures forall i, j :: 0 <= i < j < |r| ==> r[i].createdAt >= r[j].createdAt
  {
    var r := SortBy(plans, (p: WorkoutPlan) => -p.createdAt);
    assert forall i, j :: 0 <= i < j < |r| ==> -r[i].createdAt <= -r[j].createdAt;
    r
  }

  /** One day of a plan: the workout of that day, or a rest day. */
  datatype PlanDay = PlanDay(plan: nat, workout: nat, dayNumber: int, isRestDay: bool, notes: string)

  /** A plan day as created with only plan, workout and day number given: not a rest day, no notes. */
  function NewPlanDay(plan: nat, workout: nat, dayNumber: int): (d: PlanDay)
    ensures d.plan == plan && d.workout == workout && d.dayNumber == dayNumber
    ensures !d.isRestDay && d.notes == ""
  {
    PlanDay(plan, workout, dayNumber, false, "")
  }

  /** The display string of a plan: the owner's username, "'s ", then the plan name. */
  function PlanLabel(username: string, name: string): (s: string)
    ensures |s| == |username| + 3 + |name|
    ensures s[..|username|] == username && s[|username|..|username| + 3] == "'s "
    ensures s[|s| - |name|..] == name
  {
    username + "'s " + name
  }

  const DaySeparator: string := " - Day "

  /** The display string of a plan day: the plan name, " - Day ", then the day number. */
  function DayLabel(planName: string, dayNumber: int): (s: string)
    ensures |s| == |planName| + |DaySeparator| + |IntToString(dayNumber)|
    ensures s[..|planName|] == planName
    ensures s[|planName|..|planName| + |DaySeparator|] == DaySeparator
    ensures s[|planName| + |DaySeparator|..] == IntToString(dayNumber)
  {
    planName + DaySeparator + IntToString(dayNumber)
  }

  /** Two days of the same plan have the same display string only if they have the same number. */
  lemma DayLabelInjective(planName: string, a: int, b: int)
    requires DayLabel(planName, a) == DayLabel(planName, b)
    ensures a == b
  {
    if a != b {
      IntToStringInjective(a, b);
    }
  }

  /**
   * The display strings the model tests expect: a plan day numbered 1 of
   * "Weekly Plan", created with defaults, is not a rest day and shows both
   * "Weekly Plan" and "Day 1"; the plan itself shows its name and its
   * owner's username.
   */
  lemma DisplayStringExamples(plan: nat, workout: nat)
    ensures !NewPlanDay(plan, workout, 1).isRestDay
    ensures DayLabel("Weekly Plan", NewPlanDay(plan, workout, 1).dayNumber) == "Weekly Plan - Day 1"
    ensures PlanLabel("testuser", "Weekly Plan") == "testuser's Weekly Plan"
  {
    assert IntToString(1) == "1";
    assert PlanLabel("testuser", "Weekly Plan") == "testuser" + "'s " + "Weekly Plan";
  }

  /** The `(workout_plan, day_number)` uniqueness constraint. */
  predicate UniqueDayNumbers(days: seq<PlanDay>)
  {
    forall i, j :: 0 <= i < j < |days| && days[i].plan == days[j].plan ==> days[i].dayNumber != days[j].dayNumber
  }

  /** Whether plan `plan` already has a day numbered `dayNumber`. */
  predicate DayTaken(days: seq<PlanDay>, plan: nat, dayNumber: int)
  {
    exists i :: 0 <= i < |days| && days[i].plan == plan && days[i].dayNumber == dayNumber
  }

  datatype DayError = DayNumberTaken

  /** Storing a plan day: refused when its plan already has a day with that number, appended otherwise. */
  function AddPlanDay(days: seq<PlanDay>, d: PlanDay): (r: Result<seq<PlanDay>, DayError>)
    ensures r.Failure? <==> DayTaken(days, d.plan, d.dayNumber)
    ensures r.Success? ==> r.value == days + [d]
    ensures UniqueDayNumbers(days) && r.Success? ==> UniqueDayNumbers(r.value)
  {
    if DayTaken(days, d.plan, d.dayNumber) then Failure(DayNumberTaken)
    else
      var r := days + [d];
      assert UniqueDayNumbers(days) ==> UniqueDayNumbers(r) by {
        if UniqueDayNumbers(days) {
          forall i, j | 0 <= i < j < |r| && r[i].plan == r[j].plan ensures r[i].dayNumber != r[j].dayNumber {
            if j == |days| {
              assert r[i] == days[i];
            } else {
              assert r[i] == days[i] && r[j] == days[j];
            }
          }
        }
      }
      Success(r)
  }

  /** The day numbers as an ordering key. */
  function DayNumberKey(d: PlanDay): int
  {
    d.dayNumber
  }

  /** The default listing of plan days: ascending day number. */
  function ListPlanDays(days: seq<PlanDay>): (r: seq<PlanDay>)
    ensures multiset(r) == multiset(days)
    ensures forall i, j :: 0 <= i < j < |r| ==> r[i].dayNumber <= r[j].dayNumber
  {
    var r := SortBy(days, DayNumberKey);
    assert SortedBy(r, DayNumberKey);
    r
  }

  /** A plan lasts a week. */
  const PlanLength: nat := 7

  /** At most this many days of a plan get a workout. */
  const MaxWorkoutDays: nat := 5

  /** The number of workout days of a plan laid out over `n` workout templates: `min(5, n)`. */
  function WorkoutDayCount(n: nat): (k: nat)
    ensures k <= n && k <= MaxWorkoutDays
    ensures k == n || k == MaxWorkoutDays
  {
    if n < MaxWorkoutDays then n else MaxWorkoutDays
  }

  /** `picks` is a random sample of `min(5, n)` distinct positions among `n` templates. */
  predicate IsSample(picks: seq<nat>, n: nat)
  {
    && |picks| == WorkoutDayCount(n)
    && Distinct(picks)
    && forall i :: 0 <= i < |picks| ==> picks[i] < n
  }

  /** The primary keys of the stored workout templates are distinct. */
  predicate DistinctWorkoutIds(pool: seq<Workout>)
  {
    forall i, j :: 0 <= i < j < |pool| ==> pool[i].id != pool[j].id
  }

  /**
   * The layout of a week-long plan over the sampled templates: day `i + 1`
   * is the i-th sampled template for the first `|picks|` days, and a rest
   * day booked against the first template for the remaining days up to 7.
   */
  predicate IsWeekLayout(days: seq<PlanDay>, plan: nat, pool: seq<Workout>, picks: seq<nat>)
    requires IsSample(picks, |pool|) && |pool| > 0
  {
    && |days| == PlanLength
    && forall i :: 0 <= i < |days| ==>
         && days[i].plan == plan
         && days[i].dayNumber == i + 1
         && days[i].notes == ""
         && (days[i].isRestDay <==> i >= |picks|)
         && days[i].workout == (if i < |picks| then pool[picks[i]].id else pool[0].id)
  }

  /** Why laying out a plan can fail: rest days name `workouts[0]`, which does not exist when there are no templates. */
  datatype LayoutError = NoWorkoutForRestDay

  /**
   * Writes the days of plan `plan`: one workout day per sampled template,
   * numbered from 1, then rest days up to day 7. With no templates at all the
   * first rest day fails, as indexing the empty template list does.
   */
  method LayOutWeek(plan: nat, pool: seq<Workout>, picks: seq<nat>) returns (r: Result<seq<PlanDay>, LayoutError>)
    requires IsSample(picks, |pool|)
    ensures r.Failure? <==> |pool| == 0
    ensures r.Success? ==> |pool| > 0 && IsWeekLayout(r.value, plan, pool, picks)
  {
    var days: seq<PlanDay> := [];
    var day := 0;
    while day < |picks|
      invariant 0 <= day <= |picks|
      invariant |days| == day
      invariant forall i :: 0 <= i < day ==> days[i] == PlanDay(plan, pool[picks[i]].id, i + 1, false, "")
    {
      days := days + [PlanDay(plan, pool[picks[day]].id, day + 1, false, "")];
      day := day + 1;
    }
    while day < PlanLength
      invariant |picks| <= day <= PlanLength
      invariant |days| == day
      invariant forall i :: 0 <= i < |picks| ==> days[i] == PlanDay(plan, pool[picks[i]].id, i + 1, false, "")
      invariant |pool| == 0 ==> day == 0
      invariant |pool| > 0 ==> forall i :: |picks| <= i < day ==> days[i] == PlanDay(plan, pool[0].id, i + 1, true, "")
    {
      if |pool| == 0 {
        return Failure(NoWorkoutForRestDay);
      }
      days := days + [PlanDay(plan, pool[0].id, day + 1, true, "")];
      day := day + 1;
    }
    return Success(days);
  }

  /** The days of a laid-out week carry the numbers 1..7, each once, and are already in listing order. */
  lemma WeekLayoutNumbering(days: seq<PlanDay>, plan: nat, pool: seq<Workout>, picks: seq<nat>)
    requires IsSample(picks, |pool|) && |pool| > 0
    requires IsWeekLayout(days, plan, pool, picks)
    ensures UniqueDayNumbers(days)
    ensures forall i :: 0 <= i < |days| ==> 1 <= days[i].dayNumber <= PlanLength
    ensures forall n :: 1 <= n <= PlanLength ==> DayTaken(days, plan, n)
    ensures ListPlanDays(days) == days
  {
    forall n | 1 <= n <= PlanLength ensures DayTaken(days, plan, n) {
      assert days[n - 1].dayNumber == n;
    }
    assert SortedBy(days, DayNumberKey);
    SortBySortedIsIdentity(days, DayNumberKey);
  }

  /**
   * The first `min(5, n)` days of a laid-out week are workout days with
   * pairwise distinct templates, and the rest, at least the last two, are
   * rest days.
   */
  lemma WeekLayoutWorkouts(days: seq<PlanDay>, plan: nat, pool: seq<Workout>, picks: seq<nat>)
    requires IsSample(picks, |pool|) && |pool| > 0 && DistinctWorkoutIds(pool)
    requires IsWeekLayout(days, plan, pool, picks)
    ensures forall i :: 0 <= i < |days| ==> (!days[i].isRestDay <==> i < WorkoutDayCount(|pool|))
    ensures forall i, j :: 0 <= i < j < |days| && !days[i].isRestDay && !days[j].isRestDay ==> days[i].workout != days[j].workout
    ensures days[PlanLength - 1].isRestDay && days[PlanLength - 2].isRestDay
  {
    forall i, j | 0 <= i < j < |days| && !days[i].isRestDay && !days[j].isRestDay
      ensures days[i].workout != days[j].workout
    {
      assert picks[i] != picks[j];
      assert days[i].workout == pool[picks[i]].id && days[j].workout == pool[picks[j]].id;
    }
  }
}
