/**
 * The plan step of the two database seeding commands
 * (`create_workout_plans`): every account gets an active seven-day plan
 * named after its first name, laid out over a random sample of the workout
 * templates. The samples and the drawn difficulties are inputs here.
 */
module PlanSeed {
  import opened Common
  import opened Workouts

  /** A plan key larger than every stored one (the next auto-increment key). */
  function NextPlanId(plans: seq<WorkoutPlan>): (id: nat)
    ensures forall i :: 0 <= i < |plans| ==> plans[i].id < id
  {
    FreshKey(plans, (p: WorkoutPlan) => p.id)
  }

  /** Every stored plan day belongs to a stored plan. */
  predicate DaysOfStoredPlans(plans: seq<WorkoutPlan>, days: seq<PlanDay>)
  {
    forall i :: 0 <= i < |days| ==> exists k :: 0 <= k < |plans| && plans[k].id == days[i].plan
  }

  const WeeklyPlanSuffix: string := "'s Weekly Plan"
  const DescriptionPrefix: string := "Custom workout plan for "

  /** The plan written for `user`: named and described after the first name, seven days, active. */
  function WeeklyPlanFor(user: User, id: nat, difficulty: Difficulty, now: int): (p: WorkoutPlan)
    ensures p.user == user.id && p.id == id
    ensures |p.name| == |user.firstName| + |WeeklyPlanSuffix| && |p.description| == |DescriptionPrefix| + |user.firstName|
    ensures p.name[..|user.firstName|] == user.firstName && p.name[|user.firstName|..] == WeeklyPlanSuffix
    ensures p.description[..|DescriptionPrefix|] == DescriptionPrefix && p.description[|DescriptionPrefix|..] == user.firstName
    ensures p.durationDays == PlanLength && p.isActive && p.difficultyLevel == difficulty
  {
    WorkoutPlan(id, user.id, user.firstName + WeeklyPlanSuffix, DescriptionPrefix + user.firstName,
                PlanLength, difficulty, true, now)
  }

  /** The days of the `k`-th new plan, when the new days were appended after `start` stored ones. */
  function WeekOf(ds: seq<PlanDay>, start: nat, k: nat): seq<PlanDay>
    requires start + 7 * k + 7 <= |ds|
  {
    ds[start + 7 * k .. start + 7 * k + 7]
  }

  /** The first `j` weeks appended after `start` stored days are laid out from the matching samples, for plans `next`, `next + 1`, ... */
  predicate WeeksLaidOut(ds: seq<PlanDay>, start: nat, j: nat, next: nat, pool: seq<Workout>, samples: seq<seq<nat>>)
    requires |ds| == start + 7 * j && j <= |samples| && |pool| > 0
    requires forall k :: 0 <= k < |samples| ==> IsSample(samples[k], |pool|)
  {
    forall k :: 0 <= k < j ==> IsWeekLayout(WeekOf(ds, start, k), next + k, pool, samples[k])
  }

  /** Appending the next laid-out week extends the laid-out weeks by one. */
  lemma AppendWeek(ds: seq<PlanDay>, start: nat, j: nat, next: nat, pool: seq<Workout>, samples: seq<seq<nat>>, week: seq<PlanDay>)
    requires |ds| == start + 7 * j && j < |samples| && |pool| > 0
    requires forall k :: 0 <= k < |samples| ==> IsSample(samples[k], |pool|)
    requires WeeksLaidOut(ds, start, j, next, pool, samples)
    requires IsWeekLayout(week, next + j, pool, samples[j])
    ensures WeeksLaidOut(ds + week, start, j + 1, next, pool, samples)
  {
    forall k | 0 <= k < j + 1 ensures IsWeekLayout(WeekOf(ds + week, start, k), next + k, pool, samples[k]) {
      if k < j {
        assert WeekOf(ds + week, start, k) == WeekOf(ds, start, k);
      } else {
        assert WeekOf(ds + week, start, k) == week;
      }
    }
  }

  /** Every day in `ds` belongs to a plan keyed below `bound`. */
  predicate PlansBelow(ds: seq<PlanDay>, bound: nat)
  {
    forall i :: 0 <= i < |ds| ==> ds[i].plan < bound
  }

  /** Appending a plan's days to a table that holds no day of that plan keeps day numbers unique per plan. */
  lemma AppendPlanDaysKeepsUnique(ds: seq<PlanDay>, added: seq<PlanDay>, plan: nat)
    requires UniqueDayNumbers(ds) && UniqueDayNumbers(added)
    requires forall i :: 0 <= i < |ds| ==> ds[i].plan != plan
    requires forall i :: 0 <= i < |added| ==> added[i].plan == plan
    ensures UniqueDayNumbers(ds + added)
  {
    var all := ds + added;
    forall i, j | 0 <= i < j < |all| && all[i].plan == all[j].plan ensures all[i].dayNumber != all[j].dayNumber {
      if i >= |ds| {
        assert all[i] == added[i - |ds|] && all[j] == added[j - |ds|];
      } else if j < |ds| {
        assert all[i] == ds[i] && all[j] == ds[j];
      }
    }
  }

  /** Appending the days of plan `plan`, keyed above every stored day's plan, keeps the table unique and bounded by `plan + 1`. */
  lemma AppendNewPlanDays(ds: seq<PlanDay>, added: seq<PlanDay>, plan: nat)
    requires UniqueDayNumbers(ds) && PlansBelow(ds, plan) && UniqueDayNumbers(added)
    requires forall i :: 0 <= i < |added| ==> added[i].plan == plan
    ensures UniqueDayNumbers(ds + added) && PlansBelow(ds + added, plan + 1)
  {
    AppendPlanDaysKeepsUnique(ds, added, plan);
    var all := ds + added;
    forall i | 0 <= i < |all| ensures all[i].plan < plan + 1 {
      if i < |ds| {
        assert all[i] == ds[i];
      } else {
        assert all[i] == added[i - |ds|];
      }
    }
  }

  /** The two tables after the plan step. */
  datatype PlanTables = PlanTables(plans: seq<WorkoutPlan>, days: seq<PlanDay>)

  /**
   * `create_workout_plans`: one plan per account, in order, each followed by
   * its seven days. With accounts but no templates the first plan's rest day
   * fails. On success the stored rows are kept, the i-th new plan belongs to
   * the i-th account and its days are laid out from that account's sample,
   * and the `(plan, day_number)` constraint still holds.
   */
  method SeedPlans(plans: seq<WorkoutPlan>, days: seq<PlanDay>, users: seq<User>, pool: seq<Workout>,
                   samples: seq<seq<nat>>, difficulties: seq<Difficulty>, now: int)
    returns (r: Result<PlanTables, LayoutError>)
    requires |samples| == |users| && |difficulties| == |users|
    requires forall k :: 0 <= k < |samples| ==> IsSample(samples[k], |pool|)
    ensures r.Failure? <==> |pool| == 0 && |users| > 0
    ensures r.Success? ==>
      && |r.value.plans| == |plans| + |users| && r.value.plans[..|plans|] == plans
      && |r.value.days| == |days| + 7 * |users| && r.value.days[..|days|] == days
    ensures r.Success? ==> forall k :: 0 <= k < |users| ==>
      r.value.plans[|plans| + k] == WeeklyPlanFor(users[k], NextPlanId(plans) + k, difficulties[k], now)
    ensures r.Success? && |pool| > 0 ==> forall k :: 0 <= k < |users| ==>
      IsWeekLayout(WeekOf(r.value.days, |days|, k), NextPlanId(plans) + k, pool, samples[k])
    ensures r.Success? && UniqueDayNumbers(days) && DaysOfStoredPlans(plans, days) ==> UniqueDayNumbers(r.value.days)
  {
    var next := NextPlanId(plans);
    var storedOk := UniqueDayNumbers(days) && DaysOfStoredPlans(plans, days);
    assert storedOk ==> PlansBelow(days, next);
    var ps := plans;
    var ds := days;
    var j := 0;
    while j < |users|
      invariant 0 <= j <= |users|
      invariant |pool| == 0 ==> j == 0
      invariant |ps| == |plans| + j && ps[..|plans|] == plans
      invariant |ds| == |days| + 7 * j && ds[..|days|] == days
      invariant forall k :: 0 <= k < j ==> ps[|plans| + k] == WeeklyPlanFor(users[k], next + k, difficulties[k], now)
      invariant |pool| > 0 ==> WeeksLaidOut(ds, |days|, j, next, pool, samples)
      invariant storedOk ==> UniqueDayNumbers(ds) && PlansBelow(ds, next + j)
    {
      var plan := WeeklyPlanFor(users[j], next + j, difficulties[j], now);
      var layout := LayOutWeek(plan.id, pool, samples[j]);
      if layout.Failure? {
        return Failure(layout.error);
      }
      var week := layout.value;
      WeekLayoutNumbering(week, plan.id, pool, samples[j]);
      if storedOk {
        AppendNewPlanDays(ds, week, plan.id);
      }
      AppendWeek(ds, |days|, j, next, pool, samples, week);
      assert (ds + week)[..|ds|] == ds && (ps + [plan])[..|ps|] == ps;
      PrefixOfPrefix(ds + week, ds, days);
      PrefixOfPrefix(ps + [plan], ps, plans);
      ps := ps + [plan];
      ds := ds + week;
      j := j + 1;
    }
    assert |pool| > 0 ==> WeeksLaidOut(ds, |days|, |users|, next, pool, samples);
    return Success(PlanTables(ps, ds));
  }
}
