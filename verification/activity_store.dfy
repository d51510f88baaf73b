/**
 * Per-user aggregates over the activity log, as the leaderboard seeding
 * computes them: how many activities a user logged, their summed duration,
 * and their summed calories with a missing calorie value counted as 0.
 */
module ActivityStore {
  import opened Common
  import opened Activities

  /** The three aggregates of one user's activities. */
  datatype Totals = Totals(count: nat, durationMinutes: int, caloriesBurned: int)

  const ZeroTotals := Totals(0, 0, 0)

  /** The activities that belong to user `u`, in log order. */
  function ActivitiesOf(acts: seq<Activity>, u: UserId): (r: seq<Activity>)
    ensures forall i :: 0 <= i < |r| ==> r[i].user == u && r[i] in acts
    ensures forall i :: 0 <= i < |acts| && acts[i].user == u ==> acts[i] in r
    ensures multiset(r) <= multiset(acts)
    ensures |r| == Count(acts, (a: Activity) => a.user == u)
  {
    CountIsFilterLength(acts, (a: Activity) => a.user == u);
    Filter(acts, (a: Activity) => a.user == u)
  }

  /** `calories_burned or 0`: a missing calorie value contributes nothing. */
  function CaloriesOrZero(a: Activity): int
  {
    match a.caloriesBurned
    case None => 0
    case Some(c) => c
  }

  function SumDuration(acts: seq<Activity>): int
  {
    if |acts| == 0 then 0 else acts[0].durationMinutes + SumDuration(acts[1..])
  }

  function SumCalories(acts: seq<Activity>): int
  {
    if |acts| == 0 then 0 else CaloriesOrZero(acts[0]) + SumCalories(acts[1..])
  }

  /**
   * The aggregates of user `u`, in one pass over the whole log. A user with
   * no activities gets the zero aggregate, not an error; over valid records
   * the summed duration is at least the count (each lasts a minute or more)
   * and the summed calories are never negative.
   */
  function Aggregate(acts: seq<Activity>, u: UserId): (t: Totals)
    ensures (forall i :: 0 <= i < |acts| ==> acts[i].user != u) ==> t == ZeroTotals
    ensures AllValid(acts) ==> t.durationMinutes >= t.count && t.caloriesBurned >= 0
    ensures t.count <= |acts|
  {
    if |acts| == 0 then ZeroTotals
    else
      var rest := Aggregate(acts[1..], u);
      assert AllValid(acts) ==> AllValid(acts[1..]) by {
        if AllValid(acts) {
          forall i | 0 <= i < |acts[1..]| ensures Valid(acts[1..][i]) {
            assert acts[1..][i] == acts[i + 1];
          }
        }
      }
      if acts[0].user == u then
        Totals(rest.count + 1,
               rest.durationMinutes + acts[0].durationMinutes,
               rest.caloriesBurned + CaloriesOrZero(acts[0]))
      else rest
  }

  /**
   * The one-pass aggregate agrees with the definition that first selects the
   * user's activities and then counts and sums them.
   */
  lemma {:induction false} AggregateIsSumOverOwned(acts: seq<Activity>, u: UserId)
    ensures Aggregate(acts, u)
         == Totals(|ActivitiesOf(acts, u)|, SumDuration(ActivitiesOf(acts, u)), SumCalories(ActivitiesOf(acts, u)))
  {
    if |acts| > 0 {
      AggregateIsSumOverOwned(acts[1..], u);
      if acts[0].user == u {
        assert ActivitiesOf(acts, u) == [acts[0]] + ActivitiesOf(acts[1..], u);
      } else {
        assert ActivitiesOf(acts, u) == ActivitiesOf(acts[1..], u);
      }
    }
  }

  /** Aggregates over a log split in two add up. */
  lemma {:induction false} AggregateAppend(xs: seq<Activity>, ys: seq<Activity>, u: UserId)
    ensures var a, b, c := Aggregate(xs, u), Aggregate(ys, u), Aggregate(xs + ys, u);
      && c.count == a.count + b.count
      && c.durationMinutes == a.durationMinutes + b.durationMinutes
      && c.caloriesBurned == a.caloriesBurned + b.caloriesBurned
  {
    if |xs| > 0 {
      assert (xs + ys)[1..] == xs[1..] + ys;
      AggregateAppend(xs[1..], ys, u);
    } else {
      assert xs + ys == ys;
    }
  }

  /** Logging one more activity for `u` changes only `u`'s aggregate, by exactly that activity. */
  lemma LogActivityEffect(acts: seq<Activity>, a: Activity, v: UserId)
    ensures var before, after := Aggregate(acts, v), Aggregate(acts + [a], v);
      if a.user == v then
        after == Totals(before.count + 1, before.durationMinutes + a.durationMinutes,
                        before.caloriesBurned + CaloriesOrZero(a))
      else after == before
  {
    AggregateAppend(acts, [a], v);
    assert [a][1..] == [];
  }
}
