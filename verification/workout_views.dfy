/**
 * The workout-plan endpoint (workouts/views.py): which plans a request may
 * see, and who owns a plan created through it.
 */
module WorkoutViews {
  import opened Common
  import opened Visibility
  import opened Workouts

  /**
   * The plans the endpoint lists: those of the named user when `user_id` is
   * given, and only the requester's own unless the requester is staff;
   * most recently created first.
   */
  function VisiblePlans(all: seq<WorkoutPlan>, requester: User, userIdParam: Option<UserId>): (r: seq<WorkoutPlan>)
    ensures multiset(r) <= multiset(all)
    ensures forall i :: 0 <= i < |r| ==> r[i] in all
    ensures forall i :: 0 <= i < |all| && MayView(requester, userIdParam, all[i].user) ==> all[i] in r
    ensures userIdParam.Some? ==> forall i :: 0 <= i < |r| ==> r[i].user == userIdParam.value
    ensures !requester.isStaff ==> forall i :: 0 <= i < |r| ==> r[i].user == requester.id
    ensures forall i, j :: 0 <= i < j < |r| ==> r[i].createdAt >= r[j].createdAt
    ensures requester.isStaff && userIdParam.None? ==> multiset(r) == multiset(all)
    ensures !requester.isStaff && userIdParam.Some? && userIdParam.value != requester.id ==> r == []
  {
    var owner := (p: WorkoutPlan) => p.user;
    var r := ListPlans(OwnerScoped(all, owner, requester, userIdParam));
    ScopedListing(all, owner, requester, userIdParam, r);
    r
  }

  /** A plan is listed exactly when it is stored and the requester may see it. */
  lemma VisiblePlansExact(all: seq<WorkoutPlan>, requester: User, userIdParam: Option<UserId>, p: WorkoutPlan)
    ensures p in VisiblePlans(all, requester, userIdParam) <==> p in all && MayView(requester, userIdParam, p.user)
  {
    var r := VisiblePlans(all, requester, userIdParam);
    assert forall i :: 0 <= i < |r| ==> MayView(requester, userIdParam, r[i].user);
    if p in all && MayView(requester, userIdParam, p.user) {
      var k :| 0 <= k < |all| && all[k] == p;
    }
  }

  /** Why a submitted plan was refused. */
  datatype PlanError = PlanNameBlank | PlanNameTooLong

  /**
   * Creating a plan: the name must be non-blank and at most 200 characters;
   * a passing plan is stored under the requester, whatever owner was
   * submitted, with a fresh key and the creation time, and every other field
   * is kept as submitted.
   */
  function CreatePlan(requester: User, draft: WorkoutPlan, newId: nat, now: int): (r: Result<WorkoutPlan, PlanError>)
    ensures r.Success? <==> 0 < |draft.name| <= MaxPlanNameLength
    ensures r.Failure? ==> (r.error == PlanNameBlank <==> |draft.name| == 0)
    ensures r.Success? ==> r.value.user == requester.id && r.value.id == newId && r.value.createdAt == now
    ensures r.Success? ==> r.value.(id := draft.id, user := draft.user, createdAt := draft.createdAt) == draft
  {
    if |draft.name| == 0 then Failure(PlanNameBlank)
    else if |draft.name| > MaxPlanNameLength then Failure(PlanNameTooLong)
    else Success(draft.(id := newId, user := requester.id, createdAt := now))
  }

  /** A created plan is visible to its creator when no other user is named. */
  lemma CreatedPlanVisibleToCreator(all: seq<WorkoutPlan>, requester: User, draft: WorkoutPlan, newId: nat, now: int)
    requires 0 < |draft.name| <= MaxPlanNameLength
    ensures var r := CreatePlan(requester, draft, newId, now);
      r.Success? && r.value in VisiblePlans(all + [r.value], requester, None)
  {
    var p := CreatePlan(requester, draft, newId, now).value;
    VisiblePlansExact(all + [p], requester, None, p);
  }
}
