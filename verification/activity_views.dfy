/**
 * The activity endpoint (activities/views.py): which activities a request
 * may see, and who owns an activity created through it.
 */
module ActivityViews {
  import opened Common
  import opened Activities
  import opened Visibility

  /**
   * The activities the endpoint lists: those of the named user when
   * `user_id` is given, and only the requester's own unless the requester
   * is staff; most recent `activity_date` first.
   */
  function VisibleActivities(all: seq<Activity>, requester: User, userIdParam: Option<UserId>): (r: seq<Activity>)
    ensures multiset(r) <= multiset(all)
    ensures forall i :: 0 <= i < |r| ==> r[i] in all
    ensures forall i :: 0 <= i < |all| && MayView(requester, userIdParam, all[i].user) ==> all[i] in r
    ensures userIdParam.Some? ==> forall i :: 0 <= i < |r| ==> r[i].user == userIdParam.value
    ensures !requester.isStaff ==> forall i :: 0 <= i < |r| ==> r[i].user == requester.id
    ensures forall i, j :: 0 <= i < j < |r| ==> r[i].activityDate >= r[j].activityDate
    ensures requester.isStaff && userIdParam.None? ==> multiset(r) == multiset(all)
    ensures !requester.isStaff && userIdParam.Some? && userIdParam.value != requester.id ==> r == []
  {
    var owner := (a: Activity) => a.user;
    var r := ListActivities(OwnerScoped(all, owner, requester, userIdParam));
    ScopedListing(all, owner, requester, userIdParam, r);
    r
  }

  /** An activity is listed exactly when it is stored and the requester may see it. */
  lemma VisibleActivitiesExact(all: seq<Activity>, requester: User, userIdParam: Option<UserId>, a: Activity)
    ensures a in VisibleActivities(all, requester, userIdParam) <==> a in all && MayView(requester, userIdParam, a.user)
  {
    var r := VisibleActivities(all, requester, userIdParam);
    assert forall i :: 0 <= i < |r| ==> MayView(requester, userIdParam, r[i].user);
    if a in all && MayView(requester, userIdParam, a.user) {
      var k :| 0 <= k < |all| && all[k] == a;
    }
  }

  /**
   * Creating an activity: the submitted record is validated, and when it
   * passes it is stored under the requester, whatever owner was submitted.
   */
  function CreateActivity(requester: User, draft: Activity, newId: nat): (r: Result<Activity, seq<FieldError>>)
    ensures r.Success? <==> Valid(draft)
    ensures r.Failure? ==> |r.error| > 0
    ensures r.Success? ==> r.value.user == requester.id && r.value.id == newId && Valid(r.value)
    ensures r.Success? ==> r.value.(id := draft.id, user := draft.user) == draft
  {
    var errs := Validate(draft);
    if errs != [] then Failure(errs) else Success(draft.(id := newId, user := requester.id))
  }

  /** A created activity is visible to its creator when no other user is named. */
  lemma CreatedActivityVisibleToCreator(all: seq<Activity>, requester: User, draft: Activity, newId: nat)
    requires Valid(draft)
    ensures var r := CreateActivity(requester, draft, newId);
      r.Success? && r.value in VisibleActivities(all + [r.value], requester, None)
  {
    var a := CreateActivity(requester, draft, newId).value;
    VisibleActivitiesExact(all + [a], requester, None, a);
  }
}
