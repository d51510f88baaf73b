/**
 * The owner-scoped listing shared by the activity and workout-plan
 * endpoints: an optional `user_id` query parameter narrows the list to that
 * user's records, and a requester who is not staff only ever sees their
 * own records.
 */
module Visibility {
  import opened Common

  /** Whether a record owned by `owner` is visible to `requester` under the `user_id` parameter. */
  predicate MayView(requester: User, userIdParam: Option<UserId>, owner: UserId)
  {
    && (userIdParam.Some? ==> owner == userIdParam.value)
    && (!requester.isStaff ==> owner == requester.id)
  }

  /** The records owned by `u`, in stored order (`.filter(user=u)`). */
  function OwnedBy<T>(s: seq<T>, ownerOf: T -> UserId, u: UserId): (r: seq<T>)
    ensures multiset(r) <= multiset(s)
    ensures forall i :: 0 <= i < |r| ==> r[i] in s && ownerOf(r[i]) == u
    ensures forall i :: 0 <= i < |s| && ownerOf(s[i]) == u ==> s[i] in r
  {
    Filter(s, (x: T) => ownerOf(x) == u)
  }

  /** Selecting a user's records where that user owns none gives nothing. */
  lemma {:induction false} NoneOwned<T>(s: seq<T>, ownerOf: T -> UserId, u: UserId)
    requires forall i :: 0 <= i < |s| ==> ownerOf(s[i]) != u
    ensures OwnedBy(s, ownerOf, u) == []
  {
    if |s| > 0 {
      NoneOwned(s[1..], ownerOf, u);
    }
  }

  /** `get_queryset`: the user filter first, then the ownership filter for non-staff requesters. */
  function OwnerScoped<T>(all: seq<T>, ownerOf: T -> UserId, requester: User, userIdParam: Option<UserId>)
    : (r: seq<T>)
    ensures multiset(r) <= multiset(all)
    ensures forall i :: 0 <= i < |r| ==> r[i] in all && MayView(requester, userIdParam, ownerOf(r[i]))
    ensures forall i :: 0 <= i < |all| && MayView(requester, userIdParam, ownerOf(all[i])) ==> all[i] in r
  {
    var byUser := if userIdParam.Some? then OwnedBy(all, ownerOf, userIdParam.value) else all;
    var r := if !requester.isStaff then OwnedBy(byUser, ownerOf, requester.id) else byUser;
    assert forall i :: 0 <= i < |r| ==> r[i] in byUser;
    assert forall i :: 0 <= i < |byUser| ==> byUser[i] in all;
    forall i | 0 <= i < |all| && MayView(requester, userIdParam, ownerOf(all[i])) ensures all[i] in r {
      assert all[i] in byUser;
      var j :| 0 <= j < |byUser| && byUser[j] == all[i];
    }
    r
  }

  /**
   * Any rearrangement `r` of the scoped records (a listing in the model's
   * default order) holds exactly the stored records the requester may view;
   * staff naming no user get every record, and a non-staff requester naming
   * another user gets nothing.
   */
  lemma ScopedListing<T>(all: seq<T>, ownerOf: T -> UserId, requester: User, userIdParam: Option<UserId>, r: seq<T>)
    requires multiset(r) == multiset(OwnerScoped(all, ownerOf, requester, userIdParam))
    ensures multiset(r) <= multiset(all)
    ensures forall i :: 0 <= i < |r| ==> r[i] in all && MayView(requester, userIdParam, ownerOf(r[i]))
    ensures forall i :: 0 <= i < |all| && MayView(requester, userIdParam, ownerOf(all[i])) ==> all[i] in r
    ensures requester.isStaff && userIdParam.None? ==> multiset(r) == multiset(all)
    ensures !requester.isStaff && userIdParam.Some? && userIdParam.value != requester.id ==> r == []
  {
    var s := OwnerScoped(all, ownerOf, requester, userIdParam);
    SubMultisetAll(r, s, (x: T) => x in all && MayView(requester, userIdParam, ownerOf(x)));
    forall i | 0 <= i < |all| && MayView(requester, userIdParam, ownerOf(all[i])) ensures all[i] in r {
      assert all[i] in multiset(s);
    }
    if requester.isStaff && userIdParam.None? {
      StaffSeesAll(all, ownerOf, requester);
    }
    if !requester.isStaff && userIdParam.Some? && userIdParam.value != requester.id {
      OthersHiddenFromNonStaff(all, ownerOf, requester, userIdParam.value);
      assert |multiset(r)| == 0;
    }
  }

  /** Staff asking for no particular user pass the filters with every record, in stored order. */
  lemma StaffSeesAll<T>(all: seq<T>, ownerOf: T -> UserId, requester: User)
    requires requester.isStaff
    ensures OwnerScoped(all, ownerOf, requester, None) == all
  {
  }

  /** A requester who is not staff and names another user sees nothing. */
  lemma OthersHiddenFromNonStaff<T>(all: seq<T>, ownerOf: T -> UserId, requester: User, other: UserId)
    requires !requester.isStaff && other != requester.id
    ensures OwnerScoped(all, ownerOf, requester, Some(other)) == []
  {
    var byUser := OwnedBy(all, ownerOf, other);
    NoneOwned(byUser, ownerOf, requester.id);
  }
}
