/**
 * The profile endpoint (users/views.py): listing profiles by username, the
 * requester's own profile, and creating a profile. A profile belongs to
 * exactly one account and an account has at most one profile.
 */
module Profiles {
  import opened Common

  /** The parts of a fitness profile the endpoint logic looks at. */
  datatype Profile = Profile(id: nat, user: UserId, bio: string, age: Option<int>, createdAt: int)

  /** The one-to-one constraint between accounts and profiles. */
  predicate OneProfilePerUser(profiles: seq<Profile>)
  {
    forall i, j :: 0 <= i < j < |profiles| ==> profiles[i].user != profiles[j].user
  }

  /** Whether account `u` has a profile. */
  predicate HasProfile(profiles: seq<Profile>, u: UserId)
  {
    exists i :: 0 <= i < |profiles| && profiles[i].user == u
  }

  /** Whether the profile belongs to an account whose username is `name`. */
  predicate OwnerNamed(accounts: map<UserId, User>, p: Profile, name: string)
  {
    p.user in accounts && accounts[p.user].username == name
  }

  /** The default listing of profiles: most recently created first. */
  function ListProfiles(profiles: seq<Profile>): (r: seq<Profile>)
    ensures multiset(r) == multiset(profiles)
    ensures forall i, j :: 0 <= i < j < |r| ==> r[i].createdAt >= r[j].createdAt
  {
    var r := SortBy(profiles, (p: Profile) => -p.createdAt);
    assert forall i, j :: 0 <= i < j < |r| ==> -r[i].createdAt <= -r[j].createdAt;
    r
  }

  /**
   * The profiles the endpoint lists: all of them, or with a `username`
   * parameter exactly those whose account carries that username, most
   * recently created first.
   */
  function ProfilesFor(profiles: seq<Profile>, accounts: map<UserId, User>, username: Option<string>): (r: seq<Profile>)
    ensures username.None? ==> multiset(r) == multiset(profiles)
    ensures multiset(r) <= multiset(profiles)
    ensures username.Some? ==> forall i :: 0 <= i < |r| ==> r[i] in profiles && OwnerNamed(accounts, r[i], username.value)
    ensures username.Some? ==> forall i :: 0 <= i < |profiles| && OwnerNamed(accounts, profiles[i], username.value) ==> profiles[i] in r
    ensures forall i, j :: 0 <= i < j < |r| ==> r[i].createdAt >= r[j].createdAt
  {
    var s := if username.None? then profiles else Filter(profiles, (p: Profile) => OwnerNamed(accounts, p, username.value));
    var r := ListProfiles(s);
    assert username.Some? ==>
      && (forall i :: 0 <= i < |r| ==> r[i] in profiles && OwnerNamed(accounts, r[i], username.value))
      && (forall i :: 0 <= i < |profiles| && OwnerNamed(accounts, profiles[i], username.value) ==> profiles[i] in r) by {
      if username.Some? {
        SubMultisetAll(r, s, (p: Profile) => p in profiles && OwnerNamed(accounts, p, username.value));
        forall i | 0 <= i < |profiles| && OwnerNamed(accounts, profiles[i], username.value) ensures profiles[i] in r {
          assert profiles[i] in multiset(s);
        }
      }
    }
    r
  }

  /** An error response: its status code and message. */
  datatype ErrorResponse = ErrorResponse(status: int, message: string)

  const ProfileNotFound := ErrorResponse(404, "User profile not found")

  /** The requester's own profile (`me`), or 404 "User profile not found" when the requester has none. */
  function Me(profiles: seq<Profile>, requester: User): (r: Result<Profile, ErrorResponse>)
    ensures r.Success? <==> HasProfile(profiles, requester.id)
    ensures r.Success? ==> r.value in profiles && r.value.user == requester.id
    ensures r.Failure? ==> r.error == ProfileNotFound
  {
    if |profiles| == 0 then Failure(ProfileNotFound)
    else if profiles[0].user == requester.id then Success(profiles[0])
    else
      var rest := Me(profiles[1..], requester);
      assert HasProfile(profiles, requester.id) ==> HasProfile(profiles[1..], requester.id) by {
        if HasProfile(profiles, requester.id) {
          var i :| 0 <= i < |profiles| && profiles[i].user == requester.id;
          assert profiles[1..][i - 1] == profiles[i];
        }
      }
      rest
  }

  /** Under the one-to-one constraint, `me` finds the only profile of the requester. */
  lemma MeIsTheProfile(profiles: seq<Profile>, requester: User, k: nat)
    requires OneProfilePerUser(profiles)
    requires k < |profiles| && profiles[k].user == requester.id
    ensures Me(profiles, requester) == Success(profiles[k])
  {
    var p := Me(profiles, requester).value;
    var j :| 0 <= j < |profiles| && profiles[j] == p;
    assert j == k;
  }

  datatype CreateProfileError = ProfileExists

  /**
   * Creating a profile: it is stored under the requester, whatever account
   * was submitted, unless the requester already has one (the one-to-one
   * constraint refuses a second).
   */
  function CreateProfile(profiles: seq<Profile>, requester: User, draft: Profile, newId: nat, now: int)
    : (r: Result<seq<Profile>, CreateProfileError>)
    ensures r.Failure? <==> HasProfile(profiles, requester.id)
    ensures r.Success? ==> |r.value| == |profiles| + 1 && r.value[..|profiles|] == profiles
    ensures r.Success? ==> var p := r.value[|profiles|];
      p.user == requester.id && p.id == newId && p.createdAt == now
      && p.(id := draft.id, user := draft.user, createdAt := draft.createdAt) == draft
    ensures OneProfilePerUser(profiles) && r.Success? ==> OneProfilePerUser(r.value)
  {
    if HasProfile(profiles, requester.id) then Failure(ProfileExists)
    else Success(profiles + [draft.(id := newId, user := requester.id, createdAt := now)])
  }

  /** After creating a profile, `me` returns it. */
  lemma CreatedProfileIsMine(profiles: seq<Profile>, requester: User, draft: Profile, newId: nat, now: int)
    requires OneProfilePerUser(profiles) && !HasProfile(profiles, requester.id)
    ensures var r := CreateProfile(profiles, requester, draft, newId, now);
      r.Success? && Me(r.value, requester) == Success(r.value[|profiles|])
  {
    var r := CreateProfile(profiles, requester, draft, newId, now).value;
    MeIsTheProfile(r, requester, |profiles|);
  }
}
