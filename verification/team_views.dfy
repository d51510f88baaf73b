/**
 * The team endpoint (teams/views.py): adding and removing members, the
 * requester's teams, and team creation. Each request is a pure transition
 * of the two team tables, returning the new tables and the response.
 */
module TeamViews {
  import opened Common
  import opened Teams

  datatype TeamTables = TeamTables(teams: seq<Team>, memberships: seq<Membership>)

  predicate Valid(db: TeamTables)
  {
    ValidTables(db.teams, db.memberships)
  }

  /** The responses of `add_member` and `remove_member`. */
  datatype Outcome =
    | TeamNotFound      // no team under the URL's key
    | UserIdRequired    // `user_id` missing or falsy
    | MemberAdded       // a membership row was inserted
    | AlreadyInTeam     // the user was a member already
    | AddFailed         // the insert was rejected (the user does not exist)
    | MemberRemoved     // the membership row was deleted
    | NotInTeam         // the user was not a member

  /** The HTTP status each response carries. */
  function Status(o: Outcome): nat
  {
    match o
    case TeamNotFound => 404
    case UserIdRequired => 400
    case MemberAdded => 201
    case AlreadyInTeam => 200
    case AddFailed => 400
    case MemberRemoved => 200
    case NotInTeam => 404
  }

  /** `not user_id` in Python: an absent parameter and the integer 0 are both falsy. */
  predicate Falsy(userId: Option<int>)
  {
    userId.None? || userId.value == 0
  }

  /**
   * `add_member`: the team is looked up first, then `user_id` is required,
   * then the membership is fetched or created with the requested role
   * (`member` when none is given). `users` are the keys of existing
   * accounts; inserting a membership for any other key is rejected by the
   * store and reported as a failed request.
   */
  function AddMember(db: TeamTables, users: set<UserId>, teamId: nat, userId: Option<int>,
                     role: Option<Role>, now: int): (r: (TeamTables, Outcome))
    ensures r.1 == TeamNotFound <==> teamId !in TeamIds(db.teams)
    ensures r.1 == UserIdRequired <==> teamId in TeamIds(db.teams) && Falsy(userId)
    ensures r.1 == AlreadyInTeam <==>
      teamId in TeamIds(db.teams) && !Falsy(userId) && IsMember(db.memberships, teamId, userId.value)
    ensures r.1 == MemberAdded <==>
      teamId in TeamIds(db.teams) && !Falsy(userId) && !IsMember(db.memberships, teamId, userId.value)
      && userId.value in users
    ensures r.1 == AddFailed <==>
      teamId in TeamIds(db.teams) && !Falsy(userId) && !IsMember(db.memberships, teamId, userId.value)
      && userId.value !in users
    ensures r.1 != MemberAdded ==> r.0 == db
    ensures r.1 == MemberAdded ==>
      r.0 == db.(memberships := db.memberships + [Membership(teamId, userId.value,
                                                    if role.Some? then role.value else DefaultRole, now)])
    ensures Valid(db) ==> Valid(r.0)
  {
    if teamId !in TeamIds(db.teams) then (db, TeamNotFound)
    else if Falsy(userId) then (db, UserIdRequired)
    else if IsMember(db.memberships, teamId, userId.value) then (db, AlreadyInTeam)
    else if userId.value !in users then (db, AddFailed)
    else
      var ms := EnsureMembership(db.memberships, teamId, userId.value,
                                 if role.Some? then role.value else DefaultRole, now);
      var db' := db.(memberships := ms);
      assert Valid(db) ==> forall i :: 0 <= i < |ms| ==> ms[i].team in TeamIds(db.teams) by {
        if Valid(db) {
          forall i | 0 <= i < |ms| ensures ms[i].team in TeamIds(db.teams) {
            if i < |db.memberships| { assert ms[i] == db.memberships[i]; }
          }
        }
      }
      (db', MemberAdded)
  }

  /** After `add_member` succeeds the user is a member, and the team counts one more member. */
  lemma AddMemberGrowsTeam(db: TeamTables, users: set<UserId>, teamId: nat, userId: Option<int>,
                           role: Option<Role>, now: int)
    requires AddMember(db, users, teamId, userId, role, now).1 == MemberAdded
    ensures var db' := AddMember(db, users, teamId, userId, role, now).0;
      && IsMember(db'.memberships, teamId, userId.value)
      && MemberCount(db'.memberships, teamId) == MemberCount(db.memberships, teamId) + 1
  {
    var rl := if role.Some? then role.value else DefaultRole;
    MemberCountAfterEnsure(db.memberships, teamId, userId.value, rl, now, teamId);
  }

  /**
   * `add_member` is idempotent: repeating a request that added a member
   * reports "already in team" and changes nothing, whatever role the
   * repeat asks for.
   */
  lemma AddMemberIdempotent(db: TeamTables, users: set<UserId>, teamId: nat, userId: Option<int>,
                            role: Option<Role>, role2: Option<Role>, now: int, later: int)
    ensures var first := AddMember(db, users, teamId, userId, role, now);
      var second := AddMember(first.0, users, teamId, userId, role2, later);
      second.0 == first.0
      && (first.1 == MemberAdded || first.1 == AlreadyInTeam ==> second.1 == AlreadyInTeam)
  {
    var first := AddMember(db, users, teamId, userId, role, now);
    if first.1 == MemberAdded {
      AddMemberGrowsTeam(db, users, teamId, userId, role, now);
    }
  }

  /** The memberships left when `(team, user)` is removed. */
  function WithoutMembership(ms: seq<Membership>, team: nat, user: UserId): (r: seq<Membership>)
    ensures forall i :: 0 <= i < |r| ==> r[i] in ms && !(r[i].team == team && r[i].user == user)
    ensures forall i :: 0 <= i < |ms| && !(ms[i].team == team && ms[i].user == user) ==> ms[i] in r
    ensures !IsMember(r, team, user)
  {
    Filter(ms, (m: Membership) => !(m.team == team && m.user == user))
  }

  /**
   * `remove_member`: the team is looked up first, then `user_id` is
   * required; the membership is deleted when it exists, and "not in team"
   * is reported otherwise.
   */
  function RemoveMember(db: TeamTables, teamId: nat, userId: Option<int>): (r: (TeamTables, Outcome))
    ensures r.1 == TeamNotFound <==> teamId !in TeamIds(db.teams)
    ensures r.1 == UserIdRequired <==> teamId in TeamIds(db.teams) && Falsy(userId)
    ensures r.1 == NotInTeam <==>
      teamId in TeamIds(db.teams) && !Falsy(userId) && !IsMember(db.memberships, teamId, userId.value)
    ensures r.1 == MemberRemoved <==>
      teamId in TeamIds(db.teams) && !Falsy(userId) && IsMember(db.memberships, teamId, userId.value)
    ensures r.1 != MemberRemoved ==> r.0 == db
    ensures r.1 == MemberRemoved ==>
      r.0.teams == db.teams && r.0.memberships == WithoutMembership(db.memberships, teamId, userId.value)
    ensures Valid(db) ==> Valid(r.0)
  {
    if teamId !in TeamIds(db.teams) then (db, TeamNotFound)
    else if Falsy(userId) then (db, UserIdRequired)
    else if !IsMember(db.memberships, teamId, userId.value) then (db, NotInTeam)
    else
      var ms := WithoutMembership(db.memberships, teamId, userId.value);
      var p := (m: Membership) => !(m.team == teamId && m.user == userId.value);
      assert Valid(db) ==> UniqueMemberships(ms) by {
        if Valid(db) {
          FilterKeepsUnique(db.memberships, p);
        }
      }
      (db.(memberships := ms), MemberRemoved)
  }

  lemma {:induction false} FilterKeepsUnique(ms: seq<Membership>, p: Membership -> bool)
    requires UniqueMemberships(ms)
    ensures UniqueMemberships(Filter(ms, p))
  {
    if |ms| > 0 {
      var tail := ms[1..];
      assert UniqueMemberships(tail) by {
        forall i, j | 0 <= i < j < |tail| ensures tail[i].team != tail[j].team || tail[i].user != tail[j].user {
          assert tail[i] == ms[i + 1] && tail[j] == ms[j + 1];
        }
      }
      FilterKeepsUnique(tail, p);
      var t := Filter(tail, p);
      if p(ms[0]) {
        assert forall k :: 0 <= k < |t| ==> t[k].team != ms[0].team || t[k].user != ms[0].user by {
          forall k | 0 <= k < |t| ensures t[k].team != ms[0].team || t[k].user != ms[0].user {
            var q :| 0 <= q < |tail| && tail[q] == t[k];
            assert tail[q] == ms[q + 1];
          }
        }
        ConsKeepsUnique(ms[0], t);
        assert Filter(ms, p) == [ms[0]] + t;
      } else {
        assert Filter(ms, p) == t;
      }
    }
  }

  lemma ConsKeepsUnique(m: Membership, t: seq<Membership>)
    requires UniqueMemberships(t)
    requires forall k :: 0 <= k < |t| ==> t[k].team != m.team || t[k].user != m.user
    ensures UniqueMemberships([m] + t)
  {
    var r := [m] + t;
    forall i, j | 0 <= i < j < |r| ensures r[i].team != r[j].team || r[i].user != r[j].user {
      assert r[j] == t[j - 1];
      if i > 0 {
        assert r[i] == t[i - 1];
      }
    }
  }

  /** Removing a member takes exactly one membership out and leaves every other one in place. */
  lemma RemoveMemberTakesOneOut(db: TeamTables, teamId: nat, userId: Option<int>)
    requires Valid(db)
    requires RemoveMember(db, teamId, userId).1 == MemberRemoved
    ensures var ms' := RemoveMember(db, teamId, userId).0.memberships;
      && |ms'| == |db.memberships| - 1
      && !IsMember(ms', teamId, userId.value)
      && forall m :: m in db.memberships && (m.team != teamId || m.user != userId.value) ==> m in ms'
  {
    var u := userId.value;
    var p := (m: Membership) => !(m.team == teamId && m.user == u);
    var k :| 0 <= k < |db.memberships| && db.memberships[k].team == teamId && db.memberships[k].user == u;
    CountOfKey(db.memberships, teamId, u, k);
    CountIsFilterLength(db.memberships, p);
  }

  /** In a table without duplicate keys, exactly one row carries the key of row `k`. */
  lemma {:induction false} CountOfKey(ms: seq<Membership>, team: nat, user: UserId, k: nat)
    requires UniqueMemberships(ms)
    requires k < |ms| && ms[k].team == team && ms[k].user == user
    ensures Count(ms, (m: Membership) => !(m.team == team && m.user == user)) == |ms| - 1
  {
    var p := (m: Membership) => !(m.team == team && m.user == user);
    if k == 0 {
      assert forall i :: 0 <= i < |ms[1..]| ==> p(ms[1..][i]) by {
        forall i | 0 <= i < |ms[1..]| ensures p(ms[1..][i]) {
          assert ms[1..][i] == ms[i + 1];
        }
      }
      AllPassCount(ms[1..], p);
    } else {
      assert UniqueMemberships(ms[1..]) by {
        forall i, j | 0 <= i < j < |ms[1..]| ensures ms[1..][i].team != ms[1..][j].team || ms[1..][i].user != ms[1..][j].user {
          assert ms[1..][i] == ms[i + 1] && ms[1..][j] == ms[j + 1];
        }
      }
      assert ms[1..][k - 1] == ms[k];
      CountOfKey(ms[1..], team, user, k - 1);
    }
  }

  lemma {:induction false} AllPassCount(ms: seq<Membership>, p: Membership -> bool)
    requires forall i :: 0 <= i < |ms| ==> p(ms[i])
    ensures Count(ms, p) == |ms|
  {
    if |ms| > 0 {
      assert forall i :: 0 <= i < |ms[1..]| ==> p(ms[1..][i]) by {
        forall i | 0 <= i < |ms[1..]| ensures p(ms[1..][i]) {
          assert ms[1..][i] == ms[i + 1];
        }
      }
      AllPassCount(ms[1..], p);
    }
  }

  /** Adding a new member and then removing them restores the tables exactly. */
  lemma AddThenRemoveRestores(db: TeamTables, users: set<UserId>, teamId: nat, userId: Option<int>,
                              role: Option<Role>, now: int)
    requires AddMember(db, users, teamId, userId, role, now).1 == MemberAdded
    ensures RemoveMember(AddMember(db, users, teamId, userId, role, now).0, teamId, userId)
         == (db, MemberRemoved)
  {
    var u := userId.value;
    var added := AddMember(db, users, teamId, userId, role, now).0;
    AddMemberGrowsTeam(db, users, teamId, userId, role, now);
    var p := (m: Membership) => !(m.team == teamId && m.user == u);
    var m := added.memberships[|db.memberships|];
    assert added.memberships == db.memberships + [m];
    FilterAppendDrop(db.memberships, m, p);
  }

  /** Filtering out a key no row carries, from a table extended by one row with that key, gives back the table. */
  lemma {:induction false} FilterAppendDrop(ms: seq<Membership>, m: Membership, p: Membership -> bool)
    requires forall i :: 0 <= i < |ms| ==> p(ms[i])
    requires !p(m)
    ensures Filter(ms + [m], p) == ms
  {
    if |ms| == 0 {
      assert (ms + [m])[1..] == [];
    } else {
      assert (ms + [m])[1..] == ms[1..] + [m];
      assert forall i :: 0 <= i < |ms[1..]| ==> p(ms[1..][i]) by {
        forall i | 0 <= i < |ms[1..]| ensures p(ms[1..][i]) {
          assert ms[1..][i] == ms[i + 1];
        }
      }
      FilterAppendDrop(ms[1..], m, p);
      assert [ms[0]] + ms[1..] == ms;
    }
  }

  /** `my_teams`: the teams the requester belongs to, most recently created first. */
  function MyTeams(db: TeamTables, requester: User): (r: seq<Team>)
    ensures forall t :: t in r <==> t in db.teams && IsMember(db.memberships, t.id, requester.id)
    ensures forall i, j :: 0 <= i < j < |r| ==> r[i].createdAt >= r[j].createdAt
    ensures multiset(r) <= multiset(db.teams)
  {
    var p := (t: Team) => IsMember(db.memberships, t.id, requester.id);
    var mine := Filter(db.teams, p);
    var r := ListTeams(mine);
    forall t ensures t in r <==> t in db.teams && p(t) {
      assert t in r <==> t in multiset(r);
      assert t in mine <==> t in multiset(mine);
      if t in mine {
        var k :| 0 <= k < |mine| && mine[k] == t;
      }
      if t in db.teams && p(t) {
        var k :| 0 <= k < |db.teams| && db.teams[k] == t;
      }
    }
    r
  }

  /** Why a team could not be created. */
  datatype CreateError = NameBlank | NameAlreadyUsed | NameTooLong

  /**
   * Team creation (`perform_create`): the requester becomes the owner,
   * whatever owner was submitted, and the name must be non-blank, at most
   * 200 characters and unused. The owner is not made a member.
   */
  function CreateTeam(db: TeamTables, requester: User, name: string, description: string, now: int)
    : (r: Result<TeamTables, CreateError>)
    ensures r.Failure? <==> |name| == 0 || NameTaken(db.teams, name) || |name| > MaxTeamNameLength
    ensures r.Failure? ==> (r.error == NameBlank <==> |name| == 0)
    ensures r.Failure? && |name| > 0 ==> (r.error == NameAlreadyUsed <==> NameTaken(db.teams, name))
    ensures r.Success? ==>
      && |r.value.teams| == |db.teams| + 1
      && r.value.teams[..|db.teams|] == db.teams
      && r.value.memberships == db.memberships
      && var t := r.value.teams[|db.teams|];
         t.owner == requester.id && t.name == name && t.description == description
         && t.id !in TeamIds(db.teams) && t.createdAt == now
    ensures r.Success? && Valid(db) ==> Valid(r.value)
  {
    if |name| == 0 then Failure(NameBlank)
    else if NameTaken(db.teams, name) then Failure(NameAlreadyUsed)
    else if |name| > MaxTeamNameLength then Failure(NameTooLong)
    else
      var t := Team(FreshTeamId(db.teams), name, description, requester.id, now);
      assert Valid(db) ==> Valid(db.(teams := db.teams + [t])) by {
        if Valid(db) {
          AppendTeamKeepsValid(db.teams, db.memberships, t);
        }
      }
      Success(db.(teams := db.teams + [t]))
  }
}
