/**
 * The team steps of the two database seeding commands: the superhero seed
 * (`create_superhero_teams`) and the sample seed (`create_teams`). The
 * random choices of the sample seed are inputs here; the user list is the
 * accounts the command created, in order.
 */
module Seed {
  import opened Common
  import opened Teams

  // ---------------------------------------------------------------------------
  // Teams
  // ---------------------------------------------------------------------------

  /** A team to seed: its name, owner and description (the `defaults` of `get_or_create`). */
  datatype TeamInfo = TeamInfo(name: string, owner: UserId, description: string)

  /** The team tables after one seeding step, the team fetched or created, and whether it was created. */
  datatype TeamStep = TeamStep(teams: seq<Team>, memberships: seq<Membership>, team: Team, created: bool)

  /** The membership rows inserted for `members` of team `team`, with matching `roles`. */
  function NewRows(team: nat, members: seq<UserId>, roles: seq<Role>, now: int): (rows: seq<Membership>)
    requires |roles| == |members|
    ensures |rows| == |members|
    ensures forall i :: 0 <= i < |rows| ==> rows[i] == Membership(team, members[i], roles[i], now)
  {
    if |members| == 0 then []
    else [Membership(team, members[0], roles[0], now)] + NewRows(team, members[1..], roles[1..], now)
  }

  /**
   * The membership loop of a seeding step: `get_or_create` of a membership
   * for each member in turn, with that member's role. Every member ends up a
   * member, no pair is inserted twice, existing rows are kept, and the rows
   * added belong to the team.
   */
  function AddMembers(ms: seq<Membership>, team: nat, members: seq<UserId>, roles: seq<Role>, now: int)
    : (r: seq<Membership>)
    requires |roles| == |members|
    ensures forall i :: 0 <= i < |members| ==> IsMember(r, team, members[i])
    ensures UniqueMemberships(ms) ==> UniqueMemberships(r)
    ensures |ms| <= |r| && r[..|ms|] == ms
    ensures forall k :: |ms| <= k < |r| ==> r[k].team == team
    decreases |members|
  {
    if |members| == 0 then ms
    else
      var ms1 := EnsureMembership(ms, team, members[0], roles[0], now);
      var r := AddMembers(ms1, team, members[1..], roles[1..], now);
      assert forall i :: 1 <= i < |members| ==> members[i] == members[1..][i - 1];
      assert IsMember(r, team, members[0]) by {
        var i :| 0 <= i < |ms1| && ms1[i].team == team && ms1[i].user == members[0];
        assert r[i] == ms1[i];
      }
      PrefixOfPrefix(r, ms1, ms);
      assert forall k :: |ms| <= k < |ms1| ==> ms1[k] == Membership(team, members[0], roles[0], now);
      r
  }

  /** A row for another user leaves a non-member a non-member. */
  lemma NotMemberAfterAppend(ms: seq<Membership>, row: Membership, team: nat, user: UserId)
    requires !IsMember(ms, team, user) && row.user != user
    ensures !IsMember(ms + [row], team, user)
  {
  }

  /** One step of the membership loop for a member who is not yet a member: the row is appended and the loop goes on with the others. */
  lemma AddMembersStep(ms: seq<Membership>, team: nat, members: seq<UserId>, roles: seq<Role>, now: int)
    requires |roles| == |members| && Distinct(members) && |members| > 0
    requires forall i :: 0 <= i < |members| ==> !IsMember(ms, team, members[i])
    ensures var ms1 := ms + [Membership(team, members[0], roles[0], now)];
      && AddMembers(ms, team, members, roles, now) == AddMembers(ms1, team, members[1..], roles[1..], now)
      && Distinct(members[1..])
      && (forall i :: 0 <= i < |members[1..]| ==> !IsMember(ms1, team, members[1..][i]))
  {
    var row := Membership(team, members[0], roles[0], now);
    var tail := members[1..];
    forall i | 0 <= i < |tail| ensures !IsMember(ms + [row], team, tail[i]) {
      assert tail[i] == members[i + 1];
      NotMemberAfterAppend(ms, row, team, tail[i]);
    }
    forall i, j | 0 <= i < j < |tail| ensures tail[i] != tail[j] {
      assert tail[i] == members[i + 1] && tail[j] == members[j + 1];
    }
  }

  /** When none of the distinct members was a member yet, exactly their rows are appended, in order. */
  lemma {:induction false} AddMembersAppendsRows(ms: seq<Membership>, team: nat, members: seq<UserId>, roles: seq<Role>, now: int)
    requires |roles| == |members| && Distinct(members)
    requires forall i :: 0 <= i < |members| ==> !IsMember(ms, team, members[i])
    ensures AddMembers(ms, team, members, roles, now) == ms + NewRows(team, members, roles, now)
    decreases |members|
  {
    if |members| == 0 {
      assert NewRows(team, members, roles, now) == [];
      assert ms + [] == ms;
    } else {
      var ms1 := ms + [Membership(team, members[0], roles[0], now)];
      var rest := NewRows(team, members[1..], roles[1..], now);
      assert AddMembers(ms, team, members, roles, now) == ms1 + rest by {
        AddMembersStep(ms, team, members, roles, now);
        AddMembersAppendsRows(ms1, team, members[1..], roles[1..], now);
      }
    }
  }

  /**
   * One team of a seeding command: the team is fetched by name or created
   * with the given owner and description, and its members are added only
   * when it was created.
   */
  function SeedTeam(teams: seq<Team>, ms: seq<Membership>, info: TeamInfo, members: seq<UserId>, roles: seq<Role>, now: int)
    : (r: TeamStep)
    requires |roles| == |members|
    ensures r.created <==> !NameTaken(teams, info.name)
    ensures r.team in r.teams && r.team.name == info.name
    ensures !r.created ==> r.teams == teams && r.memberships == ms
    ensures r.created ==>
      && r.teams == teams + [r.team]
      && r.team.id !in TeamIds(teams)
      && r.team.owner == info.owner && r.team.description == info.description
    ensures r.created && ValidTables(teams, ms) && Distinct(members) ==>
      r.memberships == ms + NewRows(r.team.id, members, roles, now)
    ensures ValidTables(teams, ms) ==> ValidTables(r.teams, r.memberships)
  {
    match FindTeamByName(teams, info.name)
    case Some(t) => TeamStep(teams, ms, t, false)
    case None =>
      var t := Team(FreshTeamId(teams), info.name, info.description, info.owner, now);
      var teams1 := teams + [t];
      var ms1 := AddMembers(ms, t.id, members, roles, now);
      assert t == teams1[|teams|];
      assert ValidTables(teams, ms) ==> ValidTables(teams1, ms1) by {
        if ValidTables(teams, ms) {
          AppendTeamKeepsValid(teams, ms, t);
          assert t.id in TeamIds(teams1);
          forall k | 0 <= k < |ms1| ensures ms1[k].team in TeamIds(teams1) {
            if k < |ms| {
              assert ms1[k] == ms[k];
            }
          }
        }
      }
      assert ValidTables(teams, ms) && Distinct(members) ==> ms1 == ms + NewRows(t.id, members, roles, now) by {
        if ValidTables(teams, ms) && Distinct(members) {
          assert forall i :: 0 <= i < |members| ==> !IsMember(ms, t.id, members[i]);
          AddMembersAppendsRows(ms, t.id, members, roles, now);
        }
      }
      TeamStep(teams1, ms1, t, true)
  }

  /** The account keys of `users`, in order. */
  function Ids(users: seq<User>): (ids: seq<UserId>)
    ensures |ids| == |users|
    ensures forall i :: 0 <= i < |users| ==> ids[i] == users[i].id
  {
    if |users| == 0 then [] else [users[0].id] + Ids(users[1..])
  }

  /** Why a seeding command stops: it indexes a user the command did not create. */
  datatype SeedError = TooFewUsers

  /** The superhero seed names `users[0]` and `users[4]` as owners, so it needs five accounts. */
  const SuperheroOwnerIndex: nat := 4

  /** The superhero seed's role rule: the owner is `Owner`, everybody else `Member`. */
  function SuperheroRoles(members: seq<UserId>, owner: UserId): (roles: seq<Role>)
    ensures |roles| == |members|
    ensures forall i :: 0 <= i < |members| ==> (roles[i] == Owner <==> members[i] == owner)
    ensures forall i :: 0 <= i < |members| ==> roles[i] != Admin
  {
    if |members| == 0 then []
    else [if members[0] == owner then Owner else Member] + SuperheroRoles(members[1..], owner)
  }

  /** The outcome of a team seed: the two tables and the teams in the order the command returns them. */
  datatype SeededTeams = SeededTeams(teams: seq<Team>, memberships: seq<Membership>, seeded: seq<Team>)

  /** A team to seed together with the members to add and their roles. */
  datatype TeamSeed = TeamSeed(info: TeamInfo, members: seq<UserId>, roles: seq<Role>)

  predicate WellFormedSeed(s: TeamSeed)
  {
    |s.roles| == |s.members|
  }

  /** "marvel", owned by `users[0]`, with `users[0:4]`; the owner's role is `Owner`, the others' `Member`. */
  function MarvelSeed(users: seq<User>): (s: TeamSeed)
    requires |users| > SuperheroOwnerIndex
    ensures WellFormedSeed(s) && s.info.name == "marvel" && s.info.owner == users[0].id
    ensures |s.members| == 4
    ensures forall i :: 0 <= i < 4 ==> s.members[i] == users[i].id
    ensures forall i :: 0 <= i < 4 ==> (s.roles[i] == Owner <==> users[i].id == users[0].id)
    ensures forall i :: 0 <= i < 4 ==> s.roles[i] != Admin
  {
    var ids := Ids(users);
    TeamSeed(TeamInfo("marvel", ids[0], "Marvel Universe Superheroes"), ids[..4], SuperheroRoles(ids[..4], ids[0]))
  }

  /** "dc", owned by `users[4]`, with `users[4:8]` (as many as exist); the owner's role is `Owner`, the others' `Member`. */
  function DcSeed(users: seq<User>): (s: TeamSeed)
    requires |users| > SuperheroOwnerIndex
    ensures WellFormedSeed(s) && s.info.name == "dc" && s.info.owner == users[4].id
    ensures |s.members| == (if |users| < 8 then |users| else 8) - 4
    ensures forall i :: 0 <= i < |s.members| ==> s.members[i] == users[4 + i].id
    ensures forall i :: 0 <= i < |s.members| ==> (s.roles[i] == Owner <==> users[4 + i].id == users[4].id)
    ensures forall i :: 0 <= i < |s.members| ==> s.roles[i] != Admin
  {
    var ids := Ids(users);
    var dc := ids[4..if |ids| < 8 then |ids| else 8];
    TeamSeed(TeamInfo("dc", ids[4], "DC Universe Superheroes"), dc, SuperheroRoles(dc, ids[4]))
  }

  /**
   * Two teams seeded in turn. When both names are free and the first team's
   * members are distinct, the first team is created with its owner, its
   * members are exactly the given ones, and each has the given role.
   */
  function SeedPair(teams: seq<Team>, ms: seq<Membership>, a: TeamSeed, b: TeamSeed, now: int): (r: SeededTeams)
    requires WellFormedSeed(a) && WellFormedSeed(b)
    ensures |r.seeded| == 2 && r.seeded[0].name == a.info.name && r.seeded[1].name == b.info.name
    ensures ValidTables(teams, ms) ==> ValidTables(r.teams, r.memberships)
    ensures ValidTables(teams, ms) && !NameTaken(teams, a.info.name) && !NameTaken(teams, b.info.name)
            && a.info.name != b.info.name && Distinct(a.members) ==>
      && r.seeded[0].owner == a.info.owner
      && (forall u :: IsMember(r.memberships, r.seeded[0].id, u) <==> u in a.members)
      && (forall i :: 0 <= i < |a.members| ==> RoleIn(r.memberships, r.seeded[0].id, a.members[i]) == Some(a.roles[i]))
    ensures ValidTables(teams, ms) && !NameTaken(teams, a.info.name) && !NameTaken(teams, b.info.name)
            && a.info.name != b.info.name && Distinct(b.members) ==>
      && r.seeded[1].owner == b.info.owner
      && (forall u :: IsMember(r.memberships, r.seeded[1].id, u) <==> u in b.members)
      && (forall i :: 0 <= i < |b.members| ==> RoleIn(r.memberships, r.seeded[1].id, b.members[i]) == Some(b.roles[i]))
  {
    var s1 := SeedTeam(teams, ms, a.info, a.members, a.roles, now);
    var s2 := SeedTeam(s1.teams, s1.memberships, b.info, b.members, b.roles, now);
    assert ValidTables(teams, ms) && !NameTaken(teams, a.info.name) && !NameTaken(teams, b.info.name)
           && a.info.name != b.info.name && Distinct(a.members) ==>
      && (forall u :: IsMember(s2.memberships, s1.team.id, u) <==> u in a.members)
      && (forall i :: 0 <= i < |a.members| ==> RoleIn(s2.memberships, s1.team.id, a.members[i]) == Some(a.roles[i])) by {
      if ValidTables(teams, ms) && !NameTaken(teams, a.info.name) && !NameTaken(teams, b.info.name)
         && a.info.name != b.info.name && Distinct(a.members) {
        SecondTeamKeepsFirst(teams, ms, a.info, a.members, a.roles, b.info, b.members, b.roles, now);
      }
    }
    assert ValidTables(teams, ms) && !NameTaken(teams, a.info.name) && !NameTaken(teams, b.info.name)
           && a.info.name != b.info.name && Distinct(b.members) ==>
      && (forall u :: IsMember(s2.memberships, s2.team.id, u) <==> u in b.members)
      && (forall i :: 0 <= i < |b.members| ==> RoleIn(s2.memberships, s2.team.id, b.members[i]) == Some(b.roles[i])) by {
      if ValidTables(teams, ms) && !NameTaken(teams, a.info.name) && !NameTaken(teams, b.info.name)
         && a.info.name != b.info.name && Distinct(b.members) {
        SecondTeamMembers(teams, ms, a.info, a.members, a.roles, b.info, b.members, b.roles, now);
      }
    }
    SeededTeams(s2.teams, s2.memberships, [s1.team, s2.team])
  }

  /**
   * `create_superhero_teams`: "marvel", owned by `users[0]`, gets
   * `users[0:4]`; "dc", owned by `users[4]`, gets `users[4:8]`. With fewer
   * than five accounts the owner lookup fails before anything is written.
   */
  function SeedSuperheroTeams(teams: seq<Team>, ms: seq<Membership>, users: seq<User>, now: int)
    : (r: Result<SeededTeams, SeedError>)
    ensures r.Failure? <==> |users| <= SuperheroOwnerIndex
    ensures r.Success? ==>
      |r.value.seeded| == 2 && r.value.seeded[0].name == "marvel" && r.value.seeded[1].name == "dc"
    ensures r.Success? && ValidTables(teams, ms) ==> ValidTables(r.value.teams, r.value.memberships)
  {
    if |users| <= SuperheroOwnerIndex then Failure(TooFewUsers)
    else Success(SeedPair(teams, ms, MarvelSeed(users), DcSeed(users), now))
  }

  /** Every account key occurs once. */
  predicate DistinctUsers(users: seq<User>)
  {
    forall i, j :: 0 <= i < j < |users| ==> users[i].id != users[j].id
  }

  /** The role the membership table records for `user` in `team`, if any. */
  function RoleIn(ms: seq<Membership>, team: nat, user: UserId): (r: Option<Role>)
    ensures r.Some? <==> IsMember(ms, team, user)
  {
    if |ms| == 0 then None
    else if ms[0].team == team && ms[0].user == user then Some(ms[0].role)
    else
      assert IsMember(ms, team, user) <==> IsMember(ms[1..], team, user) by {
        if IsMember(ms, team, user) {
          var k :| 0 <= k < |ms| && ms[k].team == team && ms[k].user == user;
          assert ms[1..][k - 1] == ms[k];
        }
        if IsMember(ms[1..], team, user) {
          var k :| 0 <= k < |ms[1..]| && ms[1..][k].team == team && ms[1..][k].user == user;
          assert ms[k + 1] == ms[1..][k];
        }
      }
      RoleIn(ms[1..], team, user)
  }

  /** Rows of other teams in front of `more` do not change the role recorded in `team`. */
  lemma {:induction false} RoleInAfterOthers(ms: seq<Membership>, more: seq<Membership>, team: nat, user: UserId)
    requires forall k :: 0 <= k < |ms| ==> ms[k].team != team
    ensures RoleIn(ms + more, team, user) == RoleIn(more, team, user)
    decreases |ms|
  {
    if |ms| == 0 {
      assert ms + more == more;
    } else {
      assert (ms + more)[0] == ms[0] && (ms + more)[1..] == ms[1..] + more;
      RoleInAfterOthers(ms[1..], more, team, user);
    }
  }

  /** In the rows written for distinct members, each member's recorded role is the one given for it. */
  lemma {:induction false} RoleInRows(team: nat, members: seq<UserId>, roles: seq<Role>, now: int, i: nat)
    requires |roles| == |members| && Distinct(members) && i < |members|
    ensures RoleIn(NewRows(team, members, roles, now), team, members[i]) == Some(roles[i])
    decreases i
  {
    if i > 0 {
      var rows := NewRows(team, members, roles, now);
      var rest := NewRows(team, members[1..], roles[1..], now);
      assert rows[1..] == rest;
      assert members[0] != members[i];
      assert members[1..][i - 1] == members[i] && roles[1..][i - 1] == roles[i];
      RoleInRows(team, members[1..], roles[1..], now, i - 1);
    }
  }

  /** The role recorded for a member among freshly appended rows of a new team. */
  lemma RoleInNewRows(ms: seq<Membership>, team: nat, members: seq<UserId>, roles: seq<Role>, now: int, i: nat)
    requires |roles| == |members| && Distinct(members) && i < |members|
    requires forall k :: 0 <= k < |ms| ==> ms[k].team != team
    ensures RoleIn(ms + NewRows(team, members, roles, now), team, members[i]) == Some(roles[i])
  {
    RoleInAfterOthers(ms, NewRows(team, members, roles, now), team, members[i]);
    RoleInRows(team, members, roles, now, i);
  }

  /** Rows appended after a member's row do not change the role recorded for that member. */
  lemma {:induction false} RoleInAppend(ms: seq<Membership>, more: seq<Membership>, team: nat, user: UserId)
    requires IsMember(ms, team, user)
    ensures RoleIn(ms + more, team, user) == RoleIn(ms, team, user)
    decreases |ms|
  {
    if !(ms[0].team == team && ms[0].user == user) {
      assert (ms + more)[1..] == ms[1..] + more;
      RoleInAppend(ms[1..], more, team, user);
    }
  }

  /** Rows of other teams appended to the table do not change who is a member of `team`. */
  lemma IsMemberAppendOther(ms: seq<Membership>, more: seq<Membership>, team: nat, user: UserId)
    requires forall k :: 0 <= k < |more| ==> more[k].team != team
    ensures IsMember(ms + more, team, user) <==> IsMember(ms, team, user)
  {
    if IsMember(ms + more, team, user) {
      var k :| 0 <= k < |ms + more| && (ms + more)[k].team == team && (ms + more)[k].user == user;
    }
    if IsMember(ms, team, user) {
      var k :| 0 <= k < |ms| && ms[k].team == team && ms[k].user == user;
      assert (ms + more)[k] == ms[k];
    }
  }

  /**
   * Seeding a team whose name is free into valid tables, with distinct
   * members: its members are exactly the given ones, each with the given role.
   */
  lemma SeedNewTeamMembers(teams: seq<Team>, ms: seq<Membership>, info: TeamInfo, members: seq<UserId>, roles: seq<Role>, now: int)
    requires |roles| == |members| && Distinct(members)
    requires ValidTables(teams, ms) && !NameTaken(teams, info.name)
    ensures var r := SeedTeam(teams, ms, info, members, roles, now);
      && (forall u :: IsMember(r.memberships, r.team.id, u) <==> u in members)
      && (forall i :: 0 <= i < |members| ==> RoleIn(r.memberships, r.team.id, members[i]) == Some(roles[i]))
  {
    var r := SeedTeam(teams, ms, info, members, roles, now);
    var id := r.team.id;
    var rows := NewRows(id, members, roles, now);
    assert forall k :: 0 <= k < |ms| ==> ms[k].team != id by {
      forall k | 0 <= k < |ms| ensures ms[k].team != id {
        assert ms[k].team in TeamIds(teams);
      }
    }
    forall u ensures IsMember(r.memberships, id, u) <==> u in members {
      if IsMember(r.memberships, id, u) {
        var k :| 0 <= k < |r.memberships| && r.memberships[k].team == id && r.memberships[k].user == u;
        assert k >= |ms|;
        assert rows[k - |ms|] == r.memberships[k];
      }
      if u in members {
        var i :| 0 <= i < |members| && members[i] == u;
        assert r.memberships[|ms| + i] == rows[i];
      }
    }
    forall i | 0 <= i < |members| ensures RoleIn(r.memberships, id, members[i]) == Some(roles[i]) {
      RoleInNewRows(ms, id, members, roles, now, i);
    }
  }

  /** A seeding step keeps the stored rows and appends only rows of the team it returns. */
  lemma SeedTeamAppendsOwnRows(teams: seq<Team>, ms: seq<Membership>, info: TeamInfo, members: seq<UserId>, roles: seq<Role>, now: int)
    requires |roles| == |members|
    ensures var r := SeedTeam(teams, ms, info, members, roles, now);
      && |ms| <= |r.memberships| && r.memberships == ms + r.memberships[|ms|..]
      && forall k :: |ms| <= k < |r.memberships| ==> r.memberships[k].team == r.team.id
  {
    var r := SeedTeam(teams, ms, info, members, roles, now);
    if r.created {
      assert r.memberships == AddMembers(ms, r.team.id, members, roles, now);
    }
    assert r.memberships[..|ms|] == ms;
  }

  /**
   * Seeding a second team after a first one, both with free names, leaves the
   * first team's members and their roles as the first step wrote them.
   */
  lemma SecondTeamKeepsFirst(teams: seq<Team>, ms: seq<Membership>, infoA: TeamInfo, membersA: seq<UserId>, rolesA: seq<Role>,
                             infoB: TeamInfo, membersB: seq<UserId>, rolesB: seq<Role>, now: int)
    requires |rolesA| == |membersA| && Distinct(membersA) && |rolesB| == |membersB|
    requires ValidTables(teams, ms) && !NameTaken(teams, infoA.name) && !NameTaken(teams, infoB.name)
    requires infoA.name != infoB.name
    ensures var s1 := SeedTeam(teams, ms, infoA, membersA, rolesA, now);
      var s2 := SeedTeam(s1.teams, s1.memberships, infoB, membersB, rolesB, now);
      && (forall u :: IsMember(s2.memberships, s1.team.id, u) <==> u in membersA)
      && (forall i :: 0 <= i < |membersA| ==> RoleIn(s2.memberships, s1.team.id, membersA[i]) == Some(rolesA[i]))
  {
    var s1 := SeedTeam(teams, ms, infoA, membersA, rolesA, now);
    SeedNewTeamMembers(teams, ms, infoA, membersA, rolesA, now);
    assert forall k :: 0 <= k < |teams| ==> s1.teams[k] == teams[k];
    assert !NameTaken(s1.teams, infoB.name);
    var s2 := SeedTeam(s1.teams, s1.memberships, infoB, membersB, rolesB, now);
    var id := s1.team.id;
    assert id in TeamIds(s1.teams) by {
      var k :| 0 <= k < |s1.teams| && s1.teams[k] == s1.team;
    }
    SeedTeamAppendsOwnRows(s1.teams, s1.memberships, infoB, membersB, rolesB, now);
    var more := s2.memberships[|s1.memberships|..];
    assert forall k :: 0 <= k < |more| ==> more[k].team != id by {
      forall k | 0 <= k < |more| ensures more[k].team != id {
        assert more[k] == s2.memberships[|s1.memberships| + k];
      }
    }
    OtherRowsKeepTeam(s1.memberships, more, id, membersA, rolesA);
  }

  /** Rows of other teams appended to the table change neither the members nor the roles of `team`. */
  lemma OtherRowsKeepTeam(ms: seq<Membership>, more: seq<Membership>, team: nat, members: seq<UserId>, roles: seq<Role>)
    requires |roles| == |members|
    requires forall k :: 0 <= k < |more| ==> more[k].team != team
    requires forall u :: IsMember(ms, team, u) <==> u in members
    requires forall i :: 0 <= i < |members| ==> RoleIn(ms, team, members[i]) == Some(roles[i])
    ensures forall u :: IsMember(ms + more, team, u) <==> u in members
    ensures forall i :: 0 <= i < |members| ==> RoleIn(ms + more, team, members[i]) == Some(roles[i])
  {
    forall u ensures IsMember(ms + more, team, u) <==> u in members {
      IsMemberAppendOther(ms, more, team, u);
    }
    forall i | 0 <= i < |members| ensures RoleIn(ms + more, team, members[i]) == Some(roles[i]) {
      RoleInAppend(ms, more, team, members[i]);
    }
  }

  /**
   * Of two teams seeded in turn into valid tables that hold neither name,
   * the second one's members are exactly its given ones, each with its
   * given role.
   */
  lemma SecondTeamMembers(teams: seq<Team>, ms: seq<Membership>, infoA: TeamInfo, membersA: seq<UserId>, rolesA: seq<Role>,
                          infoB: TeamInfo, membersB: seq<UserId>, rolesB: seq<Role>, now: int)
    requires |rolesA| == |membersA| && |rolesB| == |membersB| && Distinct(membersB)
    requires ValidTables(teams, ms) && !NameTaken(teams, infoA.name) && !NameTaken(teams, infoB.name)
    requires infoA.name != infoB.name
    ensures var s1 := SeedTeam(teams, ms, infoA, membersA, rolesA, now);
      var s2 := SeedTeam(s1.teams, s1.memberships, infoB, membersB, rolesB, now);
      && (forall u :: IsMember(s2.memberships, s2.team.id, u) <==> u in membersB)
      && (forall i :: 0 <= i < |membersB| ==> RoleIn(s2.memberships, s2.team.id, membersB[i]) == Some(rolesB[i]))
  {
    var s1 := SeedTeam(teams, ms, infoA, membersA, rolesA, now);
    assert forall k :: 0 <= k < |teams| ==> s1.teams[k] == teams[k];
    assert !NameTaken(s1.teams, infoB.name);
    SeedNewTeamMembers(s1.teams, s1.memberships, infoB, membersB, rolesB, now);
  }

  /**
   * Seeding the superhero teams into valid tables that hold neither name:
   * "marvel" is owned by the first account and its members are exactly the
   * first four accounts; "dc" is owned by the fifth account and its members
   * are exactly the fifth to the eighth (as many as exist). In each team the
   * owner's role is `Owner` and every other member's `Member`.
   */
  lemma SuperheroTeamsLayout(teams: seq<Team>, ms: seq<Membership>, users: seq<User>, now: int)
    requires ValidTables(teams, ms) && DistinctUsers(users) && |users| > SuperheroOwnerIndex
    requires !NameTaken(teams, "marvel") && !NameTaken(teams, "dc")
    ensures var r := SeedSuperheroTeams(teams, ms, users, now).value;
      var marvel := r.seeded[0];
      && marvel.owner == users[0].id
      && (forall u :: IsMember(r.memberships, marvel.id, u) <==> exists i :: 0 <= i < 4 && users[i].id == u)
      && (forall i :: 0 <= i < 4 ==> RoleIn(r.memberships, marvel.id, users[i].id) == Some(if i == 0 then Owner else Member))
    ensures var r := SeedSuperheroTeams(teams, ms, users, now).value;
      var dc := r.seeded[1];
      var end := if |users| < 8 then |users| else 8;
      && dc.owner == users[4].id
      && (forall u :: IsMember(r.memberships, dc.id, u) <==> exists i :: 4 <= i < end && users[i].id == u)
      && (forall i :: 4 <= i < end ==> RoleIn(r.memberships, dc.id, users[i].id) == Some(if i == 4 then Owner else Member))
  {
    MarvelLayout(teams, ms, users, now);
    DcLayout(teams, ms, users, now);
  }

  /** The "marvel" half of the superhero layout. */
  lemma MarvelLayout(teams: seq<Team>, ms: seq<Membership>, users: seq<User>, now: int)
    requires ValidTables(teams, ms) && DistinctUsers(users) && |users| > SuperheroOwnerIndex
    requires !NameTaken(teams, "marvel") && !NameTaken(teams, "dc")
    ensures var r := SeedSuperheroTeams(teams, ms, users, now).value;
      var marvel := r.seeded[0];
      && marvel.owner == users[0].id
      && (forall u :: IsMember(r.memberships, marvel.id, u) <==> exists i :: 0 <= i < 4 && users[i].id == u)
      && (forall i :: 0 <= i < 4 ==> RoleIn(r.memberships, marvel.id, users[i].id) == Some(if i == 0 then Owner else Member))
  {
    MarvelSeedFacts(users);
  }

  /** The "dc" half of the superhero layout. */
  lemma DcLayout(teams: seq<Team>, ms: seq<Membership>, users: seq<User>, now: int)
    requires ValidTables(teams, ms) && DistinctUsers(users) && |users| > SuperheroOwnerIndex
    requires !NameTaken(teams, "marvel") && !NameTaken(teams, "dc")
    ensures var r := SeedSuperheroTeams(teams, ms, users, now).value;
      var dc := r.seeded[1];
      var end := if |users| < 8 then |users| else 8;
      && dc.owner == users[4].id
      && (forall u :: IsMember(r.memberships, dc.id, u) <==> exists i :: 4 <= i < end && users[i].id == u)
      && (forall i :: 4 <= i < end ==> RoleIn(r.memberships, dc.id, users[i].id) == Some(if i == 4 then Owner else Member))
  {
    DcSeedFacts(users);
    var d := DcSeed(users);
    var end := if |users| < 8 then |users| else 8;
    assert forall i :: 4 <= i < end ==> d.members[i - 4] == users[i].id;
  }

  /** The dc seed's members are the fifth to the eighth accounts (as many as exist), distinct, with the fifth as `Owner`. */
  lemma DcSeedFacts(users: seq<User>)
    requires DistinctUsers(users) && |users| > SuperheroOwnerIndex
    ensures var d := DcSeed(users);
      var end := if |users| < 8 then |users| else 8;
      && Distinct(d.members)
      && (forall u :: u in d.members <==> exists i :: 4 <= i < end && users[i].id == u)
      && (forall i :: 0 <= i < |d.members| ==> d.roles[i] == (if i == 0 then Owner else Member))
  {
    var d := DcSeed(users);
    var end := if |users| < 8 then |users| else 8;
    forall i, j | 0 <= i < j < |d.members| ensures d.members[i] != d.members[j] {
      assert d.members[i] == users[4 + i].id && d.members[j] == users[4 + j].id;
    }
    forall u ensures u in d.members <==> exists i :: 4 <= i < end && users[i].id == u {
      if exists i :: 4 <= i < end && users[i].id == u {
        var i :| 4 <= i < end && users[i].id == u;
        assert d.members[i - 4] == u;
      }
    }
    forall i | 0 <= i < |d.members| ensures d.roles[i] == (if i == 0 then Owner else Member) {
      assert (users[4 + i].id == users[4].id) <==> i == 0;
    }
  }

  /** The marvel seed's members are the first four accounts, distinct, with the first as `Owner`. */
  lemma MarvelSeedFacts(users: seq<User>)
    requires DistinctUsers(users) && |users| > SuperheroOwnerIndex
    ensures var m := MarvelSeed(users);
      && Distinct(m.members)
      && (forall u :: u in m.members <==> exists i :: 0 <= i < 4 && users[i].id == u)
      && (forall i :: 0 <= i < 4 ==> m.roles[i] == (if i == 0 then Owner else Member))
      && (forall i :: 0 <= i < 4 ==> m.members[i] == users[i].id)
  {
    var m := MarvelSeed(users);
    forall i, j | 0 <= i < j < 4 ensures m.members[i] != m.members[j] {
      assert m.members[i] == users[i].id && m.members[j] == users[j].id;
    }
    forall u ensures u in m.members <==> exists i :: 0 <= i < 4 && users[i].id == u {
      if exists i :: 0 <= i < 4 && users[i].id == u {
        var i :| 0 <= i < 4 && users[i].id == u;
        assert m.members[i] == u;
      }
    }
    forall i | 0 <= i < 4 ensures m.roles[i] == (if i == 0 then Owner else Member) {
      assert (users[i].id == users[0].id) <==> i == 0;
    }
  }

  /**
   * The sample seed's random choices for one team: which accounts (distinct
   * positions in the user list, two to four of them), and for each the role
   * drawn from admin and member, used unless the account owns the team.
   */
  datatype Draw = Draw(picks: seq<nat>, drawnRoles: seq<Role>)

  predicate ValidDraw(d: Draw, userCount: nat)
  {
    && 2 <= |d.picks| <= 4
    && |d.drawnRoles| == |d.picks|
    && Distinct(d.picks)
    && (forall i :: 0 <= i < |d.picks| ==> d.picks[i] < userCount)
    && (forall i :: 0 <= i < |d.drawnRoles| ==> d.drawnRoles[i] != Owner)
  }

  /** The sample seed's role rule: the owner is `Owner`, everybody else gets the drawn role. */
  function SampledRoles(members: seq<UserId>, drawn: seq<Role>, owner: UserId): (roles: seq<Role>)
    requires |drawn| == |members|
    ensures |roles| == |members|
    ensures forall i :: 0 <= i < |members| ==> roles[i] == (if members[i] == owner then Owner else drawn[i])
  {
    if |members| == 0 then []
    else [if members[0] == owner then Owner else drawn[0]] + SampledRoles(members[1..], drawn[1..], owner)
  }

  /** The picked accounts' keys. */
  function Picked(users: seq<User>, picks: seq<nat>): (r: seq<UserId>)
    requires forall i :: 0 <= i < |picks| ==> picks[i] < |users|
    ensures |r| == |picks|
    ensures forall i :: 0 <= i < |picks| ==> r[i] == users[picks[i]].id
  {
    if |picks| == 0 then [] else [users[picks[0]].id] + Picked(users, picks[1..])
  }

  /** The membership rows a draw gives a newly created team: one per picked account, in sample order. */
  function DrawRows(team: nat, users: seq<User>, owner: UserId, d: Draw, now: int): (rows: seq<Membership>)
    requires ValidDraw(d, |users|)
    ensures |rows| == |d.picks|
    ensures forall k :: 0 <= k < |rows| ==>
      && rows[k].team == team && rows[k].user == users[d.picks[k]].id && rows[k].joinedAt == now
      && rows[k].role == (if rows[k].user == owner then Owner else d.drawnRoles[k])
  {
    var members := Picked(users, d.picks);
    NewRows(team, members, SampledRoles(members, d.drawnRoles, owner), now)
  }

  /** One team of the sample seed, with its draw. */
  function SeedSampledTeam(teams: seq<Team>, ms: seq<Membership>, users: seq<User>, info: TeamInfo, d: Draw, now: int)
    : (r: TeamStep)
    requires ValidDraw(d, |users|)
    ensures ValidTables(teams, ms) ==> ValidTables(r.teams, r.memberships)
    ensures r.created <==> !NameTaken(teams, info.name)
    ensures r.team.name == info.name
    ensures !r.created ==> r.teams == teams && r.memberships == ms
    ensures r.created ==> r.teams == teams + [r.team] && r.team.owner == info.owner && r.team.id !in TeamIds(teams)
    ensures r.created && ValidTables(teams, ms) && DistinctUsers(users) ==>
      r.memberships == ms + DrawRows(r.team.id, users, info.owner, d, now)
    ensures r.created && ValidTables(teams, ms) && DistinctUsers(users) ==>
      && |r.memberships| == |ms| + |d.picks|
      && |r.memberships| - |ms| <= 4
      && (forall k :: |ms| <= k < |r.memberships| ==>
           var m := r.memberships[k];
           && m.team == r.team.id
           && m.user == users[d.picks[k - |ms|]].id
           && (m.role == Owner <==> m.user == r.team.owner))
  {
    var members := Picked(users, d.picks);
    assert DistinctUsers(users) ==> Distinct(members) by {
      if DistinctUsers(users) {
        forall i, j | 0 <= i < j < |members| ensures members[i] != members[j] {
          assert d.picks[i] != d.picks[j];
        }
      }
    }
    var roles := SampledRoles(members, d.drawnRoles, info.owner);
    SeedTeam(teams, ms, info, members, roles, now)
  }

  /**
   * `create_teams`: "Morning Runners" owned by `users[0]`, "Cycling Club" by
   * `users[1]`, "Fitness Warriors" by `users[4]`, each with its own draw.
   * With fewer than five accounts the owner lookup fails before anything is
   * written.
   */
  function SeedSampledTeams(teams: seq<Team>, ms: seq<Membership>, users: seq<User>, draws: seq<Draw>, now: int)
    : (r: Result<SeededTeams, SeedError>)
    requires |draws| == 3
    requires |users| > SuperheroOwnerIndex ==> forall i :: 0 <= i < 3 ==> ValidDraw(draws[i], |users|)
    ensures r.Failure? <==> |users| <= SuperheroOwnerIndex
    ensures r.Success? ==>
      && |r.value.seeded| == 3
      && r.value.seeded[0].name == "Morning Runners"
      && r.value.seeded[1].name == "Cycling Club"
      && r.value.seeded[2].name == "Fitness Warriors"
    ensures r.Success? && ValidTables(teams, ms) ==> ValidTables(r.value.teams, r.value.memberships)
  {
    if |users| <= SuperheroOwnerIndex then Failure(TooFewUsers)
    else
      var i1 := TeamInfo("Morning Runners", users[0].id, "Early birds who love running");
      var i2 := TeamInfo("Cycling Club", users[1].id, "Passionate cyclists");
      var i3 := TeamInfo("Fitness Warriors", users[4].id, "Strength and fitness enthusiasts");
      var s1 := SeedSampledTeam(teams, ms, users, i1, draws[0], now);
      var s2 := SeedSampledTeam(s1.teams, s1.memberships, users, i2, draws[1], now);
      var s3 := SeedSampledTeam(s2.teams, s2.memberships, users, i3, draws[2], now);
      Success(SeededTeams(s3.teams, s3.memberships, [s1.team, s2.team, s3.team]))
  }

  /**
   * `create_teams` into valid tables that hold none of the three names: the
   * teams are appended in order, owned by `users[0]`, `users[1]` and
   * `users[4]`, and the memberships gain exactly each team's drawn rows,
   * team by team.
   */
  lemma SampledTeamsRows(teams: seq<Team>, ms: seq<Membership>, users: seq<User>, draws: seq<Draw>, now: int)
    requires |draws| == 3 && |users| > SuperheroOwnerIndex && forall i :: 0 <= i < 3 ==> ValidDraw(draws[i], |users|)
    requires ValidTables(teams, ms) && DistinctUsers(users)
    requires !NameTaken(teams, "Morning Runners") && !NameTaken(teams, "Cycling Club") && !NameTaken(teams, "Fitness Warriors")
    ensures var r := SeedSampledTeams(teams, ms, users, draws, now).value;
      var t := r.seeded;
      && t[0].owner == users[0].id && t[1].owner == users[1].id && t[2].owner == users[4].id
      && r.teams == teams + t
      && r.memberships == ms + DrawRows(t[0].id, users, users[0].id, draws[0], now)
                             + DrawRows(t[1].id, users, users[1].id, draws[1], now)
                             + DrawRows(t[2].id, users, users[4].id, draws[2], now)
  {
    SampledStepsRows(teams, ms, users,
                     TeamInfo("Morning Runners", users[0].id, "Early birds who love running"),
                     TeamInfo("Cycling Club", users[1].id, "Passionate cyclists"),
                     TeamInfo("Fitness Warriors", users[4].id, "Strength and fitness enthusiasts"),
                     draws, now);
  }

  /** Three sample-seed steps with free, different names create their teams in turn, each with its drawn rows. */
  lemma SampledStepsRows(teams: seq<Team>, ms: seq<Membership>, users: seq<User>, i1: TeamInfo, i2: TeamInfo, i3: TeamInfo,
                         draws: seq<Draw>, now: int)
    requires |draws| == 3 && forall i :: 0 <= i < 3 ==> ValidDraw(draws[i], |users|)
    requires ValidTables(teams, ms) && DistinctUsers(users)
    requires !NameTaken(teams, i1.name) && !NameTaken(teams, i2.name) && !NameTaken(teams, i3.name)
    requires i1.name != i2.name && i1.name != i3.name && i2.name != i3.name
    ensures var s1 := SeedSampledTeam(teams, ms, users, i1, draws[0], now);
      var s2 := SeedSampledTeam(s1.teams, s1.memberships, users, i2, draws[1], now);
      var s3 := SeedSampledTeam(s2.teams, s2.memberships, users, i3, draws[2], now);
      && s3.teams == teams + [s1.team, s2.team, s3.team]
      && s3.memberships == ms + DrawRows(s1.team.id, users, i1.owner, draws[0], now)
                              + DrawRows(s2.team.id, users, i2.owner, draws[1], now)
                              + DrawRows(s3.team.id, users, i3.owner, draws[2], now)
      && s1.team.owner == i1.owner && s2.team.owner == i2.owner && s3.team.owner == i3.owner
  {
    var s1 := SeedSampledTeam(teams, ms, users, i1, draws[0], now);
    var r1 := DrawRows(s1.team.id, users, i1.owner, draws[0], now);
    assert s1.created && s1.teams == teams + [s1.team] && s1.memberships == ms + r1;
    NameStillFree(teams, s1.team, i2.name);
    NameStillFree(teams, s1.team, i3.name);
    var s2 := SeedSampledTeam(s1.teams, s1.memberships, users, i2, draws[1], now);
    var r2 := DrawRows(s2.team.id, users, i2.owner, draws[1], now);
    assert s2.created && s2.teams == s1.teams + [s2.team] && s2.memberships == s1.memberships + r2;
    NameStillFree(s1.teams, s2.team, i3.name);
    var s3 := SeedSampledTeam(s2.teams, s2.memberships, users, i3, draws[2], now);
    var r3 := DrawRows(s3.team.id, users, i3.owner, draws[2], now);
    assert s3.created && s3.teams == s2.teams + [s3.team] && s3.memberships == s2.memberships + r3;
    AppendThree(teams, s1.team, s2.team, s3.team);
  }

  /** Appending a team with another name leaves a free name free. */
  lemma NameStillFree(teams: seq<Team>, t: Team, name: string)
    requires !NameTaken(teams, name) && t.name != name
    ensures !NameTaken(teams + [t], name)
  {
    assert forall k :: 0 <= k < |teams| ==> (teams + [t])[k] == teams[k];
  }

  /** Re-running a team step on its own result creates nothing and adds no member: the seed is idempotent per team. */
  lemma SeedTeamRerun(teams: seq<Team>, ms: seq<Membership>, info: TeamInfo, members: seq<UserId>, roles: seq<Role>, now: int, later: int)
    requires |roles| == |members|
    ensures var once := SeedTeam(teams, ms, info, members, roles, now);
      var twice := SeedTeam(once.teams, once.memberships, info, members, roles, later);
      !twice.created && twice.teams == once.teams && twice.memberships == once.memberships
  {
    var once := SeedTeam(teams, ms, info, members, roles, now);
    var k :| 0 <= k < |once.teams| && once.teams[k] == once.team;
  }
}
