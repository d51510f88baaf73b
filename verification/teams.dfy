/**
 * Teams and their memberships (teams/models.py): the role choices, the
 * uniqueness constraints of the two tables, the member count, and the
 * default listing orders. The two tables are kept as sequences in the
 * order their rows were inserted.
 */
module Teams {
  import opened Common

  /** A member's role in a team; a membership is `Member` unless told otherwise. */
  datatype Role = Owner | Admin | Member

  const DefaultRole: Role := Member

  function RoleName(r: Role): string
  {
    match r
    case Owner => "owner"
    case Admin => "admin"
    case Member => "member"
  }

  function ParseRole(s: string): (r: Option<Role>)
    ensures r.Some? ==> RoleName(r.value) == s
  {
    if s == "owner" then Some(Owner)
    else if s == "admin" then Some(Admin)
    else if s == "member" then Some(Member)
    else None
  }

  /** Every role is read back from its stored value, and exactly the three listed strings are roles. */
  lemma RoleRoundTrip(r: Role, s: string)
    ensures ParseRole(RoleName(r)) == Some(r)
    ensures ParseRole(s).Some? <==> s in ["owner", "admin", "member"]
    ensures RoleName(DefaultRole) == "member"
  {
  }

  datatype Team = Team(id: nat, name: string, description: string, owner: UserId, createdAt: int)

  /** A row of the membership table: `user` belongs to `team` with `role`, since `joinedAt`. */
  datatype Membership = Membership(team: nat, user: UserId, role: Role, joinedAt: int)

  const MaxTeamNameLength := 200

  /** The keys of the stored teams. */
  function TeamIds(teams: seq<Team>): set<nat>
  {
    set i | 0 <= i < |teams| :: teams[i].id
  }

  /** Whether some stored team already carries `name`. */
  predicate NameTaken(teams: seq<Team>, name: string)
  {
    exists i :: 0 <= i < |teams| && teams[i].name == name
  }

  /** The uniqueness constraints of the team table: its key and its name. */
  predicate UniqueTeams(teams: seq<Team>)
  {
    forall i, j :: 0 <= i < j < |teams| ==> teams[i].id != teams[j].id && teams[i].name != teams[j].name
  }

  /** Whether `user` is a member of team `team`. */
  predicate IsMember(ms: seq<Membership>, team: nat, user: UserId)
  {
    exists i :: 0 <= i < |ms| && ms[i].team == team && ms[i].user == user
  }

  /** The `(team, user)` uniqueness constraint of the membership table. */
  predicate UniqueMemberships(ms: seq<Membership>)
  {
    forall i, j :: 0 <= i < j < |ms| ==> ms[i].team != ms[j].team || ms[i].user != ms[j].user
  }

  /** The constraints the team tables keep: unique teams, unique memberships, and memberships of stored teams only. */
  predicate ValidTables(teams: seq<Team>, ms: seq<Membership>)
  {
    && UniqueTeams(teams)
    && UniqueMemberships(ms)
    && forall i :: 0 <= i < |ms| ==> ms[i].team in TeamIds(teams)
  }

  /** The members of team `team`, in the order they joined. */
  function MembersOf(ms: seq<Membership>, team: nat): (r: seq<UserId>)
    ensures forall u :: u in r <==> IsMember(ms, team, u)
    ensures UniqueMemberships(ms) ==> Distinct(r)
  {
    if |ms| == 0 then []
    else
      var rest := MembersOf(ms[1..], team);
      assert forall u :: IsMember(ms, team, u) <==>
          (ms[0].team == team && ms[0].user == u) || IsMember(ms[1..], team, u) by {
        forall u ensures IsMember(ms, team, u) ==> (ms[0].team == team && ms[0].user == u) || IsMember(ms[1..], team, u) {
          if IsMember(ms, team, u) {
            var i :| 0 <= i < |ms| && ms[i].team == team && ms[i].user == u;
            if i > 0 { assert ms[1..][i - 1] == ms[i]; }
          }
        }
        forall u ensures IsMember(ms[1..], team, u) ==> IsMember(ms, team, u) {
          if IsMember(ms[1..], team, u) {
            var i :| 0 <= i < |ms[1..]| && ms[1..][i].team == team && ms[1..][i].user == u;
            assert ms[i + 1] == ms[1..][i];
          }
        }
      }
      assert UniqueMemberships(ms) ==> UniqueMemberships(ms[1..]) && !IsMember(ms[1..], ms[0].team, ms[0].user) by {
        if UniqueMemberships(ms) {
          forall i, j | 0 <= i < j < |ms[1..]| ensures ms[1..][i].team != ms[1..][j].team || ms[1..][i].user != ms[1..][j].user {
            assert ms[1..][i] == ms[i + 1] && ms[1..][j] == ms[j + 1];
          }
          forall i | 0 <= i < |ms[1..]| ensures ms[1..][i].team != ms[0].team || ms[1..][i].user != ms[0].user {
            assert ms[1..][i] == ms[i + 1];
          }
        }
      }
      if ms[0].team == team then
        var r := [ms[0].user] + rest;
        assert forall k :: 0 < k < |r| ==> r[k] == rest[k - 1];
        r
      else rest
  }

  /** The `member_count` property: how many memberships team `team` has. */
  function MemberCount(ms: seq<Membership>, team: nat): (n: nat)
    ensures n <= |ms|
    ensures n == 0 <==> forall u :: !IsMember(ms, team, u)
  {
    var n := Count(ms, (m: Membership) => m.team == team);
    assert n == 0 ==> forall u :: !IsMember(ms, team, u);
    assert n != 0 ==> IsMember(ms, team, ms[FirstOfTeam(ms, team)].user);
    n
  }

  /** The position of some membership of `team`, when its count is positive. */
  function FirstOfTeam(ms: seq<Membership>, team: nat): (k: nat)
    requires Count(ms, (m: Membership) => m.team == team) != 0
    ensures k < |ms| && ms[k].team == team
  {
    if ms[0].team == team then 0
    else
      assert Count(ms, (m: Membership) => m.team == team) == Count(ms[1..], (m: Membership) => m.team == team);
      FirstOfTeam(ms[1..], team) + 1
  }

  /** The member count is the number of members listed for the team. */
  lemma {:induction false} MemberCountIsMembersLength(ms: seq<Membership>, team: nat)
    ensures MemberCount(ms, team) == |MembersOf(ms, team)|
  {
    if |ms| > 0 {
      MemberCountIsMembersLength(ms[1..], team);
    }
  }

  /** `get_or_create` of a membership: an existing `(team, user)` row is left alone, role included. */
  function EnsureMembership(ms: seq<Membership>, team: nat, user: UserId, role: Role, now: int): (r: seq<Membership>)
    ensures IsMember(r, team, user)
    ensures IsMember(ms, team, user) ==> r == ms
    ensures !IsMember(ms, team, user) ==> r == ms + [Membership(team, user, role, now)]
    ensures UniqueMemberships(ms) ==> UniqueMemberships(r)
  {
    if IsMember(ms, team, user) then ms
    else
      var r := ms + [Membership(team, user, role, now)];
      assert r[|ms|].team == team && r[|ms|].user == user;
      r
  }

  /** Adding a membership of a new member raises that team's count by one and leaves other teams' counts alone. */
  lemma MemberCountAfterEnsure(ms: seq<Membership>, team: nat, user: UserId, role: Role, now: int, other: nat)
    requires !IsMember(ms, team, user)
    ensures MemberCount(EnsureMembership(ms, team, user, role, now), team) == MemberCount(ms, team) + 1
    ensures other != team ==> MemberCount(EnsureMembership(ms, team, user, role, now), other) == MemberCount(ms, other)
  {
    var m := Membership(team, user, role, now);
    CountAppend(ms, m, team);
    CountAppend(ms, m, other);
  }

  lemma {:induction false} CountAppend(ms: seq<Membership>, m: Membership, team: nat)
    ensures MemberCount(ms + [m], team) == MemberCount(ms, team) + (if m.team == team then 1 else 0)
  {
    if |ms| > 0 {
      assert (ms + [m])[1..] == ms[1..] + [m];
      CountAppend(ms[1..], m, team);
    } else {
      assert (ms + [m])[1..] == [];
    }
  }

  /** A team with two distinct members added counts two. */
  lemma TwoMembersCountTwo(team: nat, owner: UserId, member: UserId, t0: int, t1: int)
    requires owner != member
    ensures MemberCount(EnsureMembership(EnsureMembership([], team, owner, DefaultRole, t0), team, member, DefaultRole, t1), team) == 2
  {
    var ms1 := EnsureMembership([], team, owner, DefaultRole, t0);
    MemberCountAfterEnsure([], team, owner, DefaultRole, t0, team);
    assert !IsMember(ms1, team, member);
    MemberCountAfterEnsure(ms1, team, member, DefaultRole, t1, team);
  }

  /** A key larger than every stored team key. */
  function FreshTeamId(teams: seq<Team>): (id: nat)
    ensures id !in TeamIds(teams)
    ensures forall i :: 0 <= i < |teams| ==> teams[i].id < id
  {
    FreshKey(teams, (t: Team) => t.id)
  }

  /** The team with key `id`, if there is one. */
  function FindTeam(teams: seq<Team>, id: nat): (r: Option<Team>)
    ensures r.Some? ==> r.value in teams && r.value.id == id
    ensures r.None? <==> id !in TeamIds(teams)
  {
    if |teams| == 0 then None
    else if teams[0].id == id then Some(teams[0])
    else
      var r := FindTeam(teams[1..], id);
      assert TeamIds(teams) == {teams[0].id} + TeamIds(teams[1..]) by {
        forall x | x in TeamIds(teams) ensures x in {teams[0].id} + TeamIds(teams[1..]) {
          var i :| 0 <= i < |teams| && teams[i].id == x;
          if i > 0 { assert teams[1..][i - 1] == teams[i]; }
        }
        forall x | x in TeamIds(teams[1..]) ensures x in TeamIds(teams) {
          var i :| 0 <= i < |teams[1..]| && teams[1..][i].id == x;
          assert teams[i + 1] == teams[1..][i];
        }
      }
      r
  }

  /** The team named `name`, if there is one (the lookup of `get_or_create(name=...)`). */
  function FindTeamByName(teams: seq<Team>, name: string): (r: Option<Team>)
    ensures r.Some? ==> r.value in teams && r.value.name == name
    ensures r.None? <==> !NameTaken(teams, name)
  {
    if |teams| == 0 then None
    else if teams[0].name == name then Some(teams[0])
    else
      var r := FindTeamByName(teams[1..], name);
      assert NameTaken(teams, name) <==> NameTaken(teams[1..], name) by {
        if NameTaken(teams, name) {
          var i :| 0 <= i < |teams| && teams[i].name == name;
          assert teams[1..][i - 1] == teams[i];
        }
        if NameTaken(teams[1..], name) {
          var i :| 0 <= i < |teams[1..]| && teams[1..][i].name == name;
          assert teams[i + 1] == teams[1..][i];
        }
      }
      r
  }

  /** Appending a team with a fresh key and an unused name keeps the tables valid. */
  lemma AppendTeamKeepsValid(teams: seq<Team>, ms: seq<Membership>, t: Team)
    requires ValidTables(teams, ms)
    requires t.id !in TeamIds(teams) && !NameTaken(teams, t.name)
    ensures ValidTables(teams + [t], ms)
  {
    var ts := teams + [t];
    forall i, j | 0 <= i < j < |ts| ensures ts[i].id != ts[j].id && ts[i].name != ts[j].name {
      if j == |teams| {
        assert ts[i] == teams[i];
      }
    }
    assert TeamIds(teams) <= TeamIds(ts) by {
      forall x | x in TeamIds(teams) ensures x in TeamIds(ts) {
        var i :| 0 <= i < |teams| && teams[i].id == x;
        assert ts[i] == teams[i];
      }
    }
  }

  /** Teams as listed by default: most recently created first. */
  function ListTeams(teams: seq<Team>): (r: seq<Team>)
    ensures multiset(r) == multiset(teams)
    ensures forall i, j :: 0 <= i < j < |r| ==> r[i].createdAt >= r[j].createdAt
  {
    var r := SortBy(teams, (t: Team) => -t.createdAt);
    assert forall i, j :: 0 <= i < j < |r| ==> -r[i].createdAt <= -r[j].createdAt;
    r
  }

  /** Memberships as listed by default: most recently joined first. */
  function ListMemberships(ms: seq<Membership>): (r: seq<Membership>)
    ensures multiset(r) == multiset(ms)
    ensures forall i, j :: 0 <= i < j < |r| ==> r[i].joinedAt >= r[j].joinedAt
  {
    var r := SortBy(ms, (m: Membership) => -m.joinedAt);
    assert forall i, j :: 0 <= i < j < |r| ==> -r[i].joinedAt <= -r[j].joinedAt;
    r
  }
}
