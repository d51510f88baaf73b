/**
 * Team leaderboards (teams/models.py) and the seeding step that fills them
 * (`create_leaderboards` in both populate_db commands).
 *
 * A leaderboard ranks a team's members in the order they are enumerated,
 * not by performance: the i-th member gets rank i and i * 100 points,
 * together with the count, summed duration and summed calories of that
 * member's activities.
 */
module Leaderboards {
  import opened Common
  import opened Activities
  import opened ActivityStore
  import opened Teams

  datatype Leaderboard = Leaderboard(id: nat, team: nat)

  /** One row of a leaderboard. */
  datatype Entry = Entry(
    leaderboard: nat,
    user: UserId,
    rank: int,
    points: int,
    activitiesCount: nat,
    totalDurationMinutes: int,
    totalCaloriesBurned: int)

  const PointsPerRank := 100

  /** A row as the model's field defaults fill it in: no points, no activities. */
  function DefaultEntry(leaderboard: nat, user: UserId, rank: int): (e: Entry)
    ensures e.points == 0 && e.activitiesCount == 0
    ensures e.totalDurationMinutes == 0 && e.totalCaloriesBurned == 0
  {
    Entry(leaderboard, user, rank, 0, 0, 0, 0)
  }

  /** The row of `user` at `rank`, carrying the aggregates of `user`'s activities. */
  function EntryFor(leaderboard: nat, user: UserId, rank: int, acts: seq<Activity>): Entry
  {
    var t := Aggregate(acts, user);
    Entry(leaderboard, user, rank, rank * PointsPerRank, t.count, t.durationMinutes, t.caloriesBurned)
  }

  /** Whether `e` is the row that the builder owes `user` at `rank`. */
  predicate IsEntryFor(e: Entry, leaderboard: nat, user: UserId, rank: int, acts: seq<Activity>)
  {
    var t := Aggregate(acts, user);
    && e.leaderboard == leaderboard
    && e.user == user
    && e.rank == rank
    && e.points == rank * PointsPerRank
    && e.activitiesCount == t.count
    && e.totalDurationMinutes == t.durationMinutes
    && e.totalCaloriesBurned == t.caloriesBurned
  }

  /** Rows for `members` enumerated from rank `first` on. */
  function RankFrom(leaderboard: nat, members: seq<UserId>, acts: seq<Activity>, first: int): (r: seq<Entry>)
    ensures |r| == |members|
    ensures forall i :: 0 <= i < |r| ==> IsEntryFor(r[i], leaderboard, members[i], first + i, acts)
  {
    if |members| == 0 then []
    else [EntryFor(leaderboard, members[0], first, acts)] + RankFrom(leaderboard, members[1..], acts, first + 1)
  }

  /** The rows of a leaderboard for `members`, enumerated from rank 1. */
  function BuildEntries(leaderboard: nat, members: seq<UserId>, acts: seq<Activity>): seq<Entry>
  {
    RankFrom(leaderboard, members, acts, 1)
  }

  /**
   * The i-th member (from 0) gets rank i + 1 and (i + 1) * 100 points, with
   * the aggregates of exactly that member's activities; there is one row
   * per member and no other row.
   */
  lemma BuildEntriesShape(leaderboard: nat, members: seq<UserId>, acts: seq<Activity>)
    ensures var es := BuildEntries(leaderboard, members, acts);
      && |es| == |members|
      && forall i :: 0 <= i < |es| ==>
           && es[i].leaderboard == leaderboard
           && es[i].user == members[i]
           && es[i].rank == i + 1
           && es[i].points == es[i].rank * 100
           && es[i].activitiesCount == |ActivitiesOf(acts, members[i])|
           && es[i].totalDurationMinutes == SumDuration(ActivitiesOf(acts, members[i]))
           && es[i].totalCaloriesBurned == SumCalories(ActivitiesOf(acts, members[i]))
  {
    var es := BuildEntries(leaderboard, members, acts);
    forall i | 0 <= i < |es| ensures es[i].activitiesCount == |ActivitiesOf(acts, members[i])|
      && es[i].totalDurationMinutes == SumDuration(ActivitiesOf(acts, members[i]))
      && es[i].totalCaloriesBurned == SumCalories(ActivitiesOf(acts, members[i]))
    {
      AggregateIsSumOverOwned(acts, members[i]);
    }
  }

  /** Whether some row holds rank `k`. */
  predicate RankTaken(es: seq<Entry>, k: int)
  {
    exists i :: 0 <= i < |es| && es[i].rank == k
  }

  /** The ranks of a leaderboard are exactly 1..N: each lies in 1..N, each of 1..N occurs, and no two rows share one. */
  lemma RanksArePermutation(leaderboard: nat, members: seq<UserId>, acts: seq<Activity>)
    ensures var es := BuildEntries(leaderboard, members, acts);
      && (forall i :: 0 <= i < |es| ==> 1 <= es[i].rank <= |members|)
      && (forall k :: 1 <= k <= |members| ==> RankTaken(es, k))
      && (forall i, j :: 0 <= i < j < |es| ==> es[i].rank < es[j].rank)
  {
    var es := BuildEntries(leaderboard, members, acts);
    forall k | 1 <= k <= |members| ensures RankTaken(es, k) {
      assert es[k - 1].rank == k;
    }
  }

  /** The users of a leaderboard are exactly the members, and without duplicate members no user has two rows. */
  lemma EntryUsersAreMembers(leaderboard: nat, members: seq<UserId>, acts: seq<Activity>)
    ensures var es := BuildEntries(leaderboard, members, acts);
      && (set i | 0 <= i < |es| :: es[i].user) == (set i | 0 <= i < |members| :: members[i])
      && (Distinct(members) ==> forall i, j :: 0 <= i < j < |es| ==> es[i].user != es[j].user)
  {
  }

  /** Rows are listed by ascending rank, and the builder already produces them in that order. */
  function ListEntries(es: seq<Entry>): (r: seq<Entry>)
    ensures multiset(r) == multiset(es)
    ensures forall i, j :: 0 <= i < j < |r| ==> r[i].rank <= r[j].rank
  {
    SortBy(es, (e: Entry) => e.rank)
  }

  lemma BuiltEntriesAreListedAsBuilt(leaderboard: nat, members: seq<UserId>, acts: seq<Activity>)
    ensures ListEntries(BuildEntries(leaderboard, members, acts)) == BuildEntries(leaderboard, members, acts)
  {
    var es := BuildEntries(leaderboard, members, acts);
    assert SortedBy(es, (e: Entry) => e.rank);
    SortBySortedIsIdentity(es, (e: Entry) => e.rank);
  }

  /** A member who logged nothing gets the default row, except for rank and points. */
  lemma IdleMemberGetsZeroTotals(leaderboard: nat, members: seq<UserId>, acts: seq<Activity>, i: nat)
    requires i < |members|
    requires forall k :: 0 <= k < |acts| ==> acts[k].user != members[i]
    ensures BuildEntries(leaderboard, members, acts)[i]
         == DefaultEntry(leaderboard, members[i], i + 1).(points := (i + 1) * 100)
  {
  }

  /** The leaderboards and their rows. */
  datatype Board = Board(leaderboards: seq<Leaderboard>, entries: seq<Entry>)

  function LeaderboardIds(b: Board): set<nat>
  {
    set i | 0 <= i < |b.leaderboards| :: b.leaderboards[i].id
  }

  predicate HasLeaderboard(b: Board, team: nat)
  {
    exists i :: 0 <= i < |b.leaderboards| && b.leaderboards[i].team == team
  }

  /**
   * The constraints of the two tables: leaderboard keys are unique, a team
   * has at most one leaderboard, a user has at most one row per
   * leaderboard, and rows belong to stored leaderboards.
   */
  predicate ValidBoard(b: Board)
  {
    && (forall i, j :: 0 <= i < j < |b.leaderboards| ==>
          b.leaderboards[i].id != b.leaderboards[j].id && b.leaderboards[i].team != b.leaderboards[j].team)
    && (forall i, j :: 0 <= i < j < |b.entries| ==>
          b.entries[i].leaderboard != b.entries[j].leaderboard || b.entries[i].user != b.entries[j].user)
    && (forall i :: 0 <= i < |b.entries| ==> b.entries[i].leaderboard in LeaderboardIds(b))
  }

  /** A leaderboard key larger than every stored one. */
  function FreshLeaderboardId(lbs: seq<Leaderboard>): (id: nat)
    ensures forall i :: 0 <= i < |lbs| ==> lbs[i].id < id
  {
    FreshKey(lbs, (lb: Leaderboard) => lb.id)
  }

  /**
   * One iteration of `create_leaderboards`: the team's leaderboard is
   * fetched or created, and rows are written only when it was created.
   */
  function SeedLeaderboard(b: Board, team: Team, ms: seq<Membership>, acts: seq<Activity>): (r: Board)
    ensures HasLeaderboard(r, team.id)
    ensures HasLeaderboard(b, team.id) ==> r == b
    ensures !HasLeaderboard(b, team.id) ==>
      var id := FreshLeaderboardId(b.leaderboards);
      r == Board(b.leaderboards + [Leaderboard(id, team.id)],
                 b.entries + BuildEntries(id, MembersOf(ms, team.id), acts))
    ensures forall t :: HasLeaderboard(b, t) ==> HasLeaderboard(r, t)
  {
    if HasLeaderboard(b, team.id) then b
    else
      var id := FreshLeaderboardId(b.leaderboards);
      var lbs := b.leaderboards + [Leaderboard(id, team.id)];
      assert lbs[|b.leaderboards|].team == team.id;
      assert forall i :: 0 <= i < |b.leaderboards| ==> lbs[i] == b.leaderboards[i];
      Board(lbs, b.entries + BuildEntries(id, MembersOf(ms, team.id), acts))
  }

  /** Rows of a fresh leaderboard, one per distinct user, can be appended to rows of other leaderboards without a clash. */
  lemma AppendRowsKeepsUnique(rows: seq<Entry>, added: seq<Entry>, id: nat)
    requires forall i, j :: 0 <= i < j < |rows| ==> rows[i].leaderboard != rows[j].leaderboard || rows[i].user != rows[j].user
    requires forall i :: 0 <= i < |rows| ==> rows[i].leaderboard != id
    requires forall i :: 0 <= i < |added| ==> added[i].leaderboard == id
    requires forall i, j :: 0 <= i < j < |added| ==> added[i].user != added[j].user
    ensures var all := rows + added;
      forall i, j :: 0 <= i < j < |all| ==> all[i].leaderboard != all[j].leaderboard || all[i].user != all[j].user
  {
    var all := rows + added;
    forall i, j | 0 <= i < j < |all| ensures all[i].leaderboard != all[j].leaderboard || all[i].user != all[j].user {
      if i >= |rows| {
        assert all[i] == added[i - |rows|] && all[j] == added[j - |rows|];
      } else if j >= |rows| {
        assert all[i] == rows[i] && all[j] == added[j - |rows|];
      } else {
        assert all[i] == rows[i] && all[j] == rows[j];
      }
    }
  }

  /** Seeding a leaderboard keeps the board's constraints, given the membership table's. */
  lemma SeedLeaderboardKeepsValid(b: Board, team: Team, ms: seq<Membership>, acts: seq<Activity>)
    requires ValidBoard(b) && UniqueMemberships(ms)
    ensures ValidBoard(SeedLeaderboard(b, team, ms, acts))
  {
    if !HasLeaderboard(b, team.id) {
      var id := FreshLeaderboardId(b.leaderboards);
      var r := SeedLeaderboard(b, team, ms, acts);
      var members := MembersOf(ms, team.id);
      var added := BuildEntries(id, members, acts);
      assert r.entries == b.entries + added;
      assert LeaderboardIds(r) == LeaderboardIds(b) + {id} by {
        forall x | x in LeaderboardIds(b) ensures x in LeaderboardIds(r) {
          var i :| 0 <= i < |b.leaderboards| && b.leaderboards[i].id == x;
          assert r.leaderboards[i] == b.leaderboards[i];
        }
        assert r.leaderboards[|b.leaderboards|].id == id;
      }
      assert id !in LeaderboardIds(b);
      assert forall i :: 0 <= i < |b.entries| ==> b.entries[i].leaderboard != id;
      EntryUsersAreMembers(id, members, acts);
      AppendRowsKeepsUnique(b.entries, added, id);
      forall i | 0 <= i < |r.entries| ensures r.entries[i].leaderboard in LeaderboardIds(r) {
        if i < |b.entries| {
          assert r.entries[i] == b.entries[i];
        } else {
          assert r.entries[i] == added[i - |b.entries|];
        }
      }
      forall i, j | 0 <= i < j < |r.leaderboards|
        ensures r.leaderboards[i].id != r.leaderboards[j].id && r.leaderboards[i].team != r.leaderboards[j].team
      {
        if j == |b.leaderboards| {
          assert r.leaderboards[i] == b.leaderboards[i];
        } else {
          assert r.leaderboards[i] == b.leaderboards[i] && r.leaderboards[j] == b.leaderboards[j];
        }
      }
    }
  }

  /** `create_leaderboards`: one seeding step per team, in order. */
  function CreateLeaderboards(b: Board, teams: seq<Team>, ms: seq<Membership>, acts: seq<Activity>): (r: Board)
    ensures forall i :: 0 <= i < |teams| ==> HasLeaderboard(r, teams[i].id)
    ensures forall t :: HasLeaderboard(b, t) ==> HasLeaderboard(r, t)
    ensures ValidBoard(b) && UniqueMemberships(ms) ==> ValidBoard(r)
    decreases |teams|
  {
    if |teams| == 0 then b
    else
      var b1 := SeedLeaderboard(b, teams[0], ms, acts);
      assert ValidBoard(b) && UniqueMemberships(ms) ==> ValidBoard(b1) by {
        if ValidBoard(b) && UniqueMemberships(ms) {
          SeedLeaderboardKeepsValid(b, teams[0], ms, acts);
        }
      }
      var r := CreateLeaderboards(b1, teams[1..], ms, acts);
      assert forall i :: 1 <= i < |teams| ==> teams[i] == teams[1..][i - 1];
      r
  }

  /** When every team already has a leaderboard, seeding changes nothing: no rows are written. */
  lemma {:induction false} CreateLeaderboardsNoop(b: Board, teams: seq<Team>, ms: seq<Membership>, acts: seq<Activity>)
    requires forall i :: 0 <= i < |teams| ==> HasLeaderboard(b, teams[i].id)
    ensures CreateLeaderboards(b, teams, ms, acts) == b
    decreases |teams|
  {
    if |teams| > 0 {
      assert forall i :: 0 <= i < |teams[1..]| ==> HasLeaderboard(b, teams[1..][i].id) by {
        forall i | 0 <= i < |teams[1..]| ensures HasLeaderboard(b, teams[1..][i].id) {
          assert teams[1..][i] == teams[i + 1];
        }
      }
      CreateLeaderboardsNoop(b, teams[1..], ms, acts);
    }
  }

  /** Running the seeding twice writes what running it once writes. */
  lemma CreateLeaderboardsIdempotent(b: Board, teams: seq<Team>, ms: seq<Membership>, acts: seq<Activity>)
    ensures var once := CreateLeaderboards(b, teams, ms, acts);
      CreateLeaderboards(once, teams, ms, acts) == once
  {
    var once := CreateLeaderboards(b, teams, ms, acts);
    CreateLeaderboardsNoop(once, teams, ms, acts);
  }

  /** Seeding never rewrites a row that was already stored; it only appends. */
  lemma {:induction false} CreateLeaderboardsKeepsRows(b: Board, teams: seq<Team>, ms: seq<Membership>, acts: seq<Activity>)
    ensures var r := CreateLeaderboards(b, teams, ms, acts);
      |r.entries| >= |b.entries| && r.entries[..|b.entries|] == b.entries
    decreases |teams|
  {
    if |teams| > 0 {
      var b1 := SeedLeaderboard(b, teams[0], ms, acts);
      CreateLeaderboardsKeepsRows(b1, teams[1..], ms, acts);
      assert b1.entries[..|b.entries|] == b.entries;
    }
  }

  /** Whether a row belongs to leaderboard `lb`. */
  function OnBoard(lb: nat): Entry -> bool
  {
    (e: Entry) => e.leaderboard == lb
  }

  /** The rows of leaderboard `lb`, in stored order (`leaderboard.entries`). */
  function RowsOf(b: Board, lb: nat): seq<Entry>
  {
    Filter(b.entries, OnBoard(lb))
  }

  /** Whether `lb` is the key of team `team`'s leaderboard. */
  predicate LeaderboardOf(b: Board, team: nat, lb: nat)
  {
    exists i :: 0 <= i < |b.leaderboards| && b.leaderboards[i] == Leaderboard(lb, team)
  }

  /** A seeding step leaves every stored leaderboard, and its rows, as they were. */
  lemma SeedKeepsStoredBoard(b: Board, team: Team, ms: seq<Membership>, acts: seq<Activity>, t: nat, lb: nat)
    requires LeaderboardOf(b, t, lb)
    ensures var r := SeedLeaderboard(b, team, ms, acts);
      LeaderboardOf(r, t, lb) && RowsOf(r, lb) == RowsOf(b, lb)
  {
    if !HasLeaderboard(b, team.id) {
      var id := FreshLeaderboardId(b.leaderboards);
      var r := SeedLeaderboard(b, team, ms, acts);
      var k :| 0 <= k < |b.leaderboards| && b.leaderboards[k] == Leaderboard(lb, t);
      assert r.leaderboards[k] == Leaderboard(lb, t);
      var added := BuildEntries(id, MembersOf(ms, team.id), acts);
      assert forall i :: 0 <= i < |added| ==> !OnBoard(lb)(added[i]) by {
        assert lb < id;
      }
      FilterAppend(b.entries, added, OnBoard(lb));
      FilterNonePass(added, OnBoard(lb));
    }
  }

  /** The whole run leaves every stored leaderboard, and its rows, as they were. */
  lemma {:induction false} CreateKeepsStoredBoard(b: Board, teams: seq<Team>, ms: seq<Membership>, acts: seq<Activity>, t: nat, lb: nat)
    requires LeaderboardOf(b, t, lb)
    ensures var r := CreateLeaderboards(b, teams, ms, acts);
      LeaderboardOf(r, t, lb) && RowsOf(r, lb) == RowsOf(b, lb)
    decreases |teams|
  {
    if |teams| > 0 {
      SeedKeepsStoredBoard(b, teams[0], ms, acts, t, lb);
      CreateKeepsStoredBoard(SeedLeaderboard(b, teams[0], ms, acts), teams[1..], ms, acts, t, lb);
    }
  }

  /** A leaderboard created by a seeding step holds exactly the rows the builder makes for the team's members. */
  lemma SeedNewBoardRows(b: Board, team: Team, ms: seq<Membership>, acts: seq<Activity>)
    requires ValidBoard(b) && !HasLeaderboard(b, team.id)
    ensures var id := FreshLeaderboardId(b.leaderboards);
      var r := SeedLeaderboard(b, team, ms, acts);
      LeaderboardOf(r, team.id, id) && RowsOf(r, id) == BuildEntries(id, MembersOf(ms, team.id), acts)
  {
    var id := FreshLeaderboardId(b.leaderboards);
    var r := SeedLeaderboard(b, team, ms, acts);
    var added := BuildEntries(id, MembersOf(ms, team.id), acts);
    assert r.leaderboards[|b.leaderboards|] == Leaderboard(id, team.id);
    assert forall i :: 0 <= i < |b.entries| ==> !OnBoard(id)(b.entries[i]) by {
      forall i | 0 <= i < |b.entries| ensures b.entries[i].leaderboard != id {
        assert b.entries[i].leaderboard in LeaderboardIds(b);
        var k :| 0 <= k < |b.leaderboards| && b.leaderboards[k].id == b.entries[i].leaderboard;
      }
    }
    FilterAppend(b.entries, added, OnBoard(id));
    FilterNonePass(b.entries, OnBoard(id));
    FilterAllPass(added, OnBoard(id));
  }

  /** A seeding step gives a leaderboard to its own team only. */
  lemma SeedOnlyOwnTeam(b: Board, team: Team, ms: seq<Membership>, acts: seq<Activity>, t: nat)
    requires !HasLeaderboard(b, t) && t != team.id
    ensures !HasLeaderboard(SeedLeaderboard(b, team, ms, acts), t)
  {
  }

  /** Team `team` has a leaderboard whose rows are exactly the builder's rows for the team's members. */
  ghost predicate HasMemberRows(r: Board, team: nat, ms: seq<Membership>, acts: seq<Activity>)
  {
    exists lb :: LeaderboardOf(r, team, lb) && RowsOf(r, lb) == BuildEntries(lb, MembersOf(ms, team), acts)
  }

  /** The first team of a run, when it had no leaderboard, ends with its members' rows. */
  lemma FirstTeamGetsMemberRows(b: Board, teams: seq<Team>, ms: seq<Membership>, acts: seq<Activity>)
    requires ValidBoard(b) && |teams| > 0 && !HasLeaderboard(b, teams[0].id)
    ensures HasMemberRows(CreateLeaderboards(b, teams, ms, acts), teams[0].id, ms, acts)
  {
    var id := FreshLeaderboardId(b.leaderboards);
    var b1 := SeedLeaderboard(b, teams[0], ms, acts);
    var r := CreateLeaderboards(b, teams, ms, acts);
    assert r == CreateLeaderboards(b1, teams[1..], ms, acts);
    SeedNewBoardRows(b, teams[0], ms, acts);
    CreateKeepsStoredBoard(b1, teams[1..], ms, acts, teams[0].id, id);
    assert LeaderboardOf(r, teams[0].id, id);
  }

  /**
   * Every team that had no leaderboard before the run ends with one whose
   * rows are exactly the builder's rows for the team's members: rank i,
   * i * 100 points and the member's aggregates, one row per member.
   */
  lemma {:induction false} NewLeaderboardsGetMemberRows(b: Board, teams: seq<Team>, ms: seq<Membership>, acts: seq<Activity>)
    requires ValidBoard(b) && UniqueMemberships(ms)
    ensures var r := CreateLeaderboards(b, teams, ms, acts);
      forall i :: 0 <= i < |teams| && !HasLeaderboard(b, teams[i].id) ==> HasMemberRows(r, teams[i].id, ms, acts)
    decreases |teams|
  {
    if |teams| > 0 {
      var b1 := SeedLeaderboard(b, teams[0], ms, acts);
      var r := CreateLeaderboards(b, teams, ms, acts);
      assert r == CreateLeaderboards(b1, teams[1..], ms, acts);
      SeedLeaderboardKeepsValid(b, teams[0], ms, acts);
      NewLeaderboardsGetMemberRows(b1, teams[1..], ms, acts);
      forall i | 0 <= i < |teams| && !HasLeaderboard(b, teams[i].id) ensures HasMemberRows(r, teams[i].id, ms, acts) {
        if teams[i].id == teams[0].id {
          FirstTeamGetsMemberRows(b, teams, ms, acts);
        } else {
          SeedOnlyOwnTeam(b, teams[0], ms, acts, teams[i].id);
          assert teams[i] == teams[1..][i - 1];
        }
      }
    }
  }

  /**
   * A four-member scenario: team "marvel" with members A, B, C, D in join order,
   * A having logged three activities for 90 minutes and 450 calories and
   * the others nothing. A is ranked 1 with 100 points and those totals;
   * B, C and D get ranks 2, 3, 4, points 200, 300, 400 and zero totals.
   */
  lemma FourMemberScenario(lb: nat, a: UserId, b: UserId, c: UserId, d: UserId, acts: seq<Activity>)
    requires |acts| == 3
    requires forall k :: 0 <= k < 3 ==> acts[k].user == a && acts[k].caloriesBurned.Some?
    requires acts[0].durationMinutes + acts[1].durationMinutes + acts[2].durationMinutes == 90
    requires acts[0].caloriesBurned.value + acts[1].caloriesBurned.value + acts[2].caloriesBurned.value == 450
    requires a != b && a != c && a != d
    ensures BuildEntries(lb, [a, b, c, d], acts)
         == [Entry(lb, a, 1, 100, 3, 90, 450), Entry(lb, b, 2, 200, 0, 0, 0),
             Entry(lb, c, 3, 300, 0, 0, 0), Entry(lb, d, 4, 400, 0, 0, 0)]
  {
    assert acts[1..][1..][1..] == [];
    assert Aggregate(acts[2..], a) == Totals(1, acts[2].durationMinutes, acts[2].caloriesBurned.value) by {
      assert acts[2..][1..] == [];
    }
    assert acts[1..][1..] == acts[2..];
    assert Aggregate(acts, a) == Totals(3, 90, 450);
  }

  // ---------------------------------------------------------------------------
  // The seeding step as the source writes it.
  //
  // Both commands select a member's activities with `activities.filter(user=member)`
  // and count them with `.count()`, but `activities` is the plain list that
  // `create_activities` returned, which has neither method: the first member
  // of a newly created leaderboard raises AttributeError. The leaderboard row
  // itself was already inserted, so it survives the crash with no rows.
  // ---------------------------------------------------------------------------

  /** How a seeding run ends: normally, or by an uncaught exception, with the rows written so far. */
  datatype SeedRun = Completed(board: Board) | Crashed(board: Board)

  /** One iteration of `create_leaderboards`, as written. */
  function SeedLeaderboardAsWritten(b: Board, team: Team, ms: seq<Membership>): (r: SeedRun)
    ensures r.board.entries == b.entries
    ensures r.Crashed? <==> !HasLeaderboard(b, team.id) && |MembersOf(ms, team.id)| > 0
  {
    if HasLeaderboard(b, team.id) then Completed(b)
    else
      var created := b.(leaderboards := b.leaderboards + [Leaderboard(FreshLeaderboardId(b.leaderboards), team.id)]);
      if |MembersOf(ms, team.id)| == 0 then Completed(created) else Crashed(created)
  }

  /** `create_leaderboards`, as written: the run stops at the first crash. */
  function CreateLeaderboardsAsWritten(b: Board, teams: seq<Team>, ms: seq<Membership>): (r: SeedRun)
    decreases |teams|
  {
    if |teams| == 0 then Completed(b)
    else
      match SeedLeaderboardAsWritten(b, teams[0], ms)
      case Crashed(b1) => Crashed(b1)
      case Completed(b1) => CreateLeaderboardsAsWritten(b1, teams[1..], ms)
  }

  /** As written, seeding never stores a single leaderboard row. */
  lemma {:induction false} AsWrittenStoresNoRows(b: Board, teams: seq<Team>, ms: seq<Membership>)
    ensures CreateLeaderboardsAsWritten(b, teams, ms).board.entries == b.entries
    decreases |teams|
  {
    if |teams| > 0 {
      var r := SeedLeaderboardAsWritten(b, teams[0], ms);
      if r.Completed? {
        AsWrittenStoresNoRows(r.board, teams[1..], ms);
      }
    }
  }

  /**
   * The input that shows it: an empty board, one team with one member. As
   * written the run crashes with no rows; the corrected step stores the
   * member's row at rank 1.
   */
  lemma AsWrittenCrashesOnFirstMember(team: Team, user: UserId, now: int, acts: seq<Activity>)
    ensures var ms := [Membership(team.id, user, Owner, now)];
      && CreateLeaderboardsAsWritten(Board([], []), [team], ms).Crashed?
      && CreateLeaderboardsAsWritten(Board([], []), [team], ms).board.entries == []
      && |CreateLeaderboards(Board([], []), [team], ms, acts).entries| == 1
      && CreateLeaderboards(Board([], []), [team], ms, acts).entries[0].rank == 1
  {
    var ms := [Membership(team.id, user, Owner, now)];
    assert MembersOf(ms, team.id) == [user] by {
      assert ms[1..] == [];
    }
    assert !HasLeaderboard(Board([], []), team.id);
    var once := SeedLeaderboard(Board([], []), team, ms, acts);
    assert [team][1..] == [];
  }
}
