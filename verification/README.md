# OctoFit Tracker backend — a Dafny model

This project models the core logic of the OctoFit Tracker backend, a Django
REST service. Users log fitness activities, follow weekly workout plans, and
join teams that have leaderboards.

The model covers:

- **Record rules.** The choice fields, validators, uniqueness constraints and
  default listing orders of the activity, team, membership, leaderboard,
  workout, plan and plan-day records. It also covers the display strings of
  plans and plan days.
- **Visibility filters.** The owner-scoped listings of activities and workout
  plans: an optional `user_id` parameter narrows the list, and a requester who
  is not staff sees only their own records. The profile listing filters by
  `username`.
- **Requests.** The `me` profile lookup and the `perform_create` handlers,
  which store a record under the requester whatever existing account was
  submitted as its owner.
- **Team membership.** The `add_member` / `remove_member` state machine, with
  each response and its HTTP status; `my_teams`; team creation.
- **Leaderboard builder** (`create_leaderboards`). Members are ranked in
  enumeration order: rank i, i × 100 points, and the count, duration and
  calories of their activities.
- **Team seeding.** The superhero seed (`create_superhero_teams`) and the
  sample seed (`create_teams`). A team is fetched or created by name, and
  members are added only when the team is new.
- **Weekly plan seeding** (`create_workout_plans`). Up to five sampled
  workout days, then rest days up to day 7.

The database is replaced by sequences of rows in insertion order, and every
request or command is a pure function from tables to tables. Timestamps are
inputs. The key of a record created through an endpoint (activity, plan,
profile) is an input too; the keys of teams, leaderboards and seeded plans
are one above the largest stored key. The random choices of the seed
commands are also inputs: `random.sample`, `random.randint` and
`random.choice` become explicit samples, draws and difficulties, constrained
to the values the library can produce. An `IndexError` or `AttributeError` in the source becomes an error
value (`Result.Failure`, `SeedRun.Crashed`).

`perform_create` in `teams/views.py` sets only the owner; the owner is not
made a member (`TeamViews.CreateTeam` leaves the memberships unchanged).

Modules, one per area of the source:

| module | file | covers |
|---|---|---|
| Common | common.dfy | `Option`/`Result`, accounts, filtering, counting, stable insertion sort |
| Text | text.dfy | decimal rendering of integers and its inverse |
| Activities | activities.dfy | activity record, choices, validators, listing order |
| ActivityStore | activity_store.dfy | per-user activity aggregates |
| Visibility | visibility.dfy | the shared owner-scoped listing |
| ActivityViews | activity_views.dfy | activity endpoint |
| Teams | teams.dfy | team and membership tables, member count |
| TeamViews | team_views.dfy | team endpoint: add/remove member, my teams, create |
| Leaderboards | leaderboards.dfy | leaderboard tables and `create_leaderboards` |
| Workouts | workouts.dfy | workout, plan and plan-day records, week layout |
| WorkoutViews | workout_views.dfy | workout-plan endpoint |
| Profiles | profiles.dfy | profile endpoint |
| Seed | seed.dfy | `create_superhero_teams`, `create_teams` |
| PlanSeed | plan_seed.dfy | `create_workout_plans` |

## Model

Source paths are relative to the repository root.

| member | source | states |
|---|---|---|
| Activities.ParseActivityType | octofit-tracker/backend/activities/models.py:8-21 | a stored string is read as an activity type only if it is that type's stored value |
| Activities.ActivityTypeRoundTrip | octofit-tracker/backend/activities/models.py:8-18 | each of the nine activity types is read back from its stored value |
| Activities.ActivityTypeChoicesExact | octofit-tracker/backend/activities/models.py:8-21 | a string is accepted exactly when it is one of the nine listed choices, which are distinct |
| Activities.ParseIntensity | octofit-tracker/backend/activities/models.py:27-31 | a string is read as an intensity only if it is that intensity's stored value |
| Activities.IntensityRoundTrip | octofit-tracker/backend/activities/models.py:27-31 | every intensity is read back from its stored value; the default is "moderate" |
| Activities.Validate | octofit-tracker/backend/activities/models.py:20-32 | no errors exactly when the record is valid; a blank-title error exactly when the title is empty; a title-length error exactly when it exceeds 200 characters; a duration error exactly when the duration is below 1; a calories error exactly when calories are given and negative; a location-length error exactly when it exceeds 200 characters; no error twice |
| Activities.ListActivities | octofit-tracker/backend/activities/models.py:37-38 | the listing is a permutation of the stored activities, most recent `activity_date` first |
| Activities.MostRecentListedFirst | octofit-tracker/backend/activities/models.py:37-38 | an activity dated later than every other is listed first |
| ActivityStore.ActivitiesOf | octofit-tracker/backend/octofit_tracker/management/commands/populate_db.py:263 | the selection holds exactly the member's activities, each as often as it is stored, and its length is the number of the member's activities |
| ActivityStore.Aggregate | octofit-tracker/backend/octofit_tracker/management/commands/populate_db.py:263-272 | a user with no activities gets zero totals; over valid records the summed duration is at least the count and the summed calories are not negative |
| ActivityStore.AggregateIsSumOverOwned | octofit-tracker/backend/octofit_tracker/management/commands/populate_db.py:263-272 | the aggregate is the count, the summed duration and the summed `calories_burned or 0` of exactly the user's activities |
| ActivityStore.AggregateAppend | octofit-tracker/backend/users/management/commands/populate_db.py:242-251 | the aggregates over a log split in two add up |
| ActivityStore.LogActivityEffect | octofit-tracker/backend/users/management/commands/populate_db.py:242-244 | logging an activity changes only its owner's aggregate, by exactly that activity |
| Visibility.OwnerScoped | octofit-tracker/backend/activities/views.py:20-29 | the result holds stored records only, and holds a stored record exactly when the `user_id` filter and the non-staff restriction both admit it |
| Visibility.StaffSeesAll | octofit-tracker/backend/activities/views.py:27-29 | the filter step alone lets staff naming no user keep every record, in stored order; the views then apply the listing order |
| Visibility.OthersHiddenFromNonStaff | octofit-tracker/backend/activities/views.py:23-29 | a non-staff requester naming another user sees nothing |
| Visibility.ScopedListing | octofit-tracker/backend/activities/views.py:20-29 | any reordering of the scoped records holds stored records only, each one the requester may view, and every such record; staff naming no user get every record; a non-staff requester naming another user gets nothing |
| ActivityViews.VisibleActivities | octofit-tracker/backend/activities/views.py:20-29 | listed activities are stored, belong to the named user if any, and belong to the requester unless staff; every activity the requester may view is listed; staff with no filter see all, as a permutation; the list is most recent `activity_date` first |
| ActivityViews.VisibleActivitiesExact | octofit-tracker/backend/activities/views.py:20-29 | an activity is listed if and only if it is stored and the requester may view it |
| ActivityViews.CreateActivity | octofit-tracker/backend/activities/views.py:31-33 | creation succeeds exactly for valid records, so a blank or over-long title fails; the stored record belongs to the requester whatever owner was submitted, and is otherwise the submitted one |
| ActivityViews.CreatedActivityVisibleToCreator | octofit-tracker/backend/activities/views.py:20-33 | a created activity appears in its creator's listing |
| Teams.ParseRole | octofit-tracker/backend/teams/models.py:28-36 | a string is read as a role only if it is that role's stored value |
| Teams.RoleRoundTrip | octofit-tracker/backend/teams/models.py:28-36 | every role is read back; exactly "owner", "admin" and "member" are roles; the default is "member" |
| Teams.MembersOf | octofit-tracker/backend/teams/models.py:10 | a user is listed exactly when they have a membership of the team, and no member is listed twice under the `(team, user)` constraint |
| Teams.MemberCount | octofit-tracker/backend/teams/models.py:21-23 | the count is zero exactly when the team has no member |
| Teams.MemberCountIsMembersLength | octofit-tracker/backend/teams/models.py:21-23 | the member count is the number of listed members |
| Teams.EnsureMembership | octofit-tracker/backend/teams/views.py:39-43 | afterwards the user is a member; an existing row is kept unchanged, role included; otherwise one row is appended; the `(team, user)` constraint is kept |
| Teams.MemberCountAfterEnsure | octofit-tracker/backend/teams/models.py:21-23 | a new member raises that team's count by one and leaves every other team's count alone |
| Teams.TwoMembersCountTwo | octofit-tracker/backend/teams/tests.py:26-36 | a team given two distinct members counts two |
| Teams.FindTeam | octofit-tracker/backend/teams/views.py:28 | a found team is stored under that key; nothing is found exactly when no stored team has the key |
| Teams.FindTeamByName | octofit-tracker/backend/octofit_tracker/management/commands/populate_db.py:225-231 | a found team is stored under that name; nothing is found exactly when the name is free |
| Teams.AppendTeamKeepsValid | octofit-tracker/backend/teams/models.py:5-9 | a team with a fresh key and an unused name keeps the tables' constraints |
| Teams.ListTeams | octofit-tracker/backend/teams/models.py:15-16 | teams are listed as a permutation, most recently created first |
| Teams.ListMemberships | octofit-tracker/backend/teams/models.py:39-41 | memberships are listed as a permutation, most recently joined first |
| TeamViews.AddMember | octofit-tracker/backend/teams/views.py:25-54 | each response occurs exactly under its condition, checked in the source's order, including the failure for an unknown account; only "member added" changes the tables, by one row with the requested or default role; the constraints are kept |
| TeamViews.AddMemberGrowsTeam | octofit-tracker/backend/teams/views.py:39-48 | after "member added" the user is a member and the team counts one more |
| TeamViews.AddMemberIdempotent | octofit-tracker/backend/teams/views.py:39-49 | repeating a request changes nothing, and after an add it reports "already in team" whatever role is asked |
| TeamViews.WithoutMembership | octofit-tracker/backend/teams/views.py:69-70 | exactly the other memberships remain |
| TeamViews.RemoveMember | octofit-tracker/backend/teams/views.py:56-76 | each response occurs exactly under its condition; only "member removed" changes the tables, by deleting that membership; the constraints are kept |
| TeamViews.RemoveMemberTakesOneOut | octofit-tracker/backend/teams/views.py:68-71 | removal deletes exactly one row, and every other membership stays |
| TeamViews.AddThenRemoveRestores | octofit-tracker/backend/teams/views.py:25-76 | adding a new member and then removing them restores the tables exactly |
| TeamViews.MyTeams | octofit-tracker/backend/teams/views.py:78-83 | a team is listed exactly when it is stored and the requester is a member, each at most as often as it is stored, most recently created first |
| TeamViews.CreateTeam | octofit-tracker/backend/teams/views.py:85-87 | creation fails exactly for a blank, taken or over-long name, reporting the blank name first and then the taken one; otherwise the new team is owned by the requester under a fresh key, stamped with the creation time, no membership is added, and the constraints are kept |
| Leaderboards.DefaultEntry | octofit-tracker/backend/teams/models.py:57-65 | a row created with the defaults has no points, activities, duration or calories |
| Leaderboards.RankFrom | octofit-tracker/backend/octofit_tracker/management/commands/populate_db.py:262-275 | one row per member, the i-th carrying rank first + i, 100 points per rank and that member's aggregates |
| Leaderboards.BuildEntriesShape | octofit-tracker/backend/octofit_tracker/management/commands/populate_db.py:260-275 | the i-th member gets rank i + 1, `rank * 100` points, and the count and sums of exactly their activities |
| Leaderboards.RanksArePermutation | octofit-tracker/backend/octofit_tracker/management/commands/populate_db.py:262 | the ranks are exactly 1..N, each once, increasing |
| Leaderboards.EntryUsersAreMembers | octofit-tracker/backend/teams/models.py:69 | the rows' users are exactly the members, and distinct members never share a leaderboard row |
| Leaderboards.ListEntries | octofit-tracker/backend/teams/models.py:68-70 | rows are listed as a permutation in ascending rank |
| Leaderboards.BuiltEntriesAreListedAsBuilt | octofit-tracker/backend/teams/models.py:68-70 | built rows are already in listing order |
| Leaderboards.IdleMemberGetsZeroTotals | octofit-tracker/backend/octofit_tracker/management/commands/populate_db.py:263-275 | a member with no activities gets the default row except for rank and points |
| Leaderboards.SeedLeaderboard | octofit-tracker/backend/octofit_tracker/management/commands/populate_db.py:257-275 | afterwards the team has a leaderboard; an existing one leaves everything unchanged; a new one gets its member rows appended |
| Leaderboards.AppendRowsKeepsUnique | octofit-tracker/backend/teams/models.py:69 | rows of a fresh leaderboard for distinct users keep `(leaderboard, user)` unique |
| Leaderboards.SeedLeaderboardKeepsValid | octofit-tracker/backend/teams/models.py:49-69 | seeding keeps one leaderboard per team, unique rows, and rows of stored leaderboards only |
| Leaderboards.CreateLeaderboards | octofit-tracker/backend/octofit_tracker/management/commands/populate_db.py:252-279 | every given team ends with a leaderboard, no leaderboard is lost, and the constraints are kept |
| Leaderboards.SeedNewBoardRows | octofit-tracker/backend/octofit_tracker/management/commands/populate_db.py:257-275 | a leaderboard created by one step holds exactly the builder's rows for the team's members |
| Leaderboards.CreateKeepsStoredBoard | octofit-tracker/backend/octofit_tracker/management/commands/populate_db.py:252-260 | a team's stored leaderboard keeps its key and its rows through the whole run |
| Leaderboards.NewLeaderboardsGetMemberRows | octofit-tracker/backend/octofit_tracker/management/commands/populate_db.py:252-275 | every given team that had no leaderboard ends with one whose rows are exactly the builder's rows for its members |
| Leaderboards.CreateLeaderboardsNoop | octofit-tracker/backend/octofit_tracker/management/commands/populate_db.py:257-260 | when every team already has a leaderboard nothing changes |
| Leaderboards.CreateLeaderboardsIdempotent | octofit-tracker/backend/users/management/commands/populate_db.py:235-239 | running the step twice writes what running it once writes |
| Leaderboards.CreateLeaderboardsKeepsRows | octofit-tracker/backend/users/management/commands/populate_db.py:235-256 | stored rows are never rewritten, only appended to |
| Leaderboards.FourMemberScenario | octofit-tracker/backend/octofit_tracker/management/commands/populate_db.py:262-275 | four members, of whom only the first logged activities, get ranks 1-4, points 100-400, and totals only for the first |
| Leaderboards.SeedLeaderboardAsWritten | octofit-tracker/backend/octofit_tracker/management/commands/populate_db.py:257-267 | as written, no row is stored, and the step crashes exactly when it creates a leaderboard for a team with members |
| Leaderboards.AsWrittenStoresNoRows | octofit-tracker/backend/users/management/commands/populate_db.py:239-254 | as written, the whole run never stores a leaderboard row |
| Leaderboards.AsWrittenCrashesOnFirstMember | octofit-tracker/backend/octofit_tracker/management/commands/populate_db.py:263 | for one team with one member, the as-written run crashes with no rows while the corrected one stores the member at rank 1 |
| Workouts.ParseDifficulty | octofit-tracker/backend/workouts/models.py:7-11 | a string is read as a difficulty only if it is that difficulty's stored value |
| Workouts.DifficultyRoundTrip | octofit-tracker/backend/workouts/models.py:7-25 | every difficulty is read back; exactly the three listed strings are accepted; the default is "beginner" |
| Workouts.ParseCategory | octofit-tracker/backend/workouts/models.py:13-20 | a string is read as a category only if it is that category's stored value |
| Workouts.CategoryRoundTrip | octofit-tracker/backend/workouts/models.py:13-24 | every category is read back, and exactly the six distinct listed strings are accepted |
| Workouts.NewPlanDay | octofit-tracker/backend/workouts/models.py:66-72 | a day created with the defaults is not a rest day and has no notes |
| Workouts.PlanLabel | octofit-tracker/backend/workouts/models.py:62-63 | the display string is the username, "'s ", then the plan name |
| Workouts.DayLabel | octofit-tracker/backend/workouts/models.py:78-79 | the display string is the plan name, " - Day ", then the decimal day number |
| Workouts.DayLabelInjective | octofit-tracker/backend/workouts/models.py:74-79 | two days of one plan display alike only if they have the same number |
| Workouts.DisplayStringExamples | octofit-tracker/backend/workouts/tests.py:98-107 | day 1 of "Weekly Plan" is not a rest day and displays "Weekly Plan - Day 1"; the plan of "testuser" displays "testuser's Weekly Plan" |
| Workouts.AddPlanDay | octofit-tracker/backend/workouts/models.py:74-75 | storing a day fails exactly when its plan has that number already; otherwise it is appended and the constraint is kept |
| Workouts.ListPlans | octofit-tracker/backend/workouts/models.py:59-60 | plans are listed as a permutation, most recently created first |
| Workouts.ListPlanDays | octofit-tracker/backend/workouts/models.py:76 | plan days are listed as a permutation in ascending day number |
| Workouts.WorkoutDayCount | octofit-tracker/backend/octofit_tracker/management/commands/populate_db.py:296 | the number of workout days is `min(5, n)` |
| Workouts.LayOutWeek | octofit-tracker/backend/octofit_tracker/management/commands/populate_db.py:295-312 | laying out fails exactly when there are no templates; otherwise it gives seven days, numbered 1-7, with the sampled templates first and then rest days on the first template |
| Workouts.WeekLayoutNumbering | octofit-tracker/backend/octofit_tracker/management/commands/populate_db.py:297-312 | a laid-out week holds each number 1..7 once, keeps the `(plan, day_number)` constraint, and is already in listing order |
| Workouts.WeekLayoutWorkouts | octofit-tracker/backend/octofit_tracker/management/commands/populate_db.py:296-312 | exactly the first `min(5, n)` days are workout days, with pairwise different templates; days 6 and 7 are always rest days |
| Text.ParseNatToString | octofit-tracker/backend/workouts/models.py:79 | the rendered day number reads back as the number |
| Text.IntToStringInjective | octofit-tracker/backend/workouts/models.py:79 | different day numbers render differently |
| WorkoutViews.VisiblePlans | octofit-tracker/backend/workouts/views.py:35-44 | listed plans are stored, belong to the named user if any, and belong to the requester unless staff; every plan the requester may view is listed; staff with no filter see all, as a permutation; the list is most recently created first |
| WorkoutViews.VisiblePlansExact | octofit-tracker/backend/workouts/views.py:35-44 | a plan is listed if and only if it is stored and the requester may view it |
| WorkoutViews.CreatePlan | octofit-tracker/backend/workouts/views.py:46-48 | creation succeeds exactly for a name of 1 to 200 characters (`name` at workouts/models.py:46), reporting a blank name as such; the created plan belongs to the requester whatever owner was submitted, and is otherwise the submitted one |
| WorkoutViews.CreatedPlanVisibleToCreator | octofit-tracker/backend/workouts/views.py:35-48 | a plan with an acceptable name is created and appears in its creator's listing |
| Profiles.ProfilesFor | octofit-tracker/backend/users/views.py:28-34 | without `username` every profile is listed, as a permutation; with it, exactly the profiles whose account has that username; the list is most recently created first |
| Profiles.ListProfiles | octofit-tracker/backend/users/models.py:40-41 | profiles are listed as a permutation, most recently created first |
| Profiles.Me | octofit-tracker/backend/users/views.py:36-47 | `me` succeeds exactly when the requester has a profile, returning one of theirs; otherwise 404 "User profile not found" |
| Profiles.MeIsTheProfile | octofit-tracker/backend/users/models.py:21 | under the one-to-one constraint, `me` returns the requester's only profile |
| Profiles.CreateProfile | octofit-tracker/backend/users/views.py:49-51 | creation fails exactly when the requester already has a profile; otherwise one profile is appended, owned by the requester, and the one-to-one constraint is kept |
| Profiles.CreatedProfileIsMine | octofit-tracker/backend/users/views.py:36-51 | after creating a profile, `me` returns it |
| Seed.AddMembers | octofit-tracker/backend/octofit_tracker/management/commands/populate_db.py:240-246 | every member ends up a member, stored rows are kept, only rows of this team are added, and the `(team, user)` constraint is kept |
| Seed.AddMembersAppendsRows | octofit-tracker/backend/octofit_tracker/management/commands/populate_db.py:240-246 | when no distinct member was a member yet, exactly their rows are appended, in order, with their roles |
| Seed.SeedTeam | octofit-tracker/backend/octofit_tracker/management/commands/populate_db.py:224-246 | a team is created exactly when its name is free, with a fresh key, the given owner and description, and its members' rows; a taken name changes nothing; the constraints are kept |
| Seed.SuperheroRoles | octofit-tracker/backend/octofit_tracker/management/commands/populate_db.py:241 | the owner gets `owner` and everybody else `member` |
| Seed.MarvelSeed | octofit-tracker/backend/octofit_tracker/management/commands/populate_db.py:218-241 | "marvel" is owned by the first account and seeds the first four accounts |
| Seed.DcSeed | octofit-tracker/backend/octofit_tracker/management/commands/populate_db.py:218-241 | "dc" is owned by the fifth account and seeds the fifth to eighth accounts, as many as exist |
| Seed.SeedPair | octofit-tracker/backend/octofit_tracker/management/commands/populate_db.py:224-248 | two teams are seeded in order and the constraints are kept; when both names are free, each new team has its given owner and exactly its given members with their roles |
| Seed.SeedSuperheroTeams | octofit-tracker/backend/octofit_tracker/management/commands/populate_db.py:216-250 | the seed fails exactly with fewer than five accounts; otherwise it returns "marvel" and then "dc", and keeps the constraints |
| Seed.SeedNewTeamMembers | octofit-tracker/backend/octofit_tracker/management/commands/populate_db.py:234-246 | a newly created team's members are exactly the given ones, each with the given role |
| Seed.SeedTeamAppendsOwnRows | octofit-tracker/backend/octofit_tracker/management/commands/populate_db.py:225-246 | a seeding step keeps the stored rows and appends only rows of its own team |
| Seed.SecondTeamKeepsFirst | octofit-tracker/backend/octofit_tracker/management/commands/populate_db.py:224-248 | seeding a second team leaves the first team's members and roles as written |
| Seed.SecondTeamMembers | octofit-tracker/backend/octofit_tracker/management/commands/populate_db.py:224-248 | the second team seeded has exactly its given members with their roles |
| Seed.SuperheroTeamsLayout | octofit-tracker/backend/octofit_tracker/management/commands/populate_db.py:216-250 | "marvel" is owned by the first account and its members are exactly the first four; "dc" is owned by the fifth account and its members are exactly the fifth to the eighth, as many as exist; in each the owner has `owner` and the rest `member` |
| Seed.MarvelLayout | octofit-tracker/backend/octofit_tracker/management/commands/populate_db.py:216-248 | "marvel" is owned by the first account; its members are exactly the first four, the first as `owner` and the rest as `member` |
| Seed.DcLayout | octofit-tracker/backend/octofit_tracker/management/commands/populate_db.py:216-250 | "dc" is owned by the fifth account; its members are exactly the fifth to the eighth, as many as exist, the fifth as `owner` and the rest as `member` |
| Seed.MarvelSeedFacts | octofit-tracker/backend/octofit_tracker/management/commands/populate_db.py:219-241 | the marvel seed lists the first four accounts, distinct, the first with role `owner` |
| Seed.DcSeedFacts | octofit-tracker/backend/octofit_tracker/management/commands/populate_db.py:218-241 | the dc seed lists the fifth to eighth accounts, distinct, the fifth with role `owner` and the rest `member` |
| Seed.SampledRoles | octofit-tracker/backend/users/management/commands/populate_db.py:220 | the owner gets `owner`; everybody else gets the drawn role |
| Seed.Picked | octofit-tracker/backend/users/management/commands/populate_db.py:219 | the picked accounts' keys, in sample order |
| Seed.DrawRows | octofit-tracker/backend/users/management/commands/populate_db.py:216-225 | one row per sampled account, in sample order, joined now, with `owner` for the owner and the drawn role for everyone else |
| Seed.SeedSampledTeam | octofit-tracker/backend/users/management/commands/populate_db.py:208-225 | created exactly when the name is free, under that name, with the given owner and a fresh key, appended to the teams; a taken name changes nothing; in valid tables with distinct accounts a new team gets exactly the rows of its draw appended; the constraints are kept |
| Seed.SeedSampledTeams | octofit-tracker/backend/users/management/commands/populate_db.py:199-229 | the seed fails exactly with fewer than five accounts; otherwise it returns the three named teams in order, and keeps the constraints |
| Seed.SampledTeamsRows | octofit-tracker/backend/users/management/commands/populate_db.py:199-229 | into valid tables holding none of the names, the three teams are appended, owned by the first, second and fifth accounts, each followed by exactly the rows of its draw |
| Seed.SeedTeamRerun | octofit-tracker/backend/users/management/commands/populate_db.py:209-218 | re-running a team step creates nothing and adds no member |
| PlanSeed.WeeklyPlanFor | octofit-tracker/backend/octofit_tracker/management/commands/populate_db.py:286-293 | the plan belongs to the account; its name is the first name then "'s Weekly Plan"; its description is "Custom workout plan for " then the first name; it lasts 7 days, is active, and has the drawn difficulty |
| PlanSeed.AppendPlanDaysKeepsUnique | octofit-tracker/backend/workouts/models.py:75 | appending the days of a plan that had none keeps `(plan, day_number)` unique |
| PlanSeed.SeedPlans | octofit-tracker/backend/octofit_tracker/management/commands/populate_db.py:281-316 | fails exactly when there are accounts but no templates; otherwise one plan per account, in order, each followed by its laid-out week, with stored rows kept and the day constraint preserved |

## Left out

- Randomness: `random.sample`, `random.randint` and `random.choice` are
  inputs (`Draw`, `picks`, `samples`, `difficulties`). Their predicates only
  admit values the library can produce. The distribution is not modelled.
- The ORM: `get_or_create` races, bulk deletes at the start of
  `handle`, cascading deletes, `updated_at`, and `auto_now_add` are not
  modelled. Clocks are parameters.
- Teams.FreshTeamId / Leaderboards.SeedLeaderboard / PlanSeed.SeedPlans:
  team, leaderboard and seeded plan keys are modelled as one above the
  largest stored key, that is, an auto-increment counter that never saw a
  delete. The database promises only some unused key, and after the bulk
  clear at the start of `handle` its counter does not restart at 1.
- The other seed steps are not part of this model, because they only insert
  fixed data: account, profile, activity and workout-template creation.
- Serializers, URL routing, authentication, admin classes, the `SearchFilter`
  and `OrderingFilter` query parameters, the `DjangoFilterBackend`
  `filterset_fields` parameters, and the frontend are not modelled.
- ActivityViews.VisibleActivities / WorkoutViews.VisiblePlans: the
  `filterset_fields` parameters (`activity_type`, `user` and `intensity` for
  activities; `difficulty_level`, `is_active` and `user` for plans) narrow
  the source's listings further, so `?intensity=high` hides the requester's
  other activities. The model's listing is the one for a request without
  them, and "every viewable record is listed" holds only for such a request.
- Floating point: calories are whole numbers, and `distance_km`, height and
  weight are carried without arithmetic.
- Leaderboards.BuildEntries: `team.members.all()` has no declared ordering.
  The model enumerates members in membership-insertion order, which is one
  possible database order.
- Listing orders: ties on `created_at`, `joined_at`, `activity_date` or
  `day_number` keep stored order. The database's tie order is unspecified.
- TeamViews.AddMember: `role` is one of the three roles. An arbitrary string
  in the request is not modelled, because the view does not validate it.
  `user_id` is an integer or absent, and a non-numeric string is not
  modelled.
- TeamViews.AddMember: a foreign-key violation (an unknown `user_id`) is a
  failed request with status 400, as the view's `except Exception` reports
  it. The exception text is not modelled.
- TeamViews.RemoveMember: `user_id` is an integer or absent. A non-numeric
  string makes the membership lookup raise `ValueError`, which only
  `DoesNotExist` is caught around, so the source answers 500. That request is
  not modelled.
- Visibility.OwnerScoped / ActivityViews.VisibleActivities / WorkoutViews.VisiblePlans:
  `user_id` is an integer or absent. A non-numeric or empty query string,
  which makes the source's lookup raise `ValueError` (a 500 response), is not
  modelled.
- Profiles.CreateProfile: only the one-to-one constraint is checked. The
  `age` validators (1 to 150) are declared on the profile record's field,
  whose other fields are outside this model, so an out-of-range `age` is not
  refused.
- ActivityViews.CreateActivity / TeamViews.CreateTeam / WorkoutViews.CreatePlan:
  the serializer's `CharField` trims surrounding whitespace before its blank
  and length checks, so a title or name of only spaces is refused as blank,
  and a padded one is stored trimmed. The model checks and stores the string
  as submitted.
- ActivityViews.CreateActivity / TeamViews.CreateTeam / WorkoutViews.CreatePlan / Profiles.CreateProfile:
  the submitted owner (`user`, `owner_id` for teams, the write-only
  `user_id` for profiles) is required and must be an existing account, or
  the serializer answers 400. The model stores
  the requester as owner and does not model a missing or unknown submitted
  owner.
- Seed.SeedSuperheroTeams / Seed.SeedSampledTeams: fewer than five accounts
  give `TooFewUsers`, where the source raises `IndexError` while building
  its team list, before any write.
- PlanSeed.SeedPlans / Workouts.LayOutWeek: an empty template list with at
  least one account gives `NoWorkoutForRestDay`. In the source this is the
  `IndexError` at `workouts[0]`, raised after the plan row is written; that
  half-written plan is not kept in the model.

## Findings

| source | as written | input that shows it | evidently intended | confidence | as-written member | corrected member |
|---|---|---|---|---|---|---|
| octofit-tracker/backend/octofit_tracker/management/commands/populate_db.py:263 (and octofit-tracker/backend/users/management/commands/populate_db.py:242) | `activities.filter(user=member)` and `member_activities.count()` are called on the plain list that `create_activities` returns, which has neither method, so the first member of a newly created leaderboard raises `AttributeError` | an empty board and one team with one member: the run stops after inserting the leaderboard, with no entry rows | select the member's activities from the list, count them with `len`, and store one row per member | not executed | Leaderboards.CreateLeaderboardsAsWritten (shown by Leaderboards.AsWrittenCrashesOnFirstMember and Leaderboards.AsWrittenStoresNoRows) | Leaderboards.CreateLeaderboards (with Leaderboards.BuildEntriesShape and Leaderboards.SeedLeaderboardKeepsValid) |
