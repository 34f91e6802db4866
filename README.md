# teamRU team bookkeeping in Dafny

This project models the team-formation core of teamRU, a hackathon team-matching
service. The service keeps two document collections:

- `users`, keyed by email. Each record holds `hasateam`, `skills`, `prizes` and
  `potentialteams`.
- `teams`, keyed by team name. Each record holds `members`, `desc`,
  `partnerskills`, `prizes`, `complete` and `interested`.

The model covers the handlers that read and write those collections:

- founding a team (`create_team`)
- a member adding a solo partner straight into the team (`add_member`)
- a team confirming an interested solo hacker (`confirm`)
- reading and editing a team profile (`get_team_profile`, `update_team_profile`)
- writing a user profile (the POST branch of `update_profile`)
- recommending solo users to a team (`get_individual_recommendations`)

The store is a class, `Store.Db`, with this state:

- the two collections, as maps
- the order in which their keys were inserted

That order is the order in which a query visits the records. A membership
lookup (`find_one({"members": {"$all": [email]}})`) therefore returns the first
team in that order. The writes (`update_one`, `insert`) and the membership
lookup are methods of `Store.Db`. An `update_one` on a missing key changes
nothing, and an insert appends the new key to the order. A read of one record
by its key (`find_one({"_id": …})`, also with `hasateam` or `complete` in the
filter) reads the map fields directly, and the `aggregate` query of the
recommendations is the function `Matching`.

Each of the five handlers that write has a pure function, `…Outcome`, that
gives the status code and the store it leaves. Each of them is also an
imperative method that performs the same reads and writes in the same order
as the source, and that method is proved to end in exactly the state the
function gives. The two read-only handlers, `get_team_profile` and
`get_individual_recommendations`, are methods whose postconditions state
their answers directly. The lemmas then state what the handlers promise:

- each error code and the exact condition that produces it
- that an error path writes nothing
- which records a success rewrites, and that every other record is unchanged
- that the key order stays a duplicate-free index of each collection

The module `MembershipInvariant` states the cross-record consistency of the
two collections:

- a user's `hasateam` is set exactly when a team lists that user
- no user is listed by two teams
- a team lists distinct members, and at most four of them

Every handler keeps this consistency. The one exception is `confirm`, which
keeps it only when the hacker has a teamless record. Two concrete stores
show how it breaks otherwise: one for a hacker already in a team, and one for
a hacker with no record. None of the modelled handlers ever sets a
team's `complete` flag.

For recommendations, the model proves three things about the result:

- a user is recommended exactly when they are teamless and list one of the
  team's wanted skills or one of its prizes
- no user is recommended twice
- skill matches come first, in the order of first occurrence across the queries

Three behaviours of the code are worth knowing. The model follows the code
in each.

- **The `complete` flag.** A team is meant to count as complete once it has
  four members; `add_member` guards a write of the flag with
  `team_size == 4`. That size is read *before* the push, and a team of that
  size was already refused, so the flag is never set
  (`AddTeamMember.CompleteNeverSet`,
  `AddTeamMember.FourthMemberLeavesTeamIncomplete`). `AddTeamMember.AddMember`
  keeps that branch and proves it unreachable instead of issuing the write.
- **`confirm`.** It takes one solo hacker into the caller's team, and it does
  not look at the hacker's record first.
- **Names in recommendations.** For every new candidate the handler asks the
  directory for a token and then for a name, but it looks up the
  *requester's* name with the requester's email, not the candidate's. The
  model takes every directory answer within one request to be the same, and
  so attaches one name to every candidate (`AttachedName`). A failed look-up's answer is
  attached as it comes back, which the model writes as `None`.

## Model

| member | source | states |
|---|---|---|
| Store.FirstTeamWith | app/add_team_member.py:20 | the team found is in the order, exists and lists the email; nothing is found exactly when no team in the order lists it |
| Store.TeamOf | src/teams/team_profile.py:22 | the team found for an email exists and lists that email |
| Store.TeamOfFindsTheTeam | src/teams/team_profile.py:22-24 | in a well-formed store the lookup finds a team whenever some team lists the email, and finds that very team when it is the only one |
| Store.Without | src/teams/confirm_member.py:49-51 | `$pull` removes every occurrence of the value, keeps every other entry with its multiplicity, never grows the list, and changes nothing when the value is absent |
| Store.Db.FindTeamOf | src/teams/team_profile.py:22 | the scan over the teams in natural order returns what the membership lookup specifies |
| Store.Db.UpdateUser | src/teams/start_a_team.py:21 | `update_one` on users applies the change to the named record if it exists, and otherwise changes nothing; the key index stays well-formed |
| Store.Db.InsertUser | app/add_team_member.py:30 | inserting a new user adds the record and appends its key to the order |
| Store.Db.UpdateTeam | app/add_team_member.py:31 | `update_one` on teams applies the change to the named record if it exists, and otherwise changes nothing |
| Store.Db.InsertTeam | src/teams/start_a_team.py:22-24 | inserting a new team adds the record and appends its key to the order |
| StartATeam.CreateTeam | src/teams/start_a_team.py:8-25 | the handler's reads, guards and two writes leave exactly the code and store of `CreateTeamOutcome` |
| StartATeam.MissingUserComesFirst | src/teams/start_a_team.py:12-13 | 403 exactly when the founder has no record, even when the name is taken, with no write |
| StartATeam.TakenNameRejected | src/teams/start_a_team.py:14-15 | for a known founder, 401 exactly when the team name exists, with no write |
| StartATeam.TeamedFounderRejected | src/teams/start_a_team.py:17-19 | for a known founder and a free name, 402 exactly when the founder already has a team, with no write |
| StartATeam.CreateTeamSuccess | src/teams/start_a_team.py:20-25 | on 200 the founder is marked teamed; the new team holds only the founder, the given description, skills and prizes, is not complete and has no interested teams; no other record changes; the store stays well-formed |
| StartATeam.CreateTeamCodes | src/teams/start_a_team.py:8-25 | the answer is one of 200, 401, 402, 403; 200 exactly when the founder is known and teamless and the name is free; only 200 writes |
| AddTeamMember.AddMember | app/add_team_member.py:5-42 | the handler's checks and writes leave exactly the code and store of `AddMemberOutcome` |
| AddTeamMember.AddMemberChecksFirst | app/add_team_member.py:6-19 | in this order and before any store check: a failed session check gives 404, a missing or empty partner email 400, a failed token request 401, a partner without a directory account 402, each with no write; when all pass, the answer and store are exactly those of the store part |
| AddTeamMember.AddPartnerCodes | app/add_team_member.py:20-42 | the store part answers one of 200, 403, 405, 406; 405 exactly when the caller is in no team; 200 exactly when the caller's team is not flagged complete, has fewer than four members and the partner is unknown or teamless; only 200 writes |
| AddTeamMember.CallerWithoutTeam | app/add_team_member.py:20-22 | a caller in no team gets 405 with no write |
| AddTeamMember.FullTeamRejected | app/add_team_member.py:23-27 | 403 exactly when the team is flagged complete or has four members, with no write |
| AddTeamMember.TeamedPartnerRejected | app/add_team_member.py:34-42 | for a team with room, 406 exactly when the partner has a record that says teamed, with no write |
| AddTeamMember.PartnerJoins | app/add_team_member.py:28-40 | on 200 the partner is appended once to the caller's team, which stays within four; an unknown partner gets a new teamed record with empty lists; a known partner changes only `hasateam`; no other record changes |
| AddTeamMember.CompleteNeverSet | app/add_team_member.py:24-39 | no path of the store part changes any team's `complete` flag |
| AddTeamMember.FourthMemberLeavesTeamIncomplete | app/add_team_member.py:24-39 | a three-member team that takes a fourth member is full but still not flagged complete |
| ConfirmMember.Confirm | src/teams/confirm_member.py:41-52 | the handler's lookups and four writes leave exactly the code and store of `ConfirmOutcome`, including the server error when the caller is in no team |
| ConfirmMember.MarkJoined | src/teams/confirm_member.py:48-49 | the two user writes set `hasateam` and pull the team from `potentialteams` of an existing record, and change nothing otherwise |
| ConfirmMember.TakeIn | src/teams/confirm_member.py:50-51 | the two team writes push the hacker onto `members` and pull it from `interested` |
| ConfirmMember.ServerErrorExactly | src/teams/confirm_member.py:42-52 | the server error happens exactly when the caller is in no team, with no write; the only other answers are 402 and 200 |
| ConfirmMember.FullTeamRejected | src/teams/confirm_member.py:42-47 | 402 exactly when the team has four or more members or is flagged complete, with no write |
| ConfirmMember.HackerJoins | src/teams/confirm_member.py:48-52 | on 200 a known hacker is marked teamed, loses every occurrence of this team from its potential teams while the other entries keep their multiplicities, and keeps its skills and prizes; the team gains the hacker at the end, stays within four, loses the hacker from `interested` and keeps its other entries; no other record changes |
| ConfirmMember.OutcomeIgnoresHackerRecord | src/teams/confirm_member.py:42-52 | the answer does not depend on the users collection, so not on whether the hacker already has a team |
| ConfirmMember.TeamedHackerJoinsSecondTeam | src/teams/confirm_member.py:42-52 | a hacker already in one team is confirmed into another and is then listed by both |
| TeamProfile.GetTeamProfile | src/teams/team_profile.py:21-28 | 401 for a caller in no team, 403 for a caller of another team, and otherwise 200 with the caller's team record |
| TeamProfile.UpdateTeamProfile | src/teams/team_profile.py:56-89 | the handler's guards, field picks and single write leave exactly the code and store of `UpdateTeamProfileOutcome` |
| TeamProfile.GuardsRejectOutsiders | src/teams/team_profile.py:56-63 | 401 exactly when the caller is in no team, 403 exactly when it is another team, 200 exactly when it is the named team; no write unless 200 |
| TeamProfile.MergeFields | src/teams/team_profile.py:65-78 | each editable field takes its keyword's value when given and keeps the stored value otherwise; `members` and `complete` are untouched |
| TeamProfile.UpdateIdempotent | src/teams/team_profile.py:65-87 | with no keywords the store is unchanged, and repeating an update gives the same answer and store as doing it once |
| TeamProfile.SameMembersSameLookup | src/teams/team_profile.py:57 | a write that leaves every team's members alone does not change what the membership lookup finds |
| TeamProfile.UpdateTouchesOnlyProfile | src/teams/team_profile.py:80-87 | the update changes no user, no team key and no other team, and never changes any team's members or `complete` flag |
| UserProfile.UpdateProfile | app/user_profile.py:7-38 | the POST branch's checks and single write leave exactly the code and store of `UpdateProfileOutcome` |
| UserProfile.UnvalidatedRejected | app/user_profile.py:7-8 | a failed session check gives 404 whatever the body, with no write |
| UserProfile.MissingSkillsRejected | app/user_profile.py:24-25 | for a valid session, 400 exactly when skills are absent or empty, with no write |
| UserProfile.ProfileWritten | app/user_profile.py:26-38 | an existing record gets the new skills and prizes (absent prizes become empty) and keeps `hasateam` and `potentialteams`, answering 200; a new record is teamless with no potential teams, answering 201; the caller then has exactly one record and nothing else changes |
| UserProfile.OnceInIndex | app/user_profile.py:31-37 | a key of a collection occurs exactly once in its order |
| IndividualRecommendations.GetIndividualRecommendations | app/individual_recommendations.py:7-63 | 408 for a missing email or token, 404 for a failed session, 400 for a caller in no team, 401 for a team with no wanted skills; otherwise the ids returned are the recommended ones, each match carries its user's record and the attached name, and the answer is 402 exactly when there are none |
| IndividualRecommendations.Recommend | app/individual_recommendations.py:26-59 | the two loops return the deduplicated skill matches followed by the prize matches, each match carrying its current record and the name |
| IndividualRecommendations.CollectPhase | app/individual_recommendations.py:28-43 | one phase's loop over its tags extends what was seen by that phase's whole pool and keeps the matches equal to the first occurrences of what was seen |
| IndividualRecommendations.CollectBatch | app/individual_recommendations.py:34-43 | the loop over one query's result keeps each id not taken before, in order |
| IndividualRecommendations.Take | app/individual_recommendations.py:35-43 | a document whose id is new is appended with its name and its id is recorded; a repeated id is skipped |
| IndividualRecommendations.Matching | app/individual_recommendations.py:29-31 | the query yields exactly the teamless users listing the tag (its body keeps them in natural order; the contract states membership only) |
| IndividualRecommendations.PoolMembers | app/individual_recommendations.py:28-31 | a phase's queries together yield exactly the teamless users listing one of its tags |
| IndividualRecommendations.DedupMembers | app/individual_recommendations.py:35-36 | keeping first occurrences lists each yielded id once and nothing else |
| IndividualRecommendations.DedupSnoc | app/individual_recommendations.py:35-36 | one more yielded id is kept exactly when it was not seen before |
| IndividualRecommendations.PoolStep | app/individual_recommendations.py:28-31 | a phase's pool over one more tag is the pool so far followed by that tag's query result |
| IndividualRecommendations.RecommendedDistinct | app/individual_recommendations.py:35-36 | no user is recommended twice |
| IndividualRecommendations.RecommendedExactly | app/individual_recommendations.py:28-59 | a user is recommended exactly when teamless and listing one of the wanted skills or one of the team's prizes |
| IndividualRecommendations.DedupFirstOccurrence | app/individual_recommendations.py:34-43 | the kept ids are in the order of their first occurrence |
| IndividualRecommendations.DedupPrefix | app/individual_recommendations.py:44-59 | what the second loop adds comes after everything from the first loop, and is new |
| IndividualRecommendations.RecommendedOrder | app/individual_recommendations.py:28-59 | the skill matches come first, as their own deduplication; the rest are prize-only matches; the whole list is in first-occurrence order across all queries |
| MembershipInvariant.JoinKeepsConsistent | app/add_team_member.py:36-37 | taking a user listed by no team into a team with room, and marking them teamed, keeps the two collections consistent |
| MembershipInvariant.CreateTeamKeepsConsistent | src/teams/start_a_team.py:17-25 | founding a team keeps the collections consistent and flags no team complete |
| MembershipInvariant.AddMemberKeepsConsistent | app/add_team_member.py:28-40 | adding a partner keeps the collections consistent and flags no team complete |
| MembershipInvariant.ConfirmKeepsConsistent | src/teams/confirm_member.py:48-52 | confirming a hacker whose record says teamless keeps the collections consistent and flags no team complete |
| MembershipInvariant.ConfirmCanBreakConsistency | src/teams/confirm_member.py:42-52 | from a consistent store, confirming a hacker who already has a team leaves an inconsistent one |
| MembershipInvariant.ConfirmUnknownHackerBreaksConsistency | src/teams/confirm_member.py:48-52 | from a consistent store, confirming a hacker with no user record leaves a team listing a member without a record |
| MembershipInvariant.UpdateTeamProfileKeepsConsistent | src/teams/team_profile.py:80-87 | a team-profile update keeps the collections consistent and flags no team complete |
| MembershipInvariant.UpdateProfileKeepsConsistent | app/user_profile.py:31-38 | a user-profile write keeps the collections consistent and flags no team complete |
| MembershipInvariant.UsersRewriteKeepsConsistent | app/user_profile.py:33-37 | a users-only write that keeps each `hasateam` and adds only teamless records keeps consistency |
| MembershipInvariant.TeamlessInNoTeam | src/teams/start_a_team.py:17-18 | in a consistent store a user without a record, or marked teamless, is listed by no team |
| MembershipInvariant.DistinctSnoc | app/add_team_member.py:37 | appending a new member to a list of distinct members keeps it distinct |

## Left out

- The directory service (`call_validate_endpoint`, `call_auth_endpoint`, `get_name`) is external. The model takes its answers as inputs: `validated`, `authOk` and `partnerHasAccount` as booleans, and name look-up as a function `getName`. Each answer is fixed within one request.
- `strip().lower()` and `format_string` are string code the model does not define. They are function parameters (`norm`, `format`).
- HTTP and Flask glue is not modelled: request parsing, JSON response bodies, the feature-flag and login decorators, and non-POST/GET request methods. A missing JSON body or field is an absent (`None`) input.
- The module `src/flaskapp/api.py` and the team-to-team invite/reject/rescind protocol are not part of this model.
- The first (`HEAD`) version of `confirm` in `src/teams/confirm_member.py` is not modelled. Only the second version, after the merge marker, is.
- `app/lcs.py` and `app/team_profile.py` are not part of this model.
- The GET branch of `update_profile` is not modelled. `update_profile` takes no arguments, yet reads `email` and `token` at `app/user_profile.py` line 7, before either branch, and defines neither, so as written every call fails there by referring to an undefined name. The model takes both as parameters (`token` only through the session answer `validated`, since the POST branch never uses it).
- TeamProfile.GetTeamProfile: returns the team record without the members' display names the source collects in a loop (`team_profile.py` lines 30-40), because there the directory's answers are arbitrary per member.
- The database's natural order is assumed to be insertion order.
- Every record is assumed to hold all its fields. A user that `add_member` inserts gets an empty `potentialteams`, and it has no other effect: only a `$pull` reads that field, and a `$pull` on a missing field does nothing. A team's missing `partnerskills` or `prizes` is therefore the same as an empty one.
- A caller in no team makes `confirm` subscript a missing document. The model writes this as the status code 500 (`ServerError`) with no write, standing for the exception.
- Concurrent requests and atomicity across the separate writes of one handler are not modelled. Each handler runs alone.
- MembershipInvariant.ConfirmKeepsConsistent: requires the hacker to have a teamless record, a condition the handler itself never checks. `ConfirmCanBreakConsistency` (a hacker already in a team) and `ConfirmUnknownHackerBreaksConsistency` (a hacker with no record) show the stores it produces without the condition.
