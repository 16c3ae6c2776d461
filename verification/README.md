# Verified model of the console's core logic

This project models the parts of the platform whose answers other parts rely on, and proves what those answers mean.
It covers three areas.

* **Path geometry of the web application** (`app/src/utils/utils.ts`): crossing segments, nearest points, a polyline
  against a rectangle, two paths within a threshold, resampling. Each function is a finite test for a statement about
  infinitely many points; the project proves for which inputs the test is right.
* **Identity and access state of the API** (`service.go`, `notifications_service.go`, `presence_service.go` and
  `settings_service.go` of the `iam` module): cached permission decisions, team lists stored with memberships, refresh
  and action tokens, recovery codes, notification routing and its simulator, role listings, presence, license keys.
  The database is a set of in-memory tables, one request is one step, time is a number that does not go backwards.
* **Text editing of manifests** (`manifest-assistant.ts`): setting a metadata field line by line, printing and extracting
  secret entries.

## Layout

| file | subject |
|---|---|
| `Segments.dfy`, `Proximity.dfy`, `ShortArm.dfy` | two segments: crossing, nearest point, when their distance is taken at an end |
| `Paths.dfy`, `Rectangles.dfy`, `Sampling.dfy` | the loops over paths, rectangles and samples |
| `SampledAnswers.dfy` | the answers before and after resampling |
| `Permissions.dfy`, `AllowedByRows.dfy` | permission decisions and their cache; what the tables must hold for them |
| `Teams.dfy`, `TeamRows.dfy`, `TeamReach.dfy` | stored team lists against the team tables, every request row by row, and what the permission check makes of the lists |
| `Sessions.dfy`, `SessionRequests.dfy` | logins, refresh tokens, action tokens, recovery codes; when each request is accepted and what it leaves |
| `Routing.dfy`, `Deliveries.dfy` | dispatcher and simulator; what decides a delivery |
| `Sanitize.dfy`, `StoredRules.dfy` | cleaned filter lists, stored rules |
| `Roles.dfy`, `RoleListing.dfy` | one role per slug, sorting, paging, and what a request is shown |
| `Presence.dfy`, `PresenceRows.dfy` | who is online, told by touches and seconds |
| `License.dfy`, `LicenseRows.dfy` | primary license keys; every request field by field |
| `ManifestMetadata.dfy`, `ManifestPatterns.dfy`, `ManifestSecrets.dfy` | the two text editors, and the patterns they test lines with |
| `ManifestReturns.dfy`, `ManifestLaws.dfy` | the laws of the metadata editor where the text has stray carriage returns |
| `Text.dfy`, `Wrappers.dfy` | case folding, trimming, splitting and joining, order of strings; values that may be missing |

Coordinates are exact reals and distances are compared through their squares, so no square root is needed; the constant
`1e-10` of the parallel test is kept. Orders the languages leave open (iteration over a map, rows of a query without an
order) are open in the model too: a method picks any element, and the theorems hold for every choice. Methods are
proved against functions on values; what those functions mean is proved as lemmas beside them.

## Where a promise holds only in part

The model follows the code, and these theorems say exactly where the code does what its name promises.

* `pathsIntersect` is right about all paths precisely for thresholds from `0.000005` on (the default is 1); on whole-number
  coordinates every positive threshold is right. Below the bound a small plus sign crosses unseen, at 0 an overlap does, and
  a negative threshold does not stop crossings from being reported.
* `polylineIntersectsRectangle` misses exactly the *blind* displacements: too short for all four edge tests, yet cutting a
  corner or longer than a side. With whole-number coordinates and positive sides there are none.
* Resampling changes no answer of `pathsIntersect` precisely at thresholds from `0.000005` on: below, a large plus sign is
  found as it is and missed once sampled. It changes no answer of the rectangle test precisely for maximum distances `m` that are
  negative, or positive with `m²w²h² >= 4e²(w²+h²)`, where `w` and `h` are the sides, neither empty, and `e` is `1e-10`; below,
  some segment is hit before and missed after.
* Rules for a kind that are all disabled, or a rule whose kind differs from the integration's in case only, make the routing
  simulator refuse what the dispatcher sends. What it predicts is always sent. It is right about every notification precisely
  when no rule is meant for the kind, or one is enabled and those spelled differently match nothing that the others do not.
* A simulation with tags fails when the request has no metadata object to put them into.
* A routing rule with a filter of blanks only lets nothing pass as asked for and everything once stored, where the filter is
  empty. A rule created as disabled is stored enabled, because the column's default replaces a false switch; an update keeps it.
* A request that names a team of another organisation can leave that organisation's stored team lists behind, until a request
  of its own repairs them; other organisations are not touched. The seeded list with the entry `platform` disagrees with the
  tables until the first synchronising request.
* Queries are always answered from the last sixty seconds precisely when no two of them share a cache key. Two queries can share
  one only when a field other than the resource id has a colon.
* Two roles with equal sort keys come out in the order of the map, so two requests may list them differently. A page number
  whose offset wraps around in 64 bits shows roles from the front again or fails.
* Listing license keys seeds an `active` primary key even when the license record says otherwise, and fails when the license
  text is a key already. Right after a key is made primary the license record carries it, unless the year of its expiry has not
  four digits in UTC: then the error of the promotion is dropped and the record stays as it was. Once it carries the key it goes
  on doing so until such a promotion, a request that writes other data into it, or a seed while it is not active.
* Setting a metadata field of a text without a metadata block puts a new block on top, which takes in field-like lines the text
  begins with. A value set is read back unless the block hides, before the place of the edit, a line ending in a carriage return
  that becomes a field once the carriage return goes: then that line's value is read, whatever was set. A second set erases the
  first unless some other line with another below it ends in a carriage return.
* Secret entries whose keys contain a colon come back changed; all others come back as they were.

## Model

| member | source | states |
|---|---|---|
| Segments.CrossingTestDecides | app/src/utils/utils.ts:8-26 | the crossing test answers yes exactly when the segments share a point and the denominator is not below the bound of the parallel test |
| Segments.CrossingParameters | app/src/utils/utils.ts:19-23 | off the parallel case the two quotients are the only parameters at which the lines meet |
| Segments.ClosestPointIsNearest | app/src/utils/utils.ts:101-121 | the returned point lies on the segment and no point of the segment is nearer, zero-length segments included |
| Segments.ClosestPointDecides | app/src/utils/utils.ts:94-121 | the distance to the returned point is within reach exactly when some point of the segment is |
| Proximity.NearDecided | app/src/utils/utils.ts:131-176 | two segments come within a distance exactly when they cross off the parallel case or an end of one is within that distance of the other |
| Proximity.SlideToCrossing | app/src/utils/utils.ts:152-172 | lines that cross outside the segments: moving towards the crossing shrinks the gap until an end is reached |
| Proximity.SlideAlong | app/src/utils/utils.ts:152-172 | parallel segments: sliding both points keeps the gap until an end is reached |
| Proximity.CrossOrEnd | app/src/utils/utils.ts:131-176 | no two points of two segments are nearer than some end is to the other segment, unless the segments cross |
| ShortArm.CrossingHasNearEnd | app/src/utils/utils.ts:20 | a crossing always has an end within half the square root of the denominator of the other segment, so a crossing hidden by the parallel test is near |
| Paths.PathsIntersect | app/src/utils/utils.ts:124-180 | the nested loops answer what the pairs of pieces say, and for thresholds from 0.000005 on whether some point of one path is within the threshold of some point of the other |
| Paths.DetectionSound | app/src/utils/utils.ts:124-180 | a positive answer at a threshold that is not negative is always right |
| Paths.NearPairDetected | app/src/utils/utils.ts:131-176 | a near pair of pieces is found unless the parallel test hides its crossing and the threshold is tiny |
| Paths.DetectionExact | app/src/utils/utils.ts:124-180 | exactness for thresholds from 0.000005 on, or when no two pieces are almost parallel |
| Paths.WholePathsExact | app/src/utils/utils.ts:124-180 | exactness for every positive threshold on whole-number coordinates |
| Paths.ExactThresholds | app/src/utils/utils.ts:124-180 | the thresholds right about all real paths are precisely those from 0.000005 on |
| Paths.TinyPlusMissed | app/src/utils/utils.ts:20 | below the bound a plus sign of suitable size is missed |
| Paths.OverlapMissed | app/src/utils/utils.ts:143 | at threshold 0 an overlap is missed |
| Paths.NegativeThresholdCrossing | app/src/utils/utils.ts:131-143 | at negative thresholds crossings are still reported |
| Rectangles.PolylineIntersectsRectangle | app/src/utils/utils.ts:63-91 | the loops answer whether a vertex is inside or an edge is hit, and without blind pieces whether some point of the polyline is in the rectangle |
| Rectangles.RectangleSound | app/src/utils/utils.ts:63-91 | a positive answer is always right for sides that are not negative |
| Rectangles.OutsidePieceDecided | app/src/utils/utils.ts:76-88 | a piece with both ends outside, not blind, with a point inside hits an edge, although edges parallel to it are skipped |
| Rectangles.RectangleExact | app/src/utils/utils.ts:63-91 | exactness for polylines without blind pieces |
| Rectangles.BlindDisplacements | app/src/utils/utils.ts:20-88 | a displacement is answered rightly wherever it is placed exactly when it is not blind |
| Rectangles.BlindPieceMissed | app/src/utils/utils.ts:20-88 | every blind displacement is missed from some starting point |
| Rectangles.WholeRectangleExact | app/src/utils/utils.ts:63-91 | exactness on whole-number coordinates with positive sides |
| Sampling.CeilRatio | app/src/utils/utils.ts:198 | the number of pieces is the least n with n times the maximum reaching the distance |
| Sampling.PushBetween | app/src/utils/utils.ts:199-206 | the inner loop appends the inner points of the equal division, in order |
| Sampling.PushSegment | app/src/utils/utils.ts:191-210 | one round of the outer loop appends the equal division of its segment, ending in the vertex itself |
| Sampling.SamplePathPoints | app/src/utils/utils.ts:183-213 | the loops produce the resampled path the lemmas below are about, and the path itself for a maximum of 0 and equal points |
| Sampling.SamplingKeepsCurve | app/src/utils/utils.ts:183-213 | a point is on the samples' polyline exactly when it is on the original path |
| SampledAnswers.SamplingKeepsPathsIntersect | app/src/utils/utils.ts:124-213 | resampling either path changes no answer of the path test at thresholds from 0.000005 on |
| SampledAnswers.SamplingExactThresholds | app/src/utils/utils.ts:124-213 | the thresholds at which resampling never changes an answer, for any two paths and maxima, are precisely those from 0.000005 on |
| SampledAnswers.SampledPlusMissed | app/src/utils/utils.ts:124-213 | below the bound, 0 and negative thresholds included, a plus sign is found as it is and missed when sampled at a third of its length |
| SampledAnswers.SamplingKeepsRectangle | app/src/utils/utils.ts:63-213 | resampling changes no answer of the rectangle test for any path, blind pieces included, when the maximum is harmless: negative, or wide enough for a rectangle without an empty side |
| SampledAnswers.SamplingExactMaxima | app/src/utils/utils.ts:63-213 | a maximum changes no answer for any path exactly when it is negative, or neither side is empty and m²w²h² >= 4e²(w²+h²) |
| SampledAnswers.SampledSegmentMissed | app/src/utils/utils.ts:63-213 | for every smaller positive maximum some path is found before and missed after |
| SampledAnswers.EmptySideMisleads | app/src/utils/utils.ts:63-213 | with an empty side, for every positive maximum some path is missed before and found after |
| Sampling.VerticesKept | app/src/utils/utils.ts:189-209 | every original vertex is kept, in order, both ends in place |
| Sampling.SamplePosition | app/src/utils/utils.ts:200-204 | each sample lies on its source segment, at equal steps |
| Sampling.SamplesClose | app/src/utils/utils.ts:196-207 | consecutive samples are at most the maximum apart |
| Sampling.FewestPieces | app/src/utils/utils.ts:196-198 | a segment is cut into the fewest equal pieces that meet the bound |
| Text.JoinSplit | app/src/features/kubernetes/manifest-assistant.ts:77 | joining what was split gives the text back |
| Text.SplitJoin | app/src/features/kubernetes/manifest-assistant.ts:102-107 | splitting what was joined gives the lines back when none contains the separator |
| Permissions.PermissionsForUser | api/internal/modules/iam/service.go:1269-1312 | the three maps hold exactly the keys granted through roles, denied and allowed by unexpired overrides |
| Permissions.DecideMember | api/internal/modules/iam/service.go:1234-1266 | the decision is the relational one, with the first reason that stands against it, in the order of the tests |
| Permissions.PermissionService.CheckPermissionDecision | api/internal/modules/iam/service.go:1223-1267 | one check answers from a live cache entry or decides and stores the decision, except for outsiders, and gives the reason |
| Permissions.PermissionService.CacheDecision | api/internal/modules/iam/service.go:1346-1355 | an entry lives for sixty seconds |
| AllowedByRows.OutsidersRefused | api/internal/modules/iam/service.go:1230-1233 | without an active membership row nothing is allowed |
| AllowedByRows.AllowedAnywhere | api/internal/modules/iam/service.go:1234-1244 | without a resource id: allowed exactly when no unexpired denial row and some grant row, by role or override, names the action or all actions on the resource |
| AllowedByRows.AllowedByScope | api/internal/modules/iam/service.go:1245-1266 | with a scope row: besides, its organisation and environment are blank or those asked for, and its team lists the member, or no team is set and the owner is nobody else |
| AllowedByRows.AllowedByServer | api/internal/modules/iam/service.go:1314-1331 | for a server without a scope row: besides, tenant and environment of the server row are blank or those asked for |
| AllowedByRows.AllowedUnscoped | api/internal/modules/iam/service.go:1314-1331 | for any other resource denial and grant decide alone |
| AllowedByRows.ReasonBeforeScope | api/internal/modules/iam/service.go:1234-1243 | which rows lead to the reasons of denial and of a missing grant |
| AllowedByRows.ReasonByScope | api/internal/modules/iam/service.go:1245-1266 | then organisation, environment, team and owner of the scope row, in this order |
| AllowedByRows.ReasonByServer | api/internal/modules/iam/service.go:1245-1266 | then tenant and environment of the server row, in this order |
| AllowedByRows.CacheAfterCheck | api/internal/modules/iam/service.go:1223-1267 | a check stores the decision for sixty seconds exactly when it was not answered from the cache and the user is a member, and touches no other entry |
| AllowedByRows.OtherEvents | api/internal/modules/iam/service.go:1346-1355 | time and table writes leave the cache alone |
| Permissions.CacheKeyInjective | api/internal/modules/iam/service.go:1224 | different queries have different cache keys when no field but the resource id contains a colon |
| Permissions.CleanKeysApart | api/internal/modules/iam/service.go:1224 | the queries without a colon before the resource id have their keys apart |
| Permissions.UncleanKeysCollide | api/internal/modules/iam/service.go:1224 | with a colon elsewhere two queries can share a key |
| Permissions.SharedKeyMisleads | api/internal/modules/iam/service.go:1223-1267 | for any two queries with one key there are tables under which the second, asked right after the first, gets an answer that was never right |
| Permissions.RecentExactly | api/internal/modules/iam/service.go:1223-1267 | a set of queries is answered from the last sixty seconds in every run exactly when no two of them share a key |
| Permissions.CacheExplained | api/internal/modules/iam/service.go:1223-1267 | in every run over any set of queries each entry records the decision of an earlier state for some query of the set with its key |
| Permissions.AnswersAtMostSixtySecondsOld | api/internal/modules/iam/service.go:1223-1267 | in every run over queries with keys apart every answer is the uncached decision on a state that held less than sixty seconds before |
| Teams.KeepsInSync | api/internal/modules/iam/service.go:1814-1866 | a request leaves an organisation in sync, whatever the others look like, exactly when it is the organisation's own or names none of its teams in a way that changes what is listed there |
| Teams.RunsStayInSync | api/internal/modules/iam/service.go:1814-1866 | over every run an organisation in sync at the start stays so throughout exactly when every request of the run is confined with regard to it |
| Teams.OnceSynced | api/internal/modules/iam/service.go:1814-1866 | in every run from any state: from the first synchronising request of an organisation on, it is in sync for as long as the requests are confined, and no longer |
| Teams.OwnOrgInSync | api/internal/modules/iam/service.go:1838-1866 | a synchronising request leaves its own organisation in sync whatever was stored before |
| Teams.SeededUntilFirstSync | api/internal/modules/iam/service.go:243-251 | in every run from the seeded rows the organisation is out of sync up to its first synchronising request, in sync right after it, and then for as long as the requests are confined |
| TeamReach.ListedExactly | api/internal/modules/iam/service.go:1580-1587 | a list in sync contains a team, up to case, exactly when the user has a row of a team of the organisation with that name |
| TeamReach.ReachByRows | api/internal/modules/iam/service.go:1244-1262 | with the list in sync, a resource of a team is in a member's reach exactly when organisation and environment fit and the team tables say that the member belongs to the team |
| TeamReach.ReachAfterRun | api/internal/modules/iam/service.go:1244-1262 | that holds in every run, from any state, once the organisation has been synchronised and while requests are confined |
| Teams.NamesCount | api/internal/modules/iam/service.go:1838-1866 | the order of the joined rows does not matter to the listed names |
| Teams.GroupByUser | api/internal/modules/iam/service.go:1851-1854 | the map collects for each user the names of the user's rows |
| TeamRows.RowsAfterUpdateUser | api/internal/modules/iam/service.go:1826-1836 | after an update a user has the rows asked for and those of other organisations' teams, and nobody else's rows change |
| TeamRows.RowsAfterCreateUser | api/internal/modules/iam/service.go:1826-1836 | after a creation the user has the rows asked for |
| TeamRows.RowsAfterDeleteUser | api/internal/modules/iam/service.go:825-838 | after a deletion the user has no row of the organisation's teams, and all other rows stay |
| TeamRows.RowsAfterTeamRequest | api/internal/modules/iam/service.go:1814-1824 | a created or updated team has the members passed, a deleted one none, and no other team's rows change |
| TeamRows.UserCreated | api/internal/modules/iam/service.go:741-751 | one user row and one membership are added |
| TeamRows.UserUpdated | api/internal/modules/iam/service.go:776-823 | no user, team or membership row appears or goes |
| TeamRows.UserDeleted | api/internal/modules/iam/service.go:825-838 | the user row and exactly the user's memberships of the organisation go |
| TeamRows.TeamAdded | api/internal/modules/iam/service.go:1063-1078 | a team of the organisation is added |
| TeamRows.TeamRenamed | api/internal/modules/iam/service.go:1093-1106 | only a team of the organisation is renamed |
| TeamRows.TeamRemoved | api/internal/modules/iam/service.go:1118-1128 | only a team of the organisation is removed |
| TeamRows.ListAfterUpdateUser | api/internal/modules/iam/service.go:1826-1866 | the user's list is then the names of the organisation's teams among those asked for |
| TeamRows.OwnNamesAre | api/internal/modules/iam/service.go:1839-1849 | a name is in it exactly when a team of the organisation among them has it |
| TeamRows.RolesResolveByRows | api/internal/modules/iam/service.go:1776-1782 | the slugs resolve exactly when each, trimmed and in lower case, is that of a role of the organisation or a global one |
| Teams.TeamService.CreateUser | api/internal/modules/iam/service.go:723-774 | creates or rolls back; the result is in sync exactly under the stated condition |
| Teams.TeamService.UpdateUser | api/internal/modules/iam/service.go:776-823 | replaces the user's rows in the organisation, or nothing |
| Teams.TeamService.DeleteUser | api/internal/modules/iam/service.go:825-838 | removes the user, the membership and the member rows of this organisation |
| Teams.TeamService.CreateTeam | api/internal/modules/iam/service.go:1063-1091 | adds the team and its rows when name and slug are not blank |
| Teams.TeamService.UpdateTeam | api/internal/modules/iam/service.go:1093-1116 | renames the caller's team and replaces the rows of the id passed |
| Teams.TeamService.DeleteTeam | api/internal/modules/iam/service.go:1118-1128 | removes the rows of the id passed and the caller's team |
| Teams.TeamService.ReplaceTeamMembers | api/internal/modules/iam/service.go:1814-1824 | the team's rows are the members passed, then the organisation is synchronised |
| Teams.TeamService.ReplaceTeamMembersForUser | api/internal/modules/iam/service.go:1826-1836 | the user's rows are the teams passed, then the organisation is synchronised |
| Teams.TeamService.SyncAllMembershipTeams | api/internal/modules/iam/service.go:1838-1866 | every membership of the organisation lists the names of its user's teams |
| Teams.TeamService.WriteTeams | api/internal/modules/iam/service.go:1855-1864 | rewrites the lists of one organisation's memberships and nothing else |
| Sessions.AtMostOneLiveToken | api/internal/modules/iam/service.go:442-466 | in every run each login's chain of refresh tokens has at most one unrevoked token |
| Sessions.RefreshTokensSingleUse | api/internal/modules/iam/service.go:442-520 | in every run no refresh token is accepted twice, and none issued before a password reset is accepted after it |
| Sessions.ActionTokensSingleUse | api/internal/modules/iam/service.go:1483-1492 | in every run an action token takes effect at most once, only for the kind it was sent for, and not after expiry |
| Sessions.ActionsWithinLifetime | api/internal/modules/iam/service.go:1483-1492 | in every run what takes effect was sent for that kind at most five minutes (login), thirty (resets) or ten (setup) before |
| Sessions.RefreshWithinLifetime | api/internal/modules/iam/service.go:442-466 | in every run an accepted refresh token was issued to that user at most the configured lifetime before |
| Sessions.RecoveryCodesBalance | api/internal/modules/iam/service.go:1494-1508 | since the last installation or reset, codes remaining plus codes accepted are the codes installed, the remaining ones in order |
| SessionRequests.LoginsInRun | api/internal/modules/iam/service.go:348-414 | in every run a session starts, or a challenge is sent, for exactly the logins with the right password, an active account and an active membership, by whether one-time codes are on |
| SessionRequests.SessionsInRun | api/internal/modules/iam/service.go:416-466 | the only other ways to a session: a challenge that is unused and in time, with the right one-time code or a stored recovery code, and a refresh token unrevoked and in time |
| SessionRequests.ChangesInRun | api/internal/modules/iam/service.go:488-621 | in every run a password changes, and an authenticator is cleared or installed, for exactly the tokens of that purpose that are unused and in time, with a password of eight characters, and with the right code of the token's own user |
| SessionRequests.SecondFactorAccepted | api/internal/modules/iam/service.go:1494-1508 | what a second factor uses up: nothing for a one-time code, else the first stored code that fits |
| SessionRequests.ResetAccepted | api/internal/modules/iam/service.go:468-561 | who is sent reset tokens, and whose they are |
| SessionRequests.SetupAccepted | api/internal/modules/iam/service.go:563-621 | who is sent a setup token, and what is installed |
| SessionRequests.RefusedChangesNothing | api/internal/modules/iam/service.go:348-621 | a refused request leaves every table as it was |
| SessionRequests.LoggedInTables | api/internal/modules/iam/service.go:380-406 | a login adds one refresh token of the configured lifetime, or one challenge of five minutes, and nothing else |
| SessionRequests.VerifiedTables | api/internal/modules/iam/service.go:416-440 | a verified challenge is used up with the code, and adds one refresh token |
| SessionRequests.RotatedTables | api/internal/modules/iam/service.go:442-466 | the refresh token passed is revoked and one of the same user and organisation added |
| SessionRequests.ResetSentTables | api/internal/modules/iam/service.go:468-540 | one token of thirty minutes for the user |
| SessionRequests.PasswordChangedTables | api/internal/modules/iam/service.go:488-520 | the new password is stored, all sessions of the user are revoked and nobody else's, the token is used up |
| SessionRequests.MFAClearedTables | api/internal/modules/iam/service.go:542-561 | secret and codes go, everything else of the user stays |
| SessionRequests.SetupSentTables | api/internal/modules/iam/service.go:563-596 | one token of ten minutes with secret and codes |
| SessionRequests.MFAInstalledTables | api/internal/modules/iam/service.go:598-621 | secret and codes of the token are stored, everything else of the user stays |
| SessionRequests.AccountTables | api/internal/modules/iam/service.go:723-838 | accounts are added, changed and removed one at a time |
| SessionRequests.MembershipTables | api/internal/modules/iam/service.go:744-751 | and memberships |
| SessionRequests.AccountOutcomes | api/internal/modules/iam/service.go:723-838 | adding one that exists, and changing or removing one that does not, is refused |
| Sessions.AuthService.LoginRequest | api/internal/modules/iam/service.go:348-414 | rejects, sends a login token when one-time codes are on, or issues a refresh token |
| Sessions.AuthService.VerifyTOTPRequest | api/internal/modules/iam/service.go:416-440 | consumes the login token and the code, then issues a refresh token |
| Sessions.AuthService.RefreshRequest | api/internal/modules/iam/service.go:442-466 | revokes the token passed and issues its successor |
| Sessions.AuthService.RequestResetRequest | api/internal/modules/iam/service.go:468-486 | sends a reset token for an existing user |
| Sessions.AuthService.ResetPasswordRequest | api/internal/modules/iam/service.go:488-520 | changes the password, revokes the user's refresh tokens and consumes the token |
| Sessions.AuthService.ConfirmMFAResetRequest | api/internal/modules/iam/service.go:542-561 | clears secret and codes and consumes the token |
| Sessions.AuthService.BeginMFASetupRequest | api/internal/modules/iam/service.go:563-596 | sends a setup token that carries secret and codes |
| Sessions.AuthService.ConfirmMFASetupRequest | api/internal/modules/iam/service.go:598-621 | installs secret and codes for the token's own user |
| Sessions.AuthService.ConsumeCode | api/internal/modules/iam/service.go:1494-1508 | a one-time code, or the first matching recovery code, which is removed |
| Sessions.AuthService.GetActionToken | api/internal/modules/iam/service.go:1483-1492 | finds exactly the tokens of the kind that are neither consumed nor expired |
| Sessions.AuthService.IssueLogin | api/internal/modules/iam/service.go:1357-1389 | adds one fresh refresh token for the user |
| Sanitize.SanitizeStringSlice | api/internal/modules/iam/settings_service.go:462-478 | the loop computes the cleaned list |
| Sanitize.SanitizedIsClean | api/internal/modules/iam/settings_service.go:462-478 | no blanks, no repeats up to case, every entry trimmed |
| Sanitize.Survivors | api/internal/modules/iam/settings_service.go:462-478 | the cleaned list is an order-preserving choice among the trimmed inputs |
| Sanitize.SanitizedCovers | api/internal/modules/iam/settings_service.go:462-478 | every input that is not blank is represented by the first one equal to it up to case |
| Sanitize.SanitizedIdempotent | api/internal/modules/iam/settings_service.go:462-478 | cleaning twice is cleaning once |
| Sanitize.StoredAnswersSame | api/internal/modules/iam/notifications_service.go:903-912 | for values that are not blank the stored list answers like the raw one |
| Sanitize.StoredAnswersAlways | api/internal/modules/iam/notifications_service.go:903-912 | for all values exactly when the raw list has no blank item |
| Sanitize.StoredPrefixesSame | api/internal/modules/iam/notifications_service.go:914-925 | prefix filters answer alike without condition |
| StoredRules.UpdatingKeepsVerdicts | api/internal/modules/iam/notifications_service.go:344-366 | an updated rule judges every notification as the rule asked for, exactly when it is disabled or no filter lists nothing but blanks |
| StoredRules.CreatingKeepsVerdicts | api/internal/modules/iam/notifications_service.go:320-342 | a created rule does, exactly when it is asked to be enabled and no filter lists nothing but blanks; a blank kind is refused |
| StoredRules.CreatedDisabledMatches | api/internal/modules/iam/notifications_models.go:87 | a rule without filters asked for as disabled matches nothing; the column's default stores it enabled, and it matches everything |
| StoredRules.RowFields | api/internal/modules/iam/notifications_service.go:320-366 | id, kind and switch of a created and of an updated row |
| StoredRules.StoredEmpty | api/internal/modules/iam/settings_service.go:462-478 | a filter is stored empty exactly when it was empty or all blank |
| StoredRules.StoredRuleMatchesSome | api/internal/modules/iam/notifications_service.go:532-558 | every enabled stored rule lets some notification of the service through |
| StoredRules.TagsNotBlank | api/internal/modules/iam/notifications_service.go:821-885 | no extracted tag is blank |
| Routing.ExtractNotificationTags | api/internal/modules/iam/notifications_service.go:821-885 | the tags are exactly what the metadata contributes, trimmed, in lower case, each once, in any order |
| Routing.VerdictsAnyOrder | api/internal/modules/iam/notifications_service.go:532-558 | rules and provider filters give the same verdict and reason for every order of the tags |
| Routing.GroupMatched | api/internal/modules/iam/notifications_service.go:415-430 | every rule with its verdict, and a map that holds for every kind the ids of the matched rules spelled so, in rule order |
| Routing.CombineVerdict | api/internal/modules/iam/notifications_service.go:434-457 | there is no reason against delivery exactly when delivery is predicted |
| Routing.SimulateNotificationRouting | api/internal/modules/iam/notifications_service.go:374-464 | the tags, the verdict and reasons of every rule, and for every integration the prediction with matched rules and one reason for everything against it; tags without metadata fail |
| Routing.RequestedTags | api/internal/modules/iam/notifications_service.go:378-383 | tags of the request replace the lists in the metadata, up to white space and case, while tags of single entries stay; without tags nothing changes |
| Deliveries.TaggedExactly | api/internal/modules/iam/notifications_service.go:378-383 | the metadata tried: as it is without tags, else with the cleaned tags under both keys, and no other key touched |
| Routing.DispatchNotification | api/internal/modules/iam/notifications_service.go:466-505 | sends to exactly the integrations that pass the three tests, each as often as it is stored |
| Deliveries.SendsExactly | api/internal/modules/iam/notifications_service.go:466-535 | sent exactly when the provider is on and subscribed, its six filters pass, and no enabled rule is meant for its kind up to case or one that is fits |
| Deliveries.PredictsExactly | api/internal/modules/iam/notifications_service.go:434-457 | predicted exactly under the same tests of the provider, when no rule at all is meant for its kind up to case or one spelled alike fits |
| Deliveries.FirstFilterReason | api/internal/modules/iam/notifications_service.go:785-819 | the reason of a provider is that of its first filter, in order, that names something else |
| Deliveries.FilterPasses | api/internal/modules/iam/notifications_service.go:790-809 | a filter passes when it is blank, "all", or the field up to case |
| Deliveries.TagFilterPasses | api/internal/modules/iam/notifications_service.go:810-813 | required tags pass when none is listed or one is among the tags |
| Deliveries.PrefixFilterPasses | api/internal/modules/iam/notifications_service.go:814-817 | required prefixes pass when none is listed or some tag starts with one |
| Deliveries.InterestedExactly | api/internal/modules/iam/notifications_service.go:764-779 | subscribed exactly when nothing is listed, or an item is a star or has type or status in it, up to case |
| Deliveries.FirstRuleReason | api/internal/modules/iam/notifications_service.go:532-558 | the reason of a rule is that of its switch or its first filter, in order, that lists nothing fitting |
| Deliveries.MatchedIDsAre | api/internal/modules/iam/notifications_service.go:415-430 | the ids shown are those of the matched rules spelled so, in rule order |
| Deliveries.TagsExactly | api/internal/modules/iam/notifications_service.go:821-885 | a tag stems from a list under one of two keys, or from a key of its own with the value after a colon |
| Deliveries.PrintedValues | api/internal/modules/iam/notifications_service.go:841 | how values are printed |
| Deliveries.TriedFields | api/internal/modules/iam/notifications_service.go:384-395 | the fields tried are those of the request, trimmed, or the defaults |
| Routing.SimulatorPredicts | api/internal/modules/iam/notifications_service.go:412-505 | a predicted delivery happens, and the prediction is right exactly when the integration is not mispredicted, whatever the order of the tags |
| Routing.TidyRulesPredicted | api/internal/modules/iam/notifications_service.go:412-514 | with kinds spelled alike and a rule enabled wherever there are rules, the prediction is right |
| Routing.DisabledRulesMispredict | api/internal/modules/iam/notifications_service.go:404-475 | with all rules for the kind disabled the delivery happens unpredicted, whatever the other rules |
| Routing.DisabledTelegramRule | api/internal/modules/iam/notifications_service.go:404-475 | one disabled rule for Telegram: refused by the simulator, sent by the dispatcher |
| Routing.CaseOnlyMispredicts | api/internal/modules/iam/notifications_service.go:415-512 | a matching rule whose kind differs from the integration's in case only: refused by the simulator, sent by the dispatcher |
| Routing.CapitalTelegramRule | api/internal/modules/iam/notifications_service.go:415-512 | the same for one rule for `Telegram` and the integration `telegram` |
| StoredRules.AlwaysRightExactly | api/internal/modules/iam/notifications_service.go:412-514 | for any rules, the simulator is right about every integration of a kind and every notification exactly when no rule is meant for the kind, or one is enabled and every notification matched by one of them is matched by one that spells the kind alike |
| StoredRules.AlikeRightExactly | api/internal/modules/iam/notifications_service.go:412-514 | where the rules for a kind are spelled alike, that comes down to there being none, or to the spelling being the kind's and one being enabled |
| StoredRules.UnfilteredRuleRight | api/internal/modules/iam/notifications_service.go:412-514 | one enabled rule without filters spelled like the kind makes it right, whatever the other rules |
| StoredRules.TriedIsWritten | api/internal/modules/iam/notifications_service.go:384-395 | what the simulator tries has no blank field, whatever the request |
| StoredRules.RowsStayStored | api/internal/modules/iam/notifications_service.go:320-366 | whatever is asked for, rows have clean filters and a trimmed kind that is not blank, kept by updates with a blank one |
| Roles.PreferenceIsStrictTotal | api/internal/modules/iam/service.go:1636-1649 | preference is a strict total order on roles with different ids |
| Roles.OneWinnerPerSlug | api/internal/modules/iam/service.go:1614-1649 | every slug has exactly one role preferred to all others of the slug |
| Roles.WinnerRanks | api/internal/modules/iam/service.go:1636-1649 | the winner is of the organisation if any role of the slug is, then a system role if any is, then the oldest, then the least id |
| Roles.CollectWinners | api/internal/modules/iam/service.go:1618-1628 | the map holds the winner of every slug, whatever the order of the rows |
| Roles.DedupeRolesBySlug | api/internal/modules/iam/service.go:1614-1634 | the result lists exactly the winners, each once, in some order |
| Roles.RoleLessIsStrict | api/internal/modules/iam/service.go:1651-1685 | the sort comparison is a strict order in which exactly roles with equal sort keys are incomparable |
| Roles.ListingOrder | api/internal/modules/iam/service.go:1651-1685 | ties or not, the list goes by slug, by system flag and then name, or by name, in the direction asked for and ignoring case; by default system roles come first |
| Roles.ListingDetermined | api/internal/modules/iam/service.go:891-892 | with distinct sort keys the sorted list depends on the set of rows only |
| Roles.ListingDeterminedExactly | api/internal/modules/iam/service.go:891-892 | and it depends on the map order exactly when two winners have equal sort keys |
| Roles.ListRolesPage | api/internal/modules/iam/service.go:877-902 | the page is cut from the sorted winners |
| Roles.PageIsPart | api/internal/modules/iam/service.go:893-902 | a page is the part of the list it should be exactly when its offset fits in 64 bits or wraps to beyond the end |
| Roles.PageStartsOver | api/internal/modules/iam/service.go:894 | with 64 to a page, page 2^58 + 1 is the first page again |
| Roles.PagesCoverListing | api/internal/modules/iam/service.go:877-902 | pages fetched in separate calls, put together, are the whole sorted list with every winner once |
| RoleListing.WinnerExactly | api/internal/modules/iam/service.go:1636-1649 | a role is listed for its slug exactly when it comes first by organisation, system flag, age and id |
| RoleListing.OrderExactly | api/internal/modules/iam/service.go:1651-1685 | the order of any two places of the list, for each text the request may give |
| RoleListing.SortedIsPermuted | api/internal/modules/iam/service.go:1651-1685 | sorting loses and adds nothing |
| RoleListing.PageShows | api/internal/modules/iam/service.go:877-902 | page p of n shows the elements from (p - 1) n up to p n, with n at most 100 and 10 by default, while the offset fits in 64 bits |
| RoleListing.PageWraps | api/internal/modules/iam/service.go:893-902 | beyond that the offset loses a multiple of 2^64, and a negative one fails |
| Presence.LastIsMaximum | api/internal/modules/iam/presence_service.go:118-120 | the last-seen time of a user is the maximum over the user's sessions |
| Presence.AggregateSessions | api/internal/modules/iam/presence_service.go:104-125 | one aggregate for every user, with count, maximum and windows |
| Presence.ListUsers | api/internal/modules/iam/presence_service.go:127-153 | users are distinct and the two counters count users and users seen within five minutes |
| Presence.SessionsConserved | api/internal/modules/iam/presence_service.go:127-165 | the sessions of all listed users add up to all sessions |
| Presence.Summarize | api/internal/modules/iam/presence_service.go:104-166 | the whole summary: distinct users, true entries, conserved sessions, newest first |
| Presence.PresenceService.TouchSessionPresence | api/internal/modules/iam/presence_service.go:30-59 | one row for each token, rewritten by every touch |
| Presence.PresenceService.GetPresenceSummary | api/internal/modules/iam/presence_service.go:61-166 | removes stale rows and summarises the active ones of the organisation |
| Presence.SummaryCountsLastTouches | api/internal/modules/iam/presence_service.go:69-81 | in every run the clean-up is invisible: the summary counts the sessions whose last touch is recent and unexpired |
| PresenceRows.EntryExactly | api/internal/modules/iam/presence_service.go:104-153 | an entry has the whole second of the user's latest session, their number, and the windows, the shorter one when a session is less than five minutes old |
| PresenceRows.SummaryExactly | api/internal/modules/iam/presence_service.go:127-165 | exactly the users with a session are listed, each once, the latest first; the counters count them, those seen lately, and the sessions |
| PresenceRows.CleanedExactly | api/internal/modules/iam/presence_service.go:69-73 | a clean-up removes exactly what has expired and what was not seen for a day |
| PresenceRows.ActiveExactly | api/internal/modules/iam/presence_service.go:75-81 | after any run the sessions summarised are those whose last touch was for the organisation, at most fifteen minutes ago and unexpired |
| License.PromotedCarries | api/internal/modules/iam/settings_service.go:357-460 | after any run, a create or update that makes a key primary leaves it the only primary key of its organisation; the license record has its value, tier and status exactly when the expiry has a four-digit year in UTC or the record had them before |
| License.FarExpiryNotCarried | api/internal/modules/iam/settings_service.go:446-517 | a key made primary with the expiry 9999-12-31T23:59:59-01:00: the text of the promotion does not parse, and the license record does not carry the key |
| License.SeedCarries | api/internal/modules/iam/settings_service.go:333-354 | the seed fails when its text is in use; otherwise the key agrees with the license in value and tier, and in status exactly when the license was active or absent |
| License.OnePrimaryKept | api/internal/modules/iam/settings_service.go:324-444 | no request leaves an organisation with two primary keys |
| License.KeepsInStep | api/internal/modules/iam/settings_service.go:241-460 | exactly the breaking requests, promotions that cannot be written among them, part the primary keys of an organisation from its license record, whatever the other organisations look like |
| License.RunsKeepPrimary | api/internal/modules/iam/settings_service.go:241-460 | in every run at most one primary key for each organisation, no two keys with one text, and only trimmed, non-blank tiers and statuses |
| License.TakenSeedFails | api/internal/modules/iam/settings_models.go:98 | two organisations with one license text: after the first has listed its keys, listing the second's fails |
| License.AgreementLasts | api/internal/modules/iam/settings_service.go:241-460 | in every run, from a point of agreement on, primary keys and record of an organisation agree throughout exactly when no later request is of the breaking kind |
| License.SeedAfterDraftBreaks | api/internal/modules/iam/settings_service.go:333-354 | promoting a draft, deleting it and listing parts them |
| License.LicenseService.ListLicenseKeys | api/internal/modules/iam/settings_service.go:324-355 | returns the rows of the organisation, primary first and then newest first, seeding a primary one when there is none, and fails exactly when the seed's text is in use |
| License.SortRows | api/internal/modules/iam/settings_service.go:326 | lists every row once, primary ones first and newer ones before older ones |
| LicenseRows.OrderOfList | api/internal/modules/iam/settings_service.go:326 | of two rows the earlier is primary if the later is, and of equal flags not older |
| LicenseRows.RowAfterUpdate | api/internal/modules/iam/settings_service.go:393-431 | tier and status are those asked for, trimmed, or the earlier ones; a date replaces the expiry, an empty text clears it, spaces keep it; text, organisation and time of creation stay |
| LicenseRows.UpdateRefused | api/internal/modules/iam/settings_service.go:395-417 | another organisation's key, or a malformed date: nothing happens |
| LicenseRows.RowAfterCreate | api/internal/modules/iam/settings_service.go:357-391 | the same for a new key, with the defaults free and draft |
| LicenseRows.CreateRefused | api/internal/modules/iam/settings_service.go:357-386 | a malformed date changes nothing; a text in use costs the organisation its primary flags at most |
| LicenseRows.KeysAfterDelete | api/internal/modules/iam/settings_service.go:433-437 | the organisation's own key goes, all others stay |
| LicenseRows.RowAfterList | api/internal/modules/iam/settings_service.go:324-355 | the seeded row repeats the license as an active primary key; nothing changes when there is a key |
| LicenseRows.RecordAfterSave | api/internal/modules/iam/settings_service.go:274-297 | the record has the texts asked for, trimmed, or the defaults free and active |
| LicenseRows.RecordAfterGenerate | api/internal/modules/iam/settings_service.go:299-322 | text and tier are new, status and expiry stay |
| LicenseRows.RecordAfterUpdate | api/internal/modules/iam/settings_service.go:446-460 | the record follows a primary row in text, tier, status and whole seconds of its expiry, unless its year has not four digits |
| LicenseRows.RecordAfterCreate | api/internal/modules/iam/settings_service.go:446-460 | the same after a create |
| LicenseRows.UpdatePromotes | api/internal/modules/iam/settings_service.go:393-431 | in every run, an update that makes a key primary leaves it the only one, with the fields asked for, and the record following it |
| LicenseRows.CreatePromotes | api/internal/modules/iam/settings_service.go:357-391 | the same for a create |
| LicenseRows.TenThousandYears | api/internal/modules/iam/settings_service.go:512-517 | the years that can be written are those with four digits |
| License.LicenseService.CreateLicenseKey | api/internal/modules/iam/settings_service.go:357-391 | stores the key; nothing for a malformed date; for a text in use the primary flags are cleared and no key is stored |
| License.LicenseService.UpdateLicenseKey | api/internal/modules/iam/settings_service.go:393-431 | rewrites the organisation's own key and promotes it when primary, or nothing |
| License.LicenseService.DeleteLicenseKey | api/internal/modules/iam/settings_service.go:433-437 | removes the organisation's own key only |
| License.LicenseService.ClearPrimaryLicenseKeys | api/internal/modules/iam/settings_service.go:439-444 | no key of the organisation stays primary, nothing else about any key changes, and keys of other organisations stay as they are |
| License.LicenseService.PromoteLicenseFromKey | api/internal/modules/iam/settings_service.go:446-460 | the license record takes the key's data, with whole seconds; an expiry whose formatted text does not parse only makes a missing record, and the call says so |
| License.LicenseService.UpsertLicense | api/internal/modules/iam/settings_service.go:274-297 | rewrites the license record; a malformed date changes nothing but creates a missing record |
| License.LicenseService.GenerateLicenseKey | api/internal/modules/iam/settings_service.go:299-322 | puts a new key text and the tier into the license record |
| ManifestMetadata.ReplaceOrInsertMetadataValue | app/src/features/kubernetes/manifest-assistant.ts:75-111 | the index loops, the line written in place and the splice compute the edit the laws are about |
| ManifestMetadata.FindBlockEnd | app/src/features/kubernetes/manifest-assistant.ts:86-98 | the first line that is not blank and not indented deeper than the heading |
| ManifestMetadata.FindField | app/src/features/kubernetes/manifest-assistant.ts:100-106 | the first line of the block that is a field of the key at the field indentation |
| ManifestPatterns.MetadataLineIsPattern | app/src/features/kubernetes/manifest-assistant.ts:78 | white space, the word and white space |
| ManifestPatterns.IndentCounts | app/src/features/kubernetes/manifest-assistant.ts:84 | the number of white space characters in front |
| ManifestPatterns.OutsideIsShallow | app/src/features/kubernetes/manifest-assistant.ts:88-98 | a line ends the block exactly when something other than white space stands at or before the indentation |
| ManifestPatterns.FieldLineIsPattern | app/src/features/kubernetes/manifest-assistant.ts:100 | so much white space, the key, a colon, white space and anything on one line |
| ManifestPatterns.FieldTextIs | app/src/features/kubernetes/manifest-assistant.ts:103 | the line written: blanks, key, colon, blank, value |
| ManifestMetadata.GetSet | app/src/features/kubernetes/manifest-assistant.ts:75-111 | what was set is read back |
| ManifestMetadata.SetSet | app/src/features/kubernetes/manifest-assistant.ts:75-111 | a second set overwrites the first as if it had never happened |
| ManifestMetadata.GetOther | app/src/features/kubernetes/manifest-assistant.ts:75-111 | setting one key leaves the reading of another alone exactly when there is a metadata block or the text begins with no such field |
| ManifestMetadata.OtherLinesKept | app/src/features/kubernetes/manifest-assistant.ts:75-111 | for any text, all other lines keep their text and order; the changed line is indented two deeper than the block, lies in it, and is its first field of the key or else a new line at its end |
| ManifestMetadata.BothReadBack | app/src/features/kubernetes/manifest-assistant.ts:36-42 | after filling in name and namespace both read back |
| ManifestReturns.GetAfterSet | app/src/features/kubernetes/manifest-assistant.ts:75-111 | what reading gives after setting, for any text: the value set, or the value of the hidden line |
| ManifestReturns.GetSetExactly | app/src/features/kubernetes/manifest-assistant.ts:75-111 | for any text, every value set is read back exactly when the block hides no earlier line that becomes a field without its carriage return |
| ManifestReturns.CarriageReturnHides | app/src/features/kubernetes/manifest-assistant.ts:76 | a text with such a line |
| ManifestLaws.SetSetExactly | app/src/features/kubernetes/manifest-assistant.ts:75-111 | for any text, a second set erases the first exactly when no line that stays, in front of another, ends in a carriage return |
| ManifestLaws.CarriageReturnRemembers | app/src/features/kubernetes/manifest-assistant.ts:76 | a text for which it never does |
| ManifestLaws.HiddenIsStray | app/src/features/kubernetes/manifest-assistant.ts:75-111 | where reading back fails, setting twice does too |
| ManifestLaws.GetOtherAfterSet | app/src/features/kubernetes/manifest-assistant.ts:75-111 | for any text, what another key reads as after a set: what it reads as once carriage returns at line ends are gone, a new block taking in what follows it |
| ManifestLaws.BothAfterSet | app/src/features/kubernetes/manifest-assistant.ts:36-42 | for any text, what name and namespace read as after both are filled in |
| ManifestSecrets.PairsSurvive | app/src/features/kubernetes/manifest-assistant.ts:259-387 | keys and values come back from a manifest exactly when no key has a colon |
| ManifestSecrets.PrintExtractPrint | app/src/features/kubernetes/manifest-assistant.ts:259-387 | printing, extracting and printing again gives the same text when no key has a colon, values being free |
| ManifestSecrets.FormRoundTrip | app/src/features/kubernetes/manifest-assistant.ts:362-387 | the same for the manifest the form builds |
| ManifestSecrets.ExtractPrinted | app/src/features/kubernetes/manifest-assistant.ts:259-270 | extraction turns each printed entry back, in order, dropping none |
| ManifestSecrets.EntryThereAndBack | app/src/features/kubernetes/manifest-assistant.ts:266-384 | one entry survives exactly when its key has no colon |
| ManifestSecrets.ExtractedPlain | app/src/features/kubernetes/manifest-assistant.ts:259-270 | no key extracted from any text has a colon |
| ManifestSecrets.ExtractedSurvive | app/src/features/kubernetes/manifest-assistant.ts:259-387 | entries extracted from any text whatsoever survive printing and extracting |
| ManifestSecrets.SecretLines | app/src/features/kubernetes/manifest-assistant.ts:362-372 | the lines of the form's manifest, with defaults for a blank name and a missing type |
| ManifestSecrets.EntryPrinted | app/src/features/kubernetes/manifest-assistant.ts:377-387 | an entry is printed as two blanks, key, colon, blank, value |
| ManifestSecrets.EntriesExactly | app/src/features/kubernetes/manifest-assistant.ts:259-270 | what is extracted: the lines behind the first heading that have a colon, trimmed |
| ManifestSecrets.ColonReplaced | app/src/features/kubernetes/manifest-assistant.ts:268 | with the first colon turned into an equals sign |
| ManifestSecrets.KeptExactly | app/src/features/kubernetes/manifest-assistant.ts:265-267 | lines are kept in order, trimmed, when they pass the test |
| ManifestSecrets.DefaultEntries | app/src/features/kubernetes/manifest-assistant.ts:261-263 | without the heading, or with nothing behind it, two entries by default |

## Left out

- Floating-point rounding and special values: coordinates are exact reals.
- Square roots: `distanceBetweenPoints` and `Math.ceil` of its quotient are stated through squares; the values are the same.
- Rectangles of negative width or height: the loops are modelled, their meaning is not stated.
- Sampling.SamplePathPoints: requires a maximum distance other than 0 unless all points are equal, because with 0 the original never comes back from two distinct neighbours.
- Permissions: a service without a cache, and database or cache errors, which refuse or bypass.
- Permissions.AnswersAtMostSixtySecondsOld: requires queries with different cache keys, because otherwise an answer can be one that was never right (Permissions.RecentExactly).
- Interleaved requests: `Refresh` and the clearing of primary license keys read and write without a transaction, so the theorems about runs are about one request at a time with writes succeeding.
- Unicode: letters fold as in ASCII, where `ToLower` and `EqualFold` agree; strings are Unicode scalar values.
- Passwords, one-time codes, token signing and hashing: their checks stand as a verdict, tokens as fresh numbers; identifiers stand as the row they resolve to.
- Teams: descriptions, slugs and roles of users are not stored in the model; whether the role slugs resolve is.
- References across organisations: deleting a user removes the user row globally but only this organisation's links, so no referential integrity is stated.
- Unique constraints: those of key texts, session keys and token hashes are modelled. User names, addresses and team slugs are not stored in the model; a request that repeats one is rolled back and changes nothing. The SQL schema has more than the record definitions, and the model follows the latter.
- Notifications: storing them, titles, descriptions, names of rules, preferences, the requests sent to providers and their answers; one organisation's rules and integrations are modelled, in the order the query gives them.
- Roles: the search filter and the permissions shown with a role; the rows are those the query found. A list is shorter than 2^63.
- Roles.ListingDetermined: asks for distinct sort keys, because equal ones are ordered by chance (Roles.ListingDeterminedExactly).
- Presence: names and addresses joined from the user table, user agents and addresses of sessions.
- License: names, features and metadata of keys; rows with equal flags and times are listed in some order. Times are exact, while the database rounds to microseconds.
- ManifestMetadata: keys are letters, digits, `-` and `_`, as the two callers pass; other characters would act as a pattern.
- ManifestMetadata.GetSet: asks for a text without stray carriage returns and a value of one line; ManifestReturns.GetSetExactly is the law for any text.
- ManifestMetadata.SetSet: asks for such a text; ManifestLaws.SetSetExactly is the law for any.
- ManifestMetadata.GetOther: asks for such a text; ManifestLaws.GetOtherAfterSet is the law for any.
- ManifestMetadata.BothReadBack: asks for such a text; ManifestLaws.BothAfterSet is the law for any.
- Label insertion in `hydrateManifest`, extraction of ConfigMaps and selectors: the latter end at the first line end, so several entries do not round-trip.
- ManifestSecrets.PairsSurvive: asks that the text before the block does not contain the block's own heading line, because the first one counts.
- Handlers, routing, pages, seeding constants, configuration, logging and mock services.
