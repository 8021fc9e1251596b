# sap-backend core, modelled in Dafny

This project models the decision logic of the sap-backend monorepo. That
repository is an SAP patch-management service: an Express API over a
relational store, plus two Next.js front ends. The model covers these parts:

- **Support-package parser** (`SapParsers`): parses strings such as
  `SAPK-75005INSAPBASIS` into a release, a support-package level and a
  normalised component (`SAP_BASIS`).
- **Applicability matcher** of an analysis run (`Applicability`, `RunsService`):
  - for every SAP note, the validity rules are walked in order;
  - each rule is compared with the first installed component that has the
    same name and release;
  - the first hit within the inclusive level range decides;
  - only applicable notes yield a result row;
  - the run ends `completed` or `failed`, or stays `analyzing` when even the
    failure update throws.
- **Role hierarchy, permission table and wildcards** (`Roles`, `Permissions`),
  and the route guards built on them (`Rbac`).
- **Session handling** (`AuthMiddleware`): the session-cookie reader and the
  session/ban decisions of `requireAuth` and `optionalAuth`.
- **User and admin routes** (`UsersRoutes`, `AdminRoutes`):
  - their ordered 400/403/404 guards;
  - pagination arithmetic;
  - the field updates of update, delete, role change, ban and unban, performed
    on a user table (`UserStore.UserTable`).
- **Client route redirects** (`ClientMiddleware`).
- **Active input schemas** (`Schemas`).
- **Client-side list state** of three components:
  - the notification bell (`NotificationBell`);
  - the editable system table (`SystemDetailsTable`);
  - the system dashboard filter (`SystemDashboard`).

Shared helpers give the JavaScript built-ins the source relies on:

- `Wrappers`: `Option`.
- `Seqs`: `filter`, `indexOf`, subsequences.
- `JsStrings`: `trim`, `toLowerCase` (on ASCII letters), `includes`, `split`,
  `parseInt`, and decimal rendering.

Strings are sequences of characters. Times are integer milliseconds supplied
by the caller. The store's reads and writes appear in one of two ways:

- as given sequences and maps;
- in the analysis run, as boolean "succeeds" parameters, which choose the error
  paths; the handlers' writes are assumed to succeed (see "## Left out").

Where code mutates state, the model does too:

- the analysis run, the user table, the request's attached user, the
  notification list and the system table are classes;
- their methods' `ensures` state the new state through the specification
  functions that the lemmas are about.

## Model

| member | source | states |
|---|---|---|
| SapParsers.ParseShape | apps/api/src/lib/sap-parsers.ts:11-31 | parsing succeeds exactly when the string fits `^SAPK-(\d{3})(\d{2})IN([A-Z0-9_]+)$`; the release is the three digits after `SAPK-`, kept as text; the level is 0..99; the component is the normalised code and is never empty |
| SapParsers.NormalizeCases | apps/api/src/lib/sap-parsers.ts:23-25 | a code starting with `SAP` becomes `SAP_` + the rest, any other code is kept, and a non-empty code stays non-empty |
| SapParsers.NormalizeInjective | apps/api/src/lib/sap-parsers.ts:23-25 | normalisation never maps two different codes to the same component |
| SapParsers.Pad2Value | apps/api/src/lib/sap-parsers.ts:19 | a two-digit rendering of 0..99 is all digits and `parseInt(_, 10)` of it is the number |
| SapParsers.Pad2OfValue | apps/api/src/lib/sap-parsers.ts:19 | two digit characters read as a number in 0..99, whose rendering is the same two characters, so `"05"` gives 5 |
| SapParsers.ParseFormat | apps/api/src/lib/sap-parsers.ts:11-31 | parsing `SAPK-` + release + two-digit level + `IN` + code gives back the release, the level and the normalised code |
| SapParsers.FormatParse | apps/api/src/lib/sap-parsers.ts:11-31 | every accepted string is the rendering of what was parsed from it |
| SapParsers.PlainCodeRoundTrip | apps/api/src/lib/sap-parsers.ts:11-31 | for a code not starting with `SAP`, parse after render is the identity on (release, level, code) |
| SapParsers.BasisExample | apps/api/src/lib/sap-parsers.ts:4-5 | `SAPK-75005INSAPBASIS` gives ("750", 5, "SAP_BASIS") |
| SapParsers.HrExample | apps/api/src/lib/sap-parsers.ts:10 | `SAPK-61716INSAPHR` gives ("617", 16, "SAP_HR") |
| SapParsers.GarbageRejected | apps/api/src/lib/sap-parsers.ts:13-16 | a string that does not fit the pattern yields no result rather than an error |
| SapParsers.UnderscoredCodeDoubled | apps/api/src/lib/sap-parsers.ts:23-25 | a code already written `SAP_BASIS` is normalised again, to `SAP__BASIS` |
| Applicability.FirstFitIndex | apps/api/src/services/runs.service.ts:122-124 | the index found has the rule's name and release, and no earlier component has both |
| Applicability.FindComponentFirst | apps/api/src/services/runs.service.ts:122-124 | the lookup finds nothing exactly when no installed component has the rule's name and release; otherwise it returns the first one that does |
| Applicability.FindComponentIgnoresLater | apps/api/src/services/runs.service.ts:122-124 | once a component fits, components appended after it never change the lookup |
| Applicability.DuplicatesIgnored | apps/api/src/services/runs.service.ts:121-135 | extra installed components that repeat an existing (name, release) never change a note's outcome |
| Applicability.FirstHitDecides | apps/api/src/services/runs.service.ts:128-131 | the reason is `Matched` for the first rule, in declaration order, that hits; later rules are not looked at |
| Applicability.LastFoundIndex | apps/api/src/services/runs.service.ts:126-133 | names the last rule whose component is installed, with none found after it |
| Applicability.NoHitKeepsLast | apps/api/src/services/runs.service.ts:126-133 | with no hit, the reason is the out-of-range reason of the last rule with an installed component, or is left unchanged |
| Applicability.ApplicableIffSomeRuleHits | apps/api/src/services/runs.service.ts:121-135 | a note is applicable exactly when some rule hits, and then its reason is that of the first hitting rule |
| Applicability.FirstHitIndex | apps/api/src/services/runs.service.ts:128-131 | when some rule hits, gives the index of a hitting rule with no hit before it |
| Applicability.NotApplicableReason | apps/api/src/services/runs.service.ts:119-133 | a non-applicable note's reason is "no matching component" if no rule's component is installed, otherwise the last rule found out of range; a note with no rules is never applicable |
| Applicability.InclusiveBounds | apps/api/src/services/runs.service.ts:128 | a found component hits exactly when min <= level <= max: both bounds count and one past either does not; a rule with min > max never hits |
| Applicability.ApplicableRows | apps/api/src/services/runs.service.ts:137-147 | at most one row per note, each carrying this run's id, status APPLICABLE and a matched reason |
| Applicability.RowsAppend | apps/api/src/services/runs.service.ts:117-148 | the rows of two note lists are the rows of each, concatenated |
| Applicability.RowsComeFromNotes | apps/api/src/services/runs.service.ts:137-143 | every row is the row of some note of the batch |
| Applicability.ApplicableNotesHaveRows | apps/api/src/services/runs.service.ts:137-143 | every applicable note has its row, with its id and its reason |
| Applicability.RowsAreApplicableNotes | apps/api/src/services/runs.service.ts:137-152 | rows and applicable notes correspond both ways, and nothing is written exactly when no note is applicable |
| Applicability.NoteOrderIrrelevant | apps/api/src/services/runs.service.ts:117-148 | any permutation of the batch's notes gives a permutation of the rows: which rows are written does not depend on note order |
| Applicability.ScenarioInRange | apps/api/src/services/runs.service.ts:128-131 | SAP_BASIS 750 at level 5 against [3, 10] is matched |
| Applicability.ScenarioMatchedText | apps/api/src/services/runs.service.ts:130 | the matched reason reads `Matched SAP_BASIS 750: client SP 5 in [3, 10]` |
| Applicability.ScenarioOutOfRange | apps/api/src/services/runs.service.ts:133 | SAP_BASIS 750 at level 5 against [6, 10] is out of range, with the text `Component found but SP 5 outside [6, 10]` |
| Applicability.ScenarioSecondRuleMatches | apps/api/src/services/runs.service.ts:121-131 | a first rule naming an uninstalled component is skipped and the second rule matches |
| RunsService.StatusText | apps/api/src/services/runs.service.ts:73-165 | a run's status is one of `analyzing`, `completed`, `failed` |
| RunsService.StatusTextInjective | apps/api/src/services/runs.service.ts:73-165 | the three statuses have different texts |
| RunsService.ScanNote | apps/api/src/services/runs.service.ts:118-135 | the inner loop with its `break` computes the note's reason, and the note is applicable exactly when that reason is a match |
| RunsService.AnalyseNotes | apps/api/src/services/runs.service.ts:110-148 | the nested loops produce exactly the rows of the applicable notes, in note order |
| RunsService.Run.Create | apps/api/src/services/runs.service.ts:68-81 | a run is created `analyzing`, with its start time, no finish time and no results |
| RunsService.Run.ExecuteAnalysis | apps/api/src/services/runs.service.ts:97-168 | a failed read fails the run with no rows, and a failed write fails it with no rows; otherwise its rows are appended and it ends `completed`, or `failed` if the final status update throws, keeping the rows already written. A failed run gets its finish time only when the catch block's own update succeeds; when that update throws too, the call rejects and the run stays `analyzing` with no finish time |
| RunsService.Run.FailRun | apps/api/src/services/runs.service.ts:161-167 | the catch block's update sets `failed` and the finish time when it succeeds; when it throws, nothing changes and the error reaches the caller |
| RunsService.CreateRun | apps/api/src/services/runs.service.ts:67-88 | a created run is `completed` exactly when every step succeeds, and then holds exactly the applicable rows; otherwise it is `failed` with a finish time, or, when the failure update throws as well, `create` rejects and the stored run stays `analyzing` with no finish time |
| Roles.FromValue | packages/auth/src/roles.ts:5-11 | a recognised role string is the value of the role it yields |
| Roles.ValueRoundTrip | packages/auth/src/roles.ts:5-11 | reading a role's value gives back the role; an unrecognised string is no role's value |
| Roles.Rank | packages/auth/src/roles.ts:16-22 | a role's rank is its position in the hierarchy |
| Roles.RankIsIndexOf | packages/auth/src/roles.ts:16-28 | the rank is `ROLE_HIERARCHY.indexOf(role)` |
| Roles.Level | packages/auth/src/roles.ts:28-29 | `indexOf` on a role string is -1 exactly for an unknown string, and otherwise the position of that role |
| Roles.LevelTable | packages/auth/src/roles.ts:16-22 | guest, user, manager, admin and super admin stand at positions 0 to 4 |
| Roles.HierarchyStrict | packages/auth/src/roles.ts:16-31 | a role later in the hierarchy has the level of every earlier role, and never the other way round |
| Roles.HasRoleLevelOrder | packages/auth/src/roles.ts:27-31 | `hasRoleLevel` is reflexive, total and transitive |
| Roles.UnknownRoleLevel | packages/auth/src/roles.ts:27-31 | an unknown role string has no role's level, and every role has its level |
| Roles.DisplayNameInjective | packages/auth/src/roles.ts:36-45 | the five roles have five different display names |
| Roles.Clamp | packages/auth/src/roles.ts:52 | bounds an index to the hierarchy's length |
| Roles.BelowIndexPrefix | packages/auth/src/roles.ts:52 | filtering by `index < roleIndex` keeps a prefix of the hierarchy |
| Roles.ManageablePrefix | packages/auth/src/roles.ts:50-53 | the manageable roles are the roles strictly below the given one, in hierarchy order |
| Roles.ManageableIff | packages/auth/src/roles.ts:27-53 | a role is manageable exactly when it is at or below the user's level and is not the user's own role |
| Roles.ManageableExtremes | packages/auth/src/roles.ts:50-53 | a guest manages no role, a super admin manages the other four, and an unknown role manages none |
| Permissions.AnyPatternMatches | packages/auth/src/permissions.ts:71 | `some` over the patterns holds exactly when one of them matches |
| Permissions.HasAnyPermission | packages/auth/src/permissions.ts:95-100 | holds exactly when the role holds one of the listed permissions |
| Permissions.HasAllPermissions | packages/auth/src/permissions.ts:105-110 | holds exactly when the role holds every listed permission |
| Permissions.MatchesPermissionKinds | packages/auth/src/permissions.ts:50-62 | `*` matches everything, `x:*` matches exactly the permissions beginning `x:`, and any other pattern matches only itself |
| Permissions.RolePermissionsExact | packages/auth/src/permissions.ts:77-90 | a role's expansion is the enum permissions it holds, in enum order |
| Permissions.SuperAdminAndUnknown | packages/auth/src/permissions.ts:31-85 | the super admin holds every permission and expands to the whole enum; a role missing from the table holds nothing and expands to nothing |
| Permissions.PermValuePrefixes | packages/auth/src/permissions.ts:7-24 | the permissions beginning `user:` are the four user permissions, and those beginning `resource:` the four resource permissions |
| Permissions.AdminPatterns | packages/auth/src/permissions.ts:32-37 | the admin's patterns match exactly `admin:access`, `admin:manage_users` and anything beginning `user:` or `resource:` |
| Permissions.AdminHolds | packages/auth/src/permissions.ts:32-72 | an admin holds every permission except `admin:manage_roles` |
| Permissions.AdminExpansion | packages/auth/src/permissions.ts:32-90 | the admin's expansion is every permission but `admin:manage_roles`, in enum order |
| Permissions.GuestHolds | packages/auth/src/permissions.ts:44-72 | a guest holds only `resource:read` |
| Permissions.GuestExpansion | packages/auth/src/permissions.ts:44-90 | a guest's expansion is `[resource:read]` |
| Permissions.AdminAccessHolders | packages/auth/src/permissions.ts:30-72 | exactly admins and super admins hold `admin:access` |
| Permissions.UserWriteHolders | packages/auth/src/permissions.ts:30-72 | exactly admins and super admins hold `user:update` and `user:delete` |
| Permissions.UserReadHolders | packages/auth/src/permissions.ts:30-72 | every known role except guest holds `user:read` |
| Permissions.PermValueInjective | packages/auth/src/permissions.ts:7-24 | the eleven permissions have distinct strings |
| Permissions.AnyAllEdges | packages/auth/src/permissions.ts:95-110 | "any" over no permissions is false, "all" over none is true, and over one permission both are `hasPermission` |
| Rbac.GuardsRejectAnonymous | apps/api/src/middleware/rbac.ts:14-112 | every guard answers 401 when no user is attached |
| Rbac.GuardsReplyOnce | apps/api/src/middleware/rbac.ts:8-120 | every guard gives exactly one outcome: a 401, a 403 or `next` |
| Rbac.RequirePermissionIff | apps/api/src/middleware/rbac.ts:19-26 | `requirePermission` passes exactly when the role holds the permission, and otherwise answers 403 |
| Rbac.RequireAnyPermissionIff | apps/api/src/middleware/rbac.ts:43-52 | `requireAnyPermission` passes exactly when one listed permission is held, so an empty list is always refused |
| Rbac.RequireRoleIff | apps/api/src/middleware/rbac.ts:69-76 | `requireRole` passes exactly when the user has the role's level, and refuses an unknown role string with 403 |
| Rbac.RequireAdminIff | apps/api/src/middleware/rbac.ts:92-98 | `requireAdmin` passes exactly for admins and super admins, which is the same as `requireRole(ADMIN)` |
| Rbac.RequireSuperAdminIff | apps/api/src/middleware/rbac.ts:114-119 | `requireSuperAdmin` passes exactly for the role string `super_admin` |
| AuthMiddleware.ParsePieces | apps/api/src/middleware/auth.ts:36-38 | every `;`-separated piece is parsed, one entry per piece |
| AuthMiddleware.CookieMapStep | apps/api/src/middleware/auth.ts:39-42 | each piece with a non-empty key and value overwrites that key, and other pieces change nothing |
| AuthMiddleware.BuildCookies | apps/api/src/middleware/auth.ts:36-43 | the `reduce` loop builds exactly the cookie dictionary of the pieces |
| AuthMiddleware.GetSessionToken | apps/api/src/middleware/auth.ts:32-55 | the reader returns the session token determined by the header and the URL decoder |
| AuthMiddleware.PieceSplitsAtFirstEquals | apps/api/src/middleware/auth.ts:37-38 | a trimmed piece splits at its first `=`: the key holds no `=` and the value keeps every later `=` |
| AuthMiddleware.LastKeyIndex | apps/api/src/middleware/auth.ts:39-42 | names the last kept piece with the key, with none after it |
| AuthMiddleware.CookieLookup | apps/api/src/middleware/auth.ts:39-45 | a key is in the dictionary exactly when some kept piece has it, and its value is that of the last such piece |
| AuthMiddleware.NoCookieNoToken | apps/api/src/middleware/auth.ts:33-46 | no token without a cookie header, or without a `better-auth.session_token` entry |
| AuthMiddleware.TokenShape | apps/api/src/middleware/auth.ts:45-54 | a token comes from the last session-cookie entry, decoded, up to its first `.`; it is never empty and holds no `.` |
| AuthMiddleware.FindSession | apps/api/src/middleware/auth.ts:74-82 | a session is found exactly when one has the token and has not expired |
| AuthMiddleware.RequireAuthUnauthorized | apps/api/src/middleware/auth.ts:68-87 | `requireAuth` answers 401 exactly when there is no token or no unexpired session for it |
| AuthMiddleware.TokenUnauthorized | apps/api/src/middleware/auth.ts:66-87 | the same 401 condition, stated for a given token |
| AuthMiddleware.RequireAuthBan | apps/api/src/middleware/auth.ts:90-118 | a banned user is refused with 403 while the ban has no expiry or has not expired; a user whose ban has expired, or who is not banned, is attached |
| AuthMiddleware.OptionalAuthStricterOnBans | apps/api/src/middleware/auth.ts:90-170 | whoever `optionalAuth` attaches, `requireAuth` attaches too; a banned user is never attached by `optionalAuth`, even when the ban has expired |
| AuthMiddleware.AuthRequest.constructor | apps/api/src/middleware/auth.ts:60-63 | a request starts with its cookie header and no user or session attached |
| AuthMiddleware.AuthRequest.RequireAuth | apps/api/src/middleware/auth.ts:60-125 | the request gets the user and session exactly when the decision is to attach; otherwise they are unchanged |
| AuthMiddleware.AuthRequest.OptionalAuth | apps/api/src/middleware/auth.ts:130-176 | the user and session are attached exactly when a session exists and the user is not banned; the request always proceeds |
| UsersRoutes.QueryInt | apps/api/src/routes/users.ts:23-24 | a page or limit query is never 0: unparsable or zero text falls back to the default |
| UsersRoutes.CeilDiv | apps/api/src/routes/users.ts:55 | `Math.ceil(total / limit)` is the least page count that covers the total |
| UsersRoutes.Paginate | apps/api/src/routes/users.ts:23-25 | page and limit are never 0 |
| UsersRoutes.PaginateDefaults | apps/api/src/routes/users.ts:23-25 | absent, unparsable or zero page and limit become 1 and 10, and any other parsed value is kept |
| UsersRoutes.PagesCoverTotal | apps/api/src/routes/users.ts:25-55 | with a positive limit, every item falls on a page 1..pages, there are no pages exactly when there are no users, and the last page is not empty |
| UsersRoutes.GetUserIff | apps/api/src/routes/users.ts:68-114 | reading a user succeeds exactly for a known non-guest role reading themselves, or for an admin or super admin, when the user exists; a manager reading someone else gets 403 |
| UsersRoutes.PatchForbiddenUnreachable | apps/api/src/routes/users.ts:124-169 | behind `user:update`, the handler's 403 can never be reached; an update succeeds exactly for an admin or super admin with a valid body and an existing user |
| UsersRoutes.ApplyUpdateFrame | apps/api/src/routes/users.ts:148-161 | an update sets only the given name and image (`null` clears the image), leaves every other field, and is idempotent |
| UsersRoutes.PatchUser | apps/api/src/routes/users.ts:124-169 | the table changes only on success, and then only the target's row, by the update |
| UsersRoutes.AdminCanDeleteSuperAdmin | apps/api/src/routes/users.ts:200-206 | as written, an admin may delete a super admin; with the guard extended to super admins, the same request is refused |
| UsersRoutes.DeleteUserIff | apps/api/src/routes/users.ts:174-216 | a deletion succeeds exactly for an admin or super admin deleting another existing user, where an admin or super admin target needs a super admin requester; deleting yourself gives 400 |
| UsersRoutes.DeleteReadingsDiffer | apps/api/src/routes/users.ts:200-206 | the guard as written and the corrected guard disagree only when an admin deletes an existing super admin |
| UsersRoutes.DeleteUserAsWrittenIff | apps/api/src/routes/users.ts:174-216 | the handler as written deletes exactly for an admin or super admin deleting another existing user, where only an `admin` target needs a super admin requester |
| UsersRoutes.DeleteUser | apps/api/src/routes/users.ts:174-216 | the handler as written: the reply is the as-written guard's, and the table loses the target's row exactly on success and is otherwise unchanged |
| UsersRoutes.DeleteUserCorrected | apps/api/src/routes/users.ts:174-216 | the handler with the corrected guard: the reply is the corrected guard's, and the table loses the target's row exactly on success |
| UsersRoutes.RoleFromName | apps/api/src/routes/users.ts:248-255 | a recognised upper-case name reads back to itself |
| UsersRoutes.RoleNames | apps/api/src/routes/users.ts:221-255 | the five enum names are exactly the accepted ones, and each maps to its role, whose value is the lower-cased name |
| UsersRoutes.ChangeRoleIff | apps/api/src/routes/users.ts:225-288 | behind `requireSuperAdmin`, the manageable-role check never refuses; a change succeeds exactly for a super admin changing someone else to one of the five names |
| UsersRoutes.ChangeRole | apps/api/src/routes/users.ts:225-288 | on success only the target's role changes, to the named role's value |
| AdminRoutes.LastGroupIndex | apps/api/src/routes/admin.ts:51-57 | names the last group for the role, with none after it |
| AdminRoutes.UsersByRole | apps/api/src/routes/admin.ts:51-57 | the `reduce` loop builds exactly the role-to-count record of the groups |
| AdminRoutes.RoleCountsLookup | apps/api/src/routes/admin.ts:51-57 | a role is in the record exactly when some group has it, and its count is that of the last such group |
| AdminRoutes.DistinctGroupsReadBack | apps/api/src/routes/admin.ts:51-57 | when the roles are distinct, each role maps to its own group's count |
| AdminRoutes.BanIff | apps/api/src/routes/admin.ts:77-140 | a ban succeeds exactly for an admin or super admin with a valid body banning another existing user, where an admin or super admin target needs a super admin; an admin banning a super admin gets 403 |
| AdminRoutes.BannedFields | apps/api/src/routes/admin.ts:117-123 | a ban sets banned, the given reason or "Banned by administrator", and the given expiry or none; with no expiry the ban is active at every time |
| AdminRoutes.BanUser | apps/api/src/routes/admin.ts:77-140 | the table changes only on success, and then only the target's ban fields |
| AdminRoutes.UnbanClears | apps/api/src/routes/admin.ts:163-169 | an unban clears the three ban fields and nothing else, is idempotent, and undoes any ban |
| AdminRoutes.UnbanIff | apps/api/src/routes/admin.ts:145-184 | an unban succeeds exactly for an admin or super admin naming an existing user by a non-empty id |
| AdminRoutes.UnbanUser | apps/api/src/routes/admin.ts:149-184 | the table changes only on success, and then only the target's ban fields |
| ClientMiddleware.StartsWithAny | apps/client-app/middleware.ts:18-22 | a path is in a route group exactly when it starts with one of the group's prefixes |
| ClientMiddleware.DecideIff | apps/client-app/middleware.ts:12-37 | the redirect to login (carrying the path), the redirect to the dashboard and the pass-through are each exactly characterised |
| ClientMiddleware.CookieValueIgnored | apps/client-app/middleware.ts:16 | only the cookie's presence matters, never its value |
| ClientMiddleware.AuthDisjoint | apps/client-app/middleware.ts:4-34 | no path is both protected or admin and an auth path |
| ClientMiddleware.PrefixNotSegment | apps/client-app/middleware.ts:18-22 | matching is by prefix: `/dashboards` is protected and `/administrator` is an admin path, while `/` is neither |
| Schemas.ParsePagination | apps/api/src/types/index.ts:263-266 | accepted pagination has page >= 1 and limit 1..100 |
| Schemas.PaginationIff | apps/api/src/types/index.ts:263-266 | pagination is accepted exactly when each given field is an integer in range; absent fields default to 1 and 10, and given fields are kept |
| Schemas.CrossedBoundsAccepted | apps/api/src/types/index.ts:497-503 | a validity rule with min > max is accepted, and no level ever falls in its range |
| Schemas.ParsedComponentAccepted | apps/api/src/types/index.ts:468-479 | what the support-package parser reads makes a component the schema accepts |
| Schemas.SupportPackageUnchecked | apps/api/src/types/index.ts:468-479 | the support package is not checked against the vendor pattern, and a system with no components is accepted |
| Schemas.NoteIdBounds | apps/api/src/types/index.ts:345-352 | the note id's 1..100 and the title's 1..500 bounds are inclusive |
| Schemas.CurrencyShape | apps/api/src/types/index.ts:438-446 | any three capital letters are a currency; lower case, digits and other lengths are not |
| Schemas.MonthKeyIff | apps/api/src/types/index.ts:507-509 | the accepted month keys are exactly the renderings of a year 0..9999 and a month 0..99 |
| Schemas.MonthKeyExamples | apps/api/src/types/index.ts:507-509 | months 13 and 00 are accepted; a one-digit month, a two-digit year or a `/` separator is not |
| NotificationBell.Badge | apps/client-app/components/atoms/notification.tsx:135-138 | the badge shows only for a positive count, with at most two characters |
| NotificationBell.BadgeText | apps/client-app/components/atoms/notification.tsx:137 | the badge shows the digit up to 9, and `9+` above |
| NotificationBell.VisibleTabs | apps/client-app/components/atoms/notification.tsx:67-72 | "all" shows every item; "unread" shows exactly the unseen ones, in order, and has as many items as the unread count |
| NotificationBell.MarkAllSeen | apps/client-app/components/atoms/notification.tsx:87-89 | every item becomes seen and the list keeps its length |
| NotificationBell.MarkSeen | apps/client-app/components/atoms/notification.tsx:91-95 | only items with the id become seen |
| NotificationBell.MarkAllSeenClears | apps/client-app/components/atoms/notification.tsx:87-89 | after marking all, nothing is unread; marking is idempotent and changes no other field |
| NotificationBell.MarkSeenUnread | apps/client-app/components/atoms/notification.tsx:91-95 | marking one id never raises the unread count, and lowers it exactly when an unseen item has that id |
| NotificationBell.MarkSeenThenAll | apps/client-app/components/atoms/notification.tsx:87-95 | marking one item and then all is the same as marking all |
| NotificationBell.RemoveKeepsOthers | apps/client-app/components/atoms/notification.tsx:97-100 | removing an id removes every item with it, keeps all others in order, and is idempotent |
| NotificationBell.IncomingCounts | apps/client-app/components/atoms/notification.tsx:102-113 | a simulated arrival adds one item and one unread, at the head of the unread tab |
| NotificationBell.TimeAgoBuckets | apps/client-app/components/atoms/notification.tsx:74-85 | the timestamp is in minutes under an hour, hours under a day and days beyond, each rounded down (floor), also for a time in the future |
| NotificationBell.FiveHoursAgo | apps/client-app/components/atoms/notification.tsx:74-85 | five hours ago reads `5h ago` |
| NotificationBell.SamplesUnread | apps/client-app/components/atoms/notification.tsx:26-67 | the initial list has two unread items and the badge shows `2` |
| NotificationBell.Bell.constructor | apps/client-app/components/atoms/notification.tsx:62-65 | the bell starts with the sample list on the "all" tab |
| NotificationBell.Bell.SetActiveTab | apps/client-app/components/atoms/notification.tsx:64-72 | switching tab leaves the list unchanged |
| NotificationBell.Bell.MarkAllAsRead | apps/client-app/components/atoms/notification.tsx:87-89 | the list becomes all seen and nothing is unread |
| NotificationBell.Bell.MarkAsSeen | apps/client-app/components/atoms/notification.tsx:91-95 | the list is marked at the id, and the unread count does not rise |
| NotificationBell.Bell.RemoveNotification | apps/client-app/components/atoms/notification.tsx:97-100 | the list loses the id's items |
| NotificationBell.Bell.SimulateIncoming | apps/client-app/components/atoms/notification.tsx:102-113 | a new unseen item is prepended and the unread count rises by one |
| NotificationBell.Bell.ClearAll | apps/client-app/components/atoms/notification.tsx:304-306 | the list becomes empty |
| SystemDetailsTable.FilteredIff | apps/client-app/components/molecules/systemDetailsTable.tsx:176-185 | an empty filter shows all rows; otherwise a row is shown exactly when its title, status or version contains the filter ignoring the case of ASCII letters, in order |
| SystemDetailsTable.FilterIgnoresCase | apps/client-app/components/molecules/systemDetailsTable.tsx:178-184 | the case of the filter's ASCII letters does not matter |
| SystemDetailsTable.StatusIsSearched | apps/client-app/components/molecules/systemDetailsTable.tsx:180-184 | the status is searched: "CRIT" finds a critical row |
| SystemDetailsTable.FindRow | apps/client-app/components/molecules/systemDetailsTable.tsx:207 | finds the first row with the id, or nothing when no row has it |
| SystemDetailsTable.WithoutIdKeeps | apps/client-app/components/molecules/systemDetailsTable.tsx:214-236 | removing an id keeps exactly the other rows, in order |
| SystemDetailsTable.OverlayFields | apps/client-app/components/molecules/systemDetailsTable.tsx:227 | saving a draft replaces exactly the fields the draft holds and keeps the id; a row's own draft changes nothing; overlaying twice is overlaying once |
| SystemDetailsTable.SaveRowsFrame | apps/client-app/components/molecules/systemDetailsTable.tsx:225-229 | saving changes only the rows with the id, keeps every id and the length, and changes nothing when the id is absent |
| SystemDetailsTable.TitleGivenIff | apps/client-app/components/molecules/systemDetailsTable.tsx:221-224 | a draft can be saved exactly when its title has a non-whitespace character |
| SystemDetailsTable.StartThenCancel | apps/client-app/components/molecules/systemDetailsTable.tsx:191-218 | a freshly added row is blank, and cancelling it removes it again |
| SystemDetailsTable.Table.constructor | apps/client-app/components/molecules/systemDetailsTable.tsx:106-112 | the table starts empty, not editing, with an empty filter |
| SystemDetailsTable.Table.SetFilter | apps/client-app/components/molecules/systemDetailsTable.tsx:176-185 | the filter changes and nothing else |
| SystemDetailsTable.Table.EditDraft | apps/client-app/components/molecules/systemDetailsTable.tsx:315-420 | a field edit merges into the draft and changes nothing else |
| SystemDetailsTable.Table.StartEdit | apps/client-app/components/molecules/systemDetailsTable.tsx:187-204 | editing a row copies it to the draft; with no row, a blank row is prepended and edited |
| SystemDetailsTable.Table.CancelEdit | apps/client-app/components/molecules/systemDetailsTable.tsx:206-218 | a blank row is removed; editing always stops |
| SystemDetailsTable.Table.SaveEdit | apps/client-app/components/molecules/systemDetailsTable.tsx:220-232 | without a title nothing changes; otherwise the draft is overlaid on the row with the id and editing stops |
| SystemDetailsTable.Table.DeleteRow | apps/client-app/components/molecules/systemDetailsTable.tsx:234-241 | the id's rows are removed, and editing stops only if that row was being edited |
| SystemDashboard.FilteredIff | apps/client-app/components/molecules/systemDashboard.tsx:48-57 | a system is shown exactly when it passes the status filter and the search, compared ignoring the case of ASCII letters, in order; with neither, all are shown |
| SystemDashboard.StatusFilterIff | apps/client-app/components/molecules/systemDashboard.tsx:49-50 | each status choice selects exactly the systems with that status, and no choice selects all |
| SystemDashboard.SearchIgnoresSurroundingSpace | apps/client-app/components/molecules/systemDashboard.tsx:51-55 | whitespace around the search does not matter |
| SystemDashboard.StatusNotSearched | apps/client-app/components/molecules/systemDashboard.tsx:51-55 | the search looks at title and version, not status |
| SystemDashboard.CriticalShowsFirst | apps/client-app/components/molecules/systemDashboard.tsx:9-57 | on the dashboard's data, "critical" shows only the first system |
| JsStrings.Trim | apps/api/src/middleware/auth.ts:37 | trimming removes only whitespace at the ends; the result is empty exactly for an all-whitespace string |
| JsStrings.TrimIdempotent | apps/client-app/components/molecules/systemDashboard.tsx:51 | trimming twice is trimming once |
| JsStrings.Contains | apps/client-app/components/molecules/systemDetailsTable.tsx:181-183 | `includes` holds exactly when the text occurs at some position |
| JsStrings.Split | apps/api/src/middleware/auth.ts:36-38 | `split` yields at least one part, none containing the separator, and joining them gives the string back |
| JsStrings.SplitHead | apps/api/src/middleware/auth.ts:37-38 | the first part ends at the first separator, and the remaining parts join to the rest |
| JsStrings.ParseIntDecimal | apps/api/src/routes/users.ts:23-24 | `parseInt` of a number's decimal rendering gives the number |
| JsStrings.ParseIntDigits | apps/api/src/lib/sap-parsers.ts:19 | `parseInt` of a non-empty digit string gives its decimal value |

## Left out

- Every store call (`findMany`, `create`, `createMany`, `update`, `delete`, `count`, `groupBy`). Reads are given sequences and maps. Writes are state changes on the model's classes. Failure parameters exist only in the analysis run: one per read, one for `createMany`, one for the completing update and one for the catch block's own update. There is no transaction, so no atomicity is claimed.
- RunsService.CreateRun: the final reload (`findById` with its includes, runs.service.ts:87) is not modelled; the model returns the run object itself, and a rejected `create` returns it too so that its stored state can be stated.
- Read and write failures inside the user and admin handlers (their 500 replies). The handlers' guards are modelled on a given table, which cannot fail. A write that throws there (`user.update` at users.ts:148 and users.ts:270, `user.delete` at users.ts:208, the ban and unban updates at admin.ts:117 and admin.ts:163) answers 500 with nothing changed. UsersRoutes.PatchUser, UsersRoutes.DeleteUser, UsersRoutes.DeleteUserCorrected, UsersRoutes.ChangeRole, AdminRoutes.BanUser and AdminRoutes.UnbanUser therefore promise the change on every Ok the guards allow, which the source delivers only when the write succeeds. Of these failures only unban's missing id is modelled, as its 500.
- RunsService.CreateRun: a failing `prisma.run.create` (runs.service.ts:68) rejects `create` with no run stored; the model always creates the run.
- The counts and `recentSignups` of the admin stats route (admin.ts:20-48). They are plain store counts; only the `usersByRole` fold is modelled.
- `decodeURIComponent`, zod's `url` and `datetime` checks, and date parsing. Each is a parameter of the model, because each is a library routine whose exact grammar is not part of the source.
- The clock (`new Date()`, `Date.now()`) and the ids of new rows. These are parameters supplied by the caller.
- Float-valued fields: cvss, confidence score and payment amounts. Only integers are modelled.
- UsersRoutes.QueryInt: `parseInt` is modelled on ASCII text (leading whitespace, a sign, a `0x` prefix, then digits). Floating-point rounding of numbers beyond 2^53 is not modelled. A negative page makes the store call throw; the model only computes the window.
- String lengths count characters, not UTF-16 code units.
- SystemDetailsTable.FilteredIff: `toLowerCase` is modelled on ASCII letters only, so a row titled "Éclair" is not found by "é" in the model although the browser finds it; full Unicode case mapping is a large table outside the component.
- SystemDetailsTable.FilterIgnoresCase: holds for the case of ASCII letters only, for the same reason.
- SystemDashboard.FilteredIff: the search and the status comparison ignore the case of ASCII letters only, for the same reason.
- The client middleware's `config.matcher` (middleware.ts:38-50). Next.js never runs the middleware for paths beginning `/api`, `/_next/static`, `/_next/image` or `/favicon.ico`, any path containing a dot, or `/`, so for example `/dashboard.json` is never redirected; the model's decision applies to every path it is given.
- Two JavaScript input shapes: a repeated query parameter such as `?page=1&page=2` arrives as an array, which `parseInt` reads as 1; and a role string naming an `Object.prototype` member such as `toString` makes `hasPermission` throw. The model takes each query as one string and treats every unlisted role string as unknown.
- `Number()` coercion of the vulnerability field in the system table. The draft takes an integer, so `NaN` is not modelled.
- Schemas other than pagination, note validity, client system, note (string fields), currency and month key. The duplicate schemas in the commented-out part of the types file are not modelled either.
- `localStorage` seeding and persistence, the highlight effect, the date picker and `parseDate` in the system table. These are browser storage, timers and locale formatting.
- All rendering, icons, dialogs and styling.
- The ingestion route. It runs an external command.
- The remaining controllers and services. They pass data through to the store.
- Session-sync polling and the auth configuration. These are timers, events and library setup.

## Findings

| source | as written | input that shows it | evidently intended | confidence | as-written member | corrected member |
|---|---|---|---|---|---|---|
| apps/api/src/routes/users.ts:200-206 | the delete guard refuses a non-super-admin requester only when the target's role is `admin` | an admin deletes a user whose role is `super_admin`: the request passes the guard and the super admin is deleted | "Only super admin can delete admins" should also protect super admins, as the ban route does (admin.ts:109-115) | not executed | UsersRoutes.AdminCanDeleteSuperAdmin | UsersRoutes.DeleteUserIff |
