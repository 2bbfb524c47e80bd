# Authorization graph of `AuthService`

A Dafny model of the role-based access control core of the NestJS
`AuthService`. The model has three tables:

- users, each with an ordered list of role ids;
- roles, each with an ordered list of permission ids;
- permissions.

The service methods maintain these tables. The model covers the entity store with its natural-key checks, the
exclusive `add*`, filtering `remove*` and all-or-nothing `assign*` edge
operations, the deletion and toggle guards, the back-reference queries, the
credential check, and the permission resolver. The resolver flattens a user's roles into
permission codes. Each code is kept once, in first-seen order.

Modules:

- `Entities`: records, the three error kinds, the `Result` type, the
  digest-free user view, and the partial updates that `Object.assign` applies.
- `EdgeLists`: pure operations on id lists.
  - `Without` is the `filter` of `remove*`.
  - `Dedup` is the resolver's accumulator.
  - `Found` is the row set `findBy(In(ids))` returns.
  - `Present` is the edge list that create and update store.
- `Resolver`: the specification of resolution (`Resolve`) and the nested `some` test
  (`Grants`), with their lemmas.
- `Guards`: code and identity uniqueness, plus the code check of the two update methods,
  both as written and as corrected.
- `Service`: the class `AuthService`.
  - Its fields are the three repositories as maps, plus an id counter.
  - Each service method is a method that checks and then writes those maps.
  - `Valid()` is the store invariant every method keeps: edges never dangle or repeat, no
    non-empty role or permission code is held twice, and ids stay below the counter.
  - `ResolvePermissions` is the accumulator loop, proved equal to `Resolve`.
- `Scenarios`: sequences of calls and the combined outcome the service guarantees for them.

Modelling choices:

- **Row order.** The order of rows that `findBy(In(ids))` returns is not fixed.
  - After `assign*`, the contract promises only that the stored list is a permutation of the requested one.
  - After create and update, it promises only that the stored list has no repeats and holds exactly the existing requested ids.
- **Duplicate usernames.** `updateUser` does not re-check username or email, so two users can share
  them. For that reason, uniqueness of these fields is not part of `Valid()`. A `findOne` by
  username or email returns any one matching user.
- **Empty code.** The class uses the code check of the two update methods as written, which never
  checks the code "". Two roles, or two permissions, can therefore share the code "", and
  `Valid()` promises uniqueness only for non-empty codes. The corrected check and its
  uniqueness proof are kept beside it (see Findings).
- **Null.** An update may carry an explicit `null` for a nullable field, which clears it;
  the patch types give such fields three states (absent, `null`, value).

## Model

| member | source | states |
|---|---|---|
| Service.AuthService.constructor | src/auth/auth.service.ts:15-23 | the store starts empty, with the given hashing and comparing collaborators |
| Service.AuthService.CreateUser | src/auth/auth.service.ts:25-58 | Conflict "Username or email already exists" with the store unchanged when either key is taken; otherwise one new user with the hashed password, `isActive` true unless supplied, and as roles exactly the existing listed ids, each once |
| Service.AuthService.FindUserById | src/auth/auth.service.ts:60-71 | NotFound "User not found" exactly when the id is absent, otherwise that user, whose role list is well formed |
| Service.AuthService.FindUser | src/auth/auth.service.ts:74-103 | the `findOne` of the email, username and credential lookups (74-77, 87-90, 100-103): returns a matching user, and none only when no user matches |
| Service.AuthService.FindUserByEmail | src/auth/auth.service.ts:73-84 | returns a user with that email; NotFound exactly when no user has it |
| Service.AuthService.FindUserByUsername | src/auth/auth.service.ts:86-97 | returns a user with that username; NotFound exactly when no user has it |
| Service.AuthService.ValidateUser | src/auth/auth.service.ts:99-119 | every failure is the one Unauthorized "Invalid credentials" with users unchanged; a success names an active user with that username whose digest matches, and only then stamps `lastLoginAt`; with no matching active user whose password checks it fails, and with a single such user it returns that user |
| Service.AuthService.ResolvePermissions | src/auth/auth.service.ts:126-133 | the nested accumulator loop returns exactly `Resolve` of the role list |
| Service.AuthService.Login | src/auth/auth.service.ts:121-136 | on success the validated user (with its new login stamp) and its resolved codes; every failure is Unauthorized with users unchanged; it fails when no active user of that name has a matching digest, and with exactly one active user of that name whose digest matches it returns that user, stamped with `now` |
| Service.AuthService.HasPermission | src/auth/auth.service.ts:213-219 | NotFound exactly when the user is absent; otherwise true iff the code is in the user's resolved permissions |
| Service.AuthService.GetUserPermissions | src/auth/auth.service.ts:221-234 | NotFound exactly when the user is absent; otherwise the resolved codes, whose members are exactly the codes `HasPermission` accepts |
| Service.AuthService.GetUserProfile | src/auth/auth.service.ts:236-264 | the digest-free view, the role codes position by position, and the resolved permission codes |
| Service.AuthService.UpdateUser | src/auth/auth.service.ts:279-305 | NotFound when absent; otherwise the supplied fields overwritten with no uniqueness re-check, roles untouched when no list is supplied, cleared by an empty list, otherwise exactly the existing listed ids, each once; other users unchanged |
| Service.AuthService.DeleteUser | src/auth/auth.service.ts:307-310 | NotFound when absent; otherwise exactly that user removed |
| Service.AuthService.ToggleUserStatus | src/auth/auth.service.ts:312-321 | NotFound when absent; otherwise only `isActive` of that user negated |
| Service.AuthService.CreateRole | src/auth/auth.service.ts:139-160 | Conflict "Role code already exists" with the store unchanged when the code is taken; otherwise one new role, `isSystem` false unless supplied, whose permissions are exactly the existing listed ids, each once |
| Service.AuthService.FindRoleById | src/auth/auth.service.ts:168-179 | NotFound "Role not found" exactly when absent, otherwise that role with a well-formed permission list |
| Service.AuthService.UpdateRole | src/auth/auth.service.ts:324-356 | NotFound when absent; Conflict when a supplied non-empty, different code belongs to another role; a rename to "" is never checked; otherwise the supplied fields, `isSystem` included, overwritten (`null` clears the description) and the permission list replaced as for users; non-empty codes stay unique |
| Service.AuthService.DeleteRole | src/auth/auth.service.ts:358-367 | NotFound when absent; Conflict "Cannot delete system role" with nothing changed for a system role; otherwise the role is removed and every user's list loses that id, all else kept |
| Service.AuthService.ToggleRoleStatus | src/auth/auth.service.ts:369-381 | NotFound when absent; Conflict "Cannot modify system role status" for a system role; otherwise `isSystem` goes from false to true and nothing else changes |
| Service.AuthService.CreatePermission | src/auth/auth.service.ts:182-193 | Conflict "Permission code already exists" with the store unchanged when the code is taken; otherwise exactly one new permission with the supplied fields |
| Service.AuthService.FindPermissionById | src/auth/auth.service.ts:199-210 | NotFound "Permission not found" exactly when absent, otherwise that permission |
| Service.AuthService.UpdatePermission | src/auth/auth.service.ts:401-419 | NotFound when absent; Conflict when a supplied non-empty, different code belongs to another permission; a rename to "" is never checked; otherwise the supplied fields overwritten (`null` clears description or module); non-empty codes stay unique |
| Service.AuthService.DeletePermission | src/auth/auth.service.ts:421-435 | NotFound when absent; Conflict "Cannot delete permission that is assigned to roles" while some role grants it; otherwise exactly that permission removed |
| Service.AuthService.GetPermissionsByModule | src/auth/auth.service.ts:450-455 | exactly the permissions whose module label is the given one |
| Service.AuthService.GetAllModules | src/auth/auth.service.ts:457-465 | a label is listed iff it is non-empty and some permission carries it |
| Service.AuthService.GetUsersWithRole | src/auth/auth.service.ts:568-583 | NotFound exactly when the role is absent; otherwise exactly the users holding it, digest stripped |
| Service.AuthService.GetRolesWithPermission | src/auth/auth.service.ts:585-596 | NotFound exactly when the permission is absent; otherwise exactly the roles granting it |
| Service.AuthService.AssignPermissionsToRole | src/auth/auth.service.ts:468-486 | NotFound when the role is absent; "Some permissions not found" with nothing written when the found count differs from the list length; otherwise the edges are a permutation of the listed ids (an empty list clears them) |
| Service.AuthService.RemovePermissionFromRole | src/auth/auth.service.ts:488-494 | only the role must exist; its list becomes `Without(list, id)`, other roles unchanged |
| Service.AuthService.AddPermissionToRole | src/auth/auth.service.ts:496-509 | NotFound if either end is absent; Conflict "Permission already assigned to this role" with nothing changed if present; otherwise the id is appended and all else is unchanged |
| Service.AuthService.AssignRolesToUser | src/auth/auth.service.ts:512-534 | NotFound when the user is absent; "Some roles not found" with nothing written when the found count differs from the list length; otherwise the edges are a permutation of the listed ids (an empty list clears them) |
| Service.AuthService.RemoveRoleFromUser | src/auth/auth.service.ts:536-546 | only the user must exist; its list becomes `Without(list, id)`, other users unchanged |
| Service.AuthService.AddRoleToUser | src/auth/auth.service.ts:548-565 | NotFound if either end is absent; Conflict "Role already assigned to this user" with nothing changed if present; otherwise the id is appended and all else is unchanged |
| Service.RoleCodesOf | src/auth/auth.service.ts:244 | one role code per role id |
| Service.RoleCodesAt | src/auth/auth.service.ts:244 | the i-th role code is the code of the i-th role |
| Service.AppendKeepsWellFormed | src/auth/auth.service.ts:506 | appending an existing id that is not yet listed keeps the list without repeats and without dangling ids |
| EdgeLists.Without | src/auth/auth.service.ts:491 | an id survives the filter iff it was listed and differs from the removed one; the list never grows |
| EdgeLists.WithoutNonMember | src/auth/auth.service.ts:539 | removing a non-member leaves the list unchanged |
| EdgeLists.WithoutIdempotent | src/auth/auth.service.ts:539 | removing twice equals removing once |
| EdgeLists.WithoutAppend | src/auth/auth.service.ts:491 | the filter distributes over concatenation, so kept entries keep their relative order |
| EdgeLists.WithoutKeepsNoDup | src/auth/auth.service.ts:539 | removing keeps a list without repeats |
| EdgeLists.WithoutAt | src/auth/auth.service.ts:491 | in a list without repeats, removing a member deletes exactly its one position |
| EdgeLists.DedupMembers | src/auth/auth.service.ts:224-231 | the accumulator holds exactly the scanned values |
| EdgeLists.DedupStep | src/auth/auth.service.ts:226-228 | one step pushes a value exactly when it is not yet held |
| EdgeLists.DedupNoDup | src/auth/auth.service.ts:224-231 | the accumulator never holds a value twice |
| EdgeLists.DedupOfNoDup | src/auth/auth.service.ts:224-231 | a scan without repeats is returned unchanged |
| EdgeLists.FirstIndex | src/auth/auth.service.ts:226 | the first position holding the value |
| EdgeLists.FirstIndexAppend | src/auth/auth.service.ts:227 | pushing at the end does not move earlier first occurrences |
| EdgeLists.DedupFirstSeen | src/auth/auth.service.ts:224-231 | values leave the accumulator in the order of their first occurrence |
| EdgeLists.ElemsCount | src/auth/auth.service.ts:478 | a list has at most as many distinct values as entries, equally many iff it has no repeats |
| EdgeLists.FoundCountIff | src/auth/auth.service.ts:474-480 | the found rows number the listed ids iff the list has no repeats and every id exists |
| EdgeLists.Keep | src/auth/auth.service.ts:50-55 | an id is kept iff it is listed and exists |
| EdgeLists.KeepAll | src/auth/auth.service.ts:50-55 | when every listed id exists, nothing is dropped |
| EdgeLists.Present | src/auth/auth.service.ts:151-157 | the loaded edge list has no repeats, no dangling id, and holds exactly the existing listed ids |
| EdgeLists.PresentExact | src/auth/auth.service.ts:293-296 | a request without repeats or unknown ids is stored as requested |
| Resolver.CodesOfStep | src/auth/auth.service.ts:225-229 | one more permission of a role adds its code, or nothing if the row is gone |
| Resolver.GrantedCodesStep | src/auth/auth.service.ts:224-231 | one more role adds the codes of its permissions in order |
| Resolver.CodesOfMembers | src/auth/auth.service.ts:217 | a code is among a role's codes iff one of its permissions has that code |
| Resolver.GrantedCodesMembers | src/auth/auth.service.ts:216-218 | a code is granted by the scan iff the nested `some` test holds |
| Resolver.ResolveIffGrants | src/auth/auth.service.ts:213-234 | a code is in the resolved list iff some role of the user grants a permission with that code |
| Resolver.ResolveNoDup | src/auth/auth.service.ts:224-231 | the resolved list has no repeats |
| Resolver.ResolveFirstSeen | src/auth/auth.service.ts:247-254 | resolved codes appear in the order of their first grant, roles in order and then their permissions |
| Resolver.ResolveExtends | src/auth/auth.service.ts:126-133 | one more role only appends codes; earlier codes keep their places |
| Resolver.DedupPrefix | src/auth/auth.service.ts:126-133 | the accumulator after a prefix is a prefix of the final accumulator |
| Resolver.DedupRepeatedMiddle | src/auth/auth.service.ts:226-228 | for three distinct codes, the scan [a, b, b, c] accumulates to [a, b, c] |
| Resolver.TwoRolesExample | src/auth/auth.service.ts:126-133 | roles granting [read, write] then [write, delete] resolve to [read, write, delete] |
| Guards.CreateKeepsUnique | src/auth/auth.service.ts:143-146 | a create that passed the code check keeps codes unique |
| Guards.CreateKeepsNonEmptyUnique | src/auth/auth.service.ts:186-189 | a create that passed the code check keeps non-empty codes unique |
| Guards.UpdateAsWrittenKeepsNonEmptyUnique | src/auth/auth.service.ts:331-341 | the update check as written, though it skips "", still keeps non-empty codes unique |
| Guards.UpdateKeepsUnique | src/auth/auth.service.ts:331-338 | with the corrected check, an update that is not refused keeps codes unique |
| Guards.EmptyCodeSlipsThrough | src/auth/auth.service.ts:406-413 | the check as written lets a rename to "" through and produces two equal codes; the corrected check refuses it |
| Scenarios.RenameTwoRolesToEmpty | src/auth/auth.service.ts:331-341 | renaming two roles to "" succeeds both times and leaves them sharing the code |
| Scenarios.AddRoleTwice | src/auth/auth.service.ts:548-565 | after a successful add, the same add is Conflict and the list is as the first add left it |
| Scenarios.AddPermissionTwice | src/auth/auth.service.ts:496-509 | after a successful add, the same add is Conflict and the list is as the first add left it |
| Scenarios.RemoveRoleTwice | src/auth/auth.service.ts:536-546 | two removes succeed or fail together and end where one remove ends, without the id |
| Scenarios.AssignWithUnknownRole | src/auth/auth.service.ts:512-534 | a list naming one unknown role is refused and nothing is written |
| Scenarios.ToggleThenDelete | src/auth/auth.service.ts:358-381 | once toggled, a role can be neither deleted nor toggled again |
| Scenarios.CreateRoleTwice | src/auth/auth.service.ts:139-146 | a second create with the same code is Conflict |
| Scenarios.CreateUserTwice | src/auth/auth.service.ts:25-35 | a second registration with the same username is Conflict and only one user is added |

## Left out

- The HTTP controller, the input DTO validation, and the NestJS module wiring are not part of this model. Inputs are assumed to have the shapes the DTOs describe.
- Persistence is an in-memory map per table. The model leaves out async execution, transactions, concurrent requests, and the cascade rules of the join tables.
  - The entity files are not part of this model.
  - `DeleteRole` assumes the user-role join rows of a deleted role go with it.
  - `DeleteUser` assumes the same for the user's own rows.
- Identifiers are natural numbers from a counter, not generated UUIDs. Only their freshness matters to the service.
- bcrypt hashing and comparison are function values given to the constructor. The hash is deterministic here, so salting is not modelled.
- The clock (`new Date()`) is the parameter `now`.
- `findAllUsers`, `findAllRoles` and `findAllPermissions` are plain list queries with no checks. They are not modelled.
- `getRoleUsers` behaves as `getUsersWithRole`, which models both.
- `getPermissionRoles` returns the same roles as `getRolesWithPermission`, which models its role list. It also loads each role's holders (`roles.users`) and returns them with their password digests. The model's `Role` has no holder list, so that part is not modelled.
- `findRoleById` also loads the role's holders with their digests, and the controller returns that role as is. `FindRoleById` returns the role without holders. The holders of a role are `GetUsersWithRole`.
- Service.AuthService.CreateUser: returns the new user's id instead of the saved row. The contract states that row in full.
- Service.AuthService.AssignPermissionsToRole: promises only a permutation of the requested ids, because storage does not fix the order of `findBy` rows.
- Service.AuthService.AssignRolesToUser: same as `AssignPermissionsToRole`.
- Service.AuthService.CreateRole: promises only the set of stored ids and that none repeats, because storage does not fix the order of `findBy` rows.
- Service.AuthService.UpdateRole: same as `CreateRole`. A `null` for the code, the name or `isSystem` is not modelled; storage would refuse that save.
- Service.AuthService.UpdateUser: same as `CreateRole`. The partial update carries only the declared user fields, not any other property an untyped request body could carry. A `null` for a non-nullable field (username, email, isActive) is not modelled; storage would refuse that save.
- Service.AuthService.UpdatePermission: a `null` for the code or the name is not modelled; storage would refuse that save.
- Service.AuthService.FindUserByEmail: when several users match, it returns one of them without saying which. A lookup by username behaves the same way, because usernames can repeat after `updateUser`.
- Service.AuthService.ValidateUser: when several active users share the username, the contract does not say which one is checked.
- Stripping the password digest is modelled only where the service itself strips it. `UserView` has no digest field. `Login` and the find methods return the full row, as the service does. The digests that `getPermissionRoles` and `findRoleById` expose through a role's holders are not modelled (see above).
- `getAllModules` is a SQL `DISTINCT` query. It is modelled as the set of non-empty module labels.

The model follows the code in these behaviours, which a reader might not expect:

- `updateUser` re-checks neither username nor email.
- `updateRole` accepts `isSystem` and can therefore clear the protection.
- `toggleRoleStatus` flips `isSystem` itself, so a toggled role becomes undeletable.
- `remove*` checks only that the owning record exists.
- `updateRole` and `updatePermission` never check a rename to the code "".

## Findings

| source | as written | input that shows it | evidently intended | confidence | as-written member | corrected member |
|---|---|---|---|---|---|---|
| src/auth/auth.service.ts:331-338 and 406-413 | the code check runs only when `updateData.code` is truthy and differs from the current code, so an update to the empty code `""` is never checked, yet `Object.assign` still writes it | roles `{0: code "", 1: code "admin"}`; update role 1 with code `""` | every supplied code that differs from the current one is checked, so codes stay unique | medium, not executed; a unique constraint in the entity files, which are not part of this model, may refuse the save | Guards.EmptyCodeSlipsThrough | Guards.UpdateKeepsUnique |
