/**
 * `AuthService`: the three repositories become map fields of one object,
 * and each service method becomes a method that checks, then writes those
 * maps.  `Valid()` is the consistency the store keeps across every
 * operation: no dangling and no repeated edge, no non-empty role or
 * permission code held twice, and ids below the allocation counter.
 */
module Service {
  import opened Entities
  import opened EdgeLists
  import opened Resolver
  import opened Guards

  const UserNotFound := NotFound("User not found")
  const RoleNotFound := NotFound("Role not found")
  const PermissionNotFound := NotFound("Permission not found")
  const UserExists := Conflict("Username or email already exists")
  const RoleCodeExists := Conflict("Role code already exists")
  const PermissionCodeExists := Conflict("Permission code already exists")
  const InvalidCredentials := Unauthorized("Invalid credentials")
  const SystemRoleDelete := Conflict("Cannot delete system role")
  const SystemRoleToggle := Conflict("Cannot modify system role status")
  const PermissionInUse := Conflict("Cannot delete permission that is assigned to roles")
  const SomePermissionsNotFound := NotFound("Some permissions not found")
  const SomeRolesNotFound := NotFound("Some roles not found")
  const PermissionAlreadyAssigned := Conflict("Permission already assigned to this role")
  const RoleAlreadyAssigned := Conflict("Role already assigned to this user")

  /** What `login` hands back: the user row and its resolved permission codes. */
  datatype Session = Session(user: User, permissions: seq<Code>)

  /** What `getUserProfile` hands back. */
  datatype Profile = Profile(user: UserView, roles: seq<Code>, permissions: seq<Code>)

  /** `user.roles.map(role => role.code)` */
  function RoleCodesOf(roles: map<Id, Role>, rids: seq<Id>): (r: seq<Code>)
    requires forall x :: x in rids ==> x in roles
    ensures |r| == |rids|
  {
    if rids == [] then [] else [roles[rids[0]].code] + RoleCodesOf(roles, rids[1..])
  }

  /** The role codes of a user list the codes of its roles position by position. */
  lemma {:induction false} RoleCodesAt(roles: map<Id, Role>, rids: seq<Id>)
    requires forall x :: x in rids ==> x in roles
    ensures forall i :: 0 <= i < |rids| ==> RoleCodesOf(roles, rids)[i] == roles[rids[i]].code
  {
    if rids != [] {
      RoleCodesAt(roles, rids[1..]);
      forall i | 0 < i < |rids| ensures RoleCodesOf(roles, rids)[i] == roles[rids[i]].code {
        assert rids[1..][i - 1] == rids[i];
      }
    }
  }

  /** The row `findOne({ where: { username, isActive: true } })` matches. */
  predicate ActiveNamed(u: User, username: string)
  {
    u.username == username && u.isActive
  }

  class AuthService {
    var users: map<Id, User>
    var roles: map<Id, Role>
    var permissions: map<Id, Permission>
    /** Every id handed out so far is below this counter. */
    var nextId: Id
    /** The password-hashing collaborator: `bcrypt.hash`. */
    const hash: string -> Digest
    /** The password-checking collaborator: `bcrypt.compare`. */
    const verify: (string, Digest) -> bool

    ghost predicate Valid()
      reads this
    {
      && (forall u :: u in users ==> u < nextId && WellFormed(users[u].roles, roles.Keys))
      && (forall r :: r in roles ==> r < nextId && WellFormed(roles[r].permissions, permissions.Keys))
      && (forall p :: p in permissions ==> p < nextId)
      && UniqueNonEmptyCodes(RoleCodeMap(roles))
      && UniqueNonEmptyCodes(PermissionCodeMap(permissions))
    }

    constructor (hash: string -> Digest, verify: (string, Digest) -> bool)
      ensures Valid()
      ensures users == map[] && roles == map[] && permissions == map[]
      ensures this.hash == hash && this.verify == verify
    {
      this.hash, this.verify := hash, verify;
      users, roles, permissions := map[], map[], map[];
      nextId := 0;
    }

    // -------------------------------------------------------------------
    // Users
    // -------------------------------------------------------------------

    method CreateUser(username: string, email: string, password: string,
                      firstName: Option<string>, lastName: Option<string>,
                      isActive: Option<bool>, roleIds: seq<Id>) returns (r: Result<Id>)
      requires Valid()
      modifies this
      ensures Valid()
      ensures roles == old(roles) && permissions == old(permissions)
      ensures IdentityTaken(old(users), username, email) ==> r == Err(UserExists) && users == old(users)
      ensures !IdentityTaken(old(users), username, email) ==>
        && r.Ok? && r.value !in old(users) && r.value in users
        && users == old(users)[r.value := users[r.value]]
        && (var u := users[r.value];
            && u == User(username, email, hash(password), firstName, lastName,
                         Overwrite(true, isActive), None, u.roles)
            && NoDup(u.roles) && Elems(u.roles) == Found(roleIds, roles.Keys))
    {
      if IdentityTaken(users, username, email) {
        return Err(UserExists);
      }
      var granted := if |roleIds| > 0 then Present(roleIds, roles.Keys) else [];
      var id := nextId;
      nextId := nextId + 1;
      users := users[id := User(username, email, hash(password), firstName, lastName,
                                Overwrite(true, isActive), None, granted)];
      r := Ok(id);
    }

    /** `findOne({ where: { id } })` with the roles relation loaded. */
    function FindUserById(id: Id): (r: Result<User>)
      reads this
      ensures r.Err? <==> id !in users
      ensures r.Err? ==> r.error == UserNotFound
      ensures r.Ok? ==> r.value == users[id]
      ensures Valid() && r.Ok? ==> WellFormed(r.value.roles, roles.Keys)
    {
      if id in users then Ok(users[id]) else Err(UserNotFound)
    }

    /** `findOne({ where })`: some user that satisfies `p`, if there is one. */
    method FindUser(p: User -> bool) returns (r: Option<Id>)
      ensures r.Some? ==> r.value in users && p(users[r.value])
      ensures r.None? <==> forall u :: u in users ==> !p(users[u])
    {
      var pending := users.Keys;
      while pending != {}
        invariant pending <= users.Keys
        invariant forall u :: u in users && u !in pending ==> !p(users[u])
        decreases pending
      {
        var u :| u in pending;
        if p(users[u]) {
          return Some(u);
        }
        pending := pending - {u};
      }
      return None;
    }

    method FindUserByEmail(email: string) returns (r: Result<Id>)
      ensures r.Ok? ==> r.value in users && users[r.value].email == email
      ensures r.Err? <==> forall u :: u in users ==> users[u].email != email
      ensures r.Err? ==> r.error == UserNotFound
    {
      var found := FindUser((u: User) => u.email == email);
      r := if found.Some? then Ok(found.value) else Err(UserNotFound);
    }

    method FindUserByUsername(username: string) returns (r: Result<Id>)
      ensures r.Ok? ==> r.value in users && users[r.value].username == username
      ensures r.Err? <==> forall u :: u in users ==> users[u].username != username
      ensures r.Err? ==> r.error == UserNotFound
    {
      var found := FindUser((u: User) => u.username == username);
      r := if found.Some? then Ok(found.value) else Err(UserNotFound);
    }

    /**
     * Credential check: an unknown user, an inactive user and a wrong
     * password all fail with the one `Unauthorized('Invalid credentials')`;
     * only a success stamps `lastLoginAt`.
     */
    method ValidateUser(username: string, password: string, now: Time) returns (r: Result<Id>)
      requires Valid()
      modifies this
      ensures Valid()
      ensures roles == old(roles) && permissions == old(permissions) && nextId == old(nextId)
      ensures r.Err? ==> r.error == InvalidCredentials && users == old(users)
      ensures r.Ok? ==>
        && r.value in old(users)
        && ActiveNamed(old(users)[r.value], username)
        && verify(password, old(users)[r.value].passwordHash)
        && users == old(users)[r.value := old(users)[r.value].(lastLoginAt := Some(now))]
      ensures (forall u :: u in old(users) && ActiveNamed(old(users)[u], username) ==>
                 !verify(password, old(users)[u].passwordHash)) ==> r.Err?
      ensures forall u :: u in old(users) && ActiveNamed(old(users)[u], username)
                 && verify(password, old(users)[u].passwordHash)
                 && (forall v :: v in old(users) && ActiveNamed(old(users)[v], username) ==> v == u)
                 ==> r == Ok(u)
    {
      var found := FindUser((u: User) => ActiveNamed(u, username));
      if found.None? {
        return Err(InvalidCredentials);
      }
      var id := found.value;
      if !verify(password, users[id].passwordHash) {
        return Err(InvalidCredentials);
      }
      users := users[id := users[id].(lastLoginAt := Some(now))];
      r := Ok(id);
    }

    /**
     * The accumulator loop: roles in order, each role's permissions in
     * order, a code pushed only when not yet present.
     */
    method ResolvePermissions(rids: seq<Id>) returns (acc: seq<Code>)
      ensures acc == Resolve(roles, permissions, rids)
    {
      acc := [];
      var i := 0;
      while i < |rids|
        invariant 0 <= i <= |rids|
        invariant acc == Dedup(GrantedCodes(roles, permissions, rids[..i]))
      {
        var rid := rids[i];
        var before := GrantedCodes(roles, permissions, rids[..i]);
        GrantedCodesStep(roles, permissions, rids, i);
        if rid in roles {
          var pids := roles[rid].permissions;
          var j := 0;
          assert before + CodesOf(permissions, pids[..0]) == before;
          while j < |pids|
            invariant 0 <= j <= |pids|
            invariant acc == Dedup(before + CodesOf(permissions, pids[..j]))
          {
            var pid := pids[j];
            var seen := before + CodesOf(permissions, pids[..j]);
            CodesOfStep(permissions, pids, j);
            if pid in permissions {
              var code := permissions[pid].code;
              assert before + CodesOf(permissions, pids[..j + 1]) == seen + [code];
              DedupStep(seen, code);
              if code !in acc {
                acc := acc + [code];
              }
            } else {
              assert before + CodesOf(permissions, pids[..j + 1]) == seen;
            }
            j := j + 1;
          }
          assert pids[..|pids|] == pids;
        } else {
          assert before + [] == before;
        }
        i := i + 1;
      }
      assert rids[..|rids|] == rids;
    }

    /** `login`: validate, then resolve the user's permissions. */
    method Login(username: string, password: string, now: Time) returns (r: Result<Session>)
      requires Valid()
      modifies this
      ensures Valid()
      ensures roles == old(roles) && permissions == old(permissions) && nextId == old(nextId)
      ensures r.Err? ==> r.error == InvalidCredentials && users == old(users)
      ensures r.Ok? ==> exists id :: (
        && id in old(users)
        && ActiveNamed(old(users)[id], username)
        && verify(password, old(users)[id].passwordHash)
        && users == old(users)[id := old(users)[id].(lastLoginAt := Some(now))]
        && r.value.user == users[id]
        && r.value.permissions == Resolve(roles, permissions, users[id].roles))
      ensures (forall u :: u in old(users) && ActiveNamed(old(users)[u], username) ==>
                 !verify(password, old(users)[u].passwordHash)) ==> r.Err?
      ensures forall u :: u in old(users) && ActiveNamed(old(users)[u], username)
                 && verify(password, old(users)[u].passwordHash)
                 && (forall v :: v in old(users) && ActiveNamed(old(users)[v], username) ==> v == u)
                 ==> r.Ok? && u in users && r.value.user == users[u]
                     && r.value.user.lastLoginAt == Some(now)
    {
      var v := ValidateUser(username, password, now);
      if v.Err? {
        return Err(v.error);
      }
      var user := users[v.value];
      var codes := ResolvePermissions(user.roles);
      r := Ok(Session(user, codes));
    }

    /** `hasPermission`: the nested `some`, which agrees with membership in the resolved list. */
    function HasPermission(userId: Id, code: Code): (r: Result<bool>)
      reads this
      ensures r.Err? <==> userId !in users
      ensures r.Err? ==> r.error == UserNotFound
      ensures r.Ok? ==> (r.value <==> code in Resolve(roles, permissions, users[userId].roles))
    {
      if userId !in users then Err(UserNotFound)
      else
        ResolveIffGrants(roles, permissions, users[userId].roles, code);
        Ok(Grants(roles, permissions, users[userId].roles, code))
    }

    method GetUserPermissions(userId: Id) returns (r: Result<seq<Code>>)
      ensures r.Err? <==> userId !in users
      ensures r.Err? ==> r.error == UserNotFound
      ensures r.Ok? ==> r.value == Resolve(roles, permissions, users[userId].roles)
      ensures r.Ok? ==> forall c :: c in r.value <==> HasPermission(userId, c) == Ok(true)
    {
      if userId !in users {
        return Err(UserNotFound);
      }
      var codes := ResolvePermissions(users[userId].roles);
      r := Ok(codes);
    }

    method GetUserProfile(userId: Id) returns (r: Result<Profile>)
      requires Valid()
      ensures r.Err? <==> userId !in users
      ensures r.Err? ==> r.error == UserNotFound
      ensures r.Ok? ==> var u := users[userId];
        && r.value.user == View(u)
        && |r.value.roles| == |u.roles|
        && (forall i :: 0 <= i < |u.roles| ==> r.value.roles[i] == roles[u.roles[i]].code)
        && r.value.permissions == Resolve(roles, permissions, u.roles)
    {
      if userId !in users {
        return Err(UserNotFound);
      }
      var u := users[userId];
      var codes := ResolvePermissions(u.roles);
      RoleCodesAt(roles, u.roles);
      r := Ok(Profile(View(u), RoleCodesOf(roles, u.roles), codes));
    }

    /**
     * `updateUser`: plain fields overwritten where supplied (no uniqueness
     * re-check); a supplied id list replaces the roles with the existing
     * ones among them, unknown ids dropped.
     */
    method UpdateUser(id: Id, patch: UserPatch, roleIds: Option<seq<Id>>) returns (r: Result<UserView>)
      requires Valid()
      modifies this
      ensures Valid()
      ensures roles == old(roles) && permissions == old(permissions) && nextId == old(nextId)
      ensures id !in old(users) ==> r == Err(UserNotFound) && users == old(users)
      ensures id in old(users) ==>
        && id in users && r == Ok(View(users[id]))
        && users == old(users)[id := users[id]]
        && users[id] == ApplyUserPatch(old(users)[id], patch).(roles := users[id].roles)
        && (roleIds.None? ==> users[id].roles == old(users)[id].roles)
        && (roleIds.Some? ==> NoDup(users[id].roles) && Elems(users[id].roles) == Found(roleIds.value, roles.Keys))
    {
      if id !in users {
        return Err(UserNotFound);
      }
      var u := ApplyUserPatch(users[id], patch);
      if roleIds.Some? {
        if |roleIds.value| == 0 {
          u := u.(roles := []);
        } else {
          u := u.(roles := Present(roleIds.value, roles.Keys));
        }
      }
      users := users[id := u];
      r := Ok(View(u));
    }

    method DeleteUser(id: Id) returns (r: Result<()>)
      requires Valid()
      modifies this
      ensures Valid()
      ensures roles == old(roles) && permissions == old(permissions) && nextId == old(nextId)
      ensures id !in old(users) ==> r == Err(UserNotFound) && users == old(users)
      ensures id in old(users) ==> r.Ok? && users == old(users) - {id}
    {
      if id !in users {
        return Err(UserNotFound);
      }
      users := users - {id};
      r := Ok(());
    }

    method ToggleUserStatus(id: Id) returns (r: Result<UserView>)
      requires Valid()
      modifies this
      ensures Valid()
      ensures roles == old(roles) && permissions == old(permissions) && nextId == old(nextId)
      ensures id !in old(users) ==> r == Err(UserNotFound) && users == old(users)
      ensures id in old(users) ==>
        && users == old(users)[id := old(users)[id].(isActive := !old(users)[id].isActive)]
        && r == Ok(View(users[id]))
    {
      if id !in users {
        return Err(UserNotFound);
      }
      users := users[id := users[id].(isActive := !users[id].isActive)];
      r := Ok(View(users[id]));
    }

    // -------------------------------------------------------------------
    // Roles
    // -------------------------------------------------------------------

    method CreateRole(code: Code, name: string, description: Option<string>,
                      isSystem: Option<bool>, permissionIds: seq<Id>) returns (r: Result<Id>)
      requires Valid()
      modifies this
      ensures Valid()
      ensures users == old(users) && permissions == old(permissions)
      ensures CodeTaken(RoleCodeMap(old(roles)), code) ==> r == Err(RoleCodeExists) && roles == old(roles)
      ensures !CodeTaken(RoleCodeMap(old(roles)), code) ==>
        && r.Ok? && r.value !in old(roles) && r.value in roles
        && roles == old(roles)[r.value := roles[r.value]]
        && (var q := roles[r.value];
            && q == Role(code, name, description, Overwrite(false, isSystem), q.permissions)
            && NoDup(q.permissions) && Elems(q.permissions) == Found(permissionIds, permissions.Keys))
    {
      if CodeTaken(RoleCodeMap(roles), code) {
        return Err(RoleCodeExists);
      }
      var granted := if |permissionIds| > 0 then Present(permissionIds, permissions.Keys) else [];
      var id := nextId;
      nextId := nextId + 1;
      CreateKeepsNonEmptyUnique(RoleCodeMap(roles), id, code);
      var role := Role(code, name, description, Overwrite(false, isSystem), granted);
      assert RoleCodeMap(roles[id := role]) == RoleCodeMap(roles)[id := code];
      roles := roles[id := role];
      r := Ok(id);
    }

    /** `findOne({ where: { id } })` with the permissions relation loaded. */
    function FindRoleById(id: Id): (r: Result<Role>)
      reads this
      ensures r.Err? <==> id !in roles
      ensures r.Err? ==> r.error == RoleNotFound
      ensures r.Ok? ==> r.value == roles[id]
      ensures Valid() && r.Ok? ==> WellFormed(r.value.permissions, permissions.Keys)
    {
      if id in roles then Ok(roles[id]) else Err(RoleNotFound)
    }

    /**
     * `updateRole`: refused when a supplied code that is non-empty and
     * different belongs to another role (the empty code is never checked,
     * as the code as written skips a falsy code); otherwise the supplied fields (isSystem included) are
     * overwritten and a supplied id list replaces the permissions with the
     * existing ones among them.
     */
    method UpdateRole(id: Id, patch: RolePatch, permissionIds: Option<seq<Id>>) returns (r: Result<Role>)
      requires Valid()
      modifies this
      ensures Valid()
      ensures users == old(users) && permissions == old(permissions) && nextId == old(nextId)
      ensures id !in old(roles) ==> r == Err(RoleNotFound) && roles == old(roles)
      ensures id in old(roles) && UpdateConflictsAsWritten(RoleCodeMap(old(roles)), id, patch.code) ==>
        r == Err(RoleCodeExists) && roles == old(roles)
      ensures id in old(roles) && !UpdateConflictsAsWritten(RoleCodeMap(old(roles)), id, patch.code) ==>
        && id in roles && r == Ok(roles[id])
        && roles == old(roles)[id := roles[id]]
        && roles[id] == ApplyRolePatch(old(roles)[id], patch).(permissions := roles[id].permissions)
        && (permissionIds.None? ==> roles[id].permissions == old(roles)[id].permissions)
        && (permissionIds.Some? ==>
              NoDup(roles[id].permissions) && Elems(roles[id].permissions) == Found(permissionIds.value, permissions.Keys))
    {
      if id !in roles {
        return Err(RoleNotFound);
      }
      if UpdateConflictsAsWritten(RoleCodeMap(roles), id, patch.code) {
        return Err(RoleCodeExists);
      }
      var role := ApplyRolePatch(roles[id], patch);
      if permissionIds.Some? {
        if |permissionIds.value| == 0 {
          role := role.(permissions := []);
        } else {
          role := role.(permissions := Present(permissionIds.value, permissions.Keys));
        }
      }
      UpdateAsWrittenKeepsNonEmptyUnique(RoleCodeMap(roles), id, patch.code);
      assert RoleCodeMap(roles[id := role]) == RoleCodeMap(roles)[id := role.code];
      roles := roles[id := role];
      r := Ok(role);
    }

    /**
     * `deleteRole`: refused for a system role; otherwise the role goes and
     * the user-role join rows that name it go with it.
     */
    method DeleteRole(id: Id) returns (r: Result<()>)
      requires Valid()
      modifies this
      ensures Valid()
      ensures permissions == old(permissions) && nextId == old(nextId)
      ensures id !in old(roles) ==> r == Err(RoleNotFound) && unchanged(this)
      ensures id in old(roles) && old(roles)[id].isSystem ==> r == Err(SystemRoleDelete) && unchanged(this)
      ensures id in old(roles) && !old(roles)[id].isSystem ==>
        && r.Ok?
        && roles == old(roles) - {id}
        && users.Keys == old(users).Keys
        && forall u :: u in users ==>
             users[u] == old(users)[u].(roles := Without(old(users)[u].roles, id))
    {
      if id !in roles {
        return Err(RoleNotFound);
      }
      if roles[id].isSystem {
        return Err(SystemRoleDelete);
      }
      var before := users;
      forall u | u in before {
        WithoutKeepsNoDup(before[u].roles, id);
      }
      users := map u | u in before :: before[u].(roles := Without(before[u].roles, id));
      assert RoleCodeMap(roles - {id}) == RoleCodeMap(roles) - {id};
      roles := roles - {id};
      r := Ok(());
    }

    /**
     * `toggleRoleStatus`: refused for a system role; otherwise it negates
     * `isSystem` itself, which was false, so the role becomes a system role.
     */
    method ToggleRoleStatus(id: Id) returns (r: Result<Role>)
      requires Valid()
      modifies this
      ensures Valid()
      ensures users == old(users) && permissions == old(permissions) && nextId == old(nextId)
      ensures id !in old(roles) ==> r == Err(RoleNotFound) && roles == old(roles)
      ensures id in old(roles) && old(roles)[id].isSystem ==> r == Err(SystemRoleToggle) && roles == old(roles)
      ensures id in old(roles) && !old(roles)[id].isSystem ==>
        && roles == old(roles)[id := old(roles)[id].(isSystem := true)]
        && r == Ok(roles[id])
    {
      if id !in roles {
        return Err(RoleNotFound);
      }
      if roles[id].isSystem {
        return Err(SystemRoleToggle);
      }
      var role := roles[id].(isSystem := !roles[id].isSystem);
      assert RoleCodeMap(roles[id := role]) == RoleCodeMap(roles);
      roles := roles[id := role];
      r := Ok(role);
    }

    // -------------------------------------------------------------------
    // Permissions
    // -------------------------------------------------------------------

    method CreatePermission(code: Code, name: string, description: Option<string>,
                            moduleLabel: Option<string>) returns (r: Result<Id>)
      requires Valid()
      modifies this
      ensures Valid()
      ensures users == old(users) && roles == old(roles)
      ensures CodeTaken(PermissionCodeMap(old(permissions)), code) ==>
        r == Err(PermissionCodeExists) && permissions == old(permissions)
      ensures !CodeTaken(PermissionCodeMap(old(permissions)), code) ==>
        && r.Ok? && r.value !in old(permissions)
        && permissions == old(permissions)[r.value := Permission(code, name, description, moduleLabel)]
    {
      if CodeTaken(PermissionCodeMap(permissions), code) {
        return Err(PermissionCodeExists);
      }
      var id := nextId;
      nextId := nextId + 1;
      CreateKeepsNonEmptyUnique(PermissionCodeMap(permissions), id, code);
      var p := Permission(code, name, description, moduleLabel);
      assert PermissionCodeMap(permissions[id := p]) == PermissionCodeMap(permissions)[id := code];
      permissions := permissions[id := p];
      r := Ok(id);
    }

    /** `findOne({ where: { id } })` for a permission. */
    function FindPermissionById(id: Id): (r: Result<Permission>)
      reads this
      ensures r.Err? <==> id !in permissions
      ensures r.Err? ==> r.error == PermissionNotFound
      ensures r.Ok? ==> r.value == permissions[id]
    {
      if id in permissions then Ok(permissions[id]) else Err(PermissionNotFound)
    }

    method UpdatePermission(id: Id, patch: PermissionPatch) returns (r: Result<Permission>)
      requires Valid()
      modifies this
      ensures Valid()
      ensures users == old(users) && roles == old(roles) && nextId == old(nextId)
      ensures id !in old(permissions) ==> r == Err(PermissionNotFound) && permissions == old(permissions)
      ensures id in old(permissions) && UpdateConflictsAsWritten(PermissionCodeMap(old(permissions)), id, patch.code) ==>
        r == Err(PermissionCodeExists) && permissions == old(permissions)
      ensures id in old(permissions) && !UpdateConflictsAsWritten(PermissionCodeMap(old(permissions)), id, patch.code) ==>
        && permissions == old(permissions)[id := ApplyPermissionPatch(old(permissions)[id], patch)]
        && r == Ok(permissions[id])
    {
      if id !in permissions {
        return Err(PermissionNotFound);
      }
      if UpdateConflictsAsWritten(PermissionCodeMap(permissions), id, patch.code) {
        return Err(PermissionCodeExists);
      }
      var p := ApplyPermissionPatch(permissions[id], patch);
      UpdateAsWrittenKeepsNonEmptyUnique(PermissionCodeMap(permissions), id, patch.code);
      assert PermissionCodeMap(permissions[id := p]) == PermissionCodeMap(permissions)[id := p.code];
      permissions := permissions[id := p];
      r := Ok(p);
    }

    /** `deletePermission`: refused while any role grants the permission. */
    method DeletePermission(id: Id) returns (r: Result<()>)
      requires Valid()
      modifies this
      ensures Valid()
      ensures users == old(users) && roles == old(roles) && nextId == old(nextId)
      ensures id !in old(permissions) ==> r == Err(PermissionNotFound) && permissions == old(permissions)
      ensures id in old(permissions) && old(GetRolesWithPermission(id)) != Ok(map[]) ==>
        r == Err(PermissionInUse) && permissions == old(permissions)
      ensures id in old(permissions) && old(GetRolesWithPermission(id)) == Ok(map[]) ==>
        r.Ok? && permissions == old(permissions) - {id}
    {
      if id !in permissions {
        return Err(PermissionNotFound);
      }
      if exists q :: q in roles && id in roles[q].permissions {
        var q :| q in roles && id in roles[q].permissions;
        assert q in GetRolesWithPermission(id).value;
        return Err(PermissionInUse);
      }
      assert GetRolesWithPermission(id).value.Keys == {};
      assert PermissionCodeMap(permissions - {id}) == PermissionCodeMap(permissions) - {id};
      permissions := permissions - {id};
      r := Ok(());
    }

    /** `getPermissionsByModule`: the permissions whose module label is `moduleName`. */
    function GetPermissionsByModule(moduleName: string): (r: map<Id, Permission>)
      reads this
      ensures forall id :: id in r <==> id in permissions && permissions[id].moduleLabel == Some(moduleName)
      ensures forall id :: id in r ==> r[id] == permissions[id]
    {
      map id | id in permissions && permissions[id].moduleLabel == Some(moduleName) :: permissions[id]
    }

    /** `getAllModules`: the distinct non-empty module labels. */
    function GetAllModules(): (r: set<string>)
      reads this
      ensures forall m :: m in r <==> m != "" && GetPermissionsByModule(m) != map[]
    {
      var labels := set id | id in permissions && permissions[id].moduleLabel.Some? && permissions[id].moduleLabel.value != ""
                      :: permissions[id].moduleLabel.value;
      assert forall m :: m in labels <==> m != "" && GetPermissionsByModule(m) != map[] by {
        forall m ensures m in labels <==> m != "" && GetPermissionsByModule(m) != map[] {
          if m != "" && GetPermissionsByModule(m) != map[] {
            var id :| id in GetPermissionsByModule(m);
            assert permissions[id].moduleLabel.value == m;
          }
        }
      }
      labels
    }

    // -------------------------------------------------------------------
    // Back-references
    // -------------------------------------------------------------------

    /** `getUsersWithRole` (and `getRoleUsers`): the holders of a role, digest stripped. */
    function GetUsersWithRole(roleId: Id): (r: Result<map<Id, UserView>>)
      reads this
      ensures r.Err? <==> roleId !in roles
      ensures r.Err? ==> r.error == RoleNotFound
      ensures r.Ok? ==> forall u :: u in r.value <==> u in users && roleId in users[u].roles
      ensures r.Ok? ==> forall u :: u in r.value ==> r.value[u] == View(users[u])
    {
      if roleId !in roles then Err(RoleNotFound)
      else Ok(map u | u in users && roleId in users[u].roles :: View(users[u]))
    }

    /** `getRolesWithPermission` (and `getPermissionRoles`): the roles granting a permission. */
    function GetRolesWithPermission(permissionId: Id): (r: Result<map<Id, Role>>)
      reads this
      ensures r.Err? <==> permissionId !in permissions
      ensures r.Err? ==> r.error == PermissionNotFound
      ensures r.Ok? ==> forall q :: q in r.value <==> q in roles && permissionId in roles[q].permissions
      ensures r.Ok? ==> forall q :: q in r.value ==> r.value[q] == roles[q]
    {
      if permissionId !in permissions then Err(PermissionNotFound)
      else Ok(map q | q in roles && permissionId in roles[q].permissions :: roles[q])
    }

    // -------------------------------------------------------------------
    // Role - permission edges
    // -------------------------------------------------------------------

    /**
     * `assignPermissionsToRole`: an empty list clears the edges; otherwise the
     * found rows must be as many as the listed ids (so no unknown and no
     * repeated id), and then the edges are exactly the listed ids, in the
     * storage's order.  A refused call writes nothing.
     */
    method AssignPermissionsToRole(roleId: Id, permissionIds: seq<Id>) returns (r: Result<Role>)
      requires Valid()
      modifies this
      ensures Valid()
      ensures users == old(users) && permissions == old(permissions) && nextId == old(nextId)
      ensures roleId !in old(roles) ==> r == Err(RoleNotFound) && roles == old(roles)
      ensures roleId in old(roles) && permissionIds != [] && |Found(permissionIds, permissions.Keys)| != |permissionIds| ==>
        r == Err(SomePermissionsNotFound) && roles == old(roles)
      ensures roleId in old(roles) && (permissionIds == [] || |Found(permissionIds, permissions.Keys)| == |permissionIds|) ==>
        && roleId in roles && r == Ok(roles[roleId])
        && roles == old(roles)[roleId := old(roles)[roleId].(permissions := roles[roleId].permissions)]
        && multiset(roles[roleId].permissions) == multiset(permissionIds)
    {
      if roleId !in roles {
        return Err(RoleNotFound);
      }
      var edges: seq<Id> := [];
      if |permissionIds| != 0 {
        if |Found(permissionIds, permissions.Keys)| != |permissionIds| {
          return Err(SomePermissionsNotFound);
        }
        FoundCountIff(permissionIds, permissions.Keys);
        edges := permissionIds;
      }
      var role := roles[roleId].(permissions := edges);
      assert RoleCodeMap(roles[roleId := role]) == RoleCodeMap(roles);
      roles := roles[roleId := role];
      r := Ok(role);
    }

    /** `removePermissionFromRole`: filter the id out; only the role must exist. */
    method RemovePermissionFromRole(roleId: Id, permissionId: Id) returns (r: Result<Role>)
      requires Valid()
      modifies this
      ensures Valid()
      ensures users == old(users) && permissions == old(permissions) && nextId == old(nextId)
      ensures roleId !in old(roles) ==> r == Err(RoleNotFound) && roles == old(roles)
      ensures roleId in old(roles) ==>
        && roles == old(roles)[roleId := old(roles)[roleId].(permissions := Without(old(roles)[roleId].permissions, permissionId))]
        && r == Ok(roles[roleId])
    {
      if roleId !in roles {
        return Err(RoleNotFound);
      }
      WithoutKeepsNoDup(roles[roleId].permissions, permissionId);
      var role := roles[roleId].(permissions := Without(roles[roleId].permissions, permissionId));
      assert RoleCodeMap(roles[roleId := role]) == RoleCodeMap(roles);
      roles := roles[roleId := role];
      r := Ok(role);
    }

    /** `addPermissionToRole`: both ends must exist and the edge must be new; it is appended. */
    method AddPermissionToRole(roleId: Id, permissionId: Id) returns (r: Result<Role>)
      requires Valid()
      modifies this
      ensures Valid()
      ensures users == old(users) && permissions == old(permissions) && nextId == old(nextId)
      ensures roleId !in old(roles) ==> r == Err(RoleNotFound) && roles == old(roles)
      ensures roleId in old(roles) && permissionId !in permissions ==> r == Err(PermissionNotFound) && roles == old(roles)
      ensures roleId in old(roles) && permissionId in permissions && permissionId in old(roles)[roleId].permissions ==>
        r == Err(PermissionAlreadyAssigned) && roles == old(roles)
      ensures roleId in old(roles) && permissionId in permissions && permissionId !in old(roles)[roleId].permissions ==>
        && roles == old(roles)[roleId := old(roles)[roleId].(permissions := old(roles)[roleId].permissions + [permissionId])]
        && r == Ok(roles[roleId])
    {
      if roleId !in roles {
        return Err(RoleNotFound);
      }
      if permissionId !in permissions {
        return Err(PermissionNotFound);
      }
      var role := roles[roleId];
      if permissionId in role.permissions {
        return Err(PermissionAlreadyAssigned);
      }
      AppendKeepsWellFormed(role.permissions, permissionId, permissions.Keys);
      role := role.(permissions := role.permissions + [permissionId]);
      assert RoleCodeMap(roles[roleId := role]) == RoleCodeMap(roles);
      roles := roles[roleId := role];
      r := Ok(role);
    }

    // -------------------------------------------------------------------
    // User - role edges
    // -------------------------------------------------------------------

    /** `assignRolesToUser`: the same all-or-nothing replacement as for role permissions. */
    method AssignRolesToUser(userId: Id, roleIds: seq<Id>) returns (r: Result<UserView>)
      requires Valid()
      modifies this
      ensures Valid()
      ensures roles == old(roles) && permissions == old(permissions) && nextId == old(nextId)
      ensures userId !in old(users) ==> r == Err(UserNotFound) && users == old(users)
      ensures userId in old(users) && roleIds != [] && |Found(roleIds, roles.Keys)| != |roleIds| ==>
        r == Err(SomeRolesNotFound) && users == old(users)
      ensures userId in old(users) && (roleIds == [] || |Found(roleIds, roles.Keys)| == |roleIds|) ==>
        && userId in users && r == Ok(View(users[userId]))
        && users == old(users)[userId := old(users)[userId].(roles := users[userId].roles)]
        && multiset(users[userId].roles) == multiset(roleIds)
    {
      if userId !in users {
        return Err(UserNotFound);
      }
      var edges: seq<Id> := [];
      if |roleIds| != 0 {
        if |Found(roleIds, roles.Keys)| != |roleIds| {
          return Err(SomeRolesNotFound);
        }
        FoundCountIff(roleIds, roles.Keys);
        edges := roleIds;
      }
      var user := users[userId].(roles := edges);
      users := users[userId := user];
      r := Ok(View(user));
    }

    /** `removeRoleFromUser`: filter the id out; only the user must exist. */
    method RemoveRoleFromUser(userId: Id, roleId: Id) returns (r: Result<UserView>)
      requires Valid()
      modifies this
      ensures Valid()
      ensures roles == old(roles) && permissions == old(permissions) && nextId == old(nextId)
      ensures userId !in old(users) ==> r == Err(UserNotFound) && users == old(users)
      ensures userId in old(users) ==>
        && users == old(users)[userId := old(users)[userId].(roles := Without(old(users)[userId].roles, roleId))]
        && r == Ok(View(users[userId]))
    {
      if userId !in users {
        return Err(UserNotFound);
      }
      WithoutKeepsNoDup(users[userId].roles, roleId);
      var user := users[userId].(roles := Without(users[userId].roles, roleId));
      users := users[userId := user];
      r := Ok(View(user));
    }

    /** `addRoleToUser`: both ends must exist and the edge must be new; it is appended. */
    method AddRoleToUser(userId: Id, roleId: Id) returns (r: Result<UserView>)
      requires Valid()
      modifies this
      ensures Valid()
      ensures roles == old(roles) && permissions == old(permissions) && nextId == old(nextId)
      ensures userId !in old(users) ==> r == Err(UserNotFound) && users == old(users)
      ensures userId in old(users) && roleId !in roles ==> r == Err(RoleNotFound) && users == old(users)
      ensures userId in old(users) && roleId in roles && roleId in old(users)[userId].roles ==>
        r == Err(RoleAlreadyAssigned) && users == old(users)
      ensures userId in old(users) && roleId in roles && roleId !in old(users)[userId].roles ==>
        && users == old(users)[userId := old(users)[userId].(roles := old(users)[userId].roles + [roleId])]
        && r == Ok(View(users[userId]))
    {
      if userId !in users {
        return Err(UserNotFound);
      }
      if roleId !in roles {
        return Err(RoleNotFound);
      }
      var user := users[userId];
      if roleId in user.roles {
        return Err(RoleAlreadyAssigned);
      }
      AppendKeepsWellFormed(user.roles, roleId, roles.Keys);
      user := user.(roles := user.roles + [roleId]);
      users := users[userId := user];
      r := Ok(View(user));
    }
  }

  /** Appending an existing id that is not yet present keeps an edge list well formed. */
  lemma AppendKeepsWellFormed(s: seq<Id>, x: Id, keys: set<Id>)
    requires WellFormed(s, keys) && x in keys && x !in s
    ensures WellFormed(s + [x], keys)
  {
    forall i, j | 0 <= i < j < |s + [x]| ensures (s + [x])[i] != (s + [x])[j] {
      if j == |s| {
        assert (s + [x])[i] == s[i];
      }
    }
  }
}
