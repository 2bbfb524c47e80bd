/**
 * Sequences of service calls and the combined outcome the service
 * guarantees for them: a repeated add is refused, a repeated remove is
 * harmless, a replacement naming an unknown id writes nothing, a toggled
 * role is locked, and a code can be created only once, but renamed to ""
 * any number of times.
 */
module Scenarios {
  import opened Entities
  import opened EdgeLists
  import opened Guards
  import opened Service

  /** The second of two identical adds is refused and leaves the edge list as the first left it. */
  method AddRoleTwice(s: AuthService, userId: Id, roleId: Id) returns (first: Result<UserView>, second: Result<UserView>)
    requires s.Valid()
    modifies s
    ensures s.Valid()
    ensures first.Ok? ==>
      && second == Err(RoleAlreadyAssigned)
      && userId in old(s.users)
      && s.users == old(s.users)[userId := old(s.users)[userId].(roles := old(s.users)[userId].roles + [roleId])]
  {
    first := s.AddRoleToUser(userId, roleId);
    second := s.AddRoleToUser(userId, roleId);
  }

  method AddPermissionTwice(s: AuthService, roleId: Id, permissionId: Id) returns (first: Result<Role>, second: Result<Role>)
    requires s.Valid()
    modifies s
    ensures s.Valid()
    ensures first.Ok? ==>
      && second == Err(PermissionAlreadyAssigned)
      && roleId in old(s.roles)
      && s.roles == old(s.roles)[roleId := old(s.roles)[roleId].(permissions := old(s.roles)[roleId].permissions + [permissionId])]
  {
    first := s.AddPermissionToRole(roleId, permissionId);
    second := s.AddPermissionToRole(roleId, permissionId);
  }

  /** Removing twice never fails where removing once succeeds, and ends where one removal ends. */
  method RemoveRoleTwice(s: AuthService, userId: Id, roleId: Id) returns (first: Result<UserView>, second: Result<UserView>)
    requires s.Valid()
    modifies s
    ensures s.Valid()
    ensures first.Ok? <==> second.Ok?
    ensures first.Ok? ==>
      && userId in old(s.users)
      && s.users == old(s.users)[userId := old(s.users)[userId].(roles := Without(old(s.users)[userId].roles, roleId))]
      && roleId !in s.users[userId].roles
  {
    first := s.RemoveRoleFromUser(userId, roleId);
    second := s.RemoveRoleFromUser(userId, roleId);
    if first.Ok? {
      WithoutIdempotent(old(s.users)[userId].roles, roleId);
    }
  }

  /** A replacement that names one existing and one unknown role is refused as a whole. */
  method AssignWithUnknownRole(s: AuthService, userId: Id, known: Id, unknown: Id) returns (r: Result<UserView>)
    requires s.Valid()
    requires known in s.roles && unknown !in s.roles
    modifies s
    ensures s.Valid()
    ensures r.Err? && s.users == old(s.users)
    ensures userId in old(s.users) ==> r == Err(SomeRolesNotFound)
  {
    assert Found([known, unknown], s.roles.Keys) == {known};
    r := s.AssignRolesToUser(userId, [known, unknown]);
  }

  /** Once toggled, a role can be neither deleted nor toggled again. */
  method ToggleThenDelete(s: AuthService, roleId: Id) returns (toggle: Result<Role>, delete: Result<()>, again: Result<Role>)
    requires s.Valid()
    modifies s
    ensures s.Valid()
    ensures toggle.Ok? ==> delete == Err(SystemRoleDelete) && again == Err(SystemRoleToggle)
    ensures toggle.Ok? ==> roleId in s.roles && s.roles[roleId].isSystem
  {
    toggle := s.ToggleRoleStatus(roleId);
    delete := s.DeleteRole(roleId);
    again := s.ToggleRoleStatus(roleId);
  }

  /** Two creates with the same role code: the second is refused. */
  method CreateRoleTwice(s: AuthService, code: Code, name: string) returns (first: Result<Id>, second: Result<Id>)
    requires s.Valid()
    modifies s
    ensures s.Valid()
    ensures first.Ok? ==> second == Err(RoleCodeExists)
    ensures first.Err? ==> second == Err(RoleCodeExists)
  {
    first := s.CreateRole(code, name, None, None, []);
    if first.Ok? {
      assert RoleCodeMap(s.roles)[first.value] == code;
    }
    second := s.CreateRole(code, name, None, None, []);
  }

  /** Two registrations with the same username: the second is refused and adds no user. */
  method CreateUserTwice(s: AuthService, username: string, email: string, otherEmail: string, password: string)
    returns (first: Result<Id>, second: Result<Id>)
    requires s.Valid()
    modifies s
    ensures s.Valid()
    ensures first.Ok? ==> second == Err(UserExists) && |s.users| == |old(s.users)| + 1
  {
    first := s.CreateUser(username, email, password, None, None, None, []);
    ghost var afterFirst := s.users;
    if first.Ok? {
      assert s.users[first.value].username == username;
    }
    second := s.CreateUser(username, otherEmail, password, None, None, None, []);
    if first.Ok? {
      assert s.users == afterFirst;
      assert afterFirst.Keys == old(s.users).Keys + {first.value};
    }
  }

  /**
   * Two roles renamed to the empty code: both renames go through, because
   * the update check skips "", and the two roles then share a code.
   */
  method RenameTwoRolesToEmpty(s: AuthService, a: Id, b: Id) returns (first: Result<Role>, second: Result<Role>)
    requires s.Valid()
    requires a in s.roles && b in s.roles && a != b
    modifies s
    ensures s.Valid()
    ensures first.Ok? && second.Ok?
    ensures a in s.roles && b in s.roles && s.roles[a].code == s.roles[b].code == ""
  {
    var patch := RolePatch(Some(""), None, None, None);
    first := s.UpdateRole(a, patch, None);
    second := s.UpdateRole(b, patch, None);
  }
}
