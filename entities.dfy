/**
 * The records of the authorization store: users, roles and permissions,
 * the error kinds the service raises, and the partial updates that
 * `Object.assign` applies to a record.
 */
module Entities {

  /** Opaque entity identity; the store hands out fresh ones. */
  type Id = nat
  /** Natural key of a role or a permission. */
  type Code = string
  /** Output of the password-hashing collaborator. */
  type Digest = string
  /** Abstract clock reading. */
  type Time = nat

  datatype Option<T> = None | Some(value: T)

  /** The three exception classes the service throws, with their messages. */
  datatype Error =
    | NotFound(message: string)
    | Conflict(message: string)
    | Unauthorized(message: string)

  datatype Result<T> = Ok(value: T) | Err(error: Error)

  /** A user row together with its ordered list of role ids (the `roles` relation). */
  datatype User = User(
    username: string,
    email: string,
    passwordHash: Digest,
    firstName: Option<string>,
    lastName: Option<string>,
    isActive: bool,
    lastLoginAt: Option<Time>,
    roles: seq<Id>)

  /** A user as it leaves the service: every field except the password digest. */
  datatype UserView = UserView(
    username: string,
    email: string,
    firstName: Option<string>,
    lastName: Option<string>,
    isActive: bool,
    lastLoginAt: Option<Time>,
    roles: seq<Id>)

  /** A role row together with its ordered list of permission ids. */
  datatype Role = Role(
    code: Code,
    name: string,
    description: Option<string>,
    isSystem: bool,
    permissions: seq<Id>)

  datatype Permission = Permission(
    code: Code,
    name: string,
    description: Option<string>,
    moduleLabel: Option<string>)

  /** The destructuring `{ passwordHash, ...rest } = user`. */
  function View(u: User): UserView
  {
    UserView(u.username, u.email, u.firstName, u.lastName, u.isActive, u.lastLoginAt, u.roles)
  }

  /** Field-level overwrite: a field is replaced exactly when the update carries it. */
  function Overwrite<T>(current: T, update: Option<T>): T
  {
    if update.Some? then update.value else current
  }

  /**
   * Overwrite of a nullable field: an absent key keeps the value, an
   * explicit `null` (`Some(None)`) clears it, a value replaces it.
   */
  function OverwriteOptional<T>(current: Option<T>, update: Option<Option<T>>): Option<T>
  {
    if update.Some? then update.value else current
  }

  /**
   * The plain fields an update request may carry for a user.  A nullable
   * field is `Option<Option<_>>`: absent, `null`, or a value.
   */
  datatype UserPatch = UserPatch(
    username: Option<string>,
    email: Option<string>,
    firstName: Option<Option<string>>,
    lastName: Option<Option<string>>,
    isActive: Option<bool>)

  function ApplyUserPatch(u: User, p: UserPatch): User
  {
    u.(username := Overwrite(u.username, p.username),
       email := Overwrite(u.email, p.email),
       firstName := OverwriteOptional(u.firstName, p.firstName),
       lastName := OverwriteOptional(u.lastName, p.lastName),
       isActive := Overwrite(u.isActive, p.isActive))
  }

  /** The plain fields an update request may carry for a role (isSystem included). */
  datatype RolePatch = RolePatch(
    code: Option<Code>,
    name: Option<string>,
    description: Option<Option<string>>,
    isSystem: Option<bool>)

  function ApplyRolePatch(r: Role, p: RolePatch): Role
  {
    r.(code := Overwrite(r.code, p.code),
       name := Overwrite(r.name, p.name),
       description := OverwriteOptional(r.description, p.description),
       isSystem := Overwrite(r.isSystem, p.isSystem))
  }

  datatype PermissionPatch = PermissionPatch(
    code: Option<Code>,
    name: Option<string>,
    description: Option<Option<string>>,
    moduleLabel: Option<Option<string>>)

  function ApplyPermissionPatch(q: Permission, p: PermissionPatch): Permission
  {
    q.(code := Overwrite(q.code, p.code),
       name := Overwrite(q.name, p.name),
       description := OverwriteOptional(q.description, p.description),
       moduleLabel := OverwriteOptional(q.moduleLabel, p.moduleLabel))
  }
}
