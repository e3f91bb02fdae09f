/** The grant-management API: each operation is one insert or delete on the
    `authz` tables, with `on conflict do nothing` on every insert, and every
    failure returned as `fail("Failed to <op>: <message>")` instead of thrown.

    `outage` stands for a failure of the storage layer itself (a lost
    connection, say) and carries its message; constraint violations are
    decided from the state. Serial columns hand out one value per insert that
    reaches the table, including inserts that conflict or break a check. */
module Grants {
  import opened Wrappers
  import opened ActionResults
  import opened AuthzSchema

  /** The error text of the constraint violations an operation can meet. */
  datatype DbError =
    | CheckViolation(table: string, constraint: string)
    | ForeignKeyViolation(table: string)
    | SequenceExhausted(sequence: string)

  function Message(e: DbError): string {
    match e
    case CheckViolation(table, constraint) =>
      "new row for relation \"" + table + "\" violates check constraint \"" + constraint + "\""
    case ForeignKeyViolation(table) =>
      "insert or update on table \"" + table + "\" violates foreign key constraint"
    case SequenceExhausted(sequence) =>
      "nextval: reached maximum value of sequence \"" + sequence + "\" (2147483647)"
  }

  class AuthzStore {
    var users: set<UserId>
    var permissions: map<PermissionId, Permission>
    var roles: map<RoleId, Role>
    var userRoles: set<(UserId, RoleId)>
    var userPermissions: set<(UserId, PermissionId)>
    var rolePermissions: set<(RoleId, PermissionId)>
    /** The next values of the serial columns `permission.id` and `role.id`. */
    var nextPermissionId: nat
    var nextRoleId: nat

    function Tables(): Tables
      reads this
    {
      AuthzSchema.Tables(users, permissions, roles, userRoles, userPermissions, rolePermissions)
    }

    /** The schema's constraints, and every id below its serial's next value. */
    ghost predicate Valid()
      reads this
    {
      && AuthzSchema.Valid(Tables())
      && 0 < nextPermissionId <= SerialMax + 1 && 0 < nextRoleId <= SerialMax + 1
      && (forall id :: id in permissions ==> 0 < id < nextPermissionId)
      && (forall id :: id in roles ==> 0 < id < nextRoleId)
    }

    /** Empty authorization tables beside an identity store holding `users`;
        both serials start at 1. */
    constructor (users: set<UserId>)
      ensures Valid()
      ensures Tables() == AuthzSchema.Tables(users, map[], map[], {}, {}, {})
      ensures nextPermissionId == 1 && nextRoleId == 1
    {
      this.users := users;
      permissions, roles := map[], map[];
      userRoles, userPermissions, rolePermissions := {}, {}, {};
      nextPermissionId, nextRoleId := 1, 1;
    }

    /** `createRole(slug, description)`: a fresh lower-case slug adds exactly one
        role under a fresh id and returns it; an existing slug adds nothing and
        returns `ok` without data; an upper-case letter breaks `lower_slug`.
        Once the int4 sequence is used up, `nextval` fails before any of these. */
    method CreateRole(slug: string, description: Option<string>, outage: Option<string>)
      returns (r: ActionResult<RoleId>)
      requires Valid()
      modifies this
      ensures Valid()
      ensures nextPermissionId == old(nextPermissionId)
      ensures outage.Some? ==>
        r == Fail("Failed to create role: " + outage.value) && unchanged(this)
      ensures outage.None? && old(nextRoleId) > SerialMax ==>
        r == Fail("Failed to create role: " + Message(SequenceExhausted("role_id_seq"))) && unchanged(this)
      ensures outage.None? && old(nextRoleId) <= SerialMax && !IsLowerSlug(slug) ==>
        && r == Fail("Failed to create role: " + Message(CheckViolation("role", "lower_slug")))
        && Tables() == old(Tables()) && nextRoleId == old(nextRoleId) + 1
      ensures outage.None? && old(nextRoleId) <= SerialMax && IsLowerSlug(slug) && RoleSlugTaken(old(Tables()), slug) ==>
        && r == Ok(None)
        && Tables() == old(Tables()) && nextRoleId == old(nextRoleId) + 1
      ensures outage.None? && old(nextRoleId) <= SerialMax && IsLowerSlug(slug) && !RoleSlugTaken(old(Tables()), slug) ==>
        && r == Ok(Some(old(nextRoleId)))
        && old(nextRoleId) !in old(roles)
        && Tables() == old(Tables()).(roles := old(roles)[old(nextRoleId) := Role(Some(slug), description)])
        && nextRoleId == old(nextRoleId) + 1
    {
      if outage.Some? {
        return Fail("Failed to create role: " + outage.value);
      }
      if nextRoleId > SerialMax {
        return Fail("Failed to create role: " + Message(SequenceExhausted("role_id_seq")));
      }
      var id := nextRoleId;
      nextRoleId := nextRoleId + 1;
      if !IsLowerSlug(slug) {
        return Fail("Failed to create role: " + Message(CheckViolation("role", "lower_slug")));
      }
      if RoleSlugTaken(Tables(), slug) {
        return Ok(None);
      }
      roles := roles[id := Role(Some(slug), description)];
      r := Ok(Some(id));
    }

    /** `deleteRole(roleId)`: removes the role and, by cascade, every
        `user_role` and `role_permission` row naming it; `ok` also when absent. */
    method DeleteRole(roleId: RoleId, outage: Option<string>) returns (r: ActionResult<()>)
      requires Valid()
      modifies this
      ensures Valid()
      ensures nextPermissionId == old(nextPermissionId) && nextRoleId == old(nextRoleId)
      ensures outage.Some? ==> r == Fail("Failed to delete role: " + outage.value) && unchanged(this)
      ensures outage.None? ==> r == Ok(None) && Tables() == DeleteRoleCascade(old(Tables()), roleId)
    {
      if outage.Some? {
        return Fail("Failed to delete role: " + outage.value);
      }
      ghost var before := Tables();
      var after := DeleteRoleCascade(Tables(), roleId);
      roles, userRoles, rolePermissions := after.roles, after.userRoles, after.rolePermissions;
      CascadesPreserveValid(before, "", roleId, 0);
      r := Ok(None);
    }

    /** `assignRoleToUser(userId, roleId)`: afterwards the pair is linked
        exactly once; it fails only when the user or the role does not exist. */
    method AssignRoleToUser(userId: UserId, roleId: RoleId, outage: Option<string>)
      returns (r: ActionResult<()>)
      requires Valid()
      modifies this
      ensures Valid()
      ensures nextPermissionId == old(nextPermissionId) && nextRoleId == old(nextRoleId)
      ensures outage.Some? ==> r == Fail("Failed to assign role: " + outage.value) && unchanged(this)
      ensures outage.None? && userId in users && roleId in roles ==>
        r == Ok(None) && Tables() == old(Tables()).(userRoles := old(userRoles) + {(userId, roleId)})
      ensures outage.None? && !(userId in users && roleId in roles) ==>
        && r == Fail("Failed to assign role: " + Message(ForeignKeyViolation("user_role")))
        && unchanged(this)
    {
      if outage.Some? {
        return Fail("Failed to assign role: " + outage.value);
      }
      if (userId, roleId) in userRoles {
        return Ok(None);
      }
      if !(userId in users && roleId in roles) {
        return Fail("Failed to assign role: " + Message(ForeignKeyViolation("user_role")));
      }
      userRoles := userRoles + {(userId, roleId)};
      r := Ok(None);
    }

    /** `revokeRoleFromUser(userId, roleId)`: removes exactly that row; `ok`
        also when it was absent. */
    method RevokeRoleFromUser(userId: UserId, roleId: RoleId, outage: Option<string>)
      returns (r: ActionResult<()>)
      requires Valid()
      modifies this
      ensures Valid()
      ensures nextPermissionId == old(nextPermissionId) && nextRoleId == old(nextRoleId)
      ensures outage.Some? ==> r == Fail("Failed to revoke role: " + outage.value) && unchanged(this)
      ensures outage.None? ==>
        r == Ok(None) && Tables() == old(Tables()).(userRoles := old(userRoles) - {(userId, roleId)})
    {
      if outage.Some? {
        return Fail("Failed to revoke role: " + outage.value);
      }
      userRoles := userRoles - {(userId, roleId)};
      r := Ok(None);
    }

    /** `addPermission(key, description)`: the same rules as `createRole` on
        the `permission` table. */
    method AddPermission(key: string, description: Option<string>, outage: Option<string>)
      returns (r: ActionResult<PermissionId>)
      requires Valid()
      modifies this
      ensures Valid()
      ensures nextRoleId == old(nextRoleId)
      ensures outage.Some? ==>
        r == Fail("Failed to add permission: " + outage.value) && unchanged(this)
      ensures outage.None? && old(nextPermissionId) > SerialMax ==>
        r == Fail("Failed to add permission: " + Message(SequenceExhausted("permission_id_seq"))) && unchanged(this)
      ensures outage.None? && old(nextPermissionId) <= SerialMax && !IsLowerSlug(key) ==>
        && r == Fail("Failed to add permission: " + Message(CheckViolation("permission", "lower_slug")))
        && Tables() == old(Tables()) && nextPermissionId == old(nextPermissionId) + 1
      ensures outage.None? && old(nextPermissionId) <= SerialMax && IsLowerSlug(key) &&
              PermissionSlugTaken(old(Tables()), key) ==>
        && r == Ok(None)
        && Tables() == old(Tables()) && nextPermissionId == old(nextPermissionId) + 1
      ensures outage.None? && old(nextPermissionId) <= SerialMax && IsLowerSlug(key) &&
              !PermissionSlugTaken(old(Tables()), key) ==>
        && r == Ok(Some(old(nextPermissionId)))
        && old(nextPermissionId) !in old(permissions)
        && Tables() == old(Tables()).(permissions :=
             old(permissions)[old(nextPermissionId) := Permission(key, description)])
        && nextPermissionId == old(nextPermissionId) + 1
    {
      if outage.Some? {
        return Fail("Failed to add permission: " + outage.value);
      }
      if nextPermissionId > SerialMax {
        return Fail("Failed to add permission: " + Message(SequenceExhausted("permission_id_seq")));
      }
      var id := nextPermissionId;
      nextPermissionId := nextPermissionId + 1;
      if !IsLowerSlug(key) {
        return Fail("Failed to add permission: " + Message(CheckViolation("permission", "lower_slug")));
      }
      if PermissionSlugTaken(Tables(), key) {
        return Ok(None);
      }
      permissions := permissions[id := Permission(key, description)];
      r := Ok(Some(id));
    }

    /** `deletePermission(permissionId)`: removes the permission and, by
        cascade, every `user_permission` and `role_permission` row naming it. */
    method DeletePermission(permissionId: PermissionId, outage: Option<string>)
      returns (r: ActionResult<()>)
      requires Valid()
      modifies this
      ensures Valid()
      ensures nextPermissionId == old(nextPermissionId) && nextRoleId == old(nextRoleId)
      ensures outage.Some? ==> r == Fail("Failed to delete permission: " + outage.value) && unchanged(this)
      ensures outage.None? ==>
        r == Ok(None) && Tables() == DeletePermissionCascade(old(Tables()), permissionId)
    {
      if outage.Some? {
        return Fail("Failed to delete permission: " + outage.value);
      }
      ghost var before := Tables();
      var after := DeletePermissionCascade(Tables(), permissionId);
      permissions, userPermissions, rolePermissions :=
        after.permissions, after.userPermissions, after.rolePermissions;
      CascadesPreserveValid(before, "", 0, permissionId);
      r := Ok(None);
    }

    /** `grantPermissionToRole(roleId, permissionId)` */
    method GrantPermissionToRole(roleId: RoleId, permissionId: PermissionId, outage: Option<string>)
      returns (r: ActionResult<()>)
      requires Valid()
      modifies this
      ensures Valid()
      ensures nextPermissionId == old(nextPermissionId) && nextRoleId == old(nextRoleId)
      ensures outage.Some? ==> r == Fail("Failed to grant permission: " + outage.value) && unchanged(this)
      ensures outage.None? && roleId in roles && permissionId in permissions ==>
        && r == Ok(None)
        && Tables() == old(Tables()).(rolePermissions := old(rolePermissions) + {(roleId, permissionId)})
      ensures outage.None? && !(roleId in roles && permissionId in permissions) ==>
        && r == Fail("Failed to grant permission: " + Message(ForeignKeyViolation("role_permission")))
        && unchanged(this)
    {
      if outage.Some? {
        return Fail("Failed to grant permission: " + outage.value);
      }
      if (roleId, permissionId) in rolePermissions {
        return Ok(None);
      }
      if !(roleId in roles && permissionId in permissions) {
        return Fail("Failed to grant permission: " + Message(ForeignKeyViolation("role_permission")));
      }
      rolePermissions := rolePermissions + {(roleId, permissionId)};
      r := Ok(None);
    }

    /** `revokePermissionFromRole(roleId, permissionId)` */
    method RevokePermissionFromRole(roleId: RoleId, permissionId: PermissionId, outage: Option<string>)
      returns (r: ActionResult<()>)
      requires Valid()
      modifies this
      ensures Valid()
      ensures nextPermissionId == old(nextPermissionId) && nextRoleId == old(nextRoleId)
      ensures outage.Some? ==> r == Fail("Failed to revoke permission: " + outage.value) && unchanged(this)
      ensures outage.None? ==>
        && r == Ok(None)
        && Tables() == old(Tables()).(rolePermissions := old(rolePermissions) - {(roleId, permissionId)})
    {
      if outage.Some? {
        return Fail("Failed to revoke permission: " + outage.value);
      }
      rolePermissions := rolePermissions - {(roleId, permissionId)};
      r := Ok(None);
    }

    /** `grantPermissionToUser(userId, permissionId)`: a direct grant. */
    method GrantPermissionToUser(userId: UserId, permissionId: PermissionId, outage: Option<string>)
      returns (r: ActionResult<()>)
      requires Valid()
      modifies this
      ensures Valid()
      ensures nextPermissionId == old(nextPermissionId) && nextRoleId == old(nextRoleId)
      ensures outage.Some? ==> r == Fail("Failed to grant permission: " + outage.value) && unchanged(this)
      ensures outage.None? && userId in users && permissionId in permissions ==>
        && r == Ok(None)
        && Tables() == old(Tables()).(userPermissions := old(userPermissions) + {(userId, permissionId)})
      ensures outage.None? && !(userId in users && permissionId in permissions) ==>
        && r == Fail("Failed to grant permission: " + Message(ForeignKeyViolation("user_permission")))
        && unchanged(this)
    {
      if outage.Some? {
        return Fail("Failed to grant permission: " + outage.value);
      }
      if (userId, permissionId) in userPermissions {
        return Ok(None);
      }
      if !(userId in users && permissionId in permissions) {
        return Fail("Failed to grant permission: " + Message(ForeignKeyViolation("user_permission")));
      }
      userPermissions := userPermissions + {(userId, permissionId)};
      r := Ok(None);
    }

    /** `revokePermissionFromUser(userId, permissionId)` */
    method RevokePermissionFromUser(userId: UserId, permissionId: PermissionId, outage: Option<string>)
      returns (r: ActionResult<()>)
      requires Valid()
      modifies this
      ensures Valid()
      ensures nextPermissionId == old(nextPermissionId) && nextRoleId == old(nextRoleId)
      ensures outage.Some? ==> r == Fail("Failed to revoke permission: " + outage.value) && unchanged(this)
      ensures outage.None? ==>
        && r == Ok(None)
        && Tables() == old(Tables()).(userPermissions := old(userPermissions) - {(userId, permissionId)})
    {
      if outage.Some? {
        return Fail("Failed to revoke permission: " + outage.value);
      }
      userPermissions := userPermissions - {(userId, permissionId)};
      r := Ok(None);
    }

    /** Deleting a user in the identity store: `user_role` and
        `user_permission` rows of that user go with it. */
    method DeleteUser(userId: UserId)
      requires Valid()
      modifies this
      ensures Valid()
      ensures nextPermissionId == old(nextPermissionId) && nextRoleId == old(nextRoleId)
      ensures Tables() == DeleteUserCascade(old(Tables()), userId)
    {
      ghost var before := Tables();
      var after := DeleteUserCascade(Tables(), userId);
      users, userRoles, userPermissions := after.users, after.userRoles, after.userPermissions;
      CascadesPreserveValid(before, userId, 0, 0);
    }
  }

  /** Assigning a role twice: both calls return `ok` and a single link row remains. */
  method AssignRoleTwice(store: AuthzStore, userId: UserId, roleId: RoleId)
    returns (first: ActionResult<()>, second: ActionResult<()>)
    requires store.Valid()
    requires userId in store.users && roleId in store.roles
    modifies store
    ensures store.Valid()
    ensures first == Ok(None) && second == Ok(None)
    ensures store.Tables() == old(store.Tables()).(userRoles := old(store.userRoles) + {(userId, roleId)})
  {
    first := store.AssignRoleToUser(userId, roleId, None);
    second := store.AssignRoleToUser(userId, roleId, None);
  }

  /** Granting a permission to a role twice leaves a single link row. */
  method GrantToRoleTwice(store: AuthzStore, roleId: RoleId, permissionId: PermissionId)
    returns (first: ActionResult<()>, second: ActionResult<()>)
    requires store.Valid()
    requires roleId in store.roles && permissionId in store.permissions
    modifies store
    ensures store.Valid()
    ensures first == Ok(None) && second == Ok(None)
    ensures store.Tables() ==
      old(store.Tables()).(rolePermissions := old(store.rolePermissions) + {(roleId, permissionId)})
  {
    first := store.GrantPermissionToRole(roleId, permissionId, None);
    second := store.GrantPermissionToRole(roleId, permissionId, None);
  }

  /** Granting a permission to a user twice leaves a single link row. */
  method GrantToUserTwice(store: AuthzStore, userId: UserId, permissionId: PermissionId)
    returns (first: ActionResult<()>, second: ActionResult<()>)
    requires store.Valid()
    requires userId in store.users && permissionId in store.permissions
    modifies store
    ensures store.Valid()
    ensures first == Ok(None) && second == Ok(None)
    ensures store.Tables() ==
      old(store.Tables()).(userPermissions := old(store.userPermissions) + {(userId, permissionId)})
  {
    first := store.GrantPermissionToUser(userId, permissionId, None);
    second := store.GrantPermissionToUser(userId, permissionId, None);
  }
}
