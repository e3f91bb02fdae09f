/** The five relations of the `authz` schema: `permission` and `role` keyed by
    serial ids, and the join relations `user_role`, `user_permission` and
    `role_permission`. A join relation is a set of key pairs, so its composite
    primary key (at most one row per pair) holds by construction. The store
    invariant collects the check, unique and foreign-key constraints; the
    cascade functions say what `on delete cascade` removes. */
module AuthzSchema {
  import opened Wrappers
  import Text

  type UserId = string
  /** Ids are JavaScript numbers handed to an `integer` column; the model
      takes them as integers of any sign. */
  type RoleId = int
  type PermissionId = int

  /** The largest value of an `integer` (int4) column, where a `serial`
      sequence stops. */
  const SerialMax := 2147483647

  /** A `permission` row without its id: the slug is `not null`. */
  datatype Permission = Permission(slug: string, description: Option<string>)

  /** A `role` row without its id: the slug column is nullable. */
  datatype Role = Role(slug: Option<string>, description: Option<string>)

  datatype Tables = Tables(
    users: set<UserId>,
    permissions: map<PermissionId, Permission>,
    roles: map<RoleId, Role>,
    userRoles: set<(UserId, RoleId)>,
    userPermissions: set<(UserId, PermissionId)>,
    rolePermissions: set<(RoleId, PermissionId)>)

  /** PostgreSQL's `lower(slug)`, restricted to ASCII letters. */
  function Lower(s: string): (l: string)
    ensures |l| == |s|
    ensures forall i :: 0 <= i < |s| ==> l[i] == Text.ToLowerAscii(s[i])
  {
    seq(|s|, i requires 0 <= i < |s| => Text.ToLowerAscii(s[i]))
  }

  /** The `lower_slug` check constraint: `slug = lower(slug)`. */
  predicate IsLowerSlug(s: string) {
    s == Lower(s)
  }

  /** A slug passes the check exactly when it holds no upper-case letter. */
  lemma LowerSlugIff(s: string)
    ensures IsLowerSlug(s) <==> forall i :: 0 <= i < |s| ==> !('A' <= s[i] <= 'Z')
  {
    if forall i :: 0 <= i < |s| ==> !('A' <= s[i] <= 'Z') {
      assert forall i :: 0 <= i < |s| ==> Lower(s)[i] == s[i];
    }
    if IsLowerSlug(s) {
      forall i | 0 <= i < |s| ensures !('A' <= s[i] <= 'Z') {
        assert Lower(s)[i] == s[i];
      }
    }
  }

  /** `unique` on `permission.slug` and on `role.slug`; a null role slug
      never conflicts. */
  ghost predicate UniqueSlugs(t: Tables) {
    && (forall i, j ::
          i in t.permissions && j in t.permissions && t.permissions[i].slug == t.permissions[j].slug
          ==> i == j)
    && (forall i, j ::
          i in t.roles && j in t.roles && t.roles[i].slug.Some? && t.roles[i].slug == t.roles[j].slug
          ==> i == j)
  }

  /** The `lower_slug` check on both tables; a null slug passes it. */
  ghost predicate LowerSlugs(t: Tables) {
    && (forall i :: i in t.permissions ==> IsLowerSlug(t.permissions[i].slug))
    && (forall i :: i in t.roles && t.roles[i].slug.Some? ==> IsLowerSlug(t.roles[i].slug.value))
  }

  /** Every link row references an existing user, role or permission. */
  ghost predicate LinksResolve(t: Tables) {
    && (forall p :: p in t.userRoles ==> p.0 in t.users && p.1 in t.roles)
    && (forall p :: p in t.userPermissions ==> p.0 in t.users && p.1 in t.permissions)
    && (forall p :: p in t.rolePermissions ==> p.0 in t.roles && p.1 in t.permissions)
  }

  ghost predicate Valid(t: Tables) {
    UniqueSlugs(t) && LowerSlugs(t) && LinksResolve(t)
  }

  /** True when some existing role already has `slug`. */
  predicate RoleSlugTaken(t: Tables, slug: string) {
    exists id :: id in t.roles && t.roles[id].slug == Some(slug)
  }

  /** True when some existing permission already has `slug`. */
  predicate PermissionSlugTaken(t: Tables, slug: string) {
    exists id :: id in t.permissions && t.permissions[id].slug == slug
  }

  /** Deleting a user: `user_role.user_id` and `user_permission.user_id` cascade. */
  function DeleteUserCascade(t: Tables, u: UserId): (r: Tables)
    ensures r.users == t.users - {u}
    ensures r.permissions == t.permissions && r.roles == t.roles && r.rolePermissions == t.rolePermissions
    ensures forall p :: p in r.userRoles <==> p in t.userRoles && p.0 != u
    ensures forall p :: p in r.userPermissions <==> p in t.userPermissions && p.0 != u
  {
    t.(users := t.users - {u},
       userRoles := (set p | p in t.userRoles && p.0 != u),
       userPermissions := (set p | p in t.userPermissions && p.0 != u))
  }

  /** Deleting a role: `user_role.role_id` and `role_permission.role_id` cascade. */
  function DeleteRoleCascade(t: Tables, id: RoleId): (r: Tables)
    ensures r.roles == t.roles - {id}
    ensures r.users == t.users && r.permissions == t.permissions && r.userPermissions == t.userPermissions
    ensures forall p :: p in r.userRoles <==> p in t.userRoles && p.1 != id
    ensures forall p :: p in r.rolePermissions <==> p in t.rolePermissions && p.0 != id
  {
    t.(roles := t.roles - {id},
       userRoles := (set p | p in t.userRoles && p.1 != id),
       rolePermissions := (set p | p in t.rolePermissions && p.0 != id))
  }

  /** Deleting a permission: `user_permission.permission_id` and
      `role_permission.permission_id` cascade. */
  function DeletePermissionCascade(t: Tables, id: PermissionId): (r: Tables)
    ensures r.permissions == t.permissions - {id}
    ensures r.users == t.users && r.roles == t.roles && r.userRoles == t.userRoles
    ensures forall p :: p in r.userPermissions <==> p in t.userPermissions && p.1 != id
    ensures forall p :: p in r.rolePermissions <==> p in t.rolePermissions && p.1 != id
  {
    t.(permissions := t.permissions - {id},
       userPermissions := (set p | p in t.userPermissions && p.1 != id),
       rolePermissions := (set p | p in t.rolePermissions && p.1 != id))
  }

  /** No cascade leaves a dangling reference or breaks a slug constraint. */
  lemma CascadesPreserveValid(t: Tables, u: UserId, rid: RoleId, pid: PermissionId)
    requires Valid(t)
    ensures Valid(DeleteUserCascade(t, u))
    ensures Valid(DeleteRoleCascade(t, rid))
    ensures Valid(DeletePermissionCascade(t, pid))
  {
  }
}
