/** Permission resolution and enforcement: the matcher on `entity:action:scope`
    strings, the resolver that unions direct and role-derived grants, and the
    gates `hasPermission` (fail-closed) and `requirePermission` (a denial
    becomes a redirect to the forbidden page, modelled as a result value). */
module Authz {
  import opened Wrappers
  import opened ActionResults
  import opened AuthzSchema
  import Text
  import Grants

  // ----- Matcher -----

  /** The text before the first `:`, i.e. `s.split(':')[0]`. */
  function Entity(s: string): string {
    Text.Split(s, ':')[0]
  }

  /** `entity:all:all` shape: the second and third `:`-fields are literally
      `all`; a string with fewer than three fields never is, and fields past
      the third do not matter. */
  predicate IsBlanket(held: string) {
    var f := Text.Split(held, ':');
    |f| >= 3 && f[1] == "all" && f[2] == "all"
  }

  /** `permissionMatches(userPermission, requiredPermission)` */
  predicate PermissionMatches(held: string, required: string) {
    if held == required then true
    else if Entity(held) != Entity(required) then false
    else if IsBlanket(held) then true
    else false
  }

  /** Every string satisfies itself, however malformed. */
  lemma MatchesReflexive(p: string)
    ensures PermissionMatches(p, p)
  {
  }

  /** A different string with a different entity never matches. */
  lemma EntityMismatchFails(held: string, required: string)
    requires held != required && Entity(held) != Entity(required)
    ensures !PermissionMatches(held, required)
  {
  }

  /** The complete rule: exact equality, or a blanket held slug on the same entity. */
  lemma MatchesIff(held: string, required: string)
    ensures PermissionMatches(held, required) <==>
      held == required || (Entity(held) == Entity(required) && IsBlanket(held))
  {
  }

  /** The fields of `e:a:s` are `e`, `a` and `s` when none holds a colon. */
  lemma FieldsOfTriple(e: string, a: string, s: string)
    requires ':' !in e && ':' !in a && ':' !in s
    ensures Text.Split(e + ":" + a + ":" + s, ':') == [e, a, s]
  {
    Text.SplitWithoutSep(s, ':');
    Text.SplitAtFirstSep(a, s, ':');
    assert a + ":" + s == a + [':'] + s;
    Text.SplitAtFirstSep(e, a + ":" + s, ':');
    assert e + ":" + a + ":" + s == e + [':'] + (a + ":" + s);
  }

  /** The entity of `e:rest` (or of `e` alone) is `e`. */
  lemma EntityOfPrefixed(e: string, rest: string)
    requires ':' !in e
    ensures Entity(e + ":" + rest) == e
    ensures Entity(e) == e
  {
    Text.SplitAtFirstSep(e, rest, ':');
    assert e + ":" + rest == e + [':'] + rest;
    Text.SplitWithoutSep(e, ':');
  }

  /** The first three fields of `e:a:s` followed by nothing or by `:...`. */
  lemma FieldsOfTripleWithTail(e: string, a: string, s: string, tail: string)
    requires ':' !in e && ':' !in a && ':' !in s
    requires tail == "" || tail[0] == ':'
    ensures var f := Text.Split(e + ":" + a + ":" + s + tail, ':');
      |f| >= 3 && f[0] == e && f[1] == a && f[2] == s
  {
    if tail == "" {
      FieldsOfTriple(e, a, s);
      assert e + ":" + a + ":" + s + tail == e + ":" + a + ":" + s;
    } else {
      var rest := tail[1..];
      var third := s + [':'] + rest;
      var second := a + [':'] + third;
      var whole := e + [':'] + second;
      assert tail == [':'] + rest;
      assert e + ":" + a + ":" + s + tail == whole;
      Text.SplitAtFirstSep(s, rest, ':');
      Text.SplitAtFirstSep(a, third, ':');
      Text.SplitAtFirstSep(e, second, ':');
      var f := Text.Split(whole, ':');
      assert f == [e] + Text.Split(second, ':');
      assert f[1..] == [a] + Text.Split(third, ':');
    }
  }

  /** `e:all:all`, and `e:all:all:x` alike, is a blanket grant: it satisfies
      every required string whose entity is `e`, whatever its action and scope. */
  lemma BlanketGrant(e: string, tail: string, required: string)
    requires ':' !in e
    requires tail == "" || tail[0] == ':'
    requires Entity(required) == e
    ensures PermissionMatches(e + ":all:all" + tail, required)
  {
    FieldsOfTripleWithTail(e, "all", "all", tail);
    assert e + ":all:all" + tail == e + ":" + "all" + ":" + "all" + tail;
  }

  /** Concretely: `e:all:all` covers `e:a:s` for every action and scope. */
  lemma BlanketCoversEntity(e: string, a: string, s: string)
    requires ':' !in e
    ensures PermissionMatches(e + ":all:all", e + ":" + a + ":" + s)
  {
    EntityOfPrefixed(e, a + ":" + s);
    assert e + ":" + a + ":" + s == e + ":" + (a + ":" + s);
    BlanketGrant(e, "", e + ":" + a + ":" + s);
    assert e + ":all:all" + "" == e + ":all:all";
  }

  /** No cross-entity leakage: a grant on entity `x` never satisfies a
      requirement on another entity `y`, whatever either string's remainder. */
  lemma NoCrossEntity(x: string, heldRest: string, y: string, requiredRest: string)
    requires ':' !in x && ':' !in y && x != y
    ensures !PermissionMatches(x + ":" + heldRest, y + ":" + requiredRest)
  {
    EntityOfPrefixed(x, heldRest);
    EntityOfPrefixed(y, requiredRest);
    assert (x + ":" + heldRest)[..|x|] == x;
    assert (y + ":" + requiredRest)[..|y|] == y;
  }

  /** Partial blankets (`e:all:self`, `e:write:all`, ...) match only themselves. */
  lemma PartialBlanketExactOnly(e: string, a: string, s: string, required: string)
    requires ':' !in e && ':' !in a && ':' !in s
    requires !(a == "all" && s == "all")
    ensures PermissionMatches(e + ":" + a + ":" + s, required) <==> required == e + ":" + a + ":" + s
  {
    FieldsOfTriple(e, a, s);
  }

  /** A held string with fewer than three fields matches only itself. */
  lemma ShortSlugExactOnly(held: string, required: string)
    requires |Text.Split(held, ':')| < 3
    ensures PermissionMatches(held, required) <==> held == required
  {
  }

  /** Matching is not symmetric: `e:all:all` covers `e:a:s`, never the reverse
      unless `e:a:s` is itself `e:all:all`. */
  lemma MatchesNotSymmetric(e: string, a: string, s: string)
    requires ':' !in e && ':' !in a && ':' !in s
    requires !(a == "all" && s == "all")
    ensures PermissionMatches(e + ":all:all", e + ":" + a + ":" + s)
    ensures !PermissionMatches(e + ":" + a + ":" + s, e + ":all:all")
  {
    BlanketCoversEntity(e, a, s);
    PartialBlanketExactOnly(e, a, s, e + ":all:all");
    FieldsOfTriple(e, a, s);
    FieldsOfTriple(e, "all", "all");
    assert e + ":all:all" == e + ":" + "all" + ":" + "all";
  }

  // ----- Resolver -----

  /** The slugs of the permissions that a set of link rows points at (an
      inner join with `permission`). */
  function Slugs<K(==)>(t: Tables, rows: set<(K, PermissionId)>): set<string> {
    set row | row in rows && row.1 in t.permissions :: t.permissions[row.1].slug
  }

  /** `user_permission` rows of `u`. */
  function DirectRows(t: Tables, u: UserId): set<(UserId, PermissionId)> {
    set row | row in t.userPermissions && row.0 == u
  }

  /** `role_permission` rows of the existing roles `u` holds. */
  function RoleRows(t: Tables, u: UserId): set<(RoleId, PermissionId)> {
    set row | row in t.rolePermissions && (u, row.0) in t.userRoles && row.0 in t.roles
  }

  function DirectSlugs(t: Tables, u: UserId): set<string> {
    Slugs(t, DirectRows(t, u))
  }

  function RoleSlugs(t: Tables, u: UserId): set<string> {
    Slugs(t, RoleRows(t, u))
  }

  /** The user's effective permissions: direct grants united with the grants
      of every role they hold. */
  function EffectivePermissions(t: Tables, u: UserId): set<string> {
    DirectSlugs(t, u) + RoleSlugs(t, u)
  }

  /** Role `r` grants `s` to `u`. */
  predicate GrantedVia(t: Tables, u: UserId, r: RoleId, s: string) {
    && (u, r) in t.userRoles && r in t.roles
    && exists p: PermissionId :: (r, p) in t.rolePermissions && p in t.permissions && t.permissions[p].slug == s
  }

  /** Membership in the effective set, spelled out over the join relations. */
  lemma EffectiveIff(t: Tables, u: UserId, s: string)
    ensures s in EffectivePermissions(t, u) <==>
      || (exists p: PermissionId :: (u, p) in t.userPermissions && p in t.permissions && t.permissions[p].slug == s)
      || (exists r: RoleId :: GrantedVia(t, u, r, s))
  {
    if s in RoleSlugs(t, u) {
      var row :| row in RoleRows(t, u) && row.1 in t.permissions && t.permissions[row.1].slug == s;
      var p := row.1;
      assert (row.0, p) in t.rolePermissions;
      assert GrantedVia(t, u, row.0, s);
    }
    if exists r: RoleId :: GrantedVia(t, u, r, s) {
      var r: RoleId :| GrantedVia(t, u, r, s);
      var p: PermissionId :| (r, p) in t.rolePermissions && p in t.permissions && t.permissions[p].slug == s;
      assert (r, p) in RoleRows(t, u);
    }
    if exists p: PermissionId :: (u, p) in t.userPermissions && p in t.permissions && t.permissions[p].slug == s {
      var p: PermissionId :| (u, p) in t.userPermissions && p in t.permissions && t.permissions[p].slug == s;
      assert (u, p) in DirectRows(t, u);
    }
  }

  lemma SlugsAdd<K>(t: Tables, done: set<(K, PermissionId)>, row: (K, PermissionId))
    requires row.1 in t.permissions
    ensures Slugs(t, done + {row}) == Slugs(t, done) + {t.permissions[row.1].slug}
  {
  }

  /** `getUserPermissions(userId)`: the effective permission set, or the
      storage failure wrapped in a `fail`. */
  method GetUserPermissions(store: Grants.AuthzStore, userId: UserId, outage: Option<string>)
    returns (r: ActionResult<set<string>>)
    ensures outage.Some? ==> r == Fail("Failed to get user permissions: " + outage.value)
    ensures outage.None? ==> r == Ok(Some(EffectivePermissions(store.Tables(), userId)))
  {
    if outage.Some? {
      return Fail("Failed to get user permissions: " + outage.value);
    }
    ghost var t := store.Tables();
    var permissions: set<string> := {};

    // select slug from user_permission join permission where user_id = userId
    var directPerms := set row | row in store.userPermissions && row.0 == userId && row.1 in store.permissions;
    ghost var seen: set<(UserId, PermissionId)> := {};
    while directPerms != {}
      invariant directPerms + seen == set row | row in DirectRows(t, userId) && row.1 in t.permissions
      invariant permissions == Slugs(t, seen)
      decreases directPerms
    {
      var perm :| perm in directPerms;
      permissions := permissions + {store.permissions[perm.1].slug};
      SlugsAdd(t, seen, perm);
      seen := seen + {perm};
      directPerms := directPerms - {perm};
    }
    assert Slugs(t, seen) == DirectSlugs(t, userId);

    // select slug from user_role join role join role_permission join permission
    var rolePerms := set row | row in store.rolePermissions && (userId, row.0) in store.userRoles
      && row.0 in store.roles && row.1 in store.permissions;
    ghost var seenRoles: set<(RoleId, PermissionId)> := {};
    while rolePerms != {}
      invariant rolePerms + seenRoles == set row | row in RoleRows(t, userId) && row.1 in t.permissions
      invariant permissions == DirectSlugs(t, userId) + Slugs(t, seenRoles)
      decreases rolePerms
    {
      var perm :| perm in rolePerms;
      permissions := permissions + {store.permissions[perm.1].slug};
      SlugsAdd(t, seenRoles, perm);
      seenRoles := seenRoles + {perm};
      rolePerms := rolePerms - {perm};
    }
    assert Slugs(t, seenRoles) == RoleSlugs(t, userId);
    r := Ok(Some(permissions));
  }

  // ----- Gates -----

  /** Some effective permission of `u` satisfies `required`. */
  predicate Holds(t: Tables, u: UserId, required: string) {
    exists h :: h in EffectivePermissions(t, u) && PermissionMatches(h, required)
  }

  /** `hasPermission(userId, permissionString)`: true exactly when resolution
      succeeds and some resolved slug matches; false when resolution fails. */
  method HasPermission(store: Grants.AuthzStore, userId: UserId, permissionString: string, outage: Option<string>)
    returns (b: bool)
    ensures b <==> outage.None? && Holds(store.Tables(), userId, permissionString)
  {
    var result := GetUserPermissions(store, userId, outage);
    if !result.Success? || result.data.None? {
      return false;
    }
    var pending := result.data.value;
    while pending != {}
      invariant pending <= result.data.value
      invariant forall h :: h in result.data.value && h !in pending ==> !PermissionMatches(h, permissionString)
      decreases pending
    {
      var userPerm :| userPerm in pending;
      if PermissionMatches(userPerm, permissionString) {
        return true;
      }
      pending := pending - {userPerm};
    }
    return false;
  }

  /** The outcome of `requirePermission`: pass through, or the redirect that
      `redirect(...)` would perform. */
  datatype Gate = Allowed | Denied(reason: string, permission: string, target: string)

  const ForbiddenPrefix: string := "/forbidden?reason=missing_permission&permission="

  /** The redirect target: the prefix followed by the required string, unescaped. */
  function ForbiddenTarget(permission: string): (target: string)
    ensures |target| == |ForbiddenPrefix| + |permission|
    ensures target[..|ForbiddenPrefix|] == ForbiddenPrefix
    ensures target[|ForbiddenPrefix|..] == permission
  {
    ForbiddenPrefix + permission
  }

  /** `requirePermission(userId, permissionString)`: passes exactly when
      `hasPermission` is true, and otherwise redirects to the forbidden page
      with reason `missing_permission` and the required string. */
  method RequirePermission(store: Grants.AuthzStore, userId: UserId, permissionString: string, outage: Option<string>)
    returns (g: Gate)
    ensures g == Allowed <==> outage.None? && Holds(store.Tables(), userId, permissionString)
    ensures g != Allowed ==>
      g == Denied("missing_permission", permissionString, ForbiddenTarget(permissionString))
  {
    var hasPerm := HasPermission(store, userId, permissionString, outage);
    if !hasPerm {
      return Denied("missing_permission", permissionString, ForbiddenTarget(permissionString));
    }
    return Allowed;
  }

  // ----- Properties relating the grant operations to the gates -----

  /** Exact-match soundness: every effective permission is held. */
  lemma ExactMatchSound(t: Tables, u: UserId, p: string)
    requires p in EffectivePermissions(t, u)
    ensures Holds(t, u, p)
  {
    MatchesReflexive(p);
  }

  /** A user holding `e:all:all` holds every `e:a:s`, and no `y:...` of
      another entity `y` by way of that grant. */
  lemma BlanketHolds(t: Tables, u: UserId, e: string, a: string, s: string)
    requires ':' !in e
    requires e + ":all:all" in EffectivePermissions(t, u)
    ensures Holds(t, u, e + ":" + a + ":" + s)
  {
    BlanketCoversEntity(e, a, s);
  }

  /** A user with no grants holds nothing. */
  lemma NoGrantsNoPermission(t: Tables, u: UserId, required: string)
    requires forall p :: p in t.userPermissions ==> p.0 != u
    requires forall p :: p in t.userRoles ==> p.0 != u
    ensures EffectivePermissions(t, u) == {}
    ensures !Holds(t, u, required)
  {
    if EffectivePermissions(t, u) != {} {
      var s :| s in EffectivePermissions(t, u);
      EffectiveIff(t, u, s);
    }
  }

  /** Revoking a direct grant removes exactly its slug from the direct part;
      the grants through roles stay (the slug is unique, so no other direct
      row supplies it). */
  lemma RevokeDirectEffect(t: Tables, u: UserId, pid: PermissionId)
    requires Valid(t)
    requires pid in t.permissions
    ensures DirectSlugs(t.(userPermissions := t.userPermissions - {(u, pid)}), u)
         == DirectSlugs(t, u) - {t.permissions[pid].slug}
    ensures RoleSlugs(t.(userPermissions := t.userPermissions - {(u, pid)}), u) == RoleSlugs(t, u)
  {
    var t' := t.(userPermissions := t.userPermissions - {(u, pid)});
    var slug := t.permissions[pid].slug;
    assert DirectRows(t', u) == DirectRows(t, u) - {(u, pid)};
    forall s | s in DirectSlugs(t', u) ensures s in DirectSlugs(t, u) - {slug} {
      var row :| row in DirectRows(t', u) && row.1 in t.permissions && t.permissions[row.1].slug == s;
      assert row.1 != pid;
    }
    forall s | s in DirectSlugs(t, u) - {slug} ensures s in DirectSlugs(t', u) {
      var row :| row in DirectRows(t, u) && row.1 in t.permissions && t.permissions[row.1].slug == s;
      assert row in DirectRows(t', u);
    }
    assert RoleRows(t', u) == RoleRows(t, u);
  }

  /** Revocation takes effect: a user whose only grant was the direct grant
      of `pid` holds nothing afterwards. */
  lemma RevocationTakesEffect(t: Tables, u: UserId, pid: PermissionId, required: string)
    requires Valid(t)
    requires pid in t.permissions
    requires DirectSlugs(t, u) == {t.permissions[pid].slug} && RoleSlugs(t, u) == {}
    ensures EffectivePermissions(t.(userPermissions := t.userPermissions - {(u, pid)}), u) == {}
    ensures !Holds(t.(userPermissions := t.userPermissions - {(u, pid)}), u, required)
  {
    RevokeDirectEffect(t, u, pid);
  }

  /** Deleting role `rid` takes away exactly the permissions that reached the
      user only through that role; direct grants and other roles' grants stay. */
  lemma DeleteRoleEffect(t: Tables, u: UserId, rid: RoleId, s: string)
    ensures s in EffectivePermissions(DeleteRoleCascade(t, rid), u) <==>
      s in DirectSlugs(t, u) || exists r: RoleId :: r != rid && GrantedVia(t, u, r, s)
  {
    var t' := DeleteRoleCascade(t, rid);
    assert DirectRows(t', u) == DirectRows(t, u);
    EffectiveIff(t', u, s);
    EffectiveIff(t, u, s);
    if exists r: RoleId :: GrantedVia(t', u, r, s) {
      var r: RoleId :| GrantedVia(t', u, r, s);
      var p: PermissionId :| (r, p) in t'.rolePermissions && p in t'.permissions && t'.permissions[p].slug == s;
      assert r != rid && GrantedVia(t, u, r, s);
    }
    if exists r: RoleId :: r != rid && GrantedVia(t, u, r, s) {
      var r: RoleId :| r != rid && GrantedVia(t, u, r, s);
      var p: PermissionId :| (r, p) in t.rolePermissions && p in t.permissions && t.permissions[p].slug == s;
      assert (r, p) in t'.rolePermissions;
      assert GrantedVia(t', u, r, s);
    }
  }

  /** Deleting a permission removes its slug from every user's effective set
      and nothing else (slugs are unique). */
  lemma DeletePermissionEffect(t: Tables, u: UserId, pid: PermissionId)
    requires Valid(t)
    requires pid in t.permissions
    ensures EffectivePermissions(DeletePermissionCascade(t, pid), u)
         == EffectivePermissions(t, u) - {t.permissions[pid].slug}
  {
    var t' := DeletePermissionCascade(t, pid);
    var slug := t.permissions[pid].slug;
    forall s | s in EffectivePermissions(t', u) ensures s in EffectivePermissions(t, u) - {slug} {
      EffectiveIff(t', u, s);
      EffectiveIff(t, u, s);
      if exists r: RoleId :: GrantedVia(t', u, r, s) {
        var r: RoleId :| GrantedVia(t', u, r, s);
        var p: PermissionId :| (r, p) in t'.rolePermissions && p in t'.permissions && t'.permissions[p].slug == s;
        assert GrantedVia(t, u, r, s);
      }
    }
    forall s | s in EffectivePermissions(t, u) - {slug} ensures s in EffectivePermissions(t', u) {
      EffectiveIff(t', u, s);
      EffectiveIff(t, u, s);
      if exists r: RoleId :: GrantedVia(t, u, r, s) {
        var r: RoleId :| GrantedVia(t, u, r, s);
        var p: PermissionId :| (r, p) in t.rolePermissions && p in t.permissions && t.permissions[p].slug == s;
        assert p != pid;
        assert GrantedVia(t', u, r, s);
      } else {
        var p: PermissionId :| (u, p) in t.userPermissions && p in t.permissions && t.permissions[p].slug == s;
        assert p != pid;
        assert (u, p) in t'.userPermissions;
      }
    }
  }
}
