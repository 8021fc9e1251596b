/**
 * The guards of apps/api/src/middleware/rbac.ts. Each looks at the user that
 * `requireAuth` attached to the request (`None` when there is none) and either
 * answers 401 or 403 or lets the request through.
 */
module Rbac {
  import opened Wrappers
  import opened Roles
  import opened Permissions
  import opened UserStore
  import opened Http

  const Unauthorized := Fail(401, "Unauthorized")
  const InsufficientPermissions := Fail(403, "Forbidden - Insufficient permissions")

  /** `requirePermission(permission)`. */
  function RequirePermission(p: Permission, user: Option<UserRow>): Reply
  {
    if user.None? then Unauthorized
    else if !HasPermission(user.value.role, p) then InsufficientPermissions
    else Next
  }

  /** `requireAnyPermission(permissions)`. */
  function RequireAnyPermission(ps: seq<Permission>, user: Option<UserRow>): Reply
  {
    if user.None? then Unauthorized
    else if !HasAnyPermission(user.value.role, ps) then InsufficientPermissions
    else Next
  }

  /** `requireRole(role)`. */
  function RequireRole(r: Role, user: Option<UserRow>): Reply
  {
    if user.None? then Unauthorized
    else if !HasRoleLevel(user.value.role, Value(r)) then Fail(403, "Forbidden - Insufficient role level")
    else Next
  }

  /** `requireAdmin`. */
  function RequireAdmin(user: Option<UserRow>): Reply
  {
    if user.None? then Unauthorized
    else if !HasPermission(user.value.role, AdminAccess) then Fail(403, "Forbidden - Admin access required")
    else Next
  }

  /** `requireSuperAdmin`. */
  function RequireSuperAdmin(user: Option<UserRow>): Reply
  {
    if user.None? then Unauthorized
    else if user.value.role != Value(SuperAdmin) then Fail(403, "Forbidden - Super admin access required")
    else Next
  }

  /** A reply that lets the request through or answers 401 or 403, and nothing else. */
  predicate IsGuardReply(r: Reply)
  {
    r == Next || r == Unauthorized || (r.Fail? && r.status == 403)
  }

  /** Without an attached user every guard answers 401 and none lets the request through. */
  lemma GuardsRejectAnonymous(p: Permission, ps: seq<Permission>, r: Role)
    ensures RequirePermission(p, None) == Unauthorized
    ensures RequireAnyPermission(ps, None) == Unauthorized
    ensures RequireRole(r, None) == Unauthorized
    ensures RequireAdmin(None) == Unauthorized
    ensures RequireSuperAdmin(None) == Unauthorized
  {
  }

  /** Every guard answers exactly one of: through, 401, 403. */
  lemma GuardsReplyOnce(p: Permission, ps: seq<Permission>, r: Role, user: Option<UserRow>)
    ensures IsGuardReply(RequirePermission(p, user)) && IsGuardReply(RequireAnyPermission(ps, user))
    ensures IsGuardReply(RequireRole(r, user)) && IsGuardReply(RequireAdmin(user)) && IsGuardReply(RequireSuperAdmin(user))
  {
  }

  /** A user passes `requirePermission(p)` exactly when their role holds `p`, and is otherwise refused with 403. */
  lemma RequirePermissionIff(p: Permission, u: UserRow)
    ensures RequirePermission(p, Some(u)) == Next <==> HasPermission(u.role, p)
    ensures RequirePermission(p, Some(u)) != Next ==> RequirePermission(p, Some(u)) == InsufficientPermissions
  {
  }

  /** A user passes `requireAnyPermission(ps)` exactly when the role holds one of them; an empty list refuses everyone with 403. */
  lemma RequireAnyPermissionIff(ps: seq<Permission>, u: UserRow)
    ensures RequireAnyPermission(ps, Some(u)) == Next <==> exists i :: 0 <= i < |ps| && HasPermission(u.role, ps[i])
    ensures RequireAnyPermission([], Some(u)) == InsufficientPermissions
  {
  }

  /** A user passes `requireRole(r)` exactly when their role is at least `r`; a role string naming no role never passes. */
  lemma RequireRoleIff(r: Role, u: UserRow)
    ensures RequireRole(r, Some(u)) == Next <==> HasRoleLevel(u.role, Value(r))
    ensures FromValue(u.role).None? ==> RequireRole(r, Some(u)) == Fail(403, "Forbidden - Insufficient role level")
  {
    if FromValue(u.role).None? {
      UnknownRoleLevel(u.role, r);
    }
  }

  /** `requireAdmin` lets through exactly admins and super admins, the same users `requireRole(ADMIN)` lets through. */
  lemma RequireAdminIff(u: UserRow)
    ensures RequireAdmin(Some(u)) == Next <==> u.role == Value(Admin) || u.role == Value(SuperAdmin)
    ensures RequireAdmin(Some(u)) == Next <==> RequireRole(Admin, Some(u)) == Next
  {
    AdminAccessHolders(u.role);
    LevelTable();
    if FromValue(u.role).None? {
      UnknownRoleLevel(u.role, Admin);
    } else {
      var r := FromValue(u.role).value;
      assert u.role == Value(r);
    }
  }

  /** `requireSuperAdmin` lets through exactly the role "super_admin". */
  lemma RequireSuperAdminIff(u: UserRow)
    ensures RequireSuperAdmin(Some(u)) == Next <==> u.role == "super_admin"
  {
  }
}
