/**
 * The permission table of packages/auth/src/permissions.ts: each role string maps
 * to a list of patterns, a pattern is a permission, "*" or a "resource:*"
 * wildcard, and a role holds a permission when one of its patterns matches it.
 */
module Permissions {
  import opened Wrappers
  import opened Seqs
  import opened Roles

  datatype Permission =
    | UserRead | UserCreate | UserUpdate | UserDelete
    | AdminAccess | AdminManageUsers | AdminManageRoles
    | ResourceRead | ResourceCreate | ResourceUpdate | ResourceDelete

  /** The string of each permission, "resource:action". */
  function PermValue(p: Permission): string
  {
    match p
    case UserRead => "user:read"
    case UserCreate => "user:create"
    case UserUpdate => "user:update"
    case UserDelete => "user:delete"
    case AdminAccess => "admin:access"
    case AdminManageUsers => "admin:manage_users"
    case AdminManageRoles => "admin:manage_roles"
    case ResourceRead => "resource:read"
    case ResourceCreate => "resource:create"
    case ResourceUpdate => "resource:update"
    case ResourceDelete => "resource:delete"
  }

  /** `Object.values(Permission)`: every permission, in declaration order. */
  const AllPermissions: seq<Permission> := [
    UserRead, UserCreate, UserUpdate, UserDelete,
    AdminAccess, AdminManageUsers, AdminManageRoles,
    ResourceRead, ResourceCreate, ResourceUpdate, ResourceDelete
  ]

  /** `ROLE_PERMISSIONS[role]`: the patterns of a role, or nothing for a string that names no role. */
  function RolePatterns(role: string): Option<seq<string>>
  {
    match FromValue(role)
    case None => None
    case Some(SuperAdmin) => Some(["*"])
    case Some(Admin) => Some([PermValue(AdminAccess), PermValue(AdminManageUsers), "user:*", "resource:*"])
    case Some(Manager) => Some([PermValue(UserRead), "resource:*"])
    case Some(User) => Some([PermValue(UserRead), PermValue(ResourceRead), PermValue(ResourceCreate)])
    case Some(Guest) => Some([PermValue(ResourceRead)])
  }

  /** `matchesPermission`: "*" matches everything, a pattern ending in ":*" matches by prefix up to its ':', any other pattern only itself. */
  predicate MatchesPermission(permission: string, pattern: string)
  {
    if pattern == "*" then true
    else if |pattern| >= 2 && pattern[|pattern| - 2..] == ":*" then pattern[..|pattern| - 1] <= permission
    else permission == pattern
  }

  /** `patterns.some(pattern => matchesPermission(permission, pattern))`. */
  function AnyPatternMatches(patterns: seq<string>, permission: string): (r: bool)
    ensures r <==> exists i :: 0 <= i < |patterns| && MatchesPermission(permission, patterns[i])
  {
    if patterns == [] then false
    else if MatchesPermission(permission, patterns[0]) then true
    else
      var r := AnyPatternMatches(patterns[1..], permission);
      assert r ==> exists i :: 0 <= i < |patterns| && MatchesPermission(permission, patterns[i]) by {
        if r {
          var i :| 0 <= i < |patterns[1..]| && MatchesPermission(permission, patterns[1..][i]);
          assert patterns[i + 1] == patterns[1..][i];
        }
      }
      assert (exists i :: 0 <= i < |patterns| && MatchesPermission(permission, patterns[i])) ==> r by {
        if exists i :: 0 <= i < |patterns| && MatchesPermission(permission, patterns[i]) {
          var i :| 0 <= i < |patterns| && MatchesPermission(permission, patterns[i]);
          assert patterns[1..][i - 1] == patterns[i];
        }
      }
      r
  }

  /** `hasPermission`: some pattern of the role matches; false for a role missing from the table. */
  predicate HasPermission(role: string, p: Permission)
  {
    match RolePatterns(role)
    case None => false
    case Some(patterns) => AnyPatternMatches(patterns, PermValue(p))
  }

  /** `getRolePermissions`: all permissions when the role has "*", otherwise those some pattern matches, in declaration order. */
  function RolePermissions(role: string): seq<Permission>
  {
    match RolePatterns(role)
    case None => []
    case Some(patterns) =>
      if "*" in patterns then AllPermissions
      else Filter(AllPermissions, (p: Permission) => AnyPatternMatches(patterns, PermValue(p)))
  }

  /** `hasAnyPermission`: the role holds one of the permissions. */
  function HasAnyPermission(role: string, ps: seq<Permission>): (r: bool)
    ensures r <==> exists i :: 0 <= i < |ps| && HasPermission(role, ps[i])
  {
    if ps == [] then false
    else
      var r := HasPermission(role, ps[0]) || HasAnyPermission(role, ps[1..]);
      assert r ==> exists i :: 0 <= i < |ps| && HasPermission(role, ps[i]) by {
        if r && !HasPermission(role, ps[0]) {
          var i :| 0 <= i < |ps[1..]| && HasPermission(role, ps[1..][i]);
          assert ps[i + 1] == ps[1..][i];
        }
      }
      assert (exists i :: 0 <= i < |ps| && HasPermission(role, ps[i])) ==> r by {
        if exists i :: 0 <= i < |ps| && HasPermission(role, ps[i]) {
          var i :| 0 <= i < |ps| && HasPermission(role, ps[i]);
          if i > 0 {
            assert ps[1..][i - 1] == ps[i];
          }
        }
      }
      r
  }

  /** `hasAllPermissions`: the role holds every one of the permissions. */
  function HasAllPermissions(role: string, ps: seq<Permission>): (r: bool)
    ensures r <==> forall i :: 0 <= i < |ps| ==> HasPermission(role, ps[i])
  {
    if ps == [] then true
    else
      var r := HasPermission(role, ps[0]) && HasAllPermissions(role, ps[1..]);
      assert r ==> forall i :: 0 <= i < |ps| ==> HasPermission(role, ps[i]) by {
        if r {
          forall i | 0 < i < |ps| ensures HasPermission(role, ps[i]) {
            assert ps[1..][i - 1] == ps[i];
          }
        }
      }
      r
  }

  // ---------------------------------------------------------------------------
  // Properties
  // ---------------------------------------------------------------------------

  /** The three kinds of pattern: "*" matches everything; "x:*" matches exactly what starts with "x:"; any other pattern matches by equality. */
  lemma MatchesPermissionKinds(permission: string, prefix: string, pattern: string)
    ensures MatchesPermission(permission, "*")
    ensures MatchesPermission(permission, prefix + ":*") <==> prefix + ":" <= permission
    ensures pattern != "*" && !(|pattern| >= 2 && pattern[|pattern| - 2..] == ":*") ==>
      (MatchesPermission(permission, pattern) <==> permission == pattern)
  {
    var w := prefix + ":*";
    if w != "*" {
      assert w[|w| - 2..] == ":*";
      assert w[..|w| - 1] == prefix + ":";
    }
  }

  lemma {:induction false} FilterExt<T>(xs: seq<T>, f: T -> bool, g: T -> bool)
    requires forall i :: 0 <= i < |xs| ==> f(xs[i]) == g(xs[i])
    ensures Filter(xs, f) == Filter(xs, g)
  {
    if xs != [] {
      FilterExt(xs[1..], f, g);
    }
  }

  /** The test "the role holds this permission", as a value `filter` can take. */
  function Held(role: string): Permission -> bool
  {
    (p: Permission) => HasPermission(role, p)
  }

  /** `getRolePermissions` and `hasPermission` agree: the expansion is exactly the permissions the role holds, in declaration order. */
  lemma RolePermissionsExact(role: string)
    ensures RolePermissions(role) == Filter(AllPermissions, Held(role))
  {
    var held := Held(role);
    match RolePatterns(role)
    case None =>
      FilterNone(AllPermissions, held);
    case Some(patterns) =>
      if "*" in patterns {
        var i :| 0 <= i < |patterns| && patterns[i] == "*";
        assert forall k :: 0 <= k < |AllPermissions| ==> MatchesPermission(PermValue(AllPermissions[k]), patterns[i]);
        FilterAll(AllPermissions, held);
      } else {
        FilterExt(AllPermissions, (p: Permission) => AnyPatternMatches(patterns, PermValue(p)), held);
      }
  }

  /** A super admin holds every permission and its expansion is the whole list; a string that names no role holds nothing. */
  lemma SuperAdminAndUnknown(p: Permission, u: string)
    ensures HasPermission(Value(SuperAdmin), p)
    ensures RolePermissions(Value(SuperAdmin)) == AllPermissions
    ensures FromValue(u).None? ==> !HasPermission(u, p) && RolePermissions(u) == []
  {
    ValueRoundTrip(SuperAdmin, u);
    assert ["*"][0] == "*";
  }

  /** Which permission strings start with "user:" and which with "resource:". */
  lemma PermValuePrefixes(p: Permission)
    ensures "user:" <= PermValue(p) <==> p in {UserRead, UserCreate, UserUpdate, UserDelete}
    ensures "resource:" <= PermValue(p) <==> p in {ResourceRead, ResourceCreate, ResourceUpdate, ResourceDelete}
  {
    var v := PermValue(p);
    if p in {AdminAccess, AdminManageUsers, AdminManageRoles} {
      assert v[0] == 'a';
    } else if p in {UserRead, UserCreate, UserUpdate, UserDelete} {
      assert v[..5] == "user:";
      assert v[0] == 'u';
    } else {
      assert v[..9] == "resource:";
      assert v[0] == 'r';
    }
  }

  /** The admin's four patterns match the two admin strings listed and every "user:" and "resource:" string. */
  lemma AdminPatterns(v: string)
    ensures RolePatterns(Value(Admin)) == Some([PermValue(AdminAccess), PermValue(AdminManageUsers), "user:*", "resource:*"])
    ensures AnyPatternMatches([PermValue(AdminAccess), PermValue(AdminManageUsers), "user:*", "resource:*"], v) <==>
      v == PermValue(AdminAccess) || v == PermValue(AdminManageUsers) || "user:" <= v || "resource:" <= v
  {
    ValueRoundTrip(Admin, "");
    var ps := [PermValue(AdminAccess), PermValue(AdminManageUsers), "user:*", "resource:*"];
    MatchesPermissionKinds(v, "user", PermValue(AdminAccess));
    MatchesPermissionKinds(v, "resource", PermValue(AdminManageUsers));
    assert ps[2] == "user" + ":*" && ps[3] == "resource" + ":*";
  }

  /** An admin holds every user and resource permission, `admin:access` and `admin:manage_users`, but not `admin:manage_roles`. */
  lemma AdminHolds(p: Permission)
    ensures HasPermission(Value(Admin), p) <==> p != AdminManageRoles
  {
    var v := PermValue(p);
    AdminPatterns(v);
    PermValuePrefixes(p);
    if p == AdminManageRoles {
      assert v != PermValue(AdminAccess) && v != PermValue(AdminManageUsers);
    }
  }

  /** Filtering with a test that fails only on `x` drops the one `x` between two parts free of it. */
  lemma FilterDropsOne<T>(front: seq<T>, x: T, back: seq<T>, p: T -> bool)
    requires !p(x)
    requires forall i :: 0 <= i < |front| ==> p(front[i])
    requires forall i :: 0 <= i < |back| ==> p(back[i])
    ensures Filter(front + [x] + back, p) == front + back
  {
    assert Filter([x], p) == [] by {
      assert [x][1..] == [];
    }
    FilterAll(front, p);
    FilterAll(back, p);
    FilterAppend(front, [x], p);
    assert Filter(front + [x], p) == front;
    FilterAppend(front + [x], back, p);
  }

  /** Filtering with a test that holds only of `x` keeps the one `x` between two parts where it fails. */
  lemma FilterKeepsOne<T>(front: seq<T>, x: T, back: seq<T>, p: T -> bool)
    requires p(x)
    requires forall i :: 0 <= i < |front| ==> !p(front[i])
    requires forall i :: 0 <= i < |back| ==> !p(back[i])
    ensures Filter(front + [x] + back, p) == [x]
  {
    assert Filter([x], p) == [x] by {
      assert [x][1..] == [];
    }
    FilterNone(front, p);
    FilterAppend(front, [x], p);
    assert Filter(front + [x], p) == [x];
    FilterNone(back, p);
    FilterAppend(front + [x], back, p);
  }

  /** An admin's expansion lists, in declaration order, every permission but `admin:manage_roles`. */
  lemma AdminExpansion()
    ensures RolePermissions(Value(Admin)) ==
      [UserRead, UserCreate, UserUpdate, UserDelete, AdminAccess, AdminManageUsers,
       ResourceRead, ResourceCreate, ResourceUpdate, ResourceDelete]
  {
    var front := [UserRead, UserCreate, UserUpdate, UserDelete, AdminAccess, AdminManageUsers];
    var back := [ResourceRead, ResourceCreate, ResourceUpdate, ResourceDelete];
    assert AllPermissions == front + [AdminManageRoles] + back;
    assert front + back == [UserRead, UserCreate, UserUpdate, UserDelete, AdminAccess, AdminManageUsers,
       ResourceRead, ResourceCreate, ResourceUpdate, ResourceDelete];
    assert AdminManageRoles !in front && AdminManageRoles !in back;
    RolePermissionsExact(Value(Admin));
    var held := Held(Value(Admin));
    forall i | 0 <= i < |front| ensures held(front[i]) {
      AdminHolds(front[i]);
    }
    forall i | 0 <= i < |back| ensures held(back[i]) {
      AdminHolds(back[i]);
    }
    AdminHolds(AdminManageRoles);
    FilterDropsOne(front, AdminManageRoles, back, held);
    assert RolePermissions(Value(Admin)) == front + back;
  }

  /** A guest holds only `resource:read`. */
  lemma GuestHolds(p: Permission)
    ensures HasPermission(Value(Guest), p) <==> p == ResourceRead
  {
    ValueRoundTrip(Guest, "");
    assert RolePatterns(Value(Guest)) == Some([PermValue(ResourceRead)]);
    MatchesPermissionKinds(PermValue(p), "", PermValue(ResourceRead));
    assert PermValue(ResourceRead)[|PermValue(ResourceRead)| - 2..] != ":*";
    if PermValue(p) == PermValue(ResourceRead) {
      PermValueInjective(p, ResourceRead);
    }
  }

  /** A guest's expansion is `resource:read` alone. */
  lemma GuestExpansion()
    ensures RolePermissions(Value(Guest)) == [ResourceRead]
  {
    var front := [UserRead, UserCreate, UserUpdate, UserDelete, AdminAccess, AdminManageUsers, AdminManageRoles];
    var back := [ResourceCreate, ResourceUpdate, ResourceDelete];
    assert AllPermissions == front + [ResourceRead] + back;
    assert ResourceRead !in front && ResourceRead !in back;
    RolePermissionsExact(Value(Guest));
    var held := Held(Value(Guest));
    forall i | 0 <= i < |front| ensures !held(front[i]) {
      GuestHolds(front[i]);
    }
    forall i | 0 <= i < |back| ensures !held(back[i]) {
      GuestHolds(back[i]);
    }
    GuestHolds(ResourceRead);
    assert AllPermissions == front + [ResourceRead] + back;
    FilterKeepsOne(front, ResourceRead, back, held);
  }

  /** Exactly admins and super admins hold `admin:access`, among all role strings. */
  lemma AdminAccessHolders(role: string)
    ensures HasPermission(role, AdminAccess) <==> role == Value(Admin) || role == Value(SuperAdmin)
  {
    var v := PermValue(AdminAccess);
    PermValuePrefixes(AdminAccess);
    match FromValue(role)
    case None =>
      ValueRoundTrip(Admin, role);
      ValueRoundTrip(SuperAdmin, role);
    case Some(r) =>
      assert role == Value(r);
      if r == Admin {
        AdminHolds(AdminAccess);
      } else if r == Manager {
        MatchesPermissionKinds(v, "resource", PermValue(UserRead));
        assert [PermValue(UserRead), "resource:*"][1] == "resource" + ":*";
        assert v != PermValue(UserRead);
      } else if r == User {
        assert v != PermValue(UserRead) && v != PermValue(ResourceRead) && v != PermValue(ResourceCreate);
      } else if r == Guest {
        GuestHolds(AdminAccess);
      } else {
        SuperAdminAndUnknown(AdminAccess, "");
      }
  }

  /** Exactly admins and super admins hold `user:update` and `user:delete`, among all role strings. */
  lemma UserWriteHolders(role: string, p: Permission)
    requires p == UserUpdate || p == UserDelete
    ensures HasPermission(role, p) <==> role == Value(Admin) || role == Value(SuperAdmin)
  {
    var v := PermValue(p);
    PermValuePrefixes(p);
    match FromValue(role)
    case None =>
      ValueRoundTrip(Admin, role);
      ValueRoundTrip(SuperAdmin, role);
    case Some(r) =>
      assert role == Value(r);
      if r == Admin {
        AdminHolds(p);
      } else if r == Manager {
        MatchesPermissionKinds(v, "resource", PermValue(UserRead));
        assert [PermValue(UserRead), "resource:*"][1] == "resource" + ":*";
        assert v != PermValue(UserRead);
      } else if r == User {
        assert v != PermValue(UserRead) && v != PermValue(ResourceRead) && v != PermValue(ResourceCreate);
      } else if r == Guest {
        GuestHolds(p);
      } else {
        SuperAdminAndUnknown(p, "");
      }
  }

  /** Every role but the guest holds `user:read`; a string that names no role does not. */
  lemma UserReadHolders(role: string)
    ensures HasPermission(role, UserRead) <==> FromValue(role).Some? && role != Value(Guest)
  {
    match FromValue(role)
    case None =>
      SuperAdminAndUnknown(UserRead, role);
    case Some(r) =>
      assert role == Value(r);
      if r == Admin {
        AdminHolds(UserRead);
      } else if r == Manager {
        assert [PermValue(UserRead), "resource:*"][0] == PermValue(UserRead);
      } else if r == User {
        assert [PermValue(UserRead), PermValue(ResourceRead), PermValue(ResourceCreate)][0] == PermValue(UserRead);
      } else if r == Guest {
        GuestHolds(UserRead);
      } else {
        SuperAdminAndUnknown(UserRead, "");
      }
  }

  /** Distinct permissions have distinct strings. */
  lemma PermValueInjective(a: Permission, b: Permission)
    requires PermValue(a) == PermValue(b)
    ensures a == b
  {
  }

  /** "Any" over no permissions is false and "all" over no permissions is true; one permission is any and all alike. */
  lemma AnyAllEdges(role: string, p: Permission)
    ensures !HasAnyPermission(role, [])
    ensures HasAllPermissions(role, [])
    ensures HasAnyPermission(role, [p]) == HasPermission(role, p) == HasAllPermissions(role, [p])
  {
  }
}
