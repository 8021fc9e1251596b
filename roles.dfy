/**
 * The role hierarchy of packages/auth/src/roles.ts. Roles travel as the strings
 * stored on the user record, so the operations take strings; a string that names
 * no role has no place in the hierarchy.
 */
module Roles {
  import opened Wrappers
  import Seqs

  datatype Role = SuperAdmin | Admin | Manager | User | Guest

  /** The string each role is stored as. */
  function Value(r: Role): string
  {
    match r
    case SuperAdmin => "super_admin"
    case Admin => "admin"
    case Manager => "manager"
    case User => "user"
    case Guest => "guest"
  }

  /** The role a stored string names, if any. */
  function FromValue(s: string): (r: Option<Role>)
    ensures r.Some? ==> Value(r.value) == s
  {
    if s == "super_admin" then Some(SuperAdmin)
    else if s == "admin" then Some(Admin)
    else if s == "manager" then Some(Manager)
    else if s == "user" then Some(User)
    else if s == "guest" then Some(Guest)
    else None
  }

  /** Every role is read back from its string, and a string read as no role is the string of no role. */
  lemma ValueRoundTrip(r: Role, s: string)
    ensures FromValue(Value(r)) == Some(r)
    ensures FromValue(s).None? ==> Value(r) != s
  {
  }

  /** `ROLE_HIERARCHY`, lowest first. */
  const Hierarchy: seq<Role> := [Guest, User, Manager, Admin, SuperAdmin]

  /** The position of each role in `ROLE_HIERARCHY`. */
  function Rank(r: Role): (i: nat)
    ensures i < |Hierarchy| && Hierarchy[i] == r
  {
    match r
    case Guest => 0
    case User => 1
    case Manager => 2
    case Admin => 3
    case SuperAdmin => 4
  }

  /** The hierarchy lists each role once, so a role's rank is where `indexOf` finds it. */
  lemma RankIsIndexOf(r: Role)
    ensures Rank(r) == Seqs.IndexOf(Hierarchy, r)
    ensures forall k :: 0 <= k < |Hierarchy| ==> Rank(Hierarchy[k]) == k
  {
    assert Hierarchy[1..] == [User, Manager, Admin, SuperAdmin];
    assert Hierarchy[1..][1..] == [Manager, Admin, SuperAdmin];
    assert Hierarchy[1..][1..][1..] == [Admin, SuperAdmin];
    assert Hierarchy[1..][1..][1..][1..] == [SuperAdmin];
  }

  /**
   * `ROLE_HIERARCHY.indexOf(role)`: the role's position, or -1 for a string that
   * names no role (the array holds the five role strings, so `indexOf` finds a
   * string exactly when it is one of them).
   */
  function Level(role: string): (i: int)
    ensures -1 <= i < |Hierarchy|
    ensures i == -1 <==> FromValue(role).None?
    ensures 0 <= i ==> Value(Hierarchy[i]) == role
  {
    match FromValue(role)
    case None => -1
    case Some(r) => Rank(r)
  }

  /** `hasRoleLevel`: the user's role is at least as high as the required one. */
  predicate HasRoleLevel(userRole: string, requiredRole: string)
  {
    Level(userRole) >= Level(requiredRole)
  }

  /** The five roles have the levels 0 to 4 in hierarchy order. */
  lemma LevelTable()
    ensures Level(Value(Guest)) == 0 && Level(Value(User)) == 1 && Level(Value(Manager)) == 2
    ensures Level(Value(Admin)) == 3 && Level(Value(SuperAdmin)) == 4
    ensures forall k :: 0 <= k < |Hierarchy| ==> Level(Value(Hierarchy[k])) == k
  {
    ValueRoundTrip(Guest, "");
    ValueRoundTrip(User, "");
    ValueRoundTrip(Manager, "");
    ValueRoundTrip(Admin, "");
    ValueRoundTrip(SuperAdmin, "");
    RankIsIndexOf(Guest);
  }

  /** The hierarchy is a strict order: each role is above every role listed before it and below every role listed after it. */
  lemma HierarchyStrict(i: int, j: int)
    requires 0 <= i < j < |Hierarchy|
    ensures HasRoleLevel(Value(Hierarchy[j]), Value(Hierarchy[i]))
    ensures !HasRoleLevel(Value(Hierarchy[i]), Value(Hierarchy[j]))
  {
    LevelTable();
  }

  /** `hasRoleLevel` is reflexive, total and transitive on all role strings. */
  lemma HasRoleLevelOrder(a: string, b: string, c: string)
    ensures HasRoleLevel(a, a)
    ensures HasRoleLevel(a, b) || HasRoleLevel(b, a)
    ensures HasRoleLevel(a, b) && HasRoleLevel(b, c) ==> HasRoleLevel(a, c)
  {
  }

  /** A string that names no role reaches the level of no role, and every role reaches its level. */
  lemma UnknownRoleLevel(u: string, r: Role)
    requires FromValue(u).None?
    ensures !HasRoleLevel(u, Value(r))
    ensures HasRoleLevel(Value(r), u)
  {
    LevelTable();
  }

  /** `getRoleDisplayName`. */
  function DisplayName(r: Role): string
  {
    match r
    case SuperAdmin => "Super Admin"
    case Admin => "Admin"
    case Manager => "Manager"
    case User => "User"
    case Guest => "Guest"
  }

  /** The five roles have five distinct display names. */
  lemma DisplayNameInjective(a: Role, b: Role)
    requires DisplayName(a) == DisplayName(b)
    ensures a == b
  {
    assert "Super Admin"[0] != "Admin"[0] && "Super Admin"[0] != "Manager"[0];
    assert "Super Admin"[0] != "User"[0] && "Super Admin"[0] != "Guest"[0];
    assert "Admin"[0] != "Manager"[0] && "Admin"[0] != "User"[0] && "Admin"[0] != "Guest"[0];
    assert "Manager"[0] != "User"[0] && "Manager"[0] != "Guest"[0] && "User"[0] != "Guest"[0];
  }

  /** The elements of `xs` whose position, counted from `from`, is below `bound` (the index filter of `getManageableRoles`). */
  function BelowIndex(xs: seq<Role>, from: int, bound: int): seq<Role>
    decreases |xs|
  {
    if xs == [] then []
    else (if from < bound then [xs[0]] else []) + BelowIndex(xs[1..], from + 1, bound)
  }

  /** `getManageableRoles`: the roles of the hierarchy whose position is below the given role's. */
  function ManageableRoles(role: string): seq<Role>
  {
    BelowIndex(Hierarchy, 0, Level(role))
  }

  function Clamp(k: int, hi: nat): (c: nat)
    ensures c <= hi
  {
    if k < 0 then 0 else if k > hi then hi else k
  }

  lemma {:induction false} BelowIndexPrefix(xs: seq<Role>, from: int, bound: int)
    requires 0 <= from
    ensures BelowIndex(xs, from, bound) == xs[..Clamp(bound - from, |xs|)]
    decreases |xs|
  {
    if xs != [] {
      BelowIndexPrefix(xs[1..], from + 1, bound);
      if from < bound {
        assert xs[..Clamp(bound - from, |xs|)] == [xs[0]] + xs[1..][..Clamp(bound - (from + 1), |xs| - 1)];
      }
    }
  }

  /** The manageable roles are the hierarchy up to, and not including, the given role, in hierarchy order. */
  lemma ManageablePrefix(role: string)
    ensures ManageableRoles(role) == Hierarchy[..Clamp(Level(role), |Hierarchy|)]
  {
    BelowIndexPrefix(Hierarchy, 0, Level(role));
  }

  /** A role is manageable by `u` exactly when `u` has its level and is not that role; in particular no role manages itself. */
  lemma ManageableIff(u: string, r: Role)
    ensures r in ManageableRoles(u) <==> HasRoleLevel(u, Value(r)) && Value(r) != u
  {
    ManageablePrefix(u);
    ValueRoundTrip(r, u);
    RankIsIndexOf(r);
    var p := Hierarchy[..Clamp(Level(u), |Hierarchy|)];
    assert r in p <==> Rank(r) < Level(u) by {
      if r in p {
        var j :| 0 <= j < |p| && p[j] == r;
        assert Rank(Hierarchy[j]) == j;
      }
      if Rank(r) < Level(u) {
        assert p[Rank(r)] == r;
      }
    }
    assert Level(u) == Rank(r) <==> Value(r) == u;
  }

  /** A guest, or a string naming no role, manages no role; a super admin manages the other four. */
  lemma ManageableExtremes(u: string)
    ensures ManageableRoles(Value(Guest)) == []
    ensures ManageableRoles(Value(SuperAdmin)) == [Guest, User, Manager, Admin]
    ensures FromValue(u).None? ==> ManageableRoles(u) == []
  {
    LevelTable();
    assert ManageableRoles(Value(Guest)) == [] by {
      ManageablePrefix(Value(Guest));
      assert Clamp(Level(Value(Guest)), |Hierarchy|) == 0;
    }
    assert ManageableRoles(Value(SuperAdmin)) == [Guest, User, Manager, Admin] by {
      ManageablePrefix(Value(SuperAdmin));
      assert Clamp(Level(Value(SuperAdmin)), |Hierarchy|) == 4;
    }
    if FromValue(u).None? {
      ManageablePrefix(u);
      assert Clamp(Level(u), |Hierarchy|) == 0;
    }
  }
}
