/**
 * The handlers of apps/api/src/routes/users.ts after `requireAuth`: the
 * pagination arithmetic of the list, and the ordered guards of GET, PATCH and
 * DELETE `/:id` and PATCH `/:id/role`, with the updates they make to the user
 * table. `requester` is the user `requireAuth` attached (`None` when there is
 * none); the route's permission guard runs first.
 */
module UsersRoutes {
  import opened Wrappers
  import opened JsStrings
  import opened Roles
  import opened Permissions
  import opened UserStore
  import opened Http
  import opened Rbac

  // ---------------------------------------------------------------------------
  // GET / : pagination
  // ---------------------------------------------------------------------------

  /** `parseInt(q) || fallback`: NaN, from an absent or non-numeric query, and 0 both give the fallback. */
  function QueryInt(q: Option<string>, fallback: int): (n: int)
    requires fallback != 0
    ensures n != 0
  {
    if q.None? then fallback
    else match ParseInt(q.value)
      case None => fallback
      case Some(v) => if v == 0 then fallback else v
  }

  /** `Math.ceil(a / b)` for a non-zero divisor. */
  function CeilDiv(a: int, b: int): (c: int)
    requires b != 0
    ensures b > 0 ==> (c - 1) * b < a <= c * b
    ensures b < 0 ==> c * b <= a < (c - 1) * b
  {
    if b > 0 then -((-a) / b) else -(a / (-b))
  }

  /** The page window the list answers with. */
  datatype PageWindow = PageWindow(page: int, limit: int, skip: int, pages: int)

  /** `page`, `limit`, `skip = (page - 1) * limit` and `pages = Math.ceil(total / limit)`. */
  function Paginate(pageQuery: Option<string>, limitQuery: Option<string>, total: nat): (w: PageWindow)
    ensures w.page != 0 && w.limit != 0
  {
    var page := QueryInt(pageQuery, 1);
    var limit := QueryInt(limitQuery, 10);
    PageWindow(page, limit, (page - 1) * limit, CeilDiv(total, limit))
  }

  /**
   * Without query parameters the list shows page 1 of 10 users from the start;
   * a query that reads as a non-zero number is taken as it is, and one that reads
   * as 0 or as no number falls back to the default.
   */
  lemma PaginateDefaults(pageQuery: Option<string>, limitQuery: Option<string>, total: nat)
    ensures var w := Paginate(None, None, total);
      w.page == 1 && w.limit == 10 && w.skip == 0
    ensures var w := Paginate(pageQuery, limitQuery, total);
      && (pageQuery.Some? && ParseInt(pageQuery.value).Some? && ParseInt(pageQuery.value).value != 0 ==>
            w.page == ParseInt(pageQuery.value).value)
      && (pageQuery.None? || ParseInt(pageQuery.value) == None || ParseInt(pageQuery.value) == Some(0) ==> w.page == 1)
      && (limitQuery.Some? && ParseInt(limitQuery.value).Some? && ParseInt(limitQuery.value).value != 0 ==>
            w.limit == ParseInt(limitQuery.value).value)
      && (limitQuery.None? || ParseInt(limitQuery.value) == None || ParseInt(limitQuery.value) == Some(0) ==> w.limit == 10)
  {
  }

  /** For a positive factor, a smaller product has a smaller multiplicand. */
  lemma ProductOrder(a: int, b: int, l: int)
    requires l > 0 && a * l < b * l
    ensures a < b
  {
  }

  /**
   * With a positive limit the pages cover the users exactly: no pages for no
   * users, each user index falls on a page up to `pages`, and the last page is
   * not empty.
   */
  lemma PagesCoverTotal(total: nat, limit: int)
    requires limit > 0
    ensures var pages := CeilDiv(total, limit);
      && pages >= 0
      && (total == 0 <==> pages == 0)
      && (forall i :: 0 <= i < total ==> 1 <= i / limit + 1 <= pages)
      && (pages > 0 ==> (pages - 1) * limit < total)
  {
    var pages := CeilDiv(total, limit);
    ProductOrder(-1, pages, limit);
    if total == 0 {
      ProductOrder(pages - 1, 0, limit);
    }
    forall i | 0 <= i < total
      ensures 1 <= i / limit + 1 <= pages
    {
      assert (i / limit) * limit <= i;
      ProductOrder(i / limit, pages, limit);
    }
  }

  // ---------------------------------------------------------------------------
  // GET /:id
  // ---------------------------------------------------------------------------

  const Forbidden := Fail(403, "Forbidden")
  const UserNotFound := Fail(404, "User not found")

  /** The check of GET and PATCH `/:id`: the requester is the target, an admin or a super admin. */
  predicate MayAccess(requester: Option<UserRow>, id: string)
  {
    requester.Some? &&
    (requester.value.id == id || requester.value.role == Value(Admin) || requester.value.role == Value(SuperAdmin))
  }

  /** GET `/:id` behind `requirePermission(USER_READ)`: the guard, then 403, then 404, then the record. */
  function GetUserReply(requester: Option<UserRow>, id: string, rows: map<string, UserRow>): Reply
  {
    var guard := RequirePermission(UserRead, requester);
    if guard != Next then guard
    else if !MayAccess(requester, id) then Forbidden
    else if id !in rows then UserNotFound
    else Ok
  }

  /**
   * A user record is returned exactly when the requester holds `user:read`, is
   * the target or an admin, and the record exists: every role but the guest may
   * read its own record, and only admins and super admins read other records.
   */
  lemma GetUserIff(requester: Option<UserRow>, id: string, rows: map<string, UserRow>)
    ensures GetUserReply(requester, id, rows) == Ok <==>
      (requester.Some? && FromValue(requester.value.role).Some? && requester.value.role != Value(Guest)
       && MayAccess(requester, id) && id in rows)
    ensures (requester.Some? && requester.value.id != id && HasPermission(requester.value.role, UserRead)
             && requester.value.role != Value(Admin) && requester.value.role != Value(SuperAdmin)) ==>
      GetUserReply(requester, id, rows) == Forbidden
  {
    if requester.Some? {
      UserReadHolders(requester.value.role);
    }
  }

  // ---------------------------------------------------------------------------
  // PATCH /:id
  // ---------------------------------------------------------------------------

  /** The body of PATCH `/:id`. */
  datatype UpdateBody = UpdateBody(name: JsonValue, image: JsonValue)

  /**
   * `updateUserSchema`: `name` is absent or a string of 1 to 100 characters;
   * `image` is absent, null, or a string `isUrl` accepts (zod's URL check).
   */
  predicate ValidUpdate(body: UpdateBody, isUrl: string -> bool)
  {
    && (body.name.Missing? || (body.name.Text? && 1 <= |body.name.s| <= 100))
    && (body.image.Missing? || body.image.Null? || (body.image.Text? && isUrl(body.image.s)))
  }

  /** `prisma.user.update` with the parsed body: a given name or image is written, `null` clears the image. */
  function ApplyUpdate(u: UserRow, body: UpdateBody): UserRow
  {
    var name := if body.name.Text? then Some(body.name.s) else u.name;
    var image := if body.image.Text? then Some(body.image.s) else if body.image.Null? then None else u.image;
    u.(name := name, image := image)
  }

  /** PATCH `/:id` behind `requirePermission(USER_UPDATE)`; updating an id with no record throws and answers 500. */
  function PatchUserReply(requester: Option<UserRow>, id: string, body: UpdateBody, isUrl: string -> bool,
                          rows: map<string, UserRow>): Reply
  {
    var guard := RequirePermission(UserUpdate, requester);
    if guard != Next then guard
    else if !MayAccess(requester, id) then Forbidden
    else if !ValidUpdate(body, isUrl) then Invalid
    else if id !in rows then Fail(500, "Failed to update user")
    else Ok
  }

  /**
   * Only admins and super admins hold `user:update`, so the route's own 403 never
   * fires: a user who is not an admin is refused by the permission guard, even
   * for their own record.
   */
  lemma PatchForbiddenUnreachable(requester: Option<UserRow>, id: string, body: UpdateBody, isUrl: string -> bool,
                                  rows: map<string, UserRow>)
    ensures PatchUserReply(requester, id, body, isUrl, rows) != Forbidden
    ensures PatchUserReply(requester, id, body, isUrl, rows) == Ok <==>
      (requester.Some? && (requester.value.role == Value(Admin) || requester.value.role == Value(SuperAdmin))
       && ValidUpdate(body, isUrl) && id in rows)
  {
    if requester.Some? {
      UserWriteHolders(requester.value.role, UserUpdate);
    }
  }

  /**
   * An update writes only the name and the image, as given, and leaves the id,
   * the role and the ban columns alone; applying the same body twice is applying
   * it once.
   */
  lemma ApplyUpdateFrame(u: UserRow, body: UpdateBody)
    ensures var v := ApplyUpdate(u, body);
      && v.id == u.id && v.email == u.email && v.role == u.role && v.emailVerified == u.emailVerified
      && v.banned == u.banned && v.banReason == u.banReason && v.banExpires == u.banExpires
      && (body.name.Text? ==> v.name == Some(body.name.s))
      && (body.name.Missing? ==> v.name == u.name)
      && (body.image.Null? ==> v.image == None)
      && (body.image.Missing? ==> v.image == u.image)
      && ApplyUpdate(v, body) == v
  {
  }

  /** PATCH `/:id`: the reply, and on success the target's record updated with the body. */
  method PatchUser(table: UserTable, requester: Option<UserRow>, id: string, body: UpdateBody, isUrl: string -> bool)
    returns (reply: Reply)
    modifies table
    ensures reply == PatchUserReply(requester, id, body, isUrl, old(table.rows))
    ensures table.rows == if reply == Ok then old(table.rows)[id := ApplyUpdate(old(table.rows)[id], body)] else old(table.rows)
    ensures old(table.Valid()) ==> table.Valid()
  {
    reply := PatchUserReply(requester, id, body, isUrl, table.rows);
    if reply == Ok {
      table.rows := table.rows[id := ApplyUpdate(table.rows[id], body)];
    }
  }

  // ---------------------------------------------------------------------------
  // DELETE /:id
  // ---------------------------------------------------------------------------

  const CannotDeleteSelf := Fail(400, "Cannot delete your own account")
  const OnlySuperAdminDeletesAdmins := Fail(403, "Only super admin can delete admins")

  /** DELETE `/:id` as written: the admin check looks at the role "admin" only. */
  function DeleteUserReplyAsWritten(requester: Option<UserRow>, id: string, rows: map<string, UserRow>): Reply
  {
    var guard := RequirePermission(UserDelete, requester);
    if guard != Next then guard
    else if requester.value.id == id then CannotDeleteSelf
    else if id !in rows then UserNotFound
    else if rows[id].role == Value(Admin) && requester.value.role != Value(SuperAdmin) then OnlySuperAdminDeletesAdmins
    else Ok
  }

  /** DELETE `/:id` with the admin check covering both admin roles, as the ban route's check does. */
  function DeleteUserReply(requester: Option<UserRow>, id: string, rows: map<string, UserRow>): Reply
  {
    var guard := RequirePermission(UserDelete, requester);
    if guard != Next then guard
    else if requester.value.id == id then CannotDeleteSelf
    else if id !in rows then UserNotFound
    else if (rows[id].role == Value(Admin) || rows[id].role == Value(SuperAdmin)) && requester.value.role != Value(SuperAdmin) then
      OnlySuperAdminDeletesAdmins
    else Ok
  }

  /** An admin deleting a super admin passes the check as written, and is refused by the corrected one. */
  lemma AdminCanDeleteSuperAdmin()
    ensures var admin := UserRow("a", "a@example.com", None, Value(Admin), true, None, false, None, None);
      var root := UserRow("s", "s@example.com", None, Value(SuperAdmin), true, None, false, None, None);
      && DeleteUserReplyAsWritten(Some(admin), "s", map["s" := root]) == Ok
      && DeleteUserReply(Some(admin), "s", map["s" := root]) == OnlySuperAdminDeletesAdmins
  {
    UserWriteHolders(Value(Admin), UserDelete);
  }

  /**
   * A deletion goes through exactly when the requester is an admin or a super
   * admin, is not the target, the target exists, and the target holds neither
   * admin role unless the requester is a super admin; the guards answer in the
   * order self, missing, protected.
   */
  lemma DeleteUserIff(requester: Option<UserRow>, id: string, rows: map<string, UserRow>)
    ensures DeleteUserReply(requester, id, rows) == Ok <==>
      (requester.Some? && (requester.value.role == Value(Admin) || requester.value.role == Value(SuperAdmin))
       && requester.value.id != id && id in rows
       && (rows[id].role == Value(Admin) || rows[id].role == Value(SuperAdmin) ==> requester.value.role == Value(SuperAdmin)))
    ensures requester.Some? && HasPermission(requester.value.role, UserDelete) && requester.value.id == id ==>
      DeleteUserReply(requester, id, rows) == CannotDeleteSelf
  {
    if requester.Some? {
      UserWriteHolders(requester.value.role, UserDelete);
    }
  }

  /** The two readings differ only when an admin deletes a super admin other than themself. */
  lemma DeleteReadingsDiffer(requester: Option<UserRow>, id: string, rows: map<string, UserRow>)
    ensures DeleteUserReplyAsWritten(requester, id, rows) != DeleteUserReply(requester, id, rows) <==>
      (requester.Some? && requester.value.role == Value(Admin) && requester.value.id != id
       && id in rows && rows[id].role == Value(SuperAdmin))
  {
    if requester.Some? {
      UserWriteHolders(requester.value.role, UserDelete);
    }
  }

  /**
   * The check as written: a deletion goes through exactly when the requester is
   * an admin or a super admin, is not the target, the target exists, and the
   * target is not an admin unless the requester is a super admin; a super admin
   * target is not protected.
   */
  lemma DeleteUserAsWrittenIff(requester: Option<UserRow>, id: string, rows: map<string, UserRow>)
    ensures DeleteUserReplyAsWritten(requester, id, rows) == Ok <==>
      (requester.Some? && (requester.value.role == Value(Admin) || requester.value.role == Value(SuperAdmin))
       && requester.value.id != id && id in rows
       && (rows[id].role == Value(Admin) ==> requester.value.role == Value(SuperAdmin)))
  {
    if requester.Some? {
      UserWriteHolders(requester.value.role, UserDelete);
    }
  }

  /** DELETE `/:id` as the handler is written: the reply, and on success the target's record removed. */
  method DeleteUser(table: UserTable, requester: Option<UserRow>, id: string) returns (reply: Reply)
    modifies table
    ensures reply == DeleteUserReplyAsWritten(requester, id, old(table.rows))
    ensures table.rows == if reply == Ok then old(table.rows) - {id} else old(table.rows)
    ensures old(table.Valid()) ==> table.Valid()
  {
    reply := DeleteUserReplyAsWritten(requester, id, table.rows);
    if reply == Ok {
      table.rows := table.rows - {id};
    }
  }

  /** DELETE `/:id` with the corrected check, which keeps both admin roles from being deleted by an admin. */
  method DeleteUserCorrected(table: UserTable, requester: Option<UserRow>, id: string) returns (reply: Reply)
    modifies table
    ensures reply == DeleteUserReply(requester, id, old(table.rows))
    ensures table.rows == if reply == Ok then old(table.rows) - {id} else old(table.rows)
    ensures old(table.Valid()) ==> table.Valid()
  {
    reply := DeleteUserReply(requester, id, table.rows);
    if reply == Ok {
      table.rows := table.rows - {id};
    }
  }

  // ---------------------------------------------------------------------------
  // PATCH /:id/role
  // ---------------------------------------------------------------------------

  /** The names `updateRoleSchema` accepts. */
  function RoleName(r: Role): string
  {
    match r
    case SuperAdmin => "SUPER_ADMIN"
    case Admin => "ADMIN"
    case Manager => "MANAGER"
    case User => "USER"
    case Guest => "GUEST"
  }

  /** `z.enum([...])` followed by `roleMap`: the role an accepted name stands for. */
  function RoleFromName(s: string): (r: Option<Role>)
    ensures r.Some? ==> RoleName(r.value) == s
  {
    if s == "SUPER_ADMIN" then Some(SuperAdmin)
    else if s == "ADMIN" then Some(Admin)
    else if s == "MANAGER" then Some(Manager)
    else if s == "USER" then Some(User)
    else if s == "GUEST" then Some(Guest)
    else None
  }

  /** Exactly the five names are accepted, and each maps to the role stored as its lower-case form. */
  lemma RoleNames(r: Role, s: string)
    ensures RoleFromName(RoleName(r)) == Some(r)
    ensures RoleFromName(s).Some? <==> s in {"SUPER_ADMIN", "ADMIN", "MANAGER", "USER", "GUEST"}
    ensures ToLower(RoleName(r)) == Value(r)
  {
  }

  const CannotChangeOwnRole := Fail(400, "Cannot change your own role")
  const RoleTooHigh := Fail(403, "Cannot assign role higher than your own")

  /** PATCH `/:id/role` behind `requireSuperAdmin`; updating an id with no record throws and answers 500. */
  function ChangeRoleReply(requester: Option<UserRow>, id: string, body: JsonValue, rows: map<string, UserRow>): Reply
  {
    var guard := RequireSuperAdmin(requester);
    if guard != Next then guard
    else if requester.value.id == id then CannotChangeOwnRole
    else if !body.Text? || RoleFromName(body.s).None? then Invalid
    else
      var r := RoleFromName(body.s).value;
      if r != SuperAdmin && r !in ManageableRoles(requester.value.role) && requester.value.role != Value(SuperAdmin) then
        RoleTooHigh
      else if id !in rows then Fail(500, "Failed to update user role")
      else Ok
  }

  /**
   * Behind `requireSuperAdmin` the manageable-roles check never refuses: a role
   * change goes through exactly when a super admin changes an existing user other
   * than themself to one of the five roles, super admin included.
   */
  lemma ChangeRoleIff(requester: Option<UserRow>, id: string, body: JsonValue, rows: map<string, UserRow>)
    ensures ChangeRoleReply(requester, id, body, rows) != RoleTooHigh
    ensures ChangeRoleReply(requester, id, body, rows) == Ok <==>
      (requester.Some? && requester.value.role == Value(SuperAdmin) && requester.value.id != id
       && body.Text? && RoleFromName(body.s).Some? && id in rows)
  {
  }

  /** PATCH `/:id/role`: the reply, and on success the target's role set to the named role. */
  method ChangeRole(table: UserTable, requester: Option<UserRow>, id: string, body: JsonValue) returns (reply: Reply)
    modifies table
    ensures reply == ChangeRoleReply(requester, id, body, old(table.rows))
    ensures table.rows == if reply == Ok
      then old(table.rows)[id := old(table.rows)[id].(role := Value(RoleFromName(body.s).value))]
      else old(table.rows)
    ensures old(table.Valid()) ==> table.Valid()
  {
    reply := ChangeRoleReply(requester, id, body, table.rows);
    if reply == Ok {
      var r := RoleFromName(body.s).value;
      table.rows := table.rows[id := table.rows[id].(role := Value(r))];
    }
  }
}
