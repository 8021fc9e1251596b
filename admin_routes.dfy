/**
 * apps/api/src/routes/admin.ts behind `requireAuth` and `requireAdmin`: the
 * `usersByRole` fold of the statistics, and the ban and unban handlers with the
 * ban columns they write.
 */
module AdminRoutes {
  import opened Wrappers
  import opened Roles
  import opened UserStore
  import opened Http
  import opened Rbac
  import AuthMiddleware

  // ---------------------------------------------------------------------------
  // GET /stats : usersByRole
  // ---------------------------------------------------------------------------

  /** One group of `groupBy({ by: ["role"] })`: a role and its count. */
  datatype RoleGroup = RoleGroup(role: string, count: nat)

  /** The record the `reduce` builds: each group writes its count under its role. */
  function RoleCounts(groups: seq<RoleGroup>): map<string, nat>
  {
    if groups == [] then map[]
    else
      var last := groups[|groups| - 1];
      RoleCounts(groups[..|groups| - 1])[last.role := last.count]
  }

  /** The position of the last group with this role, or -1. */
  function LastGroupIndex(groups: seq<RoleGroup>, role: string): (k: int)
    ensures -1 <= k < |groups|
    ensures 0 <= k ==> groups[k].role == role
    ensures forall j :: 0 <= j < |groups| && k < j ==> groups[j].role != role
  {
    if groups == [] then -1
    else if groups[|groups| - 1].role == role then |groups| - 1
    else
      var init := groups[..|groups| - 1];
      assert forall j :: 0 <= j < |init| ==> init[j] == groups[j];
      LastGroupIndex(init, role)
  }

  /** `usersByRole.reduce(...)`, writing into the accumulator record group by group. */
  method UsersByRole(groups: seq<RoleGroup>) returns (acc: map<string, nat>)
    ensures acc == RoleCounts(groups)
  {
    acc := map[];
    var i := 0;
    while i < |groups|
      invariant 0 <= i <= |groups|
      invariant acc == RoleCounts(groups[..i])
    {
      assert groups[..i + 1][..i] == groups[..i];
      acc := acc[groups[i].role := groups[i].count];
      i := i + 1;
    }
    assert groups[..|groups|] == groups;
  }

  /**
   * A role is in the record exactly when some group has it, and its count is
   * that of the last such group: a later group overwrites an earlier one.
   */
  lemma {:induction false} RoleCountsLookup(groups: seq<RoleGroup>, role: string)
    ensures role in RoleCounts(groups) <==> LastGroupIndex(groups, role) >= 0
    ensures role in RoleCounts(groups) ==> RoleCounts(groups)[role] == groups[LastGroupIndex(groups, role)].count
  {
    if groups != [] {
      var init := groups[..|groups| - 1];
      RoleCountsLookup(init, role);
      var k := LastGroupIndex(init, role);
      if k >= 0 {
        assert init[k] == groups[k];
      }
    }
  }

  /** With one group per role, as `groupBy` returns them, every group's count is read back under its role. */
  lemma DistinctGroupsReadBack(groups: seq<RoleGroup>, i: int)
    requires forall a, b :: 0 <= a < b < |groups| ==> groups[a].role != groups[b].role
    requires 0 <= i < |groups|
    ensures groups[i].role in RoleCounts(groups) && RoleCounts(groups)[groups[i].role] == groups[i].count
  {
    RoleCountsLookup(groups, groups[i].role);
  }

  // ---------------------------------------------------------------------------
  // POST /users/ban
  // ---------------------------------------------------------------------------

  /** The body of a ban. */
  datatype BanBody = BanBody(userId: JsonValue, reason: JsonValue, expiresAt: JsonValue)

  /**
   * `banUserSchema`: a non-empty `userId`, an optional reason of 1 to 500
   * characters, and an optional `expiresAt` that `isDateTime` accepts (zod's
   * ISO 8601 check).
   */
  predicate ValidBan(body: BanBody, isDateTime: string -> bool)
  {
    && body.userId.Text? && |body.userId.s| >= 1
    && (body.reason.Missing? || (body.reason.Text? && 1 <= |body.reason.s| <= 500))
    && (body.expiresAt.Missing? || (body.expiresAt.Text? && isDateTime(body.expiresAt.s)))
  }

  const DefaultBanReason := "Banned by administrator"

  /**
   * The columns a ban writes: banned, the reason or the default one, and the end
   * `parseDate` reads from `expiresAt` (`new Date`, in milliseconds) or none when
   * it is absent or empty.
   */
  function Banned(u: UserRow, body: BanBody, parseDate: string -> int): UserRow
  {
    var reason := if body.reason.Text? then body.reason.s else DefaultBanReason;
    var expires := if body.expiresAt.Text? && body.expiresAt.s != "" then Some(parseDate(body.expiresAt.s)) else None;
    u.(banned := true, banReason := Some(reason), banExpires := expires)
  }

  const CannotBanSelf := Fail(400, "Cannot ban yourself")
  const CannotBanAdmins := Fail(403, "Cannot ban admin users")

  /** The ban handler behind `requireAdmin`: the schema, then self, then missing, then protected. */
  function BanReply(requester: Option<UserRow>, body: BanBody, isDateTime: string -> bool,
                    rows: map<string, UserRow>): Reply
  {
    var guard := RequireAdmin(requester);
    if guard != Next then guard
    else if !ValidBan(body, isDateTime) then Invalid
    else if requester.value.id == body.userId.s then CannotBanSelf
    else if body.userId.s !in rows then Fail(404, "User not found")
    else
      var target := rows[body.userId.s];
      if (target.role == Value(Admin) || target.role == Value(SuperAdmin)) && requester.value.role != Value(SuperAdmin) then
        CannotBanAdmins
      else Ok
  }

  /**
   * A ban goes through exactly when an admin or a super admin bans another
   * existing user with a valid body, and a target holding either admin role is
   * banned only by a super admin.
   */
  lemma BanIff(requester: Option<UserRow>, body: BanBody, isDateTime: string -> bool, rows: map<string, UserRow>)
    ensures BanReply(requester, body, isDateTime, rows) == Ok <==>
      (requester.Some? && (requester.value.role == Value(Admin) || requester.value.role == Value(SuperAdmin))
       && ValidBan(body, isDateTime) && requester.value.id != body.userId.s && body.userId.s in rows
       && (rows[body.userId.s].role in {Value(Admin), Value(SuperAdmin)} ==> requester.value.role == Value(SuperAdmin)))
    ensures (requester.Some? && requester.value.role == Value(Admin) && ValidBan(body, isDateTime)
             && body.userId.s in rows && rows[body.userId.s].role == Value(SuperAdmin) && requester.value.id != body.userId.s) ==>
      BanReply(requester, body, isDateTime, rows) == CannotBanAdmins
  {
    if requester.Some? {
      RequireAdminIff(requester.value);
    }
  }

  /**
   * A ban changes only the ban columns: banned, the given reason or the default
   * one, and the given end or none. A ban without an end is enforced by
   * `requireAuth` at every time; a ban with an end only before that end.
   */
  lemma BannedFields(u: UserRow, body: BanBody, parseDate: string -> int, now: int)
    ensures var v := Banned(u, body, parseDate);
      && v == u.(banned := true, banReason := v.banReason, banExpires := v.banExpires)
      && v.banned
      && v.banReason == Some(if body.reason.Text? then body.reason.s else DefaultBanReason)
      && (body.expiresAt.Missing? ==> v.banExpires == None && AuthMiddleware.BanActive(v, now))
      && (body.expiresAt.Text? && body.expiresAt.s != "" ==>
            (AuthMiddleware.BanActive(v, now) <==> now < parseDate(body.expiresAt.s)))
  {
  }

  /** The ban handler: the reply, and on success the target's ban columns written. */
  method BanUser(table: UserTable, requester: Option<UserRow>, body: BanBody,
                 isDateTime: string -> bool, parseDate: string -> int) returns (reply: Reply)
    modifies table
    ensures reply == BanReply(requester, body, isDateTime, old(table.rows))
    ensures table.rows == if reply == Ok
      then old(table.rows)[body.userId.s := Banned(old(table.rows)[body.userId.s], body, parseDate)]
      else old(table.rows)
    ensures old(table.Valid()) ==> table.Valid()
  {
    reply := BanReply(requester, body, isDateTime, table.rows);
    if reply == Ok {
      var id := body.userId.s;
      table.rows := table.rows[id := Banned(table.rows[id], body, parseDate)];
    }
  }

  // ---------------------------------------------------------------------------
  // POST /users/unban
  // ---------------------------------------------------------------------------

  /** The columns an unban writes: not banned, no reason, no end. */
  function Unbanned(u: UserRow): UserRow
  {
    u.(banned := false, banReason := None, banExpires := None)
  }

  /**
   * The unban handler behind `requireAdmin`: a non-empty `userId`, and updating an
   * id with no record throws and answers 500. There is no self or admin check.
   */
  function UnbanReply(requester: Option<UserRow>, userId: JsonValue, rows: map<string, UserRow>): Reply
  {
    var guard := RequireAdmin(requester);
    if guard != Next then guard
    else if !(userId.Text? && |userId.s| >= 1) then Invalid
    else if userId.s !in rows then Fail(500, "Failed to unban user")
    else Ok
  }

  /**
   * Unbanning clears every trace of a ban and is idempotent: an unbanned user is
   * never refused by `requireAuth`'s ban check, unbanning twice is unbanning once,
   * and unbanning after a ban gives what unbanning alone gives.
   */
  lemma UnbanClears(u: UserRow, body: BanBody, parseDate: string -> int, now: int)
    ensures !Unbanned(u).banned && !AuthMiddleware.BanActive(Unbanned(u), now)
    ensures Unbanned(u) == u.(banned := false, banReason := None, banExpires := None)
    ensures Unbanned(Unbanned(u)) == Unbanned(u)
    ensures Unbanned(Banned(u, body, parseDate)) == Unbanned(u)
  {
  }

  /** An unban goes through exactly when an admin or a super admin names an existing user, themself included. */
  lemma UnbanIff(requester: Option<UserRow>, userId: JsonValue, rows: map<string, UserRow>)
    ensures UnbanReply(requester, userId, rows) == Ok <==>
      (requester.Some? && (requester.value.role == Value(Admin) || requester.value.role == Value(SuperAdmin))
       && userId.Text? && userId.s in rows && |userId.s| >= 1)
  {
    if requester.Some? {
      RequireAdminIff(requester.value);
    }
  }

  /** The unban handler: the reply, and on success the target's ban columns cleared. */
  method UnbanUser(table: UserTable, requester: Option<UserRow>, userId: JsonValue) returns (reply: Reply)
    modifies table
    ensures reply == UnbanReply(requester, userId, old(table.rows))
    ensures table.rows == if reply == Ok
      then old(table.rows)[userId.s := Unbanned(old(table.rows)[userId.s])]
      else old(table.rows)
    ensures old(table.Valid()) ==> table.Valid()
  {
    reply := UnbanReply(requester, userId, table.rows);
    if reply == Ok {
      table.rows := table.rows[userId.s := Unbanned(table.rows[userId.s])];
    }
  }
}
