/**
 * The user records the API reads and writes, keyed by id: the columns the
 * handlers of apps/api/src/routes/users.ts and apps/api/src/routes/admin.ts and
 * the session check of apps/api/src/middleware/auth.ts use.
 */
module UserStore {
  import opened Wrappers

  /** A user record; times are milliseconds and `None` is the column's null. */
  datatype UserRow = UserRow(
    id: string,
    email: string,
    name: Option<string>,
    role: string,
    emailVerified: bool,
    image: Option<string>,
    banned: bool,
    banReason: Option<string>,
    banExpires: Option<int>)

  /** The user table; the handlers update its rows in place. */
  class UserTable {
    var rows: map<string, UserRow>

    /** Every row is stored under its own id. */
    ghost predicate Valid()
      reads this
    {
      forall id :: id in rows ==> rows[id].id == id
    }

    constructor (initial: map<string, UserRow>)
      requires forall id :: id in initial ==> initial[id].id == id
      ensures rows == initial && Valid()
    {
      rows := initial;
    }
  }
}
