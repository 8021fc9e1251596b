/**
 * apps/api/src/middleware/auth.ts: reading the session token from the Cookie
 * header (a simplified reading of section 4.2 of RFC 6265), looking the session
 * up, the ban check, and attaching the user and session to the request.
 * `decodeURIComponent` is the parameter `decode` (`None` where it throws); the
 * session store is a sequence read in order; times are milliseconds.
 */
module AuthMiddleware {
  import opened Wrappers
  import opened JsStrings
  import Seqs
  import opened UserStore

  const SessionCookie: string := "better-auth.session_token"

  /** One `;`-separated piece read as a name and a value. */
  datatype Entry = Entry(key: string, value: string)

  /**
   * `cookie.trim().split("=")` with `valueParts.join("=")`: the name is the trimmed
   * piece up to its first '=', the value everything after it, later '=' included.
   */
  function ParsePiece(piece: string): Entry
  {
    var parts := Split(Trim(piece), '=');
    Entry(parts[0], Join(parts[1..], '='))
  }

  function ParsePieces(pieces: seq<string>): (es: seq<Entry>)
    ensures |es| == |pieces|
    ensures forall i :: 0 <= i < |pieces| ==> es[i] == ParsePiece(pieces[i])
  {
    seq(|pieces|, i requires 0 <= i < |pieces| => ParsePiece(pieces[i]))
  }

  /** An entry is recorded only when both its name and its value are non-empty. */
  predicate Kept(e: Entry)
  {
    e.key != "" && e.value != ""
  }

  /** The dictionary the `reduce` builds, each kept entry overwriting its name. */
  function CookieMap(entries: seq<Entry>): map<string, string>
  {
    if entries == [] then map[]
    else
      var m := CookieMap(entries[..|entries| - 1]);
      var last := entries[|entries| - 1];
      if Kept(last) then m[last.key := last.value] else m
  }

  /** One more entry updates the dictionary only when it is kept. */
  lemma CookieMapStep(entries: seq<Entry>, i: int)
    requires 0 <= i < |entries|
    ensures CookieMap(entries[..i + 1]) ==
      if Kept(entries[i]) then CookieMap(entries[..i])[entries[i].key := entries[i].value] else CookieMap(entries[..i])
  {
    assert entries[..i + 1][..i] == entries[..i];
  }

  /** The outcome of `getSessionToken`: no token, a token, or a `decodeURIComponent` that throws. */
  datatype TokenResult = NoToken | DecodeError | Token(token: string)

  /** The token part of the decoded cookie value: the text before its first '.', or no token when that is empty. */
  function TokenPart(decoded: string): TokenResult
  {
    var part := Split(decoded, '.')[0];
    if part == "" then NoToken else Token(part)
  }

  function TokenFromCookies(cookies: map<string, string>, decode: string -> Option<string>): TokenResult
  {
    if SessionCookie !in cookies || cookies[SessionCookie] == "" then NoToken
    else
      match decode(cookies[SessionCookie])
      case None => DecodeError
      case Some(d) => TokenPart(d)
  }

  /** `getSessionToken` for a Cookie header (`None` when the request has none). */
  function SessionToken(header: Option<string>, decode: string -> Option<string>): TokenResult
  {
    if header.None? || header.value == "" then NoToken
    else TokenFromCookies(CookieMap(ParsePieces(Split(header.value, ';'))), decode)
  }

  /** The `reduce` of `getSessionToken`, building the cookie dictionary piece by piece. */
  method BuildCookies(pieces: seq<string>) returns (cookies: map<string, string>)
    ensures cookies == CookieMap(ParsePieces(pieces))
  {
    ghost var entries := ParsePieces(pieces);
    cookies := map[];
    var i := 0;
    while i < |pieces|
      invariant 0 <= i <= |pieces|
      invariant cookies == CookieMap(entries[..i])
    {
      var entry := ParsePiece(pieces[i]);
      CookieMapStep(entries, i);
      if entry.key != "" && entry.value != "" {
        cookies := cookies[entry.key := entry.value];
      }
      i := i + 1;
    }
    assert entries[..|pieces|] == entries;
  }

  /** `getSessionToken`. */
  method GetSessionToken(header: Option<string>, decode: string -> Option<string>) returns (r: TokenResult)
    ensures r == SessionToken(header, decode)
  {
    if header.None? || header.value == "" {
      return NoToken;
    }
    var cookies := BuildCookies(Split(header.value, ';'));
    r := TokenFromCookies(cookies, decode);
  }

  /** A piece splits at its first '=': the name is the text before it, without any '=', and the value all the text after it. */
  lemma PieceSplitsAtFirstEquals(piece: string)
    ensures var t := Trim(piece);
      var i := Seqs.IndexOf(t, '=');
      && ParsePiece(piece).key == (if i < 0 then t else t[..i])
      && ParsePiece(piece).value == (if i < 0 then "" else t[i + 1..])
      && '=' !in ParsePiece(piece).key
  {
    SplitHead(Trim(piece), '=');
  }

  /** The position of the last kept entry with this name, or -1. */
  function LastKeyIndex(entries: seq<Entry>, key: string): (k: int)
    ensures -1 <= k < |entries|
    ensures 0 <= k ==> Kept(entries[k]) && entries[k].key == key
    ensures forall j :: 0 <= j < |entries| && k < j ==> !(Kept(entries[j]) && entries[j].key == key)
  {
    if entries == [] then -1
    else
      var last := entries[|entries| - 1];
      if Kept(last) && last.key == key then |entries| - 1
      else
        var init := entries[..|entries| - 1];
        assert forall j :: 0 <= j < |init| ==> init[j] == entries[j];
        LastKeyIndex(init, key)
  }

  /** A name is in the dictionary exactly when some kept entry has it, and its value is that of the last such entry. */
  lemma {:induction false} CookieLookup(entries: seq<Entry>, key: string)
    ensures key in CookieMap(entries) <==> LastKeyIndex(entries, key) >= 0
    ensures key in CookieMap(entries) ==> CookieMap(entries)[key] == entries[LastKeyIndex(entries, key)].value
  {
    if entries != [] {
      var init := entries[..|entries| - 1];
      CookieLookup(init, key);
      var k := LastKeyIndex(init, key);
      if k >= 0 {
        assert init[k] == entries[k];
      }
    }
  }

  /** No header, an empty header, or no kept piece named for the session cookie all give no token. */
  lemma NoCookieNoToken(header: Option<string>, decode: string -> Option<string>)
    ensures header.None? || header.value == "" ==> SessionToken(header, decode) == NoToken
    ensures header.Some? && LastKeyIndex(ParsePieces(Split(header.value, ';')), SessionCookie) < 0 ==>
      SessionToken(header, decode) == NoToken
  {
    if header.Some? {
      CookieLookup(ParsePieces(Split(header.value, ';')), SessionCookie);
    }
  }

  /**
   * A token comes from the last kept piece named for the session cookie: its value
   * decodes, and the token is the decoded text before its first '.', non-empty and
   * free of '.'.
   */
  lemma TokenShape(header: Option<string>, decode: string -> Option<string>)
    requires SessionToken(header, decode).Token?
    ensures header.Some?
    ensures var entries := ParsePieces(Split(header.value, ';'));
      var k := LastKeyIndex(entries, SessionCookie);
      && 0 <= k
      && decode(entries[k].value).Some?
      && var d := decode(entries[k].value).value;
         var i := Seqs.IndexOf(d, '.');
         SessionToken(header, decode).token == (if i < 0 then d else d[..i])
    ensures SessionToken(header, decode).token != "" && '.' !in SessionToken(header, decode).token
  {
    var entries := ParsePieces(Split(header.value, ';'));
    CookieLookup(entries, SessionCookie);
    SplitHead(decode(CookieMap(entries)[SessionCookie]).value, '.');
  }

  // ---------------------------------------------------------------------------
  // Sessions and the ban check
  // ---------------------------------------------------------------------------

  datatype SessionInfo = SessionInfo(id: string, userId: string, token: string, expiresAt: int)

  /** A stored session with its user. */
  datatype Session = Session(info: SessionInfo, user: UserRow)

  /** `prisma.session.findFirst`: the first session with this token that expires after `now`. */
  function FindSession(sessions: seq<Session>, token: string, now: int): (r: Option<Session>)
    ensures r.Some? ==> r.value in sessions && r.value.info.token == token && r.value.info.expiresAt > now
    ensures r.None? ==> forall i :: 0 <= i < |sessions| ==> !(sessions[i].info.token == token && sessions[i].info.expiresAt > now)
  {
    if sessions == [] then None
    else if sessions[0].info.token == token && sessions[0].info.expiresAt > now then Some(sessions[0])
    else
      var r := FindSession(sessions[1..], token, now);
      assert forall i :: 1 <= i < |sessions| ==> sessions[i] == sessions[1..][i - 1];
      r
  }

  /** A ban that `requireAuth` enforces: banned, and with no end or an end after `now`. */
  predicate BanActive(u: UserRow, now: int)
  {
    u.banned && (u.banExpires.None? || u.banExpires.value > now)
  }

  /** What `requireAuth` does: 401, 403 with the ban's reason and end, 500, or attach and go on. */
  datatype AuthDecision =
    | Unauthorized
    | AccountBanned(reason: Option<string>, expires: Option<int>)
    | InternalError
    | Attach(user: UserRow, session: SessionInfo)

  /**
   * `requireAuth`: `sessions` is the session store, `None` when reading it throws;
   * a throwing `decodeURIComponent` also ends in the 500 of the `catch`.
   */
  function RequireAuthDecision(header: Option<string>, decode: string -> Option<string>,
                               sessions: Option<seq<Session>>, now: int): AuthDecision
  {
    DecideOnToken(SessionToken(header, decode), sessions, now)
  }

  /** The part of `requireAuth` after the token has been read from the cookies. */
  function DecideOnToken(token: TokenResult, sessions: Option<seq<Session>>, now: int): AuthDecision
  {
    match token
    case DecodeError => InternalError
    case NoToken => Unauthorized
    case Token(t) =>
      if sessions.None? then InternalError
      else
        match FindSession(sessions.value, t, now)
        case None => Unauthorized
        case Some(s) =>
          if BanActive(s.user, now) then AccountBanned(s.user.banReason, s.user.banExpires)
          else Attach(s.user, s.info)
  }

  /** `optionalAuth`: the user and session it attaches, if any; it always calls `next`. */
  function OptionalAuthAttach(header: Option<string>, decode: string -> Option<string>,
                              sessions: Option<seq<Session>>, now: int): Option<Session>
  {
    var token := SessionToken(header, decode);
    if !token.Token? || sessions.None? then None
    else
      var found := FindSession(sessions.value, token.token, now);
      if found.Some? && !found.value.user.banned then found else None
  }

  /** `requireAuth` answers 401 exactly when there is no token or no unexpired session with it. */
  lemma RequireAuthUnauthorized(header: Option<string>, decode: string -> Option<string>, sessions: Option<seq<Session>>, now: int)
    ensures RequireAuthDecision(header, decode, sessions, now) == Unauthorized <==>
      (SessionToken(header, decode) == NoToken
       || (SessionToken(header, decode).Token? && sessions.Some?
           && forall i :: 0 <= i < |sessions.value| ==>
                !(sessions.value[i].info.token == SessionToken(header, decode).token && sessions.value[i].info.expiresAt > now)))
  {
    TokenUnauthorized(SessionToken(header, decode), sessions, now);
  }

  lemma TokenUnauthorized(token: TokenResult, sessions: Option<seq<Session>>, now: int)
    ensures DecideOnToken(token, sessions, now) == Unauthorized <==>
      (token == NoToken
       || (token.Token? && sessions.Some?
           && forall i :: 0 <= i < |sessions.value| ==>
                !(sessions.value[i].info.token == token.token && sessions.value[i].info.expiresAt > now)))
  {
    if token.Token? && sessions.Some? {
      var found := FindSession(sessions.value, token.token, now);
      if found.Some? {
        var i :| 0 <= i < |sessions.value| && sessions.value[i] == found.value;
      }
    }
  }

  /**
   * For the session found: a banned user whose ban has no end or ends after `now`
   * is refused with 403 and the ban's details; any other user is attached with
   * the session, an expired ban included.
   */
  lemma RequireAuthBan(header: Option<string>, decode: string -> Option<string>, sessions: seq<Session>, now: int)
    requires SessionToken(header, decode).Token?
    requires FindSession(sessions, SessionToken(header, decode).token, now).Some?
    ensures var s := FindSession(sessions, SessionToken(header, decode).token, now).value;
      && (s.user.banned && (s.user.banExpires.None? || s.user.banExpires.value > now) ==>
            RequireAuthDecision(header, decode, Some(sessions), now) == AccountBanned(s.user.banReason, s.user.banExpires))
      && (s.user.banned && s.user.banExpires.Some? && s.user.banExpires.value <= now ==>
            RequireAuthDecision(header, decode, Some(sessions), now) == Attach(s.user, s.info))
      && (!s.user.banned ==> RequireAuthDecision(header, decode, Some(sessions), now) == Attach(s.user, s.info))
  {
  }

  /**
   * `optionalAuth` attaches only users `requireAuth` would attach, and the same
   * session; a user whose ban has expired is attached by `requireAuth` but not by
   * `optionalAuth`, which ignores the end of a ban.
   */
  lemma OptionalAuthStricterOnBans(header: Option<string>, decode: string -> Option<string>, sessions: Option<seq<Session>>, now: int)
    ensures var o := OptionalAuthAttach(header, decode, sessions, now);
      o.Some? ==> RequireAuthDecision(header, decode, sessions, now) == Attach(o.value.user, o.value.info)
    ensures var d := RequireAuthDecision(header, decode, sessions, now);
      d.Attach? && d.user.banned ==> OptionalAuthAttach(header, decode, sessions, now).None?
  {
  }

  /** The request object that the middleware fills in. */
  class AuthRequest {
    const cookieHeader: Option<string>
    var user: Option<UserRow>
    var session: Option<SessionInfo>

    constructor (cookieHeader: Option<string>)
      ensures this.cookieHeader == cookieHeader && user == None && session == None
    {
      this.cookieHeader := cookieHeader;
      user := None;
      session := None;
    }

    /** `requireAuth`: the decision, and on success `req.user` and `req.session` set from the session found. */
    method RequireAuth(decode: string -> Option<string>, sessions: Option<seq<Session>>, now: int) returns (d: AuthDecision)
      modifies this
      ensures d == RequireAuthDecision(cookieHeader, decode, sessions, now)
      ensures d.Attach? ==> user == Some(d.user) && session == Some(d.session)
      ensures !d.Attach? ==> user == old(user) && session == old(session)
    {
      var token := GetSessionToken(cookieHeader, decode);
      if token.DecodeError? {
        return InternalError;
      }
      if token.NoToken? {
        return Unauthorized;
      }
      if sessions.None? {
        return InternalError;
      }
      var found := FindSession(sessions.value, token.token, now);
      if found.None? {
        return Unauthorized;
      }
      var s := found.value;
      if s.user.banned {
        if s.user.banExpires.None? || s.user.banExpires.value > now {
          return AccountBanned(s.user.banReason, s.user.banExpires);
        }
      }
      user := Some(s.user);
      session := Some(s.info);
      d := Attach(s.user, s.info);
    }

    /** `optionalAuth`: attaches the user and session when a session exists and the user is not banned; always goes on. */
    method OptionalAuth(decode: string -> Option<string>, sessions: Option<seq<Session>>, now: int)
      modifies this
      ensures var o := OptionalAuthAttach(cookieHeader, decode, sessions, now);
        if o.Some? then user == Some(o.value.user) && session == Some(o.value.info)
        else user == old(user) && session == old(session)
    {
      var token := GetSessionToken(cookieHeader, decode);
      if !token.Token? || sessions.None? {
        return;
      }
      var found := FindSession(sessions.value, token.token, now);
      if found.Some? && !found.value.user.banned {
        user := Some(found.value.user);
        session := Some(found.value.info);
      }
    }
  }
}
