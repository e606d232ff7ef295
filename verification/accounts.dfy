/** User rows as the service overwrites them: sign-in, roles, API keys, session revocation. */
module Accounts {
  import opened Outcomes
  import opened Sequences
  import opened Text
  import opened Units

  const API_KEY_LOOKUP_PREFIX_LENGTH := 11
  const API_KEY_TTL := 30 * DAY
  const USER_SESSION_TTL_SECONDS := 30 * 24 * 60 * 60
  const STAFF_SESSION_TTL_SECONDS := 7 * 24 * 60 * 60

  datatype Role = Plain | Editor | Admin

  predicate IsStaff(role: Role) {
    role == Editor || role == Admin
  }

  /** `keyHash` holds the secret it was made from: a hash matches that secret only.
      Instants are microseconds. */
  datatype User = User(
    id: int,
    email: string,
    name: string,
    googleId: Option<string>,
    pictureUrl: Option<string>,
    authProvider: string,
    role: Role,
    keyPrefix: Option<string>,
    keyHash: Option<string>,
    keyName: Option<string>,
    keyCreatedAt: Option<int>,
    keyLastUsedAt: Option<int>,
    keyRevokedAt: Option<int>,
    lastLoginAt: Option<int>,
    sessionsInvalidatedAt: Option<int>)

  datatype Table = Table(rows: seq<User>, nextId: int)

  datatype Error = Unauthorized | Forbidden | NotFound | Conflict | Broken

  datatype Event =
    | SignIn(email: string, name: string, googleId: Option<string>, pictureUrl: Option<string>, now: int)
    | Issue(actor: int, target: int, keyName: Option<string>, secret: string, now: int)
    | Revoke(actor: int, target: int, now: int)
    | SetRole(actor: int, target: int, role: Role, now: int)
    | Logout(actor: int, now: int)

  /** What happened, as the service's log records it. */
  datatype Entry =
    | SignedIn(user: int, at: int)
    | Issued(user: int, secret: string, at: int)
    | Revoked(user: int, at: int)
    | RoleChanged(user: int, role: Role, grantor: int)
    | LoggedOut(user: int, at: int)

  datatype Effect =
    | Refuse(error: Error)
    | Insert(row: User, entry: Entry)
    | Replace(index: nat, row: User, entry: Entry)

  // ---- Lookups -----------------------------------------------------------------------

  function FindUser(rows: seq<User>, id: int): (found: Option<nat>)
    ensures found.Some? ==> found.value < |rows| && rows[found.value].id == id
    ensures found.None? ==> forall i :: 0 <= i < |rows| ==> rows[i].id != id
  {
    if rows == [] then None
    else if rows[|rows| - 1].id == id then Some(|rows| - 1)
    else FindUser(rows[..|rows| - 1], id)
  }

  function FindEmail(rows: seq<User>, email: string): (found: Option<nat>)
    ensures found.Some? ==> found.value < |rows| && rows[found.value].email == email
    ensures found.None? ==> forall i :: 0 <= i < |rows| ==> rows[i].email != email
  {
    if rows == [] then None
    else if rows[|rows| - 1].email == email then Some(|rows| - 1)
    else FindEmail(rows[..|rows| - 1], email)
  }

  function FindPrefix(rows: seq<User>, prefix: string): (found: Option<nat>)
    ensures found.Some? ==> found.value < |rows| && rows[found.value].keyPrefix == Some(prefix)
    ensures found.None? ==> forall i :: 0 <= i < |rows| ==> rows[i].keyPrefix != Some(prefix)
  {
    if rows == [] then None
    else if rows[|rows| - 1].keyPrefix == Some(prefix) then Some(|rows| - 1)
    else FindPrefix(rows[..|rows| - 1], prefix)
  }

  /** Would the unique index on the key prefix refuse this prefix for row `id`? */
  predicate PrefixTaken(rows: seq<User>, prefix: string, id: int): (taken: bool)
    ensures taken <==> exists i :: 0 <= i < |rows| && rows[i].keyPrefix == Some(prefix) && rows[i].id != id
  {
    if rows == [] then false
    else
      var last := rows[|rows| - 1];
      (last.keyPrefix == Some(prefix) && last.id != id) || PrefixTaken(rows[..|rows| - 1], prefix, id)
  }

  /** Would the unique constraint on the Google id refuse this value for row `id`? */
  predicate GoogleIdTaken(rows: seq<User>, googleId: Option<string>, id: int): (taken: bool)
    ensures taken <==> googleId.Some? && exists i :: 0 <= i < |rows| && rows[i].googleId == googleId && rows[i].id != id
  {
    if rows == [] || googleId.None? then false
    else
      var last := rows[|rows| - 1];
      (last.googleId == googleId && last.id != id) || GoogleIdTaken(rows[..|rows| - 1], googleId, id)
  }

  function KeyPrefix(secret: string): string {
    Take(secret, API_KEY_LOOKUP_PREFIX_LENGTH)
  }

  // ---- The steps ---------------------------------------------------------------------

  function BeforeAt(email: string): string {
    if email == "" || email[0] == '@' then "" else [email[0]] + BeforeAt(email[1..])
  }

  predicate Given(value: Option<string>) {
    value.Some? && value.value != ""
  }

  function NewUser(
      id: int, email: string, name: string, googleId: Option<string>, pictureUrl: Option<string>, now: int): User
  {
    User(id, email, if name != "" then name else BeforeAt(email), googleId, pictureUrl, "google", Plain,
         None, None, None, None, None, None, Some(now), None)
  }

  function Refreshed(u: User, name: string, googleId: Option<string>, pictureUrl: Option<string>, now: int): User {
    u.(googleId := if Given(googleId) then googleId else u.googleId,
       pictureUrl := if Given(pictureUrl) then pictureUrl else u.pictureUrl,
       name := if name != "" then name else u.name,
       authProvider := "google",
       lastLoginAt := Some(now))
  }

  function WithKey(u: User, name: Option<string>, secret: string, now: int): User {
    u.(keyPrefix := Some(KeyPrefix(secret)), keyHash := Some(secret), keyName := name,
       keyCreatedAt := Some(now), keyLastUsedAt := None, keyRevokedAt := None)
  }

  /** `require_role(ADMIN)`: nobody, somebody else, or an admin. */
  function Guard(t: Table, actor: int): Option<Error> {
    match FindUser(t.rows, actor)
    case None => Some(Unauthorized)
    case Some(i) => if t.rows[i].role == Admin then None else Some(Forbidden)
  }

  function Plan(t: Table, e: Event): Effect {
    match e
    case SignIn(email, name, googleId, pictureUrl, now) =>
      var normalized := Lower(Strip(email));
      (match FindEmail(t.rows, normalized)
       case None =>
         if GoogleIdTaken(t.rows, googleId, t.nextId) then Refuse(Broken)
         else Insert(NewUser(t.nextId, normalized, name, googleId, pictureUrl, now), SignedIn(t.nextId, now))
       case Some(i) =>
         var row := Refreshed(t.rows[i], name, googleId, pictureUrl, now);
         if GoogleIdTaken(t.rows, row.googleId, row.id) then Refuse(Broken)
         else Replace(i, row, SignedIn(row.id, now)))
    case Issue(actor, target, name, secret, now) =>
      if Guard(t, actor).Some? then Refuse(Guard(t, actor).value)
      else (match FindUser(t.rows, target)
        case None => Refuse(NotFound)
        case Some(i) =>
          if !IsStaff(t.rows[i].role) then Refuse(Forbidden)
          else if PrefixTaken(t.rows, KeyPrefix(secret), target) then Refuse(Broken)
          else Replace(i, WithKey(t.rows[i], name, secret, now), Issued(target, secret, now)))
    case Revoke(actor, target, now) =>
      if Guard(t, actor).Some? then Refuse(Guard(t, actor).value)
      else (match FindUser(t.rows, target)
        case None => Refuse(NotFound)
        case Some(i) =>
          if t.rows[i].keyHash.None? then Refuse(NotFound)
          else Replace(i, t.rows[i].(keyRevokedAt := Some(now)), Revoked(target, now)))
    case SetRole(actor, target, role, _) =>
      if Guard(t, actor).Some? then Refuse(Guard(t, actor).value)
      else if actor == target then Refuse(Conflict)
      else (match FindUser(t.rows, target)
        case None => Refuse(NotFound)
        case Some(i) => Replace(i, t.rows[i].(role := role), RoleChanged(target, role, actor)))
    case Logout(actor, now) =>
      (match FindUser(t.rows, actor)
       case None => Refuse(Unauthorized)
       case Some(i) => Replace(i, t.rows[i].(sessionsInvalidatedAt := Some(now)), LoggedOut(actor, now)))
  }

  function Apply(t: Table, effect: Effect): Table {
    match effect
    case Refuse(_) => t
    case Insert(row, _) => Table(t.rows + [row], t.nextId + 1)
    case Replace(i, row, _) => if i < |t.rows| then t.(rows := t.rows[i := row]) else t
  }

  function Record(log: seq<Entry>, effect: Effect): seq<Entry> {
    match effect
    case Refuse(_) => log
    case Insert(_, entry) => log + [entry]
    case Replace(_, _, entry) => log + [entry]
  }

  function Run(t: Table, events: seq<Event>): Table {
    if events == [] then t
    else
      var before := Run(t, events[..|events| - 1]);
      Apply(before, Plan(before, events[|events| - 1]))
  }

  /** The log of a run: one entry for each request that went through. */
  function Log(t: Table, events: seq<Event>): seq<Entry> {
    if events == [] then []
    else
      var front := events[..|events| - 1];
      Record(Log(t, front), Plan(Run(t, front), events[|events| - 1]))
  }

  // ---- The store, updated in place -----------------------------------------------------

  class UserStore {
    var rows: seq<User>
    var nextId: int

    ghost function Value(): Table
      reads this
    {
      Table(rows, nextId)
    }

    constructor (rows: seq<User>, nextId: int)
      ensures Value() == Table(rows, nextId)
    {
      this.rows := rows;
      this.nextId := nextId;
    }

    method UpsertOauthUser(email: string, name: string, googleId: Option<string>, pictureUrl: Option<string>, now: int)
      returns (r: Result<User, Error>)
      modifies this
      ensures var effect := Plan(old(Value()), SignIn(email, name, googleId, pictureUrl, now));
              && Value() == Apply(old(Value()), effect)
              && r == (if effect.Refuse? then Err(effect.error) else Ok(effect.row))
    {
      var normalized := Lower(Strip(email));
      var found := FindEmail(rows, normalized);
      var user: User;
      if found.None? {
        user := User(nextId, normalized, if name != "" then name else BeforeAt(normalized), googleId, pictureUrl,
                     "google", Plain, None, None, None, None, None, None, None, None);
      } else {
        user := rows[found.value];
        if Given(googleId) {
          user := user.(googleId := googleId);
        }
        if Given(pictureUrl) {
          user := user.(pictureUrl := pictureUrl);
        }
        if name != "" {
          user := user.(name := name);
        }
        user := user.(authProvider := "google");
      }
      user := user.(lastLoginAt := Some(now));
      if GoogleIdTaken(rows, user.googleId, user.id) {
        return Err(Broken);
      }
      if found.None? {
        rows := rows + [user];
        nextId := nextId + 1;
      } else {
        rows := rows[found.value := user];
      }
      r := Ok(user);
    }

    method IssueApiKey(actor: int, target: int, name: Option<string>, secret: string, now: int)
      returns (r: Result<string, Error>)
      modifies this
      ensures var effect := Plan(old(Value()), Issue(actor, target, name, secret, now));
              Value() == Apply(old(Value()), effect) && r == (if effect.Refuse? then Err(effect.error) else Ok(secret))
    {
      var guard := Guard(Table(rows, nextId), actor);
      if guard.Some? {
        return Err(guard.value);
      }
      var found := FindUser(rows, target);
      if found.None? {
        return Err(NotFound);
      }
      var user := rows[found.value];
      if !IsStaff(user.role) {
        return Err(Forbidden);
      }
      user := user.(keyPrefix := Some(KeyPrefix(secret)));
      user := user.(keyHash := Some(secret));
      user := user.(keyName := name);
      user := user.(keyCreatedAt := Some(now));
      user := user.(keyLastUsedAt := None);
      user := user.(keyRevokedAt := None);
      if PrefixTaken(rows, KeyPrefix(secret), target) {
        return Err(Broken);
      }
      rows := rows[found.value := user];
      r := Ok(secret);
    }

    method RevokeApiKey(actor: int, target: int, now: int) returns (r: Result<(), Error>)
      modifies this
      ensures var effect := Plan(old(Value()), Revoke(actor, target, now));
              Value() == Apply(old(Value()), effect) && r == (if effect.Refuse? then Err(effect.error) else Ok(()))
    {
      var guard := Guard(Table(rows, nextId), actor);
      if guard.Some? {
        return Err(guard.value);
      }
      var found := FindUser(rows, target);
      if found.None? {
        return Err(NotFound);
      }
      if rows[found.value].keyHash.None? {
        return Err(NotFound);
      }
      rows := rows[found.value := rows[found.value].(keyRevokedAt := Some(now))];
      r := Ok(());
    }

    method UpdateRole(actor: int, target: int, role: Role, now: int) returns (r: Result<User, Error>)
      modifies this
      ensures var effect := Plan(old(Value()), SetRole(actor, target, role, now));
              && Value() == Apply(old(Value()), effect)
              && r == (if effect.Refuse? then Err(effect.error) else Ok(effect.row))
    {
      var guard := Guard(Table(rows, nextId), actor);
      if guard.Some? {
        return Err(guard.value);
      }
      if actor == target {
        return Err(Conflict);
      }
      var found := FindUser(rows, target);
      if found.None? {
        return Err(NotFound);
      }
      var user := rows[found.value].(role := role);
      rows := rows[found.value := user];
      r := Ok(user);
    }

    method InvalidateSessions(actor: int, now: int) returns (r: Result<(), Error>)
      modifies this
      ensures var effect := Plan(old(Value()), Logout(actor, now));
              Value() == Apply(old(Value()), effect) && r == (if effect.Refuse? then Err(effect.error) else Ok(()))
    {
      var found := FindUser(rows, actor);
      if found.None? {
        return Err(Unauthorized);
      }
      rows := rows[found.value := rows[found.value].(sessionsInvalidatedAt := Some(now))];
      r := Ok(());
    }
  }

  // ---- API keys, decided from the fields -------------------------------------------------

  predicate IsExpired(u: User, now: int) {
    u.keyCreatedAt.None? || now >= u.keyCreatedAt.value + API_KEY_TTL
  }

  predicate IsActive(u: User, now: int) {
    u.keyHash.Some? && u.keyRevokedAt.None? && IsStaff(u.role) && !IsExpired(u, now)
  }

  function ResolveApiKey(rows: seq<User>, candidate: string, now: int): Option<User> {
    match FindPrefix(rows, KeyPrefix(candidate))
    case None => None
    case Some(i) => if rows[i].keyHash == Some(candidate) && IsActive(rows[i], now) then Some(rows[i]) else None
  }

  // ---- Sessions, decided from the token and one field ------------------------------------

  /** The signed claims; `iat` and `exp` are whole seconds. */
  datatype Token = Token(sub: int, email: string, iat: int, exp: int)

  function TtlForRole(role: Role): int {
    if IsStaff(role) then STAFF_SESSION_TTL_SECONDS else USER_SESSION_TTL_SECONDS
  }

  function MintSessionToken(userId: int, email: string, role: Role, now: int): Token {
    var issuedAt := now / SECOND;
    Token(userId, Lower(Strip(email)), issuedAt, issuedAt + TtlForRole(role))
  }

  /** Expired at `exp`, not yet valid before `iat`. */
  predicate VerifySessionToken(token: Token, now: int) {
    now < token.exp * SECOND && token.iat * SECOND <= now
  }

  predicate IsRevoked(token: Token, invalidatedAt: Option<int>) {
    invalidatedAt.Some? && token.iat * SECOND <= invalidatedAt.value
  }

  /** `current_user` on a session token. */
  predicate SessionAccepted(rows: seq<User>, token: Token, now: int) {
    && VerifySessionToken(token, now)
    && FindUser(rows, token.sub).Some?
    && !IsRevoked(token, rows[FindUser(rows, token.sub).value].sessionsInvalidatedAt)
  }
}
