/** The overwritten user fields answer the same questions as the full event log. */
module History {
  import opened Outcomes
  import opened Text
  import opened Units
  import opened Accounts

  // ---- Reading the log -----------------------------------------------------------------

  predicate IsIssueOf(e: Entry, user: int) {
    e.Issued? && e.user == user
  }

  predicate IsRevokeOf(e: Entry, user: int) {
    e.Revoked? && e.user == user
  }

  predicate IsLogoutOf(e: Entry, user: int) {
    e.LoggedOut? && e.user == user
  }

  /** Entry `i` is the latest issue for the user. */
  ghost predicate LatestIssue(log: seq<Entry>, user: int, i: nat) {
    && i < |log| && IsIssueOf(log[i], user)
    && forall j :: i < j < |log| ==> !IsIssueOf(log[j], user)
  }

  ghost predicate RevokedSince(log: seq<Entry>, user: int, i: nat) {
    exists j :: i < j < |log| && IsRevokeOf(log[j], user)
  }

  ghost predicate NeverIssued(log: seq<Entry>, user: int) {
    forall j :: 0 <= j < |log| ==> !IsIssueOf(log[j], user)
  }

  // ---- What ties the fields to the log ---------------------------------------------------

  ghost predicate KeyAgrees(u: User, log: seq<Entry>) {
    if u.keyHash.None? then NeverIssued(log, u.id) && u.keyPrefix.None?
    else exists i :: KeyFrom(u, log, i)
  }

  /** The key fields were written by the issue at entry `i`. */
  ghost predicate KeyFrom(u: User, log: seq<Entry>, i: nat) {
    && LatestIssue(log, u.id, i)
    && u.keyHash == Some(log[i].secret) && u.keyPrefix == Some(KeyPrefix(log[i].secret))
    && u.keyCreatedAt == Some(log[i].at)
    && (u.keyRevokedAt.Some? <==> RevokedSince(log, u.id, i))
  }

  /** The revocation stamp is a logged logout, and bounds every logout of the user. */
  ghost predicate LogoutAgrees(u: User, log: seq<Entry>) {
    match u.sessionsInvalidatedAt
    case None => forall j :: 0 <= j < |log| ==> !IsLogoutOf(log[j], u.id)
    case Some(at) =>
      && (exists j :: 0 <= j < |log| && log[j] == LoggedOut(u.id, at))
      && forall j :: 0 <= j < |log| && IsLogoutOf(log[j], u.id) ==> log[j].at <= at
  }

  /** `id` is the primary key and `api_key_prefix` carries a unique index. */
  ghost predicate WellFormed(t: Table) {
    && (forall i, j :: 0 <= i < j < |t.rows| ==> t.rows[i].id != t.rows[j].id)
    && (forall i, j :: 0 <= i < j < |t.rows| && t.rows[i].keyPrefix.Some? ==>
          t.rows[i].keyPrefix != t.rows[j].keyPrefix)
    && (forall i :: 0 <= i < |t.rows| ==> t.rows[i].id < t.nextId)
  }

  ghost predicate LogInRange(log: seq<Entry>, nextId: int) {
    forall j :: 0 <= j < |log| ==> log[j].user < nextId
  }

  /** Where a run starts: nobody holds a key, nobody was signed out. */
  ghost predicate Fresh(t: Table) {
    && WellFormed(t)
    && forall i :: 0 <= i < |t.rows| ==>
         t.rows[i].keyHash.None? && t.rows[i].keyPrefix.None? && t.rows[i].sessionsInvalidatedAt.None?
  }

  ghost predicate Agrees(t: Table, log: seq<Entry>) {
    && WellFormed(t) && LogInRange(log, t.nextId)
    && forall i :: 0 <= i < |t.rows| ==> KeyAgrees(t.rows[i], log) && LogoutAgrees(t.rows[i], log)
  }

  /** Event times never go back. */
  ghost predicate Monotone(events: seq<Event>) {
    forall i, j :: 0 <= i < j < |events| ==> events[i].now <= events[j].now
  }

  // ---- One step ---------------------------------------------------------------------------

  lemma KeyAgreesLater(u: User, v: User, log: seq<Entry>, e: Entry)
    requires KeyAgrees(u, log) && !IsIssueOf(e, u.id) && !IsRevokeOf(e, u.id)
    requires v.id == u.id && v.keyHash == u.keyHash && v.keyPrefix == u.keyPrefix
    requires v.keyCreatedAt == u.keyCreatedAt && v.keyRevokedAt == u.keyRevokedAt
    ensures KeyAgrees(v, log + [e])
  {
    var later := log + [e];
    if u.keyHash.Some? {
      var i: nat :| KeyFrom(u, log, i);
      assert later[i] == log[i];
      assert RevokedSince(log, u.id, i) <==> RevokedSince(later, u.id, i) by {
        if RevokedSince(log, u.id, i) {
          var j :| i < j < |log| && IsRevokeOf(log[j], u.id);
          assert IsRevokeOf(later[j], u.id);
        }
        if RevokedSince(later, u.id, i) {
          var j :| i < j < |later| && IsRevokeOf(later[j], u.id);
          assert IsRevokeOf(log[j], u.id);
        }
      }
      assert KeyFrom(v, later, i);
    }
  }

  lemma KeyAgreesIssued(u: User, name: Option<string>, log: seq<Entry>, secret: string, at: int)
    ensures KeyAgrees(WithKey(u, name, secret, at), log + [Issued(u.id, secret, at)])
  {
    assert KeyFrom(WithKey(u, name, secret, at), log + [Issued(u.id, secret, at)], |log|);
  }

  lemma KeyAgreesRevoked(u: User, log: seq<Entry>, at: int)
    requires KeyAgrees(u, log) && u.keyHash.Some?
    ensures KeyAgrees(u.(keyRevokedAt := Some(at)), log + [Revoked(u.id, at)])
  {
    var later := log + [Revoked(u.id, at)];
    var i: nat :| KeyFrom(u, log, i);
    assert later[i] == log[i];
    assert IsRevokeOf(later[|log|], u.id);
    assert KeyFrom(u.(keyRevokedAt := Some(at)), later, i);
  }

  lemma LogoutAgreesLater(u: User, v: User, log: seq<Entry>, e: Entry)
    requires LogoutAgrees(u, log) && !IsLogoutOf(e, u.id)
    requires v.id == u.id && v.sessionsInvalidatedAt == u.sessionsInvalidatedAt
    ensures LogoutAgrees(v, log + [e])
  {
    var later := log + [e];
    if u.sessionsInvalidatedAt.Some? {
      var j :| 0 <= j < |log| && log[j] == LoggedOut(u.id, u.sessionsInvalidatedAt.value);
      assert later[j] == log[j];
    }
  }

  lemma LogoutAgreesNow(u: User, log: seq<Entry>, at: int)
    requires forall j :: 0 <= j < |log| && IsLogoutOf(log[j], u.id) ==> log[j].at <= at
    ensures LogoutAgrees(u.(sessionsInvalidatedAt := Some(at)), log + [LoggedOut(u.id, at)])
  {
    var later := log + [LoggedOut(u.id, at)];
    assert later[|log|] == LoggedOut(u.id, at);
  }

  /** Logouts on record are no later than `now`. */
  ghost predicate LogoutsBy(log: seq<Entry>, now: int) {
    forall j :: 0 <= j < |log| && log[j].LoggedOut? ==> log[j].at <= now
  }

  ghost predicate RowAgrees(u: User, log: seq<Entry>) {
    KeyAgrees(u, log) && LogoutAgrees(u, log)
  }

  /** The row a step writes agrees with the log it leaves. */
  lemma WrittenRowAgrees(t: Table, log: seq<Entry>, e: Event)
    requires Agrees(t, log) && LogoutsBy(log, e.now) && Plan(t, e).Replace?
    ensures var effect := Plan(t, e);
            && effect.index < |t.rows| && effect.row.id == t.rows[effect.index].id == effect.entry.user
            && RowAgrees(effect.row, log + [effect.entry])
  {
    var effect := Plan(t, e);
    var u := t.rows[effect.index];
    match e
    case SignIn(_, _, _, _, _) =>
      KeyAgreesLater(u, effect.row, log, effect.entry);
      LogoutAgreesLater(u, effect.row, log, effect.entry);
    case Issue(_, _, name, secret, now) =>
      KeyAgreesIssued(u, name, log, secret, now);
      LogoutAgreesLater(u, effect.row, log, effect.entry);
    case Revoke(_, _, now) =>
      KeyAgreesRevoked(u, log, now);
      LogoutAgreesLater(u, effect.row, log, effect.entry);
    case SetRole(_, _, _, _) =>
      KeyAgreesLater(u, effect.row, log, effect.entry);
      LogoutAgreesLater(u, effect.row, log, effect.entry);
    case Logout(_, now) =>
      KeyAgreesLater(u, effect.row, log, effect.entry);
      LogoutAgreesNow(u, log, now);
  }

  lemma OtherRowAgrees(u: User, log: seq<Entry>, e: Entry)
    requires RowAgrees(u, log) && e.user != u.id
    ensures RowAgrees(u, log + [e])
  {
    KeyAgreesLater(u, u, log, e);
    LogoutAgreesLater(u, u, log, e);
  }

  lemma NewRowAgrees(u: User, log: seq<Entry>, at: int)
    requires LogInRange(log, u.id)
    requires u.keyHash.None? && u.keyPrefix.None? && u.sessionsInvalidatedAt.None?
    ensures RowAgrees(u, log + [SignedIn(u.id, at)])
  {
  }

  /** What an effect may write without breaking the unique constraints. */
  ghost predicate Fits(t: Table, effect: Effect) {
    match effect
    case Refuse(_) => true
    case Insert(row, _) => row.id == t.nextId && row.keyPrefix.None?
    case Replace(k, row, _) =>
      && k < |t.rows| && row.id == t.rows[k].id
      && (row.keyPrefix == t.rows[k].keyPrefix
          || (row.keyPrefix.Some? && !PrefixTaken(t.rows, row.keyPrefix.value, row.id)))
  }

  lemma PlanFits(t: Table, e: Event)
    ensures Fits(t, Plan(t, e))
  {
  }

  lemma ReplaceKeepsPrefixes(t: Table, k: nat, row: User)
    requires WellFormed(t) && k < |t.rows| && row.id == t.rows[k].id
    requires row.keyPrefix == t.rows[k].keyPrefix
             || (row.keyPrefix.Some? && !PrefixTaken(t.rows, row.keyPrefix.value, row.id))
    ensures WellFormed(t.(rows := t.rows[k := row]))
  {
    forall i | 0 <= i < |t.rows| && i != k && row.keyPrefix.Some?
      ensures t.rows[i].keyPrefix != row.keyPrefix
    {
      assert t.rows[i].id != row.id;
    }
  }

  lemma StepWellFormed(t: Table, e: Event)
    requires WellFormed(t)
    ensures WellFormed(Apply(t, Plan(t, e)))
  {
    PlanFits(t, e);
    var effect := Plan(t, e);
    if effect.Replace? {
      ReplaceKeepsPrefixes(t, effect.index, effect.row);
    }
  }

  lemma InsertAgrees(t: Table, log: seq<Entry>, row: User, at: int)
    requires Agrees(t, log) && row.id == t.nextId && WellFormed(Table(t.rows + [row], t.nextId + 1))
    requires row.keyHash.None? && row.keyPrefix.None? && row.sessionsInvalidatedAt.None?
    ensures Agrees(Table(t.rows + [row], t.nextId + 1), log + [SignedIn(row.id, at)])
  {
    NewRowAgrees(row, log, at);
    forall i | 0 <= i < |t.rows|
      ensures RowAgrees(t.rows[i], log + [SignedIn(row.id, at)])
    {
      OtherRowAgrees(t.rows[i], log, SignedIn(row.id, at));
    }
  }

  lemma ReplaceAgrees(t: Table, log: seq<Entry>, k: nat, row: User, entry: Entry)
    requires Agrees(t, log) && k < |t.rows| && row.id == t.rows[k].id == entry.user
    requires RowAgrees(row, log + [entry]) && WellFormed(t.(rows := t.rows[k := row]))
    ensures Agrees(t.(rows := t.rows[k := row]), log + [entry])
  {
    forall i | 0 <= i < |t.rows| && i != k
      ensures RowAgrees(t.rows[i], log + [entry])
    {
      OtherRowAgrees(t.rows[i], log, entry);
    }
  }

  lemma {:induction false} RunWellFormed(t: Table, events: seq<Event>)
    requires WellFormed(t)
    ensures WellFormed(Run(t, events))
  {
    if events != [] {
      RunWellFormed(t, events[..|events| - 1]);
      StepWellFormed(Run(t, events[..|events| - 1]), events[|events| - 1]);
    }
  }

  lemma StepAgrees(t: Table, log: seq<Entry>, e: Event)
    requires Agrees(t, log) && LogoutsBy(log, e.now)
    ensures Agrees(Apply(t, Plan(t, e)), Record(log, Plan(t, e)))
  {
    var effect := Plan(t, e);
    StepWellFormed(t, e);
    if effect.Insert? {
      InsertAgrees(t, log, effect.row, e.now);
    } else if effect.Replace? {
      WrittenRowAgrees(t, log, e);
      ReplaceAgrees(t, log, effect.index, effect.row, effect.entry);
    }
  }

  lemma {:induction false} LogTimes(t: Table, events: seq<Event>, now: int)
    requires forall i :: 0 <= i < |events| ==> events[i].now <= now
    ensures LogoutsBy(Log(t, events), now)
  {
    if events != [] {
      var n := |events| - 1;
      LogTimes(t, events[..n], now);
      LogoutEntryTime(Run(t, events[..n]), events[n]);
    }
  }

  lemma LogoutEntryTime(t: Table, e: Event)
    ensures var effect := Plan(t, e);
            && (effect.Insert? ==> !effect.entry.LoggedOut?)
            && (effect.Replace? && effect.entry.LoggedOut? ==> effect.entry.at == e.now)
  {
  }

  lemma RecordAppends(past: seq<Entry>, log: seq<Entry>, effect: Effect)
    ensures Record(past + log, effect) == past + Record(log, effect)
  {
  }

  /** A run that goes on from a log of the past: the fields agree with that log,
      and no logout in it is later than the first event. */
  ghost predicate Continues(t: Table, past: seq<Entry>, events: seq<Event>) {
    && Agrees(t, past) && Monotone(events)
    && forall i :: 0 <= i < |events| ==> LogoutsBy(past, events[i].now)
  }

  /** A table in which nobody holds a key or was signed out agrees with an empty past. */
  lemma FreshContinues(t: Table, events: seq<Event>)
    requires Fresh(t) && Monotone(events)
    ensures Continues(t, [], events)
  {
  }

  lemma ContinuesPrefix(t: Table, past: seq<Entry>, events: seq<Event>)
    requires Continues(t, past, events) && events != []
    ensures var n := |events| - 1;
            Continues(t, past, events[..n]) && LogoutsBy(past + Log(t, events[..n]), events[n].now)
  {
    var n := |events| - 1;
    LogTimes(t, events[..n], events[n].now);
    assert forall i :: 0 <= i < n ==> events[..n][i] == events[i];
  }

  /** In every run with a monotone clock the fields and the log agree. */
  lemma {:induction false} RunAgrees(t: Table, past: seq<Entry>, events: seq<Event>)
    requires Continues(t, past, events)
    ensures Agrees(Run(t, events), past + Log(t, events))
  {
    if events == [] {
      assert past + Log(t, events) == past;
    } else {
      var n := |events| - 1;
      var before, log := Run(t, events[..n]), Log(t, events[..n]);
      ContinuesPrefix(t, past, events);
      RunAgrees(t, past, events[..n]);
      StepAgrees(before, past + log, events[n]);
      RecordAppends(past, log, Plan(before, events[n]));
    }
  }

  // ---- API keys -------------------------------------------------------------------------------

  /** Entry `i` made `secret` the user's current, unrevoked, unexpired key. */
  ghost predicate LiveKey(log: seq<Entry>, user: int, secret: string, now: int, i: nat) {
    && LatestIssue(log, user, i) && log[i].secret == secret
    && !RevokedSince(log, user, i)
    && now < log[i].at + API_KEY_TTL
  }

  /** The log alone says that the user holds `secret` as a working key. */
  ghost predicate HoldsKey(log: seq<Entry>, user: int, secret: string, now: int) {
    exists i :: LiveKey(log, user, secret, now, i)
  }

  lemma PrefixFindsHolder(t: Table, k: nat)
    requires WellFormed(t) && k < |t.rows| && t.rows[k].keyPrefix.Some?
    ensures FindPrefix(t.rows, t.rows[k].keyPrefix.value) == Some(k)
  {
    var found := FindPrefix(t.rows, t.rows[k].keyPrefix.value);
    if found.Some? && found.value != k {
      assert false;
    }
  }

  lemma ResolvesIff(t: Table, log: seq<Entry>, k: nat, candidate: string, now: int)
    requires Agrees(t, log) && k < |t.rows|
    ensures ResolveApiKey(t.rows, candidate, now) == Some(t.rows[k]) <==>
            IsStaff(t.rows[k].role) && HoldsKey(log, t.rows[k].id, candidate, now)
  {
    var u := t.rows[k];
    if ResolveApiKey(t.rows, candidate, now) == Some(u) {
      var i: nat :| KeyFrom(u, log, i);
      assert LiveKey(log, u.id, candidate, now, i);
    }
    if IsStaff(u.role) && HoldsKey(log, u.id, candidate, now) {
      var i: nat :| LiveKey(log, u.id, candidate, now, i);
      assert u.keyHash.Some?;
      var j: nat :| KeyFrom(u, log, j);
      assert i == j;
      PrefixFindsHolder(t, k);
    }
  }

  lemma HoldsKeyIff(log: seq<Entry>, user: int, secret: string, now: int)
    ensures HoldsKey(log, user, secret, now) <==>
            exists i :: 0 <= i < |log|
              && log[i].Issued? && log[i].user == user && log[i].secret == secret
              && now < log[i].at + 30 * 24 * 3600 * 1000000
              && forall j :: i < j < |log| && log[j].user == user ==> !log[j].Issued? && !log[j].Revoked?
  {
    if HoldsKey(log, user, secret, now) {
      var i: nat :| LiveKey(log, user, secret, now, i);
      forall j | i < j < |log| && log[j].user == user
        ensures !log[j].Issued? && !log[j].Revoked?
      {
        assert !IsIssueOf(log[j], user) && !IsRevokeOf(log[j], user);
      }
    }
    if i: int :|
      && 0 <= i < |log| && log[i].Issued? && log[i].user == user && log[i].secret == secret
      && now < log[i].at + 30 * 24 * 3600 * 1000000
      && forall j :: i < j < |log| && log[j].user == user ==> !log[j].Issued? && !log[j].Revoked?
    {
      assert LiveKey(log, user, secret, now, i);
    }
  }

  /** In every run, a candidate resolves to a user exactly when the log says that it
      is the secret of that user's latest issue, no revoke came after it, it is under
      30 days old, and the user is an editor or an admin. */
  lemma KeyResolvesByHistory(t: Table, past: seq<Entry>, events: seq<Event>, k: nat, candidate: string, now: int)
    requires Continues(t, past, events) && k < |Run(t, events).rows|
    ensures var u := Run(t, events).rows[k];
            var log := past + Log(t, events);
            var role := LoggedRole(RoleOf(t, u.id), Log(t, events), u.id);
            ResolveApiKey(Run(t, events).rows, candidate, now) == Some(u) <==>
              && (role == Some(Editor) || role == Some(Admin))
              && exists i :: 0 <= i < |log|
                   && log[i].Issued? && log[i].user == u.id && log[i].secret == candidate
                   && now < log[i].at + 30 * 24 * 3600 * 1000000
                   && forall j :: i < j < |log| && log[j].user == u.id ==> !log[j].Issued? && !log[j].Revoked?
  {
    var after := Run(t, events);
    RunAgrees(t, past, events);
    RoleByHistory(t, events, after.rows[k].id);
    FindUserAt(after, k);
    ResolvesIff(after, past + Log(t, events), k, candidate, now);
    HoldsKeyIff(past + Log(t, events), after.rows[k].id, candidate, now);
  }

  // ---- Sessions -------------------------------------------------------------------------------

  /** Every logout of the user was before `floor`. */
  ghost predicate NoLogoutFrom(log: seq<Entry>, user: int, floor: int) {
    forall j :: 0 <= j < |log| && log[j].LoggedOut? && log[j].user == user ==> log[j].at < floor
  }

  /** The claims of a session: whole seconds, 7 days for editors and admins, 30 for readers. */
  lemma MintedToken(user: int, email: string, role: Role, minted: int)
    ensures var token := MintSessionToken(user, email, role, minted);
            && token.sub == user && token.email == Lower(Strip(email))
            && token.iat * 1000000 <= minted < (token.iat + 1) * 1000000
            && token.exp == token.iat + (if role == Plain then 30 else 7) * 24 * 3600
  {
  }

  /** In every run with a monotone clock, a session minted at `minted` is accepted
      exactly from that second on, while it is unexpired, its user exists, and no logout
      of the user happened at or after `minted` rounded down to the second. */
  lemma SessionAcceptedByHistory(
      t: Table, past: seq<Entry>, events: seq<Event>, user: int, email: string, role: Role, minted: int, now: int)
    requires Continues(t, past, events)
    ensures SessionAccepted(Run(t, events).rows, MintSessionToken(user, email, role, minted), now) <==>
              && RoleOf(Run(t, events), user).Some?
              && minted / 1000000 * 1000000 <= now
              && now < minted / 1000000 * 1000000 + (if role == Plain then 30 else 7) * 24 * 3600 * 1000000
              && NoLogoutFrom(past + Log(t, events), user, minted / 1000000 * 1000000)
  {
    RunAgrees(t, past, events);
    AcceptedByLog(Run(t, events), past + Log(t, events), user, email, role, minted, now);
  }

  lemma AcceptedByLog(t: Table, log: seq<Entry>, user: int, email: string, role: Role, minted: int, now: int)
    requires Agrees(t, log)
    ensures SessionAccepted(t.rows, MintSessionToken(user, email, role, minted), now) <==>
              && RoleOf(t, user).Some?
              && minted / 1000000 * 1000000 <= now
              && now < minted / 1000000 * 1000000 + (if role == Plain then 30 else 7) * 24 * 3600 * 1000000
              && NoLogoutFrom(log, user, minted / 1000000 * 1000000)
  {
    assert SECOND == 1000000;
    if FindUser(t.rows, user).Some? {
      RevokedIff(t.rows[FindUser(t.rows, user).value], log, minted / 1000000 * 1000000);
    }
  }

  /** The one field against the whole log: was there a logout at or after `floor`? */
  lemma RevokedIff(u: User, log: seq<Entry>, floor: int)
    requires LogoutAgrees(u, log)
    ensures u.sessionsInvalidatedAt.Some? && floor <= u.sessionsInvalidatedAt.value <==>
            !NoLogoutFrom(log, u.id, floor)
  {
    if u.sessionsInvalidatedAt.Some? {
      var j :| 0 <= j < |log| && log[j] == LoggedOut(u.id, u.sessionsInvalidatedAt.value);
      assert IsLogoutOf(log[j], u.id);
    }
  }

  /** A session minted after every logout of its user can be dead, within its
      lifetime, only because a logout fell in the very second it was minted in. */
  lemma NewSessionDeadOnlyInLogoutSecond(
      t: Table, past: seq<Entry>, events: seq<Event>, user: int, email: string, role: Role, minted: int, now: int)
    requires Continues(t, past, events) && RoleOf(Run(t, events), user).Some?
    requires minted <= now < minted / 1000000 * 1000000 + (if role == Plain then 30 else 7) * 24 * 3600 * 1000000
    requires var log := past + Log(t, events);
             forall j :: 0 <= j < |log| && log[j].LoggedOut? && log[j].user == user ==> log[j].at <= minted
    ensures var log := past + Log(t, events);
            !SessionAccepted(Run(t, events).rows, MintSessionToken(user, email, role, minted), now) <==>
              exists j :: 0 <= j < |log| && log[j].LoggedOut? && log[j].user == user
                          && log[j].at / 1000000 == minted / 1000000
  {
    SessionAcceptedByHistory(t, past, events, user, email, role, minted, now);
    LogoutSecond(past + Log(t, events), user, minted);
  }

  lemma LogoutSecond(log: seq<Entry>, user: int, minted: int)
    requires forall j :: 0 <= j < |log| && log[j].LoggedOut? && log[j].user == user ==> log[j].at <= minted
    ensures NoLogoutFrom(log, user, minted / 1000000 * 1000000) <==>
            !exists j :: 0 <= j < |log| && log[j].LoggedOut? && log[j].user == user
                         && log[j].at / 1000000 == minted / 1000000
  {
    forall j | 0 <= j < |log| && log[j].LoggedOut? && log[j].user == user
      ensures log[j].at < minted / 1000000 * 1000000 <==> log[j].at / 1000000 != minted / 1000000
    {
      SameSecond(log[j].at, minted);
    }
  }

  lemma SameSecond(at: int, minted: int)
    requires at <= minted
    ensures at < minted / 1000000 * 1000000 <==> at / 1000000 != minted / 1000000
  {
  }

  // ---- Roles ----------------------------------------------------------------------------------

  ghost predicate HasAdmin(t: Table) {
    exists i :: 0 <= i < |t.rows| && t.rows[i].role == Admin
  }

  /** Refusing self-changes keeps the acting admin an admin. */
  lemma StepKeepsAdmin(t: Table, e: Event)
    requires HasAdmin(t)
    ensures HasAdmin(Apply(t, Plan(t, e)))
  {
    var after := Apply(t, Plan(t, e)).rows;
    var i :| 0 <= i < |t.rows| && t.rows[i].role == Admin;
    if e.SetRole? && Plan(t, e).Replace? {
      var a := FindUser(t.rows, e.actor).value;
      assert after[a] == t.rows[a];
    } else {
      assert after[i].role == Admin;
    }
  }

  /** Every run that starts with an admin ends with one. */
  lemma {:induction false} RunKeepsAdmin(t: Table, events: seq<Event>)
    requires HasAdmin(t)
    ensures HasAdmin(Run(t, events))
  {
    if events != [] {
      var n := |events| - 1;
      RunKeepsAdmin(t, events[..n]);
      StepKeepsAdmin(Run(t, events[..n]), events[n]);
    }
  }

  function RoleOf(t: Table, user: int): Option<Role> {
    match FindUser(t.rows, user)
    case None => None
    case Some(i) => Some(t.rows[i].role)
  }

  /** The role by the log: the last change granted, else the role the user came with. */
  function LoggedRole(first: Option<Role>, log: seq<Entry>, user: int): Option<Role> {
    if log == [] then first
    else
      var e := log[|log| - 1];
      if e.RoleChanged? && e.user == user then Some(e.role)
      else
        var before := LoggedRole(first, log[..|log| - 1], user);
        if e.SignedIn? && e.user == user && before.None? then Some(Plain) else before
  }

  lemma FindUserAt(t: Table, k: nat)
    requires WellFormed(t) && k < |t.rows|
    ensures FindUser(t.rows, t.rows[k].id) == Some(k)
  {
  }

  /** Writing one row moves the role of its user only. */
  lemma ReplaceMovesRole(t: Table, k: nat, row: User, user: int)
    requires WellFormed(t) && k < |t.rows| && row.id == t.rows[k].id
    requires WellFormed(t.(rows := t.rows[k := row]))
    ensures RoleOf(t.(rows := t.rows[k := row]), user) == if user == row.id then Some(row.role) else RoleOf(t, user)
  {
    var after := t.(rows := t.rows[k := row]);
    FindUserAt(after, k);
    var found := FindUser(t.rows, user);
    if found.Some? && user != row.id {
      assert after.rows[found.value] == t.rows[found.value];
      FindUserAt(after, found.value);
    }
  }

  lemma InsertMovesRole(t: Table, row: User, user: int)
    requires WellFormed(t) && row.id == t.nextId && row.keyPrefix.None?
    ensures RoleOf(Table(t.rows + [row], t.nextId + 1), user) ==
            if user == row.id then Some(row.role) else RoleOf(t, user)
    ensures RoleOf(t, row.id).None?
  {
    assert (t.rows + [row])[..|t.rows|] == t.rows;
  }

  /** A step changes a user's role only as a role change by another user who is an
      admin at that moment; signing in creates plain users and changes no role. */
  lemma StepRole(t: Table, e: Event, user: int)
    requires WellFormed(t)
    ensures var before, after := RoleOf(t, user), RoleOf(Apply(t, Plan(t, e)), user);
            && (before.Some? && after != before ==>
                  && e.SetRole? && e.target == user && e.actor != user
                  && RoleOf(t, e.actor) == Some(Admin) && after == Some(e.role))
            && (before.None? && after.Some? ==> e.SignIn? && after == Some(Plain))
  {
    RoleMoves(t, e, user);
  }

  /** The role a step leaves, by what it recorded. */
  lemma RoleMoves(t: Table, e: Event, user: int)
    requires WellFormed(t)
    ensures var effect := Plan(t, e);
            RoleOf(Apply(t, effect), user) ==
              match effect {
                case Refuse(_) => RoleOf(t, user)
                case Insert(row, _) => if user == row.id then Some(Plain) else RoleOf(t, user)
                case Replace(_, row, _) => if e.SetRole? && user == e.target then Some(e.role) else RoleOf(t, user)
              }
  {
    PlanFits(t, e);
    StepWellFormed(t, e);
    var effect := Plan(t, e);
    match effect
    case Refuse(_) =>
    case Insert(row, _) => InsertMovesRole(t, row, user);
    case Replace(k, row, _) =>
      ReplaceMovesRole(t, k, row, user);
      WrittenRole(t, e);
      FindUserAt(t, k);
  }

  /** A rewritten row keeps its role unless the request was a role change. */
  lemma WrittenRole(t: Table, e: Event)
    requires Plan(t, e).Replace?
    ensures var (k, row) := (Plan(t, e).index, Plan(t, e).row);
            && k < |t.rows| && row.id == t.rows[k].id
            && (e.SetRole? ==> row.id == e.target)
            && row.role == if e.SetRole? then e.role else t.rows[k].role
  {
  }

  lemma StepLoggedRole(t: Table, e: Event, user: int)
    requires WellFormed(t)
    ensures RoleOf(Apply(t, Plan(t, e)), user) == LoggedRole(RoleOf(t, user), Record([], Plan(t, e)), user)
  {
    RoleMoves(t, e, user);
    EntryTells(t, e);
    var effect := Plan(t, e);
    if effect.Insert? {
      PlanFits(t, e);
      InsertMovesRole(t, effect.row, user);
    }
    if !effect.Refuse? {
      LoggedRoleOne(RoleOf(t, user), effect.entry, user);
    }
  }

  /** What the entry of a request says about roles. */
  lemma EntryTells(t: Table, e: Event)
    requires WellFormed(t)
    ensures var effect := Plan(t, e);
            match effect {
              case Refuse(_) => true
              case Insert(row, entry) => entry.SignedIn? && entry.user == row.id
              case Replace(_, row, entry) =>
                && (e.SetRole? <==> entry.RoleChanged?)
                && (e.SetRole? ==> entry == RoleChanged(e.target, e.role, e.actor))
                && (entry.SignedIn? ==> RoleOf(t, entry.user).Some?)
            }
  {
    if e.SignIn? && Plan(t, e).Replace? {
      FindUserAt(t, Plan(t, e).index);
    }
  }

  lemma LoggedRoleOne(first: Option<Role>, e: Entry, user: int)
    ensures LoggedRole(first, [e], user) ==
            if e.RoleChanged? && e.user == user then Some(e.role)
            else if e.SignedIn? && e.user == user && first.None? then Some(Plain) else first
  {
    assert [e][..0] == [];
  }

  lemma {:induction false} LoggedRoleAppend(first: Option<Role>, log: seq<Entry>, more: seq<Entry>, user: int)
    ensures LoggedRole(first, log + more, user) == LoggedRole(LoggedRole(first, log, user), more, user)
  {
    if more == [] {
      assert log + more == log;
    } else {
      var n := |more| - 1;
      LoggedRoleAppend(first, log, more[..n], user);
      assert (log + more)[..|log + more| - 1] == log + more[..n];
    }
  }

  /** In every run, a user's role is the one last granted through the role route,
      or the one the user started with. */
  lemma {:induction false} RoleByHistory(t: Table, events: seq<Event>, user: int)
    requires WellFormed(t)
    ensures RoleOf(Run(t, events), user) == LoggedRole(RoleOf(t, user), Log(t, events), user)
  {
    if events != [] {
      var n := |events| - 1;
      RoleByHistory(t, events[..n], user);
      RunWellFormed(t, events[..n]);
      var before := Run(t, events[..n]);
      StepLoggedRole(before, events[n], user);
      var effect := Plan(before, events[n]);
      var log := Log(t, events[..n]);
      assert Record(log, effect) == log + Record([], effect);
      LoggedRoleAppend(RoleOf(t, user), log, Record([], effect), user);
    }
  }

  /** The entry at `i` was made by event `n`: another user, an admin at that moment, granted the role. */
  ghost predicate GrantedAt(t: Table, events: seq<Event>, i: nat, n: nat)
    requires i < |Log(t, events)| && n < |events|
  {
    var entry := Log(t, events)[i];
    && |Log(t, events[..n])| == i
    && entry.RoleChanged? && entry.grantor != entry.user
    && RoleOf(Run(t, events[..n]), entry.grantor) == Some(Admin)
  }

  /** Every role change on record was granted by another user who was an admin then. */
  lemma {:induction false} GrantsByOtherAdmins(t: Table, events: seq<Event>, i: nat)
    requires WellFormed(t) && i < |Log(t, events)| && Log(t, events)[i].RoleChanged?
    ensures exists n: nat :: n < |events| && GrantedAt(t, events, i, n)
  {
    var last := |events| - 1;
    var front := events[..last];
    if i < |Log(t, front)| {
      GrantsByOtherAdmins(t, front, i);
      var n: nat :| n < |front| && GrantedAt(t, front, i, n);
      GrantedLater(t, events, i, n);
    } else {
      GrantedLast(t, events, i);
    }
  }

  lemma GrantedLater(t: Table, events: seq<Event>, i: nat, n: nat)
    requires events != [] && n < |events| - 1
    requires i < |Log(t, events[..|events| - 1])| && GrantedAt(t, events[..|events| - 1], i, n)
    ensures i < |Log(t, events)| && GrantedAt(t, events, i, n)
  {
    assert events[..|events| - 1][..n] == events[..n];
  }

  lemma GrantedLast(t: Table, events: seq<Event>, i: nat)
    requires WellFormed(t) && events != [] && |Log(t, events[..|events| - 1])| <= i < |Log(t, events)|
    requires Log(t, events)[i].RoleChanged?
    ensures GrantedAt(t, events, i, |events| - 1)
  {
    var before, e := Run(t, events[..|events| - 1]), events[|events| - 1];
    RunWellFormed(t, events[..|events| - 1]);
    EntryTells(before, e);
    GrantNeedsAdmin(before, e);
  }

  lemma GrantNeedsAdmin(t: Table, e: Event)
    requires e.SetRole? && !Plan(t, e).Refuse?
    ensures e.actor != e.target && RoleOf(t, e.actor) == Some(Admin)
  {
  }

  /** Over a whole run a user's role differs from its first value only if another
      user, an admin at that moment, granted the role it ends with. */
  lemma RoleMovesByOtherAdmins(t: Table, events: seq<Event>, user: int)
    requires WellFormed(t) && RoleOf(t, user).Some? && RoleOf(Run(t, events), user) != RoleOf(t, user)
    ensures exists i: nat, n: nat ::
              && i < |Log(t, events)| && n < |events| && GrantedAt(t, events, i, n)
              && Log(t, events)[i].user == user && RoleOf(Run(t, events), user) == Some(Log(t, events)[i].role)
  {
    var log := Log(t, events);
    RoleByHistory(t, events, user);
    var i := LastGrant(RoleOf(t, user), log, user);
    GrantsByOtherAdmins(t, events, i);
  }

  /** The entry a changed role came from. */
  lemma {:induction false} LastGrant(first: Option<Role>, log: seq<Entry>, user: int) returns (i: nat)
    requires first.Some? && LoggedRole(first, log, user) != first
    ensures i < |log| && log[i].RoleChanged? && log[i].user == user && LoggedRole(first, log, user) == Some(log[i].role)
  {
    var e := log[|log| - 1];
    if e.RoleChanged? && e.user == user {
      i := |log| - 1;
    } else {
      LoggedRoleKnown(first, log[..|log| - 1], user);
      i := LastGrant(first, log[..|log| - 1], user);
    }
  }

  lemma {:induction false} LoggedRoleKnown(first: Option<Role>, log: seq<Entry>, user: int)
    requires first.Some?
    ensures LoggedRole(first, log, user).Some?
  {
    if log != [] {
      LoggedRoleKnown(first, log[..|log| - 1], user);
    }
  }

  /** What the log gains: one entry for a request that went through, none for a refused one. */
  lemma RequestLogged(t: Table, log: seq<Entry>, e: Event)
    ensures var effect := Plan(t, e);
            if effect.Refuse? then Record(log, effect) == log
            else
              Record(log, effect) == log + [
                match e {
                  case SignIn(_, _, _, _, now) => SignedIn(effect.row.id, now)
                  case Issue(_, target, _, secret, now) => Issued(target, secret, now)
                  case Revoke(_, target, now) => Revoked(target, now)
                  case SetRole(actor, target, role, _) => RoleChanged(target, role, actor)
                  case Logout(actor, now) => LoggedOut(actor, now)
                }]
  {
  }

  // ---- Who may do what, and what signing in touches -----------------------------------------

  /** Exactly when each administrative request goes through. */
  lemma AllowedIff(t: Table, e: Event)
    requires WellFormed(t) && !e.SignIn?
    ensures !Plan(t, e).Refuse? <==>
            match e {
              case Issue(actor, target, _, secret, _) =>
                && RoleOf(t, actor) == Some(Admin)
                && (RoleOf(t, target) == Some(Editor) || RoleOf(t, target) == Some(Admin))
                && forall i :: 0 <= i < |t.rows| && t.rows[i].id != target ==>
                     t.rows[i].keyPrefix != Some(if |secret| <= 11 then secret else secret[..11])
              case Revoke(actor, target, _) =>
                && RoleOf(t, actor) == Some(Admin)
                && exists i :: 0 <= i < |t.rows| && t.rows[i].id == target && t.rows[i].keyHash.Some?
              case SetRole(actor, target, _, _) =>
                RoleOf(t, actor) == Some(Admin) && actor != target && RoleOf(t, target).Some?
              case Logout(actor, _) => RoleOf(t, actor).Some?
              case SignIn(_, _, _, _, _) => true
            }
  {
    if e.Revoke? {
      forall i | 0 <= i < |t.rows| && t.rows[i].id == e.target
        ensures FindUser(t.rows, e.target) == Some(i)
      {
        FindUserAt(t, i);
      }
    }
  }

  /** The unique constraints on e-mail address and Google id. */
  ghost predicate UniqueIdentities(t: Table) {
    && (forall i, j :: 0 <= i < j < |t.rows| ==> t.rows[i].email != t.rows[j].email)
    && (forall i, j :: 0 <= i < j < |t.rows| && t.rows[i].googleId.Some? ==> t.rows[i].googleId != t.rows[j].googleId)
  }

  /** A request other than a sign-in moves nobody's identity. */
  lemma IdentityKept(t: Table, e: Event)
    requires Plan(t, e).Replace?
    ensures var (k, row) := (Plan(t, e).index, Plan(t, e).row);
            && k < |t.rows| && row.id == t.rows[k].id && row.email == t.rows[k].email
            && (row.googleId == t.rows[k].googleId || !GoogleIdTaken(t.rows, row.googleId, row.id))
  {
  }

  lemma NewIdentity(t: Table, e: Event)
    requires WellFormed(t) && Plan(t, e).Insert?
    ensures var row := Plan(t, e).row;
            && (forall i :: 0 <= i < |t.rows| ==> t.rows[i].email != row.email)
            && (row.googleId.Some? ==> forall i :: 0 <= i < |t.rows| ==> t.rows[i].googleId != row.googleId)
  {
  }

  lemma InsertKeepsIdentities(t: Table, row: User)
    requires UniqueIdentities(t)
    requires forall i :: 0 <= i < |t.rows| ==> t.rows[i].email != row.email
    requires row.googleId.Some? ==> forall i :: 0 <= i < |t.rows| ==> t.rows[i].googleId != row.googleId
    ensures UniqueIdentities(Table(t.rows + [row], t.nextId + 1))
  {
  }

  lemma StepKeepsIdentities(t: Table, e: Event)
    requires WellFormed(t) && UniqueIdentities(t)
    ensures UniqueIdentities(Apply(t, Plan(t, e)))
  {
    var effect := Plan(t, e);
    if effect.Insert? {
      NewIdentity(t, e);
      InsertKeepsIdentities(t, effect.row);
    } else if effect.Replace? {
      IdentityKept(t, e);
      ReplaceKeepsIdentities(t, effect.index, effect.row);
    }
  }

  lemma ReplaceKeepsIdentities(t: Table, k: nat, row: User)
    requires WellFormed(t) && UniqueIdentities(t)
    requires k < |t.rows| && row.id == t.rows[k].id && row.email == t.rows[k].email
    requires row.googleId == t.rows[k].googleId || !GoogleIdTaken(t.rows, row.googleId, row.id)
    ensures UniqueIdentities(t.(rows := t.rows[k := row]))
  {
    forall i | 0 <= i < |t.rows| && i != k && row.googleId.Some?
      ensures t.rows[i].googleId != row.googleId
    {
      assert t.rows[i].id != row.id;
    }
  }

  /** No run signs one address, or one Google account, in to two rows. */
  lemma {:induction false} RunKeepsIdentities(t: Table, events: seq<Event>)
    requires WellFormed(t) && UniqueIdentities(t)
    ensures UniqueIdentities(Run(t, events))
  {
    if events != [] {
      var n := |events| - 1;
      RunKeepsIdentities(t, events[..n]);
      RunWellFormed(t, events[..n]);
      StepKeepsIdentities(Run(t, events[..n]), events[n]);
    }
  }

  /** A sign-in is refused exactly when another address already holds the Google id it would write. */
  lemma SignInRefusedIff(t: Table, e: Event)
    requires WellFormed(t) && UniqueIdentities(t) && e.SignIn?
    ensures Plan(t, e).Refuse? <==>
            && e.googleId.Some?
            && (exists i :: 0 <= i < |t.rows| && t.rows[i].googleId == e.googleId
                            && t.rows[i].email != Lower(Strip(e.email)))
            && (e.googleId != Some("") || forall i :: 0 <= i < |t.rows| ==> t.rows[i].email != Lower(Strip(e.email)))
  {
  }

  /** Signing in finds the row of the trimmed, lower-cased address and touches its
      profile only: never the role, the key or the logout stamp. A first sign-in
      starts plain, with no key. */
  lemma SignInTouchesProfile(t: Table, e: Event)
    requires e.SignIn? && !Plan(t, e).Refuse?
    ensures var row := Plan(t, e).row;
            && row.email == Lower(Strip(e.email)) && row.lastLoginAt == Some(e.now) && row.authProvider == "google"
            && (e.name != "" ==> row.name == e.name)
            && (Given(e.googleId) ==> row.googleId == e.googleId)
            && (Given(e.pictureUrl) ==> row.pictureUrl == e.pictureUrl)
            && match Plan(t, e) {
                 case Insert(_, _) =>
                   && row.id == t.nextId && row.role == Plain
                   && row.googleId == e.googleId && row.pictureUrl == e.pictureUrl
                   && row.keyHash.None? && row.keyPrefix.None? && row.sessionsInvalidatedAt.None?
                   && (e.name == "" ==> row.name <= row.email && '@' !in row.name
                                        && (|row.name| < |row.email| ==> row.email[|row.name|] == '@'))
                   && forall i :: 0 <= i < |t.rows| ==> t.rows[i].email != row.email
                 case Replace(k, _, _) =>
                   && k < |t.rows|
                   && row == t.rows[k].(name := row.name, googleId := row.googleId, pictureUrl := row.pictureUrl,
                                        authProvider := "google", lastLoginAt := Some(e.now))
                   && (e.name == "" ==> row.name == t.rows[k].name)
                   && (!Given(e.googleId) ==> row.googleId == t.rows[k].googleId)
                   && (!Given(e.pictureUrl) ==> row.pictureUrl == t.rows[k].pictureUrl)
                 case Refuse(_) => true
               }
  {
    LocalPart(Lower(Strip(e.email)));
  }

  lemma {:induction false} LocalPart(email: string)
    ensures var name := BeforeAt(email);
            name <= email && '@' !in name && (|name| < |email| ==> email[|name|] == '@')
  {
    if email != "" && email[0] != '@' {
      LocalPart(email[1..]);
      assert email == [email[0]] + email[1..];
    }
  }
}
