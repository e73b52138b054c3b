/** What holds over every serial run of panel requests: an active admin remains, and dropped sessions stay dropped. */
module AccountRuns {
  import opened Text
  import opened Accounts

  // ---- an active admin ------------------------------------------------------------------------

  predicate ActiveAdmin(st: State, id: string) { id in st.users && st.users[id].admin && st.users[id].active }

  ghost predicate HasActiveAdmin(st: State) { exists id :: ActiveAdmin(st, id) }

  /** `Require` touches sessions only, and lets only active users through. */
  lemma RequireKeepsUsers(w: World, st: State, cookie: string, now: int)
    ensures var (seen, actor) := Require(w, st, cookie, now);
            && seen.users == st.users
            && (actor.Some? ==> seen == st && actor.value in st.users && st.users[actor.value].active)
  {
  }

  lemma OwnEditKeepsRole(w: World, user: User, e: Edit)
    requires !TouchesOwn(user, e)
    ensures Edited(w, user, e).admin == user.admin && Edited(w, user, e).active == user.active
  {
  }

  /** The admin who acts remains an active admin. */
  lemma ActorStaysAdmin(w: World, st: State, actor: string, r: Request)
    requires ForAdmins(r) && ActiveAdmin(st, actor)
    ensures ActiveAdmin(ByAdmin(w, st, actor, r).state, actor) && ByAdmin(w, st, actor, r).reply != LastAdmin
  {
    if r.UpdateUser? && r.target == actor && !TouchesOwn(st.users[actor], r.edit) {
      OwnEditKeepsRole(w, st.users[actor], r.edit);
    }
  }

  lemma OthersKeepAdmins(w: World, st: State, actor: string, r: Request, id: string)
    requires NeedsSession(r) && actor in st.users && !(ForAdmins(r) && st.users[actor].admin) && ActiveAdmin(st, id)
    ensures ActiveAdmin(BySession(w, st, actor, r).state, id)
  {
  }

  lemma LoginKeepsAdmin(w: World, st: State, r: Request, id: string)
    requires r.Login? && ActiveAdmin(st, id)
    ensures ActiveAdmin(LogIn(w, st, r).state, id)
  {
  }

  /** A recovery either changes nothing, or rotates the user's credentials and signs in. */
  lemma RecoverCases(w: World, st: State, r: Request)
    requires r.RecoverPassword?
    ensures var found, o := UserByEmail(st.users, NormalizeEmail(r.email)), Recover(w, st, r);
            || (o.state == st && !o.reply.SignedIn? && o.reply != SessionError)
            || (found.Some? && found.value in st.users && st.users[found.value].active
                && Rotated(w, st, found.value, r.newPassword, r.salt, r.newKey).Some?
                && o == CreateSession(w, Rotated(w, st, found.value, r.newPassword, r.salt, r.newKey).value,
                                      found.value, r.minted))
  {
  }

  lemma RotatedKeepsAdmin(w: World, st: State, user: string, password: string, salt: int, newKey: string, id: string)
    requires user in st.users && ActiveAdmin(st, id) && Rotated(w, st, user, password, salt, newKey).Some?
    ensures ActiveAdmin(Rotated(w, st, user, password, salt, newKey).value, id)
  {
  }

  lemma RecoverKeepsAdmin(w: World, st: State, r: Request, id: string)
    requires r.RecoverPassword? && ActiveAdmin(st, id)
    ensures ActiveAdmin(Recover(w, st, r).state, id)
  {
    RecoverCases(w, st, r);
    if Recover(w, st, r).state != st {
      RotatedKeepsAdmin(w, st, UserByEmail(st.users, NormalizeEmail(r.email)).value, r.newPassword, r.salt, r.newKey,
                        id);
    }
  }

  lemma SessionlessKeepAdmins(w: World, st: State, r: Request, id: string)
    requires !NeedsSession(r) && ActiveAdmin(st, id)
    ensures ActiveAdmin(Step(w, st, r).state, id)
  {
    if r.Login? {
      LoginKeepsAdmin(w, st, r, id);
    } else if r.RecoverPassword? {
      RecoverKeepsAdmin(w, st, r, id);
    }
  }

  lemma StepKeepsActiveAdmin(w: World, st: State, r: Request)
    requires HasActiveAdmin(st)
    ensures HasActiveAdmin(Step(w, st, r).state)
  {
    var id :| ActiveAdmin(st, id);
    if !NeedsSession(r) {
      SessionlessKeepAdmins(w, st, r, id);
    } else {
      RequireKeepsUsers(w, st, r.cookie, r.now);
      var (seen, actor) := Require(w, st, r.cookie, r.now);
      if actor.None? {
        assert ActiveAdmin(Step(w, st, r).state, id);
      } else if ForAdmins(r) && st.users[actor.value].admin {
        ActorStaysAdmin(w, st, actor.value, r);
        assert ActiveAdmin(Step(w, st, r).state, actor.value);
      } else {
        OthersKeepAdmins(w, st, actor.value, r, id);
      }
    }
  }

  lemma {:induction false} RunKeepsActiveAdmin(w: World, st: State, rs: seq<Request>)
    requires HasActiveAdmin(st)
    ensures HasActiveAdmin(Run(w, st, rs))
    decreases |rs|
  {
    if rs != [] {
      StepKeepsActiveAdmin(w, st, rs[0]);
      RunKeepsActiveAdmin(w, Step(w, st, rs[0]).state, rs[1..]);
    }
  }

  /** From the first start on: after any run of requests there is an active admin. */
  lemma AlwaysAnActiveAdmin(
      w: World, id: string, email: string, password: string, salt: int, key: string, now: int, rs: seq<Request>)
    requires Bootstrap(w, State(map[], map[]), id, email, password, salt, key, now).reply == Done
    ensures HasActiveAdmin(Run(w, Bootstrap(w, State(map[], map[]), id, email, password, salt, key, now).state, rs))
  {
    var start := Bootstrap(w, State(map[], map[]), id, email, password, salt, key, now).state;
    assert ActiveAdmin(start, id);
    RunKeepsActiveAdmin(w, start, rs);
  }

  /** One request at a time, the last-admin check never refuses: the acting admin is always another one. */
  lemma LastAdminNeverRefuses(w: World, st: State, r: Request)
    ensures Step(w, st, r).reply != LastAdmin
  {
    if NeedsSession(r) {
      RequireKeepsUsers(w, st, r.cookie, r.now);
      var actor := Require(w, st, r.cookie, r.now).1;
      if actor.Some? && ForAdmins(r) && st.users[actor.value].admin { ActorStaysAdmin(w, st, actor.value, r); }
    }
  }

  // ---- sessions -------------------------------------------------------------------------------

  function MintedToken(r: Request): Option<string> {
    if r.Login? || r.RecoverPassword? then Some(r.minted.token) else None
  }

  /** The request mints a token with the hash of `token`. */
  predicate Mints(w: World, r: Request, token: string) {
    MintedToken(r).Some? && w.sha(MintedToken(r).value) == w.sha(token)
  }

  ghost predicate NeverMinted(w: World, rs: seq<Request>, token: string) {
    forall i :: 0 <= i < |rs| ==> !Mints(w, rs[i], token)
  }

  /** Every session with the hash afterwards was there before, for the same user. */
  ghost predicate NothingGains(before: map<string, Session>, after: map<string, Session>, h: string) {
    forall s :: Holds(after, s, h) ==> Holds(before, s, h) && before[s].user == after[s].user
  }

  lemma CreateGains(w: World, st: State, user: string, m: Minted, h: string)
    requires w.sha(m.token) != h
    ensures NothingGains(st.sessions, CreateSession(w, st, user, m).state.sessions, h)
  {
  }

  lemma RequireGains(w: World, st: State, cookie: string, now: int, h: string)
    ensures NothingGains(st.sessions, Require(w, st, cookie, now).0.sessions, h)
  {
  }

  lemma AdminGains(w: World, st: State, actor: string, r: Request, h: string)
    requires ForAdmins(r)
    ensures NothingGains(st.sessions, ByAdmin(w, st, actor, r).state.sessions, h)
  {
  }

  lemma SessionGains(w: World, st: State, actor: string, r: Request, h: string)
    requires NeedsSession(r) && actor in st.users
    ensures NothingGains(st.sessions, BySession(w, st, actor, r).state.sessions, h)
  {
    if ForAdmins(r) { AdminGains(w, st, actor, r, h); }
  }

  lemma LoginGains(w: World, st: State, r: Request, h: string)
    requires r.Login? && w.sha(r.minted.token) != h
    ensures NothingGains(st.sessions, LogIn(w, st, r).state.sessions, h)
  {
  }

  lemma RecoverGains(w: World, st: State, r: Request, h: string)
    requires r.RecoverPassword? && w.sha(r.minted.token) != h
    ensures NothingGains(st.sessions, Recover(w, st, r).state.sessions, h)
  {
  }

  /** Only the login or recovery that mints a token adds a session with its hash. */
  lemma StepGains(w: World, st: State, r: Request, h: string)
    requires MintedToken(r).Some? ==> w.sha(MintedToken(r).value) != h
    ensures NothingGains(st.sessions, Step(w, st, r).state.sessions, h)
  {
    if r.Login? {
      LoginGains(w, st, r, h);
    } else if r.RecoverPassword? {
      RecoverGains(w, st, r, h);
    } else if NeedsSession(r) {
      RequireKeepsUsers(w, st, r.cookie, r.now);
      RequireGains(w, st, r.cookie, r.now, h);
      var (seen, actor) := Require(w, st, r.cookie, r.now);
      if actor.Some? { SessionGains(w, seen, actor.value, r, h); }
    }
  }

  /** No session has the token's hash. */
  ghost predicate Dead(w: World, st: State, token: string) {
    forall s :: !Holds(st.sessions, s, w.sha(token))
  }

  ghost predicate Belongs(w: World, st: State, token: string, user: string) {
    forall s :: Holds(st.sessions, s, w.sha(token)) ==> st.sessions[s].user == user
  }

  lemma {:induction false} DeadForever(w: World, st: State, rs: seq<Request>, token: string)
    requires NeverMinted(w, rs, token) && Dead(w, st, token)
    ensures Dead(w, Run(w, st, rs), token)
    decreases |rs|
  {
    if rs != [] {
      assert !Mints(w, rs[0], token);
      StepGains(w, st, rs[0], w.sha(token));
      DeadForever(w, Step(w, st, rs[0]).state, rs[1..], token);
    }
  }

  lemma {:induction false} BelongsForever(w: World, st: State, rs: seq<Request>, token: string, user: string)
    requires NeverMinted(w, rs, token) && Belongs(w, st, token, user)
    ensures Belongs(w, Run(w, st, rs), token, user)
    decreases |rs|
  {
    if rs != [] {
      assert !Mints(w, rs[0], token);
      StepGains(w, st, rs[0], w.sha(token));
      BelongsForever(w, Step(w, st, rs[0]).state, rs[1..], token, user);
    }
  }

  /** A session cookie is accepted at this time. */
  ghost predicate Accepts(w: World, st: State, cookie: string, now: int) {
    Require(w, st, cookie, now).1.Some?
  }

  /** Accepted exactly when an unexpired session of an active user has the cookie's hash. */
  lemma AcceptedExactlyWhenLive(w: World, st: State, cookie: string, now: int)
    requires Valid(st)
    ensures Accepts(w, st, cookie, now) <==>
            cookie != "" && exists s :: Holds(st.sessions, s, w.sha(cookie)) && now <= st.sessions[s].expires
                                        && st.users[st.sessions[s].user].active
  {
    if s :| Holds(st.sessions, s, w.sha(cookie)) { HolderIs(st.sessions, s, w.sha(cookie)); }
  }

  lemma HolderIs(sessions: map<string, Session>, s: string, h: string)
    requires UniqueHashes(sessions) && Holds(sessions, s, h)
    ensures Holder(sessions, h) == Some(s)
  {
  }

  // ---- requests that end every session of a user ----------------------------------------------

  lemma FirstAdminUnique(users: map<string, User>, a: string, b: string)
    requires FirstAdmin(users, a) && FirstAdmin(users, b)
    ensures a == b
  {
    LessTotal(a, b);
  }

  /** The user is disabled, reset by an admin, deleted, recovered, or reset from the command line. */
  ghost predicate Drops(w: World, st: State, r: Request, user: string) {
    var reply := Step(w, st, r).reply;
    || (r.UpdateUser? && r.target == user && DropsSessions(r.edit) && reply == Done)
    || (r.DeleteUser? && r.target == user && reply == Done)
    || (r.RecoverPassword? && UserByEmail(st.users, NormalizeEmail(r.email)) == Some(user)
        && (reply == SignedIn(user) || reply == SessionError))
    || (r.ResetPassword? && FirstAdmin(st.users, user))
  }

  lemma DroppedByAdmin(w: World, st: State, r: Request, token: string, user: string)
    requires (r.UpdateUser? || r.DeleteUser?) && Drops(w, st, r, user) && Belongs(w, st, token, user)
    ensures Dead(w, Step(w, st, r).state, token)
  {
    RequireKeepsUsers(w, st, r.cookie, r.now);
  }

  lemma DroppedByRecovery(w: World, st: State, r: Request, token: string, user: string)
    requires r.RecoverPassword? && Drops(w, st, r, user) && Belongs(w, st, token, user) && !Mints(w, r, token)
    ensures Dead(w, Step(w, st, r).state, token)
  {
    var rotated := Rotated(w, st, user, r.newPassword, r.salt, r.newKey).value;
    assert Dead(w, rotated, token);
    CreateGains(w, rotated, user, r.minted, w.sha(token));
  }

  lemma DroppedByReset(w: World, st: State, r: Request, token: string, user: string)
    requires r.ResetPassword? && FirstAdmin(st.users, user) && Belongs(w, st, token, user)
    ensures Dead(w, Step(w, st, r).state, token)
  {
    forall a | FirstAdmin(st.users, a) ensures a == user { FirstAdminUnique(st.users, a, user); }
  }

  lemma DropKills(w: World, st: State, r: Request, token: string, user: string)
    requires Drops(w, st, r, user) && Belongs(w, st, token, user) && !Mints(w, r, token)
    ensures Dead(w, Step(w, st, r).state, token)
  {
    if r.RecoverPassword? {
      DroppedByRecovery(w, st, r, token, user);
    } else if r.ResetPassword? {
      DroppedByReset(w, st, r, token, user);
    } else {
      DroppedByAdmin(w, st, r, token, user);
    }
  }

  lemma CreateMints(w: World, st: State, user: string, m: Minted)
    requires CreateSession(w, st, user, m).reply.SignedIn?
    ensures var o := CreateSession(w, st, user, m);
            && o.reply.user == user && Holds(o.state.sessions, m.id, w.sha(m.token))
            && forall s :: Holds(o.state.sessions, s, w.sha(m.token)) ==> o.state.sessions[s].user == user
  {
    var o := CreateSession(w, st, user, m);
    forall s | Holds(o.state.sessions, s, w.sha(m.token)) ensures o.state.sessions[s].user == user {
      if s != m.id { assert Holds(st.sessions, s, w.sha(m.token)); }
    }
  }

  /** A granted login or recovery leaves its token with the user it signed in. */
  lemma LoginMints(w: World, st: State, r: Request)
    requires MintedToken(r).Some? && Step(w, st, r).reply.SignedIn?
    ensures var o := Step(w, st, r);
            && Belongs(w, o.state, r.minted.token, o.reply.user)
            && Holds(o.state.sessions, r.minted.id, w.sha(r.minted.token))
  {
    var from, id := MintedFrom(w, st, r);
    CreateMints(w, from, id, r.minted);
  }

  lemma MintedFrom(w: World, st: State, r: Request) returns (from: State, id: string)
    requires MintedToken(r).Some? && Step(w, st, r).reply.SignedIn?
    ensures Step(w, st, r) == CreateSession(w, from, id, r.minted)
  {
    id := UserByEmail(st.users, NormalizeEmail(r.email)).value;
    from := if r.Login? then Upgraded(w, st, id, r.password, r.salt)
            else Rotated(w, st, id, r.newPassword, r.salt, r.newKey).value;
  }

  lemma DeadIsRefused(w: World, st: State, token: string, now: int)
    requires Dead(w, st, token)
    ensures !Accepts(w, st, token, now)
  {
  }

  lemma DropRefusesForever(
      w: World, st: State, token: string, user: string, between: seq<Request>, drop: Request, later: seq<Request>,
      now: int)
    requires Belongs(w, st, token, user)
    requires NeverMinted(w, between, token) && NeverMinted(w, later, token) && !Mints(w, drop, token)
    requires Drops(w, Run(w, st, between), drop, user)
    ensures !Accepts(w, Run(w, Step(w, Run(w, st, between), drop).state, later), token, now)
  {
    var before := Run(w, st, between);
    BelongsForever(w, st, between, token, user);
    DropKills(w, before, drop, token, user);
    var dropped := Step(w, before, drop).state;
    DeadForever(w, dropped, later, token);
    DeadIsRefused(w, Run(w, dropped, later), token, now);
  }

  /**
   Once an account has been disabled, reset by an admin or from the command line, deleted or recovered, no
   session created before is ever accepted again: whatever happens between the login and that request, and
   whatever happens after it, enabling the account again included.
   */
  lemma NoEarlierSessionSurvives(
      w: World, st: State, login: Request, between: seq<Request>, drop: Request, later: seq<Request>, now: int)
    requires MintedToken(login).Some? && Step(w, st, login).reply.SignedIn?
    requires var token, user := MintedToken(login).value, Step(w, st, login).reply.user;
             && NeverMinted(w, between, token) && NeverMinted(w, later, token) && !Mints(w, drop, token)
             && Drops(w, Run(w, Step(w, st, login).state, between), drop, user)
    ensures var dropped := Step(w, Run(w, Step(w, st, login).state, between), drop).state;
            !Accepts(w, Run(w, dropped, later), MintedToken(login).value, now)
  {
    LoginMints(w, st, login);
    var o := Step(w, st, login);
    DropRefusesForever(w, o.state, MintedToken(login).value, o.reply.user, between, drop, later, now);
  }

  // ---- the keys of the tables -----------------------------------------------------------------

  lemma NewHash(sessions: map<string, Session>, id: string, session: Session)
    requires UniqueHashes(sessions) && id !in sessions && Holder(sessions, session.tokenHash).None?
    ensures UniqueHashes(sessions[id := session])
  {
    var after := sessions[id := session];
    forall a, b, h | Holds(after, a, h) && Holds(after, b, h) ensures a == b {
      if a != id { assert Holds(sessions, a, h); }
      if b != id { assert Holds(sessions, b, h); }
    }
  }

  lemma CreateValid(w: World, st: State, user: string, m: Minted)
    requires Valid(st) && user in st.users
    ensures Valid(CreateSession(w, st, user, m).state)
  {
    if m.id !in st.sessions && Holder(st.sessions, w.sha(m.token)).None? {
      NewHash(st.sessions, m.id, Session(user, w.sha(m.token), m.now + w.sessionTtl));
    }
  }

  /** Fewer sessions, and the same users with the same addresses, keep every key. */
  lemma FewerSessionsValid(st: State, users: map<string, User>, sessions: map<string, Session>)
    requires Valid(st) && UniqueEmails(users)
    requires forall s :: s in sessions ==>
               s in st.sessions && sessions[s] == st.sessions[s] && sessions[s].user in users
    ensures Valid(State(users, sessions))
  {
    forall a, b, h | Holds(sessions, a, h) && Holds(sessions, b, h) ensures a == b {
      assert Holds(st.sessions, a, h) && Holds(st.sessions, b, h);
    }
  }

  lemma RewrittenUser(st: State, id: string, user: User)
    requires Valid(st) && id in st.users && user.email == st.users[id].email
    ensures Valid(WithUser(st, id, user))
  {
  }

  lemma LoginValid(w: World, st: State, r: Request)
    requires Valid(st) && r.Login?
    ensures Valid(LogIn(w, st, r).state)
  {
    var found := UserByEmail(st.users, NormalizeEmail(r.email));
    if found.Some? {
      var upgraded := Upgraded(w, st, found.value, r.password, r.salt);
      RewrittenUser(st, found.value, upgraded.users[found.value]);
      CreateValid(w, upgraded, found.value, r.minted);
    }
  }

  lemma RotatedValid(w: World, st: State, id: string, password: string, salt: int, newKey: string)
    requires Valid(st) && id in st.users && Rotated(w, st, id, password, salt, newKey).Some?
    ensures Valid(Rotated(w, st, id, password, salt, newKey).value)
  {
    var rotated := Rotated(w, st, id, password, salt, newKey).value;
    FewerSessionsValid(st, rotated.users, rotated.sessions);
  }

  lemma RecoverValid(w: World, st: State, r: Request)
    requires Valid(st) && r.RecoverPassword?
    ensures Valid(Recover(w, st, r).state)
  {
    var found := UserByEmail(st.users, NormalizeEmail(r.email));
    if found.Some? {
      var rotated := Rotated(w, st, found.value, r.newPassword, r.salt, r.newKey);
      if rotated.Some? {
        RotatedValid(w, st, found.value, r.newPassword, r.salt, r.newKey);
        CreateValid(w, rotated.value, found.value, r.minted);
      }
    }
  }

  lemma ResetValid(w: World, st: State, configured: string, salt: int)
    requires Valid(st)
    ensures Valid(ResetFirstAdmin(w, st, configured, salt).state)
  {
    var after := ResetFirstAdmin(w, st, configured, salt).state;
    FewerSessionsValid(st, after.users, after.sessions);
  }

  lemma NewEmail(users: map<string, User>, id: string, user: User)
    requires UniqueEmails(users) && id !in users && UserByEmail(users, user.email).None?
    ensures UniqueEmails(users[id := user])
  {
    forall a | a in users ensures users[a].email != user.email {
      assert !HasEmail(users, a, user.email);
    }
  }

  lemma CreateAccountValid(
      w: World, st: State, id: string, email: string, admin: bool, password: string, salt: int, mustChange: bool,
      recoveryKey: string, now: int)
    requires Valid(st)
    ensures Valid(CreateAccount(w, st, id, email, admin, password, salt, mustChange, recoveryKey, now).state)
  {
    var o := CreateAccount(w, st, id, email, admin, password, salt, mustChange, recoveryKey, now);
    if o.state != st { NewEmail(st.users, id, o.state.users[id]); }
  }

  lemma UpdateValid(w: World, st: State, actor: string, target: string, e: Edit)
    requires Valid(st)
    ensures Valid(Update(w, st, actor, target, e).state)
  {
    if target in st.users {
      var updated := WithUser(st, target, Edited(w, st.users[target], e));
      RewrittenUser(st, target, Edited(w, st.users[target], e));
      FewerSessionsValid(updated, updated.users, SessionsDropped(st.sessions, target));
    }
  }

  lemma DeleteValid(st: State, actor: string, target: string)
    requires Valid(st)
    ensures Valid(Delete(st, actor, target).state)
  {
    var after := Delete(st, actor, target).state;
    FewerSessionsValid(st, after.users, after.sessions);
  }

  lemma AdminValid(w: World, st: State, actor: string, r: Request)
    requires Valid(st) && ForAdmins(r)
    ensures Valid(ByAdmin(w, st, actor, r).state)
  {
    if r.CreateUser? {
      var password := if Trim(r.password) == "" then r.generated else Trim(r.password);
      CreateAccountValid(w, st, r.id, r.email, r.role == "admin", password, r.salt, true, r.recoveryKey, r.now);
    } else if r.UpdateUser? {
      UpdateValid(w, st, actor, r.target, r.edit);
    } else {
      DeleteValid(st, actor, r.target);
    }
  }

  lemma SessionValid(w: World, st: State, actor: string, r: Request)
    requires Valid(st) && NeedsSession(r) && actor in st.users
    ensures Valid(BySession(w, st, actor, r).state)
  {
    if ForAdmins(r) {
      AdminValid(w, st, actor, r);
    } else {
      var after := BySession(w, st, actor, r).state;
      FewerSessionsValid(st, after.users, after.sessions);
    }
  }

  /** Every request keeps the keys of the tables. */
  lemma StepValid(w: World, st: State, r: Request)
    requires Valid(st)
    ensures Valid(Step(w, st, r).state)
  {
    if r.Login? {
      LoginValid(w, st, r);
    } else if r.RecoverPassword? {
      RecoverValid(w, st, r);
    } else if r.ResetPassword? {
      ResetValid(w, st, r.configured, r.salt);
    } else {
      var (seen, actor) := Require(w, st, r.cookie, r.now);
      FewerSessionsValid(st, seen.users, seen.sessions);
      if actor.Some? { SessionValid(w, seen, actor.value, r); }
    }
  }

  // ---- how long a session lives ---------------------------------------------------------------

  /** The session's end: its user's sessions are dropped, its cookie logs out, or its cookie is refused. */
  ghost predicate Ends(w: World, st: State, r: Request, s: string)
    requires s in st.sessions
  {
    var reply := Step(w, st, r).reply;
    || Drops(w, st, r, st.sessions[s].user)
    || (NeedsSession(r) && r.cookie != "" && w.sha(r.cookie) == st.sessions[s].tokenHash
        && (reply == Unauthorized || (r.Logout? && reply == Done)))
  }

  lemma CreateKeeps(w: World, st: State, user: string, m: Minted, s: string, h: string)
    requires w.sha(m.token) != h
    ensures Holds(CreateSession(w, st, user, m).state.sessions, s, h) <==> Holds(st.sessions, s, h)
  {
  }

  lemma LoginEnds(w: World, st: State, r: Request, s: string, h: string)
    requires r.Login? && w.sha(r.minted.token) != h && Holds(st.sessions, s, h)
    ensures Holds(Step(w, st, r).state.sessions, s, h) && !Ends(w, st, r, s)
  {
  }

  lemma RotatedKeeps(w: World, st: State, id: string, password: string, salt: int, newKey: string, s: string, h: string)
    requires id in st.users && Holds(st.sessions, s, h) && Rotated(w, st, id, password, salt, newKey).Some?
    ensures Holds(Rotated(w, st, id, password, salt, newKey).value.sessions, s, h) <==> st.sessions[s].user != id
  {
  }

  lemma RecoverEnds(w: World, st: State, r: Request, s: string, h: string)
    requires r.RecoverPassword? && w.sha(r.minted.token) != h && Holds(st.sessions, s, h)
    ensures Holds(Step(w, st, r).state.sessions, s, h) <==> !Ends(w, st, r, s)
  {
    RecoverCases(w, st, r);
    var o := Recover(w, st, r);
    if o.reply.SignedIn? || o.reply == SessionError {
      var user := UserByEmail(st.users, NormalizeEmail(r.email)).value;
      var rotated := Rotated(w, st, user, r.newPassword, r.salt, r.newKey).value;
      RotatedKeeps(w, st, user, r.newPassword, r.salt, r.newKey, s, h);
      CreateKeeps(w, rotated, user, r.minted, s, h);
    }
  }

  lemma ResetEnds(w: World, st: State, r: Request, s: string, h: string)
    requires r.ResetPassword? && Holds(st.sessions, s, h)
    ensures Holds(Step(w, st, r).state.sessions, s, h) <==> !Ends(w, st, r, s)
  {
    if a :| FirstAdmin(st.users, a) {
      forall b | FirstAdmin(st.users, b) ensures a == b { FirstAdminUnique(st.users, a, b); }
    }
  }

  lemma SessionEnds(w: World, st: State, actor: string, r: Request, s: string, h: string)
    requires NeedsSession(r) && actor in st.users && Holds(st.sessions, s, h)
    ensures var o := BySession(w, st, actor, r);
            Holds(o.state.sessions, s, h) <==>
            !(o.reply == Done
              && ((r.UpdateUser? && r.target == st.sessions[s].user && DropsSessions(r.edit))
                  || (r.DeleteUser? && r.target == st.sessions[s].user)
                  || (r.Logout? && w.sha(r.cookie) == h)))
    ensures BySession(w, st, actor, r).reply != Unauthorized
  {
  }

  lemma CookieEnds(w: World, st: State, r: Request, s: string, h: string)
    requires Valid(st) && NeedsSession(r) && Holds(st.sessions, s, h)
    ensures Holds(Step(w, st, r).state.sessions, s, h) <==> !Ends(w, st, r, s)
  {
    RequireKeepsUsers(w, st, r.cookie, r.now);
    var (seen, actor) := Require(w, st, r.cookie, r.now);
    if w.sha(r.cookie) == h { HolderIs(st.sessions, s, h); }
    if actor.Some? { SessionEnds(w, st, actor.value, r, s, h); }
  }

  /** One request ends a session exactly in those cases. */
  lemma EndsExactlyThen(w: World, st: State, r: Request, s: string, h: string)
    requires Valid(st) && Holds(st.sessions, s, h) && (MintedToken(r).Some? ==> w.sha(MintedToken(r).value) != h)
    ensures Holds(Step(w, st, r).state.sessions, s, h) <==> !Ends(w, st, r, s)
  {
    if r.Login? {
      LoginEnds(w, st, r, s, h);
    } else if r.RecoverPassword? {
      RecoverEnds(w, st, r, s, h);
    } else if r.ResetPassword? {
      ResetEnds(w, st, r, s, h);
    } else {
      CookieEnds(w, st, r, s, h);
    }
  }

  /** Some request of the run ends the session. */
  ghost predicate Ended(w: World, st: State, rs: seq<Request>, s: string)
    decreases |rs|
  {
    rs != [] && s in st.sessions && (Ends(w, st, rs[0], s) || Ended(w, Step(w, st, rs[0]).state, rs[1..], s))
  }

  /** A session is there after a run exactly when no request of the run ended it; otherwise its cookie is dead. */
  lemma {:induction false} LiveExactlyUntilEnded(w: World, st: State, rs: seq<Request>, s: string, token: string)
    requires Valid(st) && NeverMinted(w, rs, token) && Holds(st.sessions, s, w.sha(token))
    ensures if Ended(w, st, rs, s) then Dead(w, Run(w, st, rs), token)
            else Holds(Run(w, st, rs).sessions, s, w.sha(token))
    decreases |rs|
  {
    if rs != [] {
      var r, h := rs[0], w.sha(token);
      assert !Mints(w, r, token);
      var after := Step(w, st, r).state;
      EndsExactlyThen(w, st, r, s, h);
      StepGains(w, st, r, h);
      StepValid(w, st, r);
      if Ends(w, st, r, s) {
        DeadForever(w, after, rs[1..], token);
      } else {
        LiveExactlyUntilEnded(w, after, rs[1..], s, token);
      }
    }
  }
}
