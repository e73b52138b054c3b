/**
 Exactly when each request of the administration panel (internal/admin) is answered how, and every row it leaves, read
 off the rows before it.
 */
module PanelRequests {
  import opened Text
  import opened Accounts
  import Bytes
  import AccountRuns
  import Credentials

  // ---- who is asking --------------------------------------------------------------------------

  /** The session of the cookie. */
  predicate IsSession(w: World, st: State, cookie: string, s: string) {
    cookie != "" && s in st.sessions && st.sessions[s].tokenHash == w.sha(cookie)
  }

  /** It counts up to its last instant, while its user is active. */
  predicate InForce(st: State, s: string, now: int)
    requires s in st.sessions
  {
    now <= st.sessions[s].expires && st.sessions[s].user in st.users && st.users[st.sessions[s].user].active
  }

  /** The cookie speaks for this user. */
  ghost predicate SpeaksFor(w: World, st: State, cookie: string, now: int, user: string) {
    exists s :: IsSession(w, st, cookie, s) && InForce(st, s, now) && st.sessions[s].user == user
  }

  /** Of the sessions exactly those of the cookie that count no more are gone. */
  ghost predicate WithoutStale(w: World, st: State, cookie: string, now: int, after: State) {
    && after.users == st.users
    && (forall s :: s in after.sessions <==> s in st.sessions && !(IsSession(w, st, cookie, s) && !InForce(st, s, now)))
    && (forall s :: s in after.sessions ==> after.sessions[s] == st.sessions[s])
  }

  lemma RequireMeans(w: World, st: State, cookie: string, now: int)
    requires Valid(st)
    ensures var (seen, actor) := Require(w, st, cookie, now);
            && (forall user :: actor == Some(user) <==> SpeaksFor(w, st, cookie, now, user))
            && (actor.Some? ==> seen == st && actor.value in st.users)
            && WithoutStale(w, st, cookie, now, seen)
  {
    var (seen, actor) := Require(w, st, cookie, now);
    if s :| IsSession(w, st, cookie, s) {
      assert Holds(st.sessions, s, w.sha(cookie));
      AccountRuns.HolderIs(st.sessions, s, w.sha(cookie));
      forall t | IsSession(w, st, cookie, t) ensures t == s {
        assert Holds(st.sessions, t, w.sha(cookie));
      }
    } else {
      forall t ensures !Holds(st.sessions, t, w.sha(cookie)) || cookie == "" {
        assert !IsSession(w, st, cookie, t);
      }
    }
  }

  /** Without a session that counts, every request that needs one is refused alike, and stale sessions go. */
  lemma NobodyAsking(w: World, st: State, r: Request)
    requires Valid(st) && NeedsSession(r)
    ensures Step(w, st, r).reply == Unauthorized <==> forall user :: !SpeaksFor(w, st, r.cookie, r.now, user)
    ensures Step(w, st, r).reply == Unauthorized ==> WithoutStale(w, st, r.cookie, r.now, Step(w, st, r).state)
  {
    RequireMeans(w, st, r.cookie, r.now);
    var (seen, actor) := Require(w, st, r.cookie, r.now);
    if actor.Some? {
      NotUnauthorized(w, st, actor.value, r);
      assert SpeaksFor(w, st, r.cookie, r.now, actor.value);
    }
  }

  lemma NotUnauthorized(w: World, st: State, actor: string, r: Request)
    requires NeedsSession(r) && actor in st.users
    ensures BySession(w, st, actor, r).reply != Unauthorized
  {
  }

  lemma Asking(w: World, st: State, r: Request, actor: string)
    requires Valid(st) && NeedsSession(r) && SpeaksFor(w, st, r.cookie, r.now, actor)
    ensures actor in st.users && Step(w, st, r) == BySession(w, st, actor, r)
  {
    RequireMeans(w, st, r.cookie, r.now);
  }

  // ---- rows -----------------------------------------------------------------------------------

  /** One user row is now this. */
  ghost predicate OnlyUser(before: map<string, User>, after: map<string, User>, id: string, row: User) {
    && after.Keys == before.Keys + {id} && after[id] == row
    && forall u :: u in before && u != id ==> after[u] == before[u]
  }

  /** The sessions of the user are gone, and only they. */
  ghost predicate SignedOut(before: map<string, Session>, after: map<string, Session>, user: string) {
    && (forall s :: s in after <==> s in before && before[s].user != user)
    && (forall s :: s in after ==> after[s] == before[s])
  }

  predicate SixBytes(password: string) { |Bytes.Utf8(password)| >= 6 }

  /** No session has the new id or the hash of the new token. */
  ghost predicate SessionFree(w: World, sessions: map<string, Session>, m: Minted) {
    m.id !in sessions && forall s :: s in sessions ==> sessions[s].tokenHash != w.sha(m.token)
  }

  /** One session more: the user's, for the new token, as long as the configuration says. */
  ghost predicate OnlySession(
      w: World, before: map<string, Session>, after: map<string, Session>, user: string, m: Minted)
  {
    after == before[m.id := Session(user, w.sha(m.token), m.now + w.sessionTtl)]
  }

  lemma CreateMeans(w: World, st: State, user: string, m: Minted)
    ensures var o := CreateSession(w, st, user, m);
            && o.state.users == st.users
            && (SessionFree(w, st.sessions, m) ==>
                  o.reply == SignedIn(user) && OnlySession(w, st.sessions, o.state.sessions, user, m))
            && (!SessionFree(w, st.sessions, m) ==> o == Outcome(st, SessionError))
  {
    if s :| s in st.sessions && st.sessions[s].tokenHash == w.sha(m.token) {
      assert Holds(st.sessions, s, w.sha(m.token));
    }
  }

  // ---- signing in and out ---------------------------------------------------------------------

  /** The active user of the address; letter case and outer blanks do not matter. */
  predicate IsActiveUser(st: State, email: string, id: string) {
    id in st.users && st.users[id].email == Lower(Trim(email)) && st.users[id].active
  }

  ghost predicate LogsIn(w: World, st: State, r: Request, id: string)
    requires r.Login?
  {
    IsActiveUser(st, r.email, id) && w.verify(r.password, st.users[id].passwordHash)
  }

  /**
   Exactly the active user of the address whose password verifies signs in, with one new session; an outdated hash is
   replaced, and nothing else of any row changes.
   */
  lemma LoginAnswers(w: World, st: State, r: Request)
    requires Valid(st) && r.Login?
    ensures var o := Step(w, st, r);
            && ((forall id :: !LogsIn(w, st, r, id)) ==> o == Outcome(st, Unauthorized))
            && forall id :: LogsIn(w, st, r, id) ==>
                 var was := st.users[id];
                 var row := if !w.outdated(was.passwordHash) then was
                            else was.(passwordHash := w.hashPassword(r.password, r.salt));
                 && OnlyUser(st.users, o.state.users, id, row)
                 && (SessionFree(w, st.sessions, r.minted) ==>
                       o.reply == SignedIn(id) && OnlySession(w, st.sessions, o.state.sessions, id, r.minted))
                 && (!SessionFree(w, st.sessions, r.minted) ==>
                       o.reply == SessionError && o.state.sessions == st.sessions)
  {
    var found := UserByEmail(st.users, NormalizeEmail(r.email));
    forall id | LogsIn(w, st, r, id) ensures found == Some(id) {
      Credentials.EmailFinds(st.users, id, NormalizeEmail(r.email));
    }
    if found.Some? {
      CreateMeans(w, Upgraded(w, st, found.value, r.password, r.salt), found.value, r.minted);
      assert LogsIn(w, st, r, found.value)
             <==> st.users[found.value].active && w.verify(r.password, st.users[found.value].passwordHash);
    }
  }

  /** A visit shows who is signed in and writes nothing; a logout ends the session of its cookie, and no other. */
  lemma VisitAndLogout(w: World, st: State, r: Request, actor: string)
    requires Valid(st) && (r.Visit? || r.Logout?) && SpeaksFor(w, st, r.cookie, r.now, actor)
    ensures var o := Step(w, st, r);
            && (r.Visit? ==> o == Outcome(st, SignedIn(actor)))
            && (r.Logout? ==>
                  && o.reply == Done && o.state.users == st.users
                  && (forall s :: s in o.state.sessions <==> s in st.sessions && !IsSession(w, st, r.cookie, s))
                  && (forall s :: s in o.state.sessions ==> o.state.sessions[s] == st.sessions[s]))
  {
    Asking(w, st, r, actor);
  }

  // ---- passwords ------------------------------------------------------------------------------

  /** The row after a new password: hashed without outer blanks, and no longer to be changed. */
  function WithPassword(w: World, row: User, password: string, salt: int): User {
    row.(passwordHash := w.hashPassword(Trim(password), salt), mustChange := false)
  }

  /** The own password changes exactly for the right current one and six bytes of new one; sessions stay. */
  lemma PasswordChange(w: World, st: State, r: Request, actor: string)
    requires Valid(st) && r.ChangePassword? && SpeaksFor(w, st, r.cookie, r.now, actor)
    ensures var o := Step(w, st, r);
            if w.verify(r.current, st.users[actor].passwordHash) && SixBytes(Trim(r.newPassword)) then
              && o.reply == Done && o.state.sessions == st.sessions
              && OnlyUser(st.users, o.state.users, actor, WithPassword(w, st.users[actor], r.newPassword, r.salt))
            else o == Outcome(st, Rejected)
  {
    Asking(w, st, r, actor);
  }

  /** The key, normalised, has the stored hash; a user without one cannot recover. */
  predicate KeyOpens(w: World, st: State, id: string, key: string)
    requires id in st.users
  {
    NormalizeRecoveryKey(key) != "" && w.sha(NormalizeRecoveryKey(key)) == st.users[id].recovery
  }

  /**
   A recovery needs an active user with a recovery key, that key, and six bytes of new password. It sets password and
   next recovery key together, and leaves the user one session, the new one.
   */
  lemma RecoveryAnswers(w: World, st: State, r: Request)
    requires Valid(st) && r.RecoverPassword?
    ensures var o := Step(w, st, r);
            && ((forall id :: !IsActiveUser(st, r.email, id)) ==> o == Outcome(st, Rejected))
            && forall id :: IsActiveUser(st, r.email, id) ==>
                 if st.users[id].recovery == "" then o == Outcome(st, Rejected)
                 else if !KeyOpens(w, st, id, r.key) then o == Outcome(st, Unauthorized)
                 else if !SixBytes(Trim(r.newPassword)) then o == Outcome(st, Rejected)
                 else RecoveredAs(w, st, r, id, o)
  {
    var found := UserByEmail(st.users, NormalizeEmail(r.email));
    forall id | IsActiveUser(st, r.email, id) ensures found == Some(id) {
      Credentials.EmailFinds(st.users, id, NormalizeEmail(r.email));
    }
    if found.Some? {
      assert IsActiveUser(st, r.email, found.value) <==> st.users[found.value].active;
      if st.users[found.value].active && st.users[found.value].recovery != "" && KeyOpens(w, st, found.value, r.key)
         && SixBytes(Trim(r.newPassword)) {
        RecoveredMeans(w, st, r, found.value);
      }
    }
  }

  ghost predicate RecoveredAs(w: World, st: State, r: Request, id: string, o: Outcome)
    requires r.RecoverPassword? && id in st.users
  {
    var row := WithPassword(w, st.users[id], r.newPassword, r.salt).(recovery := w.sha(NormalizeRecoveryKey(r.newKey)));
    var kept := map s | s in st.sessions && st.sessions[s].user != id :: st.sessions[s];
    && OnlyUser(st.users, o.state.users, id, row)
    && (SessionFree(w, kept, r.minted) ==>
          o.reply == SignedIn(id) && OnlySession(w, kept, o.state.sessions, id, r.minted))
    && (!SessionFree(w, kept, r.minted) ==> o.reply == SessionError && o.state.sessions == kept)
  }

  lemma RecoveredMeans(w: World, st: State, r: Request, id: string)
    requires r.RecoverPassword? && UserByEmail(st.users, NormalizeEmail(r.email)) == Some(id) && id in st.users
    requires st.users[id].active && st.users[id].recovery != "" && KeyOpens(w, st, id, r.key)
             && SixBytes(Trim(r.newPassword))
    ensures RecoveredAs(w, st, r, id, Step(w, st, r))
  {
    var rotated := Rotated(w, st, id, r.newPassword, r.salt, r.newKey).value;
    CreateMeans(w, rotated, id, r.minted);
  }

  /** The admin, of any status, who has been there longest; of equals the one with the smaller id. */
  ghost predicate IsEldestAdmin(st: State, id: string) {
    && id in st.users && st.users[id].admin
    && forall u :: u in st.users && st.users[u].admin && u != id ==>
         st.users[id].created < st.users[u].created
         || (st.users[id].created == st.users[u].created && Less(id, u))
  }

  lemma EldestIsFirst(st: State, id: string)
    ensures IsEldestAdmin(st, id) <==> FirstAdmin(st.users, id)
  {
  }

  lemma FirstAdminReset(w: World, st: State, configured: string, salt: int, id: string)
    requires FirstAdmin(st.users, id) && forall other :: FirstAdmin(st.users, other) ==> other == id
    ensures var o := ResetFirstAdmin(w, st, configured, salt);
            && o.reply == Done && SignedOut(st.sessions, o.state.sessions, id)
            && OnlyUser(st.users, o.state.users, id,
                        st.users[id].(passwordHash := w.hashPassword(configured, salt), mustChange := false))
  {
  }

  /** The reset from the command line gives the eldest admin the configured password, as it is, and signs him out. */
  lemma CommandLineReset(w: World, st: State, r: Request)
    requires r.ResetPassword?
    ensures var o := Step(w, st, r);
            && o.reply == Done
            && ((forall id :: !IsEldestAdmin(st, id)) ==> o.state == st)
            && forall id :: IsEldestAdmin(st, id) ==>
                 && SignedOut(st.sessions, o.state.sessions, id)
                 && OnlyUser(st.users, o.state.users, id,
                             st.users[id].(passwordHash := w.hashPassword(r.configured, r.salt), mustChange := false))
  {
    forall id ensures IsEldestAdmin(st, id) <==> FirstAdmin(st.users, id) {
      EldestIsFirst(st, id);
    }
    if id :| FirstAdmin(st.users, id) {
      forall other | FirstAdmin(st.users, other) ensures other == id {
        AccountRuns.FirstAdminUnique(st.users, other, id);
      }
      FirstAdminReset(w, st, r.configured, r.salt, id);
    }
  }

  // ---- user management ------------------------------------------------------------------------

  /** Only admins get past the door. */
  lemma OnlyAdminsManage(w: World, st: State, r: Request, actor: string)
    requires Valid(st) && ForAdmins(r) && SpeaksFor(w, st, r.cookie, r.now, actor)
    ensures actor in st.users
    ensures if st.users[actor].admin then Step(w, st, r).reply != Forbidden
            else Step(w, st, r) == Outcome(st, Forbidden)
  {
    Asking(w, st, r, actor);
  }

  /** The row of a new account, under the address in small letters and without outer blanks. */
  function NewUser(
      w: World, email: string, admin: bool, password: string, salt: int, mustChange: bool, key: string, now: int): User
  {
    User(Lower(Trim(email)), w.hashPassword(password, salt), w.sha(NormalizeRecoveryKey(key)), admin, true, mustChange,
         now)
  }

  /** A new id, and an address with an "@" that nobody has. */
  ghost predicate MayRegister(st: State, id: string, email: string) {
    && '@' in Lower(Trim(email)) && id !in st.users
    && forall u :: u in st.users ==> st.users[u].email != Lower(Trim(email))
  }

  lemma RegisterMeans(
      w: World, st: State, id: string, email: string, admin: bool, password: string, salt: int, mustChange: bool,
      key: string, now: int)
    requires Valid(st)
    ensures CreateAccount(w, st, id, email, admin, password, salt, mustChange, key, now)
            == if MayRegister(st, id, email) then
                 Outcome(State(st.users[id := NewUser(w, email, admin, password, salt, mustChange, key, now)],
                               st.sessions), Done)
               else Outcome(st, Rejected)
  {
    var address := NormalizeEmail(email);
    if u :| u in st.users && st.users[u].email == address { Credentials.EmailFinds(st.users, u, address); }
  }

  /** An invited account: a known role, "user" when none is given, and six bytes of password, generated when blank. */
  lemma UserCreation(w: World, st: State, r: Request, actor: string)
    requires Valid(st) && r.CreateUser? && SpeaksFor(w, st, r.cookie, r.now, actor) && actor in st.users
    requires st.users[actor].admin
    ensures var o := Step(w, st, r);
            var password := if Trim(r.password) != "" then Trim(r.password) else r.generated;
            if r.role in {"", "user", "admin"} && SixBytes(password) && MayRegister(st, r.id, r.email) then
              && o.reply == Done && o.state.sessions == st.sessions
              && OnlyUser(st.users, o.state.users, r.id, NewUser(
                   w, r.email, r.role == "admin", password, r.salt, true, r.recoveryKey, r.now))
            else o == Outcome(st, Rejected)
  {
    Asking(w, st, r, actor);
    var password := if Trim(r.password) != "" then Trim(r.password) else r.generated;
    RegisterMeans(w, st, r.id, r.email, r.role == "admin", password, r.salt, true, r.recoveryKey, r.now);
    CreateChecks(w, st, r);
  }

  /** Role and password are looked at first. */
  lemma CreateChecks(w: World, st: State, r: Request)
    requires r.CreateUser?
    ensures var password := if Trim(r.password) != "" then Trim(r.password) else r.generated;
            Create(w, st, r)
            == if r.role in {"", "user", "admin"} && SixBytes(password) then
                 CreateAccount(w, st, r.id, r.email, r.role == "admin", password, r.salt, true, r.recoveryKey, r.now)
               else Outcome(st, Rejected)
  {
  }

  /** The first start makes the configured admin; any other start makes nothing. */
  lemma FirstStart(w: World, st: State, id: string, email: string, password: string, salt: int, key: string, now: int)
    requires Valid(st)
    ensures var o := Bootstrap(w, st, id, email, password, salt, key, now);
            if st.users != map[] then o == Outcome(st, Done)
            else if '@' in Lower(Trim(email)) then
              o.reply == Done && o.state.sessions == st.sessions
              && OnlyUser(st.users, o.state.users, id, NewUser(w, email, true, password, salt, false, key, now))
            else o == Outcome(st, Rejected)
  {
    RegisterMeans(w, st, id, email, true, password, salt, false, key, now);
  }

  /** What an admin may not do to the own account: another role, another status, a reset. */
  predicate LocksOut(row: User, e: Edit) {
    || (e.role.Some? && e.role.value != if row.admin then "admin" else "user")
    || (e.status.Some? && e.status.value != if row.active then "active" else "disabled")
    || e.reset
  }

  /** Known values, and something to do. */
  predicate Sensible(e: Edit) {
    && (e.role == None || e.role == Some("admin") || e.role == Some("user"))
    && (e.status == None || e.status == Some("active") || e.status == Some("disabled"))
    && !(e.role == None && e.status == None && !e.rename && !e.reset)
  }

  /** The row after an edit: address, recovery key and creation time stay; a reset asks for a change. */
  function EditedRow(w: World, row: User, e: Edit): User {
    User(row.email, if e.reset then w.hashPassword(e.temporary, e.salt) else row.passwordHash, row.recovery,
         if e.role.Some? then e.role == Some("admin") else row.admin,
         if e.status.Some? then e.status == Some("active") else row.active,
         e.reset || row.mustChange, row.created)
  }

  /** An edit by an admin: what is refused in which order, and all that an accepted one changes. */
  lemma UserEdit(w: World, st: State, r: Request, actor: string)
    requires Valid(st) && r.UpdateUser? && SpeaksFor(w, st, r.cookie, r.now, actor) && actor in st.users
    requires st.users[actor].admin
    ensures var o, e := Step(w, st, r), r.edit;
            if r.target !in st.users then o == Outcome(st, NotFound)
            else if r.target == actor && LocksOut(st.users[actor], e) then o == Outcome(st, OwnAccount)
            else if !Sensible(e) then o == Outcome(st, Rejected)
            else
              && o.reply == Done && OnlyUser(st.users, o.state.users, r.target, EditedRow(w, st.users[r.target], e))
              && (if e.reset || e.status == Some("disabled") then SignedOut(st.sessions, o.state.sessions, r.target)
                  else o.state.sessions == st.sessions)
  {
    Asking(w, st, r, actor);
    ActorIsActive(w, st, r, actor);
    UpdateMeans(w, st, actor, r.target, r.edit);
  }

  lemma UpdateMeans(w: World, st: State, actor: string, target: string, e: Edit)
    requires actor in st.users && st.users[actor].admin && st.users[actor].active
    ensures var o := Update(w, st, actor, target, e);
            if target !in st.users then o == Outcome(st, NotFound)
            else if target == actor && LocksOut(st.users[actor], e) then o == Outcome(st, OwnAccount)
            else if !Sensible(e) then o == Outcome(st, Rejected)
            else
              && o.reply == Done && OnlyUser(st.users, o.state.users, target, EditedRow(w, st.users[target], e))
              && (if e.reset || e.status == Some("disabled") then SignedOut(st.sessions, o.state.sessions, target)
                  else o.state.sessions == st.sessions)
  {
    assert target != actor ==> AnotherAdminExists(st.users, target);
  }

  lemma ActorIsActive(w: World, st: State, r: Request, actor: string)
    requires Valid(st) && NeedsSession(r) && SpeaksFor(w, st, r.cookie, r.now, actor)
    ensures actor in st.users && st.users[actor].active
  {
  }

  /** A deletion by an admin takes another account with its sessions, and nobody else's. */
  lemma UserRemoval(w: World, st: State, r: Request, actor: string)
    requires Valid(st) && r.DeleteUser? && SpeaksFor(w, st, r.cookie, r.now, actor) && actor in st.users
    requires st.users[actor].admin
    ensures var o := Step(w, st, r);
            if r.target == actor then o == Outcome(st, OwnAccount)
            else if r.target !in st.users then o == Outcome(st, NotFound)
            else
              && o.reply == Done && SignedOut(st.sessions, o.state.sessions, r.target)
              && (forall u :: u in o.state.users <==> u in st.users && u != r.target)
              && (forall u :: u in o.state.users ==> o.state.users[u] == st.users[u])
  {
    Asking(w, st, r, actor);
    ActorIsActive(w, st, r, actor);
    assert r.target != actor ==> AnotherAdminExists(st.users, r.target);
  }
}
