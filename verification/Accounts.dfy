/**
 Accounts and sessions of the administration panel (internal/admin), one request after another. Random
 values and the clock are inputs; every request of a signed-in user carries its session cookie.
 */
module Accounts {
  import opened Text
  import Bytes

  /** Password hashing with a random salt, its check, and SHA-256 in hexadecimal. */
  datatype World = World(
    hashPassword: (string, int) -> string, verify: (string, string) -> bool, outdated: string -> bool,
    sha: string -> string,
    sessionTtl: int)

  /** CHECK constraints leave two roles and two states. */
  datatype User = User(
    email: string, passwordHash: string, recovery: string, admin: bool, active: bool, mustChange: bool, created: int)

  datatype Session = Session(user: string, tokenHash: string, expires: int)

  datatype State = State(users: map<string, User>, sessions: map<string, Session>)

  predicate HasEmail(users: map<string, User>, id: string, email: string) { id in users && users[id].email == email }

  predicate Holds(sessions: map<string, Session>, id: string, hash: string) {
    id in sessions && sessions[id].tokenHash == hash
  }

  /** Foreign key and the two UNIQUE columns. */
  ghost predicate Valid(st: State) {
    && (forall s :: s in st.sessions ==> st.sessions[s].user in st.users)
    && UniqueEmails(st.users) && UniqueHashes(st.sessions)
  }

  ghost predicate UniqueEmails(users: map<string, User>) {
    forall a, b :: a in users && b in users && users[a].email == users[b].email ==> a == b
  }

  ghost predicate UniqueHashes(sessions: map<string, Session>) {
    forall a, b, h :: Holds(sessions, a, h) && Holds(sessions, b, h) ==> a == b
  }

  // ---- requests -------------------------------------------------------------------------------

  /** What createSession draws, and when. */
  datatype Minted = Minted(id: string, token: string, now: int)

  /** The fields of an update that are present; `temporary` is the generated password of a reset. */
  datatype Edit = Edit(
    rename: bool, role: Option<string>, status: Option<string>, reset: bool, temporary: string, salt: int)

  datatype Request =
    | CreateUser(cookie: string, now: int, id: string, email: string, role: string, password: string, generated: string,
                 salt: int, recoveryKey: string)
    | UpdateUser(cookie: string, now: int, target: string, edit: Edit)
    | DeleteUser(cookie: string, now: int, target: string)
    | Login(email: string, password: string, salt: int, minted: Minted)
    | Logout(cookie: string, now: int)
    | ChangePassword(cookie: string, now: int, current: string, newPassword: string, salt: int)
    | RecoverPassword(email: string, key: string, newPassword: string, salt: int, newKey: string, minted: Minted)
    | ResetPassword(configured: string, salt: int)
    | Visit(cookie: string, now: int)

  datatype Reply =
    | Unauthorized
    | Forbidden
    | Rejected
    | NotFound
    | OwnAccount
    | LastAdmin
    | Done
    | SignedIn(user: string)
    | SessionError

  datatype Outcome = Outcome(state: State, reply: Reply)

  function NormalizeEmail(email: string): string { Lower(Trim(email)) }

  predicate LongEnough(password: string) { |Bytes.Utf8(password)| >= 6 }

  // ---- recovery keys --------------------------------------------------------------------------

  predicate IsKeyChar(c: char) { '0' <= c <= '9' || 'A' <= c <= 'Z' }

  function KeyChars(s: string): string {
    if s == "" then "" else if IsKeyChar(s[0]) then [s[0]] + KeyChars(s[1..]) else KeyChars(s[1..])
  }

  function WithoutPrefix(s: string, prefix: string): string {
    if prefix <= s then s[|prefix|..] else s
  }

  function NormalizeRecoveryKey(key: string): string {
    WithoutPrefix(WithoutPrefix(KeyChars(Upper(Trim(key))), "OPREC"), "OP")
  }

  // ---- sessions -------------------------------------------------------------------------------

  ghost function UserByEmail(users: map<string, User>, email: string): Option<string> {
    if id :| HasEmail(users, id, email) then Some(id) else None
  }

  ghost function Holder(sessions: map<string, Session>, hash: string): Option<string> {
    if id :| Holds(sessions, id, hash) then Some(id) else None
  }

  /** `Require`: the signed-in user, and the state without the session when it has expired or its user is disabled. */
  ghost function Require(w: World, st: State, cookie: string, now: int): (State, Option<string>) {
    if cookie == "" then (st, None)
    else
      match Holder(st.sessions, w.sha(cookie))
      case None => (st, None)
      case Some(id) =>
        var session := st.sessions[id];
        if session.user !in st.users then (st, None)
        else if now > session.expires || !st.users[session.user].active then (st.(sessions := st.sessions - {id}), None)
        else (st, Some(session.user))
  }

  function SessionsDropped(sessions: map<string, Session>, user: string): map<string, Session> {
    map s | s in sessions && sessions[s].user != user :: sessions[s]
  }

  function HashDropped(sessions: map<string, Session>, hash: string): map<string, Session> {
    map s | s in sessions && sessions[s].tokenHash != hash :: sessions[s]
  }

  /** A used id or hash is a constraint violation. */
  ghost function CreateSession(w: World, st: State, user: string, m: Minted): Outcome {
    if m.id in st.sessions || Holder(st.sessions, w.sha(m.token)).Some? then Outcome(st, SessionError)
    else Outcome(st.(sessions := st.sessions[m.id := Session(user, w.sha(m.token), m.now + w.sessionTtl)]),
                 SignedIn(user))
  }

  // ---- passwords ------------------------------------------------------------------------------

  function WithUser(st: State, id: string, user: User): State { st.(users := st.users[id := user]) }

  function SetNewPassword(w: World, st: State, user: string, password: string, salt: int): Option<State>
    requires user in st.users
  {
    var trimmed := Trim(password);
    if !LongEnough(trimmed) then None
    else Some(WithUser(st, user, st.users[user].(passwordHash := w.hashPassword(trimmed, salt), mustChange := false)))
  }

  /** A login upgrades a hash in an outdated format. */
  function Upgraded(w: World, st: State, id: string, password: string, salt: int): State
    requires id in st.users
  {
    var user := st.users[id];
    if w.outdated(user.passwordHash) then WithUser(st, id, user.(passwordHash := w.hashPassword(password, salt)))
    else st
  }

  ghost function LogIn(w: World, st: State, r: Request): Outcome
    requires r.Login?
  {
    match UserByEmail(st.users, NormalizeEmail(r.email))
    case None => Outcome(st, Unauthorized)
    case Some(id) =>
      if !st.users[id].active || !w.verify(r.password, st.users[id].passwordHash) then Outcome(st, Unauthorized)
      else CreateSession(w, Upgraded(w, st, id, r.password, r.salt), id, r.minted)
  }

  /** A recovery sets the password, rotates the recovery key and drops the user's sessions. */
  function Rotated(w: World, st: State, id: string, password: string, salt: int, newKey: string): Option<State>
    requires id in st.users
  {
    match SetNewPassword(w, st, id, password, salt)
    case None => None
    case Some(changed) =>
      Some(State(changed.users[id := changed.users[id].(recovery := w.sha(NormalizeRecoveryKey(newKey)))],
                 SessionsDropped(st.sessions, id)))
  }

  predicate KeyMatches(w: World, user: User, key: string) {
    NormalizeRecoveryKey(key) != "" && w.sha(NormalizeRecoveryKey(key)) == user.recovery
  }

  ghost function Recover(w: World, st: State, r: Request): Outcome
    requires r.RecoverPassword?
  {
    match UserByEmail(st.users, NormalizeEmail(r.email))
    case None => Outcome(st, Rejected)
    case Some(id) =>
      if !st.users[id].active || st.users[id].recovery == "" then Outcome(st, Rejected)
      else if !KeyMatches(w, st.users[id], r.key) then Outcome(st, Unauthorized)
      else
        match Rotated(w, st, id, r.newPassword, r.salt, r.newKey)
        case None => Outcome(st, Rejected)
        case Some(rotated) => CreateSession(w, rotated, id, r.minted)
  }

  /** The oldest admin, of any status; equal stamps are ordered by id here, which PostgreSQL leaves open. */
  predicate FirstAdmin(users: map<string, User>, id: string) {
    && id in users && users[id].admin
    && forall other :: other in users && users[other].admin && other != id ==>
         users[id].created < users[other].created || (users[id].created == users[other].created && Less(id, other))
  }

  ghost function ResetFirstAdmin(w: World, st: State, configured: string, salt: int): Outcome {
    if id :| FirstAdmin(st.users, id) then
      Outcome(State(st.users[id :=
                             st.users[id].(passwordHash := w.hashPassword(configured, salt), mustChange := false)],
                    SessionsDropped(st.sessions, id)), Done)
    else Outcome(st, Done)
  }

  // ---- user management ------------------------------------------------------------------------

  function RoleName(admin: bool): string { if admin then "admin" else "user" }

  function StatusName(active: bool): string { if active then "active" else "disabled" }

  predicate AnotherAdminExists(users: map<string, User>, excluding: string) {
    exists id :: id in users && id != excluding && users[id].admin && users[id].active
  }

  /** `createAccount` of a user with a recovery key. */
  ghost function CreateAccount(
      w: World, st: State, id: string, email: string, admin: bool, password: string, salt: int, mustChange: bool,
      recoveryKey: string, now: int): Outcome
  {
    var address := NormalizeEmail(email);
    if address == "" || '@' !in address || id in st.users || UserByEmail(st.users, address).Some? then
      Outcome(st, Rejected)
    else
      Outcome(WithUser(st, id,
                       User(address, w.hashPassword(password, salt), w.sha(NormalizeRecoveryKey(recoveryKey)), admin,
                                    true, mustChange, now)), Done)
  }

  ghost function Create(w: World, st: State, r: Request): Outcome
    requires r.CreateUser?
  {
    var role := if r.role == "" then "user" else r.role;
    var password := if Trim(r.password) == "" then r.generated else Trim(r.password);
    if role != "admin" && role != "user" then Outcome(st, Rejected)
    else if !LongEnough(password) then Outcome(st, Rejected)
    else CreateAccount(w, st, r.id, r.email, role == "admin", password, r.salt, true, r.recoveryKey, r.now)
  }

  predicate TouchesOwn(user: User, e: Edit) {
    || (e.role.Some? && e.role.value != RoleName(user.admin))
    || (e.status.Some? && e.status.value != StatusName(user.active))
    || e.reset
  }

  predicate Demotes(user: User, e: Edit) { e.role.Some? && user.admin && e.role.value != "admin" }

  predicate Understood(e: Edit) {
    && (e.role.Some? ==> e.role.value == "admin" || e.role.value == "user")
    && (e.status.Some? ==> e.status.value == "active" || e.status.value == "disabled")
    && (e.rename || e.role.Some? || e.status.Some? || e.reset)
  }

  function Edited(w: World, user: User, e: Edit): User {
    var edited := user.(admin := if e.role.Some? then e.role.value == "admin" else user.admin,
                        active := if e.status.Some? then e.status.value == "active" else user.active);
    if e.reset then edited.(passwordHash := w.hashPassword(e.temporary, e.salt), mustChange := true) else edited
  }

  predicate DropsSessions(e: Edit) { e.status == Some("disabled") || e.reset }

  /** In the order of the handler: own account, last admin, unknown role or status, nothing to do, update. */
  function Update(w: World, st: State, actor: string, target: string, e: Edit): Outcome {
    if target !in st.users then Outcome(st, NotFound)
    else
      var user := st.users[target];
      if target == actor && TouchesOwn(user, e) then Outcome(st, OwnAccount)
      else if Demotes(user, e) && !AnotherAdminExists(st.users, target) then Outcome(st, LastAdmin)
      else if !Understood(e) then Outcome(st, Rejected)
      else
        var updated := WithUser(st, target, Edited(w, user, e));
        Outcome(if DropsSessions(e) then updated.(sessions := SessionsDropped(st.sessions, target)) else updated, Done)
  }

  /** ON DELETE CASCADE takes the sessions along. */
  function Delete(st: State, actor: string, target: string): Outcome {
    if target == actor then Outcome(st, OwnAccount)
    else if target !in st.users then Outcome(st, NotFound)
    else if st.users[target].admin && !AnotherAdminExists(st.users, target) then Outcome(st, LastAdmin)
    else Outcome(State(st.users - {target}, SessionsDropped(st.sessions, target)), Done)
  }

  predicate ForAdmins(r: Request) { r.CreateUser? || r.UpdateUser? || r.DeleteUser? }

  ghost function ByAdmin(w: World, st: State, actor: string, r: Request): Outcome
    requires ForAdmins(r)
  {
    if r.CreateUser? then Create(w, st, r)
    else if r.UpdateUser? then Update(w, st, actor, r.target, r.edit)
    else Delete(st, actor, r.target)
  }

  predicate NeedsSession(r: Request) { ForAdmins(r) || r.Logout? || r.ChangePassword? || r.Visit? }

  /** A request past `Require`, and past `adminOnly` where the route has it. */
  ghost function BySession(w: World, st: State, actor: string, r: Request): Outcome
    requires NeedsSession(r) && actor in st.users
  {
    if ForAdmins(r) then
      if !st.users[actor].admin then Outcome(st, Forbidden) else ByAdmin(w, st, actor, r)
    else if r.Logout? then Outcome(st.(sessions := HashDropped(st.sessions, w.sha(r.cookie))), Done)
    else if r.ChangePassword? then
      if !w.verify(r.current, st.users[actor].passwordHash) then Outcome(st, Rejected)
      else
        match SetNewPassword(w, st, actor, r.newPassword, r.salt)
        case None => Outcome(st, Rejected)
        case Some(changed) => Outcome(changed, Done)
    else Outcome(st, SignedIn(actor))
  }

  ghost function Step(w: World, st: State, r: Request): Outcome {
    if r.Login? then LogIn(w, st, r)
    else if r.RecoverPassword? then Recover(w, st, r)
    else if r.ResetPassword? then ResetFirstAdmin(w, st, r.configured, r.salt)
    else
      var (seen, actor) := Require(w, st, r.cookie, r.now);
      if actor.None? then Outcome(seen, Unauthorized) else BySession(w, seen, actor.value, r)
  }

  /** A start with no users creates the first admin from the configuration. */
  ghost function Bootstrap(
      w: World, st: State, id: string, email: string, password: string, salt: int, key: string, now: int): Outcome
  {
    if st.users != map[] then Outcome(st, Done)
    else CreateAccount(w, st, id, email, true, password, salt, false, key, now)
  }

  ghost function Run(w: World, st: State, rs: seq<Request>): State
    decreases |rs|
  {
    if rs == [] then st else Run(w, Step(w, st, rs[0]).state, rs[1..])
  }
}
